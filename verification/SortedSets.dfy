/** Canonical sets in the strict admission profile: strictly sorted lists, their
    two-pointer subset test, and their space-separated form. */
module SortedSets {
  import opened Lists

  /** Go's `<` on strings. */
  predicate Less(a: string, b: string) {
    b != "" && (a == "" || a[0] < b[0] || (a[0] == b[0] && Less(a[1..], b[1..])))
  }

  lemma {:induction false} LessIrreflexive(a: string)
    ensures !Less(a, a)
  {
    if a != "" { LessIrreflexive(a[1..]); }
  }

  lemma {:induction false} LessTransitive(a: string, b: string, c: string)
    requires Less(a, b) && Less(b, c)
    ensures Less(a, c)
  {
    if a != "" && a[0] == b[0] == c[0] {
      LessTransitive(a[1..], b[1..], c[1..]);
    }
  }

  lemma {:induction false} LessTotal(a: string, b: string)
    ensures Less(a, b) || a == b || Less(b, a)
  {
    if a != "" && b != "" && a[0] == b[0] {
      LessTotal(a[1..], b[1..]);
      assert a == [a[0]] + a[1..] && b == [b[0]] + b[1..];
    }
  }

  /** Byte by byte: the shorter of two strings that agree so far comes first,
      otherwise the first difference decides. */
  lemma {:induction false} LessExactly(a: string, b: string)
    ensures Less(a, b) <==> exists n: nat :: Differ(a, b, n) && (n == |a| || a[n] < b[n])
  {
    if a != "" && b != "" && a[0] == b[0] {
      LessExactly(a[1..], b[1..]);
      forall n: nat ensures Differ(a[1..], b[1..], n) <==> Differ(a, b, n + 1) {
        if Differ(a[1..], b[1..], n) { assert a[..n + 1] == [a[0]] + a[1..][..n] && b[..n + 1] == [b[0]] + b[1..][..n]; }
        if Differ(a, b, n + 1) { assert a[1..][..n] == a[..n + 1][1..] && b[1..][..n] == b[..n + 1][1..]; }
      }
      if n: nat :| Differ(a, b, n) && (n == |a| || a[n] < b[n]) {
        assert n > 0 && Differ(a[1..], b[1..], n - 1);
      }
    } else {
      assert a[..0] == b[..0];
      assert b != "" ==> Differ(a, b, 0);
    }
  }

  /** `a` and `b` agree on the first `n` characters, where `b` goes on. */
  predicate Differ(a: string, b: string, n: nat) {
    n <= |a| && n < |b| && a[..n] == b[..n]
  }

  predicate StrictlySorted(s: seq<string>) {
    forall i, j :: 0 <= i < j < |s| ==> Less(s[i], s[j])
  }

  /** `validHumanConfidentialBFFSortedSet`: comparing neighbours is enough. */
  method ValidSortedSet(values: seq<string>, minimum: int, maximum: int, validate: string -> bool) returns (ok: bool)
    ensures ok <==>
            && minimum <= |values| <= maximum
            && (forall i :: 0 <= i < |values| ==> validate(values[i]))
            && StrictlySorted(values)
  {
    if |values| < minimum || |values| > maximum {
      return false;
    }
    var previous := "";
    for index := 0 to |values|
      invariant index > 0 ==> previous == values[index - 1]
      invariant forall i :: 0 <= i < index ==> validate(values[i])
      invariant StrictlySorted(values[..index])
    {
      var value := values[index];
      if !validate(value) {
        return false;
      }
      if index > 0 && !Less(previous, value) {
        assert !StrictlySorted(values) by { assert !Less(values[index - 1], values[index]); }
        return false;
      }
      forall i | 0 <= i < index ensures Less(values[i], value) {
        if i < index - 1 {
          assert Less(values[..index][i], values[..index][index - 1]);
          LessTransitive(values[i], previous, value);
        }
      }
      var longer := values[..index + 1];
      forall i, j | 0 <= i < j < |longer| ensures Less(longer[i], longer[j]) {
        if j < index {
          assert Less(values[..index][i], values[..index][j]);
        }
      }
      previous := value;
    }
    assert values[..|values|] == values;
    return true;
  }

  /** `humanConfidentialBFFSortedSubset`: one pass over both lists. A positive
      answer is right for any lists; on strictly sorted lists the answer is
      exactly set inclusion. */
  method SortedSubset(candidate: seq<string>, admitted: seq<string>) returns (b: bool)
    ensures b ==> Members(candidate) <= Members(admitted)
    ensures StrictlySorted(candidate) && StrictlySorted(admitted) ==> (b <==> Members(candidate) <= Members(admitted))
  {
    var admittedIndex := 0;
    for i := 0 to |candidate|
      invariant 0 <= admittedIndex <= |admitted|
      invariant forall k :: 0 <= k < i ==> candidate[k] in admitted
      invariant StrictlySorted(candidate) && StrictlySorted(admitted) && i < |candidate| ==>
                forall k :: 0 <= k < admittedIndex ==> Less(admitted[k], candidate[i])
    {
      var value := candidate[i];
      while admittedIndex < |admitted| && Less(admitted[admittedIndex], value)
        invariant 0 <= admittedIndex <= |admitted|
        invariant StrictlySorted(candidate) && StrictlySorted(admitted) ==>
                  forall k :: 0 <= k < admittedIndex ==> Less(admitted[k], value)
      {
        admittedIndex := admittedIndex + 1;
      }
      if admittedIndex == |admitted| || admitted[admittedIndex] != value {
        if StrictlySorted(candidate) && StrictlySorted(admitted) {
          Missing(admitted, admittedIndex, value);
          assert value in Members(candidate);
        }
        return false;
      }
      admittedIndex := admittedIndex + 1;
      if StrictlySorted(candidate) && StrictlySorted(admitted) && i + 1 < |candidate| {
        forall k | 0 <= k < admittedIndex ensures Less(admitted[k], candidate[i + 1]) {
          if k < admittedIndex - 1 { LessTransitive(admitted[k], value, candidate[i + 1]); }
        }
      }
    }
    return true;
  }

  /** Between the smaller and the larger entries there is no room for `value`. */
  lemma Missing(admitted: seq<string>, n: nat, value: string)
    requires StrictlySorted(admitted) && n <= |admitted|
    requires forall k :: 0 <= k < n ==> Less(admitted[k], value)
    requires n == |admitted| || (admitted[n] != value && !Less(admitted[n], value))
    ensures value !in admitted
  {
    LessIrreflexive(value);
    if n < |admitted| {
      LessTotal(admitted[n], value);
      forall k | n < k < |admitted| ensures admitted[k] != value {
        if Less(admitted[k], value) || admitted[k] == value {
          LessTransitive(value, admitted[n], admitted[k]);
          if Less(admitted[k], value) { LessTransitive(value, admitted[k], value); }
        }
      }
    }
  }

  // ----- sorted lists are canonical -----

  /** Strictly sorted lists with the same members are the same list. */
  lemma {:induction false} SortedIsCanonical(a: seq<string>, b: seq<string>)
    requires StrictlySorted(a) && StrictlySorted(b) && Members(a) == Members(b)
    ensures a == b
    decreases |a|
  {
    EmptyMembers(a);
    EmptyMembers(b);
    if a != [] {
      LeastFirst(a, b);
      LeastFirst(b, a);
      if Less(a[0], b[0]) && Less(b[0], a[0]) {
        LessTransitive(a[0], b[0], a[0]);
        LessIrreflexive(a[0]);
      }
      assert a[0] == b[0];
      TailMembers(a);
      TailMembers(b);
      SortedIsCanonical(a[1..], b[1..]);
      assert a == [a[0]] + a[1..] && b == [b[0]] + b[1..];
    }
  }

  lemma EmptyMembers(s: seq<string>)
    ensures s == [] <==> Members(s) == {}
  {
    if s != [] { assert s[0] in Members(s); }
  }

  lemma LeastFirst(a: seq<string>, b: seq<string>)
    requires a != [] && b != [] && StrictlySorted(b) && Members(a) <= Members(b)
    ensures b[0] == a[0] || Less(b[0], a[0])
  {
    assert a[0] in Members(b);
    var i :| 0 <= i < |b| && b[i] == a[0];
  }

  lemma TailMembers(a: seq<string>)
    requires a != [] && StrictlySorted(a)
    ensures Members(a[1..]) == Members(a) - {a[0]}
  {
    LessIrreflexive(a[0]);
    forall x ensures x in Members(a[1..]) <==> x in Members(a) && x != a[0] {
      assert a == [a[0]] + a[1..];
      if x in a[1..] {
        var i :| 0 <= i < |a[1..]| && a[1..][i] == x;
        assert Less(a[0], a[i + 1]);
      }
    }
  }

  // ----- the space-separated form -----

  /** `strings.Split(s, " ")`. */
  function Split(s: string): (parts: seq<string>)
    ensures parts != []
  {
    if s == "" then [""]
    else
      var rest := Split(s[1..]);
      if s[0] == ' ' then [""] + rest else [[s[0]] + rest[0]] + rest[1..]
  }

  function Join(parts: seq<string>): string {
    if parts == [] then ""
    else if |parts| == 1 then parts[0]
    else parts[0] + " " + Join(parts[1..])
  }

  lemma JoinCons(part: string, rest: seq<string>)
    requires rest != []
    ensures Join([part] + rest) == part + " " + Join(rest)
  {
    assert ([part] + rest)[1..] == rest;
  }

  lemma {:induction false} JoinExtend(c: char, parts: seq<string>)
    requires parts != []
    ensures Join([[c] + parts[0]] + parts[1..]) == [c] + Join(parts)
  {
    if |parts| > 1 {
      var tail := Join(parts[1..]);
      JoinCons([c] + parts[0], parts[1..]);
      assert ([c] + parts[0]) + " " + tail == [c] + (parts[0] + " " + tail);
    } else {
      assert [[c] + parts[0]] + parts[1..] == [[c] + parts[0]];
    }
  }

  lemma {:induction false} JoinSplit(s: string)
    ensures Join(Split(s)) == s
  {
    if s != "" {
      JoinSplit(s[1..]);
      if s[0] == ' ' {
        JoinCons("", Split(s[1..]));
      } else {
        JoinExtend(s[0], Split(s[1..]));
      }
    }
  }

  predicate NoSpaces(parts: seq<string>) {
    forall i :: 0 <= i < |parts| ==> ' ' !in parts[i]
  }

  lemma {:induction false} SplitNoSpaces(s: string)
    ensures NoSpaces(Split(s))
  {
    if s != "" { SplitNoSpaces(s[1..]); }
  }

  lemma {:induction false} SplitPrefix(part: string, s: string)
    requires ' ' !in part
    ensures Split(part + " " + s) == [part] + Split(s)
    decreases |part|
  {
    var all := part + " " + s;
    if part == "" {
      assert all[1..] == s;
    } else {
      assert all[1..] == part[1..] + " " + s;
      SplitPrefix(part[1..], s);
      assert part == [part[0]] + part[1..];
    }
  }

  lemma {:induction false} SplitOne(part: string)
    requires ' ' !in part
    ensures Split(part) == [part]
  {
    if part != "" {
      SplitOne(part[1..]);
      assert part == [part[0]] + part[1..];
    }
  }

  /** Splitting gives the parts without spaces that were joined. */
  lemma {:induction false} SplitJoin(parts: seq<string>)
    requires parts != [] && NoSpaces(parts)
    ensures Split(Join(parts)) == parts
    decreases |parts|
  {
    if |parts| == 1 {
      SplitOne(parts[0]);
    } else {
      SplitJoin(parts[1..]);
      SplitPrefix(parts[0], Join(parts[1..]));
    }
  }

  function Tokens(value: string): seq<string> {
    if value == "" then [] else Split(value)
  }

  /** `validHumanConfidentialBFFCanonicalSpaceSet`. */
  predicate CanonicalSpaceSet(value: string, minimum: int, maximum: int, validate: string -> bool) {
    if value == "" then minimum == 0
    else
      && minimum <= |Split(value)| <= maximum
      && (forall i :: 0 <= i < |Split(value)| ==> validate(Split(value)[i]))
      && StrictlySorted(Split(value))
  }

  method ValidCanonicalSpaceSet(value: string, minimum: int, maximum: int, validate: string -> bool) returns (ok: bool)
    ensures ok <==> CanonicalSpaceSet(value, minimum, maximum, validate)
  {
    if value == "" {
      return minimum == 0;
    }
    ok := ValidSortedSet(Split(value), minimum, maximum, validate);
  }

  /** Accepted strings are canonical: same members, same string. */
  lemma SameMembersSameString(a: string, b: string, minimum: int, maximum: int, validate: string -> bool)
    requires CanonicalSpaceSet(a, minimum, maximum, validate) && CanonicalSpaceSet(b, minimum, maximum, validate)
    requires Members(Tokens(a)) == Members(Tokens(b))
    ensures a == b
  {
    SortedIsCanonical(Tokens(a), Tokens(b));
    JoinSplit(a);
    JoinSplit(b);
  }
}
