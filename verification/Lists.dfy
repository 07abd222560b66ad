/** Finite-list facts shared by the federation model: repeats, membership,
    first-occurrence deduplication and order-preserving filtering. */
module Lists {

  predicate NoRepeats<T(==)>(s: seq<T>) {
    forall i, j :: 0 <= i < j < |s| ==> s[i] != s[j]
  }

  function Members<T(==)>(s: seq<T>): set<T> {
    set x | x in s
  }

  /** `acc` followed by the elements of `s` that are new, in order of first occurrence. */
  function DedupOnto<T(==)>(acc: seq<T>, s: seq<T>): seq<T>
    decreases |s|
  {
    if s == [] then acc
    else DedupOnto(if s[0] in acc then acc else acc + [s[0]], s[1..])
  }

  function Dedup<T(==)>(s: seq<T>): seq<T> {
    DedupOnto([], s)
  }

  /** The elements of `s` that also occur in `other`, in the order (and multiplicity) of `s`. */
  function Keep<T(==)>(s: seq<T>, other: seq<T>): seq<T> {
    if s == [] then []
    else Keep(s[..|s| - 1], other) + (if s[|s| - 1] in other then [s[|s| - 1]] else [])
  }

  lemma {:induction false} DedupOntoAppend<T>(acc: seq<T>, a: seq<T>, b: seq<T>)
    ensures DedupOnto(acc, a + b) == DedupOnto(DedupOnto(acc, a), b)
    decreases |a|
  {
    if a == [] {
      assert a + b == b;
    } else {
      assert (a + b)[1..] == a[1..] + b;
      DedupOntoAppend(if a[0] in acc then acc else acc + [a[0]], a[1..], b);
    }
  }

  lemma {:induction false} DedupOntoMembers<T>(acc: seq<T>, s: seq<T>)
    ensures forall x :: x in DedupOnto(acc, s) <==> x in acc || x in s
    decreases |s|
  {
    if s != [] {
      var acc' := if s[0] in acc then acc else acc + [s[0]];
      DedupOntoMembers(acc', s[1..]);
      assert s == [s[0]] + s[1..];
    }
  }

  lemma {:induction false} DedupOntoNoRepeats<T>(acc: seq<T>, s: seq<T>)
    requires NoRepeats(acc)
    ensures NoRepeats(DedupOnto(acc, s))
    decreases |s|
  {
    if s != [] {
      DedupOntoNoRepeats(if s[0] in acc then acc else acc + [s[0]], s[1..]);
    }
  }

  /** Elements already present add nothing. */
  lemma {:induction false} DedupOntoAbsorbs<T>(acc: seq<T>, s: seq<T>)
    requires forall x :: x in s ==> x in acc
    ensures DedupOnto(acc, s) == acc
    decreases |s|
  {
    if s != [] {
      assert s[0] in s;
      DedupOntoAbsorbs(acc, s[1..]);
    }
  }

  /** A list without repeats and disjoint from `acc` is appended as it is. */
  lemma {:induction false} DedupOntoFresh<T>(acc: seq<T>, s: seq<T>)
    requires NoRepeats(acc + s)
    ensures DedupOnto(acc, s) == acc + s
    decreases |s|
  {
    if s != [] {
      assert (acc + s)[|acc|] == s[0];
      forall i | 0 <= i < |acc| ensures acc[i] != s[0] {
        assert (acc + s)[i] == acc[i];
      }
      assert acc + s == (acc + [s[0]]) + s[1..];
      DedupOntoFresh(acc + [s[0]], s[1..]);
    }
  }

  /** Deduplicating the appended part first changes nothing. */
  lemma {:induction false} DedupOntoDedup<T>(acc: seq<T>, p: seq<T>, s: seq<T>)
    ensures DedupOnto(acc, DedupOnto(p, s)) == DedupOnto(DedupOnto(acc, p), s)
    decreases |s|
  {
    if s != [] {
      DedupOntoMembers(acc, p);
      if s[0] in p {
        DedupOntoDedup(acc, p, s[1..]);
      } else {
        DedupOntoDedup(acc, p + [s[0]], s[1..]);
        DedupOntoAppend(acc, p, [s[0]]);
        assert [s[0]][1..] == [];
      }
    }
  }

  lemma DedupFacts<T>(s: seq<T>)
    ensures NoRepeats(Dedup(s))
    ensures Members(Dedup(s)) == Members(s)
    ensures NoRepeats(s) ==> Dedup(s) == s
  {
    DedupOntoNoRepeats([], s);
    DedupOntoMembers([], s);
    assert Members(Dedup(s)) == Members(s);
    if NoRepeats(s) {
      assert [] + s == s;
      DedupOntoFresh([], s);
    }
  }

  lemma DedupSnoc<T>(s: seq<T>, x: T)
    ensures Dedup(s + [x]) == if x in s then Dedup(s) else Dedup(s) + [x]
  {
    DedupOntoAppend([], s, [x]);
    assert [x][1..] == [];
    DedupOntoMembers([], s);
  }

  /** First occurrences in order: the entries kept stand at increasing positions,
      which are exactly those where an entry occurs for the first time. */
  lemma {:induction false} DedupInOrder<T>(s: seq<T>) returns (at: seq<nat>)
    ensures |at| == |Dedup(s)| && forall i :: 0 <= i < |at| ==> at[i] < |s| && Dedup(s)[i] == s[at[i]]
    ensures forall i, j :: 0 <= i < j < |at| ==> at[i] < at[j]
    ensures forall k :: 0 <= k < |s| ==> (k in at <==> s[k] !in s[..k])
  {
    if s == [] {
      return [];
    }
    var n, front, last := |s| - 1, s[..|s| - 1], s[|s| - 1];
    at := DedupInOrder(front);
    DedupSnoc(front, last);
    assert s == front + [last];
    hide Dedup;
    assert forall k :: 0 <= k < n ==> front[..k] == s[..k] && front[k] == s[k];
    assert forall i :: 0 <= i < |at| ==> at[i] < n;
    if last !in front {
      var longer := at + [n];
      assert forall k :: k in longer <==> k in at || k == n;
      at := longer;
    }
  }

  /** Deduplicated concatenation is associative. */
  lemma DedupAssociative<T>(a: seq<T>, b: seq<T>, c: seq<T>)
    ensures Dedup(Dedup(a + b) + c) == Dedup(a + Dedup(b + c))
  {
    calc {
      Dedup(Dedup(a + b) + c);
    == { DedupOntoAppend([], Dedup(a + b), c); }
      DedupOnto(Dedup(Dedup(a + b)), c);
    == { DedupFacts(a + b); DedupFacts(Dedup(a + b)); }
      DedupOnto(Dedup(a + b), c);
    == { DedupOntoAppend([], a, b); DedupOntoAppend(Dedup(a), b, c); }
      DedupOnto(Dedup(a), b + c);
    == { DedupOntoDedup(Dedup(a), [], b + c); }
      DedupOnto(Dedup(a), Dedup(b + c));
    == { DedupOntoAppend([], a, Dedup(b + c)); }
      Dedup(a + Dedup(b + c));
    }
  }

  lemma {:induction false} KeepMember<T>(s: seq<T>, other: seq<T>, x: T)
    ensures x in Keep(s, other) <==> x in s && x in other
  {
    if s != [] {
      KeepMember(s[..|s| - 1], other, x);
      assert s == s[..|s| - 1] + [s[|s| - 1]];
    }
  }

  lemma KeepMembers<T>(s: seq<T>, other: seq<T>)
    ensures Members(Keep(s, other)) == Members(s) * Members(other)
  {
    forall x ensures x in Members(Keep(s, other)) <==> x in Members(s) && x in Members(other) {
      KeepMember(s, other, x);
    }
    assert Members(Keep(s, other)) == Members(s) * Members(other);
  }

  lemma {:induction false} KeepAppend<T>(s: seq<T>, x: T, other: seq<T>)
    ensures Keep(s + [x], other) == Keep(s, other) + (if x in other then [x] else [])
  {
    assert (s + [x])[..|s|] == s;
  }

  lemma {:induction false} KeepAssociative<T>(a: seq<T>, b: seq<T>, c: seq<T>)
    ensures Keep(c, Keep(b, a)) == Keep(Keep(c, b), a)
  {
    if c != [] {
      var x := c[|c| - 1];
      KeepAssociative(a, b, c[..|c| - 1]);
      KeepMember(b, a, x);
      if x in b {
        KeepAppend(Keep(c[..|c| - 1], b), x, a);
      } else {
        assert Keep(c, b) == Keep(c[..|c| - 1], b);
      }
    }
  }

  /** Counting: a repeat-free list has as many members as entries, any other list has fewer. */
  lemma {:induction false} MembersCount<T>(s: seq<T>)
    ensures |Members(s)| <= |s|
    ensures |Members(s)| == |s| <==> NoRepeats(s)
  {
    if s != [] {
      var t, x := s[..|s| - 1], s[|s| - 1];
      MembersCount(t);
      assert s == t + [x];
      assert Members(s) == Members(t) + {x};
      if x in t {
        assert Members(s) == Members(t);
        var i :| 0 <= i < |t| && t[i] == x;
        assert s[i] == s[|s| - 1];
      } else {
        assert x !in Members(t);
        assert forall i :: 0 <= i < |t| ==> s[i] == t[i];
        if NoRepeats(t) {
          assert NoRepeats(s);
        } else {
          var i, j :| 0 <= i < j < |t| && t[i] == t[j];
          assert s[i] == s[j];
        }
      }
    }
  }

  lemma SubsetCount<T>(a: set<T>, b: set<T>)
    requires a <= b
    ensures |a| <= |b|
    ensures |a| == |b| ==> a == b
  {
    assert b == a + (b - a);
    assert |b| == |a| + |b - a|;
  }
}
