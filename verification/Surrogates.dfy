/** The surrogate scanner for DPoP `jti` claims, and the integer check for `iat`:
    sections 7 and 8.2 of RFC 8259. */
module Surrogates {
  import opened Wrappers

  newtype byte = x: int | 0 <= x < 256

  const QUOTE: byte := 34
  const BACKSLASH: byte := 92
  const LETTER_U: byte := 117

  /** What the inside of a quoted JSON string consists of. */
  datatype Token = Raw(b: byte) | Escape(b: byte) | Unit(code: nat) {
    predicate High() { Unit? && 0xd800 <= code <= 0xdbff }
    predicate Low() { Unit? && 0xdc00 <= code <= 0xdfff }
  }

  function HexDigit(b: byte): Option<nat> {
    if 48 <= b <= 57 then Some(b as int - 48)
    else if 65 <= b <= 70 then Some(b as int - 55)
    else if 97 <= b <= 102 then Some(b as int - 87)
    else None
  }

  const LOWER: seq<byte> := [48, 49, 50, 51, 52, 53, 54, 55, 56, 57, 97, 98, 99, 100, 101, 102]
  const UPPER: seq<byte> := [48, 49, 50, 51, 52, 53, 54, 55, 56, 57, 65, 66, 67, 68, 69, 70]

  /** Digit `n` is the n-th of 0-9a-f or of 0-9A-F, and there are no others. */
  lemma HexDigitExactly(b: byte, n: nat)
    ensures HexDigit(b) == Some(n) <==> n < 16 && (b == LOWER[n] || b == UPPER[n])
  {
  }

  /** `strconv.ParseUint` of four characters in base 16. */
  function Hex4(s: seq<byte>): Option<nat>
    requires |s| == 4
  {
    var a, b, c, d := HexDigit(s[0]), HexDigit(s[1]), HexDigit(s[2]), HexDigit(s[3]);
    if a.None? || b.None? || c.None? || d.None? then None
    else Some(((a.value * 16 + b.value) * 16 + c.value) * 16 + d.value)
  }

  /** Reading into escapes: none when an escape is cut short or a unicode escape
      lacks its four hex digits. */
  function Read(s: seq<byte>): Option<seq<Token>>
    decreases |s|
  {
    if s == [] then Some([])
    else if s[0] != BACKSLASH then Prepend(Raw(s[0]), Read(s[1..]))
    else if |s| < 2 then None
    else if s[1] != LETTER_U then Prepend(Escape(s[1]), Read(s[2..]))
    else if |s| < 6 || Hex4(s[2..6]).None? then None
    else Prepend(Unit(Hex4(s[2..6]).value), Read(s[6..]))
  }

  function Prepend(t: Token, r: Option<seq<Token>>): Option<seq<Token>> {
    if r.None? then None else Some([t] + r.value)
  }

  /** How tokens are written, with either case of hexadecimal digits. */
  predicate Writes(s: seq<byte>, ts: seq<Token>)
    decreases |ts|
  {
    if ts == [] then s == []
    else match ts[0]
      case Raw(b) => b != BACKSLASH && s != [] && s[0] == b && Writes(s[1..], ts[1..])
      case Escape(b) => b != LETTER_U && |s| >= 2 && s[0] == BACKSLASH && s[1] == b && Writes(s[2..], ts[1..])
      case Unit(code) =>
        && |s| >= 6 && s[0] == BACKSLASH && s[1] == LETTER_U && Writes(s[6..], ts[1..])
        && code < 0x1_0000
        && IsDigit(s[2], Place(code, 0)) && IsDigit(s[3], Place(code, 1)) && IsDigit(s[4], Place(code, 2)) && IsDigit(s[5], Place(code, 3))
  }

  /** The hexadecimal digits of a code unit, from the left. */
  function Place(code: nat, i: nat): nat
    requires i < 4
  {
    [code / 0x1000, code / 0x100 % 16, code / 0x10 % 16, code % 16][i]
  }

  predicate IsDigit(b: byte, n: nat) {
    n < 16 && (b == LOWER[n] || b == UPPER[n])
  }

  lemma Hex4Exactly(s: seq<byte>, code: nat)
    requires |s| == 4
    ensures Hex4(s) == Some(code) <==>
            && code < 0x1_0000
            && IsDigit(s[0], Place(code, 0)) && IsDigit(s[1], Place(code, 1)) && IsDigit(s[2], Place(code, 2)) && IsDigit(s[3], Place(code, 3))
  {
    hide HexDigit, IsDigit, Place;
    if Hex4(s) == Some(code) {
      var a, b, c, d := HexDigit(s[0]).value, HexDigit(s[1]).value, HexDigit(s[2]).value, HexDigit(s[3]).value;
      DigitRead(s[0], a); DigitRead(s[1], b); DigitRead(s[2], c); DigitRead(s[3], d);
      PlaceValues(a, b, c, d);
    } else if code < 0x1_0000 {
      var a, b, c, d := Place(code, 0), Place(code, 1), Place(code, 2), Place(code, 3);
      DigitRead(s[0], a); DigitRead(s[1], b); DigitRead(s[2], c); DigitRead(s[3], d);
      PlacesMakeCode(code);
    }
  }

  lemma DigitRead(b: byte, n: nat)
    ensures HexDigit(b) == Some(n) <==> IsDigit(b, n)
    ensures IsDigit(b, n) ==> n < 16
  {
    HexDigitExactly(b, n);
  }

  lemma PlaceValues(a: nat, b: nat, c: nat, d: nat)
    requires a < 16 && b < 16 && c < 16 && d < 16
    ensures var code := ((a * 16 + b) * 16 + c) * 16 + d;
            && code < 0x1_0000 && Place(code, 0) == a && Place(code, 1) == b && Place(code, 2) == c && Place(code, 3) == d
  {
  }

  lemma PlacesMakeCode(code: nat)
    ensures code == ((Place(code, 0) * 16 + Place(code, 1)) * 16 + Place(code, 2)) * 16 + Place(code, 3)
  {
  }

  /** Reading is the inverse of writing: a text reads into exactly the tokens it
      writes, and does not read if it writes none. */
  lemma {:induction false} ReadExactly(s: seq<byte>, ts: seq<Token>)
    ensures Read(s) == Some(ts) <==> Writes(s, ts)
    decreases |s|
  {
    hide Hex4, IsDigit, Place;
    if s == [] {
    } else if s[0] != BACKSLASH {
      if ts != [] { ReadExactly(s[1..], ts[1..]); }
    } else if |s| >= 2 && s[1] != LETTER_U {
      if ts != [] { ReadExactly(s[2..], ts[1..]); }
    } else if |s| >= 6 && ts != [] {
      ReadExactly(s[6..], ts[1..]);
      assert s[2..6][0] == s[2] && s[2..6][1] == s[3] && s[2..6][2] == s[4] && s[2..6][3] == s[5];
      if ts[0].Unit? { Hex4Exactly(s[2..6], ts[0].code); }
      if Hex4(s[2..6]).Some? { Hex4Exactly(s[2..6], Hex4(s[2..6]).value); }
    }
    assert ts != [] ==> ts == [ts[0]] + ts[1..];
  }

  /** Every high surrogate is immediately followed by a low one, and every low
      one immediately preceded by a high one. */
  predicate Paired(ts: seq<Token>) {
    && (forall i :: 0 <= i < |ts| && ts[i].High() ==> i + 1 < |ts| && ts[i + 1].Low())
    && (forall i :: 0 <= i < |ts| && ts[i].Low() ==> i > 0 && ts[i - 1].High())
  }

  predicate WellFormed(s: seq<byte>) {
    Read(s).Some? && Paired(Read(s).value)
  }

  lemma SkipToken(t: Token, ts: seq<Token>)
    requires !t.High() && !t.Low()
    ensures Paired([t] + ts) <==> Paired(ts)
  {
    var us := [t] + ts;
    assert forall i :: 0 <= i < |ts| ==> us[i + 1] == ts[i];
    if Paired(us) {
      forall i | 0 <= i < |ts| && ts[i].High() ensures i + 1 < |ts| && ts[i + 1].Low() { assert us[i + 1].High(); }
      forall i | 0 <= i < |ts| && ts[i].Low() ensures i > 0 && ts[i - 1].High() {
        assert us[i + 1].Low();
        assert us[i].High() && us[0] == t;
      }
    }
    if Paired(ts) {
      forall i | 0 <= i < |us| && us[i].High() ensures i + 1 < |us| && us[i + 1].Low() { assert ts[i - 1].High(); }
      forall i | 0 <= i < |us| && us[i].Low() ensures i > 0 && us[i - 1].High() { assert ts[i - 1].Low(); }
    }
  }

  lemma SkipPair(h: Token, l: Token, ts: seq<Token>)
    requires h.High() && l.Low()
    ensures Paired([h] + ([l] + ts)) <==> Paired(ts)
  {
    var us := [h] + ([l] + ts);
    assert forall i :: 0 <= i < |ts| ==> us[i + 2] == ts[i];
    if Paired(us) {
      forall i | 0 <= i < |ts| && ts[i].High() ensures i + 1 < |ts| && ts[i + 1].Low() { assert us[i + 2].High(); }
      forall i | 0 <= i < |ts| && ts[i].Low() ensures i > 0 && ts[i - 1].High() {
        assert us[i + 2].Low();
        assert us[i + 1].High() && us[1] == l;
      }
    }
    if Paired(ts) {
      forall i | 0 <= i < |us| && us[i].High() ensures i + 1 < |us| && us[i + 1].Low() {
        if i >= 2 { assert ts[i - 2].High(); }
      }
      forall i | 0 <= i < |us| && us[i].Low() ensures i > 0 && us[i - 1].High() {
        if i >= 2 { assert ts[i - 2].Low(); }
      }
    }
  }

  /** A low surrogate that begins the text, and a high one without its partner,
      cannot be repaired by what follows. */
  lemma Unpaired(s: seq<byte>)
    requires |s| >= 6 && s[0] == BACKSLASH && s[1] == LETTER_U && Hex4(s[2..6]).Some?
    ensures Unit(Hex4(s[2..6]).value).Low() ==> !WellFormed(s)
    ensures Unit(Hex4(s[2..6]).value).High() && !LowNext(s[6..]) ==> !WellFormed(s)
  {
    if WellFormed(s) {
      var ts := Read(s).value;
      assert ts[0] == Unit(Hex4(s[2..6]).value);
      if ts[0].High() {
        assert ts[1] == Read(s[6..]).value[0];
        FirstLow(s[6..]);
      }
    }
  }

  /** The text begins with a low surrogate escape. */
  predicate LowNext(s: seq<byte>) {
    && |s| >= 6 && s[0] == BACKSLASH && s[1] == LETTER_U
    && Hex4(s[2..6]).Some? && Unit(Hex4(s[2..6]).value).Low()
  }

  lemma FirstLow(s: seq<byte>)
    requires Read(s).Some? && Read(s).value != []
    ensures Read(s).value[0].Low() <==> LowNext(s)
  {
  }

  /** `hasWellFormedJSONSurrogates`: the scan accepts exactly the quoted strings
      whose inside reads into escapes with paired surrogates. Indexing is always
      in range. */
  method HasWellFormedSurrogates(raw: seq<byte>) returns (ok: bool)
    ensures ok <==> |raw| >= 2 && raw[0] == QUOTE && raw[|raw| - 1] == QUOTE && WellFormed(raw[1..|raw| - 1])
  {
    if |raw| < 2 || raw[0] != QUOTE || raw[|raw| - 1] != QUOTE {
      return false;
    }
    var end := |raw| - 1;
    var i := 1;
    while i < end
      invariant 1 <= i <= end
      invariant WellFormed(raw[1..end]) <==> WellFormed(raw[i..end])
    {
      var next := ScanOne(raw, i, end);
      if next.None? {
        return false;
      }
      i := next.value;
    }
    assert raw[i..end] == [];
    return true;
  }

  /** One turn of the scanner's loop: where the next one starts, if any. */
  method ScanOne(raw: seq<byte>, start: nat, end: nat) returns (next: Option<nat>)
    requires start < end <= |raw|
    ensures next.None? ==> !WellFormed(raw[start..end])
    ensures next.Some? ==>
              start < next.value <= end && (WellFormed(raw[start..end]) <==> WellFormed(raw[next.value..end]))
  {
    ghost var s := raw[start..end];
    var i := start;
    if raw[i] != BACKSLASH {
      StepOver(s, Raw(s[0]), 1);
      assert s[1..] == raw[i + 1..end];
      return Some(i + 1);
    }
    i := i + 1;
    if i >= end {
      return None;
    }
    if raw[i] != LETTER_U {
      StepOver(s, Escape(s[1]), 2);
      assert s[2..] == raw[i + 1..end];
      return Some(i + 1);
    }
    if i + 4 >= end {
      return None;
    }
    SliceOfSlice(raw, start, end, 2, 6);
    var codeUnit := Hex4(raw[i + 1..i + 5]);
    if codeUnit.None? {
      return None;
    }
    next := ScanUnit(raw, start, end, codeUnit.value);
  }

  method ScanUnit(raw: seq<byte>, start: nat, end: nat, codeUnit: nat) returns (next: Option<nat>)
    requires start + 6 <= end <= |raw| && raw[start] == BACKSLASH && raw[start + 1] == LETTER_U
    requires Hex4(raw[start + 2..start + 6]) == Some(codeUnit)
    ensures next.None? ==> !WellFormed(raw[start..end])
    ensures next.Some? ==>
              start < next.value <= end && (WellFormed(raw[start..end]) <==> WellFormed(raw[next.value..end]))
  {
    ghost var s := raw[start..end];
    var i := start + 5;
    SliceOfSlice(raw, start, end, 2, 6);
    assert s[6..] == raw[i + 1..end];
    Unpaired(s);
    if 0xd800 <= codeUnit <= 0xdbff {
      if i + 6 >= end || raw[i + 1] != BACKSLASH || raw[i + 2] != LETTER_U {
        assert !LowNext(s[6..]);
        return None;
      }
      SliceOfSlice(raw, i + 1, end, 2, 6);
      var lowSurrogate := Hex4(raw[i + 3..i + 7]);
      if lowSurrogate.None? || lowSurrogate.value < 0xdc00 || lowSurrogate.value > 0xdfff {
        assert !LowNext(s[6..]);
        return None;
      }
      StepOverPair(s);
      assert s[6..][6..] == raw[i + 7..end];
      return Some(i + 7);
    } else if 0xdc00 <= codeUnit <= 0xdfff {
      return None;
    }
    StepOver(s, Unit(codeUnit), 6);
    return Some(i + 1);
  }

  lemma SliceOfSlice(s: seq<byte>, a: nat, b: nat, lo: nat, hi: nat)
    requires lo <= hi && a + hi <= b <= |s|
    ensures s[a..b][lo..hi] == s[a + lo..a + hi]
  {
    var left, right := s[a..b][lo..hi], s[a + lo..a + hi];
    assert forall i :: 0 <= i < hi - lo ==> left[i] == right[i];
  }

  lemma StepOver(s: seq<byte>, t: Token, n: nat)
    requires n <= |s| && Read(s) == Prepend(t, Read(s[n..])) && !t.High() && !t.Low()
    ensures WellFormed(s) <==> WellFormed(s[n..])
  {
    if Read(s[n..]).Some? {
      SkipToken(t, Read(s[n..]).value);
    }
  }

  lemma StepOverPair(s: seq<byte>)
    requires |s| >= 6 && s[0] == BACKSLASH && s[1] == LETTER_U
    requires Hex4(s[2..6]).Some? && Unit(Hex4(s[2..6]).value).High() && LowNext(s[6..])
    ensures WellFormed(s) <==> WellFormed(s[6..][6..])
  {
    var h, rest := Unit(Hex4(s[2..6]).value), s[6..];
    var l := Unit(Hex4(rest[2..6]).value);
    assert Read(s) == Prepend(h, Read(rest));
    assert Read(rest) == Prepend(l, Read(rest[6..]));
    if Read(rest[6..]).Some? {
      SkipPair(h, l, Read(rest[6..]).value);
    }
  }
}
