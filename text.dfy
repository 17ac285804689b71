/**
 * The string primitives the server relies on, as Rust's standard library defines them:
 * `str::trim`, ASCII case folding, the lexicographic `Ord` on strings, `strip_prefix`,
 * `eq_ignore_ascii_case`, decimal `Display` of integers and `parse::<u16>()`, and the
 * trim-then-drop-empty chain the server applies to argument and tag lists.
 */
module Text {
  import opened Wrappers

  /** `char::is_whitespace`: the Unicode White_Space property. */
  predicate IsWhitespace(c: char) {
    var n := c as int;
    (9 <= n <= 13) || n == 32 || n == 0x85 || n == 0xA0 || n == 0x1680
    || (0x2000 <= n <= 0x200A) || n == 0x2028 || n == 0x2029 || n == 0x202F
    || n == 0x205F || n == 0x3000
  }

  predicate AllWhitespace(s: string) {
    forall i :: 0 <= i < |s| ==> IsWhitespace(s[i])
  }

  /** `str::trim_start`: the longest suffix that does not start with whitespace. */
  function TrimStart(s: string): (r: string)
    ensures |r| <= |s| && r == s[|s| - |r|..]
    ensures r == [] || !IsWhitespace(r[0])
    ensures forall i :: 0 <= i < |s| - |r| ==> IsWhitespace(s[i])
    decreases |s|
  {
    if s != [] && IsWhitespace(s[0]) then
      var r := TrimStart(s[1..]);
      assert forall i :: 1 <= i < |s| - |r| ==> s[i] == s[1..][i - 1];
      r
    else s
  }

  /** `str::trim_end`: the longest prefix that does not end with whitespace. */
  function TrimEnd(s: string): (r: string)
    ensures |r| <= |s| && r == s[..|r|]
    ensures r == [] || !IsWhitespace(r[|r| - 1])
    ensures forall i :: |r| <= i < |s| ==> IsWhitespace(s[i])
    decreases |s|
  {
    if s != [] && IsWhitespace(s[|s| - 1]) then TrimEnd(s[..|s| - 1]) else s
  }

  /** `str::trim`: whitespace removed from both ends; empty exactly when `s` is all whitespace. */
  function Trim(s: string): (r: string)
    ensures |r| <= |s|
    ensures r == [] || (!IsWhitespace(r[0]) && !IsWhitespace(r[|r| - 1]))
    ensures r == [] <==> AllWhitespace(s)
  {
    var u := TrimStart(s);
    var r := TrimEnd(u);
    assert u != [] ==> s[|s| - |u|] == u[0] && !IsWhitespace(u[0]);
    assert r != [] ==> r[0] == u[0];
    r
  }

  /**
   * Trimming removes whitespace at the two ends and nothing else: the trim is a contiguous
   * part of `s`, and only whitespace lies before it and after it.
   */
  lemma TrimRemovesOnlyEnds(s: string)
    ensures exists k :: 0 <= k <= |s| - |Trim(s)| && Trim(s) <= s[k..]
                        && AllWhitespace(s[..k]) && AllWhitespace(s[k + |Trim(s)|..])
  {
    var u := TrimStart(s);
    var r := TrimEnd(u);
    var k := |s| - |u|;
    assert Trim(s) == r;
    assert u == s[k..] && r == u[..|r|];
    assert r <= s[k..];
    assert s[k + |r|..] == u[|r|..];
    assert AllWhitespace(s[..k]);
  }

  /** A string with no whitespace at either end is its own trim. */
  lemma TrimUnchanged(s: string)
    requires s == [] || (!IsWhitespace(s[0]) && !IsWhitespace(s[|s| - 1]))
    ensures Trim(s) == s
  {
  }

  lemma TrimIdempotent(s: string)
    ensures Trim(Trim(s)) == Trim(s)
  {
    TrimUnchanged(Trim(s));
  }

  /** ASCII-only lower-casing of one character (`char::to_ascii_lowercase`). */
  function LowerAscii(c: char): char {
    if 'A' <= c <= 'Z' then (c as int + 32) as char else c
  }

  /** Lower-casing of a string, character by character. */
  function ToLowerAscii(s: string): string {
    seq(|s|, i requires 0 <= i < |s| => LowerAscii(s[i]))
  }

  /** `str::eq_ignore_ascii_case`: same length and equal after ASCII lower-casing. */
  predicate EqIgnoreAsciiCase(a: string, b: string) {
    |a| == |b| && forall i :: 0 <= i < |a| ==> LowerAscii(a[i]) == LowerAscii(b[i])
  }

  lemma EqIgnoreAsciiCaseIsLowerEquality(a: string, b: string)
    ensures EqIgnoreAsciiCase(a, b) <==> ToLowerAscii(a) == ToLowerAscii(b)
  {
    if ToLowerAscii(a) == ToLowerAscii(b) {
      assert |a| == |ToLowerAscii(a)|;
      forall i | 0 <= i < |a| ensures LowerAscii(a[i]) == LowerAscii(b[i]) {
        assert ToLowerAscii(a)[i] == ToLowerAscii(b)[i];
      }
    }
  }

  /** The `Ord` of Rust strings: lexicographic by character, a proper prefix ordered first. */
  predicate LexLeq(a: string, b: string) {
    a == [] || (b != [] && (a[0] < b[0] || (a[0] == b[0] && LexLeq(a[1..], b[1..]))))
  }

  lemma {:induction false} LexLeqReflexive(a: string)
    ensures LexLeq(a, a)
  {
    if a != [] {
      LexLeqReflexive(a[1..]);
    }
  }

  lemma {:induction false} LexLeqTotal(a: string, b: string)
    ensures LexLeq(a, b) || LexLeq(b, a)
  {
    if a != [] && b != [] && a[0] == b[0] {
      LexLeqTotal(a[1..], b[1..]);
    }
  }

  lemma {:induction false} LexLeqTransitive(a: string, b: string, c: string)
    requires LexLeq(a, b) && LexLeq(b, c)
    ensures LexLeq(a, c)
  {
    if a != [] && b != [] && c != [] && a[0] == b[0] && b[0] == c[0] {
      LexLeqTransitive(a[1..], b[1..], c[1..]);
    }
  }

  lemma {:induction false} LexLeqAntisymmetric(a: string, b: string)
    requires LexLeq(a, b) && LexLeq(b, a)
    ensures a == b
  {
    if a != [] && b != [] {
      LexLeqAntisymmetric(a[1..], b[1..]);
      assert a == [a[0]] + a[1..] && b == [b[0]] + b[1..];
    }
  }

  /** `str::strip_prefix`: the rest of `s` when it starts with `p`. */
  function StripPrefix(s: string, p: string): (r: Option<string>)
    ensures r.Some? <==> (|p| <= |s| && s[..|p|] == p)
    ensures r.Some? ==> s == p + r.value
  {
    if |p| <= |s| && s[..|p|] == p then Some(s[|p|..]) else None
  }

  predicate IsDigit(c: char) {
    '0' <= c <= '9'
  }

  predicate AllDigits(s: string) {
    forall i :: 0 <= i < |s| ==> IsDigit(s[i])
  }

  function DigitChar(d: nat): (c: char)
    requires d < 10
    ensures IsDigit(c)
  {
    ('0' as int + d) as char
  }

  function DigitValue(c: char): (d: nat)
    requires IsDigit(c)
    ensures d < 10
  {
    c as int - '0' as int
  }

  /** `Display` of an unsigned integer: its decimal digits, with no leading zero. */
  function NatToString(n: nat): (r: string)
    ensures r != [] && AllDigits(r)
    ensures |r| > 1 ==> r[0] != '0'
  {
    if n < 10 then [DigitChar(n)] else NatToString(n / 10) + [DigitChar(n % 10)]
  }

  /** `Display` of a signed integer: a minus sign before the digits of a negative value. */
  function IntToString(i: int): (r: string)
    ensures r != []
    ensures i < 0 <==> r[0] == '-'
    ensures i >= 0 ==> AllDigits(r) && DecimalValue(r) == i
    ensures i < 0 ==> AllDigits(r[1..]) && DecimalValue(r[1..]) == -i
    ensures i >= 0 && |r| > 1 ==> r[0] != '0'
    ensures i < 0 ==> |r| > 1 && r[1] != '0'
  {
    if i < 0 then
      DecimalRoundTrip(-i);
      assert ("-" + NatToString(-i))[1..] == NatToString(-i);
      "-" + NatToString(-i)
    else
      DecimalRoundTrip(i);
      NatToString(i)
  }

  /** The value of a string of decimal digits (leading zeros allowed). */
  function DecimalValue(s: string): nat
    requires AllDigits(s)
  {
    if s == [] then 0 else DecimalValue(s[..|s| - 1]) * 10 + DigitValue(s[|s| - 1])
  }

  lemma {:induction false} DecimalRoundTrip(n: nat)
    ensures DecimalValue(NatToString(n)) == n
  {
    var s := NatToString(n);
    if n >= 10 {
      assert s[..|s| - 1] == NatToString(n / 10);
      DecimalRoundTrip(n / 10);
    }
  }

  const U16_MAX: nat := 65535

  /**
   * `str::parse::<u16>()`: an optional `+` sign, then one or more decimal digits whose value
   * fits in 16 bits. A `-` sign, any other character, an empty digit string or overflow fail.
   */
  function ParseU16(s: string): (r: Option<nat>)
    ensures r.Some? ==> r.value <= U16_MAX
  {
    var digits := if s != [] && s[0] == '+' then s[1..] else s;
    if digits == [] || !AllDigits(digits) then None
    else if DecimalValue(digits) <= U16_MAX then Some(DecimalValue(digits))
    else None
  }

  lemma ParseU16RoundTrip(n: nat)
    requires n <= U16_MAX
    ensures ParseU16(NatToString(n)) == Some(n)
    ensures ParseU16("+" + NatToString(n)) == Some(n)
  {
    DecimalRoundTrip(n);
    assert ("+" + NatToString(n))[1..] == NatToString(n);
  }

  /** Every digit string within 16 bits parses to its value, leading zeros and `+` allowed. */
  lemma ParseU16Complete(d: string)
    requires d != [] && AllDigits(d) && DecimalValue(d) <= U16_MAX
    ensures ParseU16(d) == Some(DecimalValue(d))
    ensures ParseU16("+" + d) == Some(DecimalValue(d))
  {
    assert ("+" + d)[1..] == d;
  }

  /** A value beyond 16 bits does not parse, signed or not. */
  lemma ParseU16Overflow(n: nat)
    requires n > U16_MAX
    ensures ParseU16(NatToString(n)) == None
    ensures ParseU16("+" + NatToString(n)) == None
  {
    DecimalRoundTrip(n);
    assert ("+" + NatToString(n))[1..] == NatToString(n);
  }

  /**
   * Only digits parse: whatever parses is, after at most one leading `+`, a non-empty string
   * of decimal digits whose value is the result.
   */
  lemma ParseU16Sound(s: string, n: nat)
    requires ParseU16(s) == Some(n)
    ensures s != [] && (s[0] == '+' || IsDigit(s[0]))
    ensures s[0] == '+' ==> |s| > 1 && AllDigits(s[1..]) && DecimalValue(s[1..]) == n
    ensures s[0] != '+' ==> AllDigits(s) && DecimalValue(s) == n
  {
  }

  /** A leading minus sign is never accepted, not even on zero. */
  lemma ParseU16RejectsMinus(s: string)
    requires s != [] && s[0] == '-'
    ensures ParseU16(s) == None
  {
  }

  /** One entry of the chain: its trim, or nothing when the trim is empty. */
  function TrimmedEntry(x: string): (r: seq<string>)
    ensures r == [] <==> AllWhitespace(x)
    ensures r != [] ==> r == [Trim(x)]
  {
    var t := Trim(x);
    if t == [] then [] else [t]
  }

  /** The `map(trim).filter(non-empty).collect()` chain over a list of strings. */
  function TrimmedNonEmpty(xs: seq<string>): (r: seq<string>)
    ensures |r| <= |xs|
  {
    if xs == [] then [] else TrimmedEntry(xs[0]) + TrimmedNonEmpty(xs[1..])
  }

  lemma ConcatAssociates(x: seq<string>, y: seq<string>, z: seq<string>)
    ensures x + (y + z) == (x + y) + z
  {
  }

  /** The chain works element by element, so it distributes over concatenation: order is kept. */
  lemma {:induction false} TrimmedNonEmptyConcat(a: seq<string>, b: seq<string>)
    ensures TrimmedNonEmpty(a + b) == TrimmedNonEmpty(a) + TrimmedNonEmpty(b)
  {
    if a == [] {
      assert a + b == b;
    } else {
      var c := a + b;
      assert c[0] == a[0] && c[1..] == a[1..] + b;
      TrimmedNonEmptyConcat(a[1..], b);
      ConcatAssociates(TrimmedEntry(a[0]), TrimmedNonEmpty(a[1..]), TrimmedNonEmpty(b));
    }
  }

  /** `s` is the non-empty trim of some element of `xs`. */
  predicate IsNonEmptyTrimOf(xs: seq<string>, s: string) {
    s != [] && exists i :: 0 <= i < |xs| && Trim(xs[i]) == s
  }

  /** Every entry is non-empty and already trimmed. */
  predicate AllTrimmedNonEmpty(r: seq<string>) {
    forall j :: 0 <= j < |r| ==> r[j] != [] && Trim(r[j]) == r[j]
  }

  lemma AllTrimmedNonEmptyConcat(a: seq<string>, b: seq<string>)
    requires AllTrimmedNonEmpty(a) && AllTrimmedNonEmpty(b)
    ensures AllTrimmedNonEmpty(a + b)
  {
    forall j | 0 <= j < |a + b| ensures (a + b)[j] != [] && Trim((a + b)[j]) == (a + b)[j] {
      if j >= |a| {
        assert (a + b)[j] == b[j - |a|];
      } else {
        assert (a + b)[j] == a[j];
      }
    }
  }

  lemma TrimmedEntryIsTrimmed(x: string)
    ensures AllTrimmedNonEmpty(TrimmedEntry(x))
  {
    var t := Trim(x);
    if t != [] {
      TrimIdempotent(x);
      assert Trim([t][0]) == [t][0];
    }
  }

  /** Every element that comes out is non-empty and already trimmed. */
  lemma {:induction false} TrimmedNonEmptyElements(xs: seq<string>)
    ensures AllTrimmedNonEmpty(TrimmedNonEmpty(xs))
  {
    if xs != [] {
      TrimmedNonEmptyElements(xs[1..]);
      TrimmedEntryIsTrimmed(xs[0]);
      AllTrimmedNonEmptyConcat(TrimmedEntry(xs[0]), TrimmedNonEmpty(xs[1..]));
    }
  }

  /** The non-empty trims of a non-empty list: those of its first entry and those of the rest. */
  lemma NonEmptyTrimOfCons(xs: seq<string>, s: string)
    requires xs != []
    ensures IsNonEmptyTrimOf(xs, s) <==> s in TrimmedEntry(xs[0]) || IsNonEmptyTrimOf(xs[1..], s)
  {
    if IsNonEmptyTrimOf(xs[1..], s) {
      var i :| 0 <= i < |xs[1..]| && Trim(xs[1..][i]) == s;
      assert xs[1..][i] == xs[i + 1];
    }
    if IsNonEmptyTrimOf(xs, s) && s !in TrimmedEntry(xs[0]) {
      var i :| 0 <= i < |xs| && Trim(xs[i]) == s;
      assert i != 0;
      assert xs[i] == xs[1..][i - 1];
    }
  }

  /** What comes out is exactly the non-empty trims of what goes in. */
  lemma {:induction false} TrimmedNonEmptyMembership(xs: seq<string>, s: string)
    ensures s in TrimmedNonEmpty(xs) <==> IsNonEmptyTrimOf(xs, s)
  {
    if xs != [] {
      var head := TrimmedEntry(xs[0]);
      var rest := TrimmedNonEmpty(xs[1..]);
      assert s in head + rest <==> s in head || s in rest;
      TrimmedNonEmptyMembership(xs[1..], s);
      NonEmptyTrimOfCons(xs, s);
    }
  }

  lemma TrimmedNonEmptyMembershipAll(xs: seq<string>)
    ensures forall s :: s in TrimmedNonEmpty(xs) <==> IsNonEmptyTrimOf(xs, s)
  {
    forall s ensures s in TrimmedNonEmpty(xs) <==> IsNonEmptyTrimOf(xs, s) {
      TrimmedNonEmptyMembership(xs, s);
    }
  }

  /** An entry's output, normalised again, is itself. */
  lemma TrimmedEntryIdempotent(x: string)
    ensures TrimmedNonEmpty(TrimmedEntry(x)) == TrimmedEntry(x)
  {
    var t := Trim(x);
    if t != [] {
      TrimIdempotent(x);
      assert [t][1..] == [];
      assert TrimmedNonEmpty([t]) == TrimmedEntry(t) + TrimmedNonEmpty([]);
    }
  }

  /** Normalising an already normalised list changes nothing. */
  lemma {:induction false} TrimmedNonEmptyIdempotent(xs: seq<string>)
    ensures TrimmedNonEmpty(TrimmedNonEmpty(xs)) == TrimmedNonEmpty(xs)
  {
    if xs != [] {
      var head := TrimmedEntry(xs[0]);
      var rest := TrimmedNonEmpty(xs[1..]);
      TrimmedNonEmptyIdempotent(xs[1..]);
      TrimmedNonEmptyConcat(head, rest);
      TrimmedEntryIdempotent(xs[0]);
    }
  }
}
