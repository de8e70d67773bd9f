/**
 * Shared helpers: optional values, C `int` arithmetic (32-bit two's
 * complement, division truncating toward zero) and decimal text.
 */
module Base {
  datatype Option<T> = None | Some(value: T)

  const INT_MIN: int := -0x8000_0000
  const INT_MAX: int := 0x7FFF_FFFF
  const TWO32: int := 0x1_0000_0000

  predicate IsInt32(x: int) { INT_MIN <= x <= INT_MAX }

  function Abs(x: int): nat { if x < 0 then -x else x }

  /** The C `int` that a mathematical integer wraps around to. */
  function Wrap32(x: int): (r: int)
    ensures IsInt32(r)
    ensures (r - x) % TWO32 == 0
    ensures IsInt32(x) ==> r == x
  {
    var m := x % TWO32;
    assert x == TWO32 * (x / TWO32) + m;
    if m > INT_MAX then m - TWO32 else m
  }

  /** Integers that agree modulo 2^32 wrap to the same C `int`. */
  lemma Wrap32Congruent(x: int, y: int)
    requires (x - y) % TWO32 == 0
    ensures Wrap32(x) == Wrap32(y)
  {
    var q := (x - y) / TWO32;
    assert x - y == TWO32 * q;
    assert x == y + TWO32 * q;
    assert x % TWO32 == y % TWO32 by {
      ModShift(y, q);
    }
  }

  lemma {:induction false} ModShift(y: int, q: int)
    ensures (y + TWO32 * q) % TWO32 == y % TWO32
    decreases if q < 0 then -q else q
  {
    if q > 0 {
      ModShift(y, q - 1);
      assert y + TWO32 * q == (y + TWO32 * (q - 1)) + TWO32;
    } else if q < 0 {
      ModShift(y, q + 1);
      assert y + TWO32 * q == (y + TWO32 * (q + 1)) - TWO32;
    }
  }

  /** Wrapping twice, or wrapping the parts of a sum, gives the same C `int`. */
  lemma Wrap32Sum(x: int, y: int)
    ensures Wrap32(Wrap32(x) + y) == Wrap32(x + y)
    ensures Wrap32(x + Wrap32(y)) == Wrap32(x + y)
  {
    Wrap32Congruent(Wrap32(x) + y, x + y);
    Wrap32Congruent(x + Wrap32(y), x + y);
  }

  /** Subtracting a wrapped value is adding the wrapped negation. */
  lemma Wrap32Negate(x: int, k: int)
    ensures Wrap32(x + Wrap32(-k)) == Wrap32(x - Wrap32(k))
  {
    Wrap32Sum(x, -k);
    var q := (Wrap32(k) - k) / TWO32;
    assert Wrap32(k) - k == TWO32 * q;
    ModShift(0, -q);
    assert (x - Wrap32(k)) - (x - k) == TWO32 * (-q);
    Wrap32Congruent(x - Wrap32(k), x - k);
  }

  /** C division of `int`s: the quotient is truncated toward zero. */
  function TruncDiv(x: int, y: int): (q: int)
    requires y != 0
    ensures Abs(q) == Abs(x) / Abs(y)
    ensures q == 0 || ((q > 0) <==> ((x > 0) == (y > 0)))
  {
    var a := Abs(x) / Abs(y);
    assert x == 0 ==> a == 0;
    if (x >= 0) == (y > 0) then a else -a
  }

  /** Decimal digits of a natural number, most significant first. */
  function NatToString(n: nat): (s: string)
    ensures |s| > 0
    ensures forall i :: 0 <= i < |s| ==> '0' <= s[i] <= '9'
    decreases n
  {
    var d := [('0' as int + n % 10) as char];
    if n < 10 then d else NatToString(n / 10) + d
  }

  /** `printf("%d")` of an integer: a leading '-' for negative values. */
  function IntToString(n: int): (s: string)
    ensures |s| > 0
    ensures (s[0] == '-') <==> n < 0
  {
    if n < 0 then "-" + NatToString(-n) else NatToString(n)
  }

  /** Reads back the digits written by `NatToString`. */
  function DigitsValue(s: string): nat
    requires forall i :: 0 <= i < |s| ==> '0' <= s[i] <= '9'
  {
    if |s| == 0 then 0
    else 10 * DigitsValue(s[..|s| - 1]) + (s[|s| - 1] as int - '0' as int)
  }

  /** Reads back the text written by `IntToString`. */
  function ParseInt(s: string): int
    requires |s| > 0
    requires forall i :: (if s[0] == '-' then 1 else 0) <= i < |s| ==> '0' <= s[i] <= '9'
  {
    if s[0] == '-' then 0 - DigitsValue(s[1..]) else DigitsValue(s)
  }

  lemma {:induction false} NatToStringRoundTrip(n: nat)
    ensures DigitsValue(NatToString(n)) == n
    decreases n
  {
    var d := [('0' as int + n % 10) as char];
    if n >= 10 {
      NatToStringRoundTrip(n / 10);
      var s := NatToString(n / 10) + d;
      assert s[..|s| - 1] == NatToString(n / 10);
    }
  }

  /** Decimal text round-trips: distinct integers print differently. */
  lemma IntToStringRoundTrip(n: int)
    ensures ParseInt(IntToString(n)) == n
  {
    if n < 0 {
      NatToStringRoundTrip(-n);
      assert IntToString(n)[1..] == NatToString(-n);
    } else {
      NatToStringRoundTrip(n);
    }
  }

  /** Lines written out, each followed by a newline. */
  function Text(ls: seq<string>): (t: string)
    ensures |t| >= |ls|
  {
    if ls == [] then "" else ls[0] + "\n" + Text(ls[1..])
  }

  lemma {:induction false} TextAppend(ls1: seq<string>, ls2: seq<string>)
    ensures Text(ls1 + ls2) == Text(ls1) + Text(ls2)
  {
    if ls1 != [] {
      assert (ls1 + ls2)[1..] == ls1[1..] + ls2;
      TextAppend(ls1[1..], ls2);
    } else {
      assert ls1 + ls2 == ls2;
    }
  }

  /** The first position of c in s, if any. */
  function IndexOf(s: string, c: char): (r: Option<nat>)
    ensures r.Some? ==> r.value < |s| && s[r.value] == c && c !in s[..r.value]
    ensures r.None? ==> c !in s
  {
    if |s| == 0 then None
    else if s[0] == c then Some(0)
    else match IndexOf(s[1..], c)
      case None => None
      case Some(i) => Some(i + 1)
  }

  /** Splits text at every newline; a last line without one is kept. The inverse of `Text`. */
  function SplitLines(s: string): (ls: seq<string>)
    decreases |s|
  {
    if s == [] then []
    else match IndexOf(s, '\n')
      case None => [s]
      case Some(i) => [s[..i]] + SplitLines(s[i + 1..])
  }

  lemma {:induction false} IndexOfAfter(t: string, c: char, rest: string)
    requires c !in t
    ensures IndexOf(t + [c] + rest, c) == Some(|t|)
  {
    if t != [] {
      assert (t + [c] + rest)[1..] == t[1..] + [c] + rest;
      IndexOfAfter(t[1..], c, rest);
    }
  }

  /** Text written by `Text` splits back into its lines when no line holds a newline. */
  lemma {:induction false} SplitLinesText(ls: seq<string>)
    requires forall k | 0 <= k < |ls| :: '\n' !in ls[k]
    ensures SplitLines(Text(ls)) == ls
  {
    if ls != [] {
      var rest := Text(ls[1..]);
      assert Text(ls) == ls[0] + ['\n'] + rest;
      IndexOfAfter(ls[0], '\n', rest);
      assert (ls[0] + ['\n'] + rest)[..|ls[0]|] == ls[0];
      assert (ls[0] + ['\n'] + rest)[|ls[0]| + 1..] == rest;
      SplitLinesText(ls[1..]);
    }
  }

  /** Words joined by the separator c. */
  function Join(ws: seq<string>, c: char): (s: string)
    requires |ws| > 0
  {
    if |ws| == 1 then ws[0] else ws[0] + [c] + Join(ws[1..], c)
  }

  /** Splits at every c; there is always at least one piece. */
  function Split(s: string, c: char): (ws: seq<string>)
    ensures |ws| > 0
    decreases |s|
  {
    match IndexOf(s, c)
    case None => [s]
    case Some(i) => [s[..i]] + Split(s[i + 1..], c)
  }

  /** Joined words split back into themselves when no word holds the separator. */
  lemma {:induction false} SplitJoin(ws: seq<string>, c: char)
    requires |ws| > 0 && forall k | 0 <= k < |ws| :: c !in ws[k]
    ensures Split(Join(ws, c), c) == ws
  {
    if |ws| > 1 {
      var rest := Join(ws[1..], c);
      IndexOfAfter(ws[0], c, rest);
      assert (ws[0] + [c] + rest)[..|ws[0]|] == ws[0];
      assert (ws[0] + [c] + rest)[|ws[0]| + 1..] == rest;
      SplitJoin(ws[1..], c);
    }
  }

  /** A character absent from every word and from the separator is absent from the join. */
  lemma {:induction false} JoinAvoids(ws: seq<string>, c: char, d: char)
    requires |ws| > 0 && d != c && forall k | 0 <= k < |ws| :: d !in ws[k]
    ensures d !in Join(ws, c)
  {
    if |ws| > 1 {
      JoinAvoids(ws[1..], c, d);
    }
  }
}
