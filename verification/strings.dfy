/** Text helpers shared by the formatter and the disassemblers: decimal digits, padding, joining. */
module Strings {

  function DigitChar(d: nat): (c: char)
    requires d < 10
    ensures '0' <= c <= '9'
  {
    "0123456789"[d]
  }

  /** Decimal rendering of a natural number, as `{}` prints it. */
  function NatToString(n: nat): (s: string)
    ensures |s| > 0
    ensures forall k :: 0 <= k < |s| ==> '0' <= s[k] <= '9'
  {
    if n < 10 then [DigitChar(n)] else NatToString(n / 10) + [DigitChar(n % 10)]
  }

  /** Decimal rendering of an integer, with a leading `-` when negative. */
  function IntToString(i: int): (s: string)
    ensures |s| > 0
    ensures i >= 0 <==> s[0] != '-'
  {
    if i < 0 then "-" + NatToString(-i) else NatToString(i)
  }

  function Zeros(n: nat): (s: string)
    ensures |s| == n && forall k :: 0 <= k < n ==> s[k] == '0'
  {
    if n == 0 then "" else "0" + Zeros(n - 1)
  }

  /** `{:04}`: the decimal rendering, zero-padded on the left to at least four characters. */
  function Pad4(n: nat): (s: string)
    ensures |s| >= 4 && (n < 10000 ==> |s| == 4)
    ensures forall k :: 0 <= k < |s| ==> '0' <= s[k] <= '9'
  {
    var d := NatToString(n);
    NatToStringLength(n);
    if |d| < 4 then Zeros(4 - |d|) + d else d
  }

  lemma {:induction false} NatToStringLength(n: nat)
    ensures n < 10 ==> |NatToString(n)| == 1
    ensures n < 100 ==> |NatToString(n)| <= 2
    ensures n < 1000 ==> |NatToString(n)| <= 3
    ensures n < 10000 ==> |NatToString(n)| <= 4
  {
    if n >= 10 {
      NatToStringLength(n / 10);
    }
  }

  /** The parts separated by `sep`, as `join` does. */
  function Join(parts: seq<string>, sep: string): string
  {
    if |parts| == 0 then ""
    else if |parts| == 1 then parts[0]
    else parts[0] + sep + Join(parts[1..], sep)
  }

  /** The concatenation of the parts. */
  function Concat(parts: seq<string>): string
  {
    if |parts| == 0 then "" else parts[0] + Concat(parts[1..])
  }

  lemma {:induction false} ConcatAppend(a: seq<string>, b: seq<string>)
    ensures Concat(a + b) == Concat(a) + Concat(b)
  {
    if |a| > 0 {
      assert (a + b)[1..] == a[1..] + b;
      ConcatAppend(a[1..], b);
    } else {
      assert a + b == b;
    }
  }
}
