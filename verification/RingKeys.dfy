/**
The keys hashed for virtual nodes: the address, a '#', and the serial number as right-aligned
decimal digit values, in one reused byte buffer. Different (address, serial) pairs never share a key.
*/
module RingKeys {

  const HASH_SIGN := 35  // '#'

  /** `n` without its last `p` decimal digits, and the digit that stands there. */
  function Shift(n: nat, p: nat): nat {
    if p == 0 then n else Shift(n, p - 1) / 10
  }

  function Digit(n: nat, p: nat): (d: nat)
    ensures d < 10
  {
    Shift(n, p) % 10
  }

  lemma {:induction false} ShiftMonotone(a: nat, b: nat, p: nat)
    requires a <= b
    ensures Shift(a, p) <= Shift(b, p)
  {
    if p > 0 { ShiftMonotone(a, b, p - 1); }
  }

  lemma {:induction false} ShiftStaysZero(n: nat, p: nat, q: nat)
    requires Shift(n, p) == 0 && p <= q
    ensures Shift(n, q) == 0
  {
    if p < q { ShiftStaysZero(n, p, q - 1); }
  }

  lemma {:induction false} ShiftByOne(n: nat, p: nat)
    ensures Shift(n / 10, p) == Shift(n, p + 1)
  {
    if p > 0 { ShiftByOne(n, p - 1); }
  }

  /** The number of decimal digits. */
  function UIntLen(n: nat): (len: nat)
    ensures len > 0
  {
    if n < 10 then 1 else 1 + UIntLen(n / 10)
  }

  method GetUIntLen(n: nat) returns (cnt: nat)
    ensures cnt == UIntLen(n)
  {
    cnt := 1;
    var k := n;
    while k >= 10
      invariant cnt + UIntLen(k) == 1 + UIntLen(n)
    {
      cnt := cnt + 1;
      k := k / 10;
    }
  }

  lemma {:induction false} UIntLenFits(n: nat)
    ensures Shift(n, UIntLen(n)) == 0
  {
    if n < 10 {
      assert Shift(n, 1) == Shift(n, 0) / 10;
    } else {
      UIntLenFits(n / 10);
      ShiftByOne(n, UIntLen(n / 10));
    }
  }

  /** One digit fewer would not do. */
  lemma {:induction false} UIntLenNeeded(n: nat)
    requires n > 0
    ensures Shift(n, UIntLen(n) - 1) > 0
  {
    if n >= 10 {
      UIntLenNeeded(n / 10);
      ShiftByOne(n, UIntLen(n / 10) - 1);
    }
  }

  /** A serial below `max` fits in every field at least as wide as `max` itself. */
  lemma SerialFits(j: nat, max: nat, width: nat)
    requires j <= max && UIntLen(max) <= width
    ensures Shift(j, width) == 0
  {
    UIntLenFits(max);
    ShiftMonotone(j, max, UIntLen(max));
    ShiftStaysZero(j, UIntLen(max), width);
  }

  lemma {:induction false} DigitsDetermine(a: nat, b: nat, p: nat)
    requires Shift(a, p) == Shift(b, p) && forall q :: 0 <= q < p ==> Digit(a, q) == Digit(b, q)
    ensures a == b
  {
    if p > 0 {
      assert Digit(a, p - 1) == Digit(b, p - 1);
      DigitsDetermine(a, b, p - 1);
    }
  }

  /** The serial's digits, most significant first, padded with zero bytes. */
  function Padded(j: nat, width: nat): (s: seq<nat>)
    ensures |s| == width && forall q :: 0 <= q < width ==> s[q] == Digit(j, width - 1 - q)
  {
    seq(width, q requires 0 <= q < width => Digit(j, width - 1 - q))
  }

  /** The `l` bytes hashed for serial `j` of an address. */
  function Key(addr: seq<nat>, j: nat, l: nat): (key: seq<nat>)
    requires |addr| < l
    ensures |key| == l
  {
    addr + [HASH_SIGN] + Padded(j, l - 1 - |addr|)
  }

  lemma KeyAt(addr: seq<nat>, j: nat, l: nat, k: nat)
    requires |addr| < l && k < l
    ensures Key(addr, j, l)[k] ==
              if k < |addr| then addr[k] else if k == |addr| then HASH_SIGN else Digit(j, l - 1 - k)
  {
  }

  /** The '#' of the longer address falls on a digit of the shorter one, so lengths must agree. */
  lemma KeyLengths(a: seq<nat>, i: nat, b: seq<nat>, j: nat, l: nat)
    requires |a| < |b| < l
    ensures Key(a, i, l) != Key(b, j, l)
  {
    KeyAt(a, i, l, |b|);
    KeyAt(b, j, l, |b|);
  }

  /** Keys are injective, for any addresses whatever. */
  lemma KeysInjective(a: seq<nat>, i: nat, b: seq<nat>, j: nat, l: nat)
    requires |a| < l && |b| < l
    requires Shift(i, l - 1 - |a|) == 0 && Shift(j, l - 1 - |b|) == 0
    requires Key(a, i, l) == Key(b, j, l)
    ensures a == b && i == j
  {
    if |a| < |b| { KeyLengths(a, i, b, j, l); }
    if |b| < |a| { KeyLengths(b, j, a, i, l); }
    var width := l - 1 - |a|;
    assert a == Key(a, i, l)[..|a|] == b;
    forall q | 0 <= q < width ensures Digit(i, q) == Digit(j, q) {
      KeyAt(a, i, l, l - 1 - q);
      KeyAt(b, j, l, l - 1 - q);
    }
    DigitsDetermine(i, j, width);
  }

  // Writing keys into the reused buffer.

  /** Lays out an address in the buffer, clearing whatever the previous one left behind. */
  method WriteAddress(b: array<nat>, addr: seq<nat>)
    requires |addr| < b.Length
    modifies b
    ensures b[..] == Key(addr, 0, b.Length)
  {
    for k := 0 to |addr|
      invariant forall m :: 0 <= m < k ==> b[m] == addr[m]
    {
      b[k] := addr[k];
    }
    for k := |addr| + 1 to b.Length
      invariant forall m :: 0 <= m < |addr| ==> b[m] == addr[m]
      invariant forall m :: |addr| < m < k ==> b[m] == 0
    {
      b[k] := 0;
    }
    b[|addr|] := HASH_SIGN;
    forall m | 0 <= m < b.Length ensures b[..][m] == Key(addr, 0, b.Length)[m] {
      KeyAt(addr, 0, b.Length, m);
      if m > |addr| { ShiftStaysZero(0, 0, b.Length - 1 - m); }
    }
  }

  /** Overwrites one serial with a later one: no byte of the earlier serial survives. */
  method WriteSerial(b: array<nat>, ghost addr: seq<nat>, ghost prev: nat, j: nat)
    requires |addr| < b.Length && prev <= j && Shift(j, b.Length - 1 - |addr|) == 0
    requires b[..] == Key(addr, prev, b.Length)
    modifies b
    ensures b[..] == Key(addr, j, b.Length)
  {
    var l := b.Length;
    ghost var width := l - 1 - |addr|;
    forall m | 0 <= m < l ensures b[m] == Key(addr, prev, l)[m] { assert b[..][m] == Key(addr, prev, l)[m]; }
    ghost var before := b[..];
    var k, cnt := j, 0;
    while k > 0
      invariant k == Shift(j, cnt) && cnt <= width
      invariant forall m :: 0 <= m < l ==> b[m] == if m < l - cnt then before[m] else Digit(j, l - 1 - m)
    {
      if cnt == width { assert false; }
      b[l - 1 - cnt] := k % 10;
      k := k / 10;
      cnt := cnt + 1;
    }
    forall m | 0 <= m < l ensures b[..][m] == Key(addr, j, l)[m] {
      KeyAt(addr, prev, l, m);
      KeyAt(addr, j, l, m);
      if |addr| < m < l - cnt { LeadingZeros(prev, j, cnt, l - 1 - m); }
    }
  }

  lemma LeadingZeros(prev: nat, j: nat, cnt: nat, p: nat)
    requires prev <= j && Shift(j, cnt) == 0 && cnt <= p
    ensures Digit(prev, p) == 0 == Digit(j, p)
  {
    ShiftStaysZero(j, cnt, p);
    ShiftMonotone(prev, j, p);
  }
}
