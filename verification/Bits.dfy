/** Machine words and byte buffers as the bits they hold, most significant bit
    first. A shift drops bits at one end and brings in zeros at the other. */
module Bits {

  type Byte = w: seq<bool> | |w| == 8 witness [false, false, false, false, false, false, false, false]

  function Zeros(n: nat): (r: seq<bool>)
    ensures |r| == n && forall i :: 0 <= i < n ==> !r[i]
  {
    seq(n, _ => false)
  }

  const ONES: Byte := [true, true, true, true, true, true, true, true]

  /** How many bytes it takes to hold n bits. */
  function NBytes(n: nat): nat {
    (n + 7) / 8
  }

  /** How many bits are left over when n bits are held in whole bytes. */
  function Pad(n: nat): nat {
    8 * NBytes(n) - n
  }

  function And(x: Byte, y: Byte): (r: Byte)
    ensures forall i :: 0 <= i < 8 ==> r[i] == (x[i] && y[i])
  {
    seq(8, i requires 0 <= i < 8 => x[i] && y[i])
  }

  function Or(x: Byte, y: Byte): (r: Byte)
    ensures forall i :: 0 <= i < 8 ==> r[i] == (x[i] || y[i])
  {
    seq(8, i requires 0 <= i < 8 => x[i] || y[i])
  }

  /** The bits of a buffer, from the most significant bit of its first byte on. */
  function BitsOf(bytes: seq<Byte>): (r: seq<bool>)
    ensures |r| == 8 * |bytes|
    ensures forall k :: 0 <= k < 8 * |bytes| ==> r[k] == bytes[k / 8][k % 8]
  {
    seq(8 * |bytes|, k requires 0 <= k < 8 * |bytes| => bytes[k / 8][k % 8])
  }

  lemma {:induction false} BitsOfByte(bytes: seq<Byte>, i: nat)
    requires i < |bytes|
    ensures BitsOf(bytes)[8 * i..8 * i + 8] == bytes[i]
  {}

  function Pow2(n: nat): (r: nat)
    ensures r > 0
  {
    if n == 0 then 1 else 2 * Pow2(n - 1)
  }

  /** The unsigned value of a word. */
  function Nat(w: seq<bool>): nat {
    if w == [] then 0 else 2 * Nat(w[..|w| - 1]) + if w[|w| - 1] then 1 else 0
  }

  lemma {:induction false} NatBound(w: seq<bool>)
    ensures Nat(w) < Pow2(|w|)
  {
    if w != [] { NatBound(w[..|w| - 1]); }
  }

  lemma {:induction false} NatZeros(n: nat)
    ensures Nat(Zeros(n)) == 0
  {
    if n > 0 {
      assert Zeros(n)[..n - 1] == Zeros(n - 1);
      NatZeros(n - 1);
    }
  }

  lemma {:induction false} NatInjective(x: seq<bool>, y: seq<bool>)
    requires |x| == |y| && Nat(x) == Nat(y)
    ensures x == y
  {
    if x != [] {
      NatInjective(x[..|x| - 1], y[..|y| - 1]);
      assert x == x[..|x| - 1] + [x[|x| - 1]];
      assert y == y[..|y| - 1] + [y[|y| - 1]];
    }
  }

  /** x >> n on an unsigned number. */
  function ShiftRight(x: nat, n: nat): nat {
    if n == 0 then x else ShiftRight(x / 2, n - 1)
  }

  /** A right shift by n drops the last n bits. */
  lemma {:induction false} NatShiftRight(w: seq<bool>, n: nat)
    requires n <= |w|
    ensures ShiftRight(Nat(w), n) == Nat(w[..|w| - n])
  {
    if n == 0 {
      assert w[..|w|] == w;
    } else {
      var x := w[..|w| - 1];
      NatShiftRight(x, n - 1);
      assert x[..|x| - (n - 1)] == w[..|w| - n];
    }
  }

  lemma {:induction false} ByteRange(b: Byte)
    ensures Nat(b) < 256
  {
    NatBound(b);
    assert Pow2(8) == 2 * (2 * (2 * (2 * Pow2(4)))) && Pow2(4) == 16;
  }

  /** The 8-bit word of a number below 256. */
  function ByteOf(n: nat): (b: Byte)
    requires n < 256
    ensures Nat(b) == n
  {
    WordOf(n, 8)
  }

  function WordOf(n: nat, w: nat): (r: seq<bool>)
    requires n < Pow2(w)
    ensures |r| == w && Nat(r) == n
    decreases w
  {
    if w == 0 then []
    else
      var r := WordOf(n / 2, w - 1) + [n % 2 == 1];
      assert r[..w - 1] == WordOf(n / 2, w - 1);
      r
  }
}
