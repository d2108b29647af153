/** The wide checksum of checksums.cpp and calculations.cpp against the 16-bit
    one's-complement sum of sections 1 and 2 of RFC 1071. Loads are those of a
    little-endian host. */
module Checksum {

  type U8 = x: int | 0 <= x < 0x100

  const MAX16: int := 0xffff
  const MAX32: int := 0xffff_ffff
  const MAX64: int := 0xffff_ffff_ffff_ffff

  function Be16(first: int, second: int): int { 256 * first + second }
  function Le16(first: int, second: int): int { first + 256 * second }

  // ----- RFC 1071 -----------------------------------------------------------

  /** One's-complement addition of 16-bit numbers: the carry is added back in. */
  function OnesAdd(a: int, b: int): int {
    if a + b > MAX16 then a + b - MAX16 else a + b
  }

  /** The one's-complement sum of the big-endian 16-bit words of a buffer, an odd
      last byte being followed by a zero. */
  function RfcSum(buf: seq<U8>): (r: int)
    ensures 0 <= r <= MAX16
  {
    if |buf| == 0 then 0
    else if |buf| == 1 then Be16(buf[0], 0)
    else OnesAdd(Be16(buf[0], buf[1]), RfcSum(buf[2..]))
  }

  function RfcChecksum(buf: seq<U8>): int {
    MAX16 - RfcSum(buf)
  }

  // ----- sums modulo 65535 --------------------------------------------------

  /** The plain sum of the little-endian words. */
  function WordSum(buf: seq<U8>): nat {
    if |buf| == 0 then 0
    else if |buf| == 1 then buf[0]
    else Le16(buf[0], buf[1]) + WordSum(buf[2..])
  }

  /** `r` stands for `total` in one's complement: equal modulo 65535, and zero
      only for zero. */
  ghost predicate StandsFor(r: int, total: int) {
    0 <= r && 0 <= total && (total - r) % MAX16 == 0 && (r == 0 <==> total == 0)
  }

  /** A 16-bit number is determined by what it stands for. */
  lemma {:induction false} StandsForUnique(x: int, y: int, total: int)
    requires StandsFor(x, total) && StandsFor(y, total) && x <= MAX16 && y <= MAX16
    ensures x == y
  {
    assert (x - y) % MAX16 == 0;
  }

  /** Exchanging the bytes of a word multiplies it by 256 modulo 65535. */
  function Swap(x: int): (r: int)
    requires 0 <= x <= MAX16
    ensures 0 <= r <= MAX16
  {
    (x % 256) * 256 + x / 256
  }

  lemma {:induction false} SwapStandsFor(x: int, total: int)
    requires 0 <= x <= MAX16 && StandsFor(x, total)
    ensures StandsFor(Swap(x), 256 * total)
  {
    var k := (total - x) / MAX16;
    Multiple(256 * total - Swap(x), 256 * k + x / 256);
  }

  lemma {:induction false} Multiple(a: int, k: int)
    requires a == 0xffff * k
    ensures a % MAX16 == 0
  {}

  lemma {:induction false} OnesAddStandsFor(a: int, b: int, s: int, t: int)
    requires StandsFor(a, s) && StandsFor(b, t) && a <= MAX16 && b <= MAX16
    ensures StandsFor(OnesAdd(a, b), s + t) && OnesAdd(a, b) <= MAX16
  {}

  /** The RFC sum is the plain little-endian sum with its bytes exchanged. */
  lemma {:induction false} RfcStandsFor(buf: seq<U8>)
    ensures StandsFor(RfcSum(buf), 256 * WordSum(buf))
    decreases |buf|
  {
    if |buf| >= 2 {
      RfcStandsFor(buf[2..]);
      var (w, v) := (Be16(buf[0], buf[1]), Le16(buf[0], buf[1]));
      Multiple(256 * v - w, buf[1]);
      OnesAddStandsFor(w, RfcSum(buf[2..]), 256 * v, 256 * WordSum(buf[2..]));
    }
  }

  // ----- the wide sum -------------------------------------------------------

  /** sum += s; if (sum < s) sum++; on an unsigned integer with maximum `max`. */
  function EndAround(sum: int, s: int, max: int): int {
    var t := if sum + s > max then sum + s - max - 1 else sum + s;
    if t < s then t + 1 else t
  }

  lemma {:induction false} EndAround64(sum: int, s: int, total: int, word: int)
    requires 0 <= sum <= MAX64 && 0 <= s <= MAX64 && StandsFor(sum, total) && StandsFor(s, word)
    ensures 0 <= EndAround(sum, s, MAX64) <= MAX64 && StandsFor(EndAround(sum, s, MAX64), total + word)
  {
    var r := EndAround(sum, s, MAX64);
    var k := (total - sum) / MAX16 + (word - s) / MAX16;
    Multiple(total + word - r, if sum + s > MAX64 then k + 0x1_0001_0001_0001 else k);
  }

  lemma {:induction false} EndAround32(a: int, b: int)
    requires 0 <= a <= MAX32 && 0 <= b <= MAX32
    ensures 0 <= EndAround(a, b, MAX32) <= MAX32 && StandsFor(EndAround(a, b, MAX32), a + b)
  {
    Multiple(a + b - EndAround(a, b, MAX32), if a + b > MAX32 then 0x1_0001 else 0);
  }

  lemma {:induction false} EndAround16(a: int, b: int)
    requires 0 <= a <= MAX16 && 0 <= b <= MAX16
    ensures 0 <= EndAround(a, b, MAX16) <= MAX16 && StandsFor(EndAround(a, b, MAX16), a + b)
  {}

  lemma {:induction false} StandsForTrans(a: int, b: int, c: int)
    requires StandsFor(a, b) && StandsFor(b, c)
    ensures StandsFor(a, c)
  {
    Multiple(c - a, (b - a) / MAX16 + (c - b) / MAX16);
  }

  /** Fold a 64-bit sum down to 16 bits. */
  method Fold(sum: int) returns (t3: int)
    requires 0 <= sum <= MAX64
    ensures 0 <= t3 <= MAX16 && StandsFor(t3, sum)
  {
    hide EndAround, StandsFor;
    var t1, t2 := sum % 0x1_0000_0000, sum / 0x1_0000_0000;
    FoldHalf(sum, t1, t2, 0x1_0000_0000, 0x1_0001);
    EndAround32(t1, t2);
    StandsForTrans(EndAround(t1, t2, MAX32), t1 + t2, sum);
    t1 := EndAround(t1, t2, MAX32);
    var t4;
    t3, t4 := t1 % 0x1_0000, t1 / 0x1_0000;
    FoldHalf(t1, t3, t4, 0x1_0000, 1);
    EndAround16(t3, t4);
    StandsForTrans(EndAround(t3, t4, MAX16), t3 + t4, t1);
    t3 := EndAround(t3, t4, MAX16);
    StandsForTrans(t3, t1, sum);
  }

  lemma {:induction false} FoldHalf(sum: int, low: int, high: int, base: int, k: int)
    requires 0 <= low && 0 <= high && ((base == 0x1_0000_0000 && k == 0x1_0001) || (base == 0x1_0000 && k == 1))
    requires sum == base * high + low
    ensures StandsFor(low + high, sum)
  {
    Multiple(sum - (low + high), k * high);
  }

  // Loads of 1, 2, 4 and 8 bytes on a little-endian host.
  function Load(buf: seq<U8>): nat {
    if |buf| == 0 then 0 else Le16(buf[0], Load(buf[1..]))
  }

  lemma {:induction false} Load2(buf: seq<U8>, pos: nat)
    requires pos + 2 <= |buf|
    ensures Load(buf[pos..pos + 2]) == Le16(buf[pos], buf[pos + 1])
    ensures WordSum(buf[pos..]) == Le16(buf[pos], buf[pos + 1]) + WordSum(buf[pos + 2..])
  {
    var w := buf[pos..pos + 2];
    assert w[0] == buf[pos] && w[1..][0] == buf[pos + 1] && w[1..][1..] == [];
    assert Load(w[1..]) == buf[pos + 1];
    assert buf[pos..][2..] == buf[pos + 2..];
  }

  // A load of 2n bytes stands for the sum of its n words.
  lemma {:induction false} LoadWords(buf: seq<U8>, pos: nat, n: nat)
    requires pos + 2 * n <= |buf|
    ensures StandsFor(Load(buf[pos..pos + 2 * n]), WordSum(buf[pos..]) - WordSum(buf[pos + 2 * n..]))
    decreases n
  {
    if n == 0 {
      assert buf[pos..pos + 2 * n] == [];
    } else {
      var (x, y) := (buf[pos], buf[pos + 1]);
      Load2(buf, pos);
      LoadWords(buf, pos + 2, n - 1);
      var w := buf[pos..pos + 2 * n];
      var rest := Load(buf[pos + 2..pos + 2 * n]);
      assert w[1..][1..] == buf[pos + 2..pos + 2 * n] && w[1..][0] == y;
      assert Load(w) == Le16(x, y) + 65536 * rest;
      var words := WordSum(buf[pos + 2..]) - WordSum(buf[pos + 2 * n..]);
      Multiple(Le16(x, y) + words - Load(w), (words - rest) / MAX16 - rest);
    }
  }

  function Radix(n: nat): nat {
    if n == 0 then 1 else 256 * Radix(n - 1)
  }

  lemma {:induction false} LoadBound(buf: seq<U8>)
    ensures Load(buf) < Radix(|buf|)
  {
    if |buf| > 0 { LoadBound(buf[1..]); }
  }

  lemma {:induction false} Radixes()
    ensures Radix(1) == 0x100 && Radix(2) == 0x1_0000 && Radix(4) == 0x1_0000_0000
    ensures Radix(8) == 0x1_0000_0000_0000_0000
  {
    assert Radix(4) == 256 * (256 * (256 * (256 * Radix(0))));
    assert Radix(8) == 256 * (256 * (256 * (256 * Radix(4))));
  }

  /** Add the next `n` bytes to the running sum. */
  method AddLoad(buf: seq<U8>, pos: nat, n: nat, sum: int, ghost total: int) returns (sum': int)
    requires n == 1 || n == 2 || n == 4 || n == 8
    requires pos + n <= |buf| && (n == 1 ==> pos + 1 == |buf|)
    requires 0 <= sum <= MAX64 && StandsFor(sum, total)
    ensures 0 <= sum' <= MAX64
    ensures StandsFor(sum', total + WordSum(buf[pos..]) - WordSum(buf[pos + n..]))
  {
    hide StandsFor, EndAround, WordSum, Load, Radix;
    var s := Load(buf[pos..pos + n]);
    LoadBound(buf[pos..pos + n]);
    Radixes();
    if n == 1 { LastByte(buf, pos); } else { LoadWords(buf, pos, n / 2); }
    EndAround64(sum, s, total, WordSum(buf[pos..]) - WordSum(buf[pos + n..]));
    sum' := EndAround(sum, s, MAX64);
  }

  lemma {:induction false} LastByte(buf: seq<U8>, pos: nat)
    requires pos + 1 == |buf|
    ensures StandsFor(Load(buf[pos..pos + 1]), WordSum(buf[pos..]) - WordSum(buf[pos + 1..]))
  {
    assert buf[pos..pos + 1] == [buf[pos]] && buf[pos..] == [buf[pos]] && buf[pos + 1..] == [];
  }

  /** Eight bytes at a time, then tails of four, two and one. */
  method SumBuffer(buf: seq<U8>) returns (sum: int)
    ensures 0 <= sum <= MAX64 && StandsFor(sum, WordSum(buf))
  {
    hide StandsFor, WordSum;
    sum := 0;
    var pos, len := 0, |buf|;
    NothingYet(buf);
    while len >= 8
      invariant 0 <= pos <= |buf| && pos + len == |buf| && 0 <= sum <= MAX64
      invariant StandsFor(sum, WordSum(buf) - WordSum(buf[pos..]))
    {
      sum := AddLoad(buf, pos, 8, sum, WordSum(buf) - WordSum(buf[pos..]));
      pos, len := pos + 8, len - 8;
    }
    if len / 4 % 2 == 1 {
      sum := AddLoad(buf, pos, 4, sum, WordSum(buf) - WordSum(buf[pos..]));
      pos := pos + 4;
    }
    if len / 2 % 2 == 1 {
      sum := AddLoad(buf, pos, 2, sum, WordSum(buf) - WordSum(buf[pos..]));
      pos := pos + 2;
    }
    if len % 2 == 1 {
      sum := AddLoad(buf, pos, 1, sum, WordSum(buf) - WordSum(buf[pos..]));
      pos := pos + 1;
    }
    assert buf[pos..] == [];
    NothingLeft();
  }

  lemma {:induction false} NothingYet(buf: seq<U8>)
    ensures StandsFor(0, WordSum(buf) - WordSum(buf[0..]))
  {
    assert buf[0..] == buf;
  }

  lemma {:induction false} NothingLeft()
    ensures WordSum([]) == 0
  {}

  /** cksum16 of checksums.cpp: the 16-bit number whose bytes in memory are the
      RFC 1071 checksum in network order. */
  method Cksum16(buf: seq<U8>) returns (r: int)
    ensures 0 <= r <= MAX16 && Swap(r) == RfcChecksum(buf)
  {
    hide StandsFor, WordSum;
    var sum := SumBuffer(buf);
    var t3 := Fold(sum);
    StandsForTrans(t3, sum, WordSum(buf));
    SwappedSum(buf, t3);
    r := MAX16 - t3;
  }

  lemma {:induction false} SwapComplement(x: int)
    requires 0 <= x <= MAX16
    ensures Swap(MAX16 - x) == MAX16 - Swap(x)
  {
    var (h, l) := (x / 256, x % 256);
    assert MAX16 - x == 256 * (255 - h) + (255 - l);
  }

  lemma {:induction false} SwappedSum(buf: seq<U8>, t3: int)
    requires 0 <= t3 <= MAX16 && StandsFor(t3, WordSum(buf))
    ensures Swap(t3) == RfcSum(buf) && Swap(MAX16 - t3) == MAX16 - RfcSum(buf)
  {
    hide StandsFor, WordSum, RfcSum, Swap;
    SwapComplement(t3);
    SwapStandsFor(t3, WordSum(buf));
    RfcStandsFor(buf);
    StandsForUnique(Swap(t3), RfcSum(buf), 256 * WordSum(buf));
  }

  /** cksum16 of calculations.cpp converts to host order. */
  method Cksum16Host(buf: seq<U8>) returns (r: int)
    ensures r == RfcChecksum(buf)
  {
    var c := Cksum16(buf);
    r := Swap(c);
  }
}
