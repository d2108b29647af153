/** The configurable CRCs of calculations.cpp (crc16_custom and crc32_custom).

    A remainder is a word of `w` bits, most significant bit first; the theorems
    hold for every width of at least 8 bits, so for both instantiations. */
module Crc {
  import opened Bits

  function Xor(a: seq<bool>, b: seq<bool>): (r: seq<bool>)
    requires |a| == |b|
    ensures |r| == |a| && forall i :: 0 <= i < |a| ==> r[i] == (a[i] != b[i])
  {
    seq(|a|, i requires 0 <= i < |a| => a[i] != b[i])
  }

  function ShiftLeft(a: seq<bool>, n: nat): (r: seq<bool>)
    requires n <= |a|
    ensures |r| == |a| && forall i :: 0 <= i < |a| ==> r[i] == (i + n < |a| && a[i + n])
  {
    a[n..] + Zeros(n)
  }

  function Reverse(a: seq<bool>): (r: seq<bool>)
    ensures |r| == |a| && forall i :: 0 <= i < |a| ==> r[i] == a[|a| - 1 - i]
  {
    seq(|a|, i requires 0 <= i < |a| => a[|a| - 1 - i])
  }

  // ----- modulo-2 division --------------------------------------------------

  /** One division step of the remainder. */
  function Step(r: seq<bool>, poly: seq<bool>): (s: seq<bool>)
    requires |r| == |poly| > 0
    ensures |s| == |r|
  {
    if r[0] then Xor(ShiftLeft(r, 1), poly) else ShiftLeft(r, 1)
  }

  function Steps(r: seq<bool>, poly: seq<bool>, n: nat): (s: seq<bool>)
    requires |r| == |poly| > 0
    ensures |s| == |r|
    decreases n
  {
    if n == 0 then r else Steps(Step(r, poly), poly, n - 1)
  }

  /** A message bit enters at the top of the remainder. */
  function Feed(r: seq<bool>, poly: seq<bool>, bit: bool): (s: seq<bool>)
    requires |r| == |poly| > 0
    ensures |s| == |r|
  {
    Step(Xor(r, [bit] + Zeros(|r| - 1)), poly)
  }

  /** The bit-serial CRC. */
  function Serial(r: seq<bool>, poly: seq<bool>, bits: seq<bool>): (s: seq<bool>)
    requires |r| == |poly| > 0
    ensures |s| == |r|
    decreases |bits|
  {
    if bits == [] then r
    else Serial(Feed(r, poly, bits[0]), poly, bits[1..])
  }

  function DivideStep(d: seq<bool>, poly: seq<bool>): (s: seq<bool>)
    requires |d| > |poly|
    ensures |s| == |d| - 1
  {
    if d[0] then Xor(d[1..][..|poly|], poly) + d[1..][|poly|..] else d[1..]
  }

  /** Long division of polynomials over GF(2): the remainder of the dividend `d`
      by x^w + poly, one bit at a time. */
  function Divide(d: seq<bool>, poly: seq<bool>): (s: seq<bool>)
    requires |d| >= |poly|
    ensures |s| == |poly|
    decreases |d|
  {
    if |d| == |poly| then d
    else Divide(DivideStep(d, poly), poly)
  }

  // The dividend: the message followed by w zeros, with `r` added to its front.
  function Dividend(r: seq<bool>, bits: seq<bool>): (d: seq<bool>)
    ensures |d| == |r| + |bits|
  {
    Xor(r + Zeros(|bits|), bits + Zeros(|r|))
  }

  /** The bit-serial CRC is the remainder of the message followed by w zeros, with
      the initial value added to its front. */
  lemma {:induction false} SerialIsDivision(r: seq<bool>, poly: seq<bool>, bits: seq<bool>)
    requires |r| == |poly| > 0
    ensures Serial(r, poly, bits) == Divide(Dividend(r, bits), poly)
    decreases |bits|
  {
    hide Feed, DivideStep;
    if bits == [] {
      assert Dividend(r, bits) == r;
    } else {
      hide Dividend;
      FeedIsDivideStep(r, poly, bits);
      SerialIsDivision(Feed(r, poly, bits[0]), poly, bits[1..]);
    }
  }

  lemma {:induction false} FeedIsDivideStep(r: seq<bool>, poly: seq<bool>, bits: seq<bool>)
    requires |r| == |poly| > 0 && bits != []
    ensures Dividend(Feed(r, poly, bits[0]), bits[1..]) == DivideStep(Dividend(r, bits), poly)
  {
    DividendShift(r, bits);
    hide Dividend, Xor;
    DividendXor(ShiftLeft(Xor(r, [bits[0]] + Zeros(|r| - 1)), 1), poly, bits[1..]);
  }

  lemma {:induction false} DividendShift(r: seq<bool>, bits: seq<bool>)
    requires |r| > 0 && bits != []
    ensures
      var x := Xor(r, [bits[0]] + Zeros(|r| - 1));
      && x[0] == Dividend(r, bits)[0]
      && Dividend(ShiftLeft(x, 1), bits[1..]) == Dividend(r, bits)[1..]
  {}

  lemma {:induction false} DividendXor(r: seq<bool>, poly: seq<bool>, bits: seq<bool>)
    requires |r| == |poly|
    ensures Dividend(Xor(r, poly), bits) == Xor(Dividend(r, bits)[..|r|], poly) + Dividend(r, bits)[|r|..]
  {}

  lemma {:induction false} StepLinear(a: seq<bool>, b: seq<bool>, poly: seq<bool>)
    requires |a| == |b| == |poly| > 0
    ensures Step(Xor(a, b), poly) == Xor(Step(a, poly), Step(b, poly))
  {}

  lemma {:induction false} StepsLinear(a: seq<bool>, b: seq<bool>, poly: seq<bool>, n: nat)
    requires |a| == |b| == |poly| > 0
    ensures Steps(Xor(a, b), poly, n) == Xor(Steps(a, poly, n), Steps(b, poly, n))
    decreases n
  {
    if n > 0 {
      StepLinear(a, b, poly);
      StepsLinear(Step(a, poly), Step(b, poly), poly, n - 1);
    }
  }

  /** Without leading ones the division only shifts. */
  lemma {:induction false} StepsShift(r: seq<bool>, poly: seq<bool>, n: nat)
    requires |r| == |poly| > 0 && n <= |r|
    requires forall i :: 0 <= i < n ==> !r[i]
    ensures Steps(r, poly, n) == ShiftLeft(r, n)
    decreases n
  {
    if n > 0 {
      StepsShift(ShiftLeft(r, 1), poly, n - 1);
      assert ShiftLeft(ShiftLeft(r, 1), n - 1) == ShiftLeft(r, n);
    }
  }

  /** Feeding n bits one by one is adding them all at once, then n steps. */
  lemma {:induction false} SerialIsSteps(r: seq<bool>, poly: seq<bool>, bits: seq<bool>)
    requires |bits| <= |r| == |poly| && |poly| > 0
    ensures Serial(r, poly, bits) == Steps(Xor(r, bits + Zeros(|r| - |bits|)), poly, |bits|)
    decreases |bits|
  {
    hide Step, Feed;
    if bits == [] {
      assert Xor(r, bits + Zeros(|r| - |bits|)) == r;
    } else {
      FeedIsStep(r, poly, bits);
      SerialIsSteps(Feed(r, poly, bits[0]), poly, bits[1..]);
    }
  }

  lemma {:induction false} FeedIsStep(r: seq<bool>, poly: seq<bool>, bits: seq<bool>)
    requires 0 < |bits| <= |r| == |poly|
    ensures Step(Xor(r, bits + Zeros(|r| - |bits|)), poly)
         == Xor(Feed(r, poly, bits[0]), bits[1..] + Zeros(|r| - |bits[1..]|))
  {
    var x := Xor(r, bits + Zeros(|r| - |bits|));
    var y := Xor(r, [bits[0]] + Zeros(|r| - 1));
    var z := bits[1..] + Zeros(|r| - |bits[1..]|);
    assert x[0] == y[0];
    assert ShiftLeft(x, 1) == Xor(ShiftLeft(y, 1), z);
    assert Xor(Xor(ShiftLeft(y, 1), z), poly) == Xor(Xor(ShiftLeft(y, 1), poly), z);
  }

  // ----- the table ----------------------------------------------------------

  function TableEntry(d: Byte, poly: seq<bool>): (s: seq<bool>)
    requires |poly| >= 8
    ensures |s| == |poly|
  {
    Steps(d + Zeros(|poly| - 8), poly, 8)
  }

  /** One byte of the table-driven loop. */
  function ByteStep(r: seq<bool>, poly: seq<bool>, byte: Byte): (s: seq<bool>)
    requires |r| == |poly| >= 8
    ensures |s| == |r|
  {
    Xor(TableEntry(Xor(byte, r[..8]), poly), ShiftLeft(r, 8))
  }

  /** One table look-up does the work of eight serial steps. */
  lemma {:induction false} ByteStepIsSerial(r: seq<bool>, poly: seq<bool>, byte: Byte)
    requires |r| == |poly| >= 8
    ensures ByteStep(r, poly, byte) == Serial(r, poly, byte)
  {
    hide Steps, Serial;
    var w := |r|;
    var high := Xor(byte, r[..8]) + Zeros(w - 8);
    var low := Zeros(8) + r[8..];
    SerialIsSteps(r, poly, byte);
    assert Xor(r, byte + Zeros(w - 8)) == Xor(high, low);
    StepsLinear(high, low, poly, 8);
    StepsShift(low, poly, 8);
    assert ShiftLeft(low, 8) == ShiftLeft(r, 8);
  }

  function TableRun(r: seq<bool>, poly: seq<bool>, msg: seq<Byte>): (s: seq<bool>)
    requires |r| == |poly| >= 8
    ensures |s| == |r|
  {
    if msg == [] then r else ByteStep(TableRun(r, poly, msg[..|msg| - 1]), poly, msg[|msg| - 1])
  }

  lemma {:induction false} SerialAppend(r: seq<bool>, poly: seq<bool>, x: seq<bool>, y: seq<bool>)
    requires |r| == |poly| > 0
    ensures Serial(r, poly, x + y) == Serial(Serial(r, poly, x), poly, y)
    decreases |x|
  {
    if x == [] {
      assert x + y == y;
    } else {
      assert (x + y)[0] == x[0] && (x + y)[1..] == x[1..] + y;
      SerialAppend(Feed(r, poly, x[0]), poly, x[1..], y);
    }
  }

  /** The table-driven CRC is the bit-serial one: every polynomial, initial value
      and message. */
  lemma {:induction false} TableRunIsSerial(r: seq<bool>, poly: seq<bool>, msg: seq<Byte>)
    requires |r| == |poly| >= 8
    ensures TableRun(r, poly, msg) == Serial(r, poly, BitsOf(msg))
    decreases |msg|
  {
    hide Serial, ByteStep;
    if msg == [] {
      SerialEmpty(r, poly);
      assert BitsOf(msg) == [];
    } else {
      var (init, last) := (msg[..|msg| - 1], msg[|msg| - 1]);
      TableRunIsSerial(r, poly, init);
      ByteStepIsSerial(TableRun(r, poly, init), poly, last);
      SerialAppend(r, poly, BitsOf(init), last);
      assert BitsOf(msg) == BitsOf(init) + last;
    }
  }

  lemma {:induction false} SerialEmpty(r: seq<bool>, poly: seq<bool>)
    requires |r| == |poly| > 0
    ensures Serial(r, poly, []) == r
  {}

  // ----- the reflected form -------------------------------------------------

  function ShiftRightOne(a: seq<bool>): (r: seq<bool>)
    requires |a| > 0
    ensures |r| == |a|
  {
    [false] + a[..|a| - 1]
  }

  function LsbFeed(r: seq<bool>, poly: seq<bool>, bit: bool): (s: seq<bool>)
    requires |r| == |poly| > 0
    ensures |s| == |r|
  {
    var x := Xor(r, Zeros(|r| - 1) + [bit]);
    if x[|x| - 1] then Xor(ShiftRightOne(x), poly) else ShiftRightOne(x)
  }

  /** The least-significant-bit-first CRC: the remainder shifts right and each
      message bit enters at its bottom. */
  function LsbSerial(r: seq<bool>, poly: seq<bool>, bits: seq<bool>): (s: seq<bool>)
    requires |r| == |poly| > 0
    ensures |s| == |r|
    decreases |bits|
  {
    if bits == [] then r
    else LsbSerial(LsbFeed(r, poly, bits[0]), poly, bits[1..])
  }

  lemma {:induction false} ReverseSerial(r: seq<bool>, poly: seq<bool>, bits: seq<bool>)
    requires |r| == |poly| > 0
    ensures Reverse(Serial(r, poly, bits)) == LsbSerial(Reverse(r), Reverse(poly), bits)
    decreases |bits|
  {
    hide Feed, LsbFeed;
    if bits != [] {
      ReverseFeed(r, poly, bits[0]);
      ReverseSerial(Feed(r, poly, bits[0]), poly, bits[1..]);
    }
  }

  lemma {:induction false} ReverseFeed(r: seq<bool>, poly: seq<bool>, bit: bool)
    requires |r| == |poly| > 0
    ensures Reverse(Feed(r, poly, bit)) == LsbFeed(Reverse(r), Reverse(poly), bit)
  {
    var x := Xor(r, [bit] + Zeros(|r| - 1));
    assert Xor(Reverse(r), Zeros(|r| - 1) + [bit]) == Reverse(x);
    ReverseShift(x);
    ReverseXor(ShiftLeft(x, 1), poly);
    assert Reverse(x)[|x| - 1] == x[0];
    hide Xor, Reverse, ShiftLeft, ShiftRightOne;
  }

  lemma {:induction false} ReverseShift(x: seq<bool>)
    requires |x| > 0
    ensures Reverse(ShiftLeft(x, 1)) == ShiftRightOne(Reverse(x))
  {}

  lemma {:induction false} ReverseXor(a: seq<bool>, b: seq<bool>)
    requires |a| == |b|
    ensures Reverse(Xor(a, b)) == Xor(Reverse(a), Reverse(b))
  {}

  /** Reflecting twice gives the value back. */
  lemma {:induction false} ReverseInvolution(a: seq<bool>)
    ensures Reverse(Reverse(a)) == a
  {}

  /** The message as the reflected form reads it: least significant bit first. */
  function LsbBits(msg: seq<Byte>): (r: seq<bool>)
    ensures |r| == 8 * |msg|
    ensures forall k :: 0 <= k < |r| ==> r[k] == msg[k / 8][7 - k % 8]
  {
    seq(8 * |msg|, k requires 0 <= k < 8 * |msg| => msg[k / 8][7 - k % 8])
  }

  function ReverseEach(msg: seq<Byte>): (r: seq<Byte>)
    ensures |r| == |msg| && forall i :: 0 <= i < |msg| ==> r[i] == Reverse(msg[i])
  {
    seq(|msg|, i requires 0 <= i < |msg| => Reverse(msg[i]))
  }

  // ----- crc_custom ---------------------------------------------------------

  datatype Config = Config(polynomial: seq<bool>, initialRemainder: seq<bool>, finalXorValue: seq<bool>,
                           dataReflected: bool, remainderReflected: bool)

  ghost predicate ConfigOf(c: Config, width: nat) {
    |c.polynomial| == |c.initialRemainder| == |c.finalXorValue| == width
  }

  /** What a CRC with this configuration is of a message. */
  function CrcOf(c: Config, msg: seq<Byte>): seq<bool>
    requires |c.polynomial| >= 8 && ConfigOf(c, |c.polynomial|)
  {
    var bits := BitsOf(if c.dataReflected then ReverseEach(msg) else msg);
    var r := Serial(c.initialRemainder, c.polynomial, bits);
    Xor(if c.remainderReflected then Reverse(r) else r, c.finalXorValue)
  }

  /** The message bits in the order in which the configuration reads them, divided. */
  function Remainder(c: Config, msg: seq<Byte>): (r: seq<bool>)
    requires |c.polynomial| >= 8 && ConfigOf(c, |c.polynomial|)
    ensures |r| == |c.polynomial|
  {
    Divide(Dividend(c.initialRemainder, if c.dataReflected then LsbBits(msg) else BitsOf(msg)), c.polynomial)
  }

  /** For each of the four settings of the flags: bit i of the result is bit i of the
      remainder of the division, or bit w - 1 - i if remainders are reflected, plus bit i
      of the final value. */
  ghost predicate CrcBits(c: Config, msg: seq<Byte>, r: seq<bool>)
    requires |c.polynomial| >= 8 && ConfigOf(c, |c.polynomial|)
  {
    var w := |c.polynomial|;
    && |r| == w
    && forall i :: 0 <= i < w ==>
         r[i] == (Remainder(c, msg)[if c.remainderReflected then w - 1 - i else i] != c.finalXorValue[i])
  }

  lemma {:induction false} CrcIsDivision(c: Config, msg: seq<Byte>)
    requires |c.polynomial| >= 8 && ConfigOf(c, |c.polynomial|)
    ensures CrcBits(c, msg, CrcOf(c, msg))
  {
    hide Serial, Divide, Dividend;
    assert BitsOf(ReverseEach(msg)) == LsbBits(msg);
    SerialIsDivision(c.initialRemainder, c.polynomial, if c.dataReflected then LsbBits(msg) else BitsOf(msg));
  }

  /** With reflected remainders this is the least-significant-bit-first CRC with reversed
      polynomial and initial value, of the bits in either order. */
  lemma {:induction false} CrcIsLsbFirst(c: Config, msg: seq<Byte>)
    requires |c.polynomial| >= 8 && ConfigOf(c, |c.polynomial|) && c.remainderReflected
    ensures var bits := if c.dataReflected then LsbBits(msg) else BitsOf(msg);
            CrcOf(c, msg) ==
              Xor(LsbSerial(Reverse(c.initialRemainder), Reverse(c.polynomial), bits), c.finalXorValue)
  {
    hide Serial, LsbSerial;
    assert BitsOf(ReverseEach(msg)) == LsbBits(msg);
    ReverseSerial(c.initialRemainder, c.polynomial, if c.dataReflected then LsbBits(msg) else BitsOf(msg));
  }

  /** With both reflections the CRC is the least-significant-bit-first one with
      reversed polynomial and reversed initial value. */
  lemma {:induction false} ReflectedCrc(c: Config, msg: seq<Byte>)
    requires |c.polynomial| >= 8 && ConfigOf(c, |c.polynomial|)
    requires c.dataReflected && c.remainderReflected
    ensures CrcOf(c, msg)
         == Xor(LsbSerial(Reverse(c.initialRemainder), Reverse(c.polynomial), LsbBits(msg)), c.finalXorValue)
  {
    hide Serial, LsbSerial;
    assert BitsOf(ReverseEach(msg)) == LsbBits(msg);
    ReverseSerial(c.initialRemainder, c.polynomial, LsbBits(msg));
  }

  /** Without reflections it is the remainder of a division of polynomials. */
  lemma {:induction false} PlainCrcIsDivision(c: Config, msg: seq<Byte>)
    requires |c.polynomial| >= 8 && ConfigOf(c, |c.polynomial|)
    requires !c.dataReflected && !c.remainderReflected
    ensures CrcOf(c, msg) == Xor(Divide(Dividend(c.initialRemainder, BitsOf(msg)), c.polynomial), c.finalXorValue)
  {
    hide Serial, Divide, Dividend;
    SerialIsDivision(c.initialRemainder, c.polynomial, BitsOf(msg));
  }

  /** reflect: the low `nBits` bits of a 32-bit word, in reverse order. */
  method Reflect(input: seq<bool>, nBits: nat) returns (reflection: seq<bool>)
    requires |input| == 32 && nBits <= 32
    ensures reflection == Zeros(32 - nBits) + Reverse(input[32 - nBits..])
  {
    hide Partial, ShiftRightOne;
    var data := input;
    reflection := Zeros(32);
    ghost var rev := Reverse(input[32 - nBits..]);
    PartialStart(rev);
    for bit := 0 to nBits
      invariant data == Zeros(bit) + input[..32 - bit]
      invariant reflection == Partial(rev, bit)
    {
      PartialStep(rev, bit);
      ShiftedRight(input, bit);
      if data[31] {
        reflection := reflection[31 - (nBits - 1 - bit) := true];
      }
      data := ShiftRightOne(data);
    }
  }

  // The first n bits of `rev`, right-aligned with it in a 32-bit word.
  function Partial(rev: seq<bool>, n: nat): seq<bool>
    requires n <= |rev| <= 32
  {
    Zeros(32 - |rev|) + rev[..n] + Zeros(|rev| - n)
  }

  lemma {:induction false} PartialStart(rev: seq<bool>)
    requires |rev| <= 32
    ensures Partial(rev, 0) == Zeros(32)
    ensures Partial(rev, |rev|) == Zeros(32 - |rev|) + rev
  {}

  lemma {:induction false} ShiftedRight(input: seq<bool>, n: nat)
    requires |input| == 32 && n < 32
    ensures (Zeros(n) + input[..32 - n])[31] == input[31 - n]
    ensures ShiftRightOne(Zeros(n) + input[..32 - n]) == Zeros(n + 1) + input[..32 - (n + 1)]
  {}

  lemma {:induction false} PartialStep(rev: seq<bool>, n: nat)
    requires n < |rev| <= 32
    ensures |Partial(rev, n)| == 32
    ensures Partial(rev, n + 1) == if rev[n] then Partial(rev, n)[32 - |rev| + n := true] else Partial(rev, n)
  {}

  method ReflectLow(word: seq<bool>) returns (r: seq<bool>)
    requires |word| <= 32
    ensures r == Reverse(word)
  {
    var wide := Reflect(Zeros(32 - |word|) + word, |word|);
    assert (Zeros(32 - |word|) + word)[32 - |word|..] == word;
    r := wide[32 - |word|..];
  }

  /** Eight division steps on a dividend followed by zeros. */
  method DivideByte(byte: Byte, poly: seq<bool>) returns (remainder: seq<bool>)
    requires |poly| >= 8
    ensures remainder == TableEntry(byte, poly)
  {
    hide Steps, Xor, ShiftLeft;
    remainder := byte + Zeros(|poly| - 8);
    var bit := 8;
    while bit > 0
      invariant 0 <= bit <= 8 && |remainder| == |poly|
      invariant TableEntry(byte, poly) == Steps(remainder, poly, bit)
    {
      StepsUnfold(remainder, poly, bit);
      if remainder[0] {
        remainder := Xor(ShiftLeft(remainder, 1), poly);
      } else {
        remainder := ShiftLeft(remainder, 1);
      }
      bit := bit - 1;
    }
    StepsUnfold(remainder, poly, 0);
  }

  lemma {:induction false} StepsUnfold(r: seq<bool>, poly: seq<bool>, n: nat)
    requires |r| == |poly| > 0
    ensures Steps(r, poly, n) == if n == 0 then r else Steps(Step(r, poly), poly, n - 1)
  {
    hide Step;
  }

  /** The table is right for all dividends below `n`. */
  ghost predicate Tabulated(table: seq<seq<bool>>, poly: seq<bool>, n: nat)
    requires |poly| >= 8
  {
    forall d: Byte :: Nat(d) < n && Nat(d) < |table| ==> table[Nat(d)] == TableEntry(d, poly)
  }

  lemma {:induction false} TabulatedStep(table: seq<seq<bool>>, table': seq<seq<bool>>, poly: seq<bool>, n: nat,
                                         byte: Byte)
    requires |poly| >= 8 && n < |table| && Tabulated(table, poly, n) && Nat(byte) == n
    requires table' == table[n := TableEntry(byte, poly)]
    ensures Tabulated(table', poly, n + 1)
  {
    hide Nat, TableEntry;
    forall d: Byte | Nat(d) < n + 1 ensures table'[Nat(d)] == TableEntry(d, poly) {
      if Nat(d) == n { NatInjective(d, byte); }
    }
  }

  class CrcCustom {
    const width: nat
    var config: Config
    const table: array<seq<bool>>

    ghost predicate Valid()
      reads this, table
    {
      && 8 <= width <= 32 && ConfigOf(config, width) && table.Length == 256
      && Tabulated(table[..], config.polynomial, 256)
    }

    constructor (c: Config)
      requires 8 <= |c.polynomial| <= 32 && ConfigOf(c, |c.polynomial|)
      ensures Valid() && config == c && fresh(table)
    {
      width := |c.polynomial|;
      config := c;
      table := new seq<bool>[256](_ => []);
      new;
      RecomputeTable(c);
    }

    /** recompute_crc_table. */
    method RecomputeTable(c: Config)
      requires table.Length == 256 && 8 <= width <= 32 && ConfigOf(c, width)
      modifies table
      ensures Tabulated(table[..], c.polynomial, 256)
    {
      hide Tabulated, TableEntry;
      NothingTabulated(table[..], c.polynomial);
      for dividend := 0 to 256
        invariant Tabulated(table[..], c.polynomial, dividend)
      {
        var byte := ByteOf(dividend);
        var remainder := DivideByte(byte, c.polynomial);
        TabulatedStep(table[..], table[..][dividend := remainder], c.polynomial, dividend, byte);
        table[dividend] := remainder;
      }
    }

    method UpdateConfig(c: Config)
      requires Valid() && ConfigOf(c, width)
      modifies this`config, table
      ensures Valid() && config == c
    {
      RecomputeTable(c);
      config := c;
    }

    /** The table-driven run computes the bit-serial CRC of its configuration. */
    method Run(buf: seq<Byte>) returns (r: seq<bool>)
      requires Valid()
      ensures r == CrcOf(config, buf) && CrcBits(config, buf, r)
    {
      hide CrcOf, CrcBits, Serial, TableRun, Nat, TableEntry, Xor, ShiftLeft, Reverse, Tabulated;
      ghost var msg := if config.dataReflected then ReverseEach(buf) else buf;
      var remainder := config.initialRemainder;
      TableRunStep(config.initialRemainder, config.polynomial, msg[..0]);
      for i := 0 to |buf|
        invariant |remainder| == width
        invariant remainder == TableRun(config.initialRemainder, config.polynomial, msg[..i])
      {
        var uchar: Byte := buf[i];
        if config.dataReflected { uchar := ReflectLow(uchar); }
        var data: Byte := Xor(uchar, remainder[..8]);
        ByteRange(data);
        TabulatedAt(table[..], config.polynomial, data);
        assert msg[..i + 1][..i] == msg[..i] && msg[..i + 1][i] == msg[i];
        TableRunStep(config.initialRemainder, config.polynomial, msg[..i + 1]);
        remainder := Xor(table[Nat(data)], ShiftLeft(remainder, 8));
      }
      assert msg[..|buf|] == msg;
      TableRunIsSerial(config.initialRemainder, config.polynomial, msg);
      if config.remainderReflected { remainder := ReflectLow(remainder); }
      r := Xor(remainder, config.finalXorValue);
      CrcUnfolds(config, buf);
      CrcIsDivision(config, buf);
    }
  }

  lemma {:induction false} CrcUnfolds(c: Config, msg: seq<Byte>)
    requires |c.polynomial| >= 8 && ConfigOf(c, |c.polynomial|)
    ensures var bits := BitsOf(if c.dataReflected then ReverseEach(msg) else msg);
            var r := Serial(c.initialRemainder, c.polynomial, bits);
            CrcOf(c, msg) == Xor(if c.remainderReflected then Reverse(r) else r, c.finalXorValue)
  {
    hide Serial;
  }

  lemma {:induction false} NothingTabulated(table: seq<seq<bool>>, poly: seq<bool>)
    requires |poly| >= 8
    ensures Tabulated(table, poly, 0)
  {}

  lemma {:induction false} TabulatedAt(table: seq<seq<bool>>, poly: seq<bool>, d: Byte)
    requires |poly| >= 8 && |table| == 256 && Tabulated(table, poly, 256) && Nat(d) < 256
    ensures table[Nat(d)] == TableEntry(d, poly)
  {}

  lemma {:induction false} TableRunStep(r: seq<bool>, poly: seq<bool>, msg: seq<Byte>)
    requires |r| == |poly| >= 8
    ensures TableRun(r, poly, msg) ==
      if msg == [] then r else ByteStep(TableRun(r, poly, msg[..|msg| - 1]), poly, msg[|msg| - 1])
  {
    hide ByteStep;
  }
}
