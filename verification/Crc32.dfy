// The frame checksum: a table of 256 entries, one byte at a time, against the
// reflected bit-serial CRC of section 3.2.9 of IEEE 802.3.

module Crc32 {

  const POLYNOMIAL: bv32 := 0xEDB88320

  function Xor(a: bv32, b: bv32): bv32 { a ^ b }

  function Half(x: bv32): bv32 { x >> 1 }

  predicate Odd(x: bv32) { x & 1 != 0 }

  function Wide(b: bv8): bv32 { b as bv32 }

  /** One bit of the reflected shift register. */
  function BitStep(crc: bv32): bv32 {
    if Odd(crc) then Xor(Half(crc), POLYNOMIAL) else Half(crc)
  }

  function BitSteps(crc: bv32, n: nat): bv32
    decreases n
  {
    if n == 0 then crc else BitStep(BitSteps(crc, n - 1))
  }

  /** One bit of a message enters the register. */
  function Enter(crc: bv32, bit: bool): bv32 {
    if Odd(crc) != bit then Xor(Half(crc), POLYNOMIAL) else Half(crc)
  }

  function EnterAll(crc: bv32, bits: seq<bool>): bv32
    decreases |bits|
  {
    if bits == [] then crc else EnterAll(Enter(crc, bits[0]), bits[1..])
  }

  /** The bits of a byte in transmission order, least significant first. */
  function BitsFrom(b: bv32, n: nat): (bits: seq<bool>)
    ensures |bits| == n
    decreases n
  {
    if n == 0 then [] else [Odd(b)] + BitsFrom(Half(b), n - 1)
  }

  function Transmitted(data: seq<bv8>): seq<bool> {
    if data == [] then [] else Transmitted(data[..|data| - 1]) + BitsFrom(Wide(data[|data| - 1]), 8)
  }

  /** The checksum of a message, bit by bit. */
  function Checksum(data: seq<bv8>): bv32 {
    !EnterAll(0xFFFFFFFF, Transmitted(data))
  }

  // ---- words -------------------------------------------------------------------

  lemma XorRight(a: bv32, b: bv32, p: bv32)
    ensures Xor(a, Xor(b, p)) == Xor(Xor(a, b), p)
  {
  }

  lemma XorSwap(a: bv32, b: bv32)
    ensures Xor(a, b) == Xor(b, a)
  {
  }

  lemma XorSelf(a: bv32)
    ensures Xor(a, a) == 0 && Xor(a, 0) == a
  {
  }

  lemma XorLeft(a: bv32, b: bv32, p: bv32)
    ensures Xor(Xor(a, p), b) == Xor(Xor(a, b), p)
  {
    hide Xor;
    XorRight(a, p, b);
    XorSwap(p, b);
    XorRight(a, b, p);
  }

  lemma XorBoth(a: bv32, b: bv32, p: bv32)
    ensures Xor(Xor(a, p), Xor(b, p)) == Xor(a, b)
  {
    hide Xor;
    XorRight(Xor(a, p), b, p);
    XorLeft(a, b, p);
    XorRight(Xor(a, b), p, p);
    XorSelf(p);
    XorSelf(Xor(a, b));
  }

  lemma HalfXor(a: bv32, b: bv32)
    ensures Half(Xor(a, b)) == Xor(Half(a), Half(b))
    ensures Odd(Xor(a, b)) <==> Odd(a) != Odd(b)
  {
  }

  lemma StepXor(a: bv32, b: bv32)
    ensures BitStep(Xor(a, b)) == Xor(BitStep(a), BitStep(b))
  {
    HalfXor(a, b);
    XorBoth(Half(a), Half(b), POLYNOMIAL);
    XorLeft(Half(a), Half(b), POLYNOMIAL);
    XorRight(Half(a), Half(b), POLYNOMIAL);
    hide Xor, Half, Odd;
  }

  /** The register is linear over XOR. */
  lemma {:induction false} StepsXor(a: bv32, b: bv32, n: nat)
    ensures BitSteps(Xor(a, b), n) == Xor(BitSteps(a, n), BitSteps(b, n))
    decreases n
  {
    if n > 0 {
      StepsXor(a, b, n - 1);
      StepXor(BitSteps(a, n - 1), BitSteps(b, n - 1));
    }
  }

  /** Bits above the low n only move down in n steps. */
  lemma {:induction false} StepsShift(a: bv32, n: nat)
    requires n <= 8 && LowZero(a, n)
    ensures BitSteps(a, n) == Halves(a, n)
    decreases n
  {
    hide Half, Odd, Xor;
    if n > 0 {
      StepsShift(a, n - 1);
      LowIsEven(a, n - 1);
    }
  }

  function Halves(a: bv32, n: nat): bv32
    decreases n
  {
    if n == 0 then a else Half(Halves(a, n - 1))
  }

  predicate LowZero(a: bv32, n: nat)
    decreases n
  {
    n == 0 || (LowZero(a, n - 1) && !Odd(Halves(a, n - 1)))
  }

  lemma LowIsEven(a: bv32, n: nat)
    requires LowZero(a, n + 1)
    ensures !Odd(Halves(a, n)) && LowZero(a, n)
  {
  }

  // ---- a byte at a time --------------------------------------------------------

  /** Entering bits is mixing them into the low end of the register first. */
  lemma {:induction false} EnterIsMix(crc: bv32, b: bv32, n: nat)
    requires BitsEnd(b, n)
    ensures EnterAll(crc, BitsFrom(b, n)) == BitSteps(Xor(crc, b), n)
    decreases n
  {
    if n == 0 {
      XorSelf(crc);
    } else {
      EnterOne(crc, b);
      EnterIsMix(Enter(crc, Odd(b)), Half(b), n - 1);
      var bits := BitsFrom(b, n);
      assert bits[0] == Odd(b) && bits[1..] == BitsFrom(Half(b), n - 1);
      StepFirst(Xor(crc, b), n);
    }
  }

  /** b has no bits from position n on. */
  predicate BitsEnd(b: bv32, n: nat)
    decreases n
  {
    if n == 0 then b == 0 else BitsEnd(Half(b), n - 1)
  }

  lemma EnterOne(crc: bv32, b: bv32)
    ensures Xor(Enter(crc, Odd(b)), Half(b)) == BitStep(Xor(crc, b))
  {
    HalfXor(crc, b);
    XorLeft(Half(crc), Half(b), POLYNOMIAL);
    hide Xor, Half, Odd;
  }

  lemma {:induction false} StepFirst(a: bv32, n: nat)
    requires n > 0
    ensures BitSteps(a, n) == BitSteps(BitStep(a), n - 1)
    decreases n
  {
    if n > 1 { StepFirst(a, n - 1); }
  }

  lemma {:induction false} EnterMore(crc: bv32, a: seq<bool>, b: seq<bool>)
    ensures EnterAll(crc, a + b) == EnterAll(EnterAll(crc, a), b)
    decreases |a|
  {
    if a == [] {
      assert a + b == b;
    } else {
      EnterMore(Enter(crc, a[0]), a[1..], b);
      assert (a + b)[1..] == a[1..] + b;
    }
  }

  lemma ByteEnds(b: bv8)
    ensures BitsEnd(Wide(b), 8)
  {
    var w := Wide(b);
    assert Half(Half(Half(Half(Half(Half(Half(Half(w)))))))) == 0;
    EndsAfter(w);
  }

  lemma EndsAfter(w: bv32)
    requires Half(Half(Half(Half(Half(Half(Half(Half(w)))))))) == 0
    ensures BitsEnd(w, 8)
  {
    hide Half;
    var w4 := Half(Half(Half(Half(w))));
    assert BitsEnd(Half(Half(Half(w4))), 1);
    assert BitsEnd(Half(Half(w4)), 2);
    assert BitsEnd(Half(w4), 3);
    assert BitsEnd(w4, 4);
    assert BitsEnd(Half(Half(Half(w))), 5);
    assert BitsEnd(Half(Half(w)), 6);
    assert BitsEnd(Half(w), 7);
  }

  /** The table entry of an index: eight steps from the index. */
  function Entry(i: nat): bv32
    requires i < 256
  {
    BitSteps(i as bv32, 8)
  }

  function Low(crc: bv32): (b: bv32)
    ensures b < 256
  {
    crc & 0xFF
  }

  function High(crc: bv32): bv32 { crc & 0xFFFFFF00 }

  function Shifted(crc: bv32): bv32 { crc >> 8 }

  lemma SplitXor(crc: bv32)
    ensures crc == Xor(High(crc), Low(crc))
  {
  }

  lemma SplitHigh(crc: bv32)
    ensures High(crc) & 0xFF == 0 && Shifted(High(crc)) == Shifted(crc)
  {
  }

  lemma HighHalves(w: bv32)
    requires w & 0xFF == 0
    ensures LowZero(w, 8) && Halves(w, 8) == Shifted(w)
  {
    var h1, h2, h3 := Half(w), Half(Half(w)), Half(Half(Half(w)));
    var h4, h5, h6 := Half(h3), Half(Half(h3)), Half(Half(Half(h3)));
    var h7 := Half(h6);
    assert !Odd(w) && !Odd(h1) && !Odd(h2) && !Odd(h3) && !Odd(h4) && !Odd(h5) && !Odd(h6) && !Odd(h7);
    assert Half(h7) == Shifted(w);
    HalvesChain(w);
  }

  lemma HalvesChain(w: bv32)
    ensures Halves(w, 0) == w && Halves(w, 1) == Half(w) && Halves(w, 2) == Half(Half(w))
    ensures Halves(w, 3) == Half(Halves(w, 2)) && Halves(w, 4) == Half(Halves(w, 3))
        && Halves(w, 5) == Half(Halves(w, 4))
    ensures Halves(w, 6) == Half(Halves(w, 5)) && Halves(w, 7) == Half(Halves(w, 6))
        && Halves(w, 8) == Half(Halves(w, 7))
  {
    hide Half;
  }

  /** Eight steps at once: the high bytes move down, the low byte is looked up. */
  lemma EightSteps(crc: bv32)
    ensures BitSteps(crc, 8) == Xor(Shifted(crc), BitSteps(Low(crc), 8))
  {
    SplitXor(crc);
    SplitHigh(crc);
    HighHalves(High(crc));
    hide BitSteps, Halves, LowZero, Xor, Low, High, Shifted;
    StepsXor(High(crc), Low(crc), 8);
    StepsShift(High(crc), 8);
  }

  /** The table index of a register. */
  function Index(crc: bv32): (i: nat)
    ensures i < 256
  {
    Low(crc) as nat
  }

  lemma EntryOfIndex(crc: bv32)
    ensures Entry(Index(crc)) == BitSteps(Low(crc), 8)
  {
    hide BitSteps;
    BackAndForth(Low(crc));
  }

  // ---- the kernel's routine -----------------------------------------------------

  /** Fills the table, one entry after the other. */
  method BuildTable() returns (table: array<bv32>)
    ensures fresh(table) && table.Length == 256
    ensures forall i :: 0 <= i < 256 ==> table[i] == Entry(i)
  {
    hide Entry;
    table := new bv32[256];
    var i := 0;
    while i < 256
      invariant i <= 256 && forall k :: 0 <= k < i ==> table[k] == Entry(k)
    {
      table[i] := ComputeEntry(i);
      i := i + 1;
    }
  }

  method ComputeEntry(i: nat) returns (crc: bv32)
    requires i < 256
    ensures crc == Entry(i)
  {
    hide Odd, Xor, Half;
    ghost var start := i as bv32;
    crc := i as bv32;
    var j := 0;
    while j < 8
      invariant j <= 8 && crc == BitSteps(start, j)
    {
      if Odd(crc) {
        crc := Xor(Half(crc), POLYNOMIAL);
      } else {
        crc := Half(crc);
      }
      j := j + 1;
    }
  }

  /** The table-driven checksum is the bit-serial one, for every message. */
  method ComputeCrc32(table: array<bv32>, data: seq<bv8>) returns (r: bv32)
    requires table.Length == 256 && forall i :: 0 <= i < 256 ==> table[i] == Entry(i)
    ensures r == Checksum(data)
  {
    hide Xor, Shifted, Index, Wide, Entry, EnterAll, BitsFrom;
    var crc: bv32 := 0xFFFFFFFF;
    var i := 0;
    NothingEntered(crc);
    assert data[..0] == [];
    while i < |data|
      invariant i <= |data| && crc == EnterAll(0xFFFFFFFF, Transmitted(data[..i]))
    {
      ghost var before := crc;
      var idx := Index(Xor(crc, Wide(data[i])));
      crc := Xor(Shifted(crc), table[idx]);
      ByteStep(before, data[i]);
      TransmittedMore(data, i);
      EnterMore(0xFFFFFFFF, Transmitted(data[..i]), BitsFrom(Wide(data[i]), 8));
      i := i + 1;
    }
    assert data[..i] == data;
    r := !crc;
  }

  lemma NothingEntered(crc: bv32)
    ensures EnterAll(crc, []) == crc
  {
  }

  lemma TransmittedMore(data: seq<bv8>, i: nat)
    requires i < |data|
    ensures Transmitted(data[..i + 1]) == Transmitted(data[..i]) + BitsFrom(Wide(data[i]), 8)
  {
    assert data[..i + 1][..i] == data[..i];
  }

  /** One turn of the loop enters the eight bits of a byte. */
  lemma ByteStep(crc: bv32, b: bv8)
    ensures Xor(Shifted(crc), Entry(Index(Xor(crc, Wide(b))))) == EnterAll(crc, BitsFrom(Wide(b), 8))
  {
    ByteEnds(b);
    SameHigh(crc, b);
    hide BitSteps, EnterAll, BitsFrom, Low, Xor, Shifted, Index, Entry, Wide, BitsEnd;
    EnterIsMix(crc, Wide(b), 8);
    EightSteps(Xor(crc, Wide(b)));
    EntryOfIndex(Xor(crc, Wide(b)));
  }

  lemma SameHigh(crc: bv32, b: bv8)
    ensures Shifted(Xor(crc, Wide(b))) == Shifted(crc)
  {
  }

  lemma BackAndForth(w: bv32)
    requires w < 256
    ensures (w as nat) < 256 && (w as nat) as bv32 == w
  {
  }
}
