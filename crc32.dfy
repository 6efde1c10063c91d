/** `crc32`: the CRC-32 of ZIP (PKWARE APPNOTE section 4.4.7), reflected polynomial
    0xEDB88320, register preset to 0xFFFFFFFF and complemented at the end, computed with a
    256-entry table that is built before the data are read. */
module Crc32 {

  const Polynomial: bv32 := 0xEDB88320

  /** One bit of the reflected shift register: shift right, and fold the polynomial in
      when the bit shifted out is set (`0 - (c & 1)` is all ones exactly then). */
  function Step(c: bv32): bv32 {
    (c >> 1) ^ (Polynomial & (0 - (c & 1)))
  }

  /** `j` steps of the register. */
  function Steps(c: bv32, j: nat): bv32 {
    if j == 0 then c else Step(Steps(c, j - 1))
  }

  /** Eight steps, written out. */
  function Eight(c: bv32): bv32 {
    Step(Step(Step(Step(Step(Step(Step(Step(c))))))))
  }

  /** The byte as a register value. */
  function Widen(b: bv8): bv32 {
    b as bv32
  }

  /** The low byte, the register shifted down by a byte, and the exclusive or of two
      registers: named so that proofs about them can rewrite whole terms. */
  function Low(c: bv32): bv32 {
    c & 0xFF
  }

  function High(c: bv32): bv32 {
    c >> 8
  }

  function Mix(a: bv32, b: bv32): bv32 {
    a ^ b
  }

  /** `table[i]`: eight steps from `i`. */
  function TableEntry(i: bv32): bv32 {
    Steps(i, 8)
  }

  /** Bit-at-a-time reference: the byte enters the low end of the register, then eight steps. */
  function UpdateBitwise(crc: bv32, b: bv8): bv32 {
    Steps(Mix(crc, Widen(b)), 8)
  }

  /** The register after `data`, one byte at a time from `crc`. */
  function Register(crc: bv32, data: seq<bv8>): bv32
    decreases |data|
  {
    if data == [] then crc else UpdateBitwise(Register(crc, data[..|data| - 1]), data[|data| - 1])
  }

  /** The CRC-32 of `data`, bit at a time. */
  function Checksum(data: seq<bv8>): bv32 {
    Register(0xFFFFFFFF, data) ^ 0xFFFFFFFF
  }

  /** The table-driven update of the source's per-byte loop. */
  function UpdateByTable(crc: bv32, b: bv8): bv32 {
    Mix(TableEntry(Low(Mix(crc, Widen(b)))), High(crc))
  }

  /** The table `crc32` builds on every call: entry `i` is eight steps from `i`. */
  method BuildTable() returns (table: array<bv32>)
    ensures fresh(table) && table.Length == 256
    ensures forall k | 0 <= k < 256 :: table[k] == TableEntry(k as bv32)
  {
    table := new bv32[256];
    for i := 0 to 256
      invariant forall k | 0 <= k < i :: table[k] == TableEntry(k as bv32)
    {
      var c := i as bv32;
      for j := 0 to 8
        invariant c == Steps(i as bv32, j)
        modifies {}
      {
        StepIsBranch(c);
        c := if c & 1 == 1 then 0xEDB88320 ^ (c >> 1) else c >> 1;
      }
      table[i] := c;
    }
  }

  /** `crc32(data)`: builds the table, then runs the table-driven update over the data. */
  method Crc32(data: seq<bv8>) returns (r: bv32)
    ensures r == Checksum(data)
  {
    var table := BuildTable();
    var crc: bv32 := 0xFFFFFFFF;
    for i := 0 to |data|
      invariant crc == Register(0xFFFFFFFF, data[..i])
      modifies {}
    {
      var k := TableIndexOf(crc, data[i]);
      RegisterStep(data, i, crc, table[k]);
      crc := table[k] ^ (crc >> 8);
    }
    assert data[..|data|] == data;
    r := crc ^ 0xFFFFFFFF;
    FinalXor(data, crc, r);
  }

  /** The source's form of one step: the polynomial folded into the shifted register when
      the low bit is set. */
  lemma StepIsBranch(c: bv32)
    ensures Step(c) == if c & 1 == 1 then 0xEDB88320 ^ (c >> 1) else c >> 1
  {
  }

  function TableIndexOf(crc: bv32, b: bv8): (k: int)
    ensures 0 <= k < 256 && k as bv32 == Low(Mix(crc, Widen(b)))
  {
    TableIndex(crc, b);
    ((crc ^ (b as bv32)) & 0xFF) as int
  }

  /** The source's table index is the low byte of the register with the byte folded in. */
  lemma TableIndex(crc: bv32, b: bv8)
    ensures (crc ^ (b as bv32)) & 0xFF == Low(Mix(crc, Widen(b)))
    ensures ((crc ^ (b as bv32)) & 0xFF) as int < 256
    ensures ((((crc ^ (b as bv32)) & 0xFF) as int) as bv32) == Low(Mix(crc, Widen(b)))
  {
  }

  /** The source's update, given the table entry at that index, is the bit-at-a-time one. */
  lemma ByteUpdate(crc: bv32, b: bv8, e: bv32)
    requires e == TableEntry(Low(Mix(crc, Widen(b))))
    ensures e ^ (crc >> 8) == UpdateBitwise(crc, b)
  {
    MixHigh(e, crc);
    TableUpdateIsBitwise(crc, b);
  }

  /** One turn of the source's data loop extends the register by one byte. */
  lemma RegisterStep(data: seq<bv8>, i: nat, crc: bv32, e: bv32)
    requires i < |data| && crc == Register(0xFFFFFFFF, data[..i])
    requires e == TableEntry(Low(Mix(crc, Widen(data[i]))))
    ensures e ^ (crc >> 8) == Register(0xFFFFFFFF, data[..i + 1])
  {
    ByteUpdate(crc, data[i], e);
    assert data[..i + 1][..i] == data[..i];
  }

  lemma FinalXor(data: seq<bv8>, crc: bv32, r: bv32)
    requires crc == Register(0xFFFFFFFF, data) && r == crc ^ 0xFFFFFFFF
    ensures r == Checksum(data)
  {
  }

  lemma MixHigh(e: bv32, crc: bv32)
    ensures e ^ (crc >> 8) == Mix(e, High(crc))
  {
  }

  lemma EightSteps(v: bv32)
    ensures Steps(v, 8) == Eight(v)
  {
    assert Steps(v, 1) == Step(v);
    assert Steps(v, 2) == Step(Step(v));
    assert Steps(v, 3) == Step(Step(Step(v)));
    assert Steps(v, 4) == Step(Step(Step(Step(v))));
    assert Steps(v, 5) == Step(Step(Step(Step(Step(v)))));
    assert Steps(v, 6) == Step(Step(Step(Step(Step(Step(v))))));
    assert Steps(v, 7) == Step(Step(Step(Step(Step(Step(Step(v)))))));
  }

  /** Eight steps of a register are the eight steps of its low byte, plus the rest of the
      register shifted down by a byte: the polynomial only ever enters through the low byte. */
  lemma LowByteDecides(v: bv32)
    ensures Eight(v) == Mix(Eight(Low(v)), High(v))
  {
  }

  lemma ByteStaysLow(crc: bv32, b: bv8)
    ensures High(Mix(crc, Widen(b))) == High(crc)
  {
  }

  /** The table-driven update equals the bit-at-a-time one. */
  lemma TableUpdateIsBitwise(crc: bv32, b: bv8)
    ensures UpdateByTable(crc, b) == UpdateBitwise(crc, b)
  {
    var v := Mix(crc, Widen(b));
    LowByteDecides(v);
    ByteStaysLow(crc, b);
    EightSteps(v);
    EightSteps(Low(v));
  }

  /** Appending a byte to the data appends one bit-at-a-time update to the register. */
  lemma RegisterExtend(data: seq<bv8>, b: bv8, next: seq<bv8>, c: bv32, c2: bv32)
    requires next == data + [b]
    requires Register(0xFFFFFFFF, data) == c && UpdateBitwise(c, b) == c2
    ensures Register(0xFFFFFFFF, next) == c2
  {
    assert next[..|data|] == data;
  }

  /** The standard check value, in three stages of three bytes: the CRC-32 of the ASCII
      digits "123456789" is 0xCBF43926. */
  lemma CheckPrefix3()
    ensures Register(0xFFFFFFFF, [0x31, 0x32, 0x33]) == 0x77B79C2D
  {
    assert UpdateBitwise(0xFFFFFFFF, 0x31) == 0x7C231048;
    RegisterExtend([], 0x31, [0x31], 0xFFFFFFFF, 0x7C231048);
    assert UpdateBitwise(0x7C231048, 0x32) == 0xB0ACBB32;
    RegisterExtend([0x31], 0x32, [0x31, 0x32], 0x7C231048, 0xB0ACBB32);
    assert UpdateBitwise(0xB0ACBB32, 0x33) == 0x77B79C2D;
    RegisterExtend([0x31, 0x32], 0x33, [0x31, 0x32, 0x33], 0xB0ACBB32, 0x77B79C2D);
  }

  lemma CheckPrefix6()
    ensures Register(0xFFFFFFFF, [0x31, 0x32, 0x33, 0x34, 0x35, 0x36]) == 0xF68D2C9E
  {
    CheckPrefix3();
    assert UpdateBitwise(0x77B79C2D, 0x34) == 0x641C1F5C;
    RegisterExtend([0x31, 0x32, 0x33], 0x34, [0x31, 0x32, 0x33, 0x34], 0x77B79C2D, 0x641C1F5C);
    assert UpdateBitwise(0x641C1F5C, 0x35) == 0x340AC5E3;
    RegisterExtend([0x31, 0x32, 0x33, 0x34], 0x35, [0x31, 0x32, 0x33, 0x34, 0x35], 0x641C1F5C, 0x340AC5E3);
    assert UpdateBitwise(0x340AC5E3, 0x36) == 0xF68D2C9E;
    RegisterExtend([0x31, 0x32, 0x33, 0x34, 0x35], 0x36, [0x31, 0x32, 0x33, 0x34, 0x35, 0x36], 0x340AC5E3, 0xF68D2C9E);
  }

  lemma CheckValue()
    ensures Checksum([0x31, 0x32, 0x33, 0x34, 0x35, 0x36, 0x37, 0x38, 0x39]) == 0xCBF43926
  {
    CheckPrefix6();
    assert UpdateBitwise(0xF68D2C9E, 0x37) == 0xAFFC9660;
    RegisterExtend([0x31, 0x32, 0x33, 0x34, 0x35, 0x36], 0x37, [0x31, 0x32, 0x33, 0x34, 0x35, 0x36, 0x37], 0xF68D2C9E, 0xAFFC9660);
    assert UpdateBitwise(0xAFFC9660, 0x38) == 0x651F2550;
    RegisterExtend([0x31, 0x32, 0x33, 0x34, 0x35, 0x36, 0x37], 0x38, [0x31, 0x32, 0x33, 0x34, 0x35, 0x36, 0x37, 0x38], 0xAFFC9660, 0x651F2550);
    assert UpdateBitwise(0x651F2550, 0x39) == 0x340BC6D9;
    RegisterExtend([0x31, 0x32, 0x33, 0x34, 0x35, 0x36, 0x37, 0x38], 0x39, [0x31, 0x32, 0x33, 0x34, 0x35, 0x36, 0x37, 0x38, 0x39], 0x651F2550, 0x340BC6D9);
  }

  /** No data: the preset register complemented, zero. */
  lemma EmptyChecksum()
    ensures Checksum([]) == 0
  {
  }
}
