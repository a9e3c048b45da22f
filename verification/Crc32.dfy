/** The two incremental CRC-32 forms of the firmware and the one-pass,
    table-driven CRC-32 of section 8 of RFC 1952 that the Host computes. */
module Crc32 {
  import opened Words

  /** A 32-bit shift register, least significant bit first. */
  type Register = s: seq<bool> | |s| == 32 witness Fill(false, 32)

  function Fill(bit: bool, n: nat): (s: seq<bool>)
    ensures |s| == n && forall i :: 0 <= i < n ==> s[i] == bit
  {
    seq(n, i => bit)
  }

  function FromWord(n: u32): Register {
    seq(32, i requires 0 <= i < 32 => Bit(n, i))
  }

  function ToWord(r: Register): u32 {
    ValueBound(r);
    Pow2Of32();
    Value(r)
  }

  const POLYNOMIAL: Register := FromWord(0xedb88320)
  const ONES: Register := Fill(true, 32)
  const ZERO: Register := Fill(false, 32)

  function Xor(a: Register, b: Register): Register {
    seq(32, i requires 0 <= i < 32 => a[i] != b[i])
  }

  function And(a: Register, b: Register): Register {
    seq(32, i requires 0 <= i < 32 => a[i] && b[i])
  }

  function Not(a: Register): Register {
    seq(32, i requires 0 <= i < 32 => !a[i])
  }

  function ShiftRight(a: Register, n: nat): Register
    requires n <= 32
  {
    a[n..] + Fill(false, n)
  }

  function LowByte(a: Register): Register { a[..8] + Fill(false, 24) }

  function HighBytes(a: Register): Register { Fill(false, 8) + a[8..] }

  /** `0u - (crc & 1u)`: all ones or all zeros. */
  function Mask(a: Register): Register { if a[0] then ONES else ZERO }

  /** One bit of the shift register, as both firmware loops write it. */
  function Shift(c: Register): Register {
    Xor(ShiftRight(c, 1), And(POLYNOMIAL, Mask(c)))
  }

  function Shifts(c: Register, bits: nat): Register
    decreases bits
  {
    if bits == 0 then c else Shifts(Shift(c), bits - 1)
  }

  /** A data byte widened to the register. */
  function Widen(b: byte): Register { FromWord(b) }

  /** The register after absorbing a byte string. */
  function Absorb(c: Register, data: seq<byte>): Register
    decreases data
  {
    if data == [] then c
    else Absorb(Shifts(Xor(c, Widen(data[0])), 8), data[1..])
  }

  // ---- the reference of RFC 1952 ------------------------------------------

  /** `crc_table[n]` of RFC 1952: eight conditional exclusive-ors. */
  function TableEntry(c: Register, k: nat): Register
    decreases k
  {
    if k == 0 then c
    else TableEntry(if c[0] then Xor(POLYNOMIAL, ShiftRight(c, 1)) else ShiftRight(c, 1), k - 1)
  }

  function UpdateCrc(c: Register, data: seq<byte>): Register
    decreases data
  {
    if data == [] then c
    else
      var index := LowByte(Xor(c, Widen(data[0])));
      UpdateCrc(Xor(TableEntry(index, 8), ShiftRight(c, 8)), data[1..])
  }

  function Reference(data: seq<byte>): Register {
    Xor(UpdateCrc(Xor(ZERO, ONES), data), ONES)
  }

  /** The checksum as the Host writes it into records. */
  function Checksum(data: seq<byte>): u32 { ToWord(Reference(data)) }

  // ---- the bit loop and the table agree -------------------------------------

  /** The mask expression of the firmware loop is the conditional of the RFC. */
  lemma ShiftCases(c: Register)
    ensures Shift(c) == if c[0] then Xor(POLYNOMIAL, ShiftRight(c, 1)) else ShiftRight(c, 1)
  {
  }

  lemma ShiftLinear(x: Register, y: Register)
    ensures Shift(Xor(x, y)) == Xor(Shift(x), Shift(y))
  {
  }

  lemma {:induction false} ShiftsLinear(x: Register, y: Register, bits: nat)
    ensures Shifts(Xor(x, y), bits) == Xor(Shifts(x, bits), Shifts(y, bits))
    decreases bits
  {
    if bits != 0 {
      ShiftLinear(x, y);
      ShiftsLinear(Shift(x), Shift(y), bits - 1);
    }
  }

  /** A register whose low bits are clear is only shifted, never fed back. */
  lemma {:induction false} ShiftsOfHigh(c: Register, bits: nat)
    requires bits <= 32
    requires forall i :: 0 <= i < bits ==> !c[i]
    ensures Shifts(c, bits) == ShiftRight(c, bits)
    decreases bits
  {
    if bits != 0 {
      ShiftCases(c);
      ShiftsOfHigh(ShiftRight(c, 1), bits - 1);
      assert ShiftRight(ShiftRight(c, 1), bits - 1) == ShiftRight(c, bits);
    }
  }

  lemma {:induction false} ShiftsAreTable(c: Register, k: nat)
    ensures Shifts(c, k) == TableEntry(c, k)
    decreases k
  {
    if k != 0 {
      ShiftCases(c);
      ShiftsAreTable(Shift(c), k - 1);
    }
  }

  /** A number below 2^k has no bit set from position k on. */
  lemma {:induction false} BitOfSmall(n: nat, i: nat, k: nat)
    requires n < Pow2(k) && k <= i
    ensures !Bit(n, i)
    decreases i
  {
    if i != 0 {
      BitOfSmall(n / 2, i - 1, if k == 0 then 0 else k - 1);
    }
  }

  lemma SplitByte(c: Register, b: byte)
    ensures var x := Xor(c, Widen(b));
            Xor(LowByte(x), HighBytes(x)) == x && ShiftRight(HighBytes(x), 8) == ShiftRight(c, 8)
  {
    Pow2Of32();
    forall i | 8 <= i < 32
      ensures !Widen(b)[i]
    {
      BitOfSmall(b, i, 8);
    }
  }

  /** Eight shifts with feedback equal one table look-up. */
  lemma ByteStep(c: Register, b: byte, bits: nat)
    requires bits == 8
    ensures Shifts(Xor(c, Widen(b)), bits) == Xor(TableEntry(LowByte(Xor(c, Widen(b))), bits), ShiftRight(c, bits))
  {
    var x := Xor(c, Widen(b));
    SplitByte(c, b);
    ShiftsLinear(LowByte(x), HighBytes(x), bits);
    ShiftsOfHigh(HighBytes(x), bits);
    ShiftsAreTable(LowByte(x), bits);
  }

  lemma {:induction false} AbsorbIsUpdate(c: Register, data: seq<byte>)
    ensures Absorb(c, data) == UpdateCrc(c, data)
    decreases data
  {
    if data != [] {
      ByteStep(c, data[0], 8);
      AbsorbIsUpdate(Shifts(Xor(c, Widen(data[0])), 8), data[1..]);
    }
  }

  // ---- chunking -----------------------------------------------------------------

  lemma {:induction false} AbsorbSplit(c: Register, first: seq<byte>, second: seq<byte>)
    ensures Absorb(c, first + second) == Absorb(Absorb(c, first), second)
    decreases first
  {
    if first == [] {
      assert first + second == second;
    } else {
      assert (first + second)[1..] == first[1..] + second;
      AbsorbSplit(Shifts(Xor(c, Widen(first[0])), 8), first[1..], second);
    }
  }

  function Concat(chunks: seq<seq<byte>>): seq<byte> {
    if chunks == [] then [] else chunks[0] + Concat(chunks[1..])
  }

  /** The upload manager complements the register on entry and on exit. */
  function ManagerUpdate(crc: Register, data: seq<byte>): Register {
    Not(Absorb(Not(crc), data))
  }

  function ManagerCrc(crc: Register, chunks: seq<seq<byte>>): Register
    decreases chunks
  {
    if chunks == [] then crc else ManagerCrc(ManagerUpdate(crc, chunks[0]), chunks[1..])
  }

  /** The flash service keeps the raw register until the commit. */
  function ServiceCrc(register: Register, chunks: seq<seq<byte>>): Register
    decreases chunks
  {
    if chunks == [] then register else ServiceCrc(Absorb(register, chunks[0]), chunks[1..])
  }

  lemma Complement(c: Register)
    ensures Not(Not(c)) == c && Not(c) == Xor(c, ONES) && Not(ZERO) == Xor(ZERO, ONES) == ONES
  {
  }

  lemma {:induction false} ManagerCrcFrom(crc: Register, chunks: seq<seq<byte>>)
    ensures ManagerCrc(crc, chunks) == Not(Absorb(Not(crc), Concat(chunks)))
    decreases chunks
  {
    Complement(crc);
    if chunks != [] {
      Complement(Absorb(Not(crc), chunks[0]));
      ManagerCrcFrom(ManagerUpdate(crc, chunks[0]), chunks[1..]);
      AbsorbSplit(Not(crc), chunks[0], Concat(chunks[1..]));
    }
  }

  lemma {:induction false} ServiceCrcFrom(register: Register, chunks: seq<seq<byte>>)
    ensures ServiceCrc(register, chunks) == Absorb(register, Concat(chunks))
    decreases chunks
  {
    if chunks != [] {
      ServiceCrcFrom(Absorb(register, chunks[0]), chunks[1..]);
      AbsorbSplit(register, chunks[0], Concat(chunks[1..]));
    }
  }

  /** However an image is cut into records, both firmware checksums are the
      checksum the Host computes over the whole of it. */
  lemma ChunkingIrrelevant(chunks: seq<seq<byte>>)
    ensures ManagerCrc(ZERO, chunks) == Reference(Concat(chunks))
    ensures Xor(ServiceCrc(ONES, chunks), ONES) == Reference(Concat(chunks))
  {
    var data := Concat(chunks);
    ManagerCrcFrom(ZERO, chunks);
    ServiceCrcFrom(ONES, chunks);
    Complement(ZERO);
    AbsorbIsUpdate(ONES, data);
    Complement(Absorb(ONES, data));
  }

  lemma ReferenceIsAbsorb(data: seq<byte>)
    ensures Reference(data) == Not(Absorb(ONES, data))
    ensures Reference([]) == ZERO
  {
    Complement(ZERO);
    Complement(Absorb(ONES, data));
    AbsorbIsUpdate(ONES, data);
    assert Reference([]) == ZERO;
  }

  /** The manager's running checksum of a prefix extends to the next chunk. */
  lemma ChecksumExtends(first: seq<byte>, second: seq<byte>)
    ensures ManagerUpdate(Reference(first), second) == Reference(first + second)
  {
    hide Absorb; hide UpdateCrc;
    ReferenceIsAbsorb(first);
    ReferenceIsAbsorb(first + second);
    Complement(Absorb(ONES, first));
    AbsorbSplit(ONES, first, second);
  }

  // ---- the loops as the firmware runs them ------------------------------------------

  /** The inner loop over the eight bits of a byte. */
  method ClockBits(register: Register, bits: nat) returns (c: Register)
    ensures c == Shifts(register, bits)
  {
    c := register;
    var bit := 0;
    while bit < bits
      invariant 0 <= bit <= bits
      invariant Shifts(c, bits - bit) == Shifts(register, bits)
    {
      c := Xor(ShiftRight(c, 1), And(POLYNOMIAL, Mask(c)));
      bit := bit + 1;
    }
  }

  /** `crc32_update` of the flash service: the raw register, byte by byte. */
  method RawUpdate(register: Register, data: seq<byte>) returns (c: Register)
    ensures c == Absorb(register, data)
  {
    c := register;
    var i := 0;
    while i < |data|
      invariant 0 <= i <= |data|
      invariant Absorb(c, data[i..]) == Absorb(register, data)
    {
      c := ClockBits(Xor(c, Widen(data[i])), 8);
      assert data[i..][1..] == data[i + 1..];
      i := i + 1;
    }
  }

  /** `crc32_update` of the workload manager. */
  method ComplementedUpdate(crc: Register, data: seq<byte>) returns (c: Register)
    ensures c == ManagerUpdate(crc, data)
  {
    c := RawUpdate(Not(crc), data);
    c := Not(c);
  }
}
