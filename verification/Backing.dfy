/** Processor-addressed storage with checked ranges. */
module Backing {
  import opened Words

  datatype Store = Store(available: bool, base: nat, bytes: seq<byte>)

  predicate RangeValid(b: Store, address: nat, length: nat) {
    && b.available && address >= b.base
    && address - b.base <= |b.bytes| && length <= |b.bytes| - (address - b.base)
  }

  function Read(b: Store, address: nat, length: nat): Option<seq<byte>> {
    if RangeValid(b, address, length) then Some(b.bytes[address - b.base..address - b.base + length]) else None
  }

  /** The store with `data` at an address it has room for. */
  function Put(b: Store, address: nat, data: seq<byte>): (r: Store)
    requires RangeValid(b, address, |data|)
    ensures |r.bytes| == |b.bytes|
  {
    b.(bytes := Overlay(b.bytes, address - b.base, data))
  }

  function Write(b: Store, address: nat, data: seq<byte>): Store {
    if RangeValid(b, address, |data|) then Put(b, address, data) else b
  }

  /** Stores over the same addresses. */
  predicate SameShape(b: Store, c: Store) { c.available == b.available && c.base == b.base && |c.bytes| == |b.bytes| }

  /** A range that a write does not touch reads as before. */
  lemma ReadElsewhere(b: Store, address: nat, data: seq<byte>, from: nat, length: nat)
    requires RangeValid(b, address, |data|) && RangeValid(b, from, length)
    requires from + length <= address || address + |data| <= from
    ensures Read(Put(b, address, data), from, length) == Read(b, from, length)
  {
    var x := from - b.base;
    assert Put(b, address, data).bytes[x..x + length] == b.bytes[x..x + length];
  }

  lemma ReadBack(b: Store, address: nat, data: seq<byte>)
    requires RangeValid(b, address, |data|)
    ensures Read(Put(b, address, data), address, |data|) == Some(data)
  {
  }

  lemma ReadConcat(b: Store, address: nat, n: nat, m: nat)
    requires RangeValid(b, address, n + m)
    ensures Read(b, address, n + m).value == Read(b, address, n).value + Read(b, address + n, m).value
  {
  }

  /** Writing right behind a range extends what it reads. */
  lemma ReadExtended(b: Store, address: nat, n: nat, data: seq<byte>)
    requires RangeValid(b, address, n + |data|)
    ensures RangeValid(b, address, n) && RangeValid(b, address + n, |data|) && Read(b, address, n).Some?
    ensures Read(Put(b, address + n, data), address, n + |data|)
            == Some(Read(b, address, n).value + data)
  {
    var c := Put(b, address + n, data);
    ReadElsewhere(b, address + n, data, address, n);
    ReadBack(b, address + n, data);
    ReadConcat(c, address, n, |data|);
  }

  /** Consecutive writes are one write. */
  lemma PutTwice(b: Store, address: nat, first: seq<byte>, second: seq<byte>)
    requires RangeValid(b, address, |first| + |second|)
    ensures RangeValid(Put(b, address, first), address + |first|, |second|)
    ensures Put(Put(b, address, first), address + |first|, second) == Put(b, address, first + second)
  {
    OverlayTwice(b.bytes, address - b.base, first, second);
  }

  class Storage {
    const bytes: array<byte>
    const base: nat
    const available: bool

    ghost function View(): Store
      reads bytes
    {
      Store(available, base, bytes[..])
    }

    constructor (bytes: array<byte>, base: nat)
      ensures this.bytes == bytes && this.base == base && available == (bytes.Length != 0)
    {
      this.bytes, this.base := bytes, base;
      available := bytes.Length != 0;
    }

    method ReadRange(address: nat, length: nat) returns (data: Option<seq<byte>>)
      ensures data == Read(View(), address, length)
    {
      if !InRange(address, length) { return None; }
      return Some(bytes[address - base..address - base + length]);
    }

    predicate InRange(address: nat, length: nat)
      reads bytes
      ensures InRange(address, length) == RangeValid(View(), address, length)
    {
      available && address >= base && address - base <= bytes.Length && length <= bytes.Length - (address - base)
    }

    method WriteRange(address: nat, data: seq<byte>) returns (ok: bool)
      modifies bytes
      ensures ok == RangeValid(old(View()), address, |data|)
      ensures View() == Write(old(View()), address, data)
    {
      if !InRange(address, |data|) { return false; }
      CopyInto(bytes, address - base, data);
      return true;
    }

    method FillRange(address: nat, value: byte, length: nat) returns (ok: bool)
      modifies bytes
      ensures ok == RangeValid(old(View()), address, length)
      ensures View() == Write(old(View()), address, Repeat(value, length))
    {
      ok := WriteRange(address, Repeat(value, length));
    }
  }
}
