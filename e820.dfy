/**
 * The E820-style memory map pmm.c fills from the boot loader's memory-map records: a fixed
 * table of at most eight entries, each an address range and its ACPI address-range type.
 */
module E820 {
  /** Capacity of the table (include/mem/e820.h). */
  const E820_MAX: nat := 8
  /** ACPI address-range types. */
  const E820_RAM: nat := 1
  const E820_RESERVED: nat := 2
  const E820_ACPI: nat := 3
  const E820_NVS: nat := 4
  const E820_UNUSABLE: nat := 5

  /** One record of the Multiboot2 memory-map tag: 64-bit base and length, 32-bit type. */
  datatype MmapRecord = MmapRecord(addr: nat, len: nat, rtype: nat)

  /** `e820entry_t`. */
  datatype E820Entry = E820Entry(addr: nat, length: nat, etype: nat)

  /** The table entry a record is copied into: the three fields carried over unchanged. */
  function Convert(r: MmapRecord): (e: E820Entry)
    ensures e.addr == r.addr && e.length == r.len && e.etype == r.rtype
  {
    E820Entry(r.addr, r.len, r.rtype)
  }

  const EMPTY_ENTRY: E820Entry := E820Entry(0, 0, 0)

  /** `e820map_t`: the number of entries in use and the fixed table. */
  class E820Map {
    var nrMap: nat
    const table: array<E820Entry>

    ghost predicate Valid()
      reads this
    {
      table.Length == E820_MAX && nrMap <= E820_MAX
    }

    /** The entries in use, in table order. */
    ghost function Entries(): (es: seq<E820Entry>)
      reads this, table
      requires Valid()
      ensures |es| == nrMap
    {
      table[..nrMap]
    }

    /** A zeroed map, as `pmm_init` clears it before the import. */
    constructor ()
      ensures Valid() && fresh(table) && nrMap == 0
      ensures forall i :: 0 <= i < E820_MAX ==> table[i] == EMPTY_ENTRY
    {
      nrMap := 0;
      table := new E820Entry[E820_MAX](_ => EMPTY_ENTRY);
    }

    /**
     * Copies the records into the table, in order. More records than the table holds is fatal:
     * the import stops at the ninth record, with the first eight copied and `nrMap` at 8.
     */
    method GetRamInfo(records: seq<MmapRecord>) returns (fatal: bool)
      requires Valid()
      modifies this, table
      ensures Valid()
      ensures fatal <==> |records| > E820_MAX
      ensures nrMap == if fatal then E820_MAX else |records|
      ensures forall i :: 0 <= i < nrMap ==> table[i] == Convert(records[i])
      ensures forall i :: nrMap <= i < E820_MAX ==> table[i] == old(table[i])
    {
      nrMap := 0;
      while nrMap < |records|
        invariant Valid() && nrMap <= |records|
        invariant forall i :: 0 <= i < nrMap ==> table[i] == Convert(records[i])
        invariant forall i :: nrMap <= i < E820_MAX ==> table[i] == old(table[i])
      {
        if nrMap == E820_MAX {
          return true;
        }
        table[nrMap] := Convert(records[nrMap]);
        nrMap := nrMap + 1;
      }
      return false;
    }
  }

  /** The entries a successful import of `records` leaves in the map. */
  function ConvertAll(records: seq<MmapRecord>): (es: seq<E820Entry>)
    ensures |es| == |records|
    ensures forall i :: 0 <= i < |records| ==> es[i] == Convert(records[i])
  {
    if records == [] then [] else ConvertAll(records[..|records| - 1]) + [Convert(records[|records| - 1])]
  }
}
