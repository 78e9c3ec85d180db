/** x86_64 descriptor packing. The fields are stored the way the kernel stores
    them; what they mean is read back from the bytes in memory by the bit positions
    of the Intel SDM, Vol. 3A, sections 3.4.5 (segment descriptors), 3.5.1 (table
    registers) and 6.14.1 (64-bit gates). */
module Descriptors {
  import opened Machine

  // ----- global descriptor table

  datatype GdtEntry = GdtEntry(limitLow: bv16, baseLow: bv16, baseMid: bv8, access: bv8,
                               limitHighFlags: bv8, baseHigh: bv8)

  const NULL_ENTRY := GdtEntry(0, 0, 0, 0, 0, 0)

  const ACCESS_READ_WRITE: bv8 := 0x02
  const ACCESS_EXECUTABLE: bv8 := 0x08
  const ACCESS_DESCRIPTOR: bv8 := 0x10
  const ACCESS_PRESENT: bv8 := 0x80
  const FLAG_LONG_MODE: bv8 := 0x02
  const FLAG_32BIT: bv8 := 0x04
  const FLAG_GRANULARITY_4K: bv8 := 0x08
  const FLAT_LIMIT: bv32 := 0xf_ffff

  /** The eight packed bytes as the processor loads them, little-endian. */
  function EntryBits(e: GdtEntry): bv64 {
    (e.limitLow as bv64) | ((e.baseLow as bv64) << 16) | ((e.baseMid as bv64) << 32) |
    ((e.access as bv64) << 40) | ((e.limitHighFlags as bv64) << 48) | ((e.baseHigh as bv64) << 56)
  }

  function SegmentBase(q: bv64): bv64 {
    ((q >> 16) & 0xff_ffff) | (((q >> 56) & 0xff) << 24)
  }

  function SegmentLimit(q: bv64): bv64 {
    (q & 0xffff) | (((q >> 48) & 0xf) << 16)
  }

  function SegmentAccess(q: bv64): bv64 {
    (q >> 40) & 0xff
  }

  function SegmentFlags(q: bv64): bv64 {
    (q >> 52) & 0xf
  }

  function RingBits(dpl: bv8): bv8 {
    (dpl & 0x03) << 5
  }

  function PackEntry(base: bv32, limit: bv32, access: bv8, flags: bv8): GdtEntry {
    GdtEntry((limit & 0xffff) as bv16, (base & 0xffff) as bv16, ((base >> 16) & 0xff) as bv8, access,
             (((limit >> 16) & 0x0f) as bv8) | ((flags & 0x0f) << 4), ((base >> 24) & 0xff) as bv8)
  }

  /** Packing keeps the base, the low 20 bits of the limit, the access byte and the
      low four flag bits, each where the processor looks for it. */
  lemma EntryRoundTrip(base: bv32, limit: bv32, access: bv8, flags: bv8)
    ensures var q := EntryBits(PackEntry(base, limit, access, flags));
            && SegmentBase(q) == base as bv64
            && SegmentLimit(q) == (limit & 0xf_ffff) as bv64
            && SegmentAccess(q) == access as bv64
            && SegmentFlags(q) == (flags & 0x0f) as bv64
  {
  }

  function CodeSegment(dpl: bv8): GdtEntry {
    PackEntry(0, FLAT_LIMIT,
              ACCESS_PRESENT | RingBits(dpl) | ACCESS_DESCRIPTOR | ACCESS_EXECUTABLE | ACCESS_READ_WRITE,
              FLAG_GRANULARITY_4K | FLAG_LONG_MODE)
  }

  function DataSegment(dpl: bv8): GdtEntry {
    PackEntry(0, FLAT_LIMIT, ACCESS_PRESENT | RingBits(dpl) | ACCESS_DESCRIPTOR | ACCESS_READ_WRITE,
              FLAG_GRANULARITY_4K | FLAG_32BIT)
  }

  function SegmentDpl(q: bv64): bv64 {
    (q >> 45) & 3
  }

  function SegmentType(q: bv64): bv64 {
    (q >> 40) & 0xf
  }

  /** The segment builders give flat, present segments of the requested privilege
      level (modulo 4): execute/read 64-bit code, and read/write 32-bit data. */
  lemma SegmentBuilders(dpl: bv8)
    ensures var code, data := EntryBits(CodeSegment(dpl)), EntryBits(DataSegment(dpl));
            && SegmentBase(code) == SegmentBase(data) == 0
            && SegmentLimit(code) == SegmentLimit(data) == 0xf_ffff
            && SegmentDpl(code) == SegmentDpl(data) == (dpl & 3) as bv64
            && SegmentType(code) == 0xa && SegmentType(data) == 0x2
            && SegmentFlags(code) == 0xa && SegmentFlags(data) == 0xc
            && (code >> 44) & 1 == (data >> 44) & 1 == 1
            && (code >> 47) & 1 == (data >> 47) & 1 == 1
  {
  }

  /** `kx86_gdt_entry_set` on one slot of a table. */
  method EntrySet(entries: array<GdtEntry>, i: nat, base: bv32, limit: bv32, access: bv8, flags: bv8)
    requires i < entries.Length
    modifies entries
    ensures entries[..] == old(entries[..])[i := PackEntry(base, limit, access, flags)]
  {
    entries[i] := entries[i].(limitLow := (limit & 0xffff) as bv16);
    entries[i] := entries[i].(baseLow := (base & 0xffff) as bv16);
    entries[i] := entries[i].(baseMid := ((base >> 16) & 0xff) as bv8);
    entries[i] := entries[i].(access := access);
    entries[i] := entries[i].(limitHighFlags := (((limit >> 16) & 0x0f) as bv8) | ((flags & 0x0f) << 4));
    entries[i] := entries[i].(baseHigh := ((base >> 24) & 0xff) as bv8);
  }

  const DEFAULT_ENTRIES: nat := 5

  function DefaultEntries(): seq<GdtEntry> {
    [NULL_ENTRY, CodeSegment(0), DataSegment(0), CodeSegment(3), DataSegment(3)]
  }

  /** `kx86_gdt_default_table`: a table too small for all five entries is left alone. */
  method DefaultTable(entries: array<GdtEntry>, count: nat)
    requires count <= entries.Length
    modifies entries
    ensures entries[..] == if count < DEFAULT_ENTRIES then old(entries[..])
                           else DefaultEntries() + old(entries[DEFAULT_ENTRIES..])
  {
    if count < DEFAULT_ENTRIES {
      return;
    }
    entries[0] := NULL_ENTRY;
    entries[1] := CodeSegment(0);
    entries[2] := DataSegment(0);
    entries[3] := CodeSegment(3);
    entries[4] := DataSegment(3);
  }

  const SELECTOR_KERNEL_CODE: nat := 0x08
  const SELECTOR_KERNEL_DATA: nat := 0x10
  const SELECTOR_USER_CODE: nat := 0x1b
  const SELECTOR_USER_DATA: nat := 0x23

  /** Every selector constant points at an entry of its own privilege level. */
  lemma SelectorsMatchTable()
    ensures forall s | s in [SELECTOR_KERNEL_CODE, SELECTOR_KERNEL_DATA, SELECTOR_USER_CODE, SELECTOR_USER_DATA] ::
              s / 8 < DEFAULT_ENTRIES && s % 8 < 4 &&
              SegmentDpl(EntryBits(DefaultEntries()[s / 8])) as nat == s % 8
    ensures DefaultEntries()[SELECTOR_KERNEL_CODE / 8] == CodeSegment(0)
    ensures DefaultEntries()[SELECTOR_USER_CODE / 8] == CodeSegment(3)
    ensures DefaultEntries()[SELECTOR_KERNEL_DATA / 8] == DataSegment(0)
    ensures DefaultEntries()[SELECTOR_USER_DATA / 8] == DataSegment(3)
  {
    SegmentBuilders(0);
    SegmentBuilders(3);
  }

  /** The five default entries, byte for byte: entry 0 is all zero, entries 1 and 3 are
      code, entries 2 and 4 writable data, at levels 0 and 3. */
  lemma DefaultTableBits()
    ensures EntryBits(DefaultEntries()[0]) == 0
    ensures EntryBits(DefaultEntries()[1]) == 0x00af_9a00_0000_ffff
    ensures EntryBits(DefaultEntries()[2]) == 0x00cf_9200_0000_ffff
    ensures EntryBits(DefaultEntries()[3]) == 0x00af_fa00_0000_ffff
    ensures EntryBits(DefaultEntries()[4]) == 0x00cf_f200_0000_ffff
  {
  }

  // ----- table registers

  /** The 16-bit limit stored for `count` entries of `size` bytes, computed in size_t. */
  function TableLimit(count: Word, size: nat): nat {
    if count == 0 then 0 else ((count * size - 1) % WORD) % 0x1_0000
  }

  /** Whether all bytes of entry `i` lie within a table with this limit. */
  predicate EntryWithin(i: nat, size: nat, limit: nat) {
    i * size + (size - 1) <= limit
  }

  /** The limit covers exactly the table's entries if and only if there are at most
      65536 bytes of them: 8192 GDT entries or 4096 IDT gates. */
  lemma TableLimitExact(count: Word, size: nat)
    requires count > 0 && size in {8, 16}
    ensures TableLimit(0, size) == 0
    ensures TableLimit(count, size) + 1 == count * size <==> count * size <= 0x1_0000
    ensures (forall i: nat :: EntryWithin(i, size, TableLimit(count, size)) <==> i < count) <==> count * size <= 0x1_0000
    ensures TableLimit(count, size) == (count * size - 1) % 0x1_0000
  {
    var limit := TableLimit(count, size);
    if count * size <= 0x1_0000 {
      assert limit == count * size - 1;
      forall i: nat
        ensures EntryWithin(i, size, limit) <==> i < count
      {
      }
    } else {
      assert limit < 0x1_0000;
      assert !EntryWithin(count - 1, size, limit);
    }
  }

  // ----- interrupt descriptor table

  datatype IdtGate = IdtGate(offsetLow: bv16, selector: bv16, ist: bv8, typeAttr: bv8,
                             offsetMid: bv16, offsetHigh: bv32, reserved: bv32)

  const NULL_GATE := IdtGate(0, 0, 0, 0, 0, 0, 0)

  const GATE_INTERRUPT: bv8 := 0x0e
  const GATE_TRAP: bv8 := 0x0f
  const GATE_PRESENT: bv8 := 0x80

  /** The two little-endian quadwords of a gate. */
  function GateLow(g: IdtGate): bv64 {
    (g.offsetLow as bv64) | ((g.selector as bv64) << 16) | ((g.ist as bv64) << 32) |
    ((g.typeAttr as bv64) << 40) | ((g.offsetMid as bv64) << 48)
  }

  function GateHigh(g: IdtGate): bv64 {
    (g.offsetHigh as bv64) | ((g.reserved as bv64) << 32)
  }

  /** A cleared gate is sixteen zero bytes, in particular not present. */
  lemma ClearedGateIsZero()
    ensures GateLow(NULL_GATE) == 0 && GateHigh(NULL_GATE) == 0
  {
  }

  function GateOffset(low: bv64, high: bv64): bv64 {
    (low & 0xffff) | (((low >> 48) & 0xffff) << 16) | ((high & 0xffff_ffff) << 32)
  }

  function PackGate(handler: bv64, selector: bv16, ist: bv8, gateType: bv8, dpl: bv8): IdtGate {
    IdtGate((handler & 0xffff) as bv16, selector, ist & 0x07,
            GATE_PRESENT | RingBits(dpl) | (gateType & 0x0f),
            ((handler >> 16) & 0xffff) as bv16, ((handler >> 32) & 0xffff_ffff) as bv32, 0)
  }

  /** What the processor reads from the bytes of a gate: its fields, present, with
      every must-be-zero bit zero. */
  predicate Decodes(g: IdtGate, handler: bv64, selector: bv16, ist: bv64, gateType: bv64, dpl: bv64) {
    var low, high := GateLow(g), GateHigh(g);
    && GateOffset(low, high) == handler
    && (low >> 16) & 0xffff == selector as bv64
    && (low >> 32) & 0xff == ist
    && (low >> 40) & 0xf == gateType
    && (low >> 44) & 1 == 0
    && (low >> 45) & 3 == dpl
    && (low >> 47) & 1 == 1
    && high >> 32 == 0
  }

  /** Packing a gate keeps the full 64-bit handler, the selector, ist mod 8, dpl mod 4
      and type mod 16. */
  lemma GateRoundTrip(handler: bv64, selector: bv16, ist: bv8, gateType: bv8, dpl: bv8)
    ensures Decodes(PackGate(handler, selector, ist, gateType, dpl), handler, selector,
                    (ist & 7) as bv64, (gateType & 0xf) as bv64, (dpl & 3) as bv64)
  {
  }

  function InterruptGate(handler: bv64, selector: bv16): IdtGate {
    PackGate(handler, selector, 0, GATE_INTERRUPT, 0)
  }

  function TrapGate(handler: bv64, selector: bv16, dpl: bv8): IdtGate {
    PackGate(handler, selector, 0, GATE_TRAP, dpl)
  }

  /** The gate builders give present gates at the full handler address, on no
      interrupt stack: interrupt gates of level 0, trap gates of level `dpl` mod 4. */
  lemma GateBuilders(handler: bv64, selector: bv16, dpl: bv8)
    ensures Decodes(InterruptGate(handler, selector), handler, selector, 0, 0xe, 0)
    ensures Decodes(TrapGate(handler, selector, dpl), handler, selector, 0, 0xf, (dpl & 3) as bv64)
  {
    hide Decodes, PackGate;
    GateRoundTrip(handler, selector, 0, GATE_INTERRUPT, 0);
    GateRoundTrip(handler, selector, 0, GATE_TRAP, dpl);
  }

  /** `kx86_idt_gate_set` on one slot of a table. */
  method GateSet(gates: array<IdtGate>, i: nat, handler: bv64, selector: bv16, ist: bv8, gateType: bv8, dpl: bv8)
    requires i < gates.Length
    modifies gates
    ensures gates[..] == old(gates[..])[i := PackGate(handler, selector, ist, gateType, dpl)]
  {
    gates[i] := gates[i].(offsetLow := (handler & 0xffff) as bv16);
    gates[i] := gates[i].(selector := selector);
    gates[i] := gates[i].(ist := ist & 0x07);
    gates[i] := gates[i].(typeAttr := GATE_PRESENT | RingBits(dpl) | (gateType & 0x0f));
    gates[i] := gates[i].(offsetMid := ((handler >> 16) & 0xffff) as bv16);
    gates[i] := gates[i].(offsetHigh := ((handler >> 32) & 0xffff_ffff) as bv32);
    gates[i] := gates[i].(reserved := 0);
  }

  /** `kx86_idt_clear` */
  method IdtClear(gates: array<IdtGate>, count: nat)
    requires count <= gates.Length
    modifies gates
    ensures gates[..] == seq(count, _ => NULL_GATE) + old(gates[count..])
  {
    for i := 0 to count
      invariant forall k | 0 <= k < i :: gates[k] == NULL_GATE
      invariant forall k | i <= k < gates.Length :: gates[k] == old(gates[k])
    {
      gates[i] := NULL_GATE;
    }
  }
}
