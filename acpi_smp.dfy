/** Multiprocessor configuration from the ACPI Multiple APIC Description
    Table (MADT, section 5.2.12 of the ACPI specification): the processors'
    local APIC ids, the I/O APICs, and the routing of the sixteen ISA
    interrupts with the table's interrupt source overrides applied.

    The table is given as its header length, its local APIC address and the
    sequence of subtables that follow the fixed part of the table. Fetching
    the table, mapping the APIC registers, registering the I/O APICs and the
    console messages are not part of this model; the local APIC's id
    register is a parameter. */
module AcpiSmp {

  /** `sizeof(ACPI_TABLE_MADT)`: the 36-byte system description header, the
      local APIC address and the flags; the subtables start right after. */
  const MADT_HEADER_SIZE: nat := 44
  /** The physical address of the local APIC the kernel supports. */
  const LAPIC_BASE: nat := 0xfee00000
  /** The ISA interrupts, which are identity-mapped before the overrides. */
  const NUM_ISA_INTS: nat := 16

  datatype Option<T> = None | Some(value: T)

  /** The subtable kinds the configuration reads; any other kind is
      skipped. */
  datatype Entry =
    | LocalApic(processorId: nat, id: nat)
    | IoApic(id: nat, address: nat, globalIrqBase: nat)
    | InterruptOverride(bus: nat, sourceIrq: nat, globalIrq: nat)
    | OtherEntry(kind: nat)

  datatype Subtable = Subtable(length: nat, entry: Entry)

  datatype Madt = Madt(length: nat, address: nat, subtables: seq<Subtable>)

  function SumLengths(subs: seq<Subtable>): nat
  {
    if subs == [] then 0 else subs[0].length + SumLengths(subs[1..])
  }

  /** A table the walk can traverse: every subtable has a positive length
      (a zero length would make the walk stand still), the subtables reach
      at least to the table's length, and every override's target is an
      ISA interrupt (the target is not range-checked before it is used as
      an index). */
  predicate ValidMadt(m: Madt)
  {
    && (forall k :: 0 <= k < |m.subtables| ==> m.subtables[k].length > 0)
    && MADT_HEADER_SIZE + SumLengths(m.subtables) >= m.length
    && forall k :: 0 <= k < |m.subtables| && m.subtables[k].entry.InterruptOverride? ==>
         m.subtables[k].entry.globalIrq < NUM_ISA_INTS
  }

  /** The subtables the walk visits from subtable `i` at byte offset `off`:
      each one that starts before the end of the table. */
  function Walk(subs: seq<Subtable>, i: nat, off: nat, length: nat): seq<Entry>
    requires i <= |subs|
    decreases |subs| - i
  {
    if i == |subs| || off >= length then []
    else [subs[i].entry] + Walk(subs, i + 1, off + subs[i].length, length)
  }

  function Entries(m: Madt): seq<Entry>
  {
    Walk(m.subtables, 0, MADT_HEADER_SIZE, m.length)
  }

  /** The walk has reached subtable `i` at byte `off` of the table, having
      visited `seen`, a prefix of all the entries `es`. */
  ghost predicate WalkAt(m: Madt, es: seq<Entry>, seen: seq<Entry>, i: nat, off: nat)
  {
    && i <= |m.subtables| && off + SumLengths(m.subtables[i..]) >= m.length
    && es == seen + Walk(m.subtables, i, off, m.length)
  }

  /** The walk visits subtables in table order: every visited entry is the
      entry of a subtable. */
  lemma {:induction false} WalkVisitsSubtables(subs: seq<Subtable>, i: nat, off: nat, length: nat)
    requires i <= |subs|
    ensures var w := Walk(subs, i, off, length);
      i + |w| <= |subs| && forall k :: 0 <= k < |w| ==> w[k] == subs[i + k].entry
    decreases |subs| - i
  {
    if i < |subs| && off < length {
      var rest := Walk(subs, i + 1, off + subs[i].length, length);
      WalkVisitsSubtables(subs, i + 1, off + subs[i].length, length);
      var w := [subs[i].entry] + rest;
      assert Walk(subs, i, off, length) == w;
      forall k | 0 <= k < |w|
        ensures w[k] == subs[i + k].entry
      {
        if k > 0 {
          assert w[k] == rest[k - 1];
        }
      }
    }
  }

  /** The local APIC ids, in table order: the processors. */
  function LapicIds(es: seq<Entry>): seq<nat>
  {
    if es == [] then []
    else (if es[0].LocalApic? then [es[0].id] else []) + LapicIds(es[1..])
  }

  datatype IoApicConfig = IoApicConfig(id: nat, address: nat)

  /** The I/O APICs, in table order. */
  function IoApics(es: seq<Entry>): seq<IoApicConfig>
  {
    if es == [] then []
    else (if es[0].IoApic? then [IoApicConfig(es[0].id, es[0].address)] else []) + IoApics(es[1..])
  }

  /** What the counting pass counts. */
  function CountLapics(es: seq<Entry>): nat
  {
    if es == [] then 0 else (if es[0].LocalApic? then 1 else 0) + CountLapics(es[1..])
  }

  function CountIoApics(es: seq<Entry>): nat
  {
    if es == [] then 0 else (if es[0].IoApic? then 1 else 0) + CountIoApics(es[1..])
  }

  /** The filling pass writes exactly as many processors and I/O APICs as
      the counting pass allocated. */
  lemma {:induction false} PassesAgree(es: seq<Entry>)
    ensures |LapicIds(es)| == CountLapics(es) && |IoApics(es)| == CountIoApics(es)
  {
    if es != [] {
      PassesAgree(es[1..]);
    }
  }

  /** The bus ids the routing refers to; only an ISA bus is created. */
  datatype BusType = Isa
  datatype Bus = Bus(id: nat, busType: BusType)

  /** One routed interrupt: source and destination pin, the bus it is on
      (none once an override has taken its pin away), and the I/O APIC
      (an index into the I/O APIC table). */
  datatype Interrupt = Interrupt(sourceNo: nat, destNo: nat, bus: Option<nat>, ioapic: nat)

  /** The routing before the overrides: every ISA interrupt to the pin of
      the same number, on bus 0, at the first I/O APIC. */
  function Identity(): (ints: seq<Interrupt>)
    ensures |ints| == NUM_ISA_INTS
  {
    seq(NUM_ISA_INTS, n requires 0 <= n => Interrupt(n, n, Some(0), 0))
  }

  predicate OverridesInRange(es: seq<Entry>)
  {
    forall k :: 0 <= k < |es| && es[k].InterruptOverride? ==>
      es[k].sourceIrq < NUM_ISA_INTS && es[k].globalIrq < NUM_ISA_INTS
  }

  /** One interrupt source override: the source interrupt is routed to the
      global interrupt, and, if that is another pin, the interrupt of that
      pin loses its bus. Other entries change nothing. */
  function Override(ints: seq<Interrupt>, e: Entry): seq<Interrupt>
    requires |ints| == NUM_ISA_INTS
    requires e.InterruptOverride? ==> e.sourceIrq < NUM_ISA_INTS && e.globalIrq < NUM_ISA_INTS
  {
    if !e.InterruptOverride? then ints
    else
      var s, g := e.sourceIrq, e.globalIrq;
      var a := ints[s := ints[s].(sourceNo := s, destNo := g)];
      if g != s then a[g := a[g].(bus := None)] else a
  }

  /** The routing after the overrides among `es`, in table order. */
  function Routing(es: seq<Entry>): (ints: seq<Interrupt>)
    requires OverridesInRange(es)
    ensures |ints| == NUM_ISA_INTS
  {
    if es == [] then Identity()
    else Override(Routing(es[..|es| - 1]), es[|es| - 1])
  }

  /** The pin the last override of interrupt `n` routes it to, or `n`. */
  function Destination(es: seq<Entry>, n: nat): nat
  {
    if es == [] then n
    else
      var e := es[|es| - 1];
      if e.InterruptOverride? && e.sourceIrq == n then e.globalIrq
      else Destination(es[..|es| - 1], n)
  }

  /** Whether some override routes another interrupt to pin `n`. */
  predicate Displaced(es: seq<Entry>, n: nat)
  {
    exists k :: 0 <= k < |es| && es[k].InterruptOverride? && es[k].globalIrq == n && es[k].sourceIrq != n
  }

  /** The routing table after the overrides: interrupt `n` keeps its own
      number as source and the first I/O APIC, goes to the pin of its last
      override (its own pin without one), and has lost its bus exactly when
      an override routed another interrupt to its pin. */
  lemma {:induction false} RoutingMeaning(es: seq<Entry>, n: nat)
    requires OverridesInRange(es) && n < NUM_ISA_INTS
    ensures Routing(es)[n].sourceNo == n && Routing(es)[n].ioapic == 0
    ensures Routing(es)[n].destNo == Destination(es, n)
    ensures Routing(es)[n].bus == if Displaced(es, n) then None else Some(0)
    decreases |es|
  {
    if es != [] {
      var init, e := es[..|es| - 1], es[|es| - 1];
      assert OverridesInRange(init) by {
        forall k | 0 <= k < |init| && init[k].InterruptOverride?
          ensures init[k].sourceIrq < NUM_ISA_INTS && init[k].globalIrq < NUM_ISA_INTS
        {
          assert init[k] == es[k];
        }
      }
      RoutingMeaning(init, n);
      DisplacedStep(es, n);
    }
  }

  lemma DisplacedStep(es: seq<Entry>, n: nat)
    requires es != []
    ensures var init, e := es[..|es| - 1], es[|es| - 1];
      Displaced(es, n) <==>
        Displaced(init, n) || (e.InterruptOverride? && e.globalIrq == n && e.sourceIrq != n)
  {
    var init, e := es[..|es| - 1], es[|es| - 1];
    if Displaced(es, n) {
      var k :| 0 <= k < |es| && es[k].InterruptOverride? && es[k].globalIrq == n && es[k].sourceIrq != n;
      if k < |init| {
        assert init[k] == es[k];
      }
    }
    if Displaced(init, n) {
      var k :| 0 <= k < |init| && init[k].InterruptOverride? && init[k].globalIrq == n && init[k].sourceIrq != n;
      assert es[k] == init[k];
    }
    if e.InterruptOverride? && e.globalIrq == n && e.sourceIrq != n {
      assert es[|es| - 1] == e;
    }
  }

  /** The override entries of a valid table target ISA pins. */
  lemma ValidTargets(m: Madt)
    requires ValidMadt(m)
    ensures forall k :: 0 <= k < |Entries(m)| && Entries(m)[k].InterruptOverride? ==>
      Entries(m)[k].globalIrq < NUM_ISA_INTS
  {
    WalkVisitsSubtables(m.subtables, 0, MADT_HEADER_SIZE, m.length);
  }

  datatype Status = Ok | NoDevice | Panic

  /** Whether the visited overrides all name an ISA interrupt as their
      source; one that does not stops the kernel. */
  predicate SourcesInRange(es: seq<Entry>)
  {
    forall k :: 0 <= k < |es| && es[k].InterruptOverride? ==> es[k].sourceIrq < NUM_ISA_INTS
  }

  /** The global `smp_config`. */
  class SmpConfig {
    var numCpus: nat
    var numIoApics: nat
    var numInts: nat
    var numBusses: nat
    /** `cfg_cpu[k].lapic_id`. */
    var cpus: array<nat>
    var ioApics: array<IoApicConfig>
    var ints: array<Interrupt>
    var busses: array<Bus>

    constructor ()
      ensures numCpus == 0 && numIoApics == 0 && numInts == 0 && numBusses == 0
    {
      numCpus, numIoApics, numInts, numBusses := 0, 0, 0, 0;
      cpus := new nat[0];
      ioApics := new IoApicConfig[0];
      ints := new Interrupt[0];
      busses := new Bus[0];
    }

    /** `acpi_smp_init`: without an MADT there is no device and nothing is
        touched. Otherwise the bootstrap processor's APIC id is the top
        byte of the local APIC's id register, the subtables are counted,
        tables of those sizes are allocated, the ISA interrupts are
        identity-mapped on one ISA bus, and a second walk fills in the
        processors, the I/O APICs and the overrides. An unsupported local
        APIC address, or an override of an interrupt that is not an ISA
        one, stops the kernel. */
    method Init(madt: Option<Madt>, lapicIdRegister: bv32) returns (status: Status, bspApicId: bv32)
      requires madt.Some? ==> ValidMadt(madt.value)
      modifies this
      ensures madt.None? ==> status == NoDevice && unchanged(this)
      ensures madt.Some? && madt.value.address != LAPIC_BASE ==> status == Panic
      ensures madt.Some? && madt.value.address == LAPIC_BASE ==>
        var es := Entries(madt.value);
        && bspApicId == lapicIdRegister >> 24
        && numCpus == old(numCpus) + CountLapics(es)
        && numIoApics == old(numIoApics) + CountIoApics(es)
        && numInts == NUM_ISA_INTS && numBusses == 1
        && fresh(cpus) && fresh(ioApics) && fresh(ints) && fresh(busses)
        && cpus.Length == numCpus && ioApics.Length == numIoApics
        && ints.Length == numInts && busses.Length == numBusses
        && (status == Ok <==> SourcesInRange(es)) && (status == Ok || status == Panic)
        && (status == Ok ==>
              && OverridesInRange(es)
              && busses[0] == Bus(0, Isa)
              && cpus[..CountLapics(es)] == LapicIds(es)
              && ioApics[..CountIoApics(es)] == IoApics(es)
              && ints[..] == Routing(es))
    {
      bspApicId := 0;
      if madt.None? {
        return NoDevice, 0;
      }
      var m := madt.value;
      if m.address != LAPIC_BASE {
        // KASSERT: lapic base unsupported.
        return Panic, 0;
      }
      bspApicId := lapicIdRegister >> 24;
      CountEntries(m);
      numInts := NUM_ISA_INTS;
      // An ISA bus for the interrupt routing.
      numBusses := 1;
      // smp_prepare_config: tables of the counted sizes.
      cpus := new nat[numCpus];
      ioApics := new IoApicConfig[numIoApics];
      ints := new Interrupt[numInts];
      busses := new Bus[numBusses];
      busses[0] := Bus(0, Isa);
      IdentityMap(ints);
      PassesAgree(Entries(m));
      status := FillEntries(m, cpus, ioApics, ints);
    }

    /** The first walk: counts the processors and the I/O APICs. */
    method CountEntries(m: Madt)
      requires ValidMadt(m)
      modifies this
      ensures numCpus == old(numCpus) + CountLapics(Entries(m))
      ensures numIoApics == old(numIoApics) + CountIoApics(Entries(m))
      ensures numInts == old(numInts) && numBusses == old(numBusses)
      ensures cpus == old(cpus) && ioApics == old(ioApics) && ints == old(ints) && busses == old(busses)
    {
      ghost var es := Entries(m);
      var i: nat, off: nat := 0, MADT_HEADER_SIZE;
      ghost var seen: seq<Entry> := [];
      ghost var cpus0, ioapics0 := numCpus, numIoApics;
      while off < m.length
        invariant WalkAt(m, es, seen, i, off)
        invariant numCpus == cpus0 + CountLapics(seen) && numIoApics == ioapics0 + CountIoApics(seen)
        invariant numInts == old(numInts) && numBusses == old(numBusses)
        invariant cpus == old(cpus) && ioApics == old(ioApics) && ints == old(ints) && busses == old(busses)
        decreases |m.subtables| - i
      {
        WalkAdvance(m, es, seen, i, off);
        var sub := m.subtables[i];
        match sub.entry {
          case LocalApic(_, _) => numCpus := numCpus + 1;
          case IoApic(_, _, _) => numIoApics := numIoApics + 1;
          case _ =>
        }
        CountsSnoc(seen, sub.entry);
        seen := seen + [sub.entry];
        i, off := i + 1, off + sub.length;
      }
      assert seen == es;
    }
  }

  /** Every ISA interrupt to the pin of the same number. */
  method IdentityMap(ints: array<Interrupt>)
    requires ints.Length == NUM_ISA_INTS
    modifies ints
    ensures ints[..] == Identity()
  {
    for n := 0 to ints.Length
      invariant forall j :: 0 <= j < n ==> ints[j] == Identity()[j]
    {
      ints[n] := Interrupt(n, n, Some(0), 0);
    }
  }

  /** The second walk: fills in the processors, the I/O APICs and the
      interrupt source overrides. */
  method FillEntries(m: Madt, cpus: array<nat>, ioApics: array<IoApicConfig>, ints: array<Interrupt>)
    returns (status: Status)
    requires ValidMadt(m) && ints[..] == Identity()
    requires cpus.Length >= CountLapics(Entries(m)) && ioApics.Length >= CountIoApics(Entries(m))
    modifies cpus, ioApics, ints
    ensures var es := Entries(m);
      && (status == Ok <==> SourcesInRange(es)) && (status == Ok || status == Panic)
      && (status == Ok ==>
            && OverridesInRange(es)
            && cpus[..CountLapics(es)] == LapicIds(es)
            && ioApics[..CountIoApics(es)] == IoApics(es)
            && ints[..] == Routing(es))
  {
    ghost var es := Entries(m);
    ValidTargets(m);
    var curCpu, curIoApic := 0, 0;
    var i: nat, off: nat := 0, MADT_HEADER_SIZE;
    ghost var seen: seq<Entry> := [];
    while off < m.length
      invariant WalkAt(m, es, seen, i, off)
      invariant OverridesInRange(seen)
      invariant curCpu == CountLapics(seen) && curIoApic == CountIoApics(seen)
      invariant CountLapics(seen) <= CountLapics(es) && CountIoApics(seen) <= CountIoApics(es)
      invariant cpus[..curCpu] == LapicIds(seen) && ioApics[..curIoApic] == IoApics(seen)
      invariant ints[..] == Routing(seen)
      decreases |m.subtables| - i
    {
      var ok;
      ok, curCpu, curIoApic := FillNext(m, cpus, ioApics, ints, i, off, curCpu, curIoApic, es, seen);
      if !ok {
        // KASSERT: interrupt override out of range.
        return Panic;
      }
      seen := seen + [m.subtables[i].entry];
      i, off := i + 1, off + m.subtables[i].length;
    }
    assert seen == es;
    status := Ok;
  }

  /** One turn of the second walk: the subtable at `off` is filled in and
      the walk moves past it. */
  method FillNext(m: Madt, cpus: array<nat>, ioApics: array<IoApicConfig>, ints: array<Interrupt>,
                  i: nat, off: nat, curCpu: nat, curIoApic: nat, ghost es: seq<Entry>, ghost seen: seq<Entry>)
    returns (ok: bool, nextCpu: nat, nextIoApic: nat)
    requires WalkAt(m, es, seen, i, off) && off < m.length
    requires forall k :: 0 <= k < |es| && es[k].InterruptOverride? ==> es[k].globalIrq < NUM_ISA_INTS
    requires OverridesInRange(seen)
    requires curCpu == CountLapics(seen) && curIoApic == CountIoApics(seen)
    requires CountLapics(es) <= cpus.Length && CountIoApics(es) <= ioApics.Length
    requires CountLapics(seen) <= CountLapics(es) && CountIoApics(seen) <= CountIoApics(es)
    requires cpus[..curCpu] == LapicIds(seen) && ioApics[..curIoApic] == IoApics(seen)
    requires ints[..] == Routing(seen)
    modifies cpus, ioApics, ints
    ensures i < |m.subtables| && |seen| < |es|
    ensures ok <==> !(es[|seen|].InterruptOverride? && es[|seen|].sourceIrq >= NUM_ISA_INTS)
    ensures ok ==>
      var next := seen + [m.subtables[i].entry];
      && WalkAt(m, es, next, i + 1, off + m.subtables[i].length)
      && OverridesInRange(next)
      && nextCpu == CountLapics(next) && nextIoApic == CountIoApics(next)
      && CountLapics(next) <= CountLapics(es) && CountIoApics(next) <= CountIoApics(es)
      && cpus[..nextCpu] == LapicIds(next) && ioApics[..nextIoApic] == IoApics(next)
      && ints[..] == Routing(next)
  {
    WalkFillStep(m, es, seen, i, off);
    ok, nextCpu, nextIoApic := FillEntry(m.subtables[i].entry, cpus, ioApics, ints, curCpu, curIoApic, seen);
  }

  /** The second walk's work on one subtable: a processor or an I/O APIC
      is written at the next free index, an override changes the routing;
      an override of an interrupt that is not an ISA one fails the kernel
      assertion, answered here by `ok == false`. */
  method FillEntry(e: Entry, cpus: array<nat>, ioApics: array<IoApicConfig>, ints: array<Interrupt>,
                   curCpu: nat, curIoApic: nat, ghost seen: seq<Entry>)
    returns (ok: bool, nextCpu: nat, nextIoApic: nat)
    requires OverridesInRange(seen) && (e.InterruptOverride? ==> e.globalIrq < NUM_ISA_INTS)
    requires curCpu == CountLapics(seen) && curIoApic == CountIoApics(seen)
    requires curCpu <= cpus.Length && curIoApic <= ioApics.Length
    requires CountLapics(seen + [e]) <= cpus.Length && CountIoApics(seen + [e]) <= ioApics.Length
    requires cpus[..curCpu] == LapicIds(seen) && ioApics[..curIoApic] == IoApics(seen)
    requires ints[..] == Routing(seen)
    modifies cpus, ioApics, ints
    ensures ok <==> !(e.InterruptOverride? && e.sourceIrq >= NUM_ISA_INTS)
    ensures ok ==>
      && OverridesInRange(seen + [e])
      && nextCpu == CountLapics(seen + [e]) && nextIoApic == CountIoApics(seen + [e])
      && cpus[..nextCpu] == LapicIds(seen + [e]) && ioApics[..nextIoApic] == IoApics(seen + [e])
      && ints[..] == Routing(seen + [e])
  {
    CountsSnoc(seen, e);
    ok, nextCpu, nextIoApic := true, curCpu, curIoApic;
    match e {
      case LocalApic(_, id) =>
        cpus[curCpu] := id;
        nextCpu := curCpu + 1;
        assert cpus[..nextCpu] == cpus[..curCpu] + [id];
      case IoApic(id, address, _) =>
        ioApics[curIoApic] := IoApicConfig(id, address);
        nextIoApic := curIoApic + 1;
        assert ioApics[..nextIoApic] == ioApics[..curIoApic] + [IoApicConfig(id, address)];
      case InterruptOverride(_, source, global) =>
        if source >= NUM_ISA_INTS {
          return false, curCpu, curIoApic;
        }
        ints[source] := ints[source].(sourceNo := source, destNo := global);
        if global != source {
          ints[global] := ints[global].(bus := None);
        }
      case _ =>
    }
    OverridesSnoc(seen, e);
    assert (seen + [e])[..|seen|] == seen;
  }

  lemma OverridesSnoc(es: seq<Entry>, e: Entry)
    requires OverridesInRange(es)
    requires e.InterruptOverride? ==> e.sourceIrq < NUM_ISA_INTS && e.globalIrq < NUM_ISA_INTS
    ensures OverridesInRange(es + [e])
  {
    forall k | 0 <= k < |es + [e]| && (es + [e])[k].InterruptOverride?
      ensures (es + [e])[k].sourceIrq < NUM_ISA_INTS && (es + [e])[k].globalIrq < NUM_ISA_INTS
    {
      if k < |es| {
        assert (es + [e])[k] == es[k];
      }
    }
  }

  /** One step of a walk that has not reached the end of the table: there
      is a subtable at the current offset, it is visited, and the rest of
      the subtables still reach the end of the table. */
  lemma WalkAdvance(m: Madt, es: seq<Entry>, seen: seq<Entry>, i: nat, off: nat)
    requires WalkAt(m, es, seen, i, off) && off < m.length
    ensures i < |m.subtables| && |seen| < |es| && es[|seen|] == m.subtables[i].entry
    ensures WalkAt(m, es, seen + [m.subtables[i].entry], i + 1, off + m.subtables[i].length)
  {
    var subs := m.subtables;
    assert subs[i..][1..] == subs[i + 1..];
    var rest := Walk(subs, i + 1, off + subs[i].length, m.length);
    assert seen + ([subs[i].entry] + rest) == (seen + [subs[i].entry]) + rest;
  }

  /** One subtable of the second walk: the walk goes on after it, the
      entry is the next one of the whole walk, and the counts so far stay
      within the totals the arrays were sized for. */
  lemma WalkFillStep(m: Madt, es: seq<Entry>, seen: seq<Entry>, i: nat, off: nat)
    requires WalkAt(m, es, seen, i, off) && off < m.length
    ensures i < |m.subtables| && |seen| < |es| && es[|seen|] == m.subtables[i].entry
    ensures WalkAt(m, es, seen + [m.subtables[i].entry], i + 1, off + m.subtables[i].length)
    ensures CountLapics(seen + [m.subtables[i].entry]) <= CountLapics(es)
    ensures CountIoApics(seen + [m.subtables[i].entry]) <= CountIoApics(es)
  {
    WalkAdvance(m, es, seen, i, off);
    var e := m.subtables[i].entry;
    assert es == (seen + [e]) + Walk(m.subtables, i + 1, off + m.subtables[i].length, m.length);
    CountsMonotone(seen + [e], Walk(m.subtables, i + 1, off + m.subtables[i].length, m.length));
  }

  /** The counts of a prefix are at most those of the whole. */
  lemma {:induction false} CountsMonotone(a: seq<Entry>, b: seq<Entry>)
    ensures CountLapics(a) <= CountLapics(a + b) && CountIoApics(a) <= CountIoApics(a + b)
    decreases |a|
  {
    if a != [] {
      assert (a + b)[1..] == a[1..] + b;
      CountsMonotone(a[1..], b);
    }
  }

  /** The counts and lists grow by the appended entry. */
  lemma CountsSnoc(es: seq<Entry>, e: Entry)
    ensures CountLapics(es + [e]) == CountLapics(es) + (if e.LocalApic? then 1 else 0)
    ensures CountIoApics(es + [e]) == CountIoApics(es) + (if e.IoApic? then 1 else 0)
    ensures LapicIds(es + [e]) == LapicIds(es) + (if e.LocalApic? then [e.id] else [])
    ensures IoApics(es + [e]) == IoApics(es) + (if e.IoApic? then [IoApicConfig(e.id, e.address)] else [])
  {
    CountsSnocCounts(es, e);
    LapicIdsSnoc(es, e);
    IoApicsSnoc(es, e);
  }

  lemma {:induction false} CountsSnocCounts(es: seq<Entry>, e: Entry)
    ensures CountLapics(es + [e]) == CountLapics(es) + (if e.LocalApic? then 1 else 0)
    ensures CountIoApics(es + [e]) == CountIoApics(es) + (if e.IoApic? then 1 else 0)
  {
    if es == [] {
      assert [] + [e] == [e];
    } else {
      assert (es + [e])[1..] == es[1..] + [e];
      CountsSnocCounts(es[1..], e);
    }
  }

  lemma {:induction false} LapicIdsSnoc(es: seq<Entry>, e: Entry)
    ensures LapicIds(es + [e]) == LapicIds(es) + (if e.LocalApic? then [e.id] else [])
  {
    if es == [] {
      assert [] + [e] == [e];
    } else {
      assert (es + [e])[1..] == es[1..] + [e];
      LapicIdsSnoc(es[1..], e);
      var h := if es[0].LocalApic? then [es[0].id] else [];
      var t := if e.LocalApic? then [e.id] else [];
      assert h + (LapicIds(es[1..]) + t) == (h + LapicIds(es[1..])) + t;
    }
  }

  lemma {:induction false} IoApicsSnoc(es: seq<Entry>, e: Entry)
    ensures IoApics(es + [e]) == IoApics(es) + (if e.IoApic? then [IoApicConfig(e.id, e.address)] else [])
  {
    if es == [] {
      assert [] + [e] == [e];
    } else {
      assert (es + [e])[1..] == es[1..] + [e];
      IoApicsSnoc(es[1..], e);
      var h := if es[0].IoApic? then [IoApicConfig(es[0].id, es[0].address)] else [];
      var t := if e.IoApic? then [IoApicConfig(e.id, e.address)] else [];
      assert h + (IoApics(es[1..]) + t) == (h + IoApics(es[1..])) + t;
    }
  }
}
