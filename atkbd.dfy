/** The AT keyboard driver: decoding of the scancodes the keyboard
    controller delivers on an interrupt into modifier state, characters for
    the keyboard multiplexer, and the reboot key combination.

    Port I/O is not part of this model: the scancodes an interrupt finds
    pending in the controller are given as a sequence, and the characters
    handed to `kbdmux_on_input` are recorded in order. The kernel debugger
    hooks compiled in with OPTION_KDB are left out (the option is taken as
    not set). */
module AtKeyboard {

  const ATKBD_FLAG_SHIFT: bv8 := 1
  const ATKBD_FLAG_CONTROL: bv8 := 2
  const ATKBD_FLAG_ALT: bv8 := 4

  /** The modifier scancodes (make codes, bit 7 clear). */
  const SC_LSHIFT: bv8 := 0x2a
  const SC_RSHIFT: bv8 := 0x36
  const SC_ALT: bv8 := 0x38
  const SC_CONTROL: bv8 := 0x1d
  /** The make code of the Delete key on the keypad. */
  const SC_DELETE: bv8 := 83
  /** Bit 7 of a scancode marks a key release (a break code). */
  const SC_RELEASE: bv8 := 0x80

  /** Scancode to character, without and with shift; `'\0'` is no
      character. */
  const Keymap: seq<char> :=
    /* 00 */ ['\0', '\U{1B}', '1', '2', '3', '4', '5', '6'] +
    /* 08 */ ['7', '8', '9', '0', '-', '=', '\U{8}', '\t'] +
    /* 10 */ ['q', 'w', 'e', 'r', 't', 'y', 'u', 'i'] +
    /* 18 */ ['o', 'p', '[', ']', '\r', '\0', 'a', 's'] +
    /* 20 */ ['d', 'f', 'g', 'h', 'j', 'k', 'l', ';'] +
    /* 28 */ ['\'', '`', '\0', '\\', 'z', 'x', 'c', 'v'] +
    /* 30 */ ['b', 'n', 'm', ',', '.', '/', '\0', '*'] +
    /* 38 */ ['\0', ' ', '\0', '\0', '\0', '\0', '\0', '\0'] +
    /* 40 */ ['\0', '\0', '\0', '\0', '\0', '\0', '\0', '7'] +
    /* 48 */ ['8', '9', '-', '4', '5', '6', '+', '1'] +
    /* 50 */ ['2', '3', '0', '.', '\0', '\0', 'Z', '\0'] +
    /* 58 */ ['\0', '\0', '\0', '\0', '\0', '\0', '\0', '\0'] +
    /* 60 */ ['\0', '\0', '\0', '\0', '\0', '\0', '\0', '\0'] +
    /* 68 */ ['\0', '\0', '\0', '\0', '\0', '\0', '\0', '\0'] +
    /* 70 */ ['\0', '\0', '\0', '\0', '\0', '\0', '\0', '\0'] +
    /* 78 */ ['\0', '\0', '\0', '\0', '\0', '\0', '\0', '\0']

  const KeymapShift: seq<char> :=
    /* 00 */ ['\0', '\U{1B}', '!', '@', '#', '$', '%', '^'] +
    /* 08 */ ['&', '*', '(', ')', '_', '+', '\U{8}', '\t'] +
    /* 10 */ ['Q', 'W', 'E', 'R', 'T', 'Y', 'U', 'I'] +
    /* 18 */ ['O', 'P', '{', '}', '\r', '\0', 'A', 'S'] +
    /* 20 */ ['D', 'F', 'G', 'H', 'J', 'K', 'L', ':'] +
    /* 28 */ ['"', '~', '\0', '|', 'Z', 'X', 'C', 'V'] +
    /* 30 */ ['B', 'N', 'M', '<', '>', '?', '\0', '*'] +
    /* 38 */ ['\0', ' ', '\0', '\0', '\0', '\0', '\0', '\0'] +
    /* 40 */ ['\0', '\0', '\0', '\0', '\0', '\0', '\0', '7'] +
    /* 48 */ ['8', '9', '-', '4', '5', '6', '+', '1'] +
    /* 50 */ ['2', '3', '0', '.', '\0', '\0', 'Z', '\0'] +
    /* 58 */ ['\0', '\0', '\0', '\0', '\0', '\0', '\0', '\0'] +
    /* 60 */ ['\0', '\0', '\0', '\0', '\0', '\0', '\0', '\0'] +
    /* 68 */ ['\0', '\0', '\0', '\0', '\0', '\0', '\0', '\0'] +
    /* 70 */ ['\0', '\0', '\0', '\0', '\0', '\0', '\0', '\0'] +
    /* 78 */ ['\0', '\0', '\0', '\0', '\0', '\0', '\0', '\0']

  /** The two translation tables, without and with shift. */
  datatype Keymaps = Keymaps(plain: seq<char>, shifted: seq<char>)
  {
    /** Every scancode below the release bit has an entry. */
    predicate Valid()
    {
      |plain| == 128 && |shifted| == 128
    }
  }

  /** The driver's tables. */
  const Tables := Keymaps(Keymap, KeymapShift)

  datatype Option<T> = None | Some(value: T)

  datatype Errno = Success | NoResource | IrqError

  /** What one scancode does: the new modifier flags, the character handed
      to the multiplexer if any, and whether the machine is rebooted. */
  datatype Effect = Effect(flags: bv8, emit: Option<char>, reboot: bool)

  /** The modifier flag a key code (bit 7 masked off) controls, or 0 for a
      key that is no modifier. */
  function ModifierBit(code: bv8): bv8
  {
    if code == SC_LSHIFT || code == SC_RSHIFT then ATKBD_FLAG_SHIFT
    else if code == SC_CONTROL then ATKBD_FLAG_CONTROL
    else if code == SC_ALT then ATKBD_FLAG_ALT
    else 0
  }

  /** One iteration of the interrupt handler's loop. */
  function Step(km: Keymaps, flags: bv8, sc: bv8): Effect
    requires km.Valid()
  {
    var code := sc & 0x7f;
    if code == SC_LSHIFT || code == SC_RSHIFT then
      Effect(if sc & SC_RELEASE != 0 then flags & !ATKBD_FLAG_SHIFT else flags | ATKBD_FLAG_SHIFT, None, false)
    else if code == SC_ALT then
      Effect(if sc & SC_RELEASE != 0 then flags & !ATKBD_FLAG_ALT else flags | ATKBD_FLAG_ALT, None, false)
    else if code == SC_CONTROL then
      Effect(if sc & SC_RELEASE != 0 then flags & !ATKBD_FLAG_CONTROL else flags | ATKBD_FLAG_CONTROL, None, false)
    else if sc & SC_RELEASE != 0 then
      Effect(flags, None, false)
    else if flags == ATKBD_FLAG_CONTROL | ATKBD_FLAG_ALT && sc == SC_DELETE then
      Effect(flags, None, true)
    else
      var ch := (if flags & ATKBD_FLAG_SHIFT != 0 then km.shifted else km.plain)[sc as int];
      Effect(flags, if ch != '\0' then Some(ch) else None, false)
  }

  /** What a batch of scancodes does from modifier state `flags`: the final
      flags, the characters handed on, in order, and whether the batch ended
      in a reboot (`md_reboot` does not return, so nothing after it is
      processed). */
  datatype Outcome = Outcome(flags: bv8, out: seq<char>, rebooted: bool)

  function Emitted(e: Option<char>): seq<char>
  {
    if e.Some? then [e.value] else []
  }

  function Run(km: Keymaps, flags: bv8, scs: seq<bv8>): Outcome
    requires km.Valid()
    decreases |scs|
  {
    if scs == [] then Outcome(flags, [], false)
    else
      var e := Step(km, flags, scs[0]);
      if e.reboot then Outcome(e.flags, [], true)
      else
        var r := Run(km, e.flags, scs[1..]);
        Outcome(r.flags, Emitted(e.emit) + r.out, r.rebooted)
  }

  /** The characters `out`, handed on before the batch that gave `r`. */
  function After(out: seq<char>, r: Outcome): Outcome
  {
    Outcome(r.flags, out + r.out, r.rebooted)
  }

  /** The batch from position `k` on is its first scancode's effect followed
      by the rest. */
  lemma RunFrom(km: Keymaps, flags: bv8, scs: seq<bv8>, k: nat)
    requires km.Valid()
    requires k < |scs|
    ensures var e := Step(km, flags, scs[k]);
      Run(km, flags, scs[k..]) ==
        if e.reboot then Outcome(e.flags, [], true) else After(Emitted(e.emit), Run(km, e.flags, scs[k + 1..]))
  {
    assert scs[k..][0] == scs[k] && scs[k..][1..] == scs[k + 1..];
  }

  /** One turn of the interrupt handler's loop against the batch it is
      decoding: having handed on `emitted` and reached position `k`, the
      next scancode either reboots, ending the batch, or hands on its
      character and leaves the rest of the batch to decode. */
  lemma NextScancode(km: Keymaps, flags: bv8, scs: seq<bv8>, k: nat, emitted: seq<char>, target: Outcome)
      returns (e: Effect, em: seq<char>)
    requires km.Valid()
    requires k < |scs| && After(emitted, Run(km, flags, scs[k..])) == target
    ensures e == Step(km, flags, scs[k])
    ensures e.reboot ==> target == Outcome(e.flags, emitted + Emitted(e.emit), true)
    ensures !e.reboot ==> em == emitted + Emitted(e.emit) && After(em, Run(km, e.flags, scs[k + 1..])) == target
  {
    e := Step(km, flags, scs[k]);
    RunFrom(km, flags, scs, k);
    em := emitted + Emitted(e.emit);
    if !e.reboot {
      var rest := Run(km, e.flags, scs[k + 1..]);
      assert emitted + (Emitted(e.emit) + rest.out) == em + rest.out;
    } else {
      assert Emitted(e.emit) == [];
    }
  }

  /** A modifier key emits nothing: its press sets its flag, its release
      clears it, and the other flags stay as they were. */
  lemma ModifierKey(km: Keymaps, flags: bv8, sc: bv8)
    requires km.Valid()
    requires ModifierBit(sc & 0x7f) != 0
    ensures var e, m := Step(km, flags, sc), ModifierBit(sc & 0x7f);
      && e.emit == None && !e.reboot
      && (sc & SC_RELEASE == 0 ==> e.flags == flags | m && e.flags & m == m)
      && (sc & SC_RELEASE != 0 ==> e.flags == flags & !m && e.flags & m == 0)
      && e.flags & !m == flags & !m
  {
  }

  /** Both shift keys drive the one shift flag: releasing either clears
      it, whichever of them set it. */
  lemma ShiftKeysShareFlag(km: Keymaps, flags: bv8)
    requires km.Valid()
    ensures Step(km, flags, SC_LSHIFT).flags == Step(km, flags, SC_RSHIFT).flags
    ensures Step(km, flags, SC_LSHIFT | SC_RELEASE).flags == Step(km, flags, SC_RSHIFT | SC_RELEASE).flags
    ensures Step(km, Step(km, flags, SC_LSHIFT).flags, SC_RSHIFT | SC_RELEASE).flags & ATKBD_FLAG_SHIFT == 0
  {
  }

  /** The release of a key that is no modifier does nothing at all. */
  lemma ReleaseIgnored(km: Keymaps, flags: bv8, sc: bv8)
    requires km.Valid()
    requires sc & SC_RELEASE != 0 && ModifierBit(sc & 0x7f) == 0
    ensures Step(km, flags, sc) == Effect(flags, None, false)
  {
  }

  /** The machine is rebooted exactly on a press of Delete while Control
      and Alt, and no other modifier, are held. */
  lemma RebootCombination(km: Keymaps, flags: bv8, sc: bv8)
    requires km.Valid()
    ensures Step(km, flags, sc).reboot <==> flags == ATKBD_FLAG_CONTROL | ATKBD_FLAG_ALT && sc == SC_DELETE
  {
  }

  /** A character comes from the table of the current shift state, at the
      index of a press, which is below 128; a table entry 0 emits nothing. */
  lemma CharacterKey(km: Keymaps, flags: bv8, sc: bv8)
    requires km.Valid()
    requires sc & SC_RELEASE == 0 && ModifierBit(sc) == 0
    requires !(flags == ATKBD_FLAG_CONTROL | ATKBD_FLAG_ALT && sc == SC_DELETE)
    ensures 0 <= sc as int < 128
    ensures var table := if flags & ATKBD_FLAG_SHIFT != 0 then km.shifted else km.plain;
      && Step(km, flags, sc).flags == flags && !Step(km, flags, sc).reboot
      && (table[sc as int] == '\0' <==> Step(km, flags, sc).emit == None)
      && (Step(km, flags, sc).emit.Some? ==> Step(km, flags, sc).emit.value == table[sc as int])
  {
    assert sc & 0x7f == sc;
  }

  /** Only the three modifier bits are ever set in the flags. */
  lemma {:induction false} FlagsStayModifiers(km: Keymaps, flags: bv8, scs: seq<bv8>)
    requires km.Valid()
    requires flags & !(ATKBD_FLAG_SHIFT | ATKBD_FLAG_CONTROL | ATKBD_FLAG_ALT) == 0
    ensures Run(km, flags, scs).flags & !(ATKBD_FLAG_SHIFT | ATKBD_FLAG_CONTROL | ATKBD_FLAG_ALT) == 0
    decreases |scs|
  {
    if scs != [] {
      var e := Step(km, flags, scs[0]);
      assert e.flags & !(ATKBD_FLAG_SHIFT | ATKBD_FLAG_CONTROL | ATKBD_FLAG_ALT) == 0;
      if !e.reboot {
        FlagsStayModifiers(km, e.flags, scs[1..]);
      }
    }
  }

  /** The multiplexer is never handed a NUL. */
  lemma {:induction false} NoNulHandedOn(km: Keymaps, flags: bv8, scs: seq<bv8>)
    requires km.Valid()
    ensures '\0' !in Run(km, flags, scs).out
    decreases |scs|
  {
    if scs != [] {
      var e := Step(km, flags, scs[0]);
      if !e.reboot {
        NoNulHandedOn(km, e.flags, scs[1..]);
      }
    }
  }

  /** Scancodes split over two interrupts decode as they do in one, unless
      the first batch already rebooted the machine. */
  lemma {:induction false} RunAppend(km: Keymaps, flags: bv8, a: seq<bv8>, b: seq<bv8>)
    requires km.Valid()
    requires !Run(km, flags, a).rebooted
    ensures var r1 := Run(km, flags, a); var r2 := Run(km, r1.flags, b);
      Run(km, flags, a + b) == Outcome(r2.flags, r1.out + r2.out, r2.rebooted)
    decreases |a|
  {
    if a == [] {
      assert a + b == b;
    } else {
      var e := Step(km, flags, a[0]);
      assert (a + b)[0] == a[0];
      assert (a + b)[1..] == a[1..] + b;
      RunAppend(km, e.flags, a[1..], b);
      var r1, r2 := Run(km, e.flags, a[1..]), Run(km, Run(km, e.flags, a[1..]).flags, b);
      assert Emitted(e.emit) + (r1.out + r2.out) == (Emitted(e.emit) + r1.out) + r2.out;
    }
  }

  /** Holding shift while pressing the A key gives a capital, and after
      shift is released the same key gives a small letter. */
  lemma ExampleShiftedLetter()
    ensures Run(Tables, 0, [SC_LSHIFT, 0x1e, 0x9e, SC_LSHIFT | SC_RELEASE, 0x1e]) == Outcome(0, ['A', 'a'], false)
  {
    var scs: seq<bv8> := [SC_LSHIFT, 0x1e, 0x9e, SC_LSHIFT | SC_RELEASE, 0x1e];
    assert Step(Tables, 0, SC_LSHIFT) == Effect(1, None, false);
    assert KeymapShift[0x1e] == 'A' && Keymap[0x1e] == 'a';
    assert Step(Tables, 1, 0x1e) == Effect(1, Some('A'), false);
    assert Step(Tables, 1, 0x9e) == Effect(1, None, false);
    assert Step(Tables, 1, SC_LSHIFT | SC_RELEASE) == Effect(0, None, false);
    assert Step(Tables, 0, 0x1e) == Effect(0, Some('a'), false);
    assert scs[1..][1..][1..][1..][1..] == [];
    assert Run(Tables, 0, scs[1..][1..][1..][1..]) == Outcome(0, ['a'], false);
    assert Run(Tables, 1, scs[1..][1..][1..]) == Outcome(0, ['a'], false);
    assert Run(Tables, 1, scs[1..][1..]) == Outcome(0, ['a'], false);
    assert Run(Tables, 1, scs[1..]) == Outcome(0, ['A', 'a'], false);
  }

  /** Control, Alt and Delete reboot, and the scancodes after it are never
      decoded. */
  lemma ExampleReboot()
    ensures Run(Tables, 0, [SC_CONTROL, SC_ALT, SC_DELETE, 0x1e]) ==
      Outcome(ATKBD_FLAG_CONTROL | ATKBD_FLAG_ALT, [], true)
  {
    var scs: seq<bv8> := [SC_CONTROL, SC_ALT, SC_DELETE, 0x1e];
    assert Step(Tables, 0, SC_CONTROL) == Effect(2, None, false);
    assert Step(Tables, 2, SC_ALT) == Effect(6, None, false);
    assert Step(Tables, 6, SC_DELETE) == Effect(6, None, true);
    assert Run(Tables, 6, scs[1..][1..]) == Outcome(6, [], true);
    assert Run(Tables, 2, scs[1..]) == Outcome(6, [], true);
  }

  /** The driver instance. */
  class ATKeyboard {
    var kbdIoport: int
    var kbdFlags: bv8
    /** Whether the interrupt handler is registered, and the flags at the
        moment it was. */
    var irqRegistered: bool
    ghost var flagsAtRegistration: bv8
    /** The characters handed to `kbdmux_on_input`, in order. */
    var delivered: seq<char>
    var rebooted: bool

    constructor ()
      ensures !irqRegistered && delivered == [] && !rebooted
    {
      kbdIoport, kbdFlags := 0, 0;
      irqRegistered, flagsAtRegistration := false, 0;
      delivered, rebooted := [], false;
    }

    /** `ATKeyboard::Attach`: without both an I/O range and an interrupt
        the result is NO_RESOURCE; otherwise the port is recorded and the
        flags are cleared before the interrupt handler is registered, and
        a failed registration is passed on. `irqResult` is what
        `irq_register` answers. */
    method Attach(resIo: Option<int>, resIrq: Option<nat>, irqResult: Errno) returns (err: Errno)
      modifies this
      ensures resIo.None? || resIrq.None? ==> err == NoResource && unchanged(this)
      ensures resIo.Some? && resIrq.Some? ==>
        && kbdIoport == resIo.value && kbdFlags == 0 && err == irqResult
        && (irqRegistered <==> old(irqRegistered) || irqResult == Success)
        && (irqResult == Success ==> flagsAtRegistration == 0)
      ensures delivered == old(delivered) && rebooted == old(rebooted)
    {
      if resIo.None? || resIrq.None? {
        return NoResource;
      }
      // Private data first; the handler may run as soon as it is registered.
      kbdIoport := resIo.value;
      kbdFlags := 0;
      if irqResult != Success {
        return irqResult;
      }
      irqRegistered := true;
      flagsAtRegistration := kbdFlags;
      err := Success;
    }

    /** `ATKeyboard::OnIRQ`: decodes every pending scancode in turn; after
        a reboot nothing more is read. */
    method OnIRQ(pending: seq<bv8>)
      requires !rebooted
      modifies this
      ensures var r := Run(Tables, old(kbdFlags), pending);
        kbdFlags == r.flags && delivered == old(delivered) + r.out && rebooted == r.rebooted
      ensures kbdIoport == old(kbdIoport) && irqRegistered == old(irqRegistered)
    {
      ghost var target, d0 := Run(Tables, kbdFlags, pending), delivered;
      ghost var emitted: seq<char> := [];
      var k := 0;
      while k < |pending|
        invariant k <= |pending| && !rebooted
        invariant delivered == d0 + emitted
        invariant kbdIoport == old(kbdIoport) && irqRegistered == old(irqRegistered)
        invariant After(emitted, Run(Tables, kbdFlags, pending[k..])) == target
      {
        ghost var e, em := NextScancode(Tables, kbdFlags, pending, k, emitted, target);
        Scancode(pending[k]);
        k := k + 1;
        if rebooted {
          return;
        }
        emitted := em;
      }
      assert emitted + [] == emitted;
    }

    /** One pass of the interrupt handler's loop, for the scancode `sc`. */
    method Scancode(sc: bv8)
      requires !rebooted
      modifies this
      ensures var e := Step(Tables, old(kbdFlags), sc);
        && kbdFlags == e.flags && rebooted == e.reboot
        && delivered == old(delivered) + Emitted(e.emit)
      ensures kbdIoport == old(kbdIoport) && irqRegistered == old(irqRegistered)
    {
      if sc & 0x7f == SC_LSHIFT || sc & 0x7f == SC_RSHIFT {
        if sc & SC_RELEASE != 0 {
          kbdFlags := kbdFlags & !ATKBD_FLAG_SHIFT;
        } else {
          kbdFlags := kbdFlags | ATKBD_FLAG_SHIFT;
        }
        return;
      }
      if sc & 0x7f == SC_ALT {
        if sc & SC_RELEASE != 0 {
          kbdFlags := kbdFlags & !ATKBD_FLAG_ALT;
        } else {
          kbdFlags := kbdFlags | ATKBD_FLAG_ALT;
        }
        return;
      }
      if sc & 0x7f == SC_CONTROL {
        if sc & SC_RELEASE != 0 {
          kbdFlags := kbdFlags & !ATKBD_FLAG_CONTROL;
        } else {
          kbdFlags := kbdFlags | ATKBD_FLAG_CONTROL;
        }
        return;
      }
      if sc & SC_RELEASE != 0 {
        // A release event.
        return;
      }
      if kbdFlags == ATKBD_FLAG_CONTROL | ATKBD_FLAG_ALT && sc == SC_DELETE {
        // md_reboot() does not return.
        rebooted := true;
        return;
      }
      var ch := (if kbdFlags & ATKBD_FLAG_SHIFT != 0 then KeymapShift else Keymap)[sc as int];
      if ch != '\0' {
        delivered := delivered + [ch];
      }
    }
  }
}
