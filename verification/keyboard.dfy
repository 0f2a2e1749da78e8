/**
 The PS5 keyboard driver: `PS5_Keyboard_Init`, `PS5_Keyboard_Open`,
 `PS5_Keyboard_Close` and the state diff of `PS5_Keyboard_PumpEvents`.
 The driver keeps the open handle and the previous keyboard reading; a
 pump compares the new reading with the stored one and reports modifier
 and key changes to SDL, which here become a returned list of events.
 */
module Keyboard {
  import opened Common

  // ---------------------------------------------------------------------
  // Readings and events
  // ---------------------------------------------------------------------

  const NUM_SCAN_KEYS: nat := 16
  const NUM_MODIFIERS: nat := 8

  /** The sixteen key slots of a reading; 0 means an empty slot. */
  type ScanKeys = s: seq<u16> | |s| == NUM_SCAN_KEYS witness seq(16, i => 0 as u16)

  /** The part of `keyboard_state_t` the driver reads. */
  datatype KeyboardState = KeyboardState(available: u8, modifiers: bv32, scankey: ScanKeys)

  /** `g_prev` before the first pump: a zero-filled static. */
  function ZeroState(): (s: KeyboardState)
    ensures s.modifiers == 0 && forall i :: 0 <= i < NUM_SCAN_KEYS ==> s.scankey[i] == 0
  {
    KeyboardState(0, 0, seq(16, i => 0 as u16))
  }

  /** One `SDL_SendKeyboardKey(state, scancode)` call. */
  datatype KeyEvent = KeyEvent(state: KeyState, scancode: nat)

  /** The SDL scancodes of the modifier keys, `SDL_SCANCODE_LCTRL` to
      `SDL_SCANCODE_RGUI`. */
  const SCANCODE_LCTRL: nat := 224
  const SCANCODE_LSHIFT: nat := 225
  const SCANCODE_LALT: nat := 226
  const SCANCODE_LGUI: nat := 227
  const SCANCODE_RCTRL: nat := 228
  const SCANCODE_RSHIFT: nat := 229
  const SCANCODE_RALT: nat := 230
  const SCANCODE_RGUI: nat := 231

  /** Modifier bit `k` of a reading and the key it stands for, in the
      order the pump tests them. */
  const MODIFIER_MASK: seq<bv32> := [0x01, 0x02, 0x04, 0x08, 0x10, 0x20, 0x40, 0x80]
  const MODIFIER_SCANCODE: seq<nat> :=
    [SCANCODE_LCTRL, SCANCODE_LSHIFT, SCANCODE_LALT, SCANCODE_LGUI,
     SCANCODE_RCTRL, SCANCODE_RSHIFT, SCANCODE_RALT, SCANCODE_RGUI]

  /** The test `m & mask` for modifier `k`. */
  predicate ModifierBit(m: bv32, k: nat)
    requires k < NUM_MODIFIERS
  {
    m & MODIFIER_MASK[k] != 0
  }

  /** For a mask with at most one bit set, that bit of `a ^ b` is set
      exactly when it differs between `a` and `b`. */
  lemma XorSingleBit(a: bv32, b: bv32, m: bv32)
    requires m & (m - 1) == 0
    ensures (a ^ b) & m != 0 <==> (a & m != 0) != (b & m != 0)
  {
  }

  /** Each modifier mask is a single bit, so the bit of `a ^ b` is set
      exactly when the bits of `a` and `b` differ. */
  lemma ModifierBitOfXor(a: bv32, b: bv32, k: nat)
    requires k < NUM_MODIFIERS
    ensures ModifierBit(a ^ b, k) <==> ModifierBit(a, k) != ModifierBit(b, k)
  {
    var m := MODIFIER_MASK[k];
    assert m == 1 || m == 2 || m == 4 || m == 8 || m == 0x10 || m == 0x20 || m == 0x40 || m == 0x80;
    XorSingleBit(a, b, m);
  }

  lemma NoModifierBitOfZero(k: nat)
    requires k < NUM_MODIFIERS
    ensures !ModifierBit(0, k)
  {
  }

  // ---------------------------------------------------------------------
  // Lists of optional events
  // ---------------------------------------------------------------------

  /** The events of the entries that produce one, in entry order. */
  function Present(opts: seq<Option<KeyEvent>>): seq<KeyEvent>
  {
    if opts == [] then []
    else (if opts[0].Some? then [opts[0].value] else []) + Present(opts[1..])
  }

  /** The number of entries that produce an event. */
  function CountSome(opts: seq<Option<KeyEvent>>): nat
  {
    if opts == [] then 0
    else (if opts[0].Some? then 1 else 0) + CountSome(opts[1..])
  }

  /** One event per producing entry. */
  lemma {:induction false} PresentLength(opts: seq<Option<KeyEvent>>)
    ensures |Present(opts)| == CountSome(opts)
  {
    if opts != [] {
      PresentLength(opts[1..]);
    }
  }

  /** The event of entry `i` sits at the position given by the number of
      producing entries before it. */
  lemma {:induction false} PresentAt(opts: seq<Option<KeyEvent>>, i: nat)
    requires i < |opts| && opts[i].Some?
    ensures CountSome(opts[..i]) < |Present(opts)|
    ensures Present(opts)[CountSome(opts[..i])] == opts[i].value
  {
    PresentLength(opts);
    var head := if opts[0].Some? then [opts[0].value] else [];
    if i == 0 {
      assert opts[..0] == [];
    } else {
      PresentAt(opts[1..], i - 1);
      assert opts[..i][1..] == opts[1..][..i - 1];
      assert opts[..i][0] == opts[0];
      assert Present(opts) == head + Present(opts[1..]);
    }
  }

  /** Counting a longer prefix never counts fewer entries, and counts more
      when the extra part holds a producing entry. */
  lemma {:induction false} CountSomePrefix(opts: seq<Option<KeyEvent>>, i: nat, j: nat)
    requires i < j <= |opts| && opts[i].Some?
    ensures CountSome(opts[..i]) < CountSome(opts[..j])
  {
    if i == 0 {
      assert opts[..j][0] == opts[0];
      assert opts[..0] == [];
    } else {
      CountSomePrefix(opts[1..], i - 1, j - 1);
      assert opts[..i][1..] == opts[1..][..i - 1];
      assert opts[..j][1..] == opts[1..][..j - 1];
      assert opts[..i][0] == opts[0] && opts[..j][0] == opts[0];
    }
  }

  /** An event is listed exactly when some entry produces it. */
  lemma {:induction false} PresentMember(opts: seq<Option<KeyEvent>>, e: KeyEvent)
    ensures e in Present(opts) <==> exists i :: 0 <= i < |opts| && opts[i] == Some(e)
  {
    if opts != [] {
      PresentMember(opts[1..], e);
      if e in Present(opts[1..]) {
        var i :| 0 <= i < |opts[1..]| && opts[1..][i] == Some(e);
        assert opts[i + 1] == Some(e);
      }
      if exists i :: 0 <= i < |opts| && opts[i] == Some(e) {
        var i :| 0 <= i < |opts| && opts[i] == Some(e);
        if i > 0 {
          assert opts[1..][i - 1] == Some(e);
        }
      }
    }
  }

  /** Entries that produce nothing list nothing. */
  lemma {:induction false} PresentOfNothing(opts: seq<Option<KeyEvent>>)
    requires forall i :: 0 <= i < |opts| ==> opts[i].None?
    ensures Present(opts) == []
  {
    if opts != [] {
      PresentOfNothing(opts[1..]);
    }
  }

  // ---------------------------------------------------------------------
  // The two parts of a pump
  // ---------------------------------------------------------------------

  /** The state reported for a modifier that changed: released when it was
      down before, pressed otherwise. */
  function ModifierState(wasDown: bool): KeyState
  {
    if wasDown then Released else Pressed
  }

  /** What the eight modifier tests report, entry `k` for mask `k`. The
      tests run only when `prev ^ curr` is non-zero. */
  function ModifierEvents(prev: bv32, curr: bv32): (opts: seq<Option<KeyEvent>>)
    ensures |opts| == NUM_MODIFIERS
  {
    var diff := prev ^ curr;
    seq(8, k requires 0 <= k < 8 =>
      if diff != 0 && ModifierBit(diff, k)
      then Some(KeyEvent(ModifierState(ModifierBit(prev, k)), MODIFIER_SCANCODE[k]))
      else None)
  }

  /** Modifier `k` reports exactly when its bit differs between the two
      readings, and reports a release exactly when the bit was set. */
  lemma ModifierEventEntry(prev: bv32, curr: bv32, k: nat)
    requires k < NUM_MODIFIERS
    ensures ModifierEvents(prev, curr)[k].Some? <==> ModifierBit(prev, k) != ModifierBit(curr, k)
    ensures ModifierEvents(prev, curr)[k].Some? ==>
      ModifierEvents(prev, curr)[k].value.scancode == MODIFIER_SCANCODE[k]
      && (ModifierEvents(prev, curr)[k].value.state == Released <==> ModifierBit(prev, k))
  {
    ModifierBitOfXor(prev, curr, k);
    if prev ^ curr == 0 {
      NoModifierBitOfZero(k);
    }
  }

  /** What key slot `i` reports: nothing when it is unchanged, a press of
      the new key when the slot was empty, and otherwise a release of the
      old key — also when the slot now holds a different key. */
  function SlotEvent(prev: u16, curr: u16): (o: Option<KeyEvent>)
    ensures o.None? <==> prev == curr
    ensures o.Some? && prev == 0 ==> o.value == KeyEvent(Pressed, curr as nat) && curr != 0
    ensures o.Some? && prev != 0 ==> o.value == KeyEvent(Released, prev as nat)
  {
    if prev == curr then None
    else if prev == 0 then Some(KeyEvent(Pressed, curr as nat))
    else Some(KeyEvent(Released, prev as nat))
  }

  /** What the sixteen slot comparisons report, entry `i` for slot `i`. */
  function SlotEvents(prev: ScanKeys, curr: ScanKeys): (opts: seq<Option<KeyEvent>>)
    ensures |opts| == NUM_SCAN_KEYS
    ensures forall i :: 0 <= i < NUM_SCAN_KEYS ==> opts[i] == SlotEvent(prev[i], curr[i])
  {
    seq(16, i requires 0 <= i < 16 => SlotEvent(prev[i], curr[i]))
  }

  /** A key is reported pressed exactly when some slot was empty and now
      holds it. */
  lemma SlotPressMember(prev: ScanKeys, curr: ScanKeys, c: nat)
    ensures KeyEvent(Pressed, c) in Present(SlotEvents(prev, curr)) <==>
      exists i :: 0 <= i < NUM_SCAN_KEYS && prev[i] == 0 && curr[i] as nat == c && c != 0
  {
    var opts := SlotEvents(prev, curr);
    PresentMember(opts, KeyEvent(Pressed, c));
    if exists i :: 0 <= i < NUM_SCAN_KEYS && prev[i] == 0 && curr[i] as nat == c && c != 0 {
      var i :| 0 <= i < NUM_SCAN_KEYS && prev[i] == 0 && curr[i] as nat == c && c != 0;
      assert opts[i] == Some(KeyEvent(Pressed, c));
    }
  }

  /** A key is reported released exactly when some slot held it and now
      holds something else (nothing, or another key). */
  lemma SlotReleaseMember(prev: ScanKeys, curr: ScanKeys, c: nat)
    ensures KeyEvent(Released, c) in Present(SlotEvents(prev, curr)) <==>
      exists i :: 0 <= i < NUM_SCAN_KEYS && prev[i] as nat == c && c != 0 && curr[i] != prev[i]
  {
    var opts := SlotEvents(prev, curr);
    PresentMember(opts, KeyEvent(Released, c));
    if exists i :: 0 <= i < NUM_SCAN_KEYS && prev[i] as nat == c && c != 0 && curr[i] != prev[i] {
      var i :| 0 <= i < NUM_SCAN_KEYS && prev[i] as nat == c && c != 0 && curr[i] != prev[i];
      assert opts[i] == Some(KeyEvent(Released, c));
    }
  }

  // ---------------------------------------------------------------------
  // The driver
  // ---------------------------------------------------------------------

  /** The driver's statics: `g_handle` and `g_prev`. */
  datatype Driver = Driver(handle: int, prev: KeyboardState)

  /** The statics before any call: both zero-filled. */
  function InitialDriver(): (d: Driver)
    ensures d.handle == 0 && d.prev == ZeroState()
  {
    Driver(0, ZeroState())
  }

  /** `PS5_Keyboard_Init`, given the results of `sceUserServiceInitialize`
      and `sceKeyboardInit`. The reason string of the second failure is
      the one the source prints. */
  function KeyboardInit(userServiceErr: bv32, keyboardInitErr: int): (s: Status)
    ensures s == Ok <==> UserServiceInitOk(userServiceErr) && keyboardInitErr == 0
    ensures !UserServiceInitOk(userServiceErr) ==> s == Error("sceUserServiceInitialize")
  {
    if !UserServiceInitOk(userServiceErr) then Error("sceUserServiceInitialize")
    else if keyboardInitErr != 0 then Error("scePadInit")
    else Ok
  }

  datatype OpenOutcome = OpenOutcome(driver: Driver, status: Status)

  /** `PS5_Keyboard_Open`, given the results of
      `sceUserServiceGetForegroundUser` and `sceKeyboardOpen`. The handle
      is stored even when it is not a valid one. */
  function KeyboardOpen(d: Driver, userErr: int, openedHandle: int): (r: OpenOutcome)
    ensures userErr != 0 ==> r == OpenOutcome(d, Error("sceUserServiceGetForegroundUser"))
    ensures userErr == 0 ==>
      r.driver == d.(handle := openedHandle) && (r.status == Ok <==> openedHandle > 0)
  {
    if userErr != 0 then OpenOutcome(d, Error("sceUserServiceGetForegroundUser"))
    else OpenOutcome(d.(handle := openedHandle),
                     if openedHandle <= 0 then Error("sceKeyboardOpen") else Ok)
  }

  datatype CloseOutcome = CloseOutcome(closeCalled: bool, status: Status)

  /** `PS5_Keyboard_Close`, given the result of `sceKeyboardClose`. With
      no valid handle it succeeds without calling close. The handle is not
      reset, so a later close calls `sceKeyboardClose` again. */
  function KeyboardClose(d: Driver, closeErr: int): (r: CloseOutcome)
    ensures d.handle <= 0 ==> r == CloseOutcome(false, Ok)
    ensures d.handle > 0 ==> r.closeCalled && (r.status == Ok <==> closeErr == 0)
  {
    if d.handle <= 0 then CloseOutcome(false, Ok)
    else CloseOutcome(true, if closeErr != 0 then Error("sceKeyboardClose") else Ok)
  }

  datatype PumpOutcome = PumpOutcome(driver: Driver, events: seq<KeyEvent>, status: Status)

  /** `PS5_Keyboard_PumpEvents`, given the result of
      `sceKeyboardReadState` (`None` when it fails). */
  function Pump(d: Driver, read: Option<KeyboardState>): (r: PumpOutcome)
    ensures d.handle <= 0 ==> r == PumpOutcome(d, [], Ok)
    ensures d.handle > 0 && read.None? ==> r == PumpOutcome(d, [], Error("sceKeyboardReadState"))
    ensures d.handle > 0 && read.Some? && read.value.available == 0 ==> r == PumpOutcome(d, [], Ok)
    ensures d.handle > 0 && read.Some? && read.value.available != 0 ==>
      r.driver == d.(prev := read.value) && r.status == Ok
  {
    if d.handle <= 0 then PumpOutcome(d, [], Ok)
    else match read
      case None => PumpOutcome(d, [], Error("sceKeyboardReadState"))
      case Some(curr) =>
        if curr.available == 0 then PumpOutcome(d, [], Ok)
        else PumpOutcome(d.(prev := curr),
                         Present(ModifierEvents(d.prev.modifiers, curr.modifiers))
                         + Present(SlotEvents(d.prev.scankey, curr.scankey)),
                         Ok)
  }

  /** A pump that reads a new, available state. */
  predicate Live(d: Driver, read: Option<KeyboardState>)
  {
    d.handle > 0 && read.Some? && read.value.available != 0
  }

  /** The number of modifiers whose bit changed. */
  function ChangedModifiers(d: Driver, curr: KeyboardState): nat
  {
    CountSome(ModifierEvents(d.prev.modifiers, curr.modifiers))
  }

  /** A live pump reports one event per changed modifier and one per
      changed slot, and nothing else. */
  lemma PumpEventCount(d: Driver, curr: KeyboardState)
    requires Live(d, Some(curr))
    ensures |Pump(d, Some(curr)).events| ==
      ChangedModifiers(d, curr) + CountSome(SlotEvents(d.prev.scankey, curr.scankey))
  {
    PresentLength(ModifierEvents(d.prev.modifiers, curr.modifiers));
    PresentLength(SlotEvents(d.prev.scankey, curr.scankey));
  }

  /** The event of a changed modifier `k` comes after those of the changed
      modifiers below it, and reports its key, released exactly when the
      bit was set before. */
  lemma PumpModifierEvent(d: Driver, curr: KeyboardState, k: nat)
    requires Live(d, Some(curr)) && k < NUM_MODIFIERS
    requires ModifierBit(d.prev.modifiers, k) != ModifierBit(curr.modifiers, k)
    ensures var opts := ModifierEvents(d.prev.modifiers, curr.modifiers);
      var evs := Pump(d, Some(curr)).events;
      && CountSome(opts[..k]) < |evs|
      && evs[CountSome(opts[..k])] == KeyEvent(ModifierState(ModifierBit(d.prev.modifiers, k)), MODIFIER_SCANCODE[k])
  {
    var opts := ModifierEvents(d.prev.modifiers, curr.modifiers);
    ModifierEventEntry(d.prev.modifiers, curr.modifiers, k);
    PresentAt(opts, k);
  }

  /** The event of a changed slot `i` comes after every modifier event and
      after those of the changed slots below it. */
  lemma PumpSlotEvent(d: Driver, curr: KeyboardState, i: nat)
    requires Live(d, Some(curr)) && i < NUM_SCAN_KEYS
    requires d.prev.scankey[i] != curr.scankey[i]
    ensures var opts := SlotEvents(d.prev.scankey, curr.scankey);
      var evs := Pump(d, Some(curr)).events;
      var at := ChangedModifiers(d, curr) + CountSome(opts[..i]);
      && at < |evs|
      && evs[at] == SlotEvent(d.prev.scankey[i], curr.scankey[i]).value
  {
    var opts := SlotEvents(d.prev.scankey, curr.scankey);
    var mods := Present(ModifierEvents(d.prev.modifiers, curr.modifiers));
    PresentLength(ModifierEvents(d.prev.modifiers, curr.modifiers));
    PresentAt(opts, i);
    assert Pump(d, Some(curr)).events == mods + Present(opts);
  }

  /** Events of two changed slots come in slot order. */
  lemma SlotEventsInSlotOrder(prev: ScanKeys, curr: ScanKeys, i: nat, j: nat)
    requires i < j < NUM_SCAN_KEYS && prev[i] != curr[i]
    ensures CountSome(SlotEvents(prev, curr)[..i]) < CountSome(SlotEvents(prev, curr)[..j])
  {
    CountSomePrefix(SlotEvents(prev, curr), i, j);
  }

  /** Events of two changed modifiers come in mask order. */
  lemma ModifierEventsInMaskOrder(prev: bv32, curr: bv32, k: nat, l: nat)
    requires k < l < NUM_MODIFIERS && ModifierBit(prev, k) != ModifierBit(curr, k)
    ensures CountSome(ModifierEvents(prev, curr)[..k]) < CountSome(ModifierEvents(prev, curr)[..l])
  {
    ModifierEventEntry(prev, curr, k);
    CountSomePrefix(ModifierEvents(prev, curr), k, l);
  }

  /** After a live pump the stored reading is the new one, so pumping the
      same reading again reports nothing. */
  lemma RepeatedPumpIsQuiet(d: Driver, curr: KeyboardState)
    requires Live(d, Some(curr))
    ensures var d' := Pump(d, Some(curr)).driver;
      d'.prev == curr && Pump(d', Some(curr)) == PumpOutcome(d', [], Ok)
  {
    var d' := Pump(d, Some(curr)).driver;
    var mods := ModifierEvents(curr.modifiers, curr.modifiers);
    var slots := SlotEvents(curr.scankey, curr.scankey);
    assert curr.modifiers ^ curr.modifiers == 0;
    PresentOfNothing(mods);
    PresentOfNothing(slots);
  }

  /** A slot that switches straight from key A to key B reports only the
      release of A: B's press is never reported while it stays held. */
  lemma KeySwitchReleasesOnly(d: Driver, curr: KeyboardState, a: u16, b: u16)
    requires Live(d, Some(curr)) && a != 0 && b != 0 && a != b
    requires d.prev.modifiers == curr.modifiers
    requires d.prev.scankey == [a] + seq(15, i => 0 as u16)
    requires curr.scankey == [b] + seq(15, i => 0 as u16)
    ensures Pump(d, Some(curr)).events == [KeyEvent(Released, a as nat)]
  {
    var opts := SlotEvents(d.prev.scankey, curr.scankey);
    assert d.prev.modifiers ^ curr.modifiers == 0;
    PresentOfNothing(ModifierEvents(d.prev.modifiers, curr.modifiers));
    PresentOfNothing(opts[1..]);
    assert Present(opts) == [KeyEvent(Released, a as nat)] + Present(opts[1..]);
  }
}
