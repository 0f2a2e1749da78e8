/**
 The PS5 joystick driver: a four-slot table of logged-in users and their
 pad handles, the byte-to-axis table and button-bit map, and the
 per-update edge detection that turns two successive pad readings into
 SDL axis, button and hat events. Every `scePad*` and `sceUserService*`
 call is replaced by its result, passed in as a parameter; the events the
 driver would post through `SDL_PrivateJoystick*` are returned as a list.
 */
module Joystick {
  import opened Common

  const MAX_USERS: nat := 4

  /** Axis numbers, in the order the driver reports them. */
  const AXIS_LX: nat := 0
  const AXIS_LY: nat := 1
  const AXIS_RX: nat := 2
  const AXIS_RY: nat := 3
  const AXIS_L2: nat := 4
  const AXIS_R2: nat := 5
  const NUM_AXES: nat := 6

  /** Button bits of the pad's `buttons` word. */
  const BUTTON_L3: bv32 := 0x0002
  const BUTTON_R3: bv32 := 0x0004
  const BUTTON_OPTIONS: bv32 := 0x0008
  const BUTTON_UP: bv32 := 0x0010
  const BUTTON_RIGHT: bv32 := 0x0020
  const BUTTON_DOWN: bv32 := 0x0040
  const BUTTON_LEFT: bv32 := 0x0080
  const BUTTON_L2: bv32 := 0x0100
  const BUTTON_R2: bv32 := 0x0200
  const BUTTON_L1: bv32 := 0x0400
  const BUTTON_R1: bv32 := 0x0800
  const BUTTON_TRIANGLE: bv32 := 0x1000
  const BUTTON_CIRCLE: bv32 := 0x2000
  const BUTTON_CROSS: bv32 := 0x4000
  const BUTTON_SQUARE: bv32 := 0x8000
  const BUTTON_TOUCH_PAD: bv32 := 0x10_0000

  /** SDL hat direction bits. */
  const HAT_CENTERED: bv8 := 0
  const HAT_UP: bv8 := 1
  const HAT_RIGHT: bv8 := 2
  const HAT_DOWN: bv8 := 4
  const HAT_LEFT: bv8 := 8

  // ---------------------------------------------------------------------
  // The byte-to-axis table
  // ---------------------------------------------------------------------

  /** `analog_map`: stick and trigger bytes to SDL axis values, one entry
      per byte value. Written as a match so that each entry is a separate
      fact for the solver; the lemmas after it state what the table is. */
  function AnalogMap(b: u8): (v: int)
  {
    match b
    case 0 => -32767
    case 1 => -32759
    case 2 => -32742
    case 3 => -32712
    case 4 => -32671
    case 5 => -32618
    case 6 => -32553
    case 7 => -32478
    case 8 => -32392
    case 9 => -32296
    case 10 => -32188
    case 11 => -32071
    case 12 => -31944
    case 13 => -31806
    case 14 => -31659
    case 15 => -31502
    case 16 => -31336
    case 17 => -31161
    case 18 => -30978
    case 19 => -30785
    case 20 => -30584
    case 21 => -30374
    case 22 => -30157
    case 23 => -29931
    case 24 => -29697
    case 25 => -29457
    case 26 => -29208
    case 27 => -28952
    case 28 => -28690
    case 29 => -28421
    case 30 => -28144
    case 31 => -27862
    case 32 => -27573
    case 33 => -27278
    case 34 => -26978
    case 35 => -26672
    case 36 => -26359
    case 37 => -26043
    case 38 => -25721
    case 39 => -25393
    case 40 => -25062
    case 41 => -24725
    case 42 => -24385
    case 43 => -24040
    case 44 => -23691
    case 45 => -23339
    case 46 => -22983
    case 47 => -22624
    case 48 => -22262
    case 49 => -21896
    case 50 => -21528
    case 51 => -21157
    case 52 => -20784
    case 53 => -20409
    case 54 => -20031
    case 55 => -19652
    case 56 => -19271
    case 57 => -18889
    case 58 => -18505
    case 59 => -18121
    case 60 => -17736
    case 61 => -17350
    case 62 => -16963
    case 63 => -16576
    case 64 => -16189
    case 65 => -15802
    case 66 => -15415
    case 67 => -15029
    case 68 => -14643
    case 69 => -14259
    case 70 => -13876
    case 71 => -13493
    case 72 => -13113
    case 73 => -12733
    case 74 => -12356
    case 75 => -11981
    case 76 => -11607
    case 77 => -11236
    case 78 => -10868
    case 79 => -10503
    case 80 => -10140
    case 81 => -9781
    case 82 => -9425
    case 83 => -9073
    case 84 => -8725
    case 85 => -8379
    case 86 => -8039
    case 87 => -7703
    case 88 => -7371
    case 89 => -7044
    case 90 => -6722
    case 91 => -6405
    case 92 => -6093
    case 93 => -5787
    case 94 => -5486
    case 95 => -5192
    case 96 => -4903
    case 97 => -4620
    case 98 => -4344
    case 99 => -4075
    case 100 => -3812
    case 101 => -3557
    case 102 => -3308
    case 103 => -3068
    case 104 => -2834
    case 105 => -2608
    case 106 => -2390
    case 107 => -2181
    case 108 => -1980
    case 109 => -1787
    case 110 => -1604
    case 111 => -1429
    case 112 => -1263
    case 113 => -1106
    case 114 => -959
    case 115 => -821
    case 116 => -694
    case 117 => -577
    case 118 => -469
    case 119 => -373
    case 120 => -287
    case 121 => -212
    case 122 => -147
    case 123 => -94
    case 124 => -53
    case 125 => -23
    case 126 => -6
    case 127 => 0
    case 128 => 0
    case 129 => 6
    case 130 => 23
    case 131 => 53
    case 132 => 94
    case 133 => 147
    case 134 => 212
    case 135 => 287
    case 136 => 373
    case 137 => 469
    case 138 => 577
    case 139 => 694
    case 140 => 821
    case 141 => 959
    case 142 => 1106
    case 143 => 1263
    case 144 => 1429
    case 145 => 1604
    case 146 => 1787
    case 147 => 1980
    case 148 => 2181
    case 149 => 2390
    case 150 => 2608
    case 151 => 2834
    case 152 => 3068
    case 153 => 3308
    case 154 => 3557
    case 155 => 3812
    case 156 => 4075
    case 157 => 4344
    case 158 => 4620
    case 159 => 4903
    case 160 => 5192
    case 161 => 5486
    case 162 => 5787
    case 163 => 6093
    case 164 => 6405
    case 165 => 6722
    case 166 => 7044
    case 167 => 7371
    case 168 => 7703
    case 169 => 8039
    case 170 => 8379
    case 171 => 8725
    case 172 => 9073
    case 173 => 9425
    case 174 => 9781
    case 175 => 10140
    case 176 => 10503
    case 177 => 10868
    case 178 => 11236
    case 179 => 11607
    case 180 => 11981
    case 181 => 12356
    case 182 => 12733
    case 183 => 13113
    case 184 => 13493
    case 185 => 13876
    case 186 => 14259
    case 187 => 14643
    case 188 => 15029
    case 189 => 15415
    case 190 => 15802
    case 191 => 16189
    case 192 => 16576
    case 193 => 16963
    case 194 => 17350
    case 195 => 17736
    case 196 => 18121
    case 197 => 18505
    case 198 => 18889
    case 199 => 19271
    case 200 => 19652
    case 201 => 20031
    case 202 => 20409
    case 203 => 20784
    case 204 => 21157
    case 205 => 21528
    case 206 => 21896
    case 207 => 22262
    case 208 => 22624
    case 209 => 22983
    case 210 => 23339
    case 211 => 23691
    case 212 => 24040
    case 213 => 24385
    case 214 => 24725
    case 215 => 25062
    case 216 => 25393
    case 217 => 25721
    case 218 => 26043
    case 219 => 26359
    case 220 => 26672
    case 221 => 26978
    case 222 => 27278
    case 223 => 27573
    case 224 => 27862
    case 225 => 28144
    case 226 => 28421
    case 227 => 28690
    case 228 => 28952
    case 229 => 29208
    case 230 => 29457
    case 231 => 29697
    case 232 => 29931
    case 233 => 30157
    case 234 => 30374
    case 235 => 30584
    case 236 => 30785
    case 237 => 30978
    case 238 => 31161
    case 239 => 31336
    case 240 => 31502
    case 241 => 31659
    case 242 => 31806
    case 243 => 31944
    case 244 => 32071
    case 245 => 32188
    case 246 => 32296
    case 247 => 32392
    case 248 => 32478
    case 249 => 32553
    case 250 => 32618
    case 251 => 32671
    case 252 => 32712
    case 253 => 32742
    case 254 => 32759
    case _ => 32767
  }

  // Each chunk lemma below is checked entry by entry against the table;
  // the dispatching lemmas after them assemble the whole-table facts.

  lemma AnalogMapStepOn0(b: u8) requires 0 <= b < 16 ensures AnalogMap(b) < AnalogMap(b + 1) || b == 127 {}
  lemma AnalogMapStepOn16(b: u8) requires 16 <= b < 32 ensures AnalogMap(b) < AnalogMap(b + 1) || b == 127 {}
  lemma AnalogMapStepOn32(b: u8) requires 32 <= b < 48 ensures AnalogMap(b) < AnalogMap(b + 1) || b == 127 {}
  lemma AnalogMapStepOn48(b: u8) requires 48 <= b < 64 ensures AnalogMap(b) < AnalogMap(b + 1) || b == 127 {}
  lemma AnalogMapStepOn64(b: u8) requires 64 <= b < 80 ensures AnalogMap(b) < AnalogMap(b + 1) || b == 127 {}
  lemma AnalogMapStepOn80(b: u8) requires 80 <= b < 96 ensures AnalogMap(b) < AnalogMap(b + 1) || b == 127 {}
  lemma AnalogMapStepOn96(b: u8) requires 96 <= b < 112 ensures AnalogMap(b) < AnalogMap(b + 1) || b == 127 {}
  lemma AnalogMapStepOn112(b: u8) requires 112 <= b < 128 ensures AnalogMap(b) < AnalogMap(b + 1) || b == 127 {}
  lemma AnalogMapStepOn128(b: u8) requires 128 <= b < 144 ensures AnalogMap(b) < AnalogMap(b + 1) || b == 127 {}
  lemma AnalogMapStepOn144(b: u8) requires 144 <= b < 160 ensures AnalogMap(b) < AnalogMap(b + 1) || b == 127 {}
  lemma AnalogMapStepOn160(b: u8) requires 160 <= b < 176 ensures AnalogMap(b) < AnalogMap(b + 1) || b == 127 {}
  lemma AnalogMapStepOn176(b: u8) requires 176 <= b < 192 ensures AnalogMap(b) < AnalogMap(b + 1) || b == 127 {}
  lemma AnalogMapStepOn192(b: u8) requires 192 <= b < 208 ensures AnalogMap(b) < AnalogMap(b + 1) || b == 127 {}
  lemma AnalogMapStepOn208(b: u8) requires 208 <= b < 224 ensures AnalogMap(b) < AnalogMap(b + 1) || b == 127 {}
  lemma AnalogMapStepOn224(b: u8) requires 224 <= b < 240 ensures AnalogMap(b) < AnalogMap(b + 1) || b == 127 {}
  lemma AnalogMapStepOn240(b: u8) requires 240 <= b < 255 ensures AnalogMap(b) < AnalogMap(b + 1) || b == 127 {}

  lemma AnalogMapOddOn0(b: u8) requires 0 <= b < 8 ensures AnalogMap(b) == -AnalogMap(255 - b) {}
  lemma AnalogMapOddOn8(b: u8) requires 8 <= b < 16 ensures AnalogMap(b) == -AnalogMap(255 - b) {}
  lemma AnalogMapOddOn16(b: u8) requires 16 <= b < 24 ensures AnalogMap(b) == -AnalogMap(255 - b) {}
  lemma AnalogMapOddOn24(b: u8) requires 24 <= b < 32 ensures AnalogMap(b) == -AnalogMap(255 - b) {}
  lemma AnalogMapOddOn32(b: u8) requires 32 <= b < 40 ensures AnalogMap(b) == -AnalogMap(255 - b) {}
  lemma AnalogMapOddOn40(b: u8) requires 40 <= b < 48 ensures AnalogMap(b) == -AnalogMap(255 - b) {}
  lemma AnalogMapOddOn48(b: u8) requires 48 <= b < 56 ensures AnalogMap(b) == -AnalogMap(255 - b) {}
  lemma AnalogMapOddOn56(b: u8) requires 56 <= b < 64 ensures AnalogMap(b) == -AnalogMap(255 - b) {}
  lemma AnalogMapOddOn64(b: u8) requires 64 <= b < 72 ensures AnalogMap(b) == -AnalogMap(255 - b) {}
  lemma AnalogMapOddOn72(b: u8) requires 72 <= b < 80 ensures AnalogMap(b) == -AnalogMap(255 - b) {}
  lemma AnalogMapOddOn80(b: u8) requires 80 <= b < 88 ensures AnalogMap(b) == -AnalogMap(255 - b) {}
  lemma AnalogMapOddOn88(b: u8) requires 88 <= b < 96 ensures AnalogMap(b) == -AnalogMap(255 - b) {}
  lemma AnalogMapOddOn96(b: u8) requires 96 <= b < 104 ensures AnalogMap(b) == -AnalogMap(255 - b) {}
  lemma AnalogMapOddOn104(b: u8) requires 104 <= b < 112 ensures AnalogMap(b) == -AnalogMap(255 - b) {}
  lemma AnalogMapOddOn112(b: u8) requires 112 <= b < 120 ensures AnalogMap(b) == -AnalogMap(255 - b) {}
  lemma AnalogMapOddOn120(b: u8) requires 120 <= b < 128 ensures AnalogMap(b) == -AnalogMap(255 - b) {}

  /** Consecutive entries never decrease, and strictly increase everywhere
      except across the dead zone 127..128. */
  lemma AnalogMapStep(b: u8)
    requires b < 255
    ensures AnalogMap(b) <= AnalogMap(b + 1)
    ensures b != 127 ==> AnalogMap(b) < AnalogMap(b + 1)
  {
    if b < 16 {
      AnalogMapStepOn0(b);
    } else if b < 32 {
      AnalogMapStepOn16(b);
    } else if b < 48 {
      AnalogMapStepOn32(b);
    } else if b < 64 {
      AnalogMapStepOn48(b);
    } else if b < 80 {
      AnalogMapStepOn64(b);
    } else if b < 96 {
      AnalogMapStepOn80(b);
    } else if b < 112 {
      AnalogMapStepOn96(b);
    } else if b < 128 {
      AnalogMapStepOn112(b);
    } else if b < 144 {
      AnalogMapStepOn128(b);
    } else if b < 160 {
      AnalogMapStepOn144(b);
    } else if b < 176 {
      AnalogMapStepOn160(b);
    } else if b < 192 {
      AnalogMapStepOn176(b);
    } else if b < 208 {
      AnalogMapStepOn192(b);
    } else if b < 224 {
      AnalogMapStepOn208(b);
    } else if b < 240 {
      AnalogMapStepOn224(b);
    } else {
      AnalogMapStepOn240(b);
    }
  }

  /** The lower half of the table mirrors the upper half. */
  lemma AnalogMapOddLow(b: u8)
    requires b < 128
    ensures AnalogMap(b) == -AnalogMap(255 - b)
  {
    if b < 8 {
      AnalogMapOddOn0(b);
    } else if b < 16 {
      AnalogMapOddOn8(b);
    } else if b < 24 {
      AnalogMapOddOn16(b);
    } else if b < 32 {
      AnalogMapOddOn24(b);
    } else if b < 40 {
      AnalogMapOddOn32(b);
    } else if b < 48 {
      AnalogMapOddOn40(b);
    } else if b < 56 {
      AnalogMapOddOn48(b);
    } else if b < 64 {
      AnalogMapOddOn56(b);
    } else if b < 72 {
      AnalogMapOddOn64(b);
    } else if b < 80 {
      AnalogMapOddOn72(b);
    } else if b < 88 {
      AnalogMapOddOn80(b);
    } else if b < 96 {
      AnalogMapOddOn88(b);
    } else if b < 104 {
      AnalogMapOddOn96(b);
    } else if b < 112 {
      AnalogMapOddOn104(b);
    } else if b < 120 {
      AnalogMapOddOn112(b);
    } else {
      AnalogMapOddOn120(b);
    }
  }

  /** The table is antisymmetric about its centre. */
  lemma AnalogMapOdd(b: u8)
    ensures AnalogMap(b) == -AnalogMap(255 - b)
  {
    if b < 128 {
      AnalogMapOddLow(b);
    } else {
      var c := 255 - b;
      AnalogMapOddLow(c);
      assert 255 - c == b;
    }
  }

  /** The table is non-decreasing over the whole byte range. */
  lemma {:induction false} AnalogMapMonotone(a: u8, b: u8)
    requires a <= b
    ensures AnalogMap(a) <= AnalogMap(b)
    decreases b - a
  {
    if a < b {
      AnalogMapStep(a);
      AnalogMapMonotone(a + 1, b);
    }
  }

  /** Two different bytes give different axis values, except the two
      bytes of the dead zone. */
  lemma AnalogMapStrict(a: u8, b: u8)
    requires a < b && !(a == 127 && b == 128)
    ensures AnalogMap(a) < AnalogMap(b)
  {
    if a == 127 {
      AnalogMapStep(127);
      AnalogMapStep(128);
      AnalogMapMonotone(129, b);
    } else {
      AnalogMapStep(a);
      AnalogMapMonotone(a + 1, b);
    }
  }

  /** Every entry lies between the two end entries, -32767 and 32767, so
      within the range of an SDL axis value. */
  lemma AnalogMapRange(b: u8)
    ensures -32767 <= AnalogMap(b) <= 32767
  {
    AnalogMapMonotone(0, b);
    AnalogMapMonotone(b, 255);
  }

  /** Exactly the two centre bytes map to 0. */
  lemma AnalogMapDeadZone(b: u8)
    ensures AnalogMap(b) == 0 <==> b == 127 || b == 128
  {
    assert AnalogMap(127) == 0 && AnalogMap(128) == 0;
    if b < 127 {
      AnalogMapStrict(b, 127);
    } else if b > 128 {
      AnalogMapStrict(128, b);
    }
  }

  // ---------------------------------------------------------------------
  // Pad readings and events
  // ---------------------------------------------------------------------

  /** The part of `PS5_PadData` the driver reads: the button word and the
      six analog bytes. */
  datatype PadData = PadData(buttons: bv32, leftX: u8, leftY: u8, rightX: u8, rightY: u8, l2: u8, r2: u8)

  /** The analog bytes of a reading, indexed by axis number. */
  function AxisBytes(p: PadData): (s: seq<u8>)
    ensures |s| == NUM_AXES
    ensures s[AXIS_LX] == p.leftX && s[AXIS_LY] == p.leftY
    ensures s[AXIS_RX] == p.rightX && s[AXIS_RY] == p.rightY
    ensures s[AXIS_L2] == p.l2 && s[AXIS_R2] == p.r2
  {
    [p.leftX, p.leftY, p.rightX, p.rightY, p.l2, p.r2]
  }

  /** What the driver posts to SDL during one update. */
  datatype JoyEvent =
    | AxisMotion(axis: nat, value: int)
    | ButtonChange(button: nat, state: KeyState)
    | HatMotion(hat: nat, direction: bv8)

  /** The axis, button or hat number an event is about. */
  function Subject(e: JoyEvent): nat
  {
    match e
    case AxisMotion(a, _) => a
    case ButtonChange(b, _) => b
    case HatMotion(h, _) => h
  }

  /** Events listed in strictly ascending subject order, so at most one per
      subject. */
  predicate Ascending(evs: seq<JoyEvent>)
  {
    forall i, j :: 0 <= i < j < |evs| ==> Subject(evs[i]) < Subject(evs[j])
  }

  /** Every subject in the list is at least `k`. */
  predicate SubjectsFrom(evs: seq<JoyEvent>, k: nat)
  {
    forall j :: 0 <= j < |evs| ==> k <= Subject(evs[j])
  }

  /** Putting an event with subject `k` in front of an ascending list whose
      subjects are above `k` keeps it ascending. */
  lemma AscendingCons(e: JoyEvent, rest: seq<JoyEvent>)
    requires Ascending(rest) && SubjectsFrom(rest, Subject(e) + 1)
    ensures Ascending([e] + rest) && SubjectsFrom([e] + rest, Subject(e))
  {
    var evs := [e] + rest;
    forall i, j | 0 <= i < j < |evs|
      ensures Subject(evs[i]) < Subject(evs[j])
    {
      assert evs[j] == rest[j - 1];
      if i > 0 {
        assert evs[i] == rest[i - 1];
      }
    }
    forall j | 0 <= j < |evs|
      ensures Subject(e) <= Subject(evs[j])
    {
      if j > 0 {
        assert evs[j] == rest[j - 1];
      }
    }
  }

  /** The kind of an event, in the order an update posts the kinds. */
  function Rank(e: JoyEvent): nat
  {
    match e
    case AxisMotion(_, _) => 0
    case ButtonChange(_, _) => 1
    case HatMotion(_, _) => 2
  }

  /** Every event of the list has a kind between `lo` and `hi`. */
  predicate RanksIn(evs: seq<JoyEvent>, lo: nat, hi: nat)
  {
    forall j :: 0 <= j < |evs| ==> lo <= Rank(evs[j]) <= hi
  }

  /** Events ordered by kind, and within a kind by strictly ascending
      subject: so at most one event per axis, per button and per hat. */
  predicate Sorted(evs: seq<JoyEvent>)
  {
    forall i, j :: 0 <= i < j < |evs| ==>
      Rank(evs[i]) < Rank(evs[j]) || (Rank(evs[i]) == Rank(evs[j]) && Subject(evs[i]) < Subject(evs[j]))
  }

  lemma AscendingOneKindIsSorted(evs: seq<JoyEvent>, r: nat)
    requires Ascending(evs) && RanksIn(evs, r, r)
    ensures Sorted(evs)
  {
  }

  /** Putting an event of kind `r` in front of a list of that kind only. */
  lemma RanksCons(e: JoyEvent, rest: seq<JoyEvent>, r: nat)
    requires RanksIn(rest, r, r) && Rank(e) == r
    ensures RanksIn([e] + rest, r, r)
  {
    forall j | 0 <= j < |[e] + rest|
      ensures Rank(([e] + rest)[j]) == r
    {
      if j > 0 {
        assert ([e] + rest)[j] == rest[j - 1];
      }
    }
  }

  lemma SortedAppend(x: seq<JoyEvent>, y: seq<JoyEvent>, r: nat)
    requires Sorted(x) && Sorted(y) && RanksIn(x, 0, r) && RanksIn(y, r + 1, 2)
    ensures Sorted(x + y)
  {
    var z := x + y;
    forall i, j | 0 <= i < j < |z|
      ensures Rank(z[i]) < Rank(z[j]) || (Rank(z[i]) == Rank(z[j]) && Subject(z[i]) < Subject(z[j]))
    {
      if j < |x| {
        assert z[i] == x[i] && z[j] == x[j];
      } else if i < |x| {
        assert z[i] == x[i] && z[j] == y[j - |x|];
      } else {
        assert z[i] == y[i - |x|] && z[j] == y[j - |x|];
      }
    }
  }

  /** The table value of every axis byte of a reading. */
  function AxisValues(p: PadData): (vs: seq<int>)
    ensures |vs| == NUM_AXES
  {
    seq(NUM_AXES, a requires 0 <= a < NUM_AXES => AnalogMap(AxisBytes(p)[a]))
  }

  lemma AxisValuesEntry(p: PadData, a: nat)
    requires a < NUM_AXES
    ensures AxisValues(p)[a] == AnalogMap(AxisBytes(p)[a])
  {
  }

  /** One axis event for every axis from `k` on whose byte changed,
      carrying the axis value of the new byte. */
  function AxisEventsFrom(prev: seq<u8>, cur: seq<u8>, values: seq<int>, k: nat): seq<JoyEvent>
    requires |prev| == |cur| == |values| && k <= |cur|
    decreases |cur| - k
  {
    if k == |cur| then []
    else (if prev[k] != cur[k] then [AxisMotion(k, values[k])] else [])
         + AxisEventsFrom(prev, cur, values, k + 1)
  }

  lemma {:induction false} AxisEventsFromShape(prev: seq<u8>, cur: seq<u8>, values: seq<int>, k: nat)
    requires |prev| == |cur| == |values| && k <= |cur|
    ensures RanksIn(AxisEventsFrom(prev, cur, values, k), 0, 0)
    ensures SubjectsFrom(AxisEventsFrom(prev, cur, values, k), k)
    ensures Ascending(AxisEventsFrom(prev, cur, values, k))
    decreases |cur| - k
  {
    if k < |cur| {
      var rest := AxisEventsFrom(prev, cur, values, k + 1);
      AxisEventsFromShape(prev, cur, values, k + 1);
      if prev[k] != cur[k] {
        var e := AxisMotion(k, values[k]);
        AscendingCons(e, rest);
        RanksCons(e, rest, 0);
      } else {
        assert AxisEventsFrom(prev, cur, values, k) == rest;
      }
    }
  }

  lemma {:induction false} AxisEventsFromOnlyAxes(prev: seq<u8>, cur: seq<u8>, values: seq<int>, k: nat, e: JoyEvent)
    requires |prev| == |cur| == |values| && k <= |cur|
    requires !e.AxisMotion?
    ensures e !in AxisEventsFrom(prev, cur, values, k)
    decreases |cur| - k
  {
    if k < |cur| {
      AxisEventsFromOnlyAxes(prev, cur, values, k + 1, e);
    }
  }

  lemma {:induction false} AxisEventsFromMember(prev: seq<u8>, cur: seq<u8>, values: seq<int>, k: nat, a: nat, v: int)
    requires |prev| == |cur| == |values| && k <= |cur|
    ensures AxisMotion(a, v) in AxisEventsFrom(prev, cur, values, k) <==>
      k <= a < |cur| && prev[a] != cur[a] && v == values[a]
    decreases |cur| - k
  {
    if k < |cur| {
      var rest := AxisEventsFrom(prev, cur, values, k + 1);
      var head := if prev[k] != cur[k] then [AxisMotion(k, values[k])] else [];
      AxisEventsFromMember(prev, cur, values, k + 1, a, v);
      assert AxisEventsFrom(prev, cur, values, k) == head + rest;
      assert AxisMotion(a, v) in head <==> a == k && prev[k] != cur[k] && v == values[k];
    }
  }

  /** The axis part of an update: `PS5_JoystickUpdate`'s six comparisons. */
  function AxisEvents(prev: PadData, cur: PadData): seq<JoyEvent>
  {
    AxisEventsFrom(AxisBytes(prev), AxisBytes(cur), AxisValues(cur), 0)
  }

  /** `btn_map`: SDL button number to pad bit. Entry 5 (guide) is `-1`,
      that is, every bit. */
  const BTN_MAP: seq<bv32> := [
    BUTTON_CROSS, BUTTON_CIRCLE, BUTTON_SQUARE, BUTTON_TRIANGLE, BUTTON_OPTIONS,
    0xFFFF_FFFF,
    BUTTON_TOUCH_PAD, BUTTON_L3, BUTTON_R3, BUTTON_L1, BUTTON_R1,
    BUTTON_UP, BUTTON_DOWN, BUTTON_LEFT, BUTTON_RIGHT,
    BUTTON_L2, BUTTON_R2
  ]
  const NUM_BUTTONS: nat := 17
  const GUIDE_BUTTON: nat := 5

  function StateOf(held: bool): KeyState
  {
    if held then Pressed else Released
  }

  /** The bit test the button loop applies to every map entry: entry `i`
      is touched by `bits` when `bits & btn_map[i]` is non-zero. */
  function Touched(bits: bv32): (t: seq<bool>)
    ensures |t| == NUM_BUTTONS
  {
    seq(NUM_BUTTONS, i requires 0 <= i < NUM_BUTTONS => bits & BTN_MAP[i] != 0)
  }

  lemma TouchedEntry(bits: bv32, i: nat)
    requires i < NUM_BUTTONS
    ensures Touched(bits)[i] <==> bits & BTN_MAP[i] != 0
  {
  }

  /** One button event for every map entry from `i` on that the changed
      bits touch; it is a press when the entry is now held. */
  function ButtonEventsFrom(changed: seq<bool>, held: seq<bool>, i: nat): seq<JoyEvent>
    requires |changed| == |held| && i <= |changed|
    decreases |changed| - i
  {
    if i == |changed| then []
    else (if changed[i] then [ButtonChange(i, StateOf(held[i]))] else [])
         + ButtonEventsFrom(changed, held, i + 1)
  }

  lemma {:induction false} ButtonEventsFromShape(changed: seq<bool>, held: seq<bool>, i: nat)
    requires |changed| == |held| && i <= |changed|
    ensures RanksIn(ButtonEventsFrom(changed, held, i), 1, 1)
    ensures SubjectsFrom(ButtonEventsFrom(changed, held, i), i)
    ensures Ascending(ButtonEventsFrom(changed, held, i))
    decreases |changed| - i
  {
    if i < |changed| {
      var rest := ButtonEventsFrom(changed, held, i + 1);
      ButtonEventsFromShape(changed, held, i + 1);
      if changed[i] {
        var e := ButtonChange(i, StateOf(held[i]));
        AscendingCons(e, rest);
        RanksCons(e, rest, 1);
      } else {
        assert ButtonEventsFrom(changed, held, i) == rest;
      }
    }
  }

  lemma {:induction false} ButtonEventsFromOnlyButtons(changed: seq<bool>, held: seq<bool>, i: nat, e: JoyEvent)
    requires |changed| == |held| && i <= |changed|
    requires !e.ButtonChange?
    ensures e !in ButtonEventsFrom(changed, held, i)
    decreases |changed| - i
  {
    if i < |changed| {
      ButtonEventsFromOnlyButtons(changed, held, i + 1, e);
    }
  }

  lemma {:induction false} ButtonEventsFromMember(changed: seq<bool>, held: seq<bool>, i: nat, b: nat, s: KeyState)
    requires |changed| == |held| && i <= |changed|
    ensures ButtonChange(b, s) in ButtonEventsFrom(changed, held, i) <==>
      i <= b < |changed| && changed[b] && s == StateOf(held[b])
    decreases |changed| - i
  {
    if i < |changed| {
      var rest := ButtonEventsFrom(changed, held, i + 1);
      var head := if changed[i] then [ButtonChange(i, StateOf(held[i]))] else [];
      ButtonEventsFromMember(changed, held, i + 1, b, s);
      assert ButtonEventsFrom(changed, held, i) == head + rest;
      assert ButtonChange(b, s) in head <==> b == i && changed[i] && s == StateOf(held[i]);
    }
  }

  /** The direction the button loop adds to the hat for entry `i`: one of
      the d-pad entries 11 to 14, when it changed and is now held. */
  function HatBit(changed: seq<bool>, held: seq<bool>, i: nat): bv8
    requires |changed| == |held| && i < |changed|
  {
    if !changed[i] then HAT_CENTERED
    else if i == 11 && held[i] then HAT_UP
    else if i == 12 && held[i] then HAT_DOWN
    else if i == 13 && held[i] then HAT_LEFT
    else if i == 14 && held[i] then HAT_RIGHT
    else HAT_CENTERED
  }

  /** The hat value the button loop accumulates from entry `i` on. */
  function HatFrom(changed: seq<bool>, held: seq<bool>, i: nat, hat: bv8): bv8
    requires |changed| == |held| && i <= |changed|
    decreases |changed| - i
  {
    if i == |changed| then hat
    else HatFrom(changed, held, i + 1, hat | HatBit(changed, held, i))
  }

  lemma {:induction false} HatFromLeadingEntries(changed: seq<bool>, held: seq<bool>, i: nat, hat: bv8)
    requires |changed| == |held| && i <= 11 < |changed|
    ensures HatFrom(changed, held, i, hat) == HatFrom(changed, held, 11, hat)
    decreases 11 - i
  {
    if i < 11 {
      assert hat | HatBit(changed, held, i) == hat;
      HatFromLeadingEntries(changed, held, i + 1, hat);
    }
  }

  lemma {:induction false} HatFromTrailingEntries(changed: seq<bool>, held: seq<bool>, i: nat, hat: bv8)
    requires |changed| == |held| && 15 <= i <= |changed|
    ensures HatFrom(changed, held, i, hat) == hat
    decreases |changed| - i
  {
    if i < |changed| {
      assert hat | HatBit(changed, held, i) == hat;
      HatFromTrailingEntries(changed, held, i + 1, hat);
    }
  }

  /** Only the four d-pad entries contribute to the hat. */
  lemma HatFromDpad(changed: seq<bool>, held: seq<bool>)
    requires |changed| == |held| == NUM_BUTTONS
    ensures HatFrom(changed, held, 0, HAT_CENTERED) ==
      HatBit(changed, held, 11) | HatBit(changed, held, 12) | HatBit(changed, held, 13) | HatBit(changed, held, 14)
  {
    var h11 := HAT_CENTERED | HatBit(changed, held, 11);
    var h12 := h11 | HatBit(changed, held, 12);
    var h13 := h12 | HatBit(changed, held, 13);
    var h14 := h13 | HatBit(changed, held, 14);
    HatFromLeadingEntries(changed, held, 0, HAT_CENTERED);
    assert HatFrom(changed, held, 11, HAT_CENTERED) == HatFrom(changed, held, 12, h11);
    assert HatFrom(changed, held, 12, h11) == HatFrom(changed, held, 13, h12);
    assert HatFrom(changed, held, 13, h12) == HatFrom(changed, held, 14, h13);
    assert HatFrom(changed, held, 14, h13) == HatFrom(changed, held, 15, h14);
    HatFromTrailingEntries(changed, held, 15, h14);
  }

  /** The hat directions whose d-pad bits are set in `bits`. */
  function DpadHat(bits: bv32): bv8
  {
    (if bits & BUTTON_UP != 0 then HAT_UP else HAT_CENTERED)
    | (if bits & BUTTON_DOWN != 0 then HAT_DOWN else HAT_CENTERED)
    | (if bits & BUTTON_LEFT != 0 then HAT_LEFT else HAT_CENTERED)
    | (if bits & BUTTON_RIGHT != 0 then HAT_RIGHT else HAT_CENTERED)
  }

  /** A single d-pad bit is set in `change & cur` exactly when it is set in
      both. */
  lemma DpadHatOfBoth(change: bv32, cur: bv32)
    ensures DpadHat(change & cur) ==
      (if change & BUTTON_UP != 0 && cur & BUTTON_UP != 0 then HAT_UP else HAT_CENTERED)
      | (if change & BUTTON_DOWN != 0 && cur & BUTTON_DOWN != 0 then HAT_DOWN else HAT_CENTERED)
      | (if change & BUTTON_LEFT != 0 && cur & BUTTON_LEFT != 0 then HAT_LEFT else HAT_CENTERED)
      | (if change & BUTTON_RIGHT != 0 && cur & BUTTON_RIGHT != 0 then HAT_RIGHT else HAT_CENTERED)
  {
  }

  /** The map entries 11 to 14 are the d-pad bits. */
  lemma DpadEntries()
    ensures BTN_MAP[11] == BUTTON_UP && BTN_MAP[12] == BUTTON_DOWN
    ensures BTN_MAP[13] == BUTTON_LEFT && BTN_MAP[14] == BUTTON_RIGHT
  {
  }

  /** The hat value is the d-pad directions that are newly pressed:
      changed and now held. A direction held across the update is not
      reported, even though the hat event replaces the whole hat state. */
  lemma HatIsNewlyPressedDpad(change: bv32, cur: bv32)
    ensures HatFrom(Touched(change), Touched(cur), 0, HAT_CENTERED) == DpadHat(change & cur)
  {
    HatFromDpad(Touched(change), Touched(cur));
    DpadEntries();
    TouchedEntry(change, 11);
    TouchedEntry(cur, 11);
    TouchedEntry(change, 12);
    TouchedEntry(cur, 12);
    TouchedEntry(change, 13);
    TouchedEntry(cur, 13);
    TouchedEntry(change, 14);
    TouchedEntry(cur, 14);
    DpadHatOfBoth(change, cur);
  }

  /** The button part of an update: nothing when no bit changed, otherwise
      the button events followed by one event for hat 0. */
  function ButtonPart(anyChange: bool, changed: seq<bool>, held: seq<bool>): seq<JoyEvent>
    requires |changed| == |held|
  {
    if !anyChange then []
    else ButtonEventsFrom(changed, held, 0) + [HatMotion(0, HatFrom(changed, held, 0, HAT_CENTERED))]
  }

  /** The button part of an update is sorted and holds buttons and the hat
      only. */
  lemma ButtonPartSorted(anyChange: bool, changed: seq<bool>, held: seq<bool>)
    requires |changed| == |held|
    ensures Sorted(ButtonPart(anyChange, changed, held))
    ensures RanksIn(ButtonPart(anyChange, changed, held), 1, 2)
  {
    if anyChange {
      var buttons := ButtonEventsFrom(changed, held, 0);
      var hat := [HatMotion(0, HatFrom(changed, held, 0, HAT_CENTERED))];
      ButtonEventsFromShape(changed, held, 0);
      AscendingOneKindIsSorted(buttons, 1);
      SortedAppend(buttons, hat, 1);
    }
  }

  lemma ButtonPartHasNoAxis(anyChange: bool, changed: seq<bool>, held: seq<bool>, e: JoyEvent)
    requires |changed| == |held|
    requires e.AxisMotion?
    ensures e !in ButtonPart(anyChange, changed, held)
  {
    ButtonEventsFromOnlyButtons(changed, held, 0, e);
  }

  lemma ButtonPartMember(anyChange: bool, changed: seq<bool>, held: seq<bool>, b: nat, s: KeyState)
    requires |changed| == |held|
    ensures ButtonChange(b, s) in ButtonPart(anyChange, changed, held) <==>
      anyChange && b < |changed| && changed[b] && s == StateOf(held[b])
  {
    ButtonEventsFromMember(changed, held, 0, b, s);
  }

  lemma ButtonPartHat(anyChange: bool, changed: seq<bool>, held: seq<bool>, h: nat, d: bv8)
    requires |changed| == |held|
    ensures HatMotion(h, d) in ButtonPart(anyChange, changed, held) <==>
      anyChange && h == 0 && d == HatFrom(changed, held, 0, HAT_CENTERED)
  {
    ButtonEventsFromOnlyButtons(changed, held, 0, HatMotion(h, d));
  }

  /** All events of one successful update, in the order the driver posts
      them: axes, then (only when some button bit changed) buttons and the
      hat. */
  function PadEvents(prev: PadData, cur: PadData): seq<JoyEvent>
  {
    var change := prev.buttons ^ cur.buttons;
    AxisEvents(prev, cur) + ButtonPart(change != 0, Touched(change), Touched(cur.buttons))
  }

  lemma PadEventsSplit(prev: PadData, cur: PadData)
    ensures PadEvents(prev, cur) == AxisEvents(prev, cur)
      + ButtonPart(prev.buttons ^ cur.buttons != 0, Touched(prev.buttons ^ cur.buttons), Touched(cur.buttons))
  {
  }

  lemma AxisEventsMember(prev: PadData, cur: PadData, a: nat, v: int)
    ensures AxisMotion(a, v) in AxisEvents(prev, cur) <==>
      a < NUM_AXES && AxisBytes(prev)[a] != AxisBytes(cur)[a] && v == AxisValues(cur)[a]
  {
    AxisEventsFromMember(AxisBytes(prev), AxisBytes(cur), AxisValues(cur), 0, a, v);
  }

  lemma AxisEventsHaveOnlyAxes(prev: PadData, cur: PadData, e: JoyEvent)
    requires !e.AxisMotion?
    ensures e !in AxisEvents(prev, cur)
  {
    AxisEventsFromOnlyAxes(AxisBytes(prev), AxisBytes(cur), AxisValues(cur), 0, e);
  }

  /** An axis event is posted exactly for an axis whose byte changed, and
      carries the table value of the new byte. */
  lemma PadEventsAxis(prev: PadData, cur: PadData, a: nat, v: int)
    ensures AxisMotion(a, v) in PadEvents(prev, cur) <==>
      a < NUM_AXES && AxisBytes(prev)[a] != AxisBytes(cur)[a] && v == AnalogMap(AxisBytes(cur)[a])
  {
    var change := prev.buttons ^ cur.buttons;
    PadEventsSplit(prev, cur);
    AxisEventsMember(prev, cur, a, v);
    ButtonPartHasNoAxis(change != 0, Touched(change), Touched(cur.buttons), AxisMotion(a, v));
    if a < NUM_AXES {
      AxisValuesEntry(cur, a);
    }
  }

  lemma NothingTouchedByZero(b: nat)
    requires b < NUM_BUTTONS
    ensures !Touched(0)[b]
  {
  }

  /** Button events in terms of the bool views of the two words. */
  lemma PadEventsButtonTouched(prev: PadData, cur: PadData, b: nat, s: KeyState)
    ensures ButtonChange(b, s) in PadEvents(prev, cur) <==>
      b < NUM_BUTTONS && Touched(prev.buttons ^ cur.buttons)[b] && s == StateOf(Touched(cur.buttons)[b])
  {
    var change := prev.buttons ^ cur.buttons;
    PadEventsSplit(prev, cur);
    AxisEventsHaveOnlyAxes(prev, cur, ButtonChange(b, s));
    ButtonPartMember(change != 0, Touched(change), Touched(cur.buttons), b, s);
    if b < NUM_BUTTONS && change == 0 {
      NothingTouchedByZero(b);
    }
  }

  /** A characterisation through the bool views carries over to testing
      a map entry's bits directly. */
  lemma ButtonViewsToBits(a: bool, change: bv32, cur: bv32, b: nat, s: KeyState)
    requires a <==> b < NUM_BUTTONS && Touched(change)[b] && s == StateOf(Touched(cur)[b])
    ensures a <==> b < NUM_BUTTONS && change & BTN_MAP[b] != 0 && s == StateOf(cur & BTN_MAP[b] != 0)
  {
    if b < NUM_BUTTONS {
      TouchedEntry(change, b);
      TouchedEntry(cur, b);
    }
  }

  /** A button event is posted exactly for a map entry that the changed
      bits touch, and is a press exactly when the entry's bits are now
      held. */
  lemma PadEventsButton(prev: PadData, cur: PadData, b: nat, s: KeyState)
    ensures ButtonChange(b, s) in PadEvents(prev, cur) <==>
      b < NUM_BUTTONS && (prev.buttons ^ cur.buttons) & BTN_MAP[b] != 0
      && s == StateOf(cur.buttons & BTN_MAP[b] != 0)
  {
    PadEventsButtonTouched(prev, cur, b, s);
    ButtonViewsToBits(ButtonChange(b, s) in PadEvents(prev, cur), prev.buttons ^ cur.buttons, cur.buttons, b, s);
  }

  lemma XorZero(x: bv32, y: bv32)
    ensures x ^ y == 0 <==> x == y
  {
  }

  /** One hat event, for hat 0, is posted exactly when the changed bits
      are not all zero, and it carries the value the button loop built. */
  lemma HatEventCarriesLoopValue(prev: PadData, cur: PadData, h: nat, d: bv8)
    ensures HatMotion(h, d) in PadEvents(prev, cur) <==>
      prev.buttons ^ cur.buttons != 0 && h == 0
      && d == HatFrom(Touched(prev.buttons ^ cur.buttons), Touched(cur.buttons), 0, HAT_CENTERED)
  {
    var change := prev.buttons ^ cur.buttons;
    PadEventsSplit(prev, cur);
    AxisEventsHaveOnlyAxes(prev, cur, HatMotion(h, d));
    ButtonPartHat(change != 0, Touched(change), Touched(cur.buttons), h, d);
  }

  /** The loop's hat value for an update is the set of newly pressed d-pad
      directions. */
  lemma LoopHatOfUpdate(prev: PadData, cur: PadData)
    ensures HatFrom(Touched(prev.buttons ^ cur.buttons), Touched(cur.buttons), 0, HAT_CENTERED)
      == DpadHat((prev.buttons ^ cur.buttons) & cur.buttons)
  {
    HatIsNewlyPressedDpad(prev.buttons ^ cur.buttons, cur.buttons);
  }

  lemma HatEventOfChangedBits(prev: PadData, cur: PadData, h: nat, d: bv8)
    ensures HatMotion(h, d) in PadEvents(prev, cur) <==>
      prev.buttons ^ cur.buttons != 0 && h == 0 && d == DpadHat((prev.buttons ^ cur.buttons) & cur.buttons)
  {
    HatEventCarriesLoopValue(prev, cur, h, d);
    LoopHatOfUpdate(prev, cur);
  }

  /** One hat event, for hat 0, is posted exactly when the button word
      changed, and its value is the set of d-pad directions that are newly
      pressed: changed and now held. Directions held throughout are not
      reported. */
  lemma PadEventsHat(prev: PadData, cur: PadData, h: nat, d: bv8)
    ensures HatMotion(h, d) in PadEvents(prev, cur) <==>
      prev.buttons != cur.buttons && h == 0 && d == DpadHat((prev.buttons ^ cur.buttons) & cur.buttons)
  {
    HatEventOfChangedBits(prev, cur, h, d);
    XorZero(prev.buttons, cur.buttons);
    SwapCondition(HatMotion(h, d) in PadEvents(prev, cur), prev.buttons ^ cur.buttons != 0,
                  prev.buttons != cur.buttons, h == 0 && d == DpadHat((prev.buttons ^ cur.buttons) & cur.buttons));
  }

  /** Replacing one condition by an equivalent one keeps an equivalence. */
  lemma SwapCondition(a: bool, x: bool, y: bool, rest: bool)
    requires a <==> x && rest
    requires x <==> y
    ensures a <==> y && rest
  {
  }

  /** The events of an update are sorted: axes first, then buttons, then
      the hat, each kind in ascending order. */
  lemma PadEventsOrder(prev: PadData, cur: PadData)
    ensures Sorted(PadEvents(prev, cur))
  {
    var change := prev.buttons ^ cur.buttons;
    var axes := AxisEvents(prev, cur);
    PadEventsSplit(prev, cur);
    AxisEventsFromShape(AxisBytes(prev), AxisBytes(cur), AxisValues(cur), 0);
    AscendingOneKindIsSorted(axes, 0);
    ButtonPartSorted(change != 0, Touched(change), Touched(cur.buttons));
    SortedAppend(axes, ButtonPart(change != 0, Touched(change), Touched(cur.buttons)), 0);
  }

  lemma GuideEntryIsEveryBit(bits: bv32)
    ensures bits & BTN_MAP[GUIDE_BUTTON] == bits
  {
  }

  /** The guide entry covers every bit: any button change at all produces
      a guide event, pressed exactly when some button is held. */
  lemma GuideTracksAnyChange(prev: PadData, cur: PadData)
    requires prev.buttons != cur.buttons
    ensures ButtonChange(GUIDE_BUTTON, StateOf(cur.buttons != 0)) in PadEvents(prev, cur)
  {
    XorZero(prev.buttons, cur.buttons);
    GuideEntryIsEveryBit(prev.buttons ^ cur.buttons);
    GuideEntryIsEveryBit(cur.buttons);
    PadEventsButton(prev, cur, GUIDE_BUTTON, StateOf(cur.buttons != 0));
  }

  /** Holding up and then adding right reports only right on the hat. */
  lemma HatDropsHeldDirection(prev: PadData, cur: PadData)
    requires prev.buttons == BUTTON_UP && cur.buttons == BUTTON_UP | BUTTON_RIGHT
    ensures HatMotion(0, HAT_RIGHT) in PadEvents(prev, cur)
    ensures HatMotion(0, HAT_UP | HAT_RIGHT) !in PadEvents(prev, cur)
  {
    PadEventsHat(prev, cur, 0, HAT_RIGHT);
    PadEventsHat(prev, cur, 0, HAT_UP | HAT_RIGHT);
  }

  /** Reading the same state twice produces nothing. */
  lemma PadEventsOfUnchangedPad(p: PadData)
    ensures PadEvents(p, p) == []
  {
    AxisEventsFromShape(AxisBytes(p), AxisBytes(p), AxisValues(p), 0);
    var evs := AxisEvents(p, p);
    if evs != [] {
      assert Rank(evs[0]) == 0;
      assert evs[0] in evs;
      AxisEventsMember(p, p, evs[0].axis, evs[0].value);
    }
  }

  // ---------------------------------------------------------------------
  // The slot table
  // ---------------------------------------------------------------------

  /** The value `-1` the driver uses for "no user", "no handle" and "no
      instance". */
  const NONE_ID: int := -1

  /** `PS5_PadContext`: one slot per possible logged-in user. */
  datatype PadContext = PadContext(userId: int, handle: int, instanceId: int, pad: PadData)

  type Slots = s: seq<PadContext> | |s| == MAX_USERS
    witness [PadContext(-1, -1, -1, PadData(0, 0, 0, 0, 0, 0, 0))]
          + [PadContext(-1, -1, -1, PadData(0, 0, 0, 0, 0, 0, 0))]
          + [PadContext(-1, -1, -1, PadData(0, 0, 0, 0, 0, 0, 0))]
          + [PadContext(-1, -1, -1, PadData(0, 0, 0, 0, 0, 0, 0))]

  /** The bounds check every device-index entry point applies. */
  predicate ValidDeviceIndex(i: int)
  {
    0 <= i < MAX_USERS
  }

  /** `PS5_JoystickGetDeviceInstanceID`. */
  function GetDeviceInstanceId(slots: Slots, i: int): (id: int)
    ensures !ValidDeviceIndex(i) ==> id == NONE_ID
    ensures ValidDeviceIndex(i) ==> id == slots[i].instanceId
  {
    if ValidDeviceIndex(i) then slots[i].instanceId else NONE_ID
  }

  /** `PS5_JoystickGetDeviceName`: the same name for every valid index. */
  function GetDeviceName(i: int): (name: Option<string>)
    ensures name.None? <==> !ValidDeviceIndex(i)
    ensures name.Some? ==> name.value == "Sony DualSense"
  {
    if ValidDeviceIndex(i) then Some("Sony DualSense") else None
  }

  /** `PS5_JoystickGetDeviceGUID`: all zero, whatever the index. */
  function GetDeviceGuid(i: int): (guid: seq<u8>)
    ensures |guid| == 16
    ensures forall k :: 0 <= k < |guid| ==> guid[k] == 0
  {
    seq(16, _ => 0)
  }

  /** The indices of slots that hold a logged-in user. */
  ghost function Connected(slots: seq<PadContext>): set<nat>
  {
    set i: nat | i < |slots| && slots[i].userId != NONE_ID
  }

  /** `PS5_JoystickGetCount`: the number of occupied slots. */
  function CountConnected(slots: seq<PadContext>): (n: nat)
    ensures n <= |slots|
    ensures n == |Connected(slots)|
  {
    if slots == [] then 0
    else
      var init := slots[..|slots| - 1];
      var n0 := CountConnected(init);
      assert Connected(slots) == Connected(init) + (if slots[|slots| - 1].userId != NONE_ID then {|slots| - 1} else {});
      n0 + if slots[|slots| - 1].userId != NONE_ID then 1 else 0
  }

  /** `PS5_JoystickDetect`: a slot takes the logged-in id at its index only
      when it is empty and the id is not `-1`. A failed id query changes
      nothing. */
  function Detect(slots: Slots, loginIds: Option<seq<int>>): (r: (Slots, Status))
    requires loginIds.Some? ==> |loginIds.value| == MAX_USERS
    ensures loginIds.None? ==> r.0 == slots && r.1.Error?
    ensures loginIds.Some? ==> r.1 == Ok
    ensures forall i :: 0 <= i < MAX_USERS ==>
      r.0[i] == slots[i].(userId := r.0[i].userId)
    ensures forall i :: 0 <= i < MAX_USERS && slots[i].userId != NONE_ID ==>
      r.0[i].userId == slots[i].userId
    ensures loginIds.Some? ==> forall i :: 0 <= i < MAX_USERS && slots[i].userId == NONE_ID ==>
      r.0[i].userId == loginIds.value[i]
  {
    match loginIds
    case None => (slots, Error("sceUserServiceGetLoginUserIdList"))
    case Some(ids) =>
      var s := seq(MAX_USERS, i requires 0 <= i < MAX_USERS =>
        if ids[i] != NONE_ID && slots[i].userId == NONE_ID then slots[i].(userId := ids[i]) else slots[i]);
      (s, Ok)
  }

  /** Detecting twice with the same id list is the same as detecting once. */
  lemma DetectIdempotent(slots: Slots, ids: seq<int>)
    requires |ids| == MAX_USERS
    ensures Detect(Detect(slots, Some(ids)).0, Some(ids)).0 == Detect(slots, Some(ids)).0
  {
  }

  /** After a detection a slot is occupied exactly when it was occupied
      before or the id list has a user at its index. */
  lemma DetectConnects(slots: Slots, ids: seq<int>)
    requires |ids| == MAX_USERS
    ensures Connected(Detect(slots, Some(ids)).0)
         == Connected(slots) + set i: nat | i < MAX_USERS && ids[i] != NONE_ID
  {
  }

  /** `PS5_JoystickInit`'s outcome: the table after the call and its
      status. */
  datatype InitOutcome = InitOutcome(slots: Slots, status: Status)

  /** Every slot with its ids cleared and its last reading kept. */
  function ClearSlots(slots: Slots): (r: Slots)
    ensures forall i :: 0 <= i < MAX_USERS ==>
      r[i] == PadContext(NONE_ID, NONE_ID, NONE_ID, slots[i].pad)
  {
    seq(MAX_USERS, i requires 0 <= i < MAX_USERS => PadContext(NONE_ID, NONE_ID, NONE_ID, slots[i].pad))
  }

  /** `PS5_JoystickInit`, given the results of `sceUserServiceInitialize`,
      `scePadInit` and the login-id query. The table is cleared before
      either call can fail; success requires at least one detected user. */
  function JoystickInit(slots: Slots, userServiceErr: bv32, padInitErr: int, loginIds: Option<seq<int>>): (r: InitOutcome)
    requires loginIds.Some? ==> |loginIds.value| == MAX_USERS
    ensures r.status == Ok <==>
      UserServiceInitOk(userServiceErr) && padInitErr == 0 && CountConnected(r.slots) > 0
    ensures forall i :: 0 <= i < MAX_USERS ==>
      r.slots[i].handle == NONE_ID && r.slots[i].instanceId == NONE_ID && r.slots[i].pad == slots[i].pad
    ensures Connected(r.slots) ==
      if UserServiceInitOk(userServiceErr) && padInitErr == 0 && loginIds.Some?
      then set i: nat | i < MAX_USERS && loginIds.value[i] != NONE_ID
      else {}
  {
    var cleared := ClearSlots(slots);
    if !UserServiceInitOk(userServiceErr) then InitOutcome(cleared, Error("sceUserServiceInitialize"))
    else if padInitErr != 0 then InitOutcome(cleared, Error("scePadInit"))
    else
      var detected := Detect(cleared, loginIds).0;
      InitOutcome(detected, if CountConnected(detected) > 0 then Ok else Error(""))
  }

  /** The capabilities `PS5_JoystickOpen` reports for a new joystick. */
  datatype Capabilities = Capabilities(buttons: nat, axes: nat, hats: nat, instanceId: int)

  datatype OpenOutcome = OpenOutcome(slots: Slots, status: Status, caps: Option<Capabilities>)

  /** `PS5_JoystickOpen`, given the handle `scePadOpen` returns. The
      handle is stored even when it is an error code; only a successful
      open advances the slot's instance id. */
  function JoystickOpen(slots: Slots, index: int, openedHandle: int): (r: OpenOutcome)
    ensures r.status == Ok <==> ValidDeviceIndex(index) && openedHandle >= 0
    ensures r.caps.Some? <==> r.status == Ok
    ensures !ValidDeviceIndex(index) ==> r.slots == slots
    ensures ValidDeviceIndex(index) ==>
      && r.slots[index].handle == openedHandle
      && r.slots[index].userId == slots[index].userId
      && r.slots[index].pad == slots[index].pad
      && (forall j :: 0 <= j < MAX_USERS && j != index ==> r.slots[j] == slots[j])
    ensures ValidDeviceIndex(index) && openedHandle < 0 ==>
      r.slots[index].instanceId == slots[index].instanceId
    ensures r.caps.Some? ==>
      && r.slots[index].instanceId == slots[index].instanceId + 1
      && r.caps.value == Capabilities(|BTN_MAP|, NUM_AXES, 1, r.slots[index].instanceId)
  {
    if !ValidDeviceIndex(index) then OpenOutcome(slots, Error("PS5_JoystickOpen: Invalid device index"), None)
    else
      var withHandle := slots[index := slots[index].(handle := openedHandle)];
      if openedHandle < 0 then OpenOutcome(withHandle, Error("scePadOpen"), None)
      else
        var id := slots[index].instanceId + 1;
        OpenOutcome(withHandle[index := withHandle[index].(instanceId := id)], Ok,
                    Some(Capabilities(|BTN_MAP|, NUM_AXES, 1, id)))
  }

  /** The instance id an open reports is the one the device index then
      reports. */
  lemma OpenReportsInstanceId(slots: Slots, index: int, openedHandle: int)
    requires JoystickOpen(slots, index, openedHandle).status == Ok
    ensures var r := JoystickOpen(slots, index, openedHandle);
      r.caps.value.instanceId == GetDeviceInstanceId(r.slots, index)
  {
  }

  /** The first slot whose instance id is `id`. */
  function FindSlot(slots: seq<PadContext>, id: int): (k: Option<nat>)
    ensures k.Some? ==> k.value < |slots| && slots[k.value].instanceId == id
    ensures k.Some? ==> forall j :: 0 <= j < k.value ==> slots[j].instanceId != id
    ensures k.None? <==> forall j :: 0 <= j < |slots| ==> slots[j].instanceId != id
  {
    if slots == [] then None
    else if slots[0].instanceId == id then Some(0)
    else match FindSlot(slots[1..], id)
      case None => None
      case Some(k) => Some(k + 1)
  }

  /** The lookup depends only on the instance ids. */
  lemma FindSlotSameIds(a: seq<PadContext>, b: seq<PadContext>, id: int)
    requires |a| == |b|
    requires forall j :: 0 <= j < |a| ==> a[j].instanceId == b[j].instanceId
    ensures FindSlot(a, id) == FindSlot(b, id)
  {
    var ka, kb := FindSlot(a, id), FindSlot(b, id);
    if ka.Some? {
      assert b[ka.value].instanceId == id;
    }
    if kb.Some? {
      assert a[kb.value].instanceId == id;
    }
  }

  datatype CloseOutcome = CloseOutcome(slots: Slots, status: Status)

  /** `PS5_JoystickClose`, given the result of `scePadClose`. An unknown or
      negative instance id is ignored; otherwise the slot's handle is
      cleared even when the close call fails. */
  function JoystickClose(slots: Slots, instanceId: int, closeErr: int): (r: CloseOutcome)
    ensures FindSlot(slots, instanceId).None? || instanceId < 0 ==> r == CloseOutcome(slots, Ok)
    ensures FindSlot(slots, instanceId).Some? && instanceId >= 0 ==>
      var k := FindSlot(slots, instanceId).value;
      && r.slots == slots[k := slots[k].(handle := NONE_ID)]
      && (r.status == Ok <==> closeErr == 0)
  {
    var k := FindSlot(slots, instanceId);
    if k.None? || instanceId < 0 then CloseOutcome(slots, Ok)
    else CloseOutcome(slots[k.value := slots[k.value].(handle := NONE_ID)],
                      if closeErr != 0 then Error("scePadClose") else Ok)
  }

  /** Closing the joystick an open just created clears the handle of the
      opened slot, provided no lower slot shares its instance id. */
  lemma CloseAfterOpen(slots: Slots, index: int, openedHandle: int, closeErr: int)
    requires JoystickOpen(slots, index, openedHandle).status == Ok
    requires JoystickOpen(slots, index, openedHandle).caps.value.instanceId >= 0
    requires forall j :: 0 <= j < index ==> slots[j].instanceId != slots[index].instanceId + 1
    ensures var o := JoystickOpen(slots, index, openedHandle);
      var c := JoystickClose(o.slots, o.caps.value.instanceId, closeErr);
      c.slots[index].handle == NONE_ID
      && c.slots[index].instanceId == o.slots[index].instanceId
  {
    var o := JoystickOpen(slots, index, openedHandle);
    var k := FindSlot(o.slots, o.caps.value.instanceId);
    assert o.slots[index].instanceId == o.caps.value.instanceId;
    forall j | 0 <= j < index
      ensures o.slots[j].instanceId != o.caps.value.instanceId
    {
      assert o.slots[j] == slots[j];
    }
  }

  /** Slots are opened independently, so two pads each opened once after
      an init report the same instance id; every later lookup by that id
      finds the lower slot. */
  lemma OpenedPadsShareInstanceIds(slots: Slots, h0: int, h1: int)
    requires slots[0].instanceId == NONE_ID && slots[1].instanceId == NONE_ID
    requires h0 >= 0 && h1 >= 0
    ensures var o0 := JoystickOpen(slots, 0, h0);
      var o1 := JoystickOpen(o0.slots, 1, h1);
      && o0.caps == Some(Capabilities(NUM_BUTTONS, NUM_AXES, 1, 0))
      && o1.caps == Some(Capabilities(NUM_BUTTONS, NUM_AXES, 1, 0))
      && FindSlot(o1.slots, 0) == Some(0)
  {
  }

  datatype UpdateOutcome = UpdateOutcome(slots: Slots, events: seq<JoyEvent>, status: Status)

  /** `PS5_JoystickUpdate`, given the result of `scePadReadState` (`None`
      when the read fails). The slot is found by instance id; its stored
      reading is compared with the new one and then replaced by it. */
  function JoystickUpdate(slots: Slots, instanceId: int, read: Option<PadData>): (r: UpdateOutcome)
    ensures FindSlot(slots, instanceId).None? || instanceId < 0 || read.None? ==>
      r.slots == slots && r.events == [] && r.status.Error?
    ensures FindSlot(slots, instanceId).Some? && instanceId >= 0 && read.Some? ==>
      var k := FindSlot(slots, instanceId).value;
      && r.status == Ok
      && r.slots == slots[k := slots[k].(pad := read.value)]
      && r.events == PadEvents(slots[k].pad, read.value)
  {
    var k := FindSlot(slots, instanceId);
    if k.None? || instanceId < 0 then UpdateOutcome(slots, [], Error("PS5_JoystickUpdate: instance not connected"))
    else match read
      case None => UpdateOutcome(slots, [], Error("scePadReadState"))
      case Some(pad) =>
        UpdateOutcome(slots[k.value := slots[k.value].(pad := pad)], PadEvents(slots[k.value].pad, pad), Ok)
  }

  /** A second update that reads the same state as the first posts no
      events. */
  lemma RepeatedUpdateIsQuiet(slots: Slots, instanceId: int, pad: PadData)
    requires JoystickUpdate(slots, instanceId, Some(pad)).status == Ok
    ensures var u := JoystickUpdate(slots, instanceId, Some(pad));
      JoystickUpdate(u.slots, instanceId, Some(pad)) == UpdateOutcome(u.slots, [], Ok)
  {
    var u := JoystickUpdate(slots, instanceId, Some(pad));
    FindSlotSameIds(slots, u.slots, instanceId);
    PadEventsOfUnchangedPad(pad);
  }
}
