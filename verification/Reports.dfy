/** Boot-protocol reports decoded into input events: a virtual mouse and keyboard that follow the last report. */
module Reports {
  import opened Bytes

  // The uinput event log

  datatype Axis = RelX | RelY | RelWheel | RelHWheel

  datatype Event = Key(code: u16, pressed: bool) | Rel(axis: Axis, value: int) | Syn

  function MoveEvents(dx: int, dy: int): seq<Event> {
    (if dx != 0 then [Rel(RelX, dx)] else []) + (if dy != 0 then [Rel(RelY, dy)] else []) + [Syn]
  }

  function WheelEvents(dv: int, dh: int): seq<Event> {
    (if dv != 0 then [Rel(RelWheel, dv)] else []) + (if dh != 0 then [Rel(RelHWheel, dh)] else []) + [Syn]
  }

  class UinputDevice {
    var log: seq<Event>

    constructor ()
      ensures log == []
    {
      log := [];
    }

    method WriteEvent(e: Event)
      modifies this
      ensures log == old(log) + [e]
    {
      log := log + [e];
    }

    method MouseMove(dx: int, dy: int)
      modifies this
      ensures log == old(log) + MoveEvents(dx, dy)
    {
      if dx != 0 {
        WriteEvent(Rel(RelX, dx));
      }
      if dy != 0 {
        WriteEvent(Rel(RelY, dy));
      }
      WriteEvent(Syn);
    }

    method MouseWheel(dv: int, dh: int)
      modifies this
      ensures log == old(log) + WheelEvents(dv, dh)
    {
      if dv != 0 {
        WriteEvent(Rel(RelWheel, dv));
      }
      if dh != 0 {
        WriteEvent(Rel(RelHWheel, dh));
      }
      WriteEvent(Syn);
    }

    /** `key` and `mouse_button`: one key event and a sync. */
    method PressOrRelease(code: u16, pressed: bool)
      modifies this
      ensures log == old(log) + [Key(code, pressed), Syn]
    {
      WriteEvent(Key(code, pressed));
      WriteEvent(Syn);
    }
  }

  // Usages and codes

  const BUTTON_CODES: seq<u16> := [0x110, 0x111, 0x112, 0x113, 0x114]
  const MODIFIER_CODES: seq<u16> := [29, 42, 56, 125, 97, 54, 100, 126]
  const LETTER_CODES: seq<u16> := [
    30, 48, 46, 32, 18, 33, 34, 35, 23, 36, 37, 38, 50, 49, 24, 25, 16, 19, 31, 20, 22, 47, 17, 45, 21, 44]

  /** `hid_usage_to_linux_key`. */
  function KeyCode(usage: byte): Option<u16> {
    if 0x04 <= usage <= 0x1D then Some(LETTER_CODES[usage - 0x04])
    else if 0x1E <= usage <= 0x27 then Some(usage - 0x1E + 2)
    else if 0x3A <= usage <= 0x45 then Some(59 + (usage - 0x3A))
    else
      match usage
      case 0x28 => Some(28)
      case 0x29 => Some(1)
      case 0x2A => Some(14)
      case 0x2B => Some(15)
      case 0x2C => Some(57)
      case 0x2D => Some(12)
      case 0x2E => Some(13)
      case 0x2F => Some(26)
      case 0x30 => Some(27)
      case 0x31 => Some(43)
      case 0x33 => Some(39)
      case 0x34 => Some(40)
      case 0x35 => Some(41)
      case 0x36 => Some(51)
      case 0x37 => Some(52)
      case 0x38 => Some(53)
      case 0x39 => Some(58)
      case 0x4F => Some(106)
      case 0x50 => Some(105)
      case 0x51 => Some(108)
      case 0x52 => Some(103)
      case _ => None
  }

  /** The key code of a letter, by its row and place on a QWERTY keyboard. */
  lemma LettersFollowRows(i: nat)
    ensures i < 10 ==> KeyCode(0x04 + ("qwertyuiop"[i] - 'a') as int) == Some(16 + i)
    ensures i < 9 ==> KeyCode(0x04 + ("asdfghjkl"[i] - 'a') as int) == Some(30 + i)
    ensures i < 7 ==> KeyCode(0x04 + ("zxcvbnm"[i] - 'a') as int) == Some(44 + i)
  {
  }

  /** The other keys that complete the four rows, those around them, the function keys and the arrows; and no more. */
  lemma OtherKeysFollowRows(u: byte)
    ensures 0x1E <= u <= 0x27 ==> KeyCode(u) == Some(u - 0x1E + 2)
    ensures KeyCode(0x2D) == Some(12) && KeyCode(0x2E) == Some(13)
    ensures KeyCode(0x2F) == Some(26) && KeyCode(0x30) == Some(27)
    ensures KeyCode(0x33) == Some(39) && KeyCode(0x34) == Some(40) && KeyCode(0x35) == Some(41)
    ensures KeyCode(0x31) == Some(43)
    ensures KeyCode(0x36) == Some(51) && KeyCode(0x37) == Some(52) && KeyCode(0x38) == Some(53)
    ensures KeyCode(0x29) == Some(1) && KeyCode(0x2A) == Some(14) && KeyCode(0x2B) == Some(15)
    ensures KeyCode(0x28) == Some(28) && KeyCode(0x2C) == Some(57) && KeyCode(0x39) == Some(58)
    ensures 0x3A <= u <= 0x45 ==> KeyCode(u) == Some(u - 0x3A + 59)
    ensures KeyCode(0x4F) == Some(106) && KeyCode(0x50) == Some(105)
    ensures KeyCode(0x51) == Some(108) && KeyCode(0x52) == Some(103)
    ensures KeyCode(u).None? <==> u < 0x04 || u == 0x32 || 0x45 < u < 0x4F || u > 0x52
  {
  }

  lemma LettersDistinct(i: nat, j: nat)
    requires i < j < 26
    ensures LETTER_CODES[i] != LETTER_CODES[j]
  {
  }

  lemma LetterRange(i: nat)
    requires i < 26
    ensures 16 <= LETTER_CODES[i] <= 50
    ensures LETTER_CODES[i] !in [28, 26, 27, 43, 39, 40, 41]
    ensures LETTER_CODES[i] !in MODIFIER_CODES
  {
  }

  predicate IsLetter(usage: byte) { 0x04 <= usage <= 0x1D }

  /** The other keys keep out of the letters' codes. */
  lemma OtherRange(u: byte)
    requires KeyCode(u).Some? && !IsLetter(u)
    ensures KeyCode(u).value < 16 || KeyCode(u).value > 50 || KeyCode(u).value in [28, 26, 27, 43, 39, 40, 41]
  {
  }

  lemma OthersDistinct(u: byte, v: byte)
    requires KeyCode(u).Some? && KeyCode(u) == KeyCode(v) && !IsLetter(u) && !IsLetter(v)
    ensures u == v
  {
  }

  lemma LetterCode(u: byte)
    requires IsLetter(u)
    ensures KeyCode(u) == Some(LETTER_CODES[u - 0x04])
  {
  }

  /** The usage table is injective, so a held key is held by one usage only. */
  lemma KeyCodeInjective(u: byte, v: byte)
    requires KeyCode(u).Some? && KeyCode(u) == KeyCode(v)
    ensures u == v
  {
    hide KeyCode;
    if IsLetter(u) {
      LetterCode(u);
      LetterRange(u - 0x04);
    } else {
      OtherRange(u);
    }
    if IsLetter(v) {
      LetterCode(v);
      LetterRange(v - 0x04);
    } else {
      OtherRange(v);
    }
    if !IsLetter(u) && !IsLetter(v) {
      OthersDistinct(u, v);
    } else if IsLetter(u) && IsLetter(v) && u != v {
      LettersDistinct(Min(u - 0x04, v - 0x04), if u < v then v - 0x04 else u - 0x04);
    }
  }

  /** No usage maps to a modifier or a mouse button. */
  lemma KeyCodeDisjoint(u: byte)
    requires KeyCode(u).Some?
    ensures KeyCode(u).value !in MODIFIER_CODES && KeyCode(u).value !in BUTTON_CODES
  {
    if 0x04 <= u <= 0x1D {
      LetterRange(u - 0x04);
    }
  }

  // Decoding one report

  type Keys = s: seq<byte> | |s| == 6 witness [0, 0, 0, 0, 0, 0]

  /** The statics `PREV`, `PREV_MOD` and `PREV_KEYS`. */
  datatype Prev = Prev(buttons: byte, modifier: byte, keys: Keys)

  const FRESH := Prev(0, 0, [0, 0, 0, 0, 0, 0])

  /** One event pair for each bit from `i` on that differs. */
  function BitEdges(codes: seq<u16>, was: byte, now: byte, i: nat): seq<Event>
    requires i <= |codes| <= 8
    decreases |codes| - i
  {
    if i == |codes| then []
    else if Bit(was, i) != Bit(now, i) then [Key(codes[i], Bit(now, i)), Syn] + BitEdges(codes, was, now, i + 1)
    else BitEdges(codes, was, now, i + 1)
  }

  /** `k` takes part in an edge against the other report: nonzero, absent there, and mapped. */
  predicate Moves(k: byte, other: seq<byte>) {
    k != 0 && k !in other && KeyCode(k).Some?
  }

  function KeyEdges(ks: seq<byte>, other: seq<byte>, pressed: bool, i: nat): seq<Event>
    requires i <= |ks|
    decreases |ks| - i
  {
    if i == |ks| then []
    else if Moves(ks[i], other) then
      [Key(KeyCode(ks[i]).value, pressed), Syn] + KeyEdges(ks, other, pressed, i + 1)
    else KeyEdges(ks, other, pressed, i + 1)
  }

  function Delta(body: bytes, i: nat): int {
    if |body| > i then Signed(body[i]) else 0
  }

  function MotionEvents(body: bytes): seq<Event> {
    (if Delta(body, 1) != 0 || Delta(body, 2) != 0 then MoveEvents(Delta(body, 1), Delta(body, 2)) else []) +
    (if Delta(body, 3) != 0 then WheelEvents(Delta(body, 3), 0) else [])
  }

  predicate IsKeyboard(body: bytes) { |body| == 8 }

  predicate IsMouse(body: bytes) { body != [] && |body| != 8 }

  function KeyboardEvents(p: Prev, body: bytes): seq<Event>
    requires IsKeyboard(body)
  {
    BitEdges(MODIFIER_CODES, p.modifier, body[0], 0) +
    KeyEdges(p.keys, body[2..], false, 0) + KeyEdges(body[2..], p.keys, true, 0)
  }

  function ReportEvents(p: Prev, body: bytes): seq<Event> {
    if IsKeyboard(body) then KeyboardEvents(p, body)
    else if IsMouse(body) then BitEdges(BUTTON_CODES, p.buttons, body[0], 0) + MotionEvents(body)
    else []
  }

  function Next(p: Prev, body: bytes): Prev {
    if IsKeyboard(body) then p.(modifier := body[0], keys := body[2..])
    else if IsMouse(body) then p.(buttons := body[0])
    else p
  }

  class ReportDecoder {
    var prev: byte
    var prevMod: byte
    var prevKeys: Keys

    constructor ()
      ensures Value() == FRESH
    {
      prev, prevMod, prevKeys := 0, 0, [0, 0, 0, 0, 0, 0];
    }

    function Value(): Prev
      reads this
    {
      Prev(prev, prevMod, prevKeys)
    }

    method ApplyReport(device: UinputDevice, body: bytes)
      modifies this, device
      ensures device.log == old(device.log) + ReportEvents(old(Value()), body)
      ensures Value() == Next(old(Value()), body)
    {
      hide KeyboardEvents, BitEdges, MotionEvents;
      if body == [] {
        return;
      }
      if |body| <= 5 {
        ApplyMouseReport(device, body);
      } else if |body| == 8 {
        ApplyKeyboardReport(device, body);
      } else {
        ApplyMouseReport(device, body);
      }
    }

    method ApplyMouseReport(device: UinputDevice, body: bytes)
      requires body != []
      modifies this`prev, device
      ensures device.log == old(device.log) + BitEdges(BUTTON_CODES, old(prev), body[0], 0) + MotionEvents(body)
      ensures prev == body[0]
    {
      var buttons := body[0];
      EmitBitEdges(device, BUTTON_CODES, prev, buttons);
      prev := buttons;
      var dx, dy, wheel := Delta(body, 1), Delta(body, 2), Delta(body, 3);
      if dx != 0 || dy != 0 {
        device.MouseMove(dx, dy);
      }
      if wheel != 0 {
        device.MouseWheel(wheel, 0);
      }
    }

    method ApplyKeyboardReport(device: UinputDevice, body: bytes)
      requires IsKeyboard(body)
      modifies this`prevMod, this`prevKeys, device
      ensures device.log == old(device.log) + KeyboardEvents(old(Value()), body)
      ensures prevMod == body[0] && prevKeys == body[2..]
    {
      hide BitEdges, KeyEdges;
      var keys: Keys := [body[2], body[3], body[4], body[5], body[6], body[7]];
      assert keys == body[2..];
      EmitBitEdges(device, MODIFIER_CODES, prevMod, body[0]);
      EmitKeyEdges(device, prevKeys, keys, false);
      EmitKeyEdges(device, keys, prevKeys, true);
      prevMod, prevKeys := body[0], keys;
    }

    method EmitBitEdges(device: UinputDevice, codes: seq<u16>, was: byte, now: byte)
      requires |codes| <= 8
      modifies device
      ensures device.log == old(device.log) + BitEdges(codes, was, now, 0)
    {
      hide Bit;
      var i := 0;
      while i < |codes|
        invariant 0 <= i <= |codes|
        invariant device.log + BitEdges(codes, was, now, i) == old(device.log) + BitEdges(codes, was, now, 0)
      {
        ghost var before, rest := device.log, BitEdges(codes, was, now, i + 1);
        if Bit(was, i) != Bit(now, i) {
          device.PressOrRelease(codes[i], Bit(now, i));
          ghost var pair := [Key(codes[i], Bit(now, i)), Syn];
          assert before + pair + rest == before + (pair + rest);
        }
        i := i + 1;
      }
    }

    method EmitKeyEdges(device: UinputDevice, ks: seq<byte>, other: seq<byte>, pressed: bool)
      modifies device
      ensures device.log == old(device.log) + KeyEdges(ks, other, pressed, 0)
    {
      hide KeyCode;
      var i := 0;
      while i < |ks|
        invariant 0 <= i <= |ks|
        invariant device.log + KeyEdges(ks, other, pressed, i) == old(device.log) + KeyEdges(ks, other, pressed, 0)
      {
        ghost var before, rest := device.log, KeyEdges(ks, other, pressed, i + 1);
        var k := ks[i];
        if k != 0 && k !in other {
          var code := KeyCode(k);
          if code.Some? {
            device.PressOrRelease(code.value, pressed);
            assert before + [Key(code.value, pressed), Syn] + rest == before + ([Key(code.value, pressed), Syn] + rest);
          }
        }
        i := i + 1;
      }
    }
  }

  // What a log means: the keys held down, the motion so far, the grouping by sync records.

  function Set(h: set<u16>, code: u16, pressed: bool): set<u16> {
    if pressed then h + {code} else h - {code}
  }

  function Held(h: set<u16>, events: seq<Event>): set<u16>
    decreases |events|
  {
    if events == [] then h
    else if events[0].Key? then Held(Set(h, events[0].code, events[0].pressed), events[1..])
    else Held(h, events[1..])
  }

  /** Every key event changes the state of its key. */
  predicate Toggles(h: set<u16>, events: seq<Event>)
    decreases |events|
  {
    if events == [] then true
    else if events[0].Key? then
      (events[0].code in h <==> !events[0].pressed) && Toggles(Set(h, events[0].code, events[0].pressed), events[1..])
    else Toggles(h, events[1..])
  }

  function Travel(events: seq<Event>, axis: Axis): int {
    if events == [] then 0
    else (if events[0].Rel? && events[0].axis == axis then events[0].value else 0) + Travel(events[1..], axis)
  }

  /** Every sync closes a group that is not empty, and nothing is left unsynced. */
  predicate Grouped(events: seq<Event>, open: bool) {
    if events == [] then !open
    else if events[0] == Syn then open && Grouped(events[1..], false)
    else Grouped(events[1..], true)
  }

  lemma {:induction false} HeldConcat(h: set<u16>, a: seq<Event>, b: seq<Event>)
    ensures Held(h, a + b) == Held(Held(h, a), b)
    ensures Toggles(h, a + b) <==> Toggles(h, a) && Toggles(Held(h, a), b)
    decreases |a|
  {
    if a == [] {
      assert a + b == b;
    } else {
      HeadTail(a, b);
      HeldConcat(if a[0].Key? then Set(h, a[0].code, a[0].pressed) else h, a[1..], b);
    }
  }

  lemma {:induction false} TravelConcat(a: seq<Event>, b: seq<Event>, axis: Axis)
    ensures Travel(a + b, axis) == Travel(a, axis) + Travel(b, axis)
  {
    if a == [] {
      assert a + b == b;
    } else {
      HeadTail(a, b);
      TravelConcat(a[1..], b, axis);
    }
  }

  lemma {:induction false} GroupedConcat(a: seq<Event>, b: seq<Event>, open: bool)
    requires Grouped(a, open) && Grouped(b, false)
    ensures Grouped(a + b, open)
    decreases |a|
  {
    if a == [] {
      assert a + b == b;
    } else {
      HeadTail(a, b);
      GroupedConcat(a[1..], b, a[0] != Syn);
    }
  }

  /** Moves nothing along any axis, and is synced. */
  predicate Still(events: seq<Event>) {
    Grouped(events, false) && forall axis :: Travel(events, axis) == 0
  }

  /** The event pair of one key, in front of other events. */
  lemma Pair(h: set<u16>, code: u16, pressed: bool, rest: seq<Event>)
    ensures var e := [Key(code, pressed), Syn] + rest;
            && Held(h, e) == Held(Set(h, code, pressed), rest)
            && (Toggles(h, e) <==> (code in h <==> !pressed) && Toggles(Set(h, code, pressed), rest))
            && (Still(rest) ==> Still(e))
  {
    var e := [Key(code, pressed), Syn] + rest;
    assert e[1..] == [Syn] + rest && e[1..][1..] == rest;
    forall axis ensures Travel(e, axis) == Travel(rest, axis) {
    }
  }

  predicate Distinct(codes: seq<u16>) {
    forall i, j | 0 <= i < j < |codes| :: codes[i] != codes[j]
  }

  /** Bit edges carry a bitmap from its old value to its new one, touch nothing else, and never repeat a state. */
  lemma {:induction false} BitEdgesApplied(h: set<u16>, codes: seq<u16>, was: byte, now: byte, i: nat)
    requires i <= |codes| <= 8 && Distinct(codes)
    requires forall j | i <= j < |codes| :: codes[j] in h <==> Bit(was, j)
    ensures var e := BitEdges(codes, was, now, i);
            && (forall j | i <= j < |codes| :: codes[j] in Held(h, e) <==> Bit(now, j))
            && (forall x: u16 | x !in codes[i..] :: x in Held(h, e) <==> x in h)
            && Toggles(h, e) && Still(e)
    decreases |codes| - i
  {
    hide Bit, Held, Toggles, Still;
    if i == |codes| {
      NoEvents(h);
    } else {
      var changed := Bit(was, i) != Bit(now, i);
      var after := if changed then Set(h, codes[i], Bit(now, i)) else h;
      BitEdgesApplied(after, codes, was, now, i + 1);
      if changed {
        Pair(h, codes[i], Bit(now, i), BitEdges(codes, was, now, i + 1));
      }
      assert codes[i..] == [codes[i]] + codes[i + 1..];
      assert codes[i] !in codes[i + 1..];
    }
  }

  lemma NoEvents(h: set<u16>)
    ensures Held(h, []) == h && Toggles(h, []) && Still([])
  {
  }

  /** Slot `i` or a later one holds a usage that moves and maps to `x`. */
  predicate Emits(ks: seq<byte>, other: seq<byte>, i: nat, x: u16) {
    exists j :: i <= j < |ks| && Moves(ks[j], other) && KeyCode(ks[j]) == Some(x)
  }

  /** No moving usage is repeated among the slots from `i` on. */
  predicate NoRepeat(ks: seq<byte>, other: seq<byte>, i: nat) {
    forall j, k | i <= j < k < |ks| :: Moves(ks[j], other) ==> ks[j] != ks[k]
  }

  /** A repeated usage is emitted again later, and only a repeated one is. */
  lemma RepeatEmits(ks: seq<byte>, other: seq<byte>, i: nat)
    requires i < |ks| && Moves(ks[i], other)
    ensures NoRepeat(ks, other, i) <==> NoRepeat(ks, other, i + 1) && !Emits(ks, other, i + 1, KeyCode(ks[i]).value)
  {
    hide KeyCode;
    if Emits(ks, other, i + 1, KeyCode(ks[i]).value) {
      var j :| i + 1 <= j < |ks| && Moves(ks[j], other) && KeyCode(ks[j]) == Some(KeyCode(ks[i]).value);
      KeyCodeInjective(ks[i], ks[j]);
    }
  }

  /** All the keys still to be emitted from slot `i` on are in the state opposite to `pressed`. */
  predicate Opposed(h: set<u16>, ks: seq<byte>, other: seq<byte>, pressed: bool, i: nat) {
    forall x: u16 | Emits(ks, other, i, x) :: x in h <==> !pressed
  }

  /** Key edges set the keys of the moving usages to `pressed` and touch no other. */
  lemma {:induction false} KeyEdgesApplied(h: set<u16>, ks: seq<byte>, other: seq<byte>, pressed: bool, i: nat)
    requires i <= |ks|
    ensures var e := KeyEdges(ks, other, pressed, i);
            && (forall x: u16 :: x in Held(h, e) <==> if Emits(ks, other, i, x) then pressed else x in h)
            && Still(e)
    decreases |ks| - i
  {
    hide KeyCode, Held, Toggles, Still;
    if i == |ks| {
      NoEvents(h);
    } else {
      var k := ks[i];
      var rest := KeyEdges(ks, other, pressed, i + 1);
      if Moves(k, other) {
        Pair(h, KeyCode(k).value, pressed, rest);
        KeyEdgesApplied(Set(h, KeyCode(k).value, pressed), ks, other, pressed, i + 1);
      } else {
        KeyEdgesApplied(h, ks, other, pressed, i + 1);
      }
    }
  }

  /** Each of these events is a change iff it starts from the opposite state and no moving usage repeats. */
  lemma {:induction false} KeyEdgesToggle(h: set<u16>, ks: seq<byte>, other: seq<byte>, pressed: bool, i: nat)
    requires i <= |ks|
    ensures Opposed(h, ks, other, pressed, i) ==>
              (Toggles(h, KeyEdges(ks, other, pressed, i)) <==> NoRepeat(ks, other, i))
    ensures Toggles(h, KeyEdges(ks, other, pressed, i)) ==> Opposed(h, ks, other, pressed, i)
    decreases |ks| - i
  {
    hide KeyCode, Held, Toggles, Still;
    if i == |ks| {
      NoEvents(h);
    } else {
      var k := ks[i];
      var rest := KeyEdges(ks, other, pressed, i + 1);
      if Moves(k, other) {
        Pair(h, KeyCode(k).value, pressed, rest);
        var after := Set(h, KeyCode(k).value, pressed);
        KeyEdgesToggle(after, ks, other, pressed, i + 1);
        RepeatEmits(ks, other, i);
        if Toggles(h, [Key(KeyCode(k).value, pressed), Syn] + rest) {
          forall x: u16 | Emits(ks, other, i, x) ensures x in h <==> !pressed {
            assert x != KeyCode(k).value ==> Emits(ks, other, i + 1, x);
          }
        }
      } else {
        KeyEdgesToggle(h, ks, other, pressed, i + 1);
      }
    }
  }

  // The virtual device stands for the last reports

  /** Code `x` is down according to a bitmap of buttons or modifiers. */
  predicate Bits(codes: seq<u16>, b: byte, x: u16)
    requires |codes| <= 8
  {
    exists i :: 0 <= i < |codes| && codes[i] == x && Bit(b, i)
  }

  /** Code `x` is down according to the key slots. */
  predicate Mapped(ks: seq<byte>, x: u16) {
    exists k :: k in ks && k != 0 && KeyCode(k) == Some(x)
  }

  /** Code `x` is down according to the remembered reports. */
  predicate Down(p: Prev, x: u16) {
    Bits(BUTTON_CODES, p.buttons, x) || Bits(MODIFIER_CODES, p.modifier, x) || Mapped(p.keys, x)
  }

  /** Held are exactly the buttons, the modifiers and the mapped usages of the last reports. */
  predicate Follows(h: set<u16>, p: Prev) {
    forall x: u16 :: x in h <==> Down(p, x)
  }

  lemma CodesDistinct()
    ensures Distinct(BUTTON_CODES) && Distinct(MODIFIER_CODES)
    ensures forall x | x in BUTTON_CODES :: x !in MODIFIER_CODES
  {
  }

  /** Each code is a modifier, a button or a mapped usage, and only one of the three. */
  lemma OneSource(p: Prev, x: u16)
    ensures x in MODIFIER_CODES ==> !Bits(BUTTON_CODES, p.buttons, x) && !Mapped(p.keys, x)
    ensures x in BUTTON_CODES ==> !Bits(MODIFIER_CODES, p.modifier, x) && !Mapped(p.keys, x)
    ensures x !in MODIFIER_CODES ==> !Bits(MODIFIER_CODES, p.modifier, x)
    ensures x !in BUTTON_CODES ==> !Bits(BUTTON_CODES, p.buttons, x)
  {
    hide KeyCode, Bit;
    CodesDistinct();
    if Mapped(p.keys, x) {
      var k :| k in p.keys && k != 0 && KeyCode(k) == Some(x);
      KeyCodeDisjoint(k);
    }
  }

  lemma BitsAt(codes: seq<u16>, b: byte, i: nat)
    requires i < |codes| <= 8 && Distinct(codes)
    ensures Bits(codes, b, codes[i]) <==> Bit(b, i)
  {
    hide Bit;
  }

  /** A usage that moves against the other report is mapped here and not there. */
  lemma EmitsMapped(ks: seq<byte>, other: seq<byte>, x: u16)
    ensures Emits(ks, other, 0, x) <==> Mapped(ks, x) && !Mapped(other, x)
  {
    hide KeyCode;
    if Emits(ks, other, 0, x) {
      var j :| 0 <= j < |ks| && Moves(ks[j], other) && KeyCode(ks[j]) == Some(x);
      if Mapped(other, x) {
        var k :| k in other && k != 0 && KeyCode(k) == Some(x);
        KeyCodeInjective(ks[j], k);
      }
    }
    if Mapped(ks, x) && !Mapped(other, x) {
      var k :| k in ks && k != 0 && KeyCode(k) == Some(x);
      var j :| 0 <= j < |ks| && ks[j] == k;
      assert Moves(ks[j], other);
    }
  }

  /** No usage appears twice among those a report presses or releases against another. */
  predicate Clean(before: seq<byte>, after: seq<byte>) {
    NoRepeat(before, after, 0) && NoRepeat(after, before, 0)
  }

  lemma ButtonsFollow(h: set<u16>, p: Prev, now: byte)
    requires Follows(h, p)
    ensures var e := BitEdges(BUTTON_CODES, p.buttons, now, 0);
            Follows(Held(h, e), p.(buttons := now)) && Toggles(h, e) && Still(e)
  {
    hide BitEdges, Held, Toggles, Still, Bit, Bits, Mapped;
    CodesDistinct();
    var e, q := BitEdges(BUTTON_CODES, p.buttons, now, 0), p.(buttons := now);
    forall j | 0 <= j < |BUTTON_CODES| ensures BUTTON_CODES[j] in h <==> Bit(p.buttons, j) {
      OneSource(p, BUTTON_CODES[j]);
      BitsAt(BUTTON_CODES, p.buttons, j);
    }
    BitEdgesApplied(h, BUTTON_CODES, p.buttons, now, 0);
    assert BUTTON_CODES[0..] == BUTTON_CODES;
    forall x: u16
      ensures x in Held(h, e) <==> Down(q, x)
    {
      OneSource(p, x);
      OneSource(q, x);
      if x in BUTTON_CODES {
        var i :| 0 <= i < |BUTTON_CODES| && BUTTON_CODES[i] == x;
        BitsAt(BUTTON_CODES, now, i);
      }
    }
  }

  lemma ModifiersFollow(h: set<u16>, p: Prev, now: byte)
    requires Follows(h, p)
    ensures var e := BitEdges(MODIFIER_CODES, p.modifier, now, 0);
            Follows(Held(h, e), p.(modifier := now)) && Toggles(h, e) && Still(e)
  {
    hide BitEdges, Held, Toggles, Still, Bit, Bits, Mapped;
    CodesDistinct();
    var e, q := BitEdges(MODIFIER_CODES, p.modifier, now, 0), p.(modifier := now);
    forall j | 0 <= j < |MODIFIER_CODES| ensures MODIFIER_CODES[j] in h <==> Bit(p.modifier, j) {
      OneSource(p, MODIFIER_CODES[j]);
      BitsAt(MODIFIER_CODES, p.modifier, j);
    }
    BitEdgesApplied(h, MODIFIER_CODES, p.modifier, now, 0);
    assert MODIFIER_CODES[0..] == MODIFIER_CODES;
    forall x: u16
      ensures x in Held(h, e) <==> Down(q, x)
    {
      OneSource(p, x);
      OneSource(q, x);
      if x in MODIFIER_CODES {
        var i :| 0 <= i < |MODIFIER_CODES| && MODIFIER_CODES[i] == x;
        BitsAt(MODIFIER_CODES, now, i);
      }
    }
  }

  lemma KeysFollow(h: set<u16>, p: Prev, keys: Keys)
    requires Follows(h, p)
    ensures var e := KeyEdges(p.keys, keys, false, 0) + KeyEdges(keys, p.keys, true, 0);
            && Follows(Held(h, e), p.(keys := keys)) && Still(e)
            && (Toggles(h, e) <==> Clean(p.keys, keys))
  {
    hide KeyEdges, Held, Toggles, Bit, Bits, Mapped, KeyCode, Emits, NoRepeat;
    var up, down, q := KeyEdges(p.keys, keys, false, 0), KeyEdges(keys, p.keys, true, 0), p.(keys := keys);
    var mid := Held(h, up);
    KeyEdgesApplied(h, p.keys, keys, false, 0);
    KeyEdgesApplied(mid, keys, p.keys, true, 0);
    forall x: u16
      ensures Emits(p.keys, keys, 0, x) <==> Mapped(p.keys, x) && !Mapped(keys, x)
      ensures Emits(keys, p.keys, 0, x) <==> Mapped(keys, x) && !Mapped(p.keys, x)
    {
      EmitsMapped(p.keys, keys, x);
      EmitsMapped(keys, p.keys, x);
    }
    HeldConcat(h, up, down);
    StillConcat(up, down);
    forall x: u16
      ensures x in Held(h, up + down) <==> Down(q, x)
      ensures Mapped(keys, x) && !Mapped(p.keys, x) ==> x !in mid
    {
      OneSource(p, x);
      OneSource(q, x);
    }
    KeyEdgesToggle(h, p.keys, keys, false, 0);
    KeyEdgesToggle(mid, keys, p.keys, true, 0);
  }

  lemma StillConcat(a: seq<Event>, b: seq<Event>)
    requires Still(a) && Still(b)
    ensures Still(a + b)
  {
    GroupedConcat(a, b, false);
    forall axis ensures Travel(a + b, axis) == 0 {
      TravelConcat(a, b, axis);
    }
  }

  /** Byte `i` of a report as a two's-complement number, or 0 when the report is shorter. */
  function Component(body: bytes, i: nat): int {
    if i >= |body| then 0 else (var b: int := body[i]; if b < 128 then b else b - 256)
  }

  /** What a mouse-shaped report contributes along an axis: bytes 1, 2 and 3 are x, y and the wheel. */
  function Shift(body: bytes, axis: Axis): int {
    if body == [] || |body| == 8 then 0
    else match axis
      case RelX => Component(body, 1)
      case RelY => Component(body, 2)
      case RelWheel => Component(body, 3)
      case RelHWheel => 0
  }

  lemma DeltaIsComponent(body: bytes, i: nat)
    ensures Delta(body, i) == Component(body, i)
  {
  }

  lemma MotionApplied(h: set<u16>, body: bytes, axis: Axis)
    requires IsMouse(body)
    ensures var e := MotionEvents(body);
            Held(h, e) == h && Toggles(h, e) && Grouped(e, false) && Travel(e, axis) == Shift(body, axis)
  {
    hide Delta, Component;
    DeltaIsComponent(body, 1);
    DeltaIsComponent(body, 2);
    DeltaIsComponent(body, 3);
    var dx, dy, dv := Delta(body, 1), Delta(body, 2), Delta(body, 3);
    var move := if dx != 0 || dy != 0 then MoveEvents(dx, dy) else [];
    var wheel := if dv != 0 then WheelEvents(dv, 0) else [];
    MoveApplied(h, dx, dy, axis);
    WheelApplied(h, dv, axis);
    NoEvents(h);
    HeldConcat(h, move, wheel);
    TravelConcat(move, wheel, axis);
    GroupedConcat(move, wheel, false);
  }

  lemma RelFirst(h: set<u16>, a: Axis, v: int, rest: seq<Event>, axis: Axis)
    ensures var e := [Rel(a, v)] + rest;
            && Held(h, e) == Held(h, rest) && (Toggles(h, e) <==> Toggles(h, rest))
            && (Grouped(e, false) <==> Grouped(rest, true)) && (Grouped(e, true) <==> Grouped(rest, true))
            && Travel(e, axis) == (if axis == a then v else 0) + Travel(rest, axis)
  {
    var e := [Rel(a, v)] + rest;
    assert e[1..] == rest;
  }

  lemma MoveApplied(h: set<u16>, dx: int, dy: int, axis: Axis)
    ensures var e := MoveEvents(dx, dy);
            && Held(h, e) == h && Toggles(h, e) && (dx != 0 || dy != 0 ==> Grouped(e, false))
            && Travel(e, axis) == if axis == RelX then dx else if axis == RelY then dy else 0
  {
    var tail := if dy != 0 then [Rel(RelY, dy)] + [Syn] else [Syn];
    RelFirst(h, RelY, dy, [Syn], axis);
    RelFirst(h, RelX, dx, tail, axis);
    assert MoveEvents(dx, dy) == if dx != 0 then [Rel(RelX, dx)] + tail else tail;
  }

  lemma WheelApplied(h: set<u16>, dv: int, axis: Axis)
    ensures var e := WheelEvents(dv, 0);
            && Held(h, e) == h && Toggles(h, e) && (dv != 0 ==> Grouped(e, false))
            && Travel(e, axis) == if axis == RelWheel then dv else 0
  {
    RelFirst(h, RelWheel, dv, [Syn], axis);
    assert WheelEvents(dv, 0) == if dv != 0 then [Rel(RelWheel, dv)] + [Syn] else [Syn];
  }

  /** One report: the device follows the new state, and every key event is a change iff no slot value repeats. */
  lemma ReportFollows(h: set<u16>, p: Prev, body: bytes, axis: Axis)
    requires Follows(h, p)
    ensures var e := ReportEvents(p, body);
            && Follows(Held(h, e), Next(p, body))
            && (Toggles(h, e) <==> IsKeyboard(body) ==> Clean(p.keys, body[2..]))
            && Grouped(e, false) && Travel(e, axis) == Shift(body, axis)
  {
    hide BitEdges, KeyEdges, MotionEvents, Held, Toggles, Grouped, Travel, Bits, Mapped, Clean, Follows, Shift;
    if IsKeyboard(body) {
      var mods := BitEdges(MODIFIER_CODES, p.modifier, body[0], 0);
      var keys: Keys := body[2..];
      var up, down := KeyEdges(p.keys, keys, false, 0), KeyEdges(keys, p.keys, true, 0);
      ModifiersFollow(h, p, body[0]);
      KeysFollow(Held(h, mods), p.(modifier := body[0]), keys);
      HeldConcat(h, mods, up + down);
      StillConcat(mods, up + down);
      assert ReportEvents(p, body) == mods + (up + down);
      KeyboardIsStill(body, axis);
    } else if IsMouse(body) {
      var edges := BitEdges(BUTTON_CODES, p.buttons, body[0], 0);
      ButtonsFollow(h, p, body[0]);
      MotionApplied(Held(h, edges), body, axis);
      HeldConcat(h, edges, MotionEvents(body));
      TravelConcat(edges, MotionEvents(body), axis);
      GroupedConcat(edges, MotionEvents(body), false);
    } else {
      NoReport(h, body, axis);
    }
  }

  lemma KeyboardIsStill(body: bytes, axis: Axis)
    requires IsKeyboard(body)
    ensures Shift(body, axis) == 0
  {
  }

  lemma NoReport(h: set<u16>, body: bytes, axis: Axis)
    requires !IsKeyboard(body) && !IsMouse(body)
    ensures Held(h, []) == h && Toggles(h, []) && Grouped([], false) && Travel([], axis) == 0 == Shift(body, axis)
  {
  }

  // Whole runs

  function Play(p: Prev, reports: seq<bytes>): seq<Event>
    decreases |reports|
  {
    if reports == [] then [] else ReportEvents(p, reports[0]) + Play(Next(p, reports[0]), reports[1..])
  }

  function After(p: Prev, reports: seq<bytes>): Prev
    decreases |reports|
  {
    if reports == [] then p else After(Next(p, reports[0]), reports[1..])
  }

  function Sum(reports: seq<bytes>, axis: Axis): int {
    if reports == [] then 0 else Shift(reports[0], axis) + Sum(reports[1..], axis)
  }

  /** Each keyboard report is clean against the one before it; `keys` are the slots before the first. */
  predicate CleanRun(keys: Keys, reports: seq<bytes>)
    decreases |reports|
  {
    if reports == [] then true
    else if IsKeyboard(reports[0]) then Clean(keys, reports[0][2..]) && CleanRun(reports[0][2..], reports[1..])
    else CleanRun(keys, reports[1..])
  }

  /** The reports of one binding, as the receiver's loop applies them. */
  method ApplyReports(decoder: ReportDecoder, device: UinputDevice, reports: seq<bytes>)
    modifies decoder, device
    ensures device.log == old(device.log) + Play(old(decoder.Value()), reports)
    ensures decoder.Value() == After(old(decoder.Value()), reports)
  {
    hide ReportEvents, Next;
    var i := 0;
    while i < |reports|
      invariant 0 <= i <= |reports|
      invariant device.log + Play(decoder.Value(), reports[i..])
             == old(device.log) + Play(old(decoder.Value()), reports)
      invariant After(decoder.Value(), reports[i..]) == After(old(decoder.Value()), reports)
    {
      ghost var before, value := device.log, decoder.Value();
      decoder.ApplyReport(device, reports[i]);
      assert reports[i..][1..] == reports[i + 1..];
      assert before + (ReportEvents(value, reports[i]) + Play(decoder.Value(), reports[i + 1..]))
          == device.log + Play(decoder.Value(), reports[i + 1..]);
      i := i + 1;
    }
  }

  lemma {:induction false} RunFollows(h: set<u16>, p: Prev, reports: seq<bytes>, axis: Axis)
    requires Follows(h, p)
    ensures Follows(Held(h, Play(p, reports)), After(p, reports))
    ensures Toggles(h, Play(p, reports)) <==> CleanRun(p.keys, reports)
    ensures Grouped(Play(p, reports), false)
    ensures Travel(Play(p, reports), axis) == Sum(reports, axis)
    decreases |reports|
  {
    hide ReportEvents, Held, Toggles, Grouped, Travel, Clean, Follows, Shift;
    if reports == [] {
      NoReport(h, [], axis);
    } else {
      var e, q := ReportEvents(p, reports[0]), Next(p, reports[0]);
      ReportFollows(h, p, reports[0], axis);
      RunFollows(Held(h, e), q, reports[1..], axis);
      HeldConcat(h, e, Play(q, reports[1..]));
      TravelConcat(e, Play(q, reports[1..]), axis);
      GroupedConcat(e, Play(q, reports[1..]), false);
    }
  }

  /** Held keys follow the remembered reports at every point of every run from here. */
  ghost predicate AlwaysFollows(h: set<u16>, p: Prev) {
    forall reports: seq<bytes> :: Follows(Held(h, Play(p, reports)), After(p, reports))
  }

  /** The remembered report must be the device's: held keys always follow it iff they do at the start. */
  lemma FollowsThroughout(h: set<u16>, p: Prev)
    ensures AlwaysFollows(h, p) <==> Follows(h, p)
  {
    hide Follows, ReportEvents, Next;
    if Follows(h, p) {
      forall reports: seq<bytes> ensures Follows(Held(h, Play(p, reports)), After(p, reports)) {
        RunFollows(h, p, reports, RelX);
      }
    }
    if AlwaysFollows(h, p) {
      EmptyRun(h, p);
      assert Follows(Held(h, Play(p, [])), After(p, []));
    }
  }

  lemma EmptyRun(h: set<u16>, p: Prev)
    ensures Held(h, Play(p, [])) == h && After(p, []) == p
  {
  }

  /** A new device under an old memory: Shift was down before, is down in the next report, and is never pressed. */
  lemma StaleMemory()
    ensures var p, body := FRESH.(modifier := 2), [2, 0, 0, 0, 0, 0, 0, 0];
            Held({}, ReportEvents(p, body)) == {} && Bits(MODIFIER_CODES, body[0], 42)
  {
    var p, body := FRESH.(modifier := 2), [2, 0, 0, 0, 0, 0, 0, 0];
    SameBits(MODIFIER_CODES, 2, 0);
    SameKeys(p.keys, body[2..], 0);
    assert body[2..] == p.keys;
    assert MODIFIER_CODES[1] == 42 && Bit(2, 1);
  }

  lemma {:induction false} SameBits(codes: seq<u16>, b: byte, i: nat)
    requires i <= |codes| <= 8
    ensures BitEdges(codes, b, b, i) == []
    decreases |codes| - i
  {
    if i < |codes| {
      SameBits(codes, b, i + 1);
    }
  }

  lemma {:induction false} SameKeys(ks: seq<byte>, other: seq<byte>, i: nat)
    requires i <= |ks| && ks == other
    ensures KeyEdges(ks, other, false, i) == [] && KeyEdges(ks, other, true, i) == []
    decreases |ks| - i
  {
    hide KeyCode;
    if i < |ks| {
      SameKeys(ks, other, i + 1);
    }
  }

  /** The last keyboard-shaped report of a run, or an empty one when there is none. */
  function LastKeyboard(reports: seq<bytes>): (r: bytes)
    ensures IsKeyboard(r)
  {
    if reports == [] then [0, 0, 0, 0, 0, 0, 0, 0]
    else if IsKeyboard(reports[|reports| - 1]) then reports[|reports| - 1]
    else LastKeyboard(reports[..|reports| - 1])
  }

  /** The button bitmap of the last mouse-shaped report of a run, or 0. */
  function LastButtons(reports: seq<bytes>): byte {
    if reports == [] then 0
    else if IsMouse(reports[|reports| - 1]) then reports[|reports| - 1][0]
    else LastButtons(reports[..|reports| - 1])
  }

  lemma {:induction false} AfterLast(p: Prev, reports: seq<bytes>)
    requires reports != []
    ensures After(p, reports) == Next(After(p, reports[..|reports| - 1]), reports[|reports| - 1])
    decreases |reports|
  {
    hide Next;
    if |reports| > 1 {
      var rest := reports[1..];
      AfterLast(Next(p, reports[0]), rest);
      assert rest[..|rest| - 1] == reports[..|reports| - 1][1..];
    }
  }

  lemma {:induction false} AfterIsLast(reports: seq<bytes>)
    ensures After(FRESH, reports).buttons == LastButtons(reports)
    ensures After(FRESH, reports).modifier == LastKeyboard(reports)[0]
    ensures After(FRESH, reports).keys == LastKeyboard(reports)[2..]
  {
    if reports != [] {
      AfterLast(FRESH, reports);
      AfterIsLast(reports[..|reports| - 1]);
    }
  }

  lemma FreshFollows()
    ensures Follows({}, FRESH)
  {
    hide Bits, Mapped, KeyCode;
    forall x: u16 ensures !Bits(BUTTON_CODES, 0, x) && !Bits(MODIFIER_CODES, 0, x) && !Mapped(FRESH.keys, x) {
      NoBits(BUTTON_CODES, x);
      NoBits(MODIFIER_CODES, x);
      NoSlots(x);
    }
  }

  lemma NoBits(codes: seq<u16>, x: u16)
    requires |codes| <= 8
    ensures !Bits(codes, 0, x)
  {
    hide Bit;
    forall i: nat | i < 8 ensures !Bit(0, i) {
      ZeroBit(i);
    }
  }

  lemma ZeroBit(i: nat)
    requires i < 8
    ensures !Bit(0, i)
  {
  }

  lemma NoSlots(x: u16)
    ensures !Mapped(FRESH.keys, x)
  {
    hide KeyCode;
  }

  /** After any run, down are exactly the modifiers and mapped usages of the last 8-byte report and the buttons
      of the last mouse-shaped one. */
  lemma KeyboardAgreement(reports: seq<bytes>, x: u16)
    ensures x in Held({}, Play(FRESH, reports)) <==>
            || Bits(BUTTON_CODES, LastButtons(reports), x)
            || Bits(MODIFIER_CODES, LastKeyboard(reports)[0], x)
            || Mapped(LastKeyboard(reports)[2..], x)
  {
    hide Play, Held, Bits, Mapped, LastKeyboard, LastButtons, After;
    FreshFollows();
    RunFollows({}, FRESH, reports, RelX);
    AfterIsLast(reports);
  }

  /** Every key event changes a state iff no keyboard report repeats a usage it presses or the next one releases. */
  lemma KeyEventsChangeState(reports: seq<bytes>)
    ensures Toggles({}, Play(FRESH, reports)) <==> CleanRun(FRESH.keys, reports)
  {
    hide Play, Held, Toggles, CleanRun, After;
    FreshFollows();
    RunFollows({}, FRESH, reports, RelX);
  }

  /** The nonzero slots of a keyboard report are distinct. */
  predicate SlotsDistinct(ks: seq<byte>) {
    forall i, j | 0 <= i < j < |ks| && ks[i] != 0 :: ks[i] != ks[j]
  }

  lemma {:induction false} DistinctSlotsRun(keys: Keys, reports: seq<bytes>)
    requires SlotsDistinct(keys)
    requires forall r | r in reports && IsKeyboard(r) :: SlotsDistinct(r[2..])
    ensures CleanRun(keys, reports)
    decreases |reports|
  {
    if reports != [] {
      DistinctSlotsRun(if IsKeyboard(reports[0]) then reports[0][2..] else keys, reports[1..]);
    }
  }

  lemma DistinctSlotsSuffice(reports: seq<bytes>)
    requires forall r | r in reports && IsKeyboard(r) :: SlotsDistinct(r[2..])
    ensures Toggles({}, Play(FRESH, reports))
  {
    hide Play, Toggles, CleanRun;
    DistinctSlotsRun(FRESH.keys, reports);
    KeyEventsChangeState(reports);
  }

  /** Held buttons are the low five bits of the last mouse-shaped report, whatever keyboard reports come between;
      motion adds up to the signed bytes; every sync closes a group that is not empty. */
  lemma MouseConservation(reports: seq<bytes>, i: nat, axis: Axis)
    requires i < 5
    ensures BUTTON_CODES[i] in Held({}, Play(FRESH, reports)) <==> Bit(LastButtons(reports), i)
    ensures Travel(Play(FRESH, reports), axis) == Sum(reports, axis)
    ensures Grouped(Play(FRESH, reports), false)
  {
    hide Play, Held, Bits, Mapped, Travel, Sum, Grouped, LastKeyboard, LastButtons, After, Bit;
    FreshFollows();
    RunFollows({}, FRESH, reports, axis);
    KeyboardAgreement(reports, BUTTON_CODES[i]);
    CodesDistinct();
    OneSource(Prev(0, LastKeyboard(reports)[0], LastKeyboard(reports)[2..]), BUTTON_CODES[i]);
    BitsAt(BUTTON_CODES, LastButtons(reports), i);
  }

  lemma {:induction false} PlayLast(p: Prev, reports: seq<bytes>, last: bytes)
    ensures Play(p, reports + [last]) == Play(p, reports) + ReportEvents(After(p, reports), last)
    ensures After(p, reports + [last]) == Next(After(p, reports), last)
    decreases |reports|
  {
    hide ReportEvents, Next;
    if reports == [] {
      assert [] + [last] == [last] && [last][1..] == [];
    } else {
      HeadTail(reports, [last]);
      PlayLast(Next(p, reports[0]), reports[1..], last);
    }
  }

  // The same, in the codes and bits of the input layer

  /** After any run, each modifier key is down iff its bit is set in the last keyboard report. */
  lemma ModifiersAgree(reports: seq<bytes>)
    ensures var h, m := Held({}, Play(FRESH, reports)), LastKeyboard(reports)[0];
            && (29 in h <==> m % 2 == 1) && (42 in h <==> m / 2 % 2 == 1)
            && (56 in h <==> m / 4 % 2 == 1) && (125 in h <==> m / 8 % 2 == 1)
            && (97 in h <==> m / 16 % 2 == 1) && (54 in h <==> m / 32 % 2 == 1)
            && (100 in h <==> m / 64 % 2 == 1) && (126 in h <==> m / 128 % 2 == 1)
  {
    hide Held, Play, LastKeyboard, Bit;
    BitValues(LastKeyboard(reports)[0]);
    forall i: nat | i < 8
      ensures MODIFIER_CODES[i] in Held({}, Play(FRESH, reports)) <==> Bit(LastKeyboard(reports)[0], i)
    {
      ModifierDown(reports, i);
    }
    assert MODIFIER_CODES[0] == 29 && MODIFIER_CODES[1] == 42 && MODIFIER_CODES[2] == 56 && MODIFIER_CODES[3] == 125;
    assert MODIFIER_CODES[4] == 97 && MODIFIER_CODES[5] == 54 && MODIFIER_CODES[6] == 100 && MODIFIER_CODES[7] == 126;
  }

  /** The five mouse buttons likewise, from 0x110 on. */
  lemma ButtonsAgree(reports: seq<bytes>)
    ensures var h, b := Held({}, Play(FRESH, reports)), LastButtons(reports);
            && (0x110 in h <==> b % 2 == 1) && (0x111 in h <==> b / 2 % 2 == 1) && (0x112 in h <==> b / 4 % 2 == 1)
            && (0x113 in h <==> b / 8 % 2 == 1) && (0x114 in h <==> b / 16 % 2 == 1)
  {
    hide Held, Play, LastButtons, Bit;
    BitValues(LastButtons(reports));
    forall i: nat | i < 5
      ensures BUTTON_CODES[i] in Held({}, Play(FRESH, reports)) <==> Bit(LastButtons(reports), i)
    {
      MouseConservation(reports, i, RelX);
    }
    assert BUTTON_CODES[0] == 0x110 && BUTTON_CODES[1] == 0x111 && BUTTON_CODES[2] == 0x112;
    assert BUTTON_CODES[3] == 0x113 && BUTTON_CODES[4] == 0x114;
  }

  /** And each mapped key: down iff its usage is in a slot of the last keyboard report. */
  lemma KeysAgree(reports: seq<bytes>, u: byte)
    requires KeyCode(u).Some?
    ensures KeyCode(u).value in Held({}, Play(FRESH, reports)) <==> u in LastKeyboard(reports)[2..]
  {
    hide KeyCode, Held, Play, LastKeyboard, LastButtons, Bits;
    var x, keys := KeyCode(u).value, LastKeyboard(reports)[2..];
    KeyboardAgreement(reports, x);
    KeyCodeDisjoint(u);
    OneSource(Prev(LastButtons(reports), LastKeyboard(reports)[0], keys), x);
    UsageNotZero(u);
    if Mapped(keys, x) {
      var k :| k in keys && k != 0 && KeyCode(k) == Some(x);
      KeyCodeInjective(u, k);
    }
  }

  lemma UsageNotZero(u: byte)
    requires KeyCode(u).Some?
    ensures u != 0
  {
  }

  lemma BitValues(b: byte)
    ensures (Bit(b, 0) <==> b % 2 == 1) && (Bit(b, 1) <==> b / 2 % 2 == 1) && (Bit(b, 2) <==> b / 4 % 2 == 1)
    ensures (Bit(b, 3) <==> b / 8 % 2 == 1) && (Bit(b, 4) <==> b / 16 % 2 == 1) && (Bit(b, 5) <==> b / 32 % 2 == 1)
    ensures (Bit(b, 6) <==> b / 64 % 2 == 1) && (Bit(b, 7) <==> b / 128 % 2 == 1)
  {
  }

  lemma ModifierDown(reports: seq<bytes>, i: nat)
    requires i < 8
    ensures MODIFIER_CODES[i] in Held({}, Play(FRESH, reports)) <==> Bit(LastKeyboard(reports)[0], i)
  {
    hide Play, Held, Bits, Mapped, LastKeyboard, LastButtons, Bit;
    KeyboardAgreement(reports, MODIFIER_CODES[i]);
    CodesDistinct();
    OneSource(Prev(LastButtons(reports), 0, LastKeyboard(reports)[2..]), MODIFIER_CODES[i]);
    BitsAt(MODIFIER_CODES, LastKeyboard(reports)[0], i);
  }
}
