/**
 * The keyboard client's HID input report (keyboard/kb_client.py, class
 * `Keyboard`): report id, usage, eight modifier flags, a reserved byte and
 * six key slots, changed by one key event at a time.
 */
module KeyboardState {
  import opened Common
  import ModifierByte

  const ReportId: byte := 0xA1
  const KeyboardUsage: byte := 0x01
  const ModifierCount: nat := 8
  const SlotCount: nat := 6

  /** The `state` list; `modifiers` is its nested element 2, `slots` its elements 4..9. */
  datatype Report = Report(id: byte, usage: byte, modifiers: seq<bit>, reserved: byte, slots: seq<byte>)

  /** The shape every state the client holds has. */
  predicate Valid(s: Report)
  {
    && s.id == ReportId
    && s.usage == KeyboardUsage
    && |s.modifiers| == ModifierCount
    && s.reserved == 0
    && |s.slots| == SlotCount
  }

  /**
   * A key event after the external key map has classified it: `modkey` is
   * what `keymap.modkey` answers for the key, `code` what `keymap.convert`
   * answers, `value` the evdev value (0 release, 1 press).
   */
  datatype KeyEvent = KeyEvent(modkey: int, code: byte, value: int)

  /** `change_state` either yields the next report or raises IndexError for a modifier index past the flags. */
  datatype Step = Next(report: Report) | IndexError

  /** The state built by the constructor. */
  function Initial(): (s: Report)
    ensures Valid(s)
    ensures forall i | 0 <= i < |s.modifiers| :: s.modifiers[i] == 0
    ensures forall i | 0 <= i < |s.slots| :: s.slots[i] == 0
  {
    Report(ReportId, KeyboardUsage, [0, 0, 0, 0, 0, 0, 0, 0], 0, [0, 0, 0, 0, 0, 0])
  }

  function Flip(b: bit): bit
  {
    if b == 0 then 1 else 0
  }

  /** Slot i is the lowest-index slot holding 0x00. */
  predicate FirstFree(slots: seq<byte>, i: int)
  {
    0 <= i < |slots| && slots[i] == 0 && forall j | 0 <= j < i :: slots[j] != 0
  }

  /** Every slot holds a key. */
  predicate Full(slots: seq<byte>)
  {
    forall j | 0 <= j < |slots| :: slots[j] != 0
  }

  /** The scan over the slots for a release (value 0): every slot holding the key is cleared. */
  function Release(slots: seq<byte>, key: byte): (r: seq<byte>)
    ensures |r| == |slots|
    ensures forall i | 0 <= i < |slots| :: r[i] == (if slots[i] == key then 0 else slots[i])
  {
    if |slots| == 0 then []
    else [if slots[0] == key then 0 else slots[0]] + Release(slots[1..], key)
  }

  /**
   * The scan over the slots for a press (value 1): the key goes into the
   * first free slot and the scan stops; no slot is checked for the key itself.
   */
  function Press(slots: seq<byte>, key: byte): (r: seq<byte>)
    ensures |r| == |slots|
    ensures forall i | FirstFree(slots, i) :: r == slots[i := key]
    ensures Full(slots) ==> r == slots
  {
    if |slots| == 0 then []
    else if slots[0] == 0 then [key] + slots[1..]
    else
      var rest := Press(slots[1..], key);
      assert forall i | FirstFree(slots, i) :: i > 0 && FirstFree(slots[1..], i - 1);
      [slots[0]] + rest
  }

  /** `Keyboard.change_state`. */
  function ChangeState(s: Report, ev: KeyEvent): (r: Step)
    requires Valid(s)
    ensures r.Next? ==> Valid(r.report)
    ensures r.IndexError? <==> ev.modkey >= ModifierCount
    // a modifier key flips its own flag, whatever the value, and nothing else
    ensures 0 < ev.modkey < ModifierCount ==>
      && r.Next?
      && r.report.slots == s.slots
      && r.report.modifiers[ev.modkey] != s.modifiers[ev.modkey]
      && forall j | 0 <= j < ModifierCount && j != ev.modkey :: r.report.modifiers[j] == s.modifiers[j]
    // any other key leaves the flags alone
    ensures ev.modkey <= 0 ==> r.Next? && r.report.modifiers == s.modifiers
    // a release clears exactly the slots holding the key
    ensures ev.modkey <= 0 && ev.value == 0 ==>
      forall i | 0 <= i < SlotCount ::
        r.report.slots[i] == (if s.slots[i] == ev.code then 0 else s.slots[i])
    // a press fills the first free slot, or drops the key when all six are taken
    ensures ev.modkey <= 0 && ev.value == 1 ==>
      && (forall i | FirstFree(s.slots, i) :: r.report.slots == s.slots[i := ev.code])
      && (Full(s.slots) ==> r == Next(s))
    // other values (auto-repeat) change nothing
    ensures ev.modkey <= 0 && ev.value != 0 && ev.value != 1 ==> r == Next(s)
  {
    if ev.modkey > 0 then
      if ev.modkey < |s.modifiers| then
        Next(s.(modifiers := s.modifiers[ev.modkey := Flip(s.modifiers[ev.modkey])]))
      else
        IndexError
    else if ev.value == 0 then
      Next(s.(slots := Release(s.slots, ev.code)))
    else if ev.value == 1 then
      Next(s.(slots := Press(s.slots, ev.code)))
    else
      Next(s)
  }

  /** Two events of the same modifier key restore the state they started from. */
  lemma ModifierTwiceRestores(s: Report, ev: KeyEvent)
    requires Valid(s)
    requires 0 < ev.modkey < ModifierCount
    ensures ChangeState(ChangeState(s, ev).report, ev) == Next(s)
  {
  }

  /** A press that finds a free slot adds one copy of the key and removes one free slot. */
  lemma {:induction false} PressAddsOneCopy(slots: seq<byte>, key: byte)
    requires !Full(slots)
    ensures multiset(Press(slots, key)) == multiset(slots) - multiset{0} + multiset{key}
  {
    if slots[0] == 0 {
      assert slots == [0] + slots[1..];
    } else {
      assert slots == [slots[0]] + slots[1..];
      PressAddsOneCopy(slots[1..], key);
    }
  }

  /** A press never looks for the key: pressing a latched key latches a second copy. */
  lemma PressLatchesDuplicate(s: Report, ev: KeyEvent)
    requires Valid(s)
    requires ev.modkey <= 0 && ev.value == 1 && ev.code != 0
    requires ev.code in s.slots && !Full(s.slots)
    ensures multiset(ChangeState(s, ev).report.slots)[ev.code] == multiset(s.slots)[ev.code] + 1
  {
    PressAddsOneCopy(s.slots, ev.code);
  }

  /** Rollover: with six keys held, a seventh press leaves the report as it was. */
  lemma SeventhPressDropped(s: Report, ev: KeyEvent)
    requires Valid(s)
    requires ev.modkey <= 0 && ev.value == 1
    requires Full(s.slots)
    ensures ChangeState(s, ev) == Next(s)
  {
  }

  /** Releasing one of six held keys frees a slot, so a following press lands. */
  lemma ReleaseThenPressLands(s: Report, up: KeyEvent, down: KeyEvent)
    requires Valid(s) && Full(s.slots)
    requires up.modkey <= 0 && up.value == 0 && up.code in s.slots
    requires down.modkey <= 0 && down.value == 1
    ensures down.code in ChangeState(ChangeState(s, up).report, down).report.slots
  {
    var s1 := ChangeState(s, up).report;
    var k :| 0 <= k < |s.slots| && s.slots[k] == up.code;
    assert s1.slots[k] == 0;
    var i := LowestFree(s1.slots);
    assert ChangeState(s1, down).report.slots[i] == down.code;
  }

  /** Releasing a key that no slot holds changes nothing. */
  lemma ReleaseAbsentIsNoOp(s: Report, ev: KeyEvent)
    requires Valid(s)
    requires ev.modkey <= 0 && ev.value == 0 && ev.code !in s.slots
    ensures ChangeState(s, ev) == Next(s)
  {
  }

  /** After a release the key is gone; after a press that found room it is present. */
  lemma PressReleaseMembership(s: Report, ev: KeyEvent)
    requires Valid(s) && ev.modkey <= 0 && ev.code != 0
    ensures ev.value == 0 ==> ev.code !in ChangeState(s, ev).report.slots
    ensures ev.value == 1 && !Full(s.slots) ==> ev.code in ChangeState(s, ev).report.slots
  {
    if ev.value == 1 && !Full(s.slots) {
      var i := LowestFree(s.slots);
      assert ChangeState(s, ev).report.slots[i] == ev.code;
    }
  }

  /** The first free slot of a state that is not full. */
  lemma {:induction false} LowestFree(slots: seq<byte>) returns (i: nat)
    requires !Full(slots)
    ensures FirstFree(slots, i)
  {
    if slots[0] == 0 {
      i := 0;
    } else {
      var j := LowestFree(slots[1..]);
      i := j + 1;
    }
  }

  /**
   * `Keyboard.send`: the flags of the report it is handed are parsed as a
   * base-2 numeral into the modifier byte; the keys are the keyboard's own
   * six slots, whatever report was handed in. The pair is what the method
   * passes to the service's `send_key`.
   */
  method Send(event: Report, state: Report) returns (modifier: byte, keys: seq<byte>)
    requires |event.modifiers| == ModifierCount
    requires Valid(state)
    ensures modifier == ModifierByte.Weighted(event.modifiers)
    ensures ModifierByte.Unpack(ModifierCount, modifier) == event.modifiers
    ensures keys == state.slots
  {
    modifier := ModifierByte.PackModifiers(event.modifiers);
    keys := state.slots;
  }
}
