/**
 * The D-Bus methods of server/btk_server.py's `BTKbService`: fixed-width
 * keyboard and mouse reports built from variable-length input, and raw
 * sends routed to the interrupt or the control peer.
 */
module Service {
  import opened Common
  import opened Channels
  import KeyboardState
  import ModifierByte

  const KeyboardReportLength: nat := 10
  const MouseReportLength: nat := 6

  /** The first n keys, padded with 0x00 when fewer are given and cut when more are. */
  function Pad(keys: Bytes, n: nat): (r: Bytes)
    ensures |r| == n
  {
    seq(n, i requires 0 <= i < n => if i < |keys| then keys[i] else 0)
  }

  /** The keyboard input report layout: id 0xA1, usage 1, modifier byte, reserved 0, six key slots. */
  function KeyboardLayout(modifier: byte, keys: Bytes): Bytes
  {
    [0xA1, 1, modifier, 0] + Pad(keys, 6)
  }

  /** The mouse input report layout: id 0xA1, usage 2, then four bytes from the keys. */
  function MouseLayout(keys: Bytes): Bytes
  {
    [0xA1, 2] + Pad(keys, 4)
  }

  /** The report `send_keys` fills in: key j goes to position 4 + j while that is below 10. */
  method BuildKeyboardReport(modifier: byte, keys: Bytes) returns (state: Bytes)
    ensures |state| == KeyboardReportLength
    ensures state[..4] == [0xA1, 1, modifier, 0]
    ensures forall j | 0 <= j < 6 :: state[4 + j] == (if j < |keys| then keys[j] else 0)
    ensures state == KeyboardLayout(modifier, keys)
  {
    state := [0xA1, 1, 0, 0, 0, 0, 0, 0, 0, 0];
    state := state[2 := modifier];
    var count := 4;
    var j := 0;
    while j < |keys|
      invariant 0 <= j <= |keys|
      invariant count == 4 + j
      invariant |state| == 10
      invariant state[..4] == [0xA1, 1, modifier, 0]
      invariant forall i | 4 <= i < 10 :: state[i] == (if i - 4 < j then keys[i - 4] else 0)
    {
      if count < 10 {
        state := state[count := keys[j]];
      }
      count := count + 1;
      j := j + 1;
    }
    var layout := KeyboardLayout(modifier, keys);
    forall i | 0 <= i < 10
      ensures state[i] == layout[i]
    {
      if i < 4 {
        assert state[i] == state[..4][i];
      }
    }
  }

  /** The report `send_mouse` fills in: key j goes to position 2 + j while that is below 6; the modifier is unused. */
  method BuildMouseReport(modifier: byte, keys: Bytes) returns (state: Bytes)
    ensures |state| == MouseReportLength
    ensures state[..2] == [0xA1, 2]
    ensures forall j | 0 <= j < 4 :: state[2 + j] == (if j < |keys| then keys[j] else 0)
    ensures state == MouseLayout(keys)
  {
    state := [0xA1, 2, 0, 0, 0, 0];
    var count := 2;
    var j := 0;
    while j < |keys|
      invariant 0 <= j <= |keys|
      invariant count == 2 + j
      invariant |state| == 6
      invariant state[..2] == [0xA1, 2]
      invariant forall i | 2 <= i < 6 :: state[i] == (if i - 2 < j then keys[i - 2] else 0)
    {
      if count < 6 {
        state := state[count := keys[j]];
      }
      count := count + 1;
      j := j + 1;
    }
    var layout := MouseLayout(keys);
    forall i | 0 <= i < 6
      ensures state[i] == layout[i]
    {
      if i < 2 {
        assert state[i] == state[..2][i];
      }
    }
  }

  /** `send_keys`: the keyboard report goes out on the interrupt peer. */
  method SendKeys(d: Device, modifier: byte, keys: Bytes, t: Transport) returns (r: SendOutcome)
    ensures r.AttributeError? <==> d.interrupt.Unconnected?
    ensures r.Returned? ==> r.device.control == d.control
    ensures r.Returned? && t == Delivered ==>
      r.device.interrupt == Connected(d.interrupt.sent + [KeyboardLayout(modifier, keys)])
    ensures r.Returned? && t == OsError ==> r.device == d
  {
    var state := BuildKeyboardReport(modifier, keys);
    r := Send(d, Interrupt, state, t);
  }

  /** `send_mouse`: the mouse report goes out on the interrupt peer. */
  method SendMouse(d: Device, modifier: byte, keys: Bytes, t: Transport) returns (r: SendOutcome)
    ensures r.AttributeError? <==> d.interrupt.Unconnected?
    ensures r.Returned? ==> r.device.control == d.control
    ensures r.Returned? && t == Delivered ==>
      r.device.interrupt == Connected(d.interrupt.sent + [MouseLayout(keys)])
    ensures r.Returned? && t == OsError ==> r.device == d
  {
    var state := BuildMouseReport(modifier, keys);
    r := Send(d, Interrupt, state, t);
  }

  /** `send_data`: raw bytes to the interrupt peer only; a transport error is swallowed. */
  function SendData(d: Device, data: Bytes, t: Transport): (r: SendOutcome)
    ensures r.AttributeError? <==> d.interrupt.Unconnected?
    ensures r.Returned? ==> r.device.control == d.control
    ensures r.Returned? && t == Delivered ==> r.device.interrupt == Connected(d.interrupt.sent + [data])
    ensures r.Returned? && t == OsError ==> r.device == d
  {
    Send(d, Interrupt, data, t)
  }

  /** `send_control_data`: raw bytes to the control peer only; a transport error is swallowed. */
  function SendControlData(d: Device, data: Bytes, t: Transport): (r: SendOutcome)
    ensures r.AttributeError? <==> d.control.Unconnected?
    ensures r.Returned? ==> r.device.interrupt == d.interrupt
    ensures r.Returned? && t == Delivered ==> r.device.control == Connected(d.control.sent + [data])
    ensures r.Returned? && t == OsError ==> r.device == d
  {
    Send(d, Control, data, t)
  }

  /** Keys after the sixth do not reach the keyboard report. */
  lemma KeyboardReportIgnoresExtraKeys(modifier: byte, keys: Bytes)
    requires |keys| > 6
    ensures KeyboardLayout(modifier, keys) == KeyboardLayout(modifier, keys[..6])
  {
  }

  /** Two keyboard reports agree exactly when their modifiers and padded first six keys agree. */
  lemma KeyboardLayoutDeterminesInput(m1: byte, k1: Bytes, m2: byte, k2: Bytes)
    ensures KeyboardLayout(m1, k1) == KeyboardLayout(m2, k2) <==> m1 == m2 && Pad(k1, 6) == Pad(k2, 6)
  {
    if KeyboardLayout(m1, k1) == KeyboardLayout(m2, k2) {
      assert KeyboardLayout(m1, k1)[2] == m1;
      assert KeyboardLayout(m1, k1)[4..] == Pad(k1, 6);
      assert KeyboardLayout(m2, k2)[4..] == Pad(k2, 6);
    }
  }

  /** The mouse report depends only on the first four keys, never on the modifier. */
  lemma MouseLayoutIgnoresModifierAndExtraKeys(keys: Bytes)
    requires |keys| > 4
    ensures MouseLayout(keys) == MouseLayout(keys[..4])
  {
  }

  /**
   * The client's state, packed by `Keyboard.send` and handed to `send_keys`,
   * goes on the wire as the state itself with its flags packed in place, and
   * the host unpacks byte 2 of the report back into exactly those flags.
   */
  lemma ClientStateOnTheWire(s: KeyboardState.Report, modifier: byte)
    requires KeyboardState.Valid(s)
    requires modifier == ModifierByte.Weighted(s.modifiers)
    ensures KeyboardLayout(modifier, s.slots) == [s.id, s.usage, modifier, s.reserved] + s.slots
    ensures ModifierByte.Unpack(KeyboardState.ModifierCount, KeyboardLayout(modifier, s.slots)[2]) == s.modifiers
  {
    ModifierByte.UnpackWeighted(s.modifiers);
  }
}
