/**
 * The two HID peer connections of server/btk_server.py's `BTKbDevice` and
 * what `send_string` / `send_control_string` do to them. Each connected
 * peer is modelled by the log of messages it has been sent; whether the
 * socket send succeeds is the transport's answer, given as a parameter.
 */
module Channels {
  import opened Common

  datatype Channel = Control | Interrupt

  /** No peer has connected yet (the attribute is unset), or a peer with what it was sent. */
  datatype Peer = Unconnected | Connected(sent: seq<Bytes>)

  datatype Device = Device(control: Peer, interrupt: Peer)
  {
    function PeerOf(ch: Channel): Peer
    {
      match ch
      case Control => control
      case Interrupt => interrupt
    }

    function WithPeer(ch: Channel, p: Peer): Device
    {
      match ch
      case Control => this.(control := p)
      case Interrupt => this.(interrupt := p)
    }
  }

  /** The socket send either delivers the message or raises OSError. */
  datatype Transport = Delivered | OsError

  /**
   * A send returns normally (OSError is caught and logged) or raises
   * AttributeError when no peer ever connected on that channel.
   */
  datatype SendOutcome = Returned(device: Device) | AttributeError

  /** `send_string` on the interrupt peer, `send_control_string` on the control peer. */
  function Send(d: Device, ch: Channel, msg: Bytes, t: Transport): (r: SendOutcome)
    ensures r.AttributeError? <==> d.PeerOf(ch).Unconnected?
    ensures r.Returned? ==> forall other: Channel | other != ch :: r.device.PeerOf(other) == d.PeerOf(other)
    ensures r.Returned? && t == Delivered ==> r.device.PeerOf(ch) == Connected(d.PeerOf(ch).sent + [msg])
    ensures r.Returned? && t == OsError ==> r.device == d
  {
    match d.PeerOf(ch)
    case Unconnected => AttributeError
    case Connected(sent) =>
      if t == Delivered then Returned(d.WithPeer(ch, Connected(sent + [msg]))) else Returned(d)
  }

  /** Sends on the two channels touch disjoint state, so their order does not matter. */
  lemma SendsOnDistinctChannelsCommute(d: Device, a: Channel, b: Channel, ma: Bytes, mb: Bytes, ta: Transport, tb: Transport)
    requires a != b
    requires d.PeerOf(a).Connected? && d.PeerOf(b).Connected?
    ensures Send(Send(d, a, ma, ta).device, b, mb, tb).device == Send(Send(d, b, mb, tb).device, a, ma, ta).device
  {
  }
}
