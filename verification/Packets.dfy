/** BitChat packets as the mesh sees them: the header fields that forwarding rewrites,
    and the fields that it must not touch. */
module Packets {
  import opened Types

  datatype MessageType = Announce | OtherType(code: Byte)

  datatype Header = Header(
    version: Byte,
    messageType: MessageType,
    ttl: Byte,
    timestamp: nat,
    flags: Byte,
    payloadLength: nat)

  datatype Packet = Packet(
    header: Header,
    sender: PeerId,
    recipient: Option<PeerId>,
    route: Option<seq<Byte>>,
    payload: seq<Byte>,
    signature: Option<seq<Byte>>)

  predicate IsBroadcast(p: Packet) {
    p.recipient.None? || p.recipient == Some(BROADCAST)
  }

  /** The test of `handle_incoming_packet`: does `node` keep this packet? */
  predicate IsForUs(node: PeerId, p: Packet) {
    IsBroadcast(p) || p.recipient == Some(node)
  }

  /** `Ttl::decrement`. */
  function Decrement(ttl: Byte): (r: Option<Byte>) {
    if ttl > 0 then Some(ttl - 1) else None
  }

  /** The packet that `forward_packet` re-encodes. */
  function Forwarded(p: Packet): Packet
    requires p.header.ttl > 0
  {
    p.(header := p.header.(ttl := Decrement(p.header.ttl).value, payloadLength := AsU32(|p.payload|)))
  }

  /** The packet after `hops` relays. */
  function Hopped(p: Packet, hops: nat): Packet
    requires hops <= p.header.ttl
    decreases hops
  {
    if hops == 0 then p else Hopped(Forwarded(p), hops - 1)
  }

  /** Relaying costs exactly one TTL unit per hop and leaves every field that a receiver acts on alone. */
  lemma {:induction false} HoppedKeepsContent(p: Packet, hops: nat)
    requires hops <= p.header.ttl
    ensures Hopped(p, hops).header.ttl + hops == p.header.ttl
    ensures Hopped(p, hops).sender == p.sender
    ensures Hopped(p, hops).recipient == p.recipient
    ensures Hopped(p, hops).payload == p.payload
    ensures Hopped(p, hops).route == p.route
    ensures Hopped(p, hops).signature == p.signature
    ensures Hopped(p, hops).header.messageType == p.header.messageType
    ensures Hopped(p, hops).header.timestamp == p.header.timestamp
    ensures Hopped(p, hops).header.version == p.header.version && Hopped(p, hops).header.flags == p.header.flags
    ensures hops > 0 ==> Hopped(p, hops).header.payloadLength == |p.payload| % 0x1_0000_0000
    decreases hops
  {
    if hops > 0 {
      HoppedKeepsContent(Forwarded(p), hops - 1);
    }
  }

  lemma {:induction false} HoppedLast(p: Packet, hops: nat)
    requires hops < p.header.ttl
    ensures Hopped(p, hops).header.ttl > 0
    ensures Hopped(p, hops + 1) == Forwarded(Hopped(p, hops))
    decreases hops
  {
    HoppedKeepsContent(p, hops);
    if hops > 0 {
      HoppedLast(Forwarded(p), hops - 1);
    }
  }
}
