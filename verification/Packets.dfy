/** The values that travel through the switch: addresses, packets and drop records. */
module Packets {

  datatype Option<+T> = None | Some(value: T)

  /** One more than the largest 64-bit counter, tick or id. */
  const WORD: nat := 0x1_0000_0000_0000_0000

  /** A 64-bit time stamp. */
  type Tick = t: nat | t < WORD

  /** Six address bytes read as one big-endian number. `MacText.ByteOrderIsNumericOrder`
      shows that the byte-wise order of the source is the order of these numbers. */
  type MacAddress = m: nat | m < 0x1_0000_0000_0000

  const BROADCAST: MacAddress := 0xFFFF_FFFF_FFFF

  datatype PacketDropReason =
    | ParseError
    | ValidationError
    | QueueOverflow
    | SimulatedLoss
    | RateLimited
    | ProcessingError
    | InternalError
    | Unknown

  datatype PacketDropped = PacketDropped(
    reason: PacketDropReason,
    timestampMs: nat,
    packetId: nat,
    lifecycleId: nat)

  datatype Packet = Packet(
    id: nat,
    lifecycleId: nat,
    payload: string,
    timestampMs: Tick,
    wireSize: nat,
    payloadSize: nat,
    valid: bool,
    sourceIp: string,
    sourcePort: nat,
    sourceMac: Option<MacAddress>,
    destinationMac: Option<MacAddress>,
    ingressPort: Option<nat>,
    ingressTimestampNs: nat)

  /** A terminal message: what a packet's lifecycle ends in. */
  datatype Terminal = Processed(packet: Packet) | Dropped(drop: PacketDropped)
  {
    function LifecycleId(): nat {
      match this
      case Processed(p) => p.lifecycleId
      case Dropped(d) => d.lifecycleId
    }
  }

  /** A set of numbers has a least one: where an ordered map's iteration goes next. */
  lemma {:induction false} LeastMember(s: set<nat>) returns (m: nat)
    requires s != {}
    ensures m in s && forall x :: x in s ==> m <= x
    decreases s
  {
    var some :| some in s;
    m := some;
    var rest := s - {some};
    if rest != {} {
      var least := LeastMember(rest);
      m := if least < some then least else some;
    }
    assert forall x :: x in s ==> x == some || x in rest;
  }
}
