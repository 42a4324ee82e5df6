/** UDP ingress: each datagram gets a lifecycle id and exactly one published message. */
module Udp {
  import opened Packets
  import opened Counting
  import opened FailureInjection
  import opened Pipeline
  import opened Parser
  import Accounting
  import Stats

  const BUFFER_SIZE := 1024
  const MAX_PACKETS_PER_WAKEUP := 256

  // ---- The validator ----

  datatype Validation = Accepted | InvalidFormat | EmptyPayload | MissingSource | PayloadTooLarge

  predicate Blank(text: string) {
    forall k :: 0 <= k < |text| ==> IsSpace(text[k])
  }

  function Validate(p: Packet): Validation {
    if !p.valid then InvalidFormat
    else if p.payload == [] || Blank(p.payload) then EmptyPayload
    else if p.sourceIp == [] then MissingSource
    else if |p.payload| > MAX_PAYLOAD_SIZE then PayloadTooLarge
    else Accepted
  }

  // ---- Reading the socket ----

  /** What one `recvfrom` reports, with the clock values read while it is handled. */
  datatype Read =
    | Received(datagram: string, sourceIp: string, sourcePort: nat, ingressNs: nat, nowMs: Tick, dropMs: nat)
    | BadDescriptor
    | Interrupted
    | WouldBlock(nowMs: Tick)
    | Failed

  datatype ReadResult = PacketProcessed | NoData | Closed | Error

  datatype Published = PacketRx(packet: Packet) | PacketDrop(drop: PacketDropped) | IdlePoll(nowMs: nat)

  /** The datagram as the receive buffer holds it. */
  function Buffered(datagram: string): string {
    if |datagram| <= BUFFER_SIZE then datagram else datagram[..BUFFER_SIZE]
  }

  /** The packet made of an accepted text. */
  function Arrival(id: nat, r: Read, m: Message): Packet
    requires r.Received?
  {
    Packet(m.id, id, m.payload, r.nowMs, |Buffered(r.datagram)|, |m.payload|, true, r.sourceIp, r.sourcePort,
           None, None, None, r.ingressNs)
  }

  /** The message published for a datagram that is given the lifecycle id `id`. */
  function Classify(id: nat, r: Read): Published
    requires r.Received?
  {
    match ParsePacket(Buffered(r.datagram))
    case None => PacketDrop(PacketDropped(ParseError, r.dropMs, 0, id))
    case Some(m) =>
      if Validate(Arrival(id, r, m)).Accepted? then PacketRx(Arrival(id, r, m))
      else PacketDrop(PacketDropped(ValidationError, r.dropMs, m.id, id))
  }

  /** A packet as only validated ingress can produce it. */
  predicate FromUdp(p: Packet) {
    p.valid && !Blank(p.payload) && |p.payload| <= MAX_PAYLOAD_SIZE && p.sourceIp != []
  }

  /** The buffer holds the first 1024 characters of a datagram. */
  lemma BufferHoldsPrefix(datagram: string)
    ensures Buffered(datagram) <= datagram
    ensures |Buffered(datagram)| == if |datagram| < 1024 then |datagram| else 1024
  {
  }

  /** A text is blank if it consists of the six white-space characters. */
  lemma BlankTexts(text: string)
    ensures Blank(text) <==> forall k :: 0 <= k < |text| ==> text[k] in " \t\n\U{b}\U{c}\r"
  {
    forall c: char ensures IsSpace(c) <==> c in " \t\n\U{b}\U{c}\r" {
      SpaceCharacters(c);
    }
  }

  lemma SpaceCharacters(c: char)
    ensures IsSpace(c) <==> c in " \t\n\U{b}\U{c}\r"
  {
    var spaces := " \t\n\U{b}\U{c}\r";
    assert spaces[0] == ' ' && spaces[1] == 9 as char && spaces[2] == 10 as char;
    assert spaces[3] == 11 as char && spaces[4] == 12 as char && spaces[5] == 13 as char;
  }

  /** Of the three outcomes exactly one happens, and which one is decided by the text, its
      payload and its source alone. A drop and an arrival carry the datagram's lifecycle id and
      clock readings, and an arrival carries what the read reported and nothing else: it has
      no hardware addresses and no ingress port. */
  lemma Trichotomy(id: nat, r: Read)
    requires r.Received?
    ensures var text, out := ParsePacket(Buffered(r.datagram)), Classify(id, r);
            && (out.PacketDrop? && out.drop.reason == ParseError <==> text.None?)
            && (out.PacketDrop? && out.drop.reason == ValidationError
                <==> text.Some? && (Blank(text.value.payload) || |text.value.payload| > 512 || r.sourceIp == []))
            && (out.PacketRx?
                <==> text.Some? && !Blank(text.value.payload) && |text.value.payload| <= 512 && r.sourceIp != [])
            && (out.PacketDrop? ==>
                  && out.drop.lifecycleId == id && out.drop.timestampMs == r.dropMs
                  && out.drop.packetId == if text.Some? then text.value.id else 0)
            && (out.PacketRx? ==> ArrivesAs(id, r, text.value, out.packet))
  {
    PayloadFits(Buffered(r.datagram));
  }

  /** Field by field, the packet as which a datagram with text `m` arrives. */
  predicate ArrivesAs(id: nat, r: Read, m: Message, p: Packet)
    requires r.Received?
  {
    && p.id == m.id && p.payload == m.payload && p.payloadSize == |m.payload| <= p.wireSize == |Buffered(r.datagram)|
    && p.lifecycleId == id && p.timestampMs == r.nowMs && p.ingressTimestampNs == r.ingressNs
    && p.sourceIp == r.sourceIp && p.sourcePort == r.sourcePort && p.valid
    && p.sourceMac == None && p.destinationMac == None && p.ingressPort == None
    && FromUdp(p)
  }

  /** Ids and payloads survive the whole of ingress: a well-formed datagram that fits the
      buffer arrives with both exactly when its payload is acceptable. */
  lemma WellFormedArrives(lifecycleId: nat, r: Read, id: nat, payload: string)
    requires r.Received? && r.datagram == Datagram(id, payload) && |r.datagram| <= BUFFER_SIZE
    requires id < WORD && ';' !in payload
    ensures var out := Classify(lifecycleId, r);
            if !Blank(payload) && |payload| <= MAX_PAYLOAD_SIZE && r.sourceIp != [] then
              && out.PacketRx? && out.packet.id == id && out.packet.payload == payload
              && out.packet.lifecycleId == lifecycleId
            else out == PacketDrop(PacketDropped(ValidationError, r.dropMs, id, lifecycleId))
  {
    ParseRoundTrip(id, payload);
  }

  // ---- Whole sequences of reads ----

  /** What one read publishes when the next lifecycle id is `id`. */
  function Messages(id: nat, r: Read): seq<Published> {
    if r.Received? then [Classify(id, r)] else if r.WouldBlock? then [IdlePoll(r.nowMs)] else []
  }

  function Arrivals(out: seq<Published>): seq<Packet> {
    if out == [] then []
    else
      var init, last := Arrivals(out[..|out| - 1]), out[|out| - 1];
      if last.PacketRx? then init + [last.packet] else init
  }

  function Drops(out: seq<Published>): seq<PacketDropped> {
    if out == [] then []
    else
      var init, last := Drops(out[..|out| - 1]), out[|out| - 1];
      if last.PacketDrop? then init + [last.drop] else init
  }

  /** The lifecycle ids of all messages that carry one, in order. */
  function LifecycleIds(out: seq<Published>): seq<nat> {
    if out == [] then []
    else
      var init := LifecycleIds(out[..|out| - 1]);
      match out[|out| - 1]
      case PacketRx(p) => init + [p.lifecycleId]
      case PacketDrop(d) => init + [d.lifecycleId]
      case IdlePoll(_) => init
  }

  lemma PublishedSnoc(out: seq<Published>, x: Published)
    ensures Arrivals(out + [x]) == if x.PacketRx? then Arrivals(out) + [x.packet] else Arrivals(out)
    ensures Drops(out + [x]) == if x.PacketDrop? then Drops(out) + [x.drop] else Drops(out)
    ensures LifecycleIds(out + [x])
            == if x.PacketRx? then LifecycleIds(out) + [x.packet.lifecycleId]
               else if x.PacketDrop? then LifecycleIds(out) + [x.drop.lifecycleId]
               else LifecycleIds(out)
  {
    assert (out + [x])[..|out|] == out;
  }

  /** `out` holds one message for each of `n` datagrams, with ids consecutive from `start`;
      each message is a packet or a drop, and the packets are validated. */
  ghost predicate OneEach(out: seq<Published>, start: nat, n: nat) {
    && |LifecycleIds(out)| == n
    && (forall k :: 0 <= k < n ==> LifecycleIds(out)[k] == start + k)
    && |Arrivals(out)| + |Drops(out)| == n
    && (forall k :: 0 <= k < |Arrivals(out)| ==> FromUdp(Arrivals(out)[k]))
  }

  lemma OneMore(out: seq<Published>, start: nat, n: nat, r: Read)
    requires OneEach(out, start, n) && r.Received?
    ensures OneEach(out + [Classify(start + n, r)], start, n + 1)
  {
    var x := Classify(start + n, r);
    PublishedSnoc(out, x);
    Trichotomy(start + n, r);
    if x.PacketRx? {
      assert Arrivals(out + [x]) == Arrivals(out) + [x.packet];
      assert Drops(out + [x]) == Drops(out);
    } else {
      assert Arrivals(out + [x]) == Arrivals(out);
      assert Drops(out + [x]) == Drops(out) + [x.drop];
    }
  }

  lemma OneRead(out: seq<Published>, start: nat, n: nat, r: Read)
    requires OneEach(out, start, n)
    ensures OneEach(out + Messages(start + n, r), start, if r.Received? then n + 1 else n)
  {
    if r.Received? {
      OneMore(out, start, n, r);
    } else if r.WouldBlock? {
      PublishedSnoc(out, IdlePoll(r.nowMs));
    } else {
      assert out + [] == out;
    }
  }

  /** One message for each of a sequence of datagrams. */
  function Handled(start: nat, rs: seq<Read>): seq<Published>
    requires forall k :: 0 <= k < |rs| ==> rs[k].Received?
  {
    seq(|rs|, k requires 0 <= k < |rs| => Classify(start + k, rs[k]))
  }

  lemma HandledSnoc(start: nat, rs: seq<Read>, r: Read)
    requires r.Received? && forall k :: 0 <= k < |rs| ==> rs[k].Received?
    ensures Handled(start, rs + [r]) == Handled(start, rs) + [Classify(start + |rs|, r)]
  {
  }

  /** For every sequence of datagrams: each gets the next lifecycle id and exactly one message. */
  lemma {:induction false} OneMessagePerDatagram(start: nat, rs: seq<Read>)
    requires forall k :: 0 <= k < |rs| ==> rs[k].Received?
    ensures OneEach(Handled(start, rs), start, |rs|)
  {
    if rs == [] {
      NothingYet(start);
    } else {
      var init, last := rs[..|rs| - 1], rs[|rs| - 1];
      OneMessagePerDatagram(start, init);
      OneMore(Handled(start, init), start, |init|, last);
      HandledSnoc(start, init, last);
      assert rs == init + [last];
    }
  }

  lemma NothingYet(start: nat)
    ensures OneEach([], start, 0)
  {
  }

  // ---- The receiver ----

  /** What a wake-up publishes that handles `n` datagrams: their messages, and that of the
      read which ended it, if one did. */
  function Wakeup(start: nat, socket: seq<Read>, n: nat): seq<Published>
    requires n <= |socket| && forall k :: 0 <= k < n ==> socket[k].Received?
  {
    Handled(start, socket[..n]) + if n < |socket| then Messages(start + n, socket[n]) else []
  }

  lemma {:induction false} LifecycleIdsConcat(out: seq<Published>, more: seq<Published>)
    ensures LifecycleIds(out + more) == LifecycleIds(out) + LifecycleIds(more)
  {
    if more == [] {
      assert out + more == out;
    } else {
      LifecycleIdsConcat(out, more[..|more| - 1]);
      assert (out + more)[..|out + more| - 1] == out + more[..|more| - 1];
    }
  }

  lemma {:induction false} ArrivalsConcat(out: seq<Published>, more: seq<Published>)
    ensures Arrivals(out + more) == Arrivals(out) + Arrivals(more)
  {
    if more == [] {
      assert out + more == out;
    } else {
      ArrivalsConcat(out, more[..|more| - 1]);
      assert (out + more)[..|out + more| - 1] == out + more[..|more| - 1];
    }
  }

  lemma {:induction false} DropsConcat(out: seq<Published>, more: seq<Published>)
    ensures Drops(out + more) == Drops(out) + Drops(more)
  {
    if more == [] {
      assert out + more == out;
    } else {
      DropsConcat(out, more[..|more| - 1]);
      assert (out + more)[..|out + more| - 1] == out + more[..|more| - 1];
    }
  }

  lemma Joined(out: seq<Published>, start: nat, n: nat, more: seq<Published>, m: nat)
    requires OneEach(out, start, n) && OneEach(more, start + n, m)
    ensures OneEach(out + more, start, n + m)
  {
    LifecycleIdsConcat(out, more);
    ArrivalsConcat(out, more);
    DropsConcat(out, more);
  }

  /** What every wake-up keeps: each id handed out so far has exactly one message. */
  lemma WakeupKeepsOneEach(out: seq<Published>, n: nat, socket: seq<Read>, handled: nat)
    requires OneEach(out, 1, n) && handled <= |socket|
    requires forall k :: 0 <= k < handled ==> socket[k].Received?
    requires handled < |socket| ==> !socket[handled].Received?
    ensures OneEach(out + Wakeup(1 + n, socket, handled), 1, n + handled)
  {
    WakeupOneEach(1 + n, socket, handled);
    Joined(out, 1, n, Wakeup(1 + n, socket, handled), handled);
  }

  lemma WakeupOneEach(start: nat, socket: seq<Read>, handled: nat)
    requires handled <= |socket| && forall k :: 0 <= k < handled ==> socket[k].Received?
    requires handled < |socket| ==> !socket[handled].Received?
    ensures OneEach(Wakeup(start, socket, handled), start, handled)
  {
    var rs := socket[..handled];
    OneMessagePerDatagram(start, rs);
    if handled < |socket| {
      OneRead(Handled(start, rs), start, handled, socket[handled]);
    } else {
      assert Wakeup(start, socket, handled) == Handled(start, rs);
    }
  }

  /** A datagram sent back to where it came from. */
  datatype Echo = Echo(data: string, toIp: string, toPort: nat)

  ghost predicate AllReceived(socket: seq<Read>, n: nat) {
    n <= |socket| && forall k :: 0 <= k < n ==> socket[k].Received?
  }

  /** `out` is `before` and one message for each of the first `n` reads. */
  ghost predicate Answered(before: seq<Published>, out: seq<Published>, start: nat, socket: seq<Read>, n: nat) {
    AllReceived(socket, n) && out == before + Handled(start, socket[..n])
  }

  lemma NoneAnswered(before: seq<Published>, start: nat, socket: seq<Read>)
    ensures Answered(before, before, start, socket, 0)
  {
    assert Handled(start, socket[..0]) == [];
  }

  lemma NextAnswered(before: seq<Published>, out: seq<Published>, start: nat, socket: seq<Read>, n: nat)
    requires n < |socket| && Answered(before, out, start, socket, n) && socket[n].Received?
    ensures Answered(before, out + Messages(start + n, socket[n]), start, socket, n + 1)
  {
    assert socket[..n + 1] == socket[..n] + [socket[n]];
    HandledSnoc(start, socket[..n], socket[n]);
  }

  /** A wake-up that is over, with `handled` datagrams in `calls` reads. */
  ghost predicate WokenUp(before: seq<Published>, out: seq<Published>, start: nat, socket: seq<Read>, handled: nat, calls: nat) {
    && AllReceived(socket, handled)
    && (if handled == |socket| then calls == handled
        else calls == handled + 1 && !socket[handled].Received?)
    && out == before + Wakeup(start, socket, handled)
  }

  lemma LastAnswered(before: seq<Published>, out: seq<Published>, start: nat, socket: seq<Read>, n: nat)
    requires n < |socket| && Answered(before, out, start, socket, n) && !socket[n].Received?
    ensures WokenUp(before, out + Messages(start + n, socket[n]), start, socket, n, n + 1)
  {
  }

  lemma AllAnswered(before: seq<Published>, out: seq<Published>, start: nat, socket: seq<Read>)
    requires Answered(before, out, start, socket, |socket|)
    ensures WokenUp(before, out, start, socket, |socket|, |socket|)
  {
  }

  class UdpReceiver {
    var nextLifecycleId: nat
    var running: bool
    var published: seq<Published>

    constructor ()
      ensures running && published == [] && nextLifecycleId == 1
    {
      nextLifecycleId, running, published := 1, true, [];
    }

    /** One read of the socket. The datagram is echoed exactly when it is published as an
        arrival, as far as it was received and to where it came from. */
    method HandleReadable(r: Read) returns (result: ReadResult, echo: Option<Echo>)
      modifies this
      ensures published == old(published) + Messages(old(nextLifecycleId), r)
      ensures r.WouldBlock? ==> published == old(published) + [IdlePoll(r.nowMs)]
      ensures r.BadDescriptor? || r.Interrupted? || r.Failed? ==> published == old(published)
      ensures echo.Some? <==> |published| > |old(published)| && published[|published| - 1].PacketRx?
      ensures echo.Some? ==> r.Received? && echo.value == Echo(Buffered(r.datagram), r.sourceIp, r.sourcePort)
      ensures nextLifecycleId == old(nextLifecycleId) + if r.Received? then 1 else 0
      ensures running == (old(running) && !r.BadDescriptor?)
      ensures result == match r
                        case Received(_, _, _, _, _, _) => PacketProcessed
                        case BadDescriptor => Closed
                        case Interrupted => NoData
                        case WouldBlock(_) => NoData
                        case Failed => Error
    {
      match r {
        case BadDescriptor =>
          running := false;
          return Closed, None;
        case Interrupted =>
          return NoData, None;
        case WouldBlock(now) =>
          published := published + [IdlePoll(now)];
          return NoData, None;
        case Failed =>
          return Error, None;
        case Received(datagram, sourceIp, sourcePort, ingressNs, nowMs, dropMs) =>
      }
      var lifecycleId := nextLifecycleId;
      nextLifecycleId := nextLifecycleId + 1;
      var data := Buffered(r.datagram);
      var parsed := ParsePacket(data);
      if parsed.None? {
        published := published + [PacketDrop(PacketDropped(ParseError, r.dropMs, 0, lifecycleId))];
        return PacketProcessed, None;
      }
      var packet := Packet(parsed.value.id, lifecycleId, parsed.value.payload, r.nowMs, |data|, |parsed.value.payload|,
                           true, r.sourceIp, r.sourcePort, None, None, None, r.ingressNs);
      if !Validate(packet).Accepted? {
        published := published + [PacketDrop(PacketDropped(ValidationError, r.dropMs, packet.id, lifecycleId))];
        return PacketProcessed, None;
      }
      echo := Some(Echo(data, r.sourceIp, r.sourcePort));
      published := published + [PacketRx(packet)];
      return PacketProcessed, echo;
    }

    /** One wake-up; `socket` is what the reads would report, one after the other. It ends
        after at most 256 datagrams, and before that only at the first read that brings none. */
    method ProcessReadableEvent(socket: seq<Read>) returns (handled: nat, calls: nat)
      requires |socket| == MAX_PACKETS_PER_WAKEUP
      modifies this
      ensures handled <= 256
      ensures WokenUp(old(published), published, old(nextLifecycleId), socket, handled, calls)
      ensures nextLifecycleId == old(nextLifecycleId) + handled
      ensures running == (old(running) && (handled < MAX_PACKETS_PER_WAKEUP ==> !socket[handled].BadDescriptor?))
    {
      handled, calls := 0, 0;
      ghost var start, before := nextLifecycleId, published;
      NoneAnswered(before, start, socket);
      while handled < MAX_PACKETS_PER_WAKEUP
        invariant calls == handled <= MAX_PACKETS_PER_WAKEUP
        invariant Answered(before, published, start, socket, handled)
        invariant nextLifecycleId == start + handled
        invariant running == old(running)
      {
        if socket[handled].Received? {
          NextAnswered(before, published, start, socket, handled);
        } else {
          LastAnswered(before, published, start, socket, handled);
        }
        var result, _ := HandleReadable(socket[calls]);
        calls := calls + 1;
        if result == PacketProcessed {
          handled := handled + 1;
        }
        if result == NoData || result == Closed || result == Error {
          return;
        }
      }
      AllAnswered(before, published, start, socket);
    }
  }

  // ---- Ingress and pipeline together ----

  /** A validated packet is processed by the worker exactly when its clock was not zero. */
  lemma WorkerAccepts(p: Packet, now: nat)
    requires FromUdp(p)
    ensures WorkerMessage(p, now).Processed? <==> p.timestampMs != 0
  {
  }

  /** A datagram that arrives and is processed adds exactly one latency sample, from its read to
      the handler's clock, if its ingress time is known and not later; it adds none otherwise.
      It counts as one processed packet with the bytes of its payload. */
  lemma DatagramIsSampled(id: nat, r: Read, c: Stats.Counters, now: nat, nowNs: nat)
    requires r.Received? && Classify(id, r).PacketRx? && r.nowMs != 0 && id !in c.completed
    ensures var c' := Stats.Handle(c, End(WorkerMessage(Classify(id, r).packet, now)), nowNs);
            && c'.processed == c.processed + 1
            && c'.rxBytes == c.rxBytes + |Classify(id, r).packet.payload|
            && if 0 < r.ingressNs <= nowNs then
                 c'.samples == c.samples + 1 && c'.totalLatencyNs == c.totalLatencyNs + (nowNs - r.ingressNs)
               else c'.samples == c.samples && c'.totalLatencyNs == c.totalLatencyNs
  {
    Trichotomy(id, r);
    WorkerAccepts(Classify(id, r).packet, now);
  }

  /** In every reachable state of a pipeline fed by UDP ingress with a nonzero clock, each
      message of the worker is a processed one. */
  lemma UdpPacketsAreProcessed(cfg: FailureConfig, n: nat, s: State)
    requires Reachable(cfg, n, s)
    requires forall k :: 0 <= k < |s.published| ==> FromUdp(s.published[k]) && s.published[k].timestampMs != 0
    ensures forall k :: 0 <= k < |s.settled| && s.settled[k].byWorker ==> s.settled[k].message.Processed?
  {
    FifoHandoff(cfg, n, s);
    Conservation(cfg, n, s);
    forall k | 0 <= k < |s.settled| && s.settled[k].byWorker ensures s.settled[k].message.Processed? {
      var x := s.settled[k];
      assert Genuine(x);
      assert SettledPackets(s.settled)[k] == x.packet;
      assert x.packet in multiset(SettledPackets(s.settled));
      assert x.packet in multiset(s.published);
      assert x.packet in s.published;
    }
  }

  lemma {:induction false} SplitIds(out: seq<Published>, x: nat)
    ensures Occurs(LifecycleIds(out), x)
            == Occurs(Accounting.Ids(Arrivals(out)), x) + Occurs(Accounting.DropIds(Drops(out)), x)
  {
    if out == [] {
      assert Accounting.Ids(Arrivals(out)) == [] && Accounting.DropIds(Drops(out)) == [];
      return;
    }
    var init, last := out[..|out| - 1], out[|out| - 1];
    SplitIds(init, x);
    match last
    case PacketRx(p) =>
      assert Accounting.Ids(Arrivals(init) + [p]) == Accounting.Ids(Arrivals(init)) + [p.lifecycleId];
      OccursSnoc(LifecycleIds(init), p.lifecycleId, x);
      OccursSnoc(Accounting.Ids(Arrivals(init)), p.lifecycleId, x);
    case PacketDrop(d) =>
      assert Accounting.DropIds(Drops(init) + [d]) == Accounting.DropIds(Drops(init)) + [d.lifecycleId];
      OccursSnoc(LifecycleIds(init), d.lifecycleId, x);
      OccursSnoc(Accounting.DropIds(Drops(init)), d.lifecycleId, x);
    case IdlePoll(_) =>
  }

  lemma SameOccurrences(out: seq<Published>, x: nat)
    requires Accounting.Distinct(LifecycleIds(out))
    ensures Occurs(Accounting.Ids(Arrivals(out)) + Accounting.DropIds(Drops(out)), x) <= 1
  {
    SplitIds(out, x);
    OccursConcat(Accounting.Ids(Arrivals(out)), Accounting.DropIds(Drops(out)), x);
    Accounting.DistinctOccurs(LifecycleIds(out), x);
  }

  lemma {:induction false} OnceMeansDistinct(ids: seq<nat>)
    requires forall x :: Occurs(ids, x) <= 1
    ensures Accounting.Distinct(ids)
  {
    if ids == [] {
    } else {
      var init, last := ids[..|ids| - 1], ids[|ids| - 1];
      assert ids == init + [last];
      forall x ensures Occurs(init, x) <= 1 && (x == last ==> Occurs(init, x) == 0) {
        OccursSnoc(init, last, x);
      }
      OnceMeansDistinct(init);
      MemberOccurs(init, last);
    }
  }

  /** From datagrams to statistics: when the receiver is the pipeline's only source and has
      handled `n` datagrams, then in every interleaving none is counted as a duplicate, and
      once everything has drained each has ended exactly once. */
  lemma DatagramsAreAccounted(cfg: FailureConfig, pubs: nat, s: State, out: seq<Published>, n: nat, clock: seq<nat>)
    requires Reachable(cfg, pubs, s) && |clock| == |s.delivered|
    requires OneEach(out, 1, n) && s.published == Arrivals(out) && s.udpDrops == Drops(out)
    ensures var c := Stats.Fold(s.delivered, clock);
            && c.duplicates == 0
            && (Quiet(s) ==> c.terminal == n && c.processed + Stats.TotalDrops(c.drops) == n)
  {
    forall x ensures Occurs(Accounting.Ids(Arrivals(out)) + Accounting.DropIds(Drops(out)), x) <= 1 {
      SameOccurrences(out, x);
    }
    OnceMeansDistinct(Accounting.Ids(Arrivals(out)) + Accounting.DropIds(Drops(out)));
    Accounting.DistinctIdsNeverDuplicate(cfg, pubs, s, clock);
    Accounting.PipelineAccounting(cfg, pubs, s, clock);
  }
}
