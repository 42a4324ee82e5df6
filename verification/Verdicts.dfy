/** What every terminal message says, in terms of the packet that it ends. */
module Verdicts {
  import opened Packets
  import opened FailureInjection
  import opened Pipeline
  import opened Stats

  // ---- The worker's messages ----

  /** All fields but the payload size are those of the packet. */
  predicate SamePacket(q: Packet, p: Packet) {
    && q.id == p.id && q.lifecycleId == p.lifecycleId && q.payload == p.payload && q.timestampMs == p.timestampMs
    && q.wireSize == p.wireSize && q.valid == p.valid && q.sourceIp == p.sourceIp && q.sourcePort == p.sourcePort
    && q.sourceMac == p.sourceMac && q.destinationMac == p.destinationMac && q.ingressPort == p.ingressPort
    && q.ingressTimestampNs == p.ingressTimestampNs
  }

  /** The packet fails the worker's validation. */
  predicate Rejected(p: Packet) {
    |p.payload| > 512 || p.timestampMs == 0
  }

  /** In every reachable state, a message of the worker is a validation drop that names the
      packet if and only if the payload is over 512 characters or the time stamp is zero; an
      oversized packet's drop carries the packet's own time. Otherwise the message is the
      packet, processed, with the length of its payload as payload size. */
  lemma WorkerVerdict(cfg: FailureConfig, n: nat, s: State, k: nat)
    requires Reachable(cfg, n, s) && k < |s.settled| && s.settled[k].byWorker
    ensures var p, m := s.settled[k].packet, s.settled[k].message;
            && (m.Dropped? <==> Rejected(p))
            && (m.Dropped? ==>
                  && m.drop.reason == ValidationError && m.drop.packetId == p.id && m.drop.lifecycleId == p.lifecycleId
                  && (|p.payload| > 512 ==> m.drop.timestampMs == p.timestampMs))
            && (m.Processed? ==> m.packet.payloadSize == |p.payload| && SamePacket(m.packet, p))
  {
    FifoHandoff(cfg, n, s);
    assert Genuine(s.settled[k]);
  }

  // ---- The publishers' messages ----

  /** The drop reason of each kind of failure that ends a packet. */
  predicate GivesReason(kind: FailureType, reason: PacketDropReason) {
    || (kind == MalformedPacket && reason == ParseError)
    || (kind == InvalidPacket && reason == ValidationError)
    || (kind == Loss && reason == SimulatedLoss)
    || (kind == ProcessingRejection && reason == ProcessingError)
  }

  /** The reason is an overflow, or that of a failure which the policy has for the packet. */
  ghost predicate Explained(cfg: FailureConfig, p: Packet, reason: PacketDropReason) {
    reason == QueueOverflow || exists kind :: Configured(cfg, p, kind) && GivesReason(kind, reason)
  }

  /** A packet with the clock that its publisher read. */
  datatype Origin = Origin(packet: Packet, nowMs: nat)

  ghost function Origins(es: seq<Event>): set<Origin> {
    set k | 0 <= k < |es| && es[k].Publish? :: Origin(es[k].packet, es[k].nowMs)
  }

  ghost predicate PhaseSays(cfg: FailureConfig, origins: set<Origin>, ph: Phase) {
    match ph
    case Injecting(p, now) => Origin(p, now) in origins
    case Admitting(p, now) => Origin(p, now) in origins
    case Dropping(p, d) => DropSays(cfg, origins, p, d)
    case _ => true
  }

  ghost predicate DropSays(cfg: FailureConfig, origins: set<Origin>, p: Packet, d: PacketDropped) {
    && d.packetId == p.id && d.lifecycleId == p.lifecycleId
    && Origin(p, d.timestampMs) in origins
    && Explained(cfg, p, d.reason)
  }

  ghost predicate SettledSays(cfg: FailureConfig, origins: set<Origin>, x: Settled) {
    !x.byWorker ==> x.message.Dropped? && DropSays(cfg, origins, x.packet, x.message.drop)
  }

  ghost predicate PublishersSay(cfg: FailureConfig, origins: set<Origin>, s: State) {
    && (forall i :: 0 <= i < |s.pubs| ==> PhaseSays(cfg, origins, s.pubs[i]))
    && (forall k :: 0 <= k < |s.settled| ==> SettledSays(cfg, origins, s.settled[k]))
  }

  lemma VerdictExplained(cfg: FailureConfig, seen: nat, p: Packet)
    requires Verdict(cfg, seen, p).isTerminal
    ensures Explained(cfg, p, InjectedReason(Verdict(cfg, seen, p).kind))
  {
    FailsOnlyAsConfigured(cfg, seen, p);
    var kind := Verdict(cfg, seen, p).kind;
    assert Configured(cfg, p, kind) && GivesReason(kind, InjectedReason(kind));
  }

  lemma InjectSays(cfg: FailureConfig, origins: set<Origin>, s: State, i: nat)
    requires Enabled(s, Inject(i)) && PhaseSays(cfg, origins, s.pubs[i])
    ensures PhaseSays(cfg, origins, Apply(cfg, s, Inject(i)).pubs[i])
  {
    if Verdict(cfg, s.seen, s.pubs[i].packet).isTerminal {
      VerdictExplained(cfg, s.seen, s.pubs[i].packet);
    }
  }

  lemma PublisherStepSays(cfg: FailureConfig, origins: set<Origin>, s: State, e: Event)
    requires e.Inject? || e.Admit? || e.CountRx?
    requires Enabled(s, e) && PublishersSay(cfg, origins, s)
    ensures PublishersSay(cfg, origins, Apply(cfg, s, e))
  {
    var s' := Apply(cfg, s, e);
    assert PhaseSays(cfg, origins, s.pubs[e.i]);
    if e.Inject? {
      InjectSays(cfg, origins, s, e.i);
    }
    assert s'.settled == s.settled;
  }

  lemma StepSays(cfg: FailureConfig, origins: set<Origin>, s: State, e: Event)
    requires !e.Publish? && Enabled(s, e) && PublishersSay(cfg, origins, s)
    ensures PublishersSay(cfg, origins, Apply(cfg, s, e))
  {
    match e
    case Inject(_) => PublisherStepSays(cfg, origins, s, e);
    case Admit(_) => PublisherStepSays(cfg, origins, s, e);
    case CountRx(_) => PublisherStepSays(cfg, origins, s, e);
    case PublishDrop(i) => assert PhaseSays(cfg, origins, s.pubs[i]);
    case _ =>
  }

  lemma {:induction false} RunSays(cfg: FailureConfig, origins: set<Origin>, s: State, es: seq<Event>)
    requires Runs(cfg, s, es) && PublishersSay(cfg, origins, s) && Origins(es) <= origins
    ensures PublishersSay(cfg, origins, After(cfg, s, es))
    decreases |es|
  {
    if es == [] {
    } else {
      var s1 := Apply(cfg, s, es[0]);
      if es[0].Publish? {
        assert Origin(es[0].packet, es[0].nowMs) in Origins(es);
      } else {
        StepSays(cfg, origins, s, es[0]);
      }
      assert PublishersSay(cfg, origins, s1);
      forall x | x in Origins(es[1..]) ensures x in Origins(es) {
        var k :| 0 <= k < |es| - 1 && es[1..][k].Publish? && x == Origin(es[1..][k].packet, es[1..][k].nowMs);
        assert es[k + 1] == es[1..][k];
      }
      RunSays(cfg, origins, s1, es[1..]);
    }
  }

  /** In every run, a message of a publisher is a drop that names the packet and carries the
      clock read at the packet's publication; its reason is an overflow, or that of a kind of
      failure which the policy has for this very packet. So no drop is without a known cause. */
  lemma PublisherVerdict(cfg: FailureConfig, n: nat, es: seq<Event>, k: nat)
    requires Runs(cfg, Init(n), es)
    requires k < |After(cfg, Init(n), es).settled| && !After(cfg, Init(n), es).settled[k].byWorker
    ensures var x := After(cfg, Init(n), es).settled[k];
            && x.message.Dropped?
            && x.message.drop.packetId == x.packet.id && x.message.drop.lifecycleId == x.packet.lifecycleId
            && (exists j :: 0 <= j < |es| && es[j].Publish? && es[j].packet == x.packet
                            && es[j].nowMs == x.message.drop.timestampMs)
            && Explained(cfg, x.packet, x.message.drop.reason)
            && x.message.drop.reason != InternalError
  {
    RunSays(cfg, Origins(es), Init(n), es);
    var x := After(cfg, Init(n), es).settled[k];
    assert SettledSays(cfg, Origins(es), x);
    var j :| 0 <= j < |es| && es[j].Publish? && Origin(x.packet, x.message.drop.timestampMs) == Origin(es[j].packet, es[j].nowMs);
  }

  // ---- The clock of the worker's drops ----

  ghost predicate ClockSays(clocks: set<nat>, x: Settled) {
    x.byWorker && x.message.Dropped? && |x.packet.payload| <= 512 ==> x.message.drop.timestampMs in clocks
  }

  ghost predicate ClocksSay(clocks: set<nat>, ss: seq<Settled>) {
    forall k :: 0 <= k < |ss| ==> ClockSays(clocks, ss[k])
  }

  /** The clocks that the worker read. */
  ghost function WorkerClocks(es: seq<Event>): set<nat> {
    set k | 0 <= k < |es| && es[k].Finish? :: es[k].nowMs
  }

  lemma {:induction false} RunClocks(cfg: FailureConfig, clocks: set<nat>, s: State, es: seq<Event>)
    requires Runs(cfg, s, es) && ClocksSay(clocks, s.settled) && WorkerClocks(es) <= clocks
    ensures ClocksSay(clocks, After(cfg, s, es).settled)
    decreases |es|
  {
    if es == [] {
    } else {
      if es[0].Finish? {
        assert es[0].nowMs in WorkerClocks(es);
      }
      forall t | t in WorkerClocks(es[1..]) ensures t in WorkerClocks(es) {
        var k :| 0 <= k < |es| - 1 && es[1..][k].Finish? && t == es[1..][k].nowMs;
        assert es[k + 1] == es[1..][k];
      }
      RunClocks(cfg, clocks, Apply(cfg, s, es[0]), es[1..]);
    }
  }

  /** In every run, the drop of a packet without a time stamp carries a clock that the worker
      read when it settled a packet. */
  lemma UntimedDropClock(cfg: FailureConfig, n: nat, es: seq<Event>, k: nat)
    requires Runs(cfg, Init(n), es) && k < |After(cfg, Init(n), es).settled|
    requires var x := After(cfg, Init(n), es).settled[k]; x.byWorker && |x.packet.payload| <= 512 && x.packet.timestampMs == 0
    ensures var x := After(cfg, Init(n), es).settled[k];
            x.message.Dropped? && exists j :: 0 <= j < |es| && es[j] == Finish(x.message.drop.timestampMs)
  {
    var s := After(cfg, Init(n), es);
    RunClocks(cfg, WorkerClocks(es), Init(n), es);
    assert Reachable(cfg, n, s);
    WorkerVerdict(cfg, n, s, k);
    assert ClockSays(WorkerClocks(es), s.settled[k]);
    var j :| 0 <= j < |es| && es[j].Finish? && es[j].nowMs == s.settled[k].message.drop.timestampMs;
  }

  // ---- What the statistics receive ----

  /** A processed message carries the length of its payload. */
  predicate Sized(d: Delivery) {
    d.End? && d.message.Processed? ==> d.message.packet.payloadSize == |d.message.packet.payload|
  }

  ghost predicate AllSized(ds: seq<Delivery>) {
    forall k :: 0 <= k < |ds| ==> Sized(ds[k])
  }

  lemma {:induction false} RunSized(cfg: FailureConfig, s: State, es: seq<Event>)
    requires Runs(cfg, s, es) && AllSized(s.delivered)
    ensures AllSized(After(cfg, s, es).delivered)
    decreases |es|
  {
    if es == [] {
    } else {
      StepSized(cfg, s, es[0]);
      RunSized(cfg, Apply(cfg, s, es[0]), es[1..]);
    }
  }

  lemma StepSized(cfg: FailureConfig, s: State, e: Event)
    requires Enabled(s, e) && AllSized(s.delivered)
    ensures AllSized(Apply(cfg, s, e).delivered)
  {
  }

  /** The payload lengths of the packets that are credited as processed, in order. */
  ghost function PayloadLengths(ds: seq<Delivery>): seq<nat> {
    if ds == [] then []
    else
      var n := |ds| - 1;
      PayloadLengths(ds[..n]) + if CreditOf(ds, n) == FirstProcessed then [|ds[n].message.packet.payload|] else []
  }

  lemma {:induction false} SizesAreLengths(ds: seq<Delivery>)
    requires AllSized(ds)
    ensures Sizes(ds) == PayloadLengths(ds)
  {
    if ds == [] {
    } else {
      var n := |ds| - 1;
      SizesAreLengths(ds[..n]);
      assert Sized(ds[n]);
    }
  }

  /** In every reachable state the received bytes are the payload lengths, summed over the
      packets that are credited as processed. */
  lemma ReceivedBytesArePayload(cfg: FailureConfig, n: nat, s: State, clock: seq<nat>)
    requires Reachable(cfg, n, s) && |clock| == |s.delivered|
    ensures Fold(s.delivered, clock).rxBytes == Total(PayloadLengths(s.delivered))
  {
    var es :| Runs(cfg, Init(n), es) && After(cfg, Init(n), es) == s;
    RunSized(cfg, Init(n), es);
    SizesAreLengths(s.delivered);
    CountersMeasure(s.delivered, clock);
  }

  /** A processed message whose ingress time is known and not later than the handler's clock. */
  predicate Timed(d: Delivery, nowNs: nat) {
    d.End? && d.message.Processed? ==> 0 < d.message.packet.ingressTimestampNs <= nowNs
  }

  /** If every processed message has such a time, each packet credited as processed adds
      exactly one latency sample. */
  lemma {:induction false} EveryProcessedIsSampled(ds: seq<Delivery>, clock: seq<nat>)
    requires |ds| == |clock| && forall k :: 0 <= k < |ds| ==> Timed(ds[k], clock[k])
    ensures Fold(ds, clock).samples == Fold(ds, clock).processed
  {
    if ds == [] {
    } else {
      var n := |ds| - 1;
      EveryProcessedIsSampled(ds[..n], clock[..n]);
      assert Timed(ds[n], clock[n]);
    }
  }
}
