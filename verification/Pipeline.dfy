/**
 * The packet pipeline as an interleaved step system. Any number of publisher threads run
 * the processor's `PacketRx` callback; one worker thread drains the bounded queue. Each
 * event below is one lock section, one atomic operation or one terminal publication, so
 * a sequence of events is one interleaving of the threads.
 */
module Pipeline {
  import opened Packets
  import opened FailureInjection

  const MAX_QUEUE_SIZE := 1024
  const MAX_PAYLOAD_SIZE := 512

  /** Where a publisher stands in the delivery of one `PacketRx` message. The statistics
      are subscribed after the processor, so `Counting` comes last. */
  datatype Phase =
    | Idle
    | Injecting(packet: Packet, nowMs: nat)
    | Admitting(packet: Packet, nowMs: nat)
    | Dropping(packet: Packet, drop: PacketDropped)
    | Counting

  datatype Worker = Waiting | Holding(packet: Packet) | Exited

  /** A terminal message together with the packet that it ends. */
  datatype Settled = Settled(packet: Packet, message: Terminal, byWorker: bool)

  /** A message for which the statistics' handler has run. */
  datatype Delivery = Rx | End(message: Terminal)

  /** `queue`, `running` and `seen` are the processor's fields; `pubs` and `worker` are the
      threads' positions; the remaining fields record what has happened so far. */
  datatype State = State(
    pubs: seq<Phase>,
    seen: nat,
    queue: seq<Packet>,
    worker: Worker,
    running: bool,
    published: seq<Packet>,
    admitted: seq<Packet>,
    taken: seq<Packet>,
    overflows: nat,
    settled: seq<Settled>,
    udpDrops: seq<PacketDropped>,
    delivered: seq<Delivery>)

  datatype Event =
    | Publish(i: nat, packet: Packet, nowMs: nat)
    | Inject(i: nat)
    | Admit(i: nat)
    | PublishDrop(i: nat)
    | CountRx(i: nat)
    | Take
    | Finish(nowMs: nat)
    | UdpDrop(drop: PacketDropped)
    | Stop
    | Exit

  function Init(publishers: nat): State {
    State(seq(publishers, _ => Idle), 0, [], Waiting, true, [], [], [], 0, [], [], [])
  }

  /** The drop reason published for an injected terminal failure. */
  function InjectedReason(kind: FailureType): PacketDropReason {
    match kind
    case MalformedPacket => ParseError
    case InvalidPacket => ValidationError
    case Loss => SimulatedLoss
    case ProcessingRejection => ProcessingError
    case _ => InternalError
  }

  function DropOf(p: Packet, reason: PacketDropReason, nowMs: nat): PacketDropped {
    PacketDropped(reason, nowMs, p.id, p.lifecycleId)
  }

  /** The terminal message the worker publishes for a packet. */
  function WorkerMessage(p: Packet, nowMs: nat): Terminal {
    if |p.payload| > MAX_PAYLOAD_SIZE then Dropped(DropOf(p, ValidationError, p.timestampMs))
    else if p.timestampMs == 0 then Dropped(DropOf(p, ValidationError, nowMs))
    else Processed(p.(payloadSize := |p.payload|))
  }

  predicate Enabled(s: State, e: Event) {
    match e
    case Publish(i, _, _) => i < |s.pubs| && s.pubs[i].Idle?
    case Inject(i) => i < |s.pubs| && s.pubs[i].Injecting?
    case Admit(i) => i < |s.pubs| && s.pubs[i].Admitting?
    case PublishDrop(i) => i < |s.pubs| && s.pubs[i].Dropping?
    case CountRx(i) => i < |s.pubs| && s.pubs[i].Counting?
    case Take => s.worker.Waiting? && s.queue != []
    case Finish(_) => s.worker.Holding?
    case UdpDrop(_) => true
    case Stop => true
    case Exit => s.worker.Waiting? && !s.running && s.queue == []
  }

  function Settle(s: State, p: Packet, message: Terminal, byWorker: bool): State {
    s.(settled := s.settled + [Settled(p, message, byWorker)],
       delivered := s.delivered + [End(message)])
  }

  function Apply(cfg: FailureConfig, s: State, e: Event): State
    requires Enabled(s, e)
  {
    match e
    case Publish(i, p, now) =>
      s.(pubs := s.pubs[i := Injecting(p, now)], published := s.published + [p])
    case Inject(i) =>
      var p, now := s.pubs[i].packet, s.pubs[i].nowMs;
      var verdict := Verdict(cfg, s.seen, p);
      var next := if verdict.isTerminal then Dropping(p, DropOf(p, InjectedReason(verdict.kind), now))
                  else Admitting(p, now);
      s.(pubs := s.pubs[i := next], seen := SeenNext(cfg, s.seen, p))
    case Admit(i) =>
      var p, now := s.pubs[i].packet, s.pubs[i].nowMs;
      if |s.queue| >= MAX_QUEUE_SIZE then
        s.(pubs := s.pubs[i := Dropping(p, DropOf(p, QueueOverflow, now))], overflows := s.overflows + 1)
      else
        s.(pubs := s.pubs[i := Counting], queue := s.queue + [p], admitted := s.admitted + [p])
    case PublishDrop(i) =>
      Settle(s.(pubs := s.pubs[i := Counting]), s.pubs[i].packet, Dropped(s.pubs[i].drop), false)
    case CountRx(i) =>
      s.(pubs := s.pubs[i := Idle], delivered := s.delivered + [Rx])
    case Take =>
      s.(queue := s.queue[1..], worker := Holding(s.queue[0]), taken := s.taken + [s.queue[0]])
    case Finish(now) =>
      Settle(s.(worker := Waiting), s.worker.packet, WorkerMessage(s.worker.packet, now), true)
    case UdpDrop(d) =>
      s.(udpDrops := s.udpDrops + [d], delivered := s.delivered + [End(Dropped(d))])
    case Stop => s.(running := false)
    case Exit => s.(worker := Exited)
  }

  predicate Runs(cfg: FailureConfig, s: State, es: seq<Event>)
    decreases |es|
  {
    es == [] || (Enabled(s, es[0]) && Runs(cfg, Apply(cfg, s, es[0]), es[1..]))
  }

  function After(cfg: FailureConfig, s: State, es: seq<Event>): State
    requires Runs(cfg, s, es)
    decreases |es|
  {
    if es == [] then s else After(cfg, Apply(cfg, s, es[0]), es[1..])
  }

  ghost predicate Reachable(cfg: FailureConfig, n: nat, s: State) {
    exists es :: Runs(cfg, Init(n), es) && After(cfg, Init(n), es) == s
  }

  /** No packet is between its publication and its terminal message. */
  predicate Quiet(s: State) {
    && (forall i :: 0 <= i < |s.pubs| ==> s.pubs[i].Idle?)
    && s.queue == []
    && !s.worker.Holding?
  }

  lemma {:induction false} RunsConcat(cfg: FailureConfig, s: State, es: seq<Event>, fs: seq<Event>)
    requires Runs(cfg, s, es) && Runs(cfg, After(cfg, s, es), fs)
    ensures Runs(cfg, s, es + fs)
    ensures After(cfg, s, es + fs) == After(cfg, After(cfg, s, es), fs)
    decreases |es|
  {
    if es == [] {
      assert es + fs == fs;
    } else {
      RunsConcat(cfg, Apply(cfg, s, es[0]), es[1..], fs);
      assert (es + fs)[1..] == es[1..] + fs;
    }
  }

  // ---- Conservation: nothing is lost or duplicated ----

  function Held(ph: Phase): multiset<Packet> {
    if ph.Idle? || ph.Counting? then multiset{} else multiset{ph.packet}
  }

  function InHands(pubs: seq<Phase>): multiset<Packet> {
    if pubs == [] then multiset{} else Held(pubs[0]) + InHands(pubs[1..])
  }

  function WorkerHand(w: Worker): seq<Packet> {
    if w.Holding? then [w.packet] else []
  }

  function SettledPackets(ss: seq<Settled>): seq<Packet> {
    seq(|ss|, k requires 0 <= k < |ss| => ss[k].packet)
  }

  ghost predicate Conserved(s: State) {
    multiset(s.published)
    == InHands(s.pubs) + multiset(s.queue) + multiset(WorkerHand(s.worker)) + multiset(SettledPackets(s.settled))
  }

  /** Conservation of one packet value. */
  ghost predicate ConservedAt(s: State, q: Packet) {
    multiset(s.published)[q]
    == InHands(s.pubs)[q] + multiset(s.queue)[q] + multiset(WorkerHand(s.worker))[q] + multiset(SettledPackets(s.settled))[q]
  }

  lemma {:induction false} InHandsUpdate(pubs: seq<Phase>, i: nat, ph: Phase, q: Packet)
    requires i < |pubs|
    ensures InHands(pubs[i := ph])[q] + Held(pubs[i])[q] == InHands(pubs)[q] + Held(ph)[q]
  {
    if i > 0 {
      InHandsUpdate(pubs[1..], i - 1, ph, q);
      assert pubs[i := ph][1..] == pubs[1..][i - 1 := ph];
    } else {
      assert pubs[i := ph][1..] == pubs[1..];
    }
  }

  lemma {:induction false} IdleHoldNothing(pubs: seq<Phase>)
    requires forall i :: 0 <= i < |pubs| ==> pubs[i].Idle?
    ensures InHands(pubs) == multiset{}
  {
    if pubs == [] {
    } else {
      IdleHoldNothing(pubs[1..]);
    }
  }

  lemma SettledSnoc(ss: seq<Settled>, x: Settled)
    ensures SettledPackets(ss + [x]) == SettledPackets(ss) + [x.packet]
  {
  }

  lemma InjectConserves(cfg: FailureConfig, s: State, i: nat, q: Packet)
    requires Enabled(s, Inject(i)) && ConservedAt(s, q)
    ensures ConservedAt(Apply(cfg, s, Inject(i)), q)
  {
    var ph := Apply(cfg, s, Inject(i)).pubs[i];
    assert Held(ph) == Held(s.pubs[i]);
    InHandsUpdate(s.pubs, i, ph, q);
  }

  lemma AdmitConserves(cfg: FailureConfig, s: State, i: nat, q: Packet)
    requires Enabled(s, Admit(i)) && ConservedAt(s, q)
    ensures ConservedAt(Apply(cfg, s, Admit(i)), q)
  {
    var p, now := s.pubs[i].packet, s.pubs[i].nowMs;
    if |s.queue| >= MAX_QUEUE_SIZE {
      InHandsUpdate(s.pubs, i, Dropping(p, DropOf(p, QueueOverflow, now)), q);
    } else {
      InHandsUpdate(s.pubs, i, Counting, q);
    }
  }

  lemma PublishDropConserves(cfg: FailureConfig, s: State, i: nat, q: Packet)
    requires Enabled(s, PublishDrop(i)) && ConservedAt(s, q)
    ensures ConservedAt(Apply(cfg, s, PublishDrop(i)), q)
  {
    InHandsUpdate(s.pubs, i, Counting, q);
    SettledSnoc(s.settled, Settled(s.pubs[i].packet, Dropped(s.pubs[i].drop), false));
  }

  lemma TakeConserves(cfg: FailureConfig, s: State, q: Packet)
    requires Enabled(s, Take) && ConservedAt(s, q)
    ensures ConservedAt(Apply(cfg, s, Take), q)
  {
    var s' := Apply(cfg, s, Take);
    assert s.queue == [s.queue[0]] + s.queue[1..];
    assert multiset(s.queue)[q] == multiset(WorkerHand(s'.worker))[q] + multiset(s'.queue)[q];
  }

  lemma FinishConserves(cfg: FailureConfig, s: State, now: nat, q: Packet)
    requires Enabled(s, Finish(now)) && ConservedAt(s, q)
    ensures ConservedAt(Apply(cfg, s, Finish(now)), q)
  {
    SettledSnoc(s.settled, Settled(s.worker.packet, WorkerMessage(s.worker.packet, now), true));
  }

  lemma BoundaryConserves(cfg: FailureConfig, s: State, e: Event, q: Packet)
    requires e.Publish? || e.CountRx? || e.UdpDrop? || e.Stop?
    requires Enabled(s, e) && ConservedAt(s, q)
    ensures ConservedAt(Apply(cfg, s, e), q)
  {
    if e.Publish? {
      InHandsUpdate(s.pubs, e.i, Injecting(e.packet, e.nowMs), q);
    } else if e.CountRx? {
      InHandsUpdate(s.pubs, e.i, Idle, q);
    }
  }

  lemma StepConserves(cfg: FailureConfig, s: State, e: Event, q: Packet)
    requires Enabled(s, e) && ConservedAt(s, q)
    ensures ConservedAt(Apply(cfg, s, e), q)
  {
    match e
    case Inject(i) => InjectConserves(cfg, s, i, q);
    case Admit(i) => AdmitConserves(cfg, s, i, q);
    case PublishDrop(i) => PublishDropConserves(cfg, s, i, q);
    case Take => TakeConserves(cfg, s, q);
    case Finish(now) => FinishConserves(cfg, s, now, q);
    case Exit =>
    case _ => BoundaryConserves(cfg, s, e, q);
  }

  lemma {:induction false} RunConserves(cfg: FailureConfig, s: State, es: seq<Event>, q: Packet)
    requires Runs(cfg, s, es) && ConservedAt(s, q)
    ensures ConservedAt(After(cfg, s, es), q)
    decreases |es|
  {
    if es == [] {
    } else {
      StepConserves(cfg, s, es[0], q);
      RunConserves(cfg, Apply(cfg, s, es[0]), es[1..], q);
    }
  }

  lemma ConservedFromCounts(s: State)
    requires forall q :: ConservedAt(s, q)
    ensures Conserved(s)
  {
    var parts := InHands(s.pubs) + multiset(s.queue) + multiset(WorkerHand(s.worker)) + multiset(SettledPackets(s.settled));
    forall q ensures multiset(s.published)[q] == parts[q] {
      assert ConservedAt(s, q);
    }
    assert multiset(s.published) == parts;
  }

  /** In every reachable state the published packets are exactly those in a publisher's
      hands, queued, in the worker's hands, or ended by a terminal message. */
  lemma Conservation(cfg: FailureConfig, n: nat, s: State)
    requires Reachable(cfg, n, s)
    ensures Conserved(s)
    ensures Quiet(s) ==> multiset(s.published) == multiset(SettledPackets(s.settled))
  {
    var es :| Runs(cfg, Init(n), es) && After(cfg, Init(n), es) == s;
    forall q ensures ConservedAt(s, q) {
      IdleHoldNothing(Init(n).pubs);
      RunConserves(cfg, Init(n), es, q);
    }
    ConservedFromCounts(s);
    if Quiet(s) {
      IdleHoldNothing(s.pubs);
    }
  }

  // ---- The bounded first-in first-out handoff ----

  /** The packets the worker has settled, in order. */
  function WorkerSettled(ss: seq<Settled>): seq<Settled> {
    if ss == [] then []
    else
      var init, last := WorkerSettled(ss[..|ss| - 1]), ss[|ss| - 1];
      if last.byWorker then init + [last] else init
  }

  lemma WorkerSettledSnoc(ss: seq<Settled>, x: Settled)
    ensures WorkerSettled(ss + [x]) == if x.byWorker then WorkerSettled(ss) + [x] else WorkerSettled(ss)
  {
    assert (ss + [x])[..|ss|] == ss;
  }

  predicate NamesPacket(d: PacketDropped, p: Packet) {
    d.packetId == p.id && d.lifecycleId == p.lifecycleId
  }

  /** A worker's message is its verdict on the packet; a publisher's is a drop of the packet. */
  ghost predicate Genuine(x: Settled) {
    if x.byWorker then exists now: nat :: x.message == WorkerMessage(x.packet, now)
    else x.message.Dropped? && NamesPacket(x.message.drop, x.packet)
  }

  ghost predicate AllGenuine(ss: seq<Settled>) {
    forall k :: 0 <= k < |ss| ==> Genuine(ss[k])
  }

  predicate DropsNamePackets(pubs: seq<Phase>) {
    forall i :: 0 <= i < |pubs| && pubs[i].Dropping? ==> NamesPacket(pubs[i].drop, pubs[i].packet)
  }

  ghost predicate Handoff(s: State) {
    && |s.queue| <= MAX_QUEUE_SIZE
    && s.admitted == s.taken + s.queue
    && s.taken == SettledPackets(WorkerSettled(s.settled)) + WorkerHand(s.worker)
    && AllGenuine(s.settled)
    && DropsNamePackets(s.pubs)
  }

  lemma GenuineSnoc(ss: seq<Settled>, x: Settled)
    requires AllGenuine(ss) && Genuine(x)
    ensures AllGenuine(ss + [x])
  {
  }

  lemma PublishDropKeepsHandoff(cfg: FailureConfig, s: State, i: nat)
    requires Enabled(s, PublishDrop(i)) && Handoff(s)
    ensures Handoff(Apply(cfg, s, PublishDrop(i)))
  {
    var x := Settled(s.pubs[i].packet, Dropped(s.pubs[i].drop), false);
    WorkerSettledSnoc(s.settled, x);
    GenuineSnoc(s.settled, x);
  }

  lemma FinishKeepsHandoff(cfg: FailureConfig, s: State, now: nat)
    requires Enabled(s, Finish(now)) && Handoff(s)
    ensures Handoff(Apply(cfg, s, Finish(now)))
  {
    var x := Settled(s.worker.packet, WorkerMessage(s.worker.packet, now), true);
    assert Genuine(x);
    WorkerSettledSnoc(s.settled, x);
    SettledSnoc(WorkerSettled(s.settled), x);
    GenuineSnoc(s.settled, x);
  }

  lemma AdmitKeepsHandoff(cfg: FailureConfig, s: State, i: nat)
    requires Enabled(s, Admit(i)) && Handoff(s)
    ensures Handoff(Apply(cfg, s, Admit(i)))
  {
    var s' := Apply(cfg, s, Admit(i));
    assert s'.settled == s.settled && s'.taken == s.taken && s'.worker == s.worker;
    assert s'.admitted == s'.taken + s'.queue;
  }

  lemma TakeKeepsHandoff(cfg: FailureConfig, s: State)
    requires Enabled(s, Take) && Handoff(s)
    ensures Handoff(Apply(cfg, s, Take))
  {
    var s' := Apply(cfg, s, Take);
    assert s.queue == [s.queue[0]] + s.queue[1..];
    assert s'.admitted == s'.taken + s'.queue;
    assert s'.settled == s.settled && s'.pubs == s.pubs;
  }

  lemma StepKeepsHandoff(cfg: FailureConfig, s: State, e: Event)
    requires Enabled(s, e) && Handoff(s)
    ensures Handoff(Apply(cfg, s, e))
  {
    match e
    case PublishDrop(i) => PublishDropKeepsHandoff(cfg, s, i);
    case Finish(now) => FinishKeepsHandoff(cfg, s, now);
    case Admit(i) => AdmitKeepsHandoff(cfg, s, i);
    case Take => TakeKeepsHandoff(cfg, s);
    case _ =>
  }

  lemma {:induction false} RunKeepsHandoff(cfg: FailureConfig, s: State, es: seq<Event>)
    requires Runs(cfg, s, es) && Handoff(s)
    ensures Handoff(After(cfg, s, es))
    decreases |es|
  {
    if es == [] {
    } else {
      StepKeepsHandoff(cfg, s, es[0]);
      RunKeepsHandoff(cfg, Apply(cfg, s, es[0]), es[1..]);
    }
  }

  /** In every run the queue stays bounded, the worker takes packets in admission order, and
      it settles them in the order taken, each with its own verdict. */
  lemma FifoHandoff(cfg: FailureConfig, n: nat, s: State)
    requires Reachable(cfg, n, s)
    ensures Handoff(s)
    ensures s.taken <= s.admitted && |s.admitted| - |s.taken| <= MAX_QUEUE_SIZE
  {
    var es :| Runs(cfg, Init(n), es) && After(cfg, Init(n), es) == s;
    RunKeepsHandoff(cfg, Init(n), es);
  }

  predicate Overflowing(ph: Phase) {
    ph.Dropping? && ph.drop.reason == QueueOverflow
  }

  /** A step turns a publisher to a `QueueOverflow` drop exactly when it is that publisher's
      admission step and 1024 admitted packets are untaken; otherwise admission appends. */
  lemma OverflowExactlyWhenFull(cfg: FailureConfig, n: nat, s: State, e: Event, i: nat)
    requires Reachable(cfg, n, s) && Enabled(s, e)
    requires i < |s.pubs| && !Overflowing(s.pubs[i])
    ensures Overflowing(Apply(cfg, s, e).pubs[i])
            <==> e == Admit(i) && |s.admitted| - |s.taken| == 1024
    ensures e == Admit(i) && |s.admitted| - |s.taken| < 1024
            ==> Apply(cfg, s, e).admitted == s.admitted + [s.pubs[i].packet]
  {
    FifoHandoff(cfg, n, s);
  }

  /** When the worker exits, every packet admitted so far has been taken and settled. */
  lemma ExitAfterDrain(cfg: FailureConfig, n: nat, s: State)
    requires Reachable(cfg, n, s) && Enabled(s, Exit)
    ensures s.taken == s.admitted
    ensures SettledPackets(WorkerSettled(s.settled)) == s.admitted
  {
    FifoHandoff(cfg, n, s);
  }
}
