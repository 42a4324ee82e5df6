/**
 * Replay determinism. With one publisher, what each side of the pipeline reports is a
 * function of the ingress packets and the failure policy. The order in which both sides
 * are merged is not, and this module settles exactly when it is.
 */
module Replay {
  import opened Packets
  import opened FailureInjection
  import opened Pipeline

  /** A terminal outcome as replay compares it: type, lifecycle and drop reason. */
  datatype Outcome = Outcome(processed: bool, lifecycleId: nat, reason: PacketDropReason)

  function OutcomeOf(t: Terminal): Outcome {
    match t
    case Processed(p) => Outcome(true, p.lifecycleId, Unknown)
    case Dropped(d) => Outcome(false, d.lifecycleId, d.reason)
  }

  /** The ordered terminal history. */
  function History(ss: seq<Settled>): seq<Outcome> {
    seq(|ss|, k requires 0 <= k < |ss| => OutcomeOf(ss[k].message))
  }

  function PublisherHistory(ss: seq<Settled>): seq<Outcome> {
    if ss == [] then []
    else
      var init, last := PublisherHistory(ss[..|ss| - 1]), ss[|ss| - 1];
      if last.byWorker then init else init + [OutcomeOf(last.message)]
  }

  function WorkerOutcome(p: Packet): Outcome {
    OutcomeOf(WorkerMessage(p, 0))
  }

  function WorkerOutcomes(ps: seq<Packet>): seq<Outcome> {
    seq(|ps|, k requires 0 <= k < |ps| => WorkerOutcome(ps[k]))
  }

  // ---- The reference: what a packet's place in the ingress list determines ----

  /** The k-th ingress packet is not ended by an injected failure. */
  predicate Survives(cfg: FailureConfig, ps: seq<Packet>, k: nat)
    requires k < |ps|
  {
    !VerdictAt(cfg, ps, k).isTerminal
  }

  function Fate(cfg: FailureConfig, ps: seq<Packet>, k: nat): Outcome
    requires k < |ps|
  {
    if Survives(cfg, ps, k) then WorkerOutcome(ps[k])
    else Outcome(false, ps[k].lifecycleId, InjectedReason(VerdictAt(cfg, ps, k).kind))
  }

  /** The fates in ingress order. */
  function Word(cfg: FailureConfig, ps: seq<Packet>): seq<Outcome> {
    seq(|ps|, k requires 0 <= k < |ps| => Fate(cfg, ps, k))
  }

  function Survivors(cfg: FailureConfig, ps: seq<Packet>, lo: nat, hi: nat): seq<Packet>
    requires lo <= hi <= |ps|
  {
    if lo == hi then []
    else Survivors(cfg, ps, lo, hi - 1) + if Survives(cfg, ps, hi - 1) then [ps[hi - 1]] else []
  }

  function Failures(cfg: FailureConfig, ps: seq<Packet>, lo: nat, hi: nat): seq<Outcome>
    requires lo <= hi <= |ps|
  {
    if lo == hi then []
    else Failures(cfg, ps, lo, hi - 1) + if Survives(cfg, ps, hi - 1) then [] else [Fate(cfg, ps, hi - 1)]
  }

  function AllSurvivors(cfg: FailureConfig, ps: seq<Packet>): seq<Packet> {
    Survivors(cfg, ps, 0, |ps|)
  }

  function AllFailures(cfg: FailureConfig, ps: seq<Packet>): seq<Outcome> {
    Failures(cfg, ps, 0, |ps|)
  }

  lemma SameFate(cfg: FailureConfig, ps: seq<Packet>, qs: seq<Packet>, k: nat)
    requires k < |ps| && ps <= qs
    ensures VerdictAt(cfg, ps, k) == VerdictAt(cfg, qs, k) && Fate(cfg, ps, k) == Fate(cfg, qs, k)
  {
    assert ps[..k] == qs[..k];
  }

  lemma {:induction false} SameSplit(cfg: FailureConfig, ps: seq<Packet>, qs: seq<Packet>, lo: nat, hi: nat)
    requires lo <= hi <= |ps| && ps <= qs
    ensures Survivors(cfg, ps, lo, hi) == Survivors(cfg, qs, lo, hi)
    ensures Failures(cfg, ps, lo, hi) == Failures(cfg, qs, lo, hi)
    decreases hi
  {
    if lo < hi {
      SameSplit(cfg, ps, qs, lo, hi - 1);
      SameFate(cfg, ps, qs, hi - 1);
    }
  }

  /** What one more ingress packet adds to the three references. */
  lemma OneMore(cfg: FailureConfig, ps: seq<Packet>, p: Packet)
    ensures var qs := ps + [p];
            var k := |ps|;
            && Survives(cfg, qs, k) == !Verdict(cfg, SeenAfter(cfg, ps), p).isTerminal
            && SeenAfter(cfg, qs) == SeenNext(cfg, SeenAfter(cfg, ps), p)
            && Word(cfg, qs) == Word(cfg, ps) + [Fate(cfg, qs, k)]
            && AllSurvivors(cfg, qs) == AllSurvivors(cfg, ps) + (if Survives(cfg, qs, k) then [p] else [])
            && AllFailures(cfg, qs) == AllFailures(cfg, ps) + (if Survives(cfg, qs, k) then [] else [Fate(cfg, qs, k)])
  {
    var qs := ps + [p];
    assert qs[..|ps|] == ps;
    SameSplit(cfg, ps, qs, 0, |ps|);
    forall k | 0 <= k < |ps| ensures Word(cfg, qs)[k] == Word(cfg, ps)[k] {
      SameFate(cfg, ps, qs, k);
    }
  }

  lemma {:induction false} SurvivorIndex(cfg: FailureConfig, ps: seq<Packet>, lo: nat, hi: nat, m: nat) returns (k: nat)
    requires lo <= hi <= |ps| && m < |Survivors(cfg, ps, lo, hi)|
    ensures lo <= k < hi && Survives(cfg, ps, k) && ps[k] == Survivors(cfg, ps, lo, hi)[m]
    decreases hi
  {
    if m < |Survivors(cfg, ps, lo, hi - 1)| {
      k := SurvivorIndex(cfg, ps, lo, hi - 1, m);
    } else {
      k := hi - 1;
    }
  }

  // ---- One publisher: the two sides are determined ----

  /** The packets that the injector has ruled on. */
  function Ruled(s: State): seq<Packet>
    requires |s.pubs| == 1
  {
    if s.pubs[0].Injecting? && s.published != [] then s.published[..|s.published| - 1] else s.published
  }

  function BeingAdmitted(s: State): seq<Packet>
    requires |s.pubs| == 1
  {
    if s.pubs[0].Admitting? then [s.pubs[0].packet] else []
  }

  function BeingDropped(s: State): seq<Outcome>
    requires |s.pubs| == 1
  {
    if s.pubs[0].Dropping? then [OutcomeOf(Dropped(s.pubs[0].drop))] else []
  }

  /** No admission has found the queue full. */
  predicate NoOverflow(s: State) {
    s.overflows == 0
  }

  /** The publisher handles the last published packet, under the fresh injector's verdicts. */
  ghost predicate InStep(cfg: FailureConfig, s: State) {
    && |s.pubs| == 1
    && (s.pubs[0].Injecting? ==> s.published != [] && s.pubs[0].packet == s.published[|s.published| - 1])
    && s.seen == SeenAfter(cfg, Ruled(s))
    && (s.pubs[0].Dropping? && NoOverflow(s) ==> LastIsFailed(cfg, Ruled(s), BeingDropped(s)))
  }

  predicate LastIsFailed(cfg: FailureConfig, qs: seq<Packet>, drops: seq<Outcome>) {
    qs != [] && !Survives(cfg, qs, |qs| - 1) && drops == [Fate(cfg, qs, |qs| - 1)]
  }

  ghost predicate PublisherSide(cfg: FailureConfig, s: State)
    requires |s.pubs| == 1
  {
    NoOverflow(s) ==>
      && s.admitted + BeingAdmitted(s) == AllSurvivors(cfg, Ruled(s))
      && PublisherHistory(s.settled) + BeingDropped(s) == AllFailures(cfg, Ruled(s))
  }

  lemma PublisherHistorySnoc(ss: seq<Settled>, x: Settled)
    ensures PublisherHistory(ss + [x])
            == if x.byWorker then PublisherHistory(ss) else PublisherHistory(ss) + [OutcomeOf(x.message)]
  {
    assert (ss + [x])[..|ss|] == ss;
  }

  lemma HistorySnoc(ss: seq<Settled>, x: Settled)
    ensures History(ss + [x]) == History(ss) + [OutcomeOf(x.message)]
  {
  }

  /** What an injection step does to a lone publisher. */
  lemma InjectRules(cfg: FailureConfig, s: State)
    requires InStep(cfg, s) && Enabled(s, Inject(0))
    ensures var s' := Apply(cfg, s, Inject(0));
            var qs := s.published;
            && InStep(cfg, s') && Ruled(s') == qs && qs == Ruled(s) + [s.pubs[0].packet]
            && (if Survives(cfg, qs, |qs| - 1) then s'.pubs[0].Admitting? && s'.pubs[0].packet == s.pubs[0].packet
                else s'.pubs[0].Dropping? && BeingDropped(s') == [Fate(cfg, qs, |qs| - 1)])
  {
    var p := s.pubs[0].packet;
    assert s.published == Ruled(s) + [p];
    OneMore(cfg, Ruled(s), p);
    assert s.published[..|s.published| - 1] == Ruled(s);
  }

  lemma PublishInStep(cfg: FailureConfig, s: State, e: Event)
    requires InStep(cfg, s) && Enabled(s, e) && e.Publish?
    ensures InStep(cfg, Apply(cfg, s, e)) && Ruled(Apply(cfg, s, e)) == Ruled(s)
  {
    assert (s.published + [e.packet])[..|s.published|] == s.published;
  }

  lemma OthersInStep(cfg: FailureConfig, s: State, e: Event)
    requires InStep(cfg, s) && Enabled(s, e) && !e.Publish? && !e.Inject?
    ensures InStep(cfg, Apply(cfg, s, e)) && Ruled(Apply(cfg, s, e)) == Ruled(s)
  {
    var s' := Apply(cfg, s, e);
    assert s'.published == s.published && s'.seen == s.seen && !s'.pubs[0].Injecting? == !s.pubs[0].Injecting?;
    if s'.pubs[0].Dropping? && NoOverflow(s') {
      assert s'.pubs == s.pubs && NoOverflow(s);
    }
  }

  lemma StepInStep(cfg: FailureConfig, s: State, e: Event)
    requires InStep(cfg, s) && Enabled(s, e)
    ensures InStep(cfg, Apply(cfg, s, e))
    ensures !e.Inject? ==> Ruled(Apply(cfg, s, e)) == Ruled(s)
  {
    if e.Inject? {
      InjectRules(cfg, s);
    } else if e.Publish? {
      PublishInStep(cfg, s, e);
    } else {
      OthersInStep(cfg, s, e);
    }
  }

  lemma InjectPublisherSide(cfg: FailureConfig, s: State)
    requires InStep(cfg, s) && PublisherSide(cfg, s) && Enabled(s, Inject(0))
    ensures PublisherSide(cfg, Apply(cfg, s, Inject(0)))
  {
    InjectRules(cfg, s);
    OneMore(cfg, Ruled(s), s.pubs[0].packet);
  }

  lemma SettlePublisherSide(cfg: FailureConfig, s: State, e: Event)
    requires e.PublishDrop? || e.Finish?
    requires InStep(cfg, s) && PublisherSide(cfg, s) && Enabled(s, e)
    ensures PublisherSide(cfg, Apply(cfg, s, e))
  {
    if e.PublishDrop? {
      PublisherHistorySnoc(s.settled, Settled(s.pubs[0].packet, Dropped(s.pubs[0].drop), false));
    } else {
      PublisherHistorySnoc(s.settled, Settled(s.worker.packet, WorkerMessage(s.worker.packet, e.nowMs), true));
    }
  }

  lemma AdmitPublisherSide(cfg: FailureConfig, s: State)
    requires InStep(cfg, s) && PublisherSide(cfg, s) && Enabled(s, Admit(0))
    ensures PublisherSide(cfg, Apply(cfg, s, Admit(0)))
  {
    var s' := Apply(cfg, s, Admit(0));
    if NoOverflow(s') {
      assert s'.admitted == s.admitted + BeingAdmitted(s) && BeingAdmitted(s') == [];
      assert Ruled(s') == Ruled(s) && BeingDropped(s') == BeingDropped(s) && s'.settled == s.settled;
    }
  }

  lemma OtherPublisherSide(cfg: FailureConfig, s: State, e: Event)
    requires !e.Inject? && !e.PublishDrop? && !e.Finish? && !e.Admit?
    requires InStep(cfg, s) && PublisherSide(cfg, s) && Enabled(s, e)
    ensures |Apply(cfg, s, e).pubs| == 1 && PublisherSide(cfg, Apply(cfg, s, e))
  {
    var s' := Apply(cfg, s, e);
    OthersKeepRuled(cfg, s, e);
    assert s'.admitted == s.admitted && s'.settled == s.settled && s'.overflows == s.overflows;
    assert BeingAdmitted(s') == BeingAdmitted(s) && BeingDropped(s') == BeingDropped(s);
  }

  lemma OthersKeepRuled(cfg: FailureConfig, s: State, e: Event)
    requires InStep(cfg, s) && Enabled(s, e) && !e.Inject?
    ensures |Apply(cfg, s, e).pubs| == 1 && Ruled(Apply(cfg, s, e)) == Ruled(s)
  {
    if e.Publish? {
      assert (s.published + [e.packet])[..|s.published|] == s.published;
    }
  }

  lemma StepPublisherSide(cfg: FailureConfig, s: State, e: Event)
    requires InStep(cfg, s) && PublisherSide(cfg, s) && Enabled(s, e)
    ensures InStep(cfg, Apply(cfg, s, e)) && PublisherSide(cfg, Apply(cfg, s, e))
  {
    StepInStep(cfg, s, e);
    match e
    case Inject(_) => InjectPublisherSide(cfg, s);
    case PublishDrop(_) => SettlePublisherSide(cfg, s, e);
    case Finish(_) => SettlePublisherSide(cfg, s, e);
    case Admit(_) => AdmitPublisherSide(cfg, s);
    case _ => OtherPublisherSide(cfg, s, e);
  }

  lemma {:induction false} RunPublisherSide(cfg: FailureConfig, s: State, es: seq<Event>)
    requires Runs(cfg, s, es) && InStep(cfg, s) && PublisherSide(cfg, s)
    ensures InStep(cfg, After(cfg, s, es)) && PublisherSide(cfg, After(cfg, s, es))
    decreases |es|
  {
    if es == [] {
    } else {
      StepPublisherSide(cfg, s, es[0]);
      RunPublisherSide(cfg, Apply(cfg, s, es[0]), es[1..]);
    }
  }

  /** A complete interleaving of one publisher and the worker that handles ingress `ps`. */
  ghost predicate CompleteRun(cfg: FailureConfig, ps: seq<Packet>, es: seq<Event>) {
    && Runs(cfg, Init(1), es)
    && Quiet(After(cfg, Init(1), es))
    && After(cfg, Init(1), es).published == ps
  }

  lemma {:induction false} GenuineOutcomes(ss: seq<Settled>)
    requires forall k :: 0 <= k < |ss| ==> Genuine(ss[k])
    ensures History(WorkerSettled(ss)) == WorkerOutcomes(SettledPackets(WorkerSettled(ss)))
  {
    if ss == [] {
    } else {
      var init, x := ss[..|ss| - 1], ss[|ss| - 1];
      GenuineOutcomes(init);
      assert ss == init + [x];
      WorkerSettledSnoc(init, x);
      if x.byWorker {
        HistorySnoc(WorkerSettled(init), x);
        SettledSnoc(WorkerSettled(init), x);
        assert Genuine(x) && OutcomeOf(x.message) == WorkerOutcome(x.packet);
      }
    }
  }

  /** In every complete overflow-free run, the publisher-side drop history and the
      worker-side terminal history are the ones that the ingress list determines. */
  lemma SidesAreDetermined(cfg: FailureConfig, ps: seq<Packet>, es: seq<Event>)
    requires CompleteRun(cfg, ps, es) && NoOverflow(After(cfg, Init(1), es))
    ensures var s := After(cfg, Init(1), es);
            && PublisherHistory(s.settled) == AllFailures(cfg, ps)
            && s.taken == AllSurvivors(cfg, ps)
            && History(WorkerSettled(s.settled)) == WorkerOutcomes(AllSurvivors(cfg, ps))
  {
    var s := After(cfg, Init(1), es);
    RunPublisherSide(cfg, Init(1), es);
    assert Reachable(cfg, 1, s);
    FifoHandoff(cfg, 1, s);
    GenuineOutcomes(s.settled);
  }

  // ---- One publisher: when the merged order is determined too ----

  /** No packet that reaches the worker comes before one that is failed at injection and
      ends differently. */
  ghost predicate ConflictFree(cfg: FailureConfig, ps: seq<Packet>) {
    forall i, j :: 0 <= i < j < |ps| && Survives(cfg, ps, i) && !Survives(cfg, ps, j)
                   ==> Fate(cfg, ps, i) == Fate(cfg, ps, j)
  }

  function Outstanding(s: State): seq<Packet>
    requires |s.pubs| == 1
  {
    WorkerHand(s.worker) + s.queue + BeingAdmitted(s)
  }

  /** Letting the worker finish first would give the ingress order. */
  ghost predicate Merged(cfg: FailureConfig, s: State)
    requires |s.pubs| == 1
  {
    NoOverflow(s) ==> Ordered(cfg, Ruled(s), History(s.settled), Outstanding(s), BeingDropped(s))
  }

  ghost predicate Ordered(cfg: FailureConfig, qs: seq<Packet>, h: seq<Outcome>, out: seq<Packet>, drops: seq<Outcome>) {
    ConflictFree(cfg, qs) ==> h + WorkerOutcomes(out) + drops == Word(cfg, qs)
  }

  lemma ConflictFreePrefix(cfg: FailureConfig, ps: seq<Packet>, p: Packet)
    requires ConflictFree(cfg, ps + [p])
    ensures ConflictFree(cfg, ps)
  {
    forall i, j | 0 <= i < j < |ps| && Survives(cfg, ps, i) && !Survives(cfg, ps, j)
      ensures Fate(cfg, ps, i) == Fate(cfg, ps, j)
    {
      SameFate(cfg, ps, ps + [p], i);
      SameFate(cfg, ps, ps + [p], j);
    }
  }

  lemma Commute<T>(xs: seq<T>, x: T)
    requires forall k :: 0 <= k < |xs| ==> xs[k] == x
    ensures xs + [x] == [x] + xs
  {
  }

  /** If the last packet is failed, every survivor before it ends as it does. */
  lemma OutstandingAgree(cfg: FailureConfig, qs: seq<Packet>, done: seq<Packet>, out: seq<Packet>, k: nat)
    requires done + out == AllSurvivors(cfg, qs) && ConflictFree(cfg, qs) && k < |out|
    requires qs != [] && !Survives(cfg, qs, |qs| - 1)
    ensures WorkerOutcomes(out)[k] == Fate(cfg, qs, |qs| - 1)
  {
    assert (done + out)[|done| + k] == out[k];
    var i := SurvivorIndex(cfg, qs, 0, |qs|, |done| + k);
  }

  lemma RuledOrdered(cfg: FailureConfig, qs: seq<Packet>, p: Packet, h: seq<Outcome>, out: seq<Packet>)
    requires Ordered(cfg, qs, h, out, [])
    ensures var qs' := qs + [p];
            if Survives(cfg, qs', |qs|) then Ordered(cfg, qs', h, out + [p], [])
            else Ordered(cfg, qs', h, out, [Fate(cfg, qs', |qs|)])
  {
    OneMore(cfg, qs, p);
    if ConflictFree(cfg, qs + [p]) {
      ConflictFreePrefix(cfg, qs, p);
      assert WorkerOutcomes(out + [p]) == WorkerOutcomes(out) + [WorkerOutcome(p)];
    }
  }

  lemma DroppedOrdered(cfg: FailureConfig, qs: seq<Packet>, h: seq<Outcome>, done: seq<Packet>, out: seq<Packet>, drops: seq<Outcome>)
    requires Ordered(cfg, qs, h, out, drops) && LastIsFailed(cfg, qs, drops)
    requires done + out == AllSurvivors(cfg, qs)
    ensures Ordered(cfg, qs, h + drops, out, [])
  {
    if ConflictFree(cfg, qs) {
      forall k | 0 <= k < |out| ensures WorkerOutcomes(out)[k] == Fate(cfg, qs, |qs| - 1) {
        OutstandingAgree(cfg, qs, done, out, k);
      }
      Commute(WorkerOutcomes(out), Fate(cfg, qs, |qs| - 1));
    }
  }

  lemma FinishedOrdered(cfg: FailureConfig, qs: seq<Packet>, h: seq<Outcome>, p: Packet, rest: seq<Packet>, drops: seq<Outcome>)
    requires Ordered(cfg, qs, h, [p] + rest, drops)
    ensures Ordered(cfg, qs, h + [WorkerOutcome(p)], rest, drops)
  {
    assert WorkerOutcomes([p] + rest) == [WorkerOutcome(p)] + WorkerOutcomes(rest);
  }

  lemma InjectMerged(cfg: FailureConfig, s: State)
    requires InStep(cfg, s) && Merged(cfg, s) && Enabled(s, Inject(0))
    ensures Merged(cfg, Apply(cfg, s, Inject(0)))
  {
    if NoOverflow(s) {
      InjectRules(cfg, s);
      RuledOrdered(cfg, Ruled(s), s.pubs[0].packet, History(s.settled), Outstanding(s));
      assert Outstanding(s) + BeingAdmitted(Apply(cfg, s, Inject(0))) == Outstanding(Apply(cfg, s, Inject(0)));
    }
  }

  lemma AdmitMerged(cfg: FailureConfig, s: State)
    requires InStep(cfg, s) && Merged(cfg, s) && Enabled(s, Admit(0))
    ensures Merged(cfg, Apply(cfg, s, Admit(0)))
  {
    if |s.queue| < MAX_QUEUE_SIZE {
      assert Outstanding(Apply(cfg, s, Admit(0))) == Outstanding(s);
    }
  }

  lemma TakeMerged(cfg: FailureConfig, s: State)
    requires InStep(cfg, s) && Merged(cfg, s) && Enabled(s, Take)
    ensures Merged(cfg, Apply(cfg, s, Take))
  {
    assert s.queue == [s.queue[0]] + s.queue[1..];
    assert Outstanding(Apply(cfg, s, Take)) == Outstanding(s);
  }

  lemma OutstandingAfterDone(s: State)
    requires |s.pubs| == 1 && Handoff(s)
    ensures SettledPackets(WorkerSettled(s.settled)) + Outstanding(s) == s.admitted + BeingAdmitted(s)
  {
    var done := SettledPackets(WorkerSettled(s.settled));
    assert s.admitted == (done + WorkerHand(s.worker)) + s.queue;
  }

  lemma PublishDropMerged(cfg: FailureConfig, s: State)
    requires InStep(cfg, s) && PublisherSide(cfg, s) && Handoff(s) && Merged(cfg, s) && Enabled(s, PublishDrop(0))
    ensures Merged(cfg, Apply(cfg, s, PublishDrop(0)))
  {
    if NoOverflow(s) {
      var s' := Apply(cfg, s, PublishDrop(0));
      OutstandingAfterDone(s);
      DroppedOrdered(cfg, Ruled(s), History(s.settled), SettledPackets(WorkerSettled(s.settled)), Outstanding(s), BeingDropped(s));
      HistorySnoc(s.settled, Settled(s.pubs[0].packet, Dropped(s.pubs[0].drop), false));
      assert Outstanding(s') == Outstanding(s) && BeingDropped(s') == [] && Ruled(s') == Ruled(s);
    }
  }

  lemma FinishMerged(cfg: FailureConfig, s: State, now: nat)
    requires InStep(cfg, s) && Merged(cfg, s) && Enabled(s, Finish(now))
    ensures Merged(cfg, Apply(cfg, s, Finish(now)))
  {
    if NoOverflow(s) {
      var s' := Apply(cfg, s, Finish(now));
      var p := s.worker.packet;
      assert Outstanding(s) == [p] + Outstanding(s');
      FinishedOrdered(cfg, Ruled(s), History(s.settled), p, Outstanding(s'), BeingDropped(s));
      HistorySnoc(s.settled, Settled(p, WorkerMessage(p, now), true));
    }
  }

  lemma StepMerged(cfg: FailureConfig, s: State, e: Event)
    requires InStep(cfg, s) && PublisherSide(cfg, s) && Handoff(s) && Merged(cfg, s) && Enabled(s, e)
    ensures Merged(cfg, Apply(cfg, s, e))
  {
    match e
    case Inject(_) => InjectMerged(cfg, s);
    case Admit(_) => AdmitMerged(cfg, s);
    case PublishDrop(_) => PublishDropMerged(cfg, s);
    case Take => TakeMerged(cfg, s);
    case Finish(now) => FinishMerged(cfg, s, now);
    case _ =>
      StepInStep(cfg, s, e);
      assert Outstanding(Apply(cfg, s, e)) == Outstanding(s);
  }

  lemma {:induction false} RunMerged(cfg: FailureConfig, s: State, es: seq<Event>)
    requires Runs(cfg, s, es) && InStep(cfg, s) && PublisherSide(cfg, s) && Handoff(s) && Merged(cfg, s)
    ensures InStep(cfg, After(cfg, s, es)) && Merged(cfg, After(cfg, s, es))
    decreases |es|
  {
    if es == [] {
    } else {
      StepPublisherSide(cfg, s, es[0]);
      StepKeepsHandoff(cfg, s, es[0]);
      StepMerged(cfg, s, es[0]);
      RunMerged(cfg, Apply(cfg, s, es[0]), es[1..]);
    }
  }

  /** Without a conflict, every complete overflow-free run reports the ingress order. */
  lemma OrderIsDetermined(cfg: FailureConfig, ps: seq<Packet>, es: seq<Event>)
    requires CompleteRun(cfg, ps, es) && NoOverflow(After(cfg, Init(1), es)) && ConflictFree(cfg, ps)
    ensures History(After(cfg, Init(1), es).settled) == Word(cfg, ps)
  {
    RunMerged(cfg, Init(1), es);
    var s := After(cfg, Init(1), es);
    assert Outstanding(s) == [] && Ruled(s) == ps;
  }

  /** In particular, with no terminal failure injected the whole terminal history is the
      worker's verdict on each packet, in ingress order. */
  lemma NoFailureMeansIngressOrder(cfg: FailureConfig, ps: seq<Packet>, es: seq<Event>)
    requires CompleteRun(cfg, ps, es) && NoOverflow(After(cfg, Init(1), es))
    requires forall k :: 0 <= k < |ps| ==> Survives(cfg, ps, k)
    ensures History(After(cfg, Init(1), es).settled) == WorkerOutcomes(ps)
  {
    OrderIsDetermined(cfg, ps, es);
  }

  // ---- What a listener hears: settled packets and UDP-stage drops ----

  /** The outcomes of the terminal messages that were delivered, in order. */
  function EndOutcomes(ds: seq<Delivery>): seq<Outcome> {
    if ds == [] then []
    else
      var init, d := EndOutcomes(ds[..|ds| - 1]), ds[|ds| - 1];
      if d.End? then init + [OutcomeOf(d.message)] else init
  }

  lemma EndOutcomesSnoc(ds: seq<Delivery>, d: Delivery)
    ensures EndOutcomes(ds + [d]) == if d.End? then EndOutcomes(ds) + [OutcomeOf(d.message)] else EndOutcomes(ds)
  {
    assert (ds + [d])[..|ds|] == ds;
  }

  /** Settled packets and UDP-stage drops are all that is heard; without the latter, the
      settled packets are heard in the order in which they are settled. */
  ghost predicate Heard(s: State) {
    && |EndOutcomes(s.delivered)| == |s.settled| + |s.udpDrops|
    && (s.udpDrops == [] ==> EndOutcomes(s.delivered) == History(s.settled))
  }

  lemma SettleHeard(s: State, p: Packet, m: Terminal, byWorker: bool)
    requires Heard(s)
    ensures Heard(Settle(s, p, m, byWorker))
  {
    EndOutcomesSnoc(s.delivered, End(m));
    HistorySnoc(s.settled, Settled(p, m, byWorker));
  }

  lemma StepHeard(cfg: FailureConfig, s: State, e: Event)
    requires Enabled(s, e) && Heard(s)
    ensures Heard(Apply(cfg, s, e))
  {
    match e
    case PublishDrop(i) =>
      SettleHeard(s.(pubs := s.pubs[i := Counting]), s.pubs[i].packet, Dropped(s.pubs[i].drop), false);
    case Finish(now) =>
      SettleHeard(s.(worker := Waiting), s.worker.packet, WorkerMessage(s.worker.packet, now), true);
    case CountRx(_) => EndOutcomesSnoc(s.delivered, Rx);
    case UdpDrop(d) => EndOutcomesSnoc(s.delivered, End(Dropped(d)));
    case _ =>
  }

  lemma {:induction false} RunHeard(cfg: FailureConfig, s: State, es: seq<Event>)
    requires Runs(cfg, s, es) && Heard(s)
    ensures Heard(After(cfg, s, es))
    decreases |es|
  {
    if es == [] {
    } else {
      StepHeard(cfg, s, es[0]);
      RunHeard(cfg, Apply(cfg, s, es[0]), es[1..]);
    }
  }

  /** A complete run in which moreover the UDP stage drops `us`. */
  ghost predicate FullRun(cfg: FailureConfig, ps: seq<Packet>, us: seq<PacketDropped>, es: seq<Event>) {
    CompleteRun(cfg, ps, es) && After(cfg, Init(1), es).udpDrops == us
  }

  /** How much a complete run lets a listener hear. */
  lemma HeardLength(cfg: FailureConfig, ps: seq<Packet>, us: seq<PacketDropped>, es: seq<Event>)
    requires FullRun(cfg, ps, us, es)
    ensures |EndOutcomes(After(cfg, Init(1), es).delivered)| == |ps| + |us|
  {
    var s := After(cfg, Init(1), es);
    assert Reachable(cfg, 1, s);
    Conservation(cfg, 1, s);
    assert |multiset(s.published)| == |s.published| && |multiset(SettledPackets(s.settled))| == |s.settled|;
    RunHeard(cfg, Init(1), es);
  }
}
