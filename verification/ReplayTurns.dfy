/** Failures first: publisher and worker record one after the other. */
module ReplayTurns {
  import opened Packets
  import opened FailureInjection
  import opened Pipeline
  import opened Replay
  import opened ReplaySchedules
  import opened ReplayCapture
  import R = Recordings

  /** No packet that reaches the worker comes before one that is failed at injection. */
  ghost predicate FailuresFirst(cfg: FailureConfig, ps: seq<Packet>) {
    forall i, j :: 0 <= i < j < |ps| && Survives(cfg, ps, i) ==> Survives(cfg, ps, j)
  }

  lemma FailuresFirstPrefix(cfg: FailureConfig, ps: seq<Packet>, p: Packet)
    requires FailuresFirst(cfg, ps + [p])
    ensures FailuresFirst(cfg, ps)
  {
    forall i, j | 0 <= i < j < |ps| && Survives(cfg, ps, i) ensures Survives(cfg, ps, j) {
      SameFate(cfg, ps, ps + [p], i);
      SameFate(cfg, ps, ps + [p], j);
    }
  }

  /** While the publisher has failed the last packet, no packet has been admitted. */
  lemma NothingAdmitted(cfg: FailureConfig, s: State)
    requires InStep(cfg, s) && PublisherSide(cfg, s) && NoOverflow(s) && FailuresFirst(cfg, Ruled(s))
    requires Ruled(s) != [] && !Survives(cfg, Ruled(s), |Ruled(s)| - 1)
    ensures s.admitted == []
  {
    var qs := Ruled(s);
    if s.admitted != [] {
      var i := SurvivorIndex(cfg, qs, 0, |qs|, 0);
    }
  }

  ghost predicate LastFailed(cfg: FailureConfig, s: State)
    requires |s.pubs| == 1
  {
    Ruled(s) != [] && !Survives(cfg, Ruled(s), |Ruled(s)| - 1)
  }

  /** What an outcome that is not yet stored says about the pipeline. */
  ghost predicate Turns(cfg: FailureConfig, k: Collecting) {
    && |k.s.pubs| == 1 && |k.c.hands| == 3
    && (k.c.hands[0].Some? ==> k.s.pubs[0].Counting? && (NoOverflow(k.s) ==> LastFailed(cfg, k.s)))
    && (k.c.hands[1].Some? ==> k.s.taken != [])
    && (k.c.hands[2].Some? ==> k.s.udpDrops != [])
  }

  /** The conditions under which publisher and worker record one after the other. */
  ghost predicate Orderly(cfg: FailureConfig, s: State)
    requires |s.pubs| == 1
  {
    NoOverflow(s) && s.udpDrops == [] && FailuresFirst(cfg, Ruled(s))
  }

  ghost predicate InTurn(cfg: FailureConfig, k: Collecting)
    requires |k.s.pubs| == 1
  {
    Orderly(cfg, k.s) ==> R.OneAtATime(k.c)
  }

  /** The invariants of the pipeline on which the turns rest. */
  ghost predicate Sound(cfg: FailureConfig, s: State) {
    InStep(cfg, s) && PublisherSide(cfg, s) && Handoff(s)
  }

  /** The publisher is about to record a drop: the worker has nothing to store. */
  lemma DropAtRest(cfg: FailureConfig, k: Collecting)
    requires Sound(cfg, k.s) && Turns(cfg, k) && Orderly(cfg, k.s) && CanStep(k, Run(PublishDrop(0)))
    ensures R.AtRest(k.c)
  {
    assert LastIsFailed(cfg, Ruled(k.s), BeingDropped(k.s));
    NothingAdmitted(cfg, k.s);
    assert k.s.taken <= k.s.admitted;
    assert k.c.hands[1].None? && k.c.hands[2].None? && k.c.hands[0].None?;
  }

  /** The worker is about to record: the publisher has nothing to store. */
  lemma FinishAtRest(cfg: FailureConfig, k: Collecting, now: nat)
    requires Sound(cfg, k.s) && Turns(cfg, k) && Orderly(cfg, k.s) && CanStep(k, Run(Finish(now)))
    ensures R.AtRest(k.c)
  {
    assert k.s.taken != [];
    if k.c.hands[0].Some? {
      NothingAdmitted(cfg, k.s);
      assert false;
    }
  }

  lemma DropTurn(cfg: FailureConfig, k: Collecting)
    requires Sound(cfg, k.s) && Turns(cfg, k) && InTurn(cfg, k) && CanStep(k, Run(PublishDrop(0)))
    ensures Turns(cfg, DoStep(cfg, k, Run(PublishDrop(0)))) && InTurn(cfg, DoStep(cfg, k, Run(PublishDrop(0))))
  {
    var k' := DoStep(cfg, k, Run(PublishDrop(0)));
    StepInStep(cfg, k.s, PublishDrop(0));
    assert Ruled(k'.s) == Ruled(k.s);
    if Orderly(cfg, k.s) {
      DropAtRest(cfg, k);
      R.DrawAlone(k.c, R.Draw(0, Said(k.s, PublishDrop(0)).value));
    }
  }

  lemma FinishTurn(cfg: FailureConfig, k: Collecting, now: nat)
    requires Sound(cfg, k.s) && Turns(cfg, k) && InTurn(cfg, k) && CanStep(k, Run(Finish(now)))
    ensures Turns(cfg, DoStep(cfg, k, Run(Finish(now)))) && InTurn(cfg, DoStep(cfg, k, Run(Finish(now))))
  {
    var k' := DoStep(cfg, k, Run(Finish(now)));
    assert k'.s.pubs == k.s.pubs && k'.s.published == k.s.published && k'.s.taken == k.s.taken != [];
    assert Ruled(k'.s) == Ruled(k.s);
    if Orderly(cfg, k.s) {
      FinishAtRest(cfg, k, now);
      R.DrawAlone(k.c, R.Draw(1, Said(k.s, Finish(now)).value));
    }
  }

  lemma InjectTurn(cfg: FailureConfig, k: Collecting)
    requires Sound(cfg, k.s) && Turns(cfg, k) && InTurn(cfg, k) && CanStep(k, Run(Inject(0)))
    ensures Turns(cfg, DoStep(cfg, k, Run(Inject(0)))) && InTurn(cfg, DoStep(cfg, k, Run(Inject(0))))
  {
    InjectRules(cfg, k.s);
    var s' := Apply(cfg, k.s, Inject(0));
    if FailuresFirst(cfg, Ruled(s')) {
      FailuresFirstPrefix(cfg, Ruled(k.s), k.s.pubs[0].packet);
    }
  }

  lemma OtherTurn(cfg: FailureConfig, k: Collecting, e: Event)
    requires !e.PublishDrop? && !e.Finish? && !e.Inject?
    requires Sound(cfg, k.s) && Turns(cfg, k) && InTurn(cfg, k) && CanStep(k, Run(e))
    ensures Turns(cfg, DoStep(cfg, k, Run(e))) && InTurn(cfg, DoStep(cfg, k, Run(e)))
  {
    StepInStep(cfg, k.s, e);
  }

  lemma StoreTurn(cfg: FailureConfig, k: Collecting, t: nat)
    requires Turns(cfg, k) && InTurn(cfg, k) && CanStep(k, Store(t))
    ensures Turns(cfg, DoStep(cfg, k, Store(t))) && InTurn(cfg, DoStep(cfg, k, Store(t)))
  {
    if R.OneAtATime(k.c) {
      R.StoreAlone(k.c, R.Store(t));
    }
  }

  lemma StepTurn(cfg: FailureConfig, k: Collecting, x: Step)
    requires Sound(cfg, k.s) && Turns(cfg, k) && InTurn(cfg, k) && CanStep(k, x)
    ensures Turns(cfg, DoStep(cfg, k, x)) && InTurn(cfg, DoStep(cfg, k, x))
  {
    match x
    case Store(t) => StoreTurn(cfg, k, t);
    case Run(e) =>
      match e {
        case PublishDrop(_) => DropTurn(cfg, k);
        case Finish(now) => FinishTurn(cfg, k, now);
        case Inject(_) => InjectTurn(cfg, k);
        case _ => OtherTurn(cfg, k, e);
      }
  }

  lemma {:induction false} StepsTurn(cfg: FailureConfig, k: Collecting, xs: seq<Step>)
    requires Steps(cfg, k, xs) && Sound(cfg, k.s) && Turns(cfg, k) && InTurn(cfg, k)
    ensures Turns(cfg, Ends(cfg, k, xs)) && InTurn(cfg, Ends(cfg, k, xs))
    decreases |xs|
  {
    if xs == [] {
    } else {
      StepTurn(cfg, k, xs[0]);
      if xs[0].Run? {
        StepPublisherSide(cfg, k.s, xs[0].e);
        StepKeepsHandoff(cfg, k.s, xs[0].e);
      }
      StepsTurn(cfg, DoStep(cfg, k, xs[0]), xs[1..]);
    }
  }

  /** Failures first, room for all survivors and no UDP-stage drop: every vector is the
      per-packet outcomes in ingress order, numbered by position. */
  lemma FailuresFirstSuffices(cfg: FailureConfig, ps: seq<Packet>, xs: seq<Step>)
    requires |AllSurvivors(cfg, ps)| <= MAX_QUEUE_SIZE && FailuresFirst(cfg, ps)
    requires CollectedRun(cfg, ps, [], xs)
    ensures Vector(cfg, xs) == R.Sequenced(Word(cfg, ps))
  {
    var es := Events(xs);
    ForgetStores(cfg, Start(1), xs);
    ConditionSuffices(cfg, ps, es);
    ReportedIsSettled(cfg, ps, es);
    StartIsOpen();
    StepsTurn(cfg, Start(1), xs);
    assert Ruled(Ends(cfg, Start(1), xs).s) == ps;
    OrderlyVector(cfg, xs);
  }
}
