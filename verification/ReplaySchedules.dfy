/**
 * Schedules that exhibit what the merged terminal order can be, and the exact condition
 * under which a replay must reproduce it.
 */
module ReplaySchedules {
  import opened Packets
  import opened FailureInjection
  import opened Pipeline
  import opened Replay

  /** The first k packets of `ps` are handled by the publisher; the worker is idle. */
  ghost predicate ReadyAt(cfg: FailureConfig, s: State, ps: seq<Packet>, k: nat) {
    && k <= |ps|
    && s.pubs == [Idle]
    && s.worker.Waiting?
    && s.published == ps[..k]
    && s.udpDrops == []
    && s.seen == SeenAfter(cfg, ps[..k])
  }

  lemma RunsCons(cfg: FailureConfig, s: State, e: Event, es: seq<Event>)
    requires Enabled(s, e) && Runs(cfg, Apply(cfg, s, e), es)
    ensures Runs(cfg, s, [e] + es)
    ensures After(cfg, s, [e] + es) == After(cfg, Apply(cfg, s, e), es)
  {
    assert ([e] + es)[1..] == es;
  }

  /** Publication and injection of the next packet. */
  lemma RuleNext(cfg: FailureConfig, s: State, ps: seq<Packet>, k: nat) returns (es: seq<Event>)
    requires ReadyAt(cfg, s, ps, k) && k < |ps|
    ensures Runs(cfg, s, es)
    ensures var p := ps[k];
            After(cfg, s, es) == s.(
              published := ps[..k + 1], seen := SeenAfter(cfg, ps[..k + 1]),
              pubs := [if Survives(cfg, ps, k) then Admitting(p, 0)
                       else Dropping(p, DropOf(p, InjectedReason(VerdictAt(cfg, ps, k).kind), 0))])
  {
    var p := ps[k];
    assert ps[..k + 1] == ps[..k] + [p];
    OneMore(cfg, ps[..k], p);
    var s1 := Apply(cfg, s, Publish(0, p, 0));
    assert s1.pubs == [Injecting(p, 0)];
    RunsCons(cfg, s1, Inject(0), []);
    RunsCons(cfg, s, Publish(0, p, 0), [Inject(0)]);
    es := [Publish(0, p, 0), Inject(0)];
    assert es == [Publish(0, p, 0)] + ([Inject(0)] + []);
  }

  /** A drop is published and the publisher returns. */
  lemma DropNext(cfg: FailureConfig, s: State, p: Packet, d: PacketDropped) returns (es: seq<Event>)
    requires s.pubs == [Dropping(p, d)]
    ensures Runs(cfg, s, es)
    ensures var s' := After(cfg, s, es);
            && s'.pubs == [Idle] && s'.worker == s.worker && s'.published == s.published && s'.seen == s.seen
            && s'.udpDrops == s.udpDrops
            && s'.queue == s.queue && History(s'.settled) == History(s.settled) + [OutcomeOf(Dropped(d))]
  {
    var s1 := Apply(cfg, s, PublishDrop(0));
    assert s1.pubs == [Counting];
    RunsCons(cfg, s1, CountRx(0), []);
    RunsCons(cfg, s, PublishDrop(0), [CountRx(0)]);
    HistorySnoc(s.settled, Settled(p, Dropped(d), false));
    es := [PublishDrop(0), CountRx(0)];
    assert es == [PublishDrop(0)] + ([CountRx(0)] + []);
  }

  /** Admission of the packet in the publisher's hands. */
  lemma AdmitNext(cfg: FailureConfig, s: State, p: Packet) returns (es: seq<Event>)
    requires s.pubs == [Admitting(p, 0)]
    ensures Runs(cfg, s, es)
    ensures var s' := After(cfg, s, es);
            && s'.pubs == [Idle] && s'.worker == s.worker && s'.published == s.published && s'.seen == s.seen
            && s'.udpDrops == s.udpDrops
            && (if |s.queue| < MAX_QUEUE_SIZE then s'.queue == s.queue + [p] && s'.settled == s.settled
                else s'.queue == s.queue
                     && History(s'.settled) == History(s.settled) + [Outcome(false, p.lifecycleId, QueueOverflow)])
  {
    var s1 := Apply(cfg, s, Admit(0));
    var rest: seq<Event>;
    if |s.queue| < MAX_QUEUE_SIZE {
      assert s1.pubs == [Counting];
      RunsCons(cfg, s1, CountRx(0), []);
      rest := [CountRx(0)] + [];
    } else {
      rest := DropNext(cfg, s1, p, DropOf(p, QueueOverflow, 0));
    }
    RunsCons(cfg, s, Admit(0), rest);
    es := [Admit(0)] + rest;
  }

  /** The publisher handles one packet while the worker does not move. */
  lemma PublishNext(cfg: FailureConfig, s: State, ps: seq<Packet>, k: nat) returns (es: seq<Event>)
    requires ReadyAt(cfg, s, ps, k) && k < |ps|
    ensures Runs(cfg, s, es) && ReadyAt(cfg, After(cfg, s, es), ps, k + 1)
    ensures var s' := After(cfg, s, es);
            if !Survives(cfg, ps, k) then
              s'.queue == s.queue && History(s'.settled) == History(s.settled) + [Fate(cfg, ps, k)]
            else if |s.queue| < MAX_QUEUE_SIZE then
              s'.queue == s.queue + [ps[k]] && History(s'.settled) == History(s.settled)
            else
              s'.queue == s.queue
              && History(s'.settled) == History(s.settled) + [Outcome(false, ps[k].lifecycleId, QueueOverflow)]
  {
    var front := RuleNext(cfg, s, ps, k);
    var s1 := After(cfg, s, front);
    var back: seq<Event>;
    if Survives(cfg, ps, k) {
      back := AdmitNext(cfg, s1, ps[k]);
    } else {
      back := DropNext(cfg, s1, ps[k], s1.pubs[0].drop);
    }
    RunsConcat(cfg, s, front, back);
    es := front + back;
  }

  lemma {:induction false} Drain(cfg: FailureConfig, s: State, ps: seq<Packet>, k: nat) returns (es: seq<Event>)
    requires ReadyAt(cfg, s, ps, k)
    ensures Runs(cfg, s, es) && ReadyAt(cfg, After(cfg, s, es), ps, k)
    ensures After(cfg, s, es).queue == []
    ensures History(After(cfg, s, es).settled) == History(s.settled) + WorkerOutcomes(s.queue)
    decreases |s.queue|
  {
    if s.queue == [] {
      es := [];
    } else {
      var p := s.queue[0];
      var s1 := Apply(cfg, s, Take);
      var s2 := Apply(cfg, s1, Finish(0));
      HistorySnoc(s.settled, Settled(p, WorkerMessage(p, 0), true));
      var rest := Drain(cfg, s2, ps, k);
      RunsCons(cfg, s1, Finish(0), rest);
      RunsCons(cfg, s, Take, [Finish(0)] + rest);
      es := [Take] + ([Finish(0)] + rest);
      assert WorkerOutcomes(s.queue) == [WorkerOutcome(p)] + WorkerOutcomes(s2.queue);
    }
  }

  lemma EagerNext(cfg: FailureConfig, s: State, ps: seq<Packet>, k: nat) returns (es: seq<Event>)
    requires ReadyAt(cfg, s, ps, k) && k < |ps| && s.queue == []
    ensures Runs(cfg, s, es) && ReadyAt(cfg, After(cfg, s, es), ps, k + 1)
    ensures After(cfg, s, es).queue == []
    ensures History(After(cfg, s, es).settled) == History(s.settled) + [Fate(cfg, ps, k)]
  {
    var next := PublishNext(cfg, s, ps, k);
    var last := Drain(cfg, After(cfg, s, next), ps, k + 1);
    RunsConcat(cfg, s, next, last);
    es := next + last;
  }

  lemma WordSnoc(cfg: FailureConfig, ps: seq<Packet>, lo: nat, hi: nat)
    requires lo < hi <= |ps|
    ensures Word(cfg, ps)[lo..hi] == Word(cfg, ps)[lo..hi - 1] + [Fate(cfg, ps, hi - 1)]
  {
    assert Word(cfg, ps)[hi - 1] == Fate(cfg, ps, hi - 1);
  }

  /** The worker settles each packet before the next one is published. */
  lemma {:induction false} Eager(cfg: FailureConfig, s: State, ps: seq<Packet>, lo: nat, hi: nat) returns (es: seq<Event>)
    requires ReadyAt(cfg, s, ps, lo) && lo <= hi <= |ps| && s.queue == []
    ensures Runs(cfg, s, es) && ReadyAt(cfg, After(cfg, s, es), ps, hi)
    ensures After(cfg, s, es).queue == []
    ensures History(After(cfg, s, es).settled) == History(s.settled) + Word(cfg, ps)[lo..hi]
    decreases hi
  {
    if lo == hi {
      es := [];
    } else {
      var first := Eager(cfg, s, ps, lo, hi - 1);
      var mid := After(cfg, s, first);
      var next := EagerNext(cfg, mid, ps, hi - 1);
      RunsConcat(cfg, s, first, next);
      es := first + next;
      WordSnoc(cfg, ps, lo, hi);
    }
  }

  /** The publisher runs ahead of the worker, with room for all survivors. */
  lemma {:induction false} Batch(cfg: FailureConfig, s: State, ps: seq<Packet>, lo: nat, hi: nat) returns (es: seq<Event>)
    requires ReadyAt(cfg, s, ps, lo) && lo <= hi <= |ps| && s.queue == []
    requires |Survivors(cfg, ps, lo, hi)| <= MAX_QUEUE_SIZE
    ensures Runs(cfg, s, es) && ReadyAt(cfg, After(cfg, s, es), ps, hi)
    ensures After(cfg, s, es).queue == Survivors(cfg, ps, lo, hi)
    ensures History(After(cfg, s, es).settled) == History(s.settled) + Failures(cfg, ps, lo, hi)
    decreases hi
  {
    if lo == hi {
      es := [];
    } else {
      var first := Batch(cfg, s, ps, lo, hi - 1);
      var next := PublishNext(cfg, After(cfg, s, first), ps, hi - 1);
      RunsConcat(cfg, s, first, next);
      es := first + next;
    }
  }

  // ---- Three complete runs ----

  /** The order in which a run settles its packets. */
  function SettledOrder(cfg: FailureConfig, es: seq<Event>): seq<Outcome>
    requires Runs(cfg, Init(1), es)
  {
    History(After(cfg, Init(1), es).settled)
  }

  /** The worker drains and the rest is handled eagerly: the run is complete. */
  lemma Complete(cfg: FailureConfig, ps: seq<Packet>, es: seq<Event>, k: nat) returns (all: seq<Event>)
    requires Runs(cfg, Init(1), es) && ReadyAt(cfg, After(cfg, Init(1), es), ps, k)
    ensures FullRun(cfg, ps, [], all)
    ensures SettledOrder(cfg, es) <= SettledOrder(cfg, all)
  {
    var s := After(cfg, Init(1), es);
    var drain := Drain(cfg, s, ps, k);
    var s1 := After(cfg, s, drain);
    var rest := Eager(cfg, s1, ps, k, |ps|);
    RunsConcat(cfg, s, drain, rest);
    RunsConcat(cfg, Init(1), es, drain + rest);
    all := es + (drain + rest);
  }

  lemma EagerRun(cfg: FailureConfig, ps: seq<Packet>) returns (es: seq<Event>)
    ensures FullRun(cfg, ps, [], es) && SettledOrder(cfg, es) == Word(cfg, ps)
  {
    assert ReadyAt(cfg, Init(1), ps, 0);
    es := Eager(cfg, Init(1), ps, 0, |ps|);
  }

  lemma {:induction false} FillingIndex(cfg: FailureConfig, ps: seq<Packet>, hi: nat) returns (k: nat)
    requires hi <= |ps| && |Survivors(cfg, ps, 0, hi)| > MAX_QUEUE_SIZE
    ensures k < hi && Survives(cfg, ps, k) && |Survivors(cfg, ps, 0, k)| == MAX_QUEUE_SIZE
    decreases hi
  {
    if |Survivors(cfg, ps, 0, hi - 1)| > MAX_QUEUE_SIZE {
      k := FillingIndex(cfg, ps, hi - 1);
    } else {
      k := hi - 1;
    }
  }

  /** With more than 1024 survivors, some complete run reports an overflow. */
  lemma OverflowRun(cfg: FailureConfig, ps: seq<Packet>) returns (es: seq<Event>, m: nat)
    requires |AllSurvivors(cfg, ps)| > MAX_QUEUE_SIZE
    ensures FullRun(cfg, ps, [], es)
    ensures m < |SettledOrder(cfg, es)| && SettledOrder(cfg, es)[m].reason == QueueOverflow
  {
    var k := FillingIndex(cfg, ps, |ps|);
    assert ReadyAt(cfg, Init(1), ps, 0);
    var batch := Batch(cfg, Init(1), ps, 0, k);
    var s := After(cfg, Init(1), batch);
    var next := PublishNext(cfg, s, ps, k);
    RunsConcat(cfg, Init(1), batch, next);
    es := Complete(cfg, ps, batch + next, k + 1);
    m := |History(s.settled)|;
    assert SettledOrder(cfg, batch + next)[m].reason == QueueOverflow;
  }

  lemma RunAhead(cfg: FailureConfig, ps: seq<Packet>, i: nat, j: nat) returns (es: seq<Event>)
    requires i <= j <= |ps| && |Survivors(cfg, ps, i, j)| <= MAX_QUEUE_SIZE
    ensures Runs(cfg, Init(1), es) && ReadyAt(cfg, After(cfg, Init(1), es), ps, j)
    ensures SettledOrder(cfg, es) == Word(cfg, ps)[..i] + Failures(cfg, ps, i, j)
  {
    assert ReadyAt(cfg, Init(1), ps, 0);
    var eager := Eager(cfg, Init(1), ps, 0, i);
    var batch := Batch(cfg, After(cfg, Init(1), eager), ps, i, j);
    RunsConcat(cfg, Init(1), eager, batch);
    es := eager + batch;
  }

  /** The publisher runs ahead from packet i to packet j, so packet j's drop is reported
      before everything that packets i to j hand to the worker. */
  lemma OvertakingRun(cfg: FailureConfig, ps: seq<Packet>, i: nat, j: nat) returns (es: seq<Event>)
    requires i < j < |ps| && !Survives(cfg, ps, j)
    requires |Survivors(cfg, ps, i, j)| <= MAX_QUEUE_SIZE
    ensures FullRun(cfg, ps, [], es)
    ensures var m := i + |Failures(cfg, ps, i, j)|;
            m < |SettledOrder(cfg, es)| && SettledOrder(cfg, es)[m] == Fate(cfg, ps, j)
  {
    var ahead := RunAhead(cfg, ps, i, j + 1);
    assert Failures(cfg, ps, i, j + 1) == Failures(cfg, ps, i, j) + [Fate(cfg, ps, j)];
    es := Complete(cfg, ps, ahead, j + 1);
  }

  // ---- The first conflict ----

  /** Position i survives, position j does not, and they end differently. */
  predicate Clash<T(==)>(alive: seq<bool>, w: seq<T>, i: int, j: int)
    requires |alive| == |w|
  {
    0 <= i < j < |w| && alive[i] && !alive[j] && w[i] != w[j]
  }

  /** The earliest failed position in a clash, with the latest survivor it clashes with. */
  ghost predicate FirstClash<T(!new)>(alive: seq<bool>, w: seq<T>, i: int, j: int)
    requires |alive| == |w|
  {
    && Clash(alive, w, i, j)
    && (forall x, y :: y < j ==> !Clash(alive, w, x, y))
    && (forall x :: i < x ==> !Clash(alive, w, x, j))
  }

  lemma FindClash<T(!new)>(alive: seq<bool>, w: seq<T>, i0: int, j0: int) returns (i: int, j: int)
    requires |alive| == |w| && Clash(alive, w, i0, j0)
    ensures FirstClash(alive, w, i, j)
  {
    j := 0;
    var i1 := i0;
    while j < j0 && !(exists x :: Clash(alive, w, x, j))
      invariant 0 <= j <= j0
      invariant forall x, y :: y < j ==> !Clash(alive, w, x, y)
    {
      j := j + 1;
    }
    assert j == j0 ==> Clash(alive, w, i0, j);
    i1 :| Clash(alive, w, i1, j);
    i := j - 1;
    while !Clash(alive, w, i, j)
      invariant i1 <= i < j
      invariant forall x :: i < x ==> !Clash(alive, w, x, j)
      decreases i
    {
      i := i - 1;
    }
  }

  function Failed(alive: seq<bool>, lo: nat, hi: nat): nat
    requires lo <= hi <= |alive|
  {
    if lo == hi then 0 else Failed(alive, lo, hi - 1) + if alive[hi - 1] then 0 else 1
  }

  lemma {:induction false} FailedBound(alive: seq<bool>, lo: nat, mid: nat, hi: nat)
    requires lo < mid <= hi <= |alive| && alive[lo]
    requires forall k :: mid <= k < hi ==> alive[k]
    ensures Failed(alive, lo, hi) < mid - lo
    decreases hi
  {
    if mid < hi {
      FailedBound(alive, lo, mid, hi - 1);
    } else if lo + 1 < hi {
      FailedBound(alive, lo, mid - 1, hi - 1);
    }
  }

  /** Before the first clash's failed position, the failures come first and end like the
      survivor. */
  lemma ClashPosition<T(!new)>(alive: seq<bool>, w: seq<T>, i: int, j: int)
    requires |alive| == |w| && FirstClash(alive, w, i, j)
    ensures var m := i + Failed(alive, i, j); m < j && w[m] == w[i]
  {
    FailedBound(alive, i, j, j);
    var m := i + Failed(alive, i, j);
    if m > i {
      assert !Clash(alive, w, i, m);
      if alive[m] {
        forall k | m <= k < j ensures alive[k] {
          assert !Clash(alive, w, i, k) && !Clash(alive, w, m, k) && !Clash(alive, w, m, j);
        }
        FailedBound(alive, i, m, j);
        assert false;
      }
    }
  }

  /** Where letting the failed position overtake changes the reported order. */
  lemma OvertakingIndex<T(!new)>(alive: seq<bool>, w: seq<T>, i0: int, j0: int) returns (i: int, j: int)
    requires |alive| == |w| && Clash(alive, w, i0, j0)
    ensures 0 <= i < j < |w| && !alive[j]
    ensures i + Failed(alive, i, j) < j && w[i + Failed(alive, i, j)] != w[j]
  {
    i, j := FindClash(alive, w, i0, j0);
    ClashPosition(alive, w, i, j);
  }

  function Alive(cfg: FailureConfig, ps: seq<Packet>): seq<bool> {
    seq(|ps|, k requires 0 <= k < |ps| => Survives(cfg, ps, k))
  }

  lemma {:induction false} FailuresAreFailed(cfg: FailureConfig, ps: seq<Packet>, lo: nat, hi: nat)
    requires lo <= hi <= |ps|
    ensures |Failures(cfg, ps, lo, hi)| == Failed(Alive(cfg, ps), lo, hi)
    decreases hi
  {
    if lo < hi {
      FailuresAreFailed(cfg, ps, lo, hi - 1);
    }
  }

  lemma {:induction false} FewerSurvivors(cfg: FailureConfig, ps: seq<Packet>, lo: nat, mid: nat, hi: nat)
    requires lo <= mid <= hi <= |ps|
    ensures |Survivors(cfg, ps, lo, mid)| <= |Survivors(cfg, ps, 0, hi)|
    decreases hi
  {
    if mid < hi {
      FewerSurvivors(cfg, ps, lo, mid, hi - 1);
    } else if lo < mid {
      FewerSurvivors(cfg, ps, lo, mid - 1, hi - 1);
    }
  }

  /** The two sequences say what each position is. */
  lemma PositionSays(cfg: FailureConfig, ps: seq<Packet>, k: nat)
    requires k < |ps|
    ensures Alive(cfg, ps)[k] == Survives(cfg, ps, k) && Word(cfg, ps)[k] == Fate(cfg, ps, k)
  {
  }

  lemma ConflictIsClash(cfg: FailureConfig, ps: seq<Packet>) returns (i: nat, j: nat)
    requires !ConflictFree(cfg, ps)
    ensures Clash(Alive(cfg, ps), Word(cfg, ps), i, j)
  {
    i, j :| 0 <= i < j < |ps| && Survives(cfg, ps, i) && !Survives(cfg, ps, j) && Fate(cfg, ps, i) != Fate(cfg, ps, j);
    PositionSays(cfg, ps, i);
    PositionSays(cfg, ps, j);
  }

  lemma ConflictIndex(cfg: FailureConfig, ps: seq<Packet>) returns (i: int, j: int)
    requires !ConflictFree(cfg, ps)
    ensures 0 <= i < j < |ps| && !Survives(cfg, ps, j)
    ensures var m := i + |Failures(cfg, ps, i, j)|; m < |ps| && Word(cfg, ps)[m] != Fate(cfg, ps, j)
  {
    var i0, j0 := ConflictIsClash(cfg, ps);
    i, j := OvertakingIndex(Alive(cfg, ps), Word(cfg, ps), i0, j0);
    PositionSays(cfg, ps, j);
    FailuresAreFailed(cfg, ps, i, j);
  }

  /** With a conflict and room for all survivors, some complete run departs from the
      ingress order. */
  lemma DifferingRun(cfg: FailureConfig, ps: seq<Packet>) returns (es: seq<Event>)
    requires !ConflictFree(cfg, ps) && |AllSurvivors(cfg, ps)| <= MAX_QUEUE_SIZE
    ensures FullRun(cfg, ps, [], es) && SettledOrder(cfg, es) != Word(cfg, ps)
  {
    var i, j := ConflictIndex(cfg, ps);
    FewerSurvivors(cfg, ps, i, j, |ps|);
    es := OvertakingRun(cfg, ps, i, j);
  }

  // ---- Few survivors never overflow ----

  ghost predicate Roomy(cfg: FailureConfig, s: State)
    requires |s.pubs| == 1
  {
    |AllSurvivors(cfg, Ruled(s))| <= MAX_QUEUE_SIZE ==> NoOverflow(s)
  }

  lemma StepRoomy(cfg: FailureConfig, s: State, e: Event)
    requires InStep(cfg, s) && PublisherSide(cfg, s) && Handoff(s) && Roomy(cfg, s) && Enabled(s, e)
    ensures InStep(cfg, Apply(cfg, s, e)) && Roomy(cfg, Apply(cfg, s, e))
  {
    StepInStep(cfg, s, e);
    if e.Inject? {
      InjectRules(cfg, s);
      OneMore(cfg, Ruled(s), s.pubs[0].packet);
    } else if e.Admit? && NoOverflow(s) {
      assert |s.admitted| + 1 == |AllSurvivors(cfg, Ruled(s))|;
    }
  }

  lemma {:induction false} RunRoomy(cfg: FailureConfig, s: State, es: seq<Event>)
    requires Runs(cfg, s, es) && InStep(cfg, s) && PublisherSide(cfg, s) && Handoff(s) && Roomy(cfg, s)
    ensures InStep(cfg, After(cfg, s, es)) && Roomy(cfg, After(cfg, s, es))
    decreases |es|
  {
    if es == [] {
    } else {
      StepRoomy(cfg, s, es[0]);
      StepPublisherSide(cfg, s, es[0]);
      StepKeepsHandoff(cfg, s, es[0]);
      RunRoomy(cfg, Apply(cfg, s, es[0]), es[1..]);
    }
  }

  // ---- The theorem ----

  /** The ordered terminal history that a listener hears in a run. */
  function Reported(cfg: FailureConfig, es: seq<Event>): seq<Outcome>
    requires Runs(cfg, Init(1), es)
  {
    EndOutcomes(After(cfg, Init(1), es).delivered)
  }

  /** Without UDP-stage drops, what is heard is what is settled. */
  lemma ReportedIsSettled(cfg: FailureConfig, ps: seq<Packet>, es: seq<Event>)
    requires FullRun(cfg, ps, [], es)
    ensures Reported(cfg, es) == SettledOrder(cfg, es)
  {
    RunHeard(cfg, Init(1), es);
  }

  /** Every replay of ingress `ps` reports the same ordered terminal history as every run of
      that ingress in which the UDP stage dropped `us`. A replay publishes ingress only, so
      it has no UDP-stage drop. */
  ghost predicate ReplayDeterministic(cfg: FailureConfig, ps: seq<Packet>, us: seq<PacketDropped>) {
    forall es, fs :: FullRun(cfg, ps, us, es) && FullRun(cfg, ps, [], fs) ==> Reported(cfg, es) == Reported(cfg, fs)
  }

  lemma WordHasNoOverflow(cfg: FailureConfig, ps: seq<Packet>, k: nat)
    requires k < |ps|
    ensures Word(cfg, ps)[k].reason != QueueOverflow
  {
  }

  /** A complete run that ends with the given UDP-stage drops. */
  lemma {:induction false} UdpDropRun(cfg: FailureConfig, ps: seq<Packet>, us: seq<PacketDropped>) returns (es: seq<Event>)
    ensures FullRun(cfg, ps, us, es)
  {
    if us == [] {
      es := EagerRun(cfg, ps);
    } else {
      var n := |us| - 1;
      var first := UdpDropRun(cfg, ps, us[..n]);
      RunsCons(cfg, After(cfg, Init(1), first), UdpDrop(us[n]), []);
      RunsConcat(cfg, Init(1), first, [UdpDrop(us[n])] + []);
      es := first + ([UdpDrop(us[n])] + []);
      assert us == us[..n] + [us[n]];
    }
  }

  lemma ConditionSuffices(cfg: FailureConfig, ps: seq<Packet>, es: seq<Event>)
    requires |AllSurvivors(cfg, ps)| <= MAX_QUEUE_SIZE && ConflictFree(cfg, ps)
    requires CompleteRun(cfg, ps, es)
    ensures NoOverflow(After(cfg, Init(1), es)) && SettledOrder(cfg, es) == Word(cfg, ps)
  {
    RunRoomy(cfg, Init(1), es);
    assert Ruled(After(cfg, Init(1), es)) == ps;
    OrderIsDetermined(cfg, ps, es);
  }

  /** The condition is necessary: too many survivors or a conflict allow two reports. */
  lemma TwoReports(cfg: FailureConfig, ps: seq<Packet>) returns (es: seq<Event>, fs: seq<Event>)
    requires |AllSurvivors(cfg, ps)| > MAX_QUEUE_SIZE || !ConflictFree(cfg, ps)
    ensures FullRun(cfg, ps, [], es) && FullRun(cfg, ps, [], fs) && Reported(cfg, es) != Reported(cfg, fs)
  {
    es := EagerRun(cfg, ps);
    if |AllSurvivors(cfg, ps)| > MAX_QUEUE_SIZE {
      var m;
      fs, m := OverflowRun(cfg, ps);
      if m < |ps| {
        WordHasNoOverflow(cfg, ps, m);
      }
    } else {
      fs := DifferingRun(cfg, ps);
    }
    ReportedIsSettled(cfg, ps, es);
    ReportedIsSettled(cfg, ps, fs);
  }

  /** A UDP-stage drop is never reported again. */
  lemma UdpDropsAreNotReplayed(cfg: FailureConfig, ps: seq<Packet>, us: seq<PacketDropped>)
    requires us != []
    ensures !ReplayDeterministic(cfg, ps, us)
  {
    var es := UdpDropRun(cfg, ps, us);
    var fs := EagerRun(cfg, ps);
    HeardLength(cfg, ps, us, es);
    HeardLength(cfg, ps, [], fs);
    assert Reported(cfg, es) != Reported(cfg, fs);
  }

  /** A replay must reproduce the ordered terminal history exactly when the UDP stage dropped
      nothing, at most 1024 packets survive injection, and no survivor precedes a failed
      packet that ends differently. */
  lemma ReplayDeterministicIff(cfg: FailureConfig, ps: seq<Packet>, us: seq<PacketDropped>)
    ensures ReplayDeterministic(cfg, ps, us)
            <==> us == [] && |AllSurvivors(cfg, ps)| <= MAX_QUEUE_SIZE && ConflictFree(cfg, ps)
  {
    if us != [] {
      UdpDropsAreNotReplayed(cfg, ps, us);
    } else if |AllSurvivors(cfg, ps)| > MAX_QUEUE_SIZE || !ConflictFree(cfg, ps) {
      var es, fs := TwoReports(cfg, ps);
    } else {
      forall es | FullRun(cfg, ps, [], es) ensures Reported(cfg, es) == Word(cfg, ps) {
        ConditionSuffices(cfg, ps, es);
        ReportedIsSettled(cfg, ps, es);
      }
    }
  }

  /** The documented promise fails already for two packets when a lifecycle rule drops the
      second one: its drop may be reported before the first packet is processed. */
  lemma TwoPacketReplayCanReorder(p: Packet, q: Packet)
    requires p.lifecycleId == 1 && q.lifecycleId == 2 && p.timestampMs > 0 && p.payload == "x"
    ensures var cfg := FailureConfig(NoFailure, true, 0, 0.0, [FailureRule(2, Loss)]);
            !ReplayDeterministic(cfg, [p, q], [])
  {
    var cfg := FailureConfig(NoFailure, true, 0, 0.0, [FailureRule(2, Loss)]);
    var ps := [p, q];
    FirstRuleIsFirst(cfg.lifecycleRules, 1, 1);
    FirstRuleIsFirst(cfg.lifecycleRules, 2, 0);
    assert Survives(cfg, ps, 0) && !Survives(cfg, ps, 1);
    assert Fate(cfg, ps, 0) != Fate(cfg, ps, 1);
    ReplayDeterministicIff(cfg, ps, []);
  }
}
