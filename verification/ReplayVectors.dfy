/** Exactly when a replay reproduces the collected vector, sequence numbers included. */
module ReplayVectors {
  import opened Packets
  import opened FailureInjection
  import opened Pipeline
  import opened Replay
  import opened ReplaySchedules
  import opened ReplayCapture
  import opened ReplayTurns
  import R = Recordings

  // ---- A survivor before a failure: the vector can be out of order ----

  /** A survivor that is directly followed by a failed packet. */
  lemma {:induction false} AdjacentPair(cfg: FailureConfig, ps: seq<Packet>, i: nat, j: nat) returns (m: nat)
    requires i < j < |ps| && Survives(cfg, ps, i) && !Survives(cfg, ps, j)
    ensures m + 1 < |ps| && Survives(cfg, ps, m) && !Survives(cfg, ps, m + 1)
    decreases j
  {
    if Survives(cfg, ps, j - 1) {
      m := j - 1;
    } else {
      m := AdjacentPair(cfg, ps, i, j - 1);
    }
  }

  /** The worker and the publisher hold an outcome each; the later number is stored first. */
  lemma Swap(cfg: FailureConfig, k: Collecting, p: Packet, d: PacketDropped) returns (xs: seq<Step>)
    requires Open(k) && R.OneAtATime(k.c)
    requires |k.s.queue| == 1 && k.s.worker.Waiting? && k.s.pubs == [Dropping(p, d)]
    ensures Steps(cfg, k, xs)
    ensures var k' := Ends(cfg, k, xs);
            && Open(k') && k'.s.pubs == [Idle] && k'.s.worker.Waiting? && k'.s.queue == []
            && k'.s.published == k.s.published && k'.s.seen == k.s.seen && k'.s.udpDrops == k.s.udpDrops
            && |k.c.stored| < |k'.c.stored| && k'.c.stored[|k.c.stored|].sequence == |k.c.stored| + 1
  {
    var k1 := DoStep(cfg, k, Run(Take));
    var k2 := DoStep(cfg, k1, Run(Finish(0)));
    var k3 := DoStep(cfg, k2, Run(PublishDrop(0)));
    var k4 := DoStep(cfg, k3, Store(0));
    var k5 := DoStep(cfg, k4, Store(1));
    StepsCons(cfg, k5, Run(CountRx(0)), []);
    StepsCons(cfg, k4, Store(1), [Run(CountRx(0))] + []);
    var tail := [Store(1)] + ([Run(CountRx(0))] + []);
    StepsCons(cfg, k3, Store(0), tail);
    StepsCons(cfg, k2, Run(PublishDrop(0)), [Store(0)] + tail);
    var rest := [Run(PublishDrop(0))] + ([Store(0)] + tail);
    StepsCons(cfg, k1, Run(Finish(0)), rest);
    StepsCons(cfg, k, Run(Take), [Run(Finish(0))] + rest);
    xs := [Run(Take)] + ([Run(Finish(0))] + rest);
  }

  /** The first m packets one by one, then packet m admitted and packet m + 1 failed. */
  lemma BeforeSwap(cfg: FailureConfig, ps: seq<Packet>, m: nat) returns (es: seq<Event>)
    requires m + 1 < |ps| && Survives(cfg, ps, m) && !Survives(cfg, ps, m + 1)
    ensures Runs(cfg, Init(1), es)
    ensures var s := After(cfg, Init(1), es);
            && s.queue == [ps[m]] && s.worker.Waiting? && |s.pubs| == 1 && s.pubs[0].Dropping?
            && s.published == ps[..m + 2] && s.seen == SeenAfter(cfg, ps[..m + 2]) && s.udpDrops == []
  {
    assert ReadyAt(cfg, Init(1), ps, 0);
    var eager := Eager(cfg, Init(1), ps, 0, m);
    var s1 := After(cfg, Init(1), eager);
    var next := PublishNext(cfg, s1, ps, m);
    RunsConcat(cfg, Init(1), eager, next);
    var s2 := After(cfg, Init(1), eager + next);
    var rule := RuleNext(cfg, s2, ps, m + 1);
    RunsConcat(cfg, Init(1), eager + next, rule);
    es := eager + next + rule;
  }

  lemma SwappedRun(cfg: FailureConfig, ps: seq<Packet>, m: nat) returns (xs: seq<Step>, n: nat)
    requires m + 1 < |ps| && Survives(cfg, ps, m) && !Survives(cfg, ps, m + 1)
    ensures CollectedRun(cfg, ps, [], xs)
    ensures n < |Vector(cfg, xs)| && Vector(cfg, xs)[n].sequence != n
  {
    StartIsOpen();
    var es := BeforeSwap(cfg, ps, m);
    var first := Lift(cfg, Start(1), es);
    var k1 := Ends(cfg, Start(1), first);
    var swap := Swap(cfg, k1, k1.s.pubs[0].packet, k1.s.pubs[0].drop);
    StepsConcat(cfg, Start(1), first, swap);
    var k2 := Ends(cfg, Start(1), first + swap);
    assert ReadyAt(cfg, k2.s, ps, m + 2);
    var fs := Eager(cfg, k2.s, ps, m + 2, |ps|);
    var last := Lift(cfg, k2, fs);
    StepsConcat(cfg, Start(1), first + swap, last);
    xs, n := first + swap + last, |k1.c.stored|;
    ForgetStores(cfg, Start(1), xs);
    assert k2.c.stored <= Vector(cfg, xs);
    assert Vector(cfg, xs)[n] == k2.c.stored[n];
  }

  // ---- The theorem ----

  lemma TwoVectors(cfg: FailureConfig, ps: seq<Packet>, us: seq<PacketDropped>) returns (xs: seq<Step>, ys: seq<Step>)
    requires us != [] || |AllSurvivors(cfg, ps)| > MAX_QUEUE_SIZE || !FailuresFirst(cfg, ps)
    ensures CollectedRun(cfg, ps, us, xs) && CollectedRun(cfg, ps, [], ys) && Vector(cfg, xs) != Vector(cfg, ys)
  {
    if us != [] {
      var es := UdpDropRun(cfg, ps, us);
      var fs := EagerRun(cfg, ps);
      xs := LiftedRun(cfg, ps, us, es);
      ys := LiftedRun(cfg, ps, [], fs);
      VectorLength(cfg, ps, us, xs);
      VectorLength(cfg, ps, [], ys);
    } else if |AllSurvivors(cfg, ps)| > MAX_QUEUE_SIZE {
      var es, fs := TwoReports(cfg, ps);
      xs := LiftedRun(cfg, ps, [], es);
      ys := LiftedRun(cfg, ps, [], fs);
      SequencedDiffer(Reported(cfg, es), Reported(cfg, fs));
    } else {
      var i, j :| 0 <= i < j < |ps| && Survives(cfg, ps, i) && !Survives(cfg, ps, j);
      var m := AdjacentPair(cfg, ps, i, j);
      var n;
      xs, n := SwappedRun(cfg, ps, m);
      var fs := EagerRun(cfg, ps);
      ys := LiftedRun(cfg, ps, [], fs);
      assert n < |Vector(cfg, ys)| ==> Vector(cfg, ys)[n].sequence == n;
    }
  }

  lemma SequencedDiffer<T>(vs: seq<T>, ws: seq<T>)
    requires vs != ws
    ensures R.Sequenced(vs) != R.Sequenced(ws)
  {
    assert |vs| == |R.Sequenced(vs)| && |ws| == |R.Sequenced(ws)|;
    if |vs| == |ws| {
      var k :| 0 <= k < |vs| && vs[k] != ws[k];
      assert R.Sequenced(vs)[k] != R.Sequenced(ws)[k];
    }
  }

  /** Recording, replaying and comparing. `rec` is what one thread recorded of ingress `ps`,
      and the player publishes its values. The collected vectors, numbers included, agree in
      all runs exactly when the UDP stage dropped nothing, at most 1024 packets survive
      injection, and no survivor precedes a failed packet at all. */
  lemma ReplayReproducesOutcomes(cfg: FailureConfig, rec: R.Recording<Packet>, us: seq<PacketDropped>)
    requires R.Recorded(1, rec) && R.AtRest(rec)
    ensures var ps := rec.drawn;
            (forall xs, ys :: CollectedRun(cfg, ps, us, xs) && CollectedRun(cfg, R.Values(rec.stored), [], ys)
                              ==> Vector(cfg, xs) == Vector(cfg, ys))
            <==> us == [] && |AllSurvivors(cfg, ps)| <= MAX_QUEUE_SIZE && FailuresFirst(cfg, ps)
  {
    var ps := rec.drawn;
    R.OneThreadRecordsStream(rec);
    if us == [] && |AllSurvivors(cfg, ps)| <= MAX_QUEUE_SIZE && FailuresFirst(cfg, ps) {
      forall xs | CollectedRun(cfg, ps, [], xs) ensures Vector(cfg, xs) == R.Sequenced(Word(cfg, ps)) {
        FailuresFirstSuffices(cfg, ps, xs);
      }
    } else {
      var xs, ys := TwoVectors(cfg, ps, us);
    }
  }
}
