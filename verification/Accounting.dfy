/** The statistics of a whole pipeline run: terminal messages against arrivals. */
module Accounting {
  import opened Packets
  import opened Counting
  import opened FailureInjection
  import opened Pipeline
  import opened Stats

  function Arrivals(ds: seq<Delivery>): nat {
    if ds == [] then 0 else Arrivals(ds[..|ds| - 1]) + if ds[|ds| - 1].Rx? then 1 else 0
  }

  /** The lifecycle ids of the delivered terminal messages, in order. */
  function EndIds(ds: seq<Delivery>): seq<nat> {
    if ds == [] then []
    else
      var init, d := EndIds(ds[..|ds| - 1]), ds[|ds| - 1];
      if d.End? then init + [d.message.LifecycleId()] else init
  }

  function Ids(ps: seq<Packet>): seq<nat> {
    seq(|ps|, k requires 0 <= k < |ps| => ps[k].lifecycleId)
  }

  function DropIds(ds: seq<PacketDropped>): seq<nat> {
    seq(|ds|, k requires 0 <= k < |ds| => ds[k].lifecycleId)
  }

  function MessageIds(ss: seq<Settled>): seq<nat> {
    seq(|ss|, k requires 0 <= k < |ss| => ss[k].message.LifecycleId())
  }

  ghost predicate Distinct(ids: seq<nat>) {
    forall i, j :: 0 <= i < j < |ids| ==> ids[i] != ids[j]
  }

  lemma {:induction false} DistinctOccurs(ids: seq<nat>, x: nat)
    requires Distinct(ids)
    ensures Occurs(ids, x) <= 1
  {
    if ids == [] {
    } else {
      DistinctOccurs(ids[..|ids| - 1], x);
      MemberOccurs(ids[..|ids| - 1], x);
    }
  }

  function Busy(pubs: seq<Phase>): nat {
    if pubs == [] then 0 else (if pubs[0].Idle? then 0 else 1) + Busy(pubs[1..])
  }

  lemma {:induction false} BusyUpdate(pubs: seq<Phase>, i: nat, ph: Phase)
    requires i < |pubs|
    ensures Busy(pubs[i := ph]) + (if pubs[i].Idle? then 0 else 1) == Busy(pubs) + if ph.Idle? then 0 else 1
  {
    if i > 0 {
      BusyUpdate(pubs[1..], i - 1, ph);
      assert pubs[i := ph][1..] == pubs[1..][i - 1 := ph];
    } else {
      assert pubs[i := ph][1..] == pubs[1..];
    }
  }

  lemma {:induction false} IdleNotBusy(pubs: seq<Phase>)
    requires forall i :: 0 <= i < |pubs| ==> pubs[i].Idle?
    ensures Busy(pubs) == 0
  {
    if pubs == [] {
    } else {
      IdleNotBusy(pubs[1..]);
    }
  }

  lemma DeliverySnoc(ds: seq<Delivery>, d: Delivery)
    ensures Arrivals(ds + [d]) == Arrivals(ds) + if d.Rx? then 1 else 0
    ensures EndIds(ds + [d]) == if d.End? then EndIds(ds) + [d.message.LifecycleId()] else EndIds(ds)
  {
    assert (ds + [d])[..|ds|] == ds;
  }

  /** Every publication is counted once its publisher is idle again, and the delivered
      terminal messages are the settled ones and the UDP-stage drops. */
  ghost predicate Counted(s: State) {
    && Arrivals(s.delivered) + Busy(s.pubs) == |s.published|
    && |EndIds(s.delivered)| == |s.settled| + |s.udpDrops|
  }

  /** The same for the terminal messages of one lifecycle id. */
  ghost predicate CountedAt(s: State, x: nat) {
    Occurs(EndIds(s.delivered), x) == Occurs(MessageIds(s.settled), x) + Occurs(DropIds(s.udpDrops), x)
  }

  lemma StepCounts(cfg: FailureConfig, s: State, e: Event)
    requires Enabled(s, e) && Counted(s)
    ensures Counted(Apply(cfg, s, e))
  {
    var s' := Apply(cfg, s, e);
    if |s'.delivered| > |s.delivered| {
      DeliverySnoc(s.delivered, s'.delivered[|s.delivered|]);
    }
    match e
    case Publish(i, _, _) => BusyUpdate(s.pubs, i, s'.pubs[i]);
    case Inject(i) => BusyUpdate(s.pubs, i, s'.pubs[i]);
    case Admit(i) => BusyUpdate(s.pubs, i, s'.pubs[i]);
    case PublishDrop(i) => BusyUpdate(s.pubs, i, s'.pubs[i]);
    case CountRx(i) => BusyUpdate(s.pubs, i, s'.pubs[i]);
    case _ =>
  }

  lemma SettleCountsAt(s: State, p: Packet, m: Terminal, byWorker: bool, x: nat)
    requires CountedAt(s, x)
    ensures CountedAt(Settle(s, p, m, byWorker), x)
  {
    DeliverySnoc(s.delivered, End(m));
    OccursSnoc(EndIds(s.delivered), m.LifecycleId(), x);
    assert MessageIds(s.settled + [Settled(p, m, byWorker)]) == MessageIds(s.settled) + [m.LifecycleId()];
    OccursSnoc(MessageIds(s.settled), m.LifecycleId(), x);
  }

  lemma UdpCountsAt(cfg: FailureConfig, s: State, d: PacketDropped, x: nat)
    requires CountedAt(s, x)
    ensures CountedAt(Apply(cfg, s, UdpDrop(d)), x)
  {
    DeliverySnoc(s.delivered, End(Dropped(d)));
    OccursSnoc(EndIds(s.delivered), d.lifecycleId, x);
    assert DropIds(s.udpDrops + [d]) == DropIds(s.udpDrops) + [d.lifecycleId];
    OccursSnoc(DropIds(s.udpDrops), d.lifecycleId, x);
  }

  lemma StepCountsAt(cfg: FailureConfig, s: State, e: Event, x: nat)
    requires Enabled(s, e) && CountedAt(s, x)
    ensures CountedAt(Apply(cfg, s, e), x)
  {
    match e
    case PublishDrop(i) =>
      SettleCountsAt(s.(pubs := s.pubs[i := Counting]), s.pubs[i].packet, Dropped(s.pubs[i].drop), false, x);
    case Finish(now) =>
      SettleCountsAt(s.(worker := Waiting), s.worker.packet, WorkerMessage(s.worker.packet, now), true, x);
    case CountRx(_) => DeliverySnoc(s.delivered, Rx);
    case UdpDrop(d) => UdpCountsAt(cfg, s, d, x);
    case _ =>
  }

  lemma {:induction false} RunCounts(cfg: FailureConfig, s: State, es: seq<Event>, x: nat)
    requires Runs(cfg, s, es) && Counted(s) && CountedAt(s, x)
    ensures Counted(After(cfg, s, es)) && CountedAt(After(cfg, s, es), x)
    decreases |es|
  {
    if es == [] {
    } else {
      StepCounts(cfg, s, es[0]);
      StepCountsAt(cfg, s, es[0], x);
      RunCounts(cfg, Apply(cfg, s, es[0]), es[1..], x);
    }
  }

  lemma ReachableCounts(cfg: FailureConfig, n: nat, s: State, x: nat)
    requires Reachable(cfg, n, s)
    ensures Counted(s) && CountedAt(s, x)
  {
    var es :| Runs(cfg, Init(n), es) && After(cfg, Init(n), es) == s;
    IdleNotBusy(Init(n).pubs);
    assert MessageIds(Init(n).settled) == [] && DropIds(Init(n).udpDrops) == [];
    RunCounts(cfg, Init(n), es, x);
  }

  lemma {:induction false} FoldCounts(ds: seq<Delivery>, clock: seq<nat>)
    requires |ds| == |clock|
    ensures Fold(ds, clock).ingress == Arrivals(ds) && Ends(ds) == |EndIds(ds)|
  {
    if ds == [] {
    } else {
      FoldCounts(ds[..|ds| - 1], clock[..|ds| - 1]);
    }
  }

  /** In every reachable state, `terminal` plus `duplicates` is the number of packets ended
      by the pipeline plus the UDP-stage drops; once drained, it is `ingress` plus the
      UDP-stage drops. */
  lemma PipelineAccounting(cfg: FailureConfig, n: nat, s: State, clock: seq<nat>)
    requires Reachable(cfg, n, s) && |clock| == |s.delivered|
    ensures var c := Fold(s.delivered, clock);
            && c.terminal == c.processed + TotalDrops(c.drops)
            && c.terminal + c.duplicates == |s.settled| + |s.udpDrops|
            && c.ingress <= |s.published|
            && (Quiet(s) ==> c.ingress == |s.published| && c.terminal + c.duplicates == c.ingress + |s.udpDrops|)
  {
    AccountingLaw(s.delivered, clock);
    FoldCounts(s.delivered, clock);
    ReachableCounts(cfg, n, s, 0);
    if Quiet(s) {
      IdleNotBusy(s.pubs);
      Conservation(cfg, n, s);
      assert |multiset(s.published)| == |s.published|;
      assert |multiset(SettledPackets(s.settled))| == |s.settled|;
    }
  }

  // ---- Distinct lifecycle ids ----

  /** No packet is more often in `qs` than in `ps`. */
  ghost predicate Within(qs: seq<Packet>, ps: seq<Packet>) {
    forall p :: multiset(qs)[p] <= multiset(ps)[p]
  }

  lemma WithoutOne(ps: seq<Packet>, i: nat, x: nat)
    requires i < |ps|
    ensures Occurs(Ids(ps), x) == Occurs(Ids(ps[..i] + ps[i + 1..]), x) + if ps[i].lifecycleId == x then 1 else 0
  {
    var before, after := Ids(ps[..i]), Ids(ps[i + 1..]);
    assert Ids(ps) == (before + [ps[i].lifecycleId]) + after;
    assert Ids(ps[..i] + ps[i + 1..]) == before + after;
    OccursConcat(before + [ps[i].lifecycleId], after, x);
    OccursSnoc(before, ps[i].lifecycleId, x);
    OccursConcat(before, after, x);
  }

  lemma WithinTail(qs: seq<Packet>, ps: seq<Packet>) returns (i: nat)
    requires Within(qs, ps) && qs != []
    ensures i < |ps| && ps[i] == qs[0] && Within(qs[1..], ps[..i] + ps[i + 1..])
  {
    assert qs == [qs[0]] + qs[1..];
    assert qs[0] in multiset(ps);
    i :| 0 <= i < |ps| && ps[i] == qs[0];
    assert ps == ps[..i] + [ps[i]] + ps[i + 1..];
    forall p ensures multiset(qs[1..])[p] <= multiset(ps[..i] + ps[i + 1..])[p] {
      assert multiset(qs)[p] <= multiset(ps)[p];
    }
  }

  lemma WithoutHead(qs: seq<Packet>, x: nat)
    requires qs != []
    ensures Occurs(Ids(qs), x) == Occurs(Ids(qs[1..]), x) + if qs[0].lifecycleId == x then 1 else 0
  {
    WithoutOne(qs, 0, x);
    assert qs[..0] + qs[1..] == qs[1..];
  }

  lemma {:induction false} WithinIds(qs: seq<Packet>, ps: seq<Packet>, x: nat)
    requires Within(qs, ps)
    ensures Occurs(Ids(qs), x) <= Occurs(Ids(ps), x)
    decreases |qs|
  {
    if qs == [] {
      assert Ids(qs) == [];
    } else {
      var i := WithinTail(qs, ps);
      WithinIds(qs[1..], ps[..i] + ps[i + 1..], x);
      WithoutOne(ps, i, x);
      WithoutHead(qs, x);
    }
  }

  /** With distinct ids no delivered message is a duplicate. */
  lemma {:induction false} DistinctMeansNoDuplicate(ds: seq<Delivery>, clock: seq<nat>)
    requires |ds| == |clock| && forall x :: Occurs(EndIds(ds), x) <= 1
    ensures Fold(ds, clock).duplicates == 0
    ensures forall x :: x in Fold(ds, clock).completed <==> Occurs(EndIds(ds), x) == 1
  {
    if ds == [] {
    } else {
      var init, d := ds[..|ds| - 1], ds[|ds| - 1];
      assert ds == init + [d];
      forall x ensures Occurs(EndIds(ds), x) == Occurs(EndIds(init), x) + if EndsLifecycle(d, x) then 1 else 0 {
        if d.End? {
          OccursSnoc(EndIds(init), d.message.LifecycleId(), x);
        }
      }
      DistinctMeansNoDuplicate(init, clock[..|ds| - 1]);
    }
  }

  lemma MessagesNamePackets(ss: seq<Settled>)
    requires forall k :: 0 <= k < |ss| ==> Genuine(ss[k])
    ensures MessageIds(ss) == Ids(SettledPackets(ss))
  {
    forall k | 0 <= k < |ss| ensures MessageIds(ss)[k] == Ids(SettledPackets(ss))[k] {
      assert Genuine(ss[k]);
    }
  }

  lemma EndedAtMostOnce(cfg: FailureConfig, n: nat, s: State, x: nat)
    requires Reachable(cfg, n, s)
    requires Distinct(Ids(s.published) + DropIds(s.udpDrops))
    ensures Occurs(EndIds(s.delivered), x) <= 1
  {
    ReachableCounts(cfg, n, s, x);
    FifoHandoff(cfg, n, s);
    MessagesNamePackets(s.settled);
    SettledWerePublished(cfg, n, s);
    WithinIds(SettledPackets(s.settled), s.published, x);
    OccursConcat(Ids(s.published), DropIds(s.udpDrops), x);
    DistinctOccurs(Ids(s.published) + DropIds(s.udpDrops), x);
  }

  lemma SettledWerePublished(cfg: FailureConfig, n: nat, s: State)
    requires Reachable(cfg, n, s)
    ensures Within(SettledPackets(s.settled), s.published)
  {
    Conservation(cfg, n, s);
  }

  /** If the published packets and the UDP-stage drops carry distinct lifecycle ids, then in
      every reachable state no event is a duplicate and each terminal message counts. */
  lemma DistinctIdsNeverDuplicate(cfg: FailureConfig, n: nat, s: State, clock: seq<nat>)
    requires Reachable(cfg, n, s) && |clock| == |s.delivered|
    requires Distinct(Ids(s.published) + DropIds(s.udpDrops))
    ensures Fold(s.delivered, clock).duplicates == 0
    ensures Fold(s.delivered, clock).terminal == |s.settled| + |s.udpDrops|
  {
    PipelineAccounting(cfg, n, s, clock);
    forall x ensures Occurs(EndIds(s.delivered), x) <= 1 {
      EndedAtMostOnce(cfg, n, s, x);
    }
    DistinctMeansNoDuplicate(s.delivered, clock);
  }
}
