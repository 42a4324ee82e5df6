/** Packet statistics: which message each lifecycle id is credited with, and how often. */
module Stats {
  import opened Packets
  import opened Pipeline

  datatype Counters = Counters(
    rxPackets: nat,
    rxBytes: nat,
    drops: map<PacketDropReason, nat>,
    ingress: nat,
    processed: nat,
    terminal: nat,
    duplicates: nat,
    completed: set<nat>,
    totalLatencyNs: nat,
    maxLatencyNs: nat,
    samples: nat)

  const ZERO := Counters(0, 0, map[], 0, 0, 0, 0, {}, 0, 0, 0)

  function DropCount(drops: map<PacketDropReason, nat>, r: PacketDropReason): nat {
    if r in drops then drops[r] else 0
  }

  const REASONS: seq<PacketDropReason> :=
    [ParseError, ValidationError, QueueOverflow, SimulatedLoss, RateLimited, ProcessingError, InternalError, Unknown]

  function DropSum(drops: map<PacketDropReason, nat>, reasons: seq<PacketDropReason>): nat {
    if reasons == [] then 0 else DropCount(drops, reasons[0]) + DropSum(drops, reasons[1..])
  }

  /** The drops over all reasons. */
  function TotalDrops(drops: map<PacketDropReason, nat>): nat {
    DropSum(drops, REASONS)
  }

  /** A latency sample is taken only from a known and not later ingress time. */
  function Sampled(c: Counters, ingressNs: nat, nowNs: nat): Counters {
    if ingressNs != 0 && nowNs >= ingressNs then
      var latency := nowNs - ingressNs;
      c.(totalLatencyNs := c.totalLatencyNs + latency, samples := c.samples + 1,
         maxLatencyNs := if latency > c.maxLatencyNs then latency else c.maxLatencyNs)
    else c
  }

  function Handle(c: Counters, d: Delivery, nowNs: nat): Counters {
    match d
    case Rx => c.(ingress := c.ingress + 1)
    case End(m) =>
      if m.LifecycleId() in c.completed then c.(duplicates := c.duplicates + 1)
      else
        var c' := c.(completed := c.completed + {m.LifecycleId()}, terminal := c.terminal + 1);
        match m
        case Processed(p) =>
          Sampled(c'.(rxPackets := c.rxPackets + 1, rxBytes := c.rxBytes + p.payloadSize, processed := c.processed + 1),
                  p.ingressTimestampNs, nowNs)
        case Dropped(drop) =>
          c'.(drops := c.drops[drop.reason := DropCount(c.drops, drop.reason) + 1])
  }

  class PacketStats {
    var rxPackets: nat
    var rxBytes: nat
    var drops: map<PacketDropReason, nat>
    var ingress: nat
    var processed: nat
    var terminal: nat
    var duplicates: nat
    var completed: set<nat>
    var totalLatencyNs: nat
    var maxLatencyNs: nat
    var samples: nat

    ghost function View(): Counters
      reads this
    {
      Counters(rxPackets, rxBytes, drops, ingress, processed, terminal, duplicates, completed,
               totalLatencyNs, maxLatencyNs, samples)
    }

    constructor ()
      ensures View() == ZERO
    {
      rxPackets, rxBytes, drops, ingress, processed := 0, 0, map[], 0, 0;
      terminal, duplicates, completed := 0, 0, {};
      totalLatencyNs, maxLatencyNs, samples := 0, 0, 0;
    }

    method OnProcessed(p: Packet, nowNs: nat)
      modifies this
      ensures View() == Handle(old(View()), End(Processed(p)), nowNs)
    {
      if p.lifecycleId in completed {
        duplicates := duplicates + 1;
        return;
      }
      completed := completed + {p.lifecycleId};
      rxPackets := rxPackets + 1;
      rxBytes := rxBytes + p.payloadSize;
      processed := processed + 1;
      terminal := terminal + 1;
      if p.ingressTimestampNs != 0 && nowNs >= p.ingressTimestampNs {
        var latency := nowNs - p.ingressTimestampNs;
        totalLatencyNs := totalLatencyNs + latency;
        samples := samples + 1;
        if latency > maxLatencyNs {
          maxLatencyNs := latency;
        }
      }
    }

    method OnDropped(drop: PacketDropped, nowNs: nat)
      modifies this
      ensures View() == Handle(old(View()), End(Dropped(drop)), nowNs)
    {
      if drop.lifecycleId in completed {
        duplicates := duplicates + 1;
        return;
      }
      completed := completed + {drop.lifecycleId};
      drops := drops[drop.reason := DropCount(drops, drop.reason) + 1];
      terminal := terminal + 1;
    }

    method OnPacketRx()
      modifies this
      ensures View() == Handle(old(View()), Rx, 0)
    {
      ingress := ingress + 1;
    }
  }

  // ---- The reference: how each delivery is credited ----

  datatype Credit = Arrival | FirstProcessed | FirstDrop(reason: PacketDropReason) | Duplicate

  predicate EndsLifecycle(d: Delivery, id: nat) {
    d.End? && d.message.LifecycleId() == id
  }

  /** One of the first k deliveries ends lifecycle `id`. */
  predicate EndedBy(ds: seq<Delivery>, k: nat, id: nat)
    requires k <= |ds|
  {
    exists j :: 0 <= j < k && EndsLifecycle(ds[j], id)
  }

  ghost function CreditOf(ds: seq<Delivery>, k: nat): Credit
    requires k < |ds|
  {
    match ds[k]
    case Rx => Arrival
    case End(m) =>
      if EndedBy(ds, k, m.LifecycleId()) then Duplicate
      else match m
      case Processed(_) => FirstProcessed
      case Dropped(d) => FirstDrop(d.reason)
  }

  ghost function Credits(ds: seq<Delivery>): seq<Credit> {
    seq(|ds|, k requires 0 <= k < |ds| => CreditOf(ds, k))
  }

  /** The distinct lifecycle ids that some delivery ends. */
  ghost function EndedIds(ds: seq<Delivery>): set<nat> {
    set k | 0 <= k < |ds| && ds[k].End? :: ds[k].message.LifecycleId()
  }

  function Ends(ds: seq<Delivery>): nat {
    if ds == [] then 0 else Ends(ds[..|ds| - 1]) + if ds[|ds| - 1].End? then 1 else 0
  }

  /** The counters after a run of handlers, each with its own clock reading. */
  function Fold(ds: seq<Delivery>, clock: seq<nat>): Counters
    requires |ds| == |clock|
  {
    if ds == [] then ZERO
    else Handle(Fold(ds[..|ds| - 1], clock[..|ds| - 1]), ds[|ds| - 1], clock[|ds| - 1])
  }

  /** The counters agree with a multiset of credits over the ended ids. */
  ghost predicate Agrees(credits: multiset<Credit>, ids: set<nat>, ends: nat, c: Counters) {
    && c.completed == ids
    && c.terminal == |ids|
    && c.terminal == c.processed + TotalDrops(c.drops)
    && c.terminal + c.duplicates == ends
    && c.rxPackets == c.processed
    && c.ingress == credits[Arrival]
    && c.processed == credits[FirstProcessed]
    && c.duplicates == credits[Duplicate]
    && (forall r :: DropCount(c.drops, r) == credits[FirstDrop(r)])
  }

  ghost predicate Accounts(ds: seq<Delivery>, c: Counters) {
    Agrees(multiset(Credits(ds)), EndedIds(ds), Ends(ds), c)
  }

  predicate LatencyBounded(c: Counters) {
    c.totalLatencyNs <= c.maxLatencyNs * c.samples
  }

  lemma EndedByPrefix(ds: seq<Delivery>, d: Delivery, k: nat, id: nat)
    requires k <= |ds|
    ensures EndedBy(ds + [d], k, id) <==> EndedBy(ds, k, id)
  {
    var es := ds + [d];
    if EndedBy(es, k, id) {
      var j :| 0 <= j < k && EndsLifecycle(es[j], id);
      assert EndsLifecycle(ds[j], id);
    }
    if EndedBy(ds, k, id) {
      var j :| 0 <= j < k && EndsLifecycle(ds[j], id);
      assert EndsLifecycle(es[j], id);
    }
  }

  lemma EndedIdsAreEnded(ds: seq<Delivery>, id: nat)
    ensures id in EndedIds(ds) <==> EndedBy(ds, |ds|, id)
  {
    if EndedBy(ds, |ds|, id) {
      var j :| 0 <= j < |ds| && EndsLifecycle(ds[j], id);
      assert ds[j].message.LifecycleId() in EndedIds(ds);
    }
  }

  lemma CreditsSnoc(ds: seq<Delivery>, d: Delivery)
    ensures Credits(ds + [d]) == Credits(ds) + [CreditOf(ds + [d], |ds|)]
    ensures d.End? ==> (EndedBy(ds + [d], |ds|, d.message.LifecycleId()) <==> d.message.LifecycleId() in EndedIds(ds))
    ensures EndedIds(ds + [d]) == EndedIds(ds) + if d.End? then {d.message.LifecycleId()} else {}
  {
    var es := ds + [d];
    forall k | 0 <= k < |ds| ensures CreditOf(es, k) == CreditOf(ds, k) {
      if ds[k].End? {
        EndedByPrefix(ds, d, k, ds[k].message.LifecycleId());
      }
    }
    if d.End? {
      EndedByPrefix(ds, d, |ds|, d.message.LifecycleId());
      EndedIdsAreEnded(ds, d.message.LifecycleId());
    }
    EndedIdsSnoc(ds, d);
  }

  lemma EndedIdsSnoc(ds: seq<Delivery>, d: Delivery)
    ensures EndedIds(ds + [d]) == EndedIds(ds) + if d.End? then {d.message.LifecycleId()} else {}
  {
    var es := ds + [d];
    var ids := EndedIds(ds) + if d.End? then {d.message.LifecycleId()} else {};
    forall id ensures id in EndedIds(es) <==> id in ids {
      EndedIdsAreEnded(es, id);
      EndedIdsAreEnded(ds, id);
      EndedByPrefix(ds, d, |ds|, id);
      if EndedBy(es, |es|, id) {
        var j :| 0 <= j < |es| && EndsLifecycle(es[j], id);
        assert j < |ds| ==> EndedBy(es, |ds|, id);
      }
      if EndedBy(es, |ds|, id) {
        var j :| 0 <= j < |ds| && EndsLifecycle(es[j], id);
        assert EndedBy(es, |es|, id);
      }
      if EndsLifecycle(d, id) {
        assert EndsLifecycle(es[|ds|], id);
      }
    }
  }

  lemma {:induction false} DropSumUpdate(drops: map<PacketDropReason, nat>, r: PacketDropReason, reasons: seq<PacketDropReason>)
    requires forall i, j :: 0 <= i < j < |reasons| ==> reasons[i] != reasons[j]
    ensures DropSum(drops[r := DropCount(drops, r) + 1], reasons) == DropSum(drops, reasons) + if r in reasons then 1 else 0
  {
    if reasons == [] {
    } else {
      DropSumUpdate(drops, r, reasons[1..]);
      assert reasons == [reasons[0]] + reasons[1..];
    }
  }

  lemma AllReasons(r: PacketDropReason)
    ensures r in REASONS
  {
    var k := match r
      case ParseError => 0
      case ValidationError => 1
      case QueueOverflow => 2
      case SimulatedLoss => 3
      case RateLimited => 4
      case ProcessingError => 5
      case InternalError => 6
      case Unknown => 7;
    assert REASONS[k] == r;
  }

  lemma CountDrop(drops: map<PacketDropReason, nat>, r: PacketDropReason)
    ensures TotalDrops(drops[r := DropCount(drops, r) + 1]) == TotalDrops(drops) + 1
  {
    AllReasons(r);
    DropSumUpdate(drops, r, REASONS);
  }

  lemma {:induction false} NoDrops(reasons: seq<PacketDropReason>)
    ensures DropSum(map[], reasons) == 0
  {
    if reasons == [] {
    } else {
      NoDrops(reasons[1..]);
    }
  }

  /** What one handler does to agreement, for a delivery with a given credit. */
  lemma HandleAgrees(credits: multiset<Credit>, ids: set<nat>, ends: nat, c: Counters, m: Terminal, nowNs: nat)
    requires Agrees(credits, ids, ends, c)
    ensures var credit := if m.LifecycleId() in ids then Duplicate
                          else if m.Processed? then FirstProcessed else FirstDrop(m.drop.reason);
            Agrees(credits + multiset{credit}, ids + {m.LifecycleId()}, ends + 1, Handle(c, End(m), nowNs))
  {
    if m.LifecycleId() in ids {
      assert ids + {m.LifecycleId()} == ids;
    } else if m.Dropped? {
      CountDrop(c.drops, m.drop.reason);
    }
  }

  lemma HandleAccounts(ds: seq<Delivery>, c: Counters, d: Delivery, nowNs: nat)
    requires Accounts(ds, c)
    ensures Accounts(ds + [d], Handle(c, d, nowNs))
  {
    CreditsSnoc(ds, d);
    assert (ds + [d])[..|ds|] == ds;
    assert multiset(Credits(ds + [d])) == multiset(Credits(ds)) + multiset{CreditOf(ds + [d], |ds|)};
    if d.End? {
      HandleAgrees(multiset(Credits(ds)), EndedIds(ds), Ends(ds), c, d.message, nowNs);
    }
  }

  lemma NothingCredited(credits: multiset<Credit>, ids: set<nat>, c: Counters)
    requires credits == multiset{} && ids == {} && c == ZERO
    ensures Agrees(credits, ids, 0, c)
  {
    NoDrops(REASONS);
  }

  /** The accounting law, for every sequence of deliveries with repeated ids allowed: each
      lifecycle id is credited with its first terminal message only, `terminal` is the
      number of distinct ended ids and the sum of processed and drops, and `terminal` plus
      `duplicates` is the number of terminal messages delivered. */
  lemma {:induction false} AccountingLaw(ds: seq<Delivery>, clock: seq<nat>)
    requires |ds| == |clock|
    ensures Accounts(ds, Fold(ds, clock))
  {
    if ds == [] {
      LawAtStart(ds, clock);
    } else {
      var n := |ds| - 1;
      AccountingLaw(ds[..n], clock[..n]);
      LawStep(ds, Fold(ds[..n], clock[..n]), clock[n]);
    }
  }

  lemma LawAtStart(ds: seq<Delivery>, clock: seq<nat>)
    requires ds == [] && clock == []
    ensures Accounts(ds, Fold(ds, clock))
  {
    assert Credits(ds) == [] && EndedIds(ds) == {};
    NothingCredited(multiset(Credits(ds)), EndedIds(ds), Fold(ds, clock));
  }

  lemma LawStep(ds: seq<Delivery>, c: Counters, nowNs: nat)
    requires ds != [] && Accounts(ds[..|ds| - 1], c)
    ensures Accounts(ds, Handle(c, ds[|ds| - 1], nowNs))
  {
    var init, d := ds[..|ds| - 1], ds[|ds| - 1];
    HandleAccounts(init, c, d, nowNs);
    assert init + [d] == ds;
  }

  // ---- Bytes and latencies: what the counters sum up ----

  /** The latency of a processed packet, if its ingress time is known and not later. */
  function LatencyOf(p: Packet, nowNs: nat): seq<nat> {
    if 0 < p.ingressTimestampNs <= nowNs then [nowNs - p.ingressTimestampNs] else []
  }

  /** The payload sizes of the packets that are credited as processed, in order. */
  ghost function Sizes(ds: seq<Delivery>): seq<nat> {
    if ds == [] then []
    else
      var n := |ds| - 1;
      Sizes(ds[..n]) + if CreditOf(ds, n) == FirstProcessed then [ds[n].message.packet.payloadSize] else []
  }

  ghost function Latencies(ds: seq<Delivery>, clock: seq<nat>): seq<nat>
    requires |ds| == |clock|
  {
    if ds == [] then []
    else
      var n := |ds| - 1;
      Latencies(ds[..n], clock[..n])
      + if CreditOf(ds, n) == FirstProcessed then LatencyOf(ds[n].message.packet, clock[n]) else []
  }

  function Total(xs: seq<nat>): nat {
    if xs == [] then 0 else Total(xs[..|xs| - 1]) + xs[|xs| - 1]
  }

  predicate IsLargest(xs: seq<nat>, m: nat) {
    (if xs == [] then m == 0 else m in xs) && forall k :: 0 <= k < |xs| ==> xs[k] <= m
  }

  ghost predicate Measures(sizes: seq<nat>, latencies: seq<nat>, c: Counters) {
    && c.rxBytes == Total(sizes)
    && c.samples == |latencies|
    && c.totalLatencyNs == Total(latencies)
    && IsLargest(latencies, c.maxLatencyNs)
  }

  lemma TotalSnoc(xs: seq<nat>, x: nat)
    ensures Total(xs + [x]) == Total(xs) + x
  {
    assert (xs + [x])[..|xs|] == xs;
  }

  /** What the first terminal message of a processed packet adds. */
  lemma HandleMeasures(sizes: seq<nat>, latencies: seq<nat>, c: Counters, p: Packet, nowNs: nat)
    requires Measures(sizes, latencies, c) && p.lifecycleId !in c.completed
    ensures Measures(sizes + [p.payloadSize], latencies + LatencyOf(p, nowNs), Handle(c, End(Processed(p)), nowNs))
  {
    TotalSnoc(sizes, p.payloadSize);
    if 0 < p.ingressTimestampNs <= nowNs {
      TotalSnoc(latencies, nowNs - p.ingressTimestampNs);
    } else {
      assert latencies + [] == latencies;
    }
  }

  /** For every delivery sequence: the byte counter is the payload of the packets credited as
      processed, and the latency counters are the number, the sum and the largest of their
      latencies. */
  lemma {:induction false} CountersMeasure(ds: seq<Delivery>, clock: seq<nat>)
    requires |ds| == |clock|
    ensures Measures(Sizes(ds), Latencies(ds, clock), Fold(ds, clock))
  {
    if ds == [] {
    } else {
      var n := |ds| - 1;
      var c := Fold(ds[..n], clock[..n]);
      CountersMeasure(ds[..n], clock[..n]);
      CreditedFirst(ds, clock, c);
      MeasureStep(Sizes(ds[..n]), Latencies(ds[..n], clock[..n]), c, ds[n], clock[n], CreditOf(ds, n) == FirstProcessed);
    }
  }

  lemma MeasureStep(sizes: seq<nat>, latencies: seq<nat>, c: Counters, d: Delivery, nowNs: nat, credited: bool)
    requires Measures(sizes, latencies, c)
    requires credited <==> d.End? && d.message.Processed? && d.message.LifecycleId() !in c.completed
    ensures Measures(sizes + if credited then [d.message.packet.payloadSize] else [],
                     latencies + if credited then LatencyOf(d.message.packet, nowNs) else [],
                     Handle(c, d, nowNs))
  {
    if credited {
      HandleMeasures(sizes, latencies, c, d.message.packet, nowNs);
    } else {
      assert sizes + [] == sizes && latencies + [] == latencies;
    }
  }

  lemma CreditedFirst(ds: seq<Delivery>, clock: seq<nat>, c: Counters)
    requires 0 < |ds| == |clock| && c == Fold(ds[..|ds| - 1], clock[..|ds| - 1])
    ensures var d := ds[|ds| - 1];
            CreditOf(ds, |ds| - 1) == FirstProcessed
            <==> d.End? && d.message.Processed? && d.message.LifecycleId() !in c.completed
  {
    var n := |ds| - 1;
    AccountingLaw(ds[..n], clock[..n]);
    CreditsSnoc(ds[..n], ds[n]);
    assert ds[..n] + [ds[n]] == ds;
  }

  lemma SampledKeepsBound(c: Counters, ingressNs: nat, nowNs: nat)
    requires LatencyBounded(c)
    ensures LatencyBounded(Sampled(c, ingressNs, nowNs))
  {
    if ingressNs != 0 && nowNs >= ingressNs {
      var latency := nowNs - ingressNs;
      var m := if latency > c.maxLatencyNs then latency else c.maxLatencyNs;
      assert c.maxLatencyNs * c.samples <= m * c.samples;
      assert m * (c.samples + 1) == m * c.samples + m;
    }
  }

  /** The average latency never exceeds the maximum. */
  lemma {:induction false} AverageBelowMaximum(ds: seq<Delivery>, clock: seq<nat>)
    requires |ds| == |clock|
    ensures var c := Fold(ds, clock);
            LatencyBounded(c) && (c.samples != 0 ==> c.totalLatencyNs / c.samples <= c.maxLatencyNs)
  {
    if ds == [] {
    } else {
      var n := |ds| - 1;
      AverageBelowMaximum(ds[..n], clock[..n]);
      var c := Fold(ds[..n], clock[..n]);
      if ds[n].End? && ds[n].message.Processed? {
        var p := ds[n].message.packet;
        var c' := c.(completed := c.completed + {p.lifecycleId}, terminal := c.terminal + 1, rxPackets := c.rxPackets + 1,
                     rxBytes := c.rxBytes + p.payloadSize, processed := c.processed + 1);
        SampledKeepsBound(c', p.ingressTimestampNs, clock[n]);
      }
    }
    var c := Fold(ds, clock);
    if c.samples != 0 {
      DivideBound(c.totalLatencyNs, c.samples, c.maxLatencyNs);
    }
  }

  lemma DivideBound(total: nat, n: nat, max: nat)
    requires n > 0 && total <= max * n
    ensures total / n <= max
  {
  }
}
