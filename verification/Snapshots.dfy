/**
 * `snapshotAt` against the statistics' handlers. The handlers' counters are separate atomic
 * variables changed inside one lock; the snapshot reads some of them outside that lock.
 * Every atomic operation is one step here.
 */
module Snapshots {
  import opened Packets
  import opened Stats
  import Pipeline

  /** The lock and, for a handler inside it, the atomic operation that comes next. */
  datatype Lock =
    | Free
    | InProcessed(next: ProcessedOp, bytes: nat, latency: Option<nat>)
    | InDropped(counted: bool, reason: PacketDropReason)
    | InSnapshot

  datatype ProcessedOp = AddRx | AddBytes | AddProcessed | AddTerminal | AddLatency | AddSample | RaiseMax

  datatype Shared = Shared(
    rx: nat, bytes: nat, ingress: nat, processed: nat, terminal: nat, duplicates: nat,
    drops: map<PacketDropReason, nat>, completed: set<nat>,
    totalNs: nat, maxNs: nat, samples: nat)

  /** The snapshot's program counter is the next value to read. */
  datatype SnapPc =
    | Idle | ReadRx | ReadBytes | ReadIngress | Acquire | ReadProcessed | ReadTerminal | ReadDuplicates
    | CopyDrops | Release | ReadTotal | ReadMax | ReadSamples | Done

  /** The values read so far; `calm` records whether `totalNs` was read while no handler had
      added a latency without having raised the maximum. */
  datatype Snap = Snap(
    pc: SnapPc, rx: nat, bytes: nat, ingress: nat, processed: nat, terminal: nat, duplicates: nat,
    drops: map<PacketDropReason, nat>, totalNs: nat, maxNs: nat, samples: nat, calm: bool)

  datatype State = State(sh: Shared, lock: Lock, snap: Snap)

  datatype Event =
    | OnProcessed(id: nat, size: nat, latency: Option<nat>)
    | OnDropped(id: nat, reason: PacketDropReason)
    | OnPacketRx
    | HandlerStep
    | BeginSnapshot
    | SnapshotStep

  const NOTHING_READ := Snap(Idle, 0, 0, 0, 0, 0, 0, map[], 0, 0, 0, false)

  const START := State(Shared(0, 0, 0, 0, 0, 0, map[], {}, 0, 0, 0), Free, NOTHING_READ)

  /** No handler is between adding a latency and raising the maximum. */
  predicate Calm(lock: Lock) {
    !(lock.InProcessed? && (lock.next.AddSample? || lock.next.RaiseMax?))
  }

  predicate Enabled(s: State, e: Event) {
    match e
    case OnProcessed(_, _, _) => s.lock.Free?
    case OnDropped(_, _) => s.lock.Free?
    case OnPacketRx => true
    case HandlerStep => s.lock.InProcessed? || s.lock.InDropped?
    case BeginSnapshot => s.snap.pc.Idle? || s.snap.pc.Done?
    case SnapshotStep => !s.snap.pc.Idle? && !s.snap.pc.Done? && (s.snap.pc.Acquire? ==> s.lock.Free?)
  }

  function HandlerApply(sh: Shared, lock: Lock): (Shared, Lock)
    requires lock.InProcessed? || lock.InDropped?
  {
    match lock
    case InDropped(counted, r) =>
      if !counted then (sh.(drops := sh.drops[r := DropCount(sh.drops, r) + 1]), InDropped(true, r))
      else (sh.(terminal := sh.terminal + 1), Free)
    case InProcessed(next, bytes, latency) =>
      match next
      case AddRx => (sh.(rx := sh.rx + 1), lock.(next := AddBytes))
      case AddBytes => (sh.(bytes := sh.bytes + bytes), lock.(next := AddProcessed))
      case AddProcessed => (sh.(processed := sh.processed + 1), lock.(next := AddTerminal))
      case AddTerminal => (sh.(terminal := sh.terminal + 1), if latency.Some? then lock.(next := AddLatency) else Free)
      case AddLatency =>
        if latency.Some? then (sh.(totalNs := sh.totalNs + latency.value), lock.(next := AddSample)) else (sh, Free)
      case AddSample => (sh.(samples := sh.samples + 1), lock.(next := RaiseMax))
      case RaiseMax =>
        (if latency.Some? && latency.value > sh.maxNs then sh.(maxNs := latency.value) else sh, Free)
  }

  function SnapshotApply(sh: Shared, lock: Lock, snap: Snap): (Lock, Snap) {
    match snap.pc
    case ReadRx => (lock, snap.(rx := sh.rx, pc := ReadBytes))
    case ReadBytes => (lock, snap.(bytes := sh.bytes, pc := ReadIngress))
    case ReadIngress => (lock, snap.(ingress := sh.ingress, pc := Acquire))
    case Acquire => (InSnapshot, snap.(pc := ReadProcessed))
    case ReadProcessed => (lock, snap.(processed := sh.processed, pc := ReadTerminal))
    case ReadTerminal => (lock, snap.(terminal := sh.terminal, pc := ReadDuplicates))
    case ReadDuplicates => (lock, snap.(duplicates := sh.duplicates, pc := CopyDrops))
    case CopyDrops => (lock, snap.(drops := sh.drops, pc := Release))
    case Release => (Free, snap.(pc := ReadTotal))
    case ReadTotal => (lock, snap.(totalNs := sh.totalNs, calm := Calm(lock), pc := ReadMax))
    case ReadMax => (lock, snap.(maxNs := sh.maxNs, pc := ReadSamples))
    case ReadSamples => (lock, snap.(samples := sh.samples, pc := Done))
    case _ => (lock, snap)
  }

  function Apply(s: State, e: Event): State
    requires Enabled(s, e)
  {
    match e
    case OnProcessed(id, size, latency) =>
      if id in s.sh.completed then s.(sh := s.sh.(duplicates := s.sh.duplicates + 1))
      else s.(sh := s.sh.(completed := s.sh.completed + {id}), lock := InProcessed(AddRx, size, latency))
    case OnDropped(id, reason) =>
      if id in s.sh.completed then s.(sh := s.sh.(duplicates := s.sh.duplicates + 1))
      else s.(sh := s.sh.(completed := s.sh.completed + {id}), lock := InDropped(false, reason))
    case OnPacketRx => s.(sh := s.sh.(ingress := s.sh.ingress + 1))
    case HandlerStep =>
      var (sh, lock) := HandlerApply(s.sh, s.lock);
      s.(sh := sh, lock := lock)
    case BeginSnapshot => s.(snap := NOTHING_READ.(pc := ReadRx))
    case SnapshotStep =>
      var (lock, snap) := SnapshotApply(s.sh, s.lock, s.snap);
      s.(lock := lock, snap := snap)
  }

  function After(es: seq<Event>): Option<State> {
    if es == [] then Some(START)
    else match After(es[..|es| - 1])
      case None => None
      case Some(s) => if Enabled(s, es[|es| - 1]) then Some(Apply(s, es[|es| - 1])) else None
  }

  // ---- What the counters say while a handler is at work ----

  /** Terminal events against processed and drops, and received against processed. */
  predicate Counts(sh: Shared, lock: Lock) {
    var ahead := if lock.InProcessed? && (lock.next.AddBytes? || lock.next.AddProcessed?) then 1 else 0;
    var behind := if (lock.InProcessed? && lock.next.AddTerminal?) || (lock.InDropped? && lock.counted) then 1 else 0;
    && sh.rx == sh.processed + ahead
    && sh.terminal + behind == sh.processed + TotalDrops(sh.drops)
  }

  /** The latencies added are those counted and raised, except for the handler's own. */
  predicate Latencies(sh: Shared, lock: Lock) {
    if lock.InProcessed? && lock.next.AddSample? && lock.latency.Some? then
      sh.totalNs <= sh.maxNs * sh.samples + lock.latency.value
    else if lock.InProcessed? && lock.next.RaiseMax? && lock.latency.Some? then
      sh.samples > 0 && sh.totalNs <= sh.maxNs * (sh.samples - 1) + lock.latency.value
    else Calm(lock) && sh.totalNs <= sh.maxNs * sh.samples
  }

  predicate Locked(pc: SnapPc) {
    pc.ReadProcessed? || pc.ReadTerminal? || pc.ReadDuplicates? || pc.CopyDrops? || pc.Release?
  }

  predicate ReadsCounts(pc: SnapPc) {
    pc.Release? || pc.ReadTotal? || pc.ReadMax? || pc.ReadSamples? || pc.Done?
  }

  /** What a snapshot has read stays consistent. */
  predicate Consistent(s: State) {
    ConsistentWith(s.sh, s.lock, s.snap)
  }

  predicate ConsistentWith(sh: Shared, lock: Lock, snap: Snap) {
    && (Locked(snap.pc) <==> lock.InSnapshot?)
    && (snap.pc.Idle? || snap.pc.ReadRx? || snap.rx <= sh.rx)
    && (snap.pc.ReadTerminal? || snap.pc.ReadDuplicates? || snap.pc.CopyDrops? ==> snap.processed == sh.processed)
    && (snap.pc.ReadDuplicates? || snap.pc.CopyDrops? ==> snap.terminal == sh.terminal)
    && (snap.pc.ReadTerminal? || snap.pc.ReadDuplicates? || snap.pc.CopyDrops? || ReadsCounts(snap.pc) ==>
          snap.rx <= snap.processed)
    && (ReadsCounts(snap.pc) ==> snap.terminal == snap.processed + TotalDrops(snap.drops))
  }

  lemma HandlerCounts(sh: Shared, lock: Lock)
    requires Counts(sh, lock) && (lock.InProcessed? || lock.InDropped?)
    ensures Counts(HandlerApply(sh, lock).0, HandlerApply(sh, lock).1)
  {
    if lock.InDropped? && !lock.counted {
      CountDrop(sh.drops, lock.reason);
    }
  }

  lemma StepCounts(s: State, e: Event)
    requires Enabled(s, e) && Counts(s.sh, s.lock) && Consistent(s)
    ensures Counts(Apply(s, e).sh, Apply(s, e).lock)
  {
    if e.HandlerStep? {
      HandlerCounts(s.sh, s.lock);
    }
  }

  lemma HandlerConsistent(s: State, e: Event)
    requires !e.SnapshotStep? && !e.BeginSnapshot?
    requires Enabled(s, e) && Consistent(s)
    ensures Consistent(Apply(s, e))
  {
  }

  lemma EarlyReads(sh: Shared, lock: Lock, snap: Snap)
    requires snap.pc.ReadRx? || snap.pc.ReadBytes? || snap.pc.ReadIngress? || (snap.pc.Acquire? && lock.Free?)
    requires ConsistentWith(sh, lock, snap)
    ensures ConsistentWith(sh, SnapshotApply(sh, lock, snap).0, SnapshotApply(sh, lock, snap).1)
  {
  }

  lemma LockedReads(sh: Shared, lock: Lock, snap: Snap)
    requires Locked(snap.pc) && Counts(sh, lock) && ConsistentWith(sh, lock, snap)
    ensures ConsistentWith(sh, SnapshotApply(sh, lock, snap).0, SnapshotApply(sh, lock, snap).1)
  {
  }

  lemma LateReads(sh: Shared, lock: Lock, snap: Snap)
    requires snap.pc.ReadTotal? || snap.pc.ReadMax? || snap.pc.ReadSamples?
    requires ConsistentWith(sh, lock, snap)
    ensures ConsistentWith(sh, SnapshotApply(sh, lock, snap).0, SnapshotApply(sh, lock, snap).1)
  {
  }

  lemma SnapshotConsistent(s: State)
    requires Enabled(s, SnapshotStep) && Counts(s.sh, s.lock) && Consistent(s)
    ensures Consistent(Apply(s, SnapshotStep))
  {
    if Locked(s.snap.pc) {
      LockedReads(s.sh, s.lock, s.snap);
    } else if s.snap.pc.ReadTotal? || s.snap.pc.ReadMax? || s.snap.pc.ReadSamples? {
      LateReads(s.sh, s.lock, s.snap);
    } else {
      EarlyReads(s.sh, s.lock, s.snap);
    }
  }

  lemma StepConsistent(s: State, e: Event)
    requires Enabled(s, e) && Counts(s.sh, s.lock) && Consistent(s)
    ensures Consistent(Apply(s, e))
  {
    if e.SnapshotStep? {
      SnapshotConsistent(s);
    } else if !e.BeginSnapshot? {
      HandlerConsistent(s, e);
    }
  }

  lemma MultiplyUp(a: nat, m: nat, n: nat, m': nat, n': nat)
    requires a <= m * n && m <= m' && n <= n'
    ensures a <= m' * n'
  {
    assert m * n <= m' * n;
    assert m' * n <= m' * n';
  }

  lemma HandlerLatencies(sh: Shared, lock: Lock)
    requires Latencies(sh, lock) && (lock.InProcessed? || lock.InDropped?)
    ensures Latencies(HandlerApply(sh, lock).0, HandlerApply(sh, lock).1)
  {
    if lock.InProcessed? && lock.next.RaiseMax? && lock.latency.Some? {
      var l := lock.latency.value;
      var m := if l > sh.maxNs then l else sh.maxNs;
      MultiplyUp(sh.maxNs * (sh.samples - 1), sh.maxNs, sh.samples - 1, m, sh.samples - 1);
      assert m * sh.samples == m * (sh.samples - 1) + m;
    }
  }

  lemma StepLatencies(s: State, e: Event)
    requires Enabled(s, e) && Latencies(s.sh, s.lock) && Consistent(s)
    ensures Latencies(Apply(s, e).sh, Apply(s, e).lock)
  {
    if e.HandlerStep? {
      HandlerLatencies(s.sh, s.lock);
    }
  }

  /** What has been read of the total is not more than the total. */
  predicate TotalRead(sh: Shared, snap: Snap) {
    snap.pc.ReadMax? ==> snap.totalNs <= sh.totalNs
  }

  /** A total read while calm is bounded by what is read, or still to be read, after it. */
  predicate CalmBounded(sh: Shared, snap: Snap) {
    snap.calm ==>
      match snap.pc
      case ReadMax => snap.totalNs <= sh.maxNs * sh.samples
      case ReadSamples => snap.totalNs <= snap.maxNs * sh.samples
      case Done => snap.totalNs <= snap.maxNs * snap.samples
      case _ => true
  }

  lemma SharedGrows(sh: Shared, sh': Shared, snap: Snap)
    requires CalmBounded(sh, snap) && sh.maxNs <= sh'.maxNs && sh.samples <= sh'.samples
    ensures CalmBounded(sh', snap)
  {
    if snap.calm && snap.pc.ReadMax? {
      MultiplyUp(snap.totalNs, sh.maxNs, sh.samples, sh'.maxNs, sh'.samples);
    } else if snap.calm && snap.pc.ReadSamples? {
      MultiplyUp(snap.totalNs, snap.maxNs, sh.samples, snap.maxNs, sh'.samples);
    }
  }

  lemma StepCalmBounded(s: State, e: Event)
    requires Enabled(s, e) && Latencies(s.sh, s.lock) && CalmBounded(s.sh, s.snap)
    ensures CalmBounded(Apply(s, e).sh, Apply(s, e).snap)
  {
    if e.SnapshotStep? || e.BeginSnapshot? {
    } else {
      SharedGrows(s.sh, Apply(s, e).sh, s.snap);
    }
  }

  ghost predicate Inv(s: State) {
    Counts(s.sh, s.lock) && Latencies(s.sh, s.lock) && Consistent(s) && CalmBounded(s.sh, s.snap)
    && TotalRead(s.sh, s.snap)
  }

  lemma StepTotalRead(s: State, e: Event)
    requires Enabled(s, e) && TotalRead(s.sh, s.snap)
    ensures TotalRead(Apply(s, e).sh, Apply(s, e).snap)
  {
  }

  lemma StepInv(s: State, e: Event)
    requires Enabled(s, e) && Inv(s)
    ensures Inv(Apply(s, e))
  {
    StepCounts(s, e);
    StepConsistent(s, e);
    StepLatencies(s, e);
    StepCalmBounded(s, e);
    StepTotalRead(s, e);
  }

  /** Nothing counted and nothing read. */
  lemma NothingInv(sh: Shared, lock: Lock, snap: Snap)
    requires sh.rx == sh.processed == sh.terminal == sh.totalNs == 0 && sh.drops == map[]
    requires lock.Free? && snap.pc.Idle?
    ensures Inv(State(sh, lock, snap))
  {
    NoDrops(REASONS);
  }

  lemma {:induction false} RunInv(es: seq<Event>)
    ensures After(es).Some? ==> Inv(After(es).value)
  {
    if es == [] {
      NothingInv(START.sh, START.lock, START.snap);
    } else {
      RunInv(es[..|es| - 1]);
      var before := After(es[..|es| - 1]);
      if before.Some? && Enabled(before.value, es[|es| - 1]) {
        StepInv(before.value, es[|es| - 1]);
      }
    }
  }

  function Average(total: nat, samples: nat): nat {
    if samples != 0 then total / samples else 0
  }

  /** The average is the total over the samples, rounded down, and zero without samples. */
  lemma AverageIsQuotient(total: nat, samples: nat)
    ensures samples == 0 ==> Average(total, samples) == 0
    ensures samples > 0 ==> Average(total, samples) * samples <= total < (Average(total, samples) + 1) * samples
  {
  }

  /** In every interleaving a finished snapshot has terminal events equal to processed plus
      drops and no more received than processed packets, and its average latency is at most
      its maximum if its total was read while calm. */
  lemma SnapshotsAreConsistent(es: seq<Event>)
    requires After(es).Some? && After(es).value.snap.pc.Done?
    ensures var snap := After(es).value.snap;
            && snap.terminal == snap.processed + TotalDrops(snap.drops)
            && snap.rx <= snap.processed
            && (snap.calm ==> Average(snap.totalNs, snap.samples) <= snap.maxNs)
  {
    RunInv(es);
    var snap := After(es).value.snap;
    if snap.calm && snap.samples != 0 {
      DivideBound(snap.totalNs, snap.samples, snap.maxNs);
    }
  }

  /** Whenever no handler is inside its critical section, the counters themselves satisfy
      the same laws. */
  lemma QuietCountersAreConsistent(es: seq<Event>)
    requires After(es).Some? && (After(es).value.lock.Free? || After(es).value.lock.InSnapshot?)
    ensures var sh := After(es).value.sh;
            && sh.rx == sh.processed && sh.terminal == sh.processed + TotalDrops(sh.drops)
            && sh.totalNs <= sh.maxNs * sh.samples
            && Average(sh.totalNs, sh.samples) <= sh.maxNs
  {
    RunInv(es);
    var sh := After(es).value.sh;
    if sh.samples != 0 {
      DivideBound(sh.totalNs, sh.samples, sh.maxNs);
    }
  }

  lemma Continue(es: seq<Event>, s: State, e: Event) returns (es': seq<Event>, s': State)
    requires After(es) == Some(s) && Enabled(s, e)
    ensures After(es') == Some(s') && s' == Apply(s, e)
  {
    es', s' := es + [e], Apply(s, e);
    assert es'[..|es|] == es;
  }

  lemma ReachAcquired() returns (es: seq<Event>)
    ensures After(es) == Some(START.(snap := NOTHING_READ.(pc := ReadProcessed), lock := InSnapshot))
  {
    var s := START;
    es := [];
    es, s := Continue(es, s, BeginSnapshot);
    es, s := Continue(es, s, SnapshotStep);
    assert s == START.(snap := NOTHING_READ.(pc := ReadBytes));
    es, s := Continue(es, s, SnapshotStep);
    assert s == START.(snap := NOTHING_READ.(pc := ReadIngress));
    es, s := Continue(es, s, SnapshotStep);
    assert s == START.(snap := NOTHING_READ.(pc := Acquire));
    es, s := Continue(es, s, SnapshotStep);
  }

  /** A snapshot that has released the lock before anything was counted. */
  lemma ReachReadTotal() returns (es: seq<Event>)
    ensures After(es) == Some(START.(snap := NOTHING_READ.(pc := ReadTotal)))
  {
    es := ReachAcquired();
    var s := START.(snap := NOTHING_READ.(pc := ReadProcessed), lock := InSnapshot);
    es, s := Continue(es, s, SnapshotStep);
    assert s == START.(snap := NOTHING_READ.(pc := ReadTerminal), lock := InSnapshot);
    es, s := Continue(es, s, SnapshotStep);
    assert s == START.(snap := NOTHING_READ.(pc := ReadDuplicates), lock := InSnapshot);
    es, s := Continue(es, s, SnapshotStep);
    assert s == START.(snap := NOTHING_READ.(pc := CopyDrops), lock := InSnapshot);
    es, s := Continue(es, s, SnapshotStep);
    assert s == START.(snap := NOTHING_READ.(pc := Release), lock := InSnapshot);
    es, s := Continue(es, s, SnapshotStep);
  }

  /** A handler that has just added a latency of 9. */
  lemma ReachAddedLatency() returns (es: seq<Event>, s: State)
    ensures After(es) == Some(s) && s.snap == NOTHING_READ.(pc := ReadTotal)
    ensures s.lock == InProcessed(AddSample, 0, Some(9))
    ensures s.sh.totalNs == 9 && s.sh.samples == 0 && s.sh.maxNs == 0
  {
    es := ReachReadTotal();
    s := START.(snap := NOTHING_READ.(pc := ReadTotal));
    es, s := Continue(es, s, OnProcessed(1, 0, Some(9)));
    es, s := Continue(es, s, HandlerStep);
    assert s.lock == InProcessed(AddBytes, 0, Some(9));
    es, s := Continue(es, s, HandlerStep);
    assert s.lock == InProcessed(AddProcessed, 0, Some(9));
    es, s := Continue(es, s, HandlerStep);
    assert s.lock == InProcessed(AddTerminal, 0, Some(9));
    es, s := Continue(es, s, HandlerStep);
    assert s.lock == InProcessed(AddLatency, 0, Some(9));
    es, s := Continue(es, s, HandlerStep);
  }

  // ---- Exactly when a snapshot is sure to report an average within its maximum ----

  /** Events that bring a snapshot to its end, whatever the handlers do meanwhile. */
  predicate Completes(s: State, es: seq<Event>)
    decreases |es|
  {
    if es == [] then s.snap.pc.Done?
    else !es[0].BeginSnapshot? && Enabled(s, es[0]) && Completes(Apply(s, es[0]), es[1..])
  }

  /** The snapshot that such events end. */
  function Completed(s: State, es: seq<Event>): Snap
    requires Completes(s, es)
    decreases |es|
  {
    if es == [] then s.snap else Completed(Apply(s, es[0]), es[1..])
  }

  /** Bounds for what the snapshot has read, or is still to read, of maximum and samples. */
  predicate AtLeast(s: State, total: nat, max: nat, samples: nat) {
    && s.snap.totalNs == total
    && samples <= s.sh.samples
    && match s.snap.pc
       case ReadMax => max <= s.sh.maxNs
       case ReadSamples => max <= s.snap.maxNs
       case Done => max <= s.snap.maxNs && samples <= s.snap.samples
       case _ => false
  }

  lemma {:induction false} CompletedAtLeast(s: State, es: seq<Event>, total: nat, max: nat, samples: nat)
    requires Completes(s, es) && AtLeast(s, total, max, samples)
    ensures var snap := Completed(s, es); snap.totalNs == total && max <= snap.maxNs && samples <= snap.samples
    decreases |es|
  {
    if es == [] {
    } else {
      assert AtLeast(Apply(s, es[0]), total, max, samples);
      CompletedAtLeast(Apply(s, es[0]), es[1..], total, max, samples);
    }
  }

  lemma DivideBelow(total: nat, m: nat, q: nat)
    requires 0 < m && total < (q + 1) * m
    ensures total / m <= q
  {
    if total / m >= q + 1 {
      MultiplyUp((q + 1) * m, q + 1, m, total / m, m);
    }
  }

  lemma AverageFalls(total: nat, n: nat, m: nat)
    requires 0 < n <= m
    ensures total / m <= total / n
  {
    var q := total / n;
    MultiplyUp((q + 1) * n, q + 1, n, q + 1, m);
    DivideBelow(total, m, q);
  }

  /** The samples that the snapshot divides by at the earliest: a total above zero without a
      sample has a handler that is about to count one. */
  function EarliestSamples(sh: Shared): nat {
    if sh.samples == 0 then 1 else sh.samples
  }

  predicate ReportsWithin(snap: Snap) {
    Average(snap.totalNs, snap.samples) <= snap.maxNs
  }

  /** From a state in which the total has been read and the maximum has not, all completions
      report an average within the maximum exactly when the total, divided by the samples
      counted by now (or by one), is within the maximum reached by now. */
  lemma AverageWithinMaximumIff(es: seq<Event>)
    requires After(es).Some? && After(es).value.snap.pc.ReadMax?
    ensures var s := After(es).value;
            (forall fs :: Completes(s, fs) ==> ReportsWithin(Completed(s, fs)))
            <==> Average(s.snap.totalNs, EarliestSamples(s.sh)) <= s.sh.maxNs
  {
    RunInv(es);
    WithinMaximumIff(After(es).value);
  }

  lemma WithinMaximumIff(s: State)
    requires Inv(s) && s.snap.pc.ReadMax?
    ensures (forall fs :: Completes(s, fs) ==> ReportsWithin(Completed(s, fs)))
            <==> Average(s.snap.totalNs, EarliestSamples(s.sh)) <= s.sh.maxNs
  {
    if Average(s.snap.totalNs, EarliestSamples(s.sh)) <= s.sh.maxNs {
      forall fs | Completes(s, fs) ensures ReportsWithin(Completed(s, fs)) {
        WithinMaximum(s, fs);
      }
    } else {
      if s.sh.samples == 0 {
        SampleIsDue(s);
      }
      var fs := EarliestCompletion(s);
    }
  }

  lemma WithinMaximum(s: State, fs: seq<Event>)
    requires s.snap.pc.ReadMax? && Completes(s, fs)
    requires Average(s.snap.totalNs, EarliestSamples(s.sh)) <= s.sh.maxNs
    ensures ReportsWithin(Completed(s, fs))
  {
    CompletedAtLeast(s, fs, s.snap.totalNs, s.sh.maxNs, s.sh.samples);
    if Completed(s, fs).samples != 0 {
      AverageFalls(s.snap.totalNs, EarliestSamples(s.sh), Completed(s, fs).samples);
    }
  }

  lemma CompletesCons(s: State, e: Event, es: seq<Event>)
    requires Enabled(s, e) && !e.BeginSnapshot? && Completes(Apply(s, e), es)
    ensures Completes(s, [e] + es) && Completed(s, [e] + es) == Completed(Apply(s, e), es)
  {
    assert ([e] + es)[1..] == es;
  }

  /** Reading on at once, except that a first sample that is due is counted before the
      samples are read. */
  lemma EarliestCompletion(s: State) returns (fs: seq<Event>)
    requires s.snap.pc.ReadMax?
    requires s.sh.samples == 0 ==> s.lock.InProcessed? && s.lock.next.AddSample?
    ensures Completes(s, fs)
    ensures Completed(s, fs) == s.snap.(maxNs := s.sh.maxNs, samples := EarliestSamples(s.sh), pc := Done)
  {
    var s1 := Apply(s, SnapshotStep);
    assert s1 == s.(snap := s.snap.(maxNs := s.sh.maxNs, pc := ReadSamples));
    var rest: seq<Event> := [];
    if s.sh.samples == 0 {
      rest := CountThenRead(s1);
    } else {
      CompletesCons(s1, SnapshotStep, []);
      rest := [SnapshotStep] + [];
    }
    CompletesCons(s, SnapshotStep, rest);
    fs := [SnapshotStep] + rest;
  }

  lemma CountThenRead(s: State) returns (fs: seq<Event>)
    requires s.snap.pc.ReadSamples? && s.sh.samples == 0 && s.lock.InProcessed? && s.lock.next.AddSample?
    ensures Completes(s, fs) && Completed(s, fs) == s.snap.(samples := 1, pc := Done)
  {
    var s1 := Apply(s, HandlerStep);
    assert s1.snap == s.snap && s1.sh.samples == 1;
    CompletesCons(s1, SnapshotStep, []);
    CompletesCons(s, HandlerStep, [SnapshotStep] + []);
    fs := [HandlerStep] + ([SnapshotStep] + []);
  }

  lemma SampleIsDue(s: State)
    requires Inv(s) && s.snap.pc.ReadMax? && s.snap.totalNs > 0 && s.sh.samples == 0
    ensures s.lock.InProcessed? && s.lock.next.AddSample?
  {
    assert s.sh.totalNs > 0;
  }

  /** Calmness is needed: a snapshot that reads the total just after a handler has added its
      latency can report an average above its maximum. */
  lemma AverageCanExceedMaximum() returns (es: seq<Event>)
    ensures After(es).Some? && After(es).value.snap.pc.Done?
    ensures var snap := After(es).value.snap; Average(snap.totalNs, snap.samples) > snap.maxNs
  {
    var s;
    es, s := ReachAddedLatency();
    es, s := Continue(es, s, SnapshotStep);
    es, s := Continue(es, s, SnapshotStep);
    es, s := Continue(es, s, HandlerStep);
    es, s := Continue(es, s, SnapshotStep);
    assert s.snap.totalNs == 9 && s.snap.maxNs == 0 && s.snap.samples == 1;
  }

  // ---- Every value of a snapshot is a value that its counter had ----

  /** The counters that a snapshot reports. */
  datatype Field =
    | RxPackets | RxBytes | Ingress | ProcessedPackets | TerminalEvents | Duplicates | Drops(reason: PacketDropReason)
    | TotalLatency | MaxLatency | LatencySamples

  function Current(sh: Shared, f: Field): nat {
    match f
    case RxPackets => sh.rx
    case RxBytes => sh.bytes
    case Ingress => sh.ingress
    case ProcessedPackets => sh.processed
    case TerminalEvents => sh.terminal
    case Duplicates => sh.duplicates
    case Drops(r) => DropCount(sh.drops, r)
    case TotalLatency => sh.totalNs
    case MaxLatency => sh.maxNs
    case LatencySamples => sh.samples
  }

  function Shown(snap: Snap, f: Field): nat {
    match f
    case RxPackets => snap.rx
    case RxBytes => snap.bytes
    case Ingress => snap.ingress
    case ProcessedPackets => snap.processed
    case TerminalEvents => snap.terminal
    case Duplicates => snap.duplicates
    case Drops(r) => DropCount(snap.drops, r)
    case TotalLatency => snap.totalNs
    case MaxLatency => snap.maxNs
    case LatencySamples => snap.samples
  }

  /** The snapshot has read the counter. */
  predicate HasRead(pc: SnapPc, f: Field) {
    match pc
    case Idle => false
    case ReadRx => false
    case ReadBytes => f.RxPackets?
    case ReadIngress => f.RxPackets? || f.RxBytes?
    case Acquire => f.RxPackets? || f.RxBytes? || f.Ingress?
    case ReadProcessed => f.RxPackets? || f.RxBytes? || f.Ingress?
    case ReadTerminal => f.RxPackets? || f.RxBytes? || f.Ingress? || f.ProcessedPackets?
    case ReadDuplicates => f.RxPackets? || f.RxBytes? || f.Ingress? || f.ProcessedPackets? || f.TerminalEvents?
    case CopyDrops => !f.Drops? && !f.TotalLatency? && !f.MaxLatency? && !f.LatencySamples?
    case Release => !f.TotalLatency? && !f.MaxLatency? && !f.LatencySamples?
    case ReadTotal => !f.TotalLatency? && !f.MaxLatency? && !f.LatencySamples?
    case ReadMax => !f.MaxLatency? && !f.LatencySamples?
    case ReadSamples => !f.LatencySamples?
    case Done => true
  }

  /** `low` is a bound for the counter, and what has been read of it lies in between. */
  predicate Bounded(s: State, f: Field, low: nat) {
    low <= Current(s.sh, f) && (HasRead(s.snap.pc, f) ==> low <= Shown(s.snap, f) <= Current(s.sh, f))
  }

  lemma CountersGrow(s: State, e: Event, f: Field)
    requires Enabled(s, e)
    ensures Current(s.sh, f) <= Current(Apply(s, e).sh, f)
  {
  }

  lemma StepBounded(s: State, e: Event, f: Field, low: nat)
    requires Enabled(s, e) && !e.BeginSnapshot? && Bounded(s, f, low)
    ensures Bounded(Apply(s, e), f, low)
  {
    CountersGrow(s, e, f);
  }

  /** The state in which such events end. */
  function Reached(s: State, es: seq<Event>): State
    requires Completes(s, es)
    decreases |es|
  {
    if es == [] then s else Reached(Apply(s, es[0]), es[1..])
  }

  lemma {:induction false} CompletedBounded(s: State, es: seq<Event>, f: Field, low: nat)
    requires Completes(s, es) && Bounded(s, f, low)
    ensures Completed(s, es) == Reached(s, es).snap && Reached(s, es).snap.pc.Done?
    ensures Bounded(Reached(s, es), f, low)
    decreases |es|
  {
    if es == [] {
    } else {
      StepBounded(s, es[0], f, low);
      CompletedBounded(Apply(s, es[0]), es[1..], f, low);
    }
  }

  /** In every interleaving, each value of a finished snapshot, the count of each drop reason
      included, lies between its own counter's value when the snapshot began and its value
      when the snapshot was done. */
  lemma SnapshotBetween(s: State, es: seq<Event>, f: Field)
    requires Enabled(s, BeginSnapshot) && Completes(Apply(s, BeginSnapshot), es)
    ensures var begun := Apply(s, BeginSnapshot);
            Current(s.sh, f) <= Shown(Completed(begun, es), f) <= Current(Reached(begun, es).sh, f)
  {
    CompletedBounded(Apply(s, BeginSnapshot), es, f, Current(s.sh, f));
  }

  lemma {:induction false} UndisturbedReads(s: State, es: seq<Event>)
    requires Completes(s, es) && forall k :: 0 <= k < |es| ==> es[k].SnapshotStep?
    ensures Reached(s, es).sh == s.sh
    decreases |es|
  {
    if es == [] {
    } else {
      UndisturbedReads(Apply(s, es[0]), es[1..]);
    }
  }

  /** If no handler acts while it is taken, the snapshot shows the counters of the statistics,
      every one of them. */
  lemma UndisturbedSnapshot(c: Counters, s: State, es: seq<Event>)
    requires s.sh == Variables(c) && Enabled(s, BeginSnapshot) && Completes(Apply(s, BeginSnapshot), es)
    requires forall k :: 0 <= k < |es| ==> es[k].SnapshotStep?
    ensures var snap := Completed(Apply(s, BeginSnapshot), es);
            && snap.rx == c.rxPackets && snap.bytes == c.rxBytes && snap.ingress == c.ingress
            && snap.processed == c.processed && snap.terminal == c.terminal && snap.duplicates == c.duplicates
            && (forall r :: DropCount(snap.drops, r) == DropCount(c.drops, r))
            && snap.totalNs == c.totalLatencyNs && snap.maxNs == c.maxLatencyNs && snap.samples == c.samples
  {
    UndisturbedReads(Apply(s, BeginSnapshot), es);
    var snap := Completed(Apply(s, BeginSnapshot), es);
    forall f ensures Shown(snap, f) == Current(s.sh, f) {
      SnapshotBetween(s, es, f);
    }
    ShowsAll(snap, s.sh);
  }

  /** A snapshot that shows every counter has the values field by field. */
  lemma ShowsAll(snap: Snap, sh: Shared)
    requires forall f :: Shown(snap, f) == Current(sh, f)
    ensures snap.rx == sh.rx && snap.bytes == sh.bytes && snap.ingress == sh.ingress && snap.processed == sh.processed
    ensures snap.terminal == sh.terminal && snap.duplicates == sh.duplicates
    ensures forall r :: DropCount(snap.drops, r) == DropCount(sh.drops, r)
    ensures snap.totalNs == sh.totalNs && snap.maxNs == sh.maxNs && snap.samples == sh.samples
  {
    assert Shown(snap, RxPackets) == snap.rx && Shown(snap, RxBytes) == snap.bytes && Shown(snap, Ingress) == snap.ingress;
    assert Shown(snap, ProcessedPackets) == snap.processed && Shown(snap, TerminalEvents) == snap.terminal;
    assert Shown(snap, Duplicates) == snap.duplicates && Shown(snap, TotalLatency) == snap.totalNs;
    assert Shown(snap, MaxLatency) == snap.maxNs && Shown(snap, LatencySamples) == snap.samples;
    forall r ensures DropCount(snap.drops, r) == DropCount(sh.drops, r) {
      assert Shown(snap, Drops(r)) == Current(sh, Drops(r));
    }
  }

  // ---- Uninterrupted handlers are the handlers of the statistics ----

  /** The counters of the statistics as the shared variables. */
  function Variables(c: Counters): Shared {
    Shared(c.rxPackets, c.rxBytes, c.ingress, c.processed, c.terminal, c.duplicates, c.drops, c.completed,
           c.totalLatencyNs, c.maxLatencyNs, c.samples)
  }

  function StepsLeft(lock: Lock): nat {
    match lock
    case InDropped(counted, _) => if counted then 1 else 2
    case InProcessed(next, _, _) =>
      (match next
       case AddRx => 7
       case AddBytes => 6
       case AddProcessed => 5
       case AddTerminal => 4
       case AddLatency => 3
       case AddSample => 2
       case RaiseMax => 1)
    case _ => 0
  }

  /** The shared variables when the handler inside the lock has taken all its steps. */
  function Alone(sh: Shared, lock: Lock): Shared
    decreases StepsLeft(lock)
  {
    if StepsLeft(lock) == 0 then sh
    else
      var (sh', lock') := HandlerApply(sh, lock);
      Alone(sh', lock')
  }

  lemma LatencyAlone(sh: Shared, lock: Lock)
    requires lock.InProcessed? && lock.next.AddLatency? && lock.latency.Some?
    ensures var l := lock.latency.value;
            Alone(sh, lock) == sh.(totalNs := sh.totalNs + l, samples := sh.samples + 1,
                                   maxNs := if l > sh.maxNs then l else sh.maxNs)
  {
    var (sh1, lock1) := HandlerApply(sh, lock);
    var (sh2, lock2) := HandlerApply(sh1, lock1);
    assert Alone(sh2, lock2) == HandlerApply(sh2, lock2).0;
    assert Alone(sh1, lock1) == Alone(sh2, lock2);
  }

  lemma OneStep(sh: Shared, lock: Lock)
    requires StepsLeft(lock) > 0
    ensures Alone(sh, lock) == Alone(HandlerApply(sh, lock).0, HandlerApply(sh, lock).1)
  {
  }

  lemma CountedAlone(sh: Shared, lock: Lock)
    requires lock.InProcessed? && lock.next.AddProcessed?
    ensures Alone(sh, lock)
            == Alone(sh.(processed := sh.processed + 1, terminal := sh.terminal + 1),
                     if lock.latency.Some? then lock.(next := AddLatency) else Free)
  {
    var sh1, lock1 := sh.(processed := sh.processed + 1), lock.(next := AddTerminal);
    assert HandlerApply(sh, lock) == (sh1, lock1);
    OneStep(sh, lock);
    OneStep(sh1, lock1);
  }

  lemma ProcessedAlone(sh: Shared, lock: Lock)
    requires lock.InProcessed? && lock.next.AddRx?
    ensures Alone(sh, lock)
            == Alone(sh.(rx := sh.rx + 1, bytes := sh.bytes + lock.bytes, processed := sh.processed + 1,
                         terminal := sh.terminal + 1),
                     if lock.latency.Some? then lock.(next := AddLatency) else Free)
  {
    var sh1, lock1 := sh.(rx := sh.rx + 1), lock.(next := AddBytes);
    assert HandlerApply(sh, lock) == (sh1, lock1);
    OneStep(sh, lock);
    OneStep(sh1, lock1);
    CountedAlone(sh1.(bytes := sh.bytes + lock.bytes), lock.(next := AddProcessed));
  }

  lemma DroppedAlone(sh: Shared, r: PacketDropReason)
    ensures Alone(sh, InDropped(false, r))
            == sh.(drops := sh.drops[r := DropCount(sh.drops, r) + 1], terminal := sh.terminal + 1)
  {
    var (sh1, lock1) := HandlerApply(sh, InDropped(false, r));
    assert Alone(sh1, lock1) == HandlerApply(sh1, lock1).0;
  }

  /** The latency sample of a processed packet. */
  function LatencySample(p: Packet, nowNs: nat): Option<nat> {
    if LatencyOf(p, nowNs) == [] then None else Some(LatencyOf(p, nowNs)[0])
  }

  /** The event with which the handler of a terminal message enters its lock. */
  function Entry(m: Terminal, nowNs: nat): Event {
    match m
    case Processed(p) => OnProcessed(p.lifecycleId, p.payloadSize, LatencySample(p, nowNs))
    case Dropped(d) => OnDropped(d.lifecycleId, d.reason)
  }

  /** The arrival handler is one step, and that of the statistics. */
  lemma ArrivalAlone(c: Counters, lock: Lock, snap: Snap, nowNs: nat)
    ensures Apply(State(Variables(c), lock, snap), OnPacketRx).sh == Variables(Handle(c, Pipeline.Rx, nowNs))
  {
  }

  /** A handler that enters a free lock and is not interrupted changes the shared variables
      as the handlers of the statistics do. */
  lemma HandlersAlone(c: Counters, snap: Snap, m: Terminal, nowNs: nat)
    ensures var s := Apply(State(Variables(c), Free, snap), Entry(m, nowNs));
            Alone(s.sh, s.lock) == Variables(Handle(c, Pipeline.End(m), nowNs))
  {
    var sh := Variables(c).(completed := c.completed + {m.LifecycleId()});
    if m.LifecycleId() in c.completed {
    } else if m.Dropped? {
      DroppedAlone(sh, m.drop.reason);
    } else {
      var p := m.packet;
      ProcessedAlone(sh, InProcessed(AddRx, p.payloadSize, LatencySample(p, nowNs)));
      if LatencySample(p, nowNs).Some? {
        var counted := sh.(rx := sh.rx + 1, bytes := sh.bytes + p.payloadSize, processed := sh.processed + 1,
                           terminal := sh.terminal + 1);
        LatencyAlone(counted, InProcessed(AddLatency, p.payloadSize, LatencySample(p, nowNs)));
      }
    }
  }
}
