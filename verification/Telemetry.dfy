/** The telemetry export queue: drop the oldest when full, stamp each sample with the queue
    pressure, export from one loop. */
module Telemetry {
  import opened Packets
  import opened Counting

  /** A sample with the queue size and drop count that `enqueue` writes into it. */
  datatype Stamped<T> = Stamped(sample: T, queueSize: nat, dropped: nat)

  datatype Loop<T> = NotStarted | Waiting | Exporting(sample: Stamped<T>) | Returned

  /** How a sample left the queue. */
  datatype Fate = Evicted | Popped

  /** `queue`, `dropped` and `running` are the manager's fields. The rest is the loop's
      position and the record: what entered, how each departed sample left, how many samples
      had been popped and how many had left when each sample had entered, and what was
      exported. */
  datatype State<T> = State(
    queue: seq<Stamped<T>>,
    dropped: nat,
    running: bool,
    loop: Loop<T>,
    entered: seq<Stamped<T>>,
    fates: seq<Fate>,
    poppedBefore: seq<nat>,
    leftBy: seq<nat>,
    exported: seq<Stamped<T>>)

  datatype Event<T> = Enqueue(x: T) | Start | Stop | Take | Export | Return

  function Init<T>(): State<T> {
    State([], 0, false, NotStarted, [], [], [], [], [])
  }

  predicate Enabled<T>(s: State<T>, e: Event<T>) {
    match e
    case Enqueue(_) => true
    case Start => !s.running && (s.loop.NotStarted? || s.loop.Returned?)
    case Stop => true
    case Take => s.loop.Waiting? && s.queue != []
    case Export => s.loop.Exporting?
    case Return => s.loop.Waiting? && s.queue == [] && !s.running
  }

  function EnqueueApply<T>(capacity: nat, s: State<T>, x: T): State<T> {
    if capacity == 0 then
      s.(dropped := s.dropped + 1, entered := s.entered + [Stamped(x, 0, 0)], fates := s.fates + [Evicted],
         poppedBefore := s.poppedBefore + [Occurs(s.fates, Popped)], leftBy := s.leftBy + [|s.fates| + 1])
    else
      var full := |s.queue| >= capacity;
      var kept := if full then s.queue[1..] else s.queue;
      var dropped := if full then s.dropped + 1 else s.dropped;
      var b := Stamped(x, |kept| + 1, dropped);
      s.(queue := kept + [b], dropped := dropped, entered := s.entered + [b],
         fates := if full then s.fates + [Evicted] else s.fates,
         poppedBefore := s.poppedBefore + [Occurs(s.fates, Popped)],
         leftBy := s.leftBy + [if full then |s.fates| + 1 else |s.fates|])
  }

  function Apply<T>(capacity: nat, s: State<T>, e: Event<T>): State<T>
    requires Enabled(s, e)
  {
    match e
    case Enqueue(x) => EnqueueApply(capacity, s, x)
    case Start => s.(running := true, loop := Waiting)
    case Stop => s.(running := false)
    case Take => s.(queue := s.queue[1..], loop := Exporting(s.queue[0]), fates := s.fates + [Popped])
    case Export => s.(loop := Waiting, exported := s.exported + [s.loop.sample])
    case Return => s.(loop := Returned)
  }

  class TelemetryExportManager<T> {
    const capacity: nat
    var queue: seq<Stamped<T>>
    var droppedCount: nat
    var running: bool
    ghost var past: State<T>

    ghost function View(): State<T>
      reads this
    {
      past.(queue := queue, dropped := droppedCount, running := running)
    }

    constructor (capacity: nat)
      ensures this.capacity == capacity && View() == Init<T>()
    {
      this.capacity := capacity;
      queue, droppedCount, running := [], 0, false;
      past := Init();
    }

    method EnqueueSample(x: T)
      modifies this
      ensures View() == Apply(capacity, old(View()), Enqueue(x))
    {
      ghost var before := View();
      if capacity == 0 {
        droppedCount := droppedCount + 1;
        past := EnqueueApply(capacity, before, x);
        return;
      }
      if |queue| >= capacity {
        queue := queue[1..];
        droppedCount := droppedCount + 1;
      }
      queue := queue + [Stamped(x, 0, 0)];
      var last := |queue| - 1;
      queue := queue[last := queue[last].(queueSize := |queue|, dropped := droppedCount)];
      past := EnqueueApply(capacity, before, x);
    }

    /** The compare-and-exchange of `stop`; false when it was not running. */
    method RequestStop() returns (stopped: bool)
      modifies this
      ensures stopped == old(running)
      ensures View() == Apply(capacity, old(View()), Stop)
    {
      if !running {
        return false;
      }
      running := false;
      return true;
    }

    /** The lock section of the export loop once its wait is over. */
    method TakeOrReturn() returns (next: Option<Stamped<T>>)
      requires past.loop.Waiting? && (queue != [] || !running)
      modifies this
      ensures next.None? <==> old(queue) == [] && !old(running)
      ensures View() == Apply(capacity, old(View()), if next.None? then Return else Take)
    {
      if queue == [] && !running {
        past := past.(loop := Returned);
        return None;
      }
      next := Some(queue[0]);
      queue := queue[1..];
      past := past.(loop := Exporting(next.value), fates := past.fates + [Popped]);
    }
  }

  // ---- Laws of every interleaving ----

  function After<T>(capacity: nat, es: seq<Event<T>>): Option<State<T>> {
    if es == [] then Some(Init())
    else match After(capacity, es[..|es| - 1])
      case None => None
      case Some(s) => if Enabled(s, es[|es| - 1]) then Some(Apply(capacity, s, es[|es| - 1])) else None
  }

  /** The samples whose fate is `Popped`, in the order of entry. */
  function PoppedOf<T>(entered: seq<Stamped<T>>, fates: seq<Fate>): seq<Stamped<T>>
    requires |fates| <= |entered|
  {
    if fates == [] then []
    else
      var k := |fates| - 1;
      PoppedOf(entered, fates[..k]) + if fates[k].Popped? then [entered[k]] else []
  }

  function Hand<T>(loop: Loop<T>): seq<Stamped<T>> {
    if loop.Exporting? then [loop.sample] else []
  }

  ghost predicate Accounted<T(!new)>(capacity: nat, s: State<T>) {
    && |s.queue| <= capacity
    && |s.entered| == |s.fates| + |s.queue|
    && s.queue == s.entered[|s.fates|..]
    && s.dropped == Occurs(s.fates, Evicted)
    && s.exported + Hand(s.loop) == PoppedOf(s.entered, s.fates)
    && |s.fates| == Occurs(s.fates, Evicted) + Occurs(s.fates, Popped)
  }

  /** Each stamp, with the samples popped before it, gives the sample's place of entry. */
  ghost predicate StampsGivePlaces<T(!new)>(capacity: nat, s: State<T>) {
    && |s.poppedBefore| == |s.entered|
    && (capacity > 0 ==> forall k :: 0 <= k < |s.entered| ==>
          s.entered[k].queueSize + s.entered[k].dropped + s.poppedBefore[k] == k + 1)
  }

  /** Each stamp is the truth at the sample's entry: the drops are the evictions up to and
      including this entry, and the queue size is the number of samples that had entered,
      this one included, and not left. */
  ghost predicate StampsAreTrue<T(!new)>(capacity: nat, s: State<T>) {
    && |s.leftBy| == |s.entered|
    && (capacity > 0 ==> forall k :: 0 <= k < |s.entered| ==> StampIsTrue(capacity, s, k))
  }

  ghost predicate StampIsTrue<T(!new)>(capacity: nat, s: State<T>, k: nat)
    requires k < |s.entered| == |s.leftBy|
  {
    && s.leftBy[k] <= |s.fates|
    && s.entered[k].dropped == Occurs(s.fates[..s.leftBy[k]], Evicted)
    && s.entered[k].queueSize == k + 1 - s.leftBy[k]
    && 1 <= s.entered[k].queueSize <= capacity
  }

  lemma {:induction false} PoppedOfPrefix<T>(entered: seq<Stamped<T>>, more: seq<Stamped<T>>, fates: seq<Fate>)
    requires |fates| <= |entered| && entered <= more
    ensures PoppedOf(entered, fates) == PoppedOf(more, fates)
    decreases |fates|
  {
    if fates == [] {
    } else {
      PoppedOfPrefix(entered, more, fates[..|fates| - 1]);
    }
  }

  lemma PoppedOfSnoc<T>(entered: seq<Stamped<T>>, fates: seq<Fate>, f: Fate)
    requires |fates| < |entered|
    ensures PoppedOf(entered, fates + [f])
            == PoppedOf(entered, fates) + if f.Popped? then [entered[|fates|]] else []
  {
    assert (fates + [f])[..|fates|] == fates;
  }

  lemma EnqueueAccounted<T(!new)>(capacity: nat, s: State<T>, x: T)
    requires Accounted(capacity, s)
    ensures Accounted(capacity, EnqueueApply(capacity, s, x))
  {
    var s' := EnqueueApply(capacity, s, x);
    PoppedOfPrefix(s.entered, s'.entered, s.fates);
    assert s'.queue == s'.entered[|s'.fates|..];
    if capacity == 0 || |s.queue| >= capacity {
      OccursSnoc(s.fates, Evicted, Evicted);
      OccursSnoc(s.fates, Evicted, Popped);
      PoppedOfSnoc(s'.entered, s.fates, Evicted);
    }
  }

  lemma StepAccounted<T(!new)>(capacity: nat, s: State<T>, e: Event<T>)
    requires Accounted(capacity, s) && Enabled(s, e)
    ensures Accounted(capacity, Apply(capacity, s, e))
  {
    if e.Enqueue? {
      EnqueueAccounted(capacity, s, e.x);
    } else if e.Take? {
      OccursSnoc(s.fates, Popped, Evicted);
      OccursSnoc(s.fates, Popped, Popped);
      PoppedOfSnoc(s.entered, s.fates, Popped);
    }
  }

  lemma StepStamps<T(!new)>(capacity: nat, s: State<T>, e: Event<T>)
    requires Accounted(capacity, s) && StampsGivePlaces(capacity, s) && Enabled(s, e)
    ensures StampsGivePlaces(capacity, Apply(capacity, s, e))
  {
  }

  /** The drop count before the k-th sample entered. */
  function DroppedBefore<T>(entered: seq<Stamped<T>>, k: nat): nat
    requires k <= |entered|
  {
    if k == 0 then 0 else entered[k - 1].dropped
  }

  /** A sample is dropped only to make room: the drop count grows with an entry by at most one,
      and only if the queue is then at its capacity. */
  ghost predicate DropsMakeRoom<T(!new)>(capacity: nat, s: State<T>) {
    capacity > 0 ==>
      && s.dropped == DroppedBefore(s.entered, |s.entered|)
      && forall k :: 0 <= k < |s.entered| ==> DropMakesRoom(capacity, s.entered, k)
  }

  predicate DropMakesRoom<T>(capacity: nat, entered: seq<Stamped<T>>, k: nat)
    requires k < |entered|
  {
    || entered[k].dropped == DroppedBefore(entered, k)
    || (entered[k].dropped == DroppedBefore(entered, k) + 1 && entered[k].queueSize == capacity)
  }

  lemma EnqueueMakesRoom<T(!new)>(capacity: nat, s: State<T>, x: T)
    requires |s.queue| <= capacity && DropsMakeRoom(capacity, s)
    ensures DropsMakeRoom(capacity, EnqueueApply(capacity, s, x))
  {
    var s', n := EnqueueApply(capacity, s, x), |s.entered|;
    if capacity > 0 {
      assert s'.entered[..n] == s.entered && DroppedBefore(s'.entered, n) == s.dropped;
      assert DropMakesRoom(capacity, s'.entered, n);
      forall k | 0 <= k < n ensures DropMakesRoom(capacity, s'.entered, k) {
        assert DropMakesRoom(capacity, s.entered, k);
        assert DroppedBefore(s'.entered, k) == DroppedBefore(s.entered, k);
      }
    }
  }

  lemma StepMakesRoom<T(!new)>(capacity: nat, s: State<T>, e: Event<T>)
    requires Accounted(capacity, s) && DropsMakeRoom(capacity, s) && Enabled(s, e)
    ensures DropsMakeRoom(capacity, Apply(capacity, s, e))
  {
    if e.Enqueue? {
      EnqueueMakesRoom(capacity, s, e.x);
    } else {
      assert Apply(capacity, s, e).entered == s.entered;
    }
  }

  /** A departure after an entry does not change what was true at that entry. */
  lemma StampStays<T(!new)>(capacity: nat, s: State<T>, s': State<T>, k: nat)
    requires |s.leftBy| == |s.entered| && |s'.leftBy| == |s'.entered| && k < |s.entered| && StampIsTrue(capacity, s, k)
    requires s.entered <= s'.entered && s.leftBy <= s'.leftBy && s.fates <= s'.fates
    ensures StampIsTrue(capacity, s', k)
  {
    assert s'.fates[..s.leftBy[k]] == s.fates[..s.leftBy[k]];
  }

  lemma EnqueueTrue<T(!new)>(capacity: nat, s: State<T>, x: T)
    requires Accounted(capacity, s) && StampsAreTrue(capacity, s) && capacity > 0
    ensures StampIsTrue(capacity, EnqueueApply(capacity, s, x), |s.entered|)
  {
    var s' := EnqueueApply(capacity, s, x);
    var n := |s.entered|;
    assert s'.fates[..s'.leftBy[n]] == s'.fates;
    if |s.queue| >= capacity {
      OccursSnoc(s.fates, Evicted, Evicted);
    }
  }

  lemma StepTrue<T(!new)>(capacity: nat, s: State<T>, e: Event<T>)
    requires Accounted(capacity, s) && StampsAreTrue(capacity, s) && Enabled(s, e)
    ensures StampsAreTrue(capacity, Apply(capacity, s, e))
  {
    var s' := Apply(capacity, s, e);
    if capacity > 0 {
      forall k | 0 <= k < |s'.entered| ensures StampIsTrue(capacity, s', k) {
        if k < |s.entered| {
          StampStays(capacity, s, s', k);
        } else {
          EnqueueTrue(capacity, s, e.x);
        }
      }
    }
  }

  lemma {:induction false} RunAccounted<T(!new)>(capacity: nat, es: seq<Event<T>>)
    ensures var r := After(capacity, es);
            r.Some? ==> Accounted(capacity, r.value) && StampsGivePlaces(capacity, r.value) && StampsAreTrue(capacity, r.value)
                        && DropsMakeRoom(capacity, r.value)
  {
    if es == [] {
    } else {
      RunAccounted(capacity, es[..|es| - 1]);
      var before := After(capacity, es[..|es| - 1]);
      if before.Some? && Enabled(before.value, es[|es| - 1]) {
        StepAccounted(capacity, before.value, es[|es| - 1]);
        StepStamps(capacity, before.value, es[|es| - 1]);
        StepTrue(capacity, before.value, es[|es| - 1]);
        StepMakesRoom(capacity, before.value, es[|es| - 1]);
      }
    }
  }

  lemma {:induction false} PoppedCount<T>(entered: seq<Stamped<T>>, fates: seq<Fate>)
    requires |fates| <= |entered|
    ensures |PoppedOf(entered, fates)| == Occurs(fates, Popped)
    decreases |fates|
  {
    if fates == [] {
    } else {
      PoppedCount(entered, fates[..|fates| - 1]);
    }
  }

  /** In every interleaving of enqueues and the export loop: all samples are exported, in
      hand, queued or dropped; what leaves is what entered with the evicted samples left
      out, in order; the queue is the most recent part, and a sample is dropped only to make
      room in a full queue; each stamp is the truth at its entry and, with the samples popped
      before, gives the sample's place of entry. */
  lemma ExportAccounting<T(!new)>(capacity: nat, es: seq<Event<T>>)
    requires After(capacity, es).Some?
    ensures var s := After(capacity, es).value;
            && |s.entered| == |s.exported| + |Hand(s.loop)| + |s.queue| + s.dropped
            && |s.fates| <= |s.entered| && s.exported + Hand(s.loop) == PoppedOf(s.entered, s.fates)
            && s.queue == s.entered[|s.fates|..] && |s.queue| <= capacity
            && StampsAreTrue(capacity, s) && StampsGivePlaces(capacity, s) && DropsMakeRoom(capacity, s)
  {
    RunAccounted(capacity, es);
    var s := After(capacity, es).value;
    PoppedCount(s.entered, s.fates);
  }

  /** When the export loop returns, every sample that entered was exported or dropped. */
  lemma ReturnsDrained<T(!new)>(capacity: nat, es: seq<Event<T>>)
    requires After(capacity, es).Some? && Enabled(After(capacity, es).value, Return)
    ensures var s := After(capacity, es).value;
            && |s.entered| == |s.exported| + s.dropped
            && |s.fates| == |s.entered| && s.exported == PoppedOf(s.entered, s.fates)
  {
    ExportAccounting(capacity, es);
    var s := After(capacity, es).value;
    assert s.exported + Hand(s.loop) == s.exported;
  }
}
