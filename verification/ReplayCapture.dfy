/**
 * A pipeline run with an outcome collector that listens. A publication by a publisher, by the
 * worker or by the UDP stage draws the outcome's number; storing it is a step of its own,
 * and the thread does nothing else in between. The order of the drawn numbers is the
 * reported order of `ReplaySchedules`; the order of the stored vector need not be.
 */
module ReplayCapture {
  import opened Packets
  import opened FailureInjection
  import opened Pipeline
  import opened Replay
  import opened ReplaySchedules
  import opened Counting
  import R = Recordings

  datatype Collecting = Collecting(s: State, c: R.Recording<Outcome>)

  datatype Step = Run(e: Event) | Store(thread: nat)

  /** The recording threads: the publishers, the worker, and the UDP stage. */
  function Start(publishers: nat): Collecting {
    Collecting(Init(publishers), R.Fresh(publishers + 2))
  }

  /** The thread that takes a step of the pipeline, if it can record. */
  function Thread(publishers: nat, e: Event): Option<nat> {
    match e
    case Publish(i, _, _) => Some(i)
    case Inject(i) => Some(i)
    case Admit(i) => Some(i)
    case PublishDrop(i) => Some(i)
    case CountRx(i) => Some(i)
    case Take => Some(publishers)
    case Finish(_) => Some(publishers)
    case Exit => Some(publishers)
    case UdpDrop(_) => Some(publishers + 1)
    case Stop => None
  }

  /** The outcome that a step publishes, if any. */
  function Said(s: State, e: Event): Option<Outcome>
    requires Enabled(s, e)
  {
    match e
    case PublishDrop(i) => Some(OutcomeOf(Dropped(s.pubs[i].drop)))
    case Finish(now) => Some(OutcomeOf(WorkerMessage(s.worker.packet, now)))
    case UdpDrop(d) => Some(OutcomeOf(Dropped(d)))
    case _ => None
  }

  /** The thread has nothing to store. */
  predicate Free(c: R.Recording<Outcome>, thread: Option<nat>) {
    thread.Some? ==> thread.value < |c.hands| && c.hands[thread.value].None?
  }

  predicate CanStep(k: Collecting, x: Step) {
    match x
    case Run(e) => Enabled(k.s, e) && Free(k.c, Thread(|k.s.pubs|, e))
    case Store(t) => R.Can(k.c, R.Store(t))
  }

  function Draws(k: Collecting, e: Event): R.Recording<Outcome>
    requires CanStep(k, Run(e))
  {
    if Said(k.s, e).Some? then R.Do(k.c, R.Draw(Thread(|k.s.pubs|, e).value, Said(k.s, e).value)) else k.c
  }

  function DoStep(cfg: FailureConfig, k: Collecting, x: Step): Collecting
    requires CanStep(k, x)
  {
    match x
    case Run(e) => Collecting(Apply(cfg, k.s, e), Draws(k, e))
    case Store(t) => k.(c := R.Do(k.c, R.Store(t)))
  }

  predicate Steps(cfg: FailureConfig, k: Collecting, xs: seq<Step>)
    decreases |xs|
  {
    xs == [] || (CanStep(k, xs[0]) && Steps(cfg, DoStep(cfg, k, xs[0]), xs[1..]))
  }

  function Ends(cfg: FailureConfig, k: Collecting, xs: seq<Step>): Collecting
    requires Steps(cfg, k, xs)
    decreases |xs|
  {
    if xs == [] then k else Ends(cfg, DoStep(cfg, k, xs[0]), xs[1..])
  }

  lemma {:induction false} StepsConcat(cfg: FailureConfig, k: Collecting, xs: seq<Step>, ys: seq<Step>)
    requires Steps(cfg, k, xs) && Steps(cfg, Ends(cfg, k, xs), ys)
    ensures Steps(cfg, k, xs + ys) && Ends(cfg, k, xs + ys) == Ends(cfg, Ends(cfg, k, xs), ys)
    decreases |xs|
  {
    if xs == [] {
      assert xs + ys == ys;
    } else {
      StepsConcat(cfg, DoStep(cfg, k, xs[0]), xs[1..], ys);
      assert (xs + ys)[1..] == xs[1..] + ys;
    }
  }

  lemma StepsCons(cfg: FailureConfig, k: Collecting, x: Step, xs: seq<Step>)
    requires CanStep(k, x) && Steps(cfg, DoStep(cfg, k, x), xs)
    ensures Steps(cfg, k, [x] + xs) && Ends(cfg, k, [x] + xs) == Ends(cfg, DoStep(cfg, k, x), xs)
  {
    assert ([x] + xs)[1..] == xs;
  }

  // ---- Without its stores, such a run is a pipeline run ----

  function EventOf(x: Step): seq<Event> {
    if x.Run? then [x.e] else []
  }

  function Events(xs: seq<Step>): seq<Event> {
    if xs == [] then [] else EventOf(xs[0]) + Events(xs[1..])
  }

  lemma {:induction false} ForgetStores(cfg: FailureConfig, k: Collecting, xs: seq<Step>)
    requires Steps(cfg, k, xs)
    ensures Runs(cfg, k.s, Events(xs)) && After(cfg, k.s, Events(xs)) == Ends(cfg, k, xs).s
    decreases |xs|
  {
    if xs == [] {
    } else {
      ForgetStores(cfg, DoStep(cfg, k, xs[0]), xs[1..]);
      if xs[0].Run? {
        RunsCons(cfg, k.s, xs[0].e, Events(xs[1..]));
      } else {
        assert Events(xs) == Events(xs[1..]);
      }
    }
  }

  /** The numbers are drawn in the reported order, once each, and name their outcomes. */
  ghost predicate Numbering(k: Collecting, x: nat) {
    k.c.drawn == EndOutcomes(k.s.delivered) && R.OnceEach(k.c, x) && R.Faithful(k.c)
  }

  lemma RunNumbering(cfg: FailureConfig, k: Collecting, e: Event, x: nat)
    requires CanStep(k, Run(e)) && Numbering(k, x)
    ensures Numbering(DoStep(cfg, k, Run(e)), x)
  {
    if Said(k.s, e).Some? {
      var draw := R.Draw(Thread(|k.s.pubs|, e).value, Said(k.s, e).value);
      R.DoOnceEach(k.c, draw, x);
      R.DoFaithful(k.c, draw);
    }
    var s' := Apply(cfg, k.s, e);
    if |s'.delivered| > |k.s.delivered| {
      EndOutcomesSnoc(k.s.delivered, s'.delivered[|k.s.delivered|]);
    }
  }

  lemma {:induction false} StepsNumbering(cfg: FailureConfig, k: Collecting, xs: seq<Step>, x: nat)
    requires Steps(cfg, k, xs) && Numbering(k, x)
    ensures Numbering(Ends(cfg, k, xs), x)
    decreases |xs|
  {
    if xs == [] {
    } else {
      if xs[0].Run? {
        RunNumbering(cfg, k, xs[0].e, x);
      } else {
        R.DoOnceEach(k.c, R.Store(xs[0].thread), x);
        R.DoFaithful(k.c, R.Store(xs[0].thread));
      }
      StepsNumbering(cfg, DoStep(cfg, k, xs[0]), xs[1..], x);
    }
  }

  /** In every run with any number of publishers: the collector's numbers are handed out in
      the reported order, every stored number names its outcome, and at rest the vector
      holds each number exactly once, one for every terminal message. */
  lemma CollectorNumbersReports(cfg: FailureConfig, n: nat, xs: seq<Step>, x: nat)
    requires Steps(cfg, Start(n), xs)
    ensures var k := Ends(cfg, Start(n), xs);
            && k.c.drawn == EndOutcomes(k.s.delivered) && R.Faithful(k.c)
            && (R.AtRest(k.c) ==>
                  && |k.c.stored| == |EndOutcomes(k.s.delivered)|
                  && Occurs(R.Numbers(k.c.stored), x) == if x < |k.c.stored| then 1 else 0)
  {
    R.FreshInv<Outcome>(n + 2, x);
    StepsNumbering(cfg, Start(n), xs, x);
    var k := Ends(cfg, Start(n), xs);
    if R.AtRest(k.c) {
      R.EmptyHands(k.c.hands);
    }
  }

  /** A complete run with a collector: nothing is left to settle or to store. */
  ghost predicate CollectedRun(cfg: FailureConfig, ps: seq<Packet>, us: seq<PacketDropped>, xs: seq<Step>) {
    && Steps(cfg, Start(1), xs)
    && R.AtRest(Ends(cfg, Start(1), xs).c)
    && FullRun(cfg, ps, us, Events(xs))
  }

  /** The collected vector. */
  function Vector(cfg: FailureConfig, xs: seq<Step>): seq<R.Numbered<Outcome>>
    requires Steps(cfg, Start(1), xs)
  {
    Ends(cfg, Start(1), xs).c.stored
  }

  lemma VectorLength(cfg: FailureConfig, ps: seq<Packet>, us: seq<PacketDropped>, xs: seq<Step>)
    requires CollectedRun(cfg, ps, us, xs)
    ensures |Vector(cfg, xs)| == |ps| + |us|
  {
    CollectorNumbersReports(cfg, 1, xs, 0);
    ForgetStores(cfg, Start(1), xs);
    HeardLength(cfg, ps, us, Events(xs));
  }

  // ---- Storing at once: every pipeline run has a vector in the reported order ----

  /** A state from which a pipeline run can go on with a collector. */
  predicate Open(k: Collecting) {
    |k.c.hands| == |k.s.pubs| + 2 && R.AtRest(k.c)
  }

  lemma StoreAtOnce(cfg: FailureConfig, k: Collecting, e: Event) returns (xs: seq<Step>)
    requires Open(k) && Enabled(k.s, e)
    ensures Steps(cfg, k, xs) && Events(xs) == [e]
    ensures var k' := Ends(cfg, k, xs);
            Open(k') && k'.s == Apply(cfg, k.s, e) && k.c.stored <= k'.c.stored
            && (R.OneAtATime(k.c) ==> R.OneAtATime(k'.c))
  {
    var k1 := DoStep(cfg, k, Run(e));
    if Said(k.s, e).Some? {
      var t := Thread(|k.s.pubs|, e).value;
      if R.OneAtATime(k.c) {
        R.DrawAlone(k.c, R.Draw(t, Said(k.s, e).value));
        R.StoreAlone(k1.c, R.Store(t));
      }
      StepsCons(cfg, k1, Store(t), []);
      StepsCons(cfg, k, Run(e), [Store(t)] + []);
      xs := [Run(e)] + ([Store(t)] + []);
      assert xs[1..] == [Store(t)] && [Store(t)][1..] == [];
      assert Events([Store(t)]) == [] && Events(xs) == [e] + Events(xs[1..]);
    } else {
      StepsCons(cfg, k, Run(e), []);
      xs := [Run(e)] + [];
      assert xs[1..] == [] && Events(xs) == [e] + Events(xs[1..]);
    }
  }

  lemma EventsCons(x: Step, xs: seq<Step>)
    ensures Events([x] + xs) == EventOf(x) + Events(xs)
  {
    assert ([x] + xs)[1..] == xs;
  }

  lemma {:induction false} EventsConcat(xs: seq<Step>, ys: seq<Step>)
    ensures Events(xs + ys) == Events(xs) + Events(ys)
  {
    if xs == [] {
      assert xs + ys == ys;
    } else {
      var x, rest := xs[0], xs[1..];
      EventsConcat(rest, ys);
      assert Events(xs + ys) == EventOf(x) + Events(rest + ys) by {
        EventsCons(x, rest + ys);
        assert xs + ys == [x] + (rest + ys);
      }
      Regroup(EventOf(x), Events(rest), Events(ys));
    }
  }

  lemma Regroup<T>(a: seq<T>, b: seq<T>, c: seq<T>)
    ensures a + (b + c) == (a + b) + c
  {
  }

  lemma {:induction false} Lift(cfg: FailureConfig, k: Collecting, es: seq<Event>) returns (xs: seq<Step>)
    requires Open(k) && Runs(cfg, k.s, es)
    ensures Steps(cfg, k, xs) && Events(xs) == es
    ensures var k' := Ends(cfg, k, xs);
            Open(k') && k'.s == After(cfg, k.s, es) && k.c.stored <= k'.c.stored
            && (R.OneAtATime(k.c) ==> R.OneAtATime(k'.c))
    decreases |es|
  {
    if es == [] {
      xs := [];
    } else {
      var first := StoreAtOnce(cfg, k, es[0]);
      var rest := Lift(cfg, Ends(cfg, k, first), es[1..]);
      StepsConcat(cfg, k, first, rest);
      EventsConcat(first, rest);
      xs := first + rest;
      assert es == [es[0]] + es[1..];
    }
  }

  lemma StartIsOpen()
    ensures Open(Start(1)) && R.OneAtATime(Start(1).c)
  {
    R.FreshInv<Outcome>(3, 0);
    R.FreshAlone<Outcome>(3);
    assert |Start(1).s.pubs| == 1 && Start(1).c == R.Fresh(3);
  }

  /** Storing one outcome at a time leaves the vector in the reported order. */
  lemma OrderlyVector(cfg: FailureConfig, xs: seq<Step>)
    requires Steps(cfg, Start(1), xs)
    requires R.AtRest(Ends(cfg, Start(1), xs).c) && R.OneAtATime(Ends(cfg, Start(1), xs).c)
    ensures Runs(cfg, Init(1), Events(xs)) && Vector(cfg, xs) == R.Sequenced(Reported(cfg, Events(xs)))
  {
    ForgetStores(cfg, Start(1), xs);
    CollectorNumbersReports(cfg, 1, xs, 0);
    R.StoredInOrder(Ends(cfg, Start(1), xs).c);
  }

  lemma LiftedRun(cfg: FailureConfig, ps: seq<Packet>, us: seq<PacketDropped>, es: seq<Event>) returns (xs: seq<Step>)
    requires FullRun(cfg, ps, us, es)
    ensures CollectedRun(cfg, ps, us, xs) && Vector(cfg, xs) == R.Sequenced(Reported(cfg, es))
  {
    StartIsOpen();
    xs := Lift(cfg, Start(1), es);
    OrderlyVector(cfg, xs);
  }
}
