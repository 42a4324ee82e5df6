/**
 * The pipeline with its worker at work: settling a packet is the worker's validation,
 * switching, transmission and publication, and the control plane ages the table and changes
 * ports between packets. The worker is the only learner, so what is forwarded follows the
 * order in which packets are taken, whatever the publishers do.
 */
module Switching {
  import opened Packets
  import opened FailureInjection
  import opened Pipeline
  import opened Replay
  import Forwarding
  import W = PacketWorker

  /** `done` records the worker's and the control plane's steps. */
  datatype Running = Running(s: State, w: W.Progress, done: seq<W.Step>)

  datatype Step =
    | Run(e: Event)
    | Settle(nowMs: nat, answers: nat -> W.TransmitResult)
    | Control(c: W.Step)

  /** The control plane has taken the steps `boot` before the first packet is published. */
  ghost function Start(setup: W.Setup, publishers: nat, boot: seq<W.Step>): Running {
    Running(Init(publishers), W.Work(setup, boot), boot)
  }

  predicate CanStep(k: Running, x: Step) {
    match x
    case Run(e) => !e.Finish? && Enabled(k.s, e)
    case Settle(_, _) => k.s.worker.Holding?
    case Control(c) => !c.Handle?
  }

  ghost function DoStep(cfg: FailureConfig, setup: W.Setup, k: Running, x: Step): Running
    requires CanStep(k, x)
  {
    match x
    case Run(e) => k.(s := Apply(cfg, k.s, e))
    case Settle(now, answers) =>
      var step := W.Handle(k.s.worker.packet, now, answers);
      Running(Apply(cfg, k.s, Finish(now)), W.StepOn(setup, k.w, step), k.done + [step])
    case Control(c) => k.(w := W.StepOn(setup, k.w, c), done := k.done + [c])
  }

  ghost predicate Steps(cfg: FailureConfig, setup: W.Setup, k: Running, xs: seq<Step>)
    decreases |xs|
  {
    |xs| == 0 || (CanStep(k, xs[0]) && Steps(cfg, setup, DoStep(cfg, setup, k, xs[0]), xs[1..]))
  }

  ghost function Ends(cfg: FailureConfig, setup: W.Setup, k: Running, xs: seq<Step>): Running
    requires Steps(cfg, setup, k, xs)
    decreases |xs|
  {
    if |xs| == 0 then k else Ends(cfg, setup, DoStep(cfg, setup, k, xs[0]), xs[1..])
  }

  /** The pipeline's part of a run. */
  ghost function Events(xs: seq<Step>): seq<Event> {
    if |xs| == 0 then []
    else (match xs[0]
          case Run(e) => [e]
          case Settle(now, _) => [Finish(now)]
          case Control(_) => []) + Events(xs[1..])
  }

  lemma {:induction false} PipelinePart(cfg: FailureConfig, setup: W.Setup, k: Running, xs: seq<Step>)
    requires Steps(cfg, setup, k, xs)
    ensures Runs(cfg, k.s, Events(xs)) && After(cfg, k.s, Events(xs)) == Ends(cfg, setup, k, xs).s
    decreases |xs|
  {
    if |xs| == 0 {
    } else {
      PipelinePart(cfg, setup, DoStep(cfg, setup, k, xs[0]), xs[1..]);
      var rest := Events(xs[1..]);
      match xs[0]
      case Run(e) => assert ([e] + rest)[1..] == rest;
      case Settle(now, _) => assert ([Finish(now)] + rest)[1..] == rest;
      case Control(_) => assert Events(xs) == rest;
    }
  }

  /** The packets that the worker has handled, in order. */
  ghost function HandledPackets(steps: seq<W.Step>): seq<Packet> {
    if |steps| == 0 then []
    else
      var init, step := HandledPackets(steps[..|steps| - 1]), steps[|steps| - 1];
      if step.Handle? then init + [step.packet] else init
  }

  lemma HandledSnoc(steps: seq<W.Step>, step: W.Step)
    ensures HandledPackets(steps + [step])
            == if step.Handle? then HandledPackets(steps) + [step.packet] else HandledPackets(steps)
  {
    assert (steps + [step])[..|steps|] == steps;
  }

  lemma WorkSnoc(setup: W.Setup, steps: seq<W.Step>, step: W.Step)
    ensures W.Work(setup, steps + [step]) == W.StepOn(setup, W.Work(setup, steps), step)
  {
    assert (steps + [step])[..|steps|] == steps;
  }

  /** The worker's progress is that of its steps, and its packets are the settled ones. */
  ghost predicate Working(setup: W.Setup, k: Running) {
    && k.w == W.Work(setup, k.done)
    && HandledPackets(k.done) == SettledPackets(WorkerSettled(k.s.settled))
  }

  lemma SettlePackets(cfg: FailureConfig, s: State, done: seq<W.Step>, step: W.Step)
    requires s.worker.Holding? && step.Handle? && step.packet == s.worker.packet
    requires HandledPackets(done) == SettledPackets(WorkerSettled(s.settled))
    ensures HandledPackets(done + [step]) == SettledPackets(WorkerSettled(Apply(cfg, s, Finish(step.nowMs)).settled))
  {
    var settled := Settled(step.packet, WorkerMessage(step.packet, step.nowMs), true);
    HandledSnoc(done, step);
    WorkerSettledSnoc(s.settled, settled);
    SettledSnoc(WorkerSettled(s.settled), settled);
  }

  lemma SettleWorking(cfg: FailureConfig, setup: W.Setup, k: Running, x: Step)
    requires x.Settle? && CanStep(k, x) && Working(setup, k)
    ensures Working(setup, DoStep(cfg, setup, k, x))
  {
    var step := W.Handle(k.s.worker.packet, x.nowMs, x.answers);
    SettlePackets(cfg, k.s, k.done, step);
    WorkSnoc(setup, k.done, step);
  }

  lemma OtherWorking(cfg: FailureConfig, setup: W.Setup, k: Running, x: Step)
    requires !x.Settle? && CanStep(k, x) && Working(setup, k)
    ensures Working(setup, DoStep(cfg, setup, k, x))
  {
    if x.Control? {
      WorkSnoc(setup, k.done, x.c);
      HandledSnoc(k.done, x.c);
    } else if x.e.PublishDrop? {
      var ph := k.s.pubs[x.e.i];
      WorkerSettledSnoc(k.s.settled, Settled(ph.packet, Dropped(ph.drop), false));
    }
  }

  lemma {:induction false} StepsWorking(cfg: FailureConfig, setup: W.Setup, k: Running, xs: seq<Step>)
    requires Steps(cfg, setup, k, xs) && Working(setup, k)
    ensures Working(setup, Ends(cfg, setup, k, xs))
    decreases |xs|
  {
    if |xs| == 0 {
    } else {
      if xs[0].Settle? {
        SettleWorking(cfg, setup, k, xs[0]);
      } else {
        OtherWorking(cfg, setup, k, xs[0]);
      }
      StepsWorking(cfg, setup, DoStep(cfg, setup, k, xs[0]), xs[1..]);
    }
  }

  ghost predicate ControlOnly(steps: seq<W.Step>) {
    forall k :: 0 <= k < |steps| ==> !steps[k].Handle?
  }

  lemma {:induction false} ControlHandlesNothing(steps: seq<W.Step>)
    requires ControlOnly(steps)
    ensures HandledPackets(steps) == []
  {
    if |steps| == 0 {
    } else {
      ControlHandlesNothing(steps[..|steps| - 1]);
    }
  }

  /** In every pipeline run, with any number of publishers and the control plane at work: the
      worker's table, ports and publications are those of its own steps; these handle the
      packets taken, in order, up to the one in hand; so the table is the table of the
      forwarding events that they amount to. */
  lemma WorkerFollowsTaken(cfg: FailureConfig, setup: W.Setup, n: nat, boot: seq<W.Step>, xs: seq<Step>)
    requires ControlOnly(boot) && Steps(cfg, setup, Start(setup, n, boot), xs)
    ensures var k := Ends(cfg, setup, Start(setup, n, boot), xs);
            && k.w == W.Work(setup, k.done)
            && HandledPackets(k.done) + WorkerHand(k.s.worker) == k.s.taken
            && k.w.table == Forwarding.TableAfter(setup.capacity, W.Forwardings(setup, k.done))
            && k.w.ports == Forwarding.PortsAfter(W.Forwardings(setup, k.done))
  {
    var k := Ends(cfg, setup, Start(setup, n, boot), xs);
    ControlHandlesNothing(boot);
    StepsWorking(cfg, setup, Start(setup, n, boot), xs);
    PipelinePart(cfg, setup, Start(setup, n, boot), xs);
    assert Reachable(cfg, n, k.s);
    FifoHandoff(cfg, n, k.s);
    W.WorkForwards(setup, k.done);
  }

  // ---- What the ingress determines ----

  /** The forwarding decisions that were published, in order. */
  function ForwardingHistory(log: seq<W.Publication>): seq<W.Publication> {
    if log == [] then []
    else
      var init, x := ForwardingHistory(log[..|log| - 1]), log[|log| - 1];
      if x.Forwarded? then init + [x] else init
  }

  lemma HistorySnocs(log: seq<W.Publication>, x: W.Publication)
    ensures ForwardingHistory(log + [x])
            == if x.Forwarded? then ForwardingHistory(log) + [x] else ForwardingHistory(log)
  {
    assert (log + [x])[..|log|] == log;
  }

  lemma BlockHistory(log: seq<W.Publication>, hasEngine: bool, p: Packet, nowMs: nat, d: Forwarding.Decision)
    ensures ForwardingHistory(log + W.Block(hasEngine, p, nowMs, d))
            == ForwardingHistory(log) + if W.Switched(hasEngine, p) then [W.Forwarded(p.lifecycleId, d)] else []
  {
    var last := W.Ended(WorkerMessage(p, nowMs));
    if W.Switched(hasEngine, p) {
      HistorySnocs(log, W.Forwarded(p.lifecycleId, d));
      HistorySnocs(log + [W.Forwarded(p.lifecycleId, d)], last);
      assert log + W.Block(hasEngine, p, nowMs, d) == (log + [W.Forwarded(p.lifecycleId, d)]) + [last];
    } else {
      HistorySnocs(log, last);
    }
  }

  function NoAnswer(k: nat): W.TransmitResult {
    W.TransmitResult(W.SendFailed, 0)
  }

  /** Handling packets without regard to clocks and backends. */
  ghost function Plain(ps: seq<Packet>): seq<W.Step> {
    seq(|ps|, k requires 0 <= k < |ps| => W.Handle(ps[k], 0, NoAnswer))
  }

  /** Two states of the worker that switch alike. */
  ghost predicate Alike(v: W.Progress, w: W.Progress) {
    v.table == w.table && v.ports == w.ports && ForwardingHistory(v.log) == ForwardingHistory(w.log)
  }

  lemma HandleAlike(setup: W.Setup, v: W.Progress, w: W.Progress, x: W.Step, y: W.Step)
    requires Alike(v, w) && x.Handle? && y.Handle? && x.packet == y.packet
    ensures Alike(W.StepOn(setup, v, x), W.StepOn(setup, w, y))
  {
    var d := W.DecisionOn(setup, v, x.packet);
    BlockHistory(v.log, setup.hasEngine, x.packet, x.nowMs, d);
    BlockHistory(w.log, setup.hasEngine, x.packet, y.nowMs, d);
  }

  lemma OneMoreAlike(setup: W.Setup, xs: seq<W.Step>, ys: seq<W.Step>, x: W.Step, y: W.Step, xs': seq<W.Step>, ys': seq<W.Step>)
    requires Alike(W.Work(setup, xs), W.Work(setup, ys)) && x.Handle? && y.Handle? && x.packet == y.packet
    requires xs' == xs + [x] && ys' == ys + [y]
    ensures Alike(W.Work(setup, xs'), W.Work(setup, ys'))
  {
    WorkSnoc(setup, xs, x);
    WorkSnoc(setup, ys, y);
    HandleAlike(setup, W.Work(setup, xs), W.Work(setup, ys), x, y);
  }

  lemma PlainSnoc(boot: seq<W.Step>, steps: seq<W.Step>, x: W.Step)
    requires x.Handle?
    ensures boot + Plain(HandledPackets(steps + [x]))
            == (boot + Plain(HandledPackets(steps))) + [W.Handle(x.packet, 0, NoAnswer)]
  {
    HandledSnoc(steps, x);
  }

  lemma NothingMore(boot: seq<W.Step>, steps: seq<W.Step>)
    requires |steps| == 0
    ensures boot + steps == boot + Plain(HandledPackets(steps))
  {
  }

  /** One step more on both sides. */
  lemma OneMoreStep(setup: W.Setup, boot: seq<W.Step>, steps: seq<W.Step>, x: W.Step)
    requires x.Handle?
    requires Alike(W.Work(setup, boot + steps), W.Work(setup, boot + Plain(HandledPackets(steps))))
    ensures Alike(W.Work(setup, boot + (steps + [x])), W.Work(setup, boot + Plain(HandledPackets(steps + [x]))))
  {
    var plain, y := boot + Plain(HandledPackets(steps)), W.Handle(x.packet, 0, NoAnswer);
    PlainSnoc(boot, steps, x);
    assert boot + (steps + [x]) == (boot + steps) + [x];
    OneMoreAlike(setup, boot + steps, plain, x, y, boot + (steps + [x]), plain + [y]);
  }

  /** Clocks and backends make no difference to what is switched. */
  lemma {:induction false} SwitchingIgnoresClocks(setup: W.Setup, boot: seq<W.Step>, steps: seq<W.Step>)
    requires forall k :: 0 <= k < |steps| ==> steps[k].Handle?
    ensures Alike(W.Work(setup, boot + steps), W.Work(setup, boot + Plain(HandledPackets(steps))))
  {
    if |steps| == 0 {
      NothingMore(boot, steps);
    } else {
      var init, x := steps[..|steps| - 1], steps[|steps| - 1];
      SwitchingIgnoresClocks(setup, boot, init);
      OneMoreStep(setup, boot, init, x);
      assert init + [x] == steps;
    }
  }

  /** After `boot`, the recorded steps are the handling of packets. */
  ghost predicate Booted(boot: seq<W.Step>, done: seq<W.Step>) {
    |boot| <= |done| && done[..|boot|] == boot && forall k :: |boot| <= k < |done| ==> done[k].Handle?
  }

  ghost predicate NoControl(xs: seq<Step>) {
    forall k :: 0 <= k < |xs| ==> !xs[k].Control?
  }

  lemma {:induction false} StepsBooted(cfg: FailureConfig, setup: W.Setup, k: Running, xs: seq<Step>, boot: seq<W.Step>)
    requires Steps(cfg, setup, k, xs) && Booted(boot, k.done) && NoControl(xs)
    ensures Booted(boot, Ends(cfg, setup, k, xs).done)
    decreases |xs|
  {
    if |xs| == 0 {
    } else {
      StepsBooted(cfg, setup, DoStep(cfg, setup, k, xs[0]), xs[1..], boot);
    }
  }

  lemma {:induction false} HandledConcat(boot: seq<W.Step>, steps: seq<W.Step>)
    requires ControlOnly(boot)
    ensures HandledPackets(boot + steps) == HandledPackets(steps)
  {
    if |steps| == 0 {
      assert boot + steps == boot;
      ControlHandlesNothing(boot);
    } else {
      HandledConcat(boot, steps[..|steps| - 1]);
      assert (boot + steps)[..|boot + steps| - 1] == boot + steps[..|steps| - 1];
    }
  }

  /** Forwarding is determined by the ingress even where the terminal order is not: in every
      complete overflow-free run with one publisher and no control step after `boot`, the
      table and the published forwarding decisions are those of handling the survivors of
      injection one after the other. */
  lemma ForwardingIsDetermined(cfg: FailureConfig, setup: W.Setup, boot: seq<W.Step>, ps: seq<Packet>, xs: seq<Step>)
    requires ControlOnly(boot) && NoControl(xs) && Steps(cfg, setup, Start(setup, 1, boot), xs)
    requires CompleteRun(cfg, ps, Events(xs)) && NoOverflow(Ends(cfg, setup, Start(setup, 1, boot), xs).s)
    ensures var k := Ends(cfg, setup, Start(setup, 1, boot), xs);
            var ref := W.Work(setup, boot + Plain(AllSurvivors(cfg, ps)));
            k.w.table == ref.table && ForwardingHistory(k.w.log) == ForwardingHistory(ref.log)
  {
    var k := Ends(cfg, setup, Start(setup, 1, boot), xs);
    PipelinePart(cfg, setup, Start(setup, 1, boot), xs);
    SidesAreDetermined(cfg, ps, Events(xs));
    WorkerFollowsTaken(cfg, setup, 1, boot, xs);
    StepsBooted(cfg, setup, Start(setup, 1, boot), xs, boot);
    var steps := k.done[|boot|..];
    assert k.done == boot + steps;
    HandledConcat(boot, steps);
    assert HandledPackets(steps) == AllSurvivors(cfg, ps);
    SwitchingIgnoresClocks(setup, boot, steps);
  }
}
