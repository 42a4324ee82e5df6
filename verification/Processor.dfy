/** The packet processor as code: each method is one section that its threads execute, and
    takes the step that `Pipeline` gives it. */
module Processor {
  import opened Packets
  import opened FailureInjection
  import opened Pipeline

  class PacketProcessor {
    const injector: FailureInjector
    var pubs: seq<Phase>
    var queue: seq<Packet>
    var worker: Pipeline.Worker
    var running: bool
    ghost var past: State

    /** The processor's fields and the recorded past as one pipeline state. */
    ghost function View(): State
      reads this, injector
    {
      past.(pubs := pubs, seen := injector.seenPackets, queue := queue, worker := worker, running := running)
    }

    constructor (publishers: nat, config: FailureConfig)
      ensures View() == Init(publishers)
      ensures injector.config == config && fresh(injector)
    {
      injector := new FailureInjector(config);
      pubs := seq(publishers, _ => Idle);
      queue, worker, running := [], Waiting, true;
      past := Init(publishers);
    }

    method BeginPublish(i: nat, p: Packet, nowMs: nat)
      requires Enabled(View(), Event.Publish(i, p, nowMs))
      modifies this
      ensures View() == Apply(injector.config, old(View()), Event.Publish(i, p, nowMs))
    {
      pubs := pubs[i := Injecting(p, nowMs)];
      past := past.(published := past.published + [p]);
    }

    method RunInjection(i: nat)
      requires Enabled(View(), Event.Inject(i))
      modifies this, injector
      ensures View() == Apply(injector.config, old(View()), Event.Inject(i))
    {
      var p, now := pubs[i].packet, pubs[i].nowMs;
      var failure := injector.Inject(p);
      if failure.isTerminal {
        var reason := FailureReason(failure.kind);
        pubs := pubs[i := Dropping(p, PacketDropped(reason, now, p.id, p.lifecycleId))];
        return;
      }
      pubs := pubs[i := Admitting(p, now)];
    }

    method FailureReason(kind: FailureType) returns (reason: PacketDropReason)
      ensures reason == InjectedReason(kind)
    {
      match kind {
        case MalformedPacket => reason := ParseError;
        case InvalidPacket => reason := ValidationError;
        case Loss => reason := SimulatedLoss;
        case ProcessingRejection => reason := ProcessingError;
        case _ => reason := InternalError;
      }
    }

    method RunAdmission(i: nat)
      requires Enabled(View(), Event.Admit(i))
      modifies this
      ensures View() == Apply(injector.config, old(View()), Event.Admit(i))
    {
      var p, now := pubs[i].packet, pubs[i].nowMs;
      var shouldDrop := false;
      if |queue| >= MAX_QUEUE_SIZE {
        shouldDrop := true;
      } else {
        queue := queue + [p];
        past := past.(admitted := past.admitted + [p]);
      }
      if shouldDrop {
        pubs := pubs[i := Dropping(p, PacketDropped(QueueOverflow, now, p.id, p.lifecycleId))];
        past := past.(overflows := past.overflows + 1);
      } else {
        pubs := pubs[i := Counting];
      }
    }

    /** The lock section at the top of the worker loop, entered when its wait is over: the
        next packet, or none when the worker is to exit. */
    method TakeOrExit() returns (next: Option<Packet>)
      requires worker.Waiting? && (queue != [] || !running)
      modifies this
      ensures next.None? <==> old(queue) == [] && !old(running)
      ensures View() == Apply(injector.config, old(View()), if next.None? then Event.Exit else Event.Take)
      ensures next.Some? ==> worker == Holding(next.value)
    {
      if !running && queue == [] {
        worker := Exited;
        return None;
      }
      next := Some(queue[0]);
      queue := queue[1..];
      worker := Holding(next.value);
      past := past.(taken := past.taken + [next.value]);
    }

    /** Validation and the terminal publication of the packet in hand. */
    method FinishPacket(nowMs: nat)
      requires worker.Holding?
      modifies this
      ensures View() == Apply(injector.config, old(View()), Event.Finish(nowMs))
    {
      var p := worker.packet;
      var message: Terminal;
      if |p.payload| > MAX_PAYLOAD_SIZE {
        message := Dropped(PacketDropped(ValidationError, p.timestampMs, p.id, p.lifecycleId));
      } else if p.timestampMs == 0 {
        message := Dropped(PacketDropped(ValidationError, nowMs, p.id, p.lifecycleId));
      } else {
        message := Processed(p.(payloadSize := |p.payload|));
      }
      worker := Waiting;
      past := Settle(past, p, message, true);
    }

    /** The destructor's store. */
    method RequestStop()
      modifies this
      ensures View() == Apply(injector.config, old(View()), Event.Stop)
    {
      running := false;
    }

    /** One iteration of the worker loop after its wait; `exits` when the loop is left. */
    method TakeAndSettle(nowMs: nat) returns (exits: bool)
      requires worker.Waiting? && (queue != [] || !running)
      modifies this
      ensures running == old(running) && past.admitted == old(past.admitted)
      ensures exits <==> old(queue) == []
      ensures exits ==>
                worker.Exited? && !running && queue == [] && past.taken == old(past.taken) && past.settled == old(past.settled)
      ensures !exits ==>
                && worker.Waiting? && queue == old(queue)[1..]
                && past.taken == old(past.taken) + [old(queue)[0]]
                && past.settled
                   == old(past.settled) + [Settled(old(queue)[0], WorkerMessage(old(queue)[0], nowMs), true)]
    {
      var next := TakeOrExit();
      if next.None? {
        return true;
      }
      FinishPacket(nowMs);
      return false;
    }

    /** What the other threads do to the shared fields between two lock sections of the worker. */
    method Interfere(m: Meanwhile)
      modifies this
      ensures queue == old(queue) + m.admitted && running == (old(running) && !m.stop)
      ensures past == old(past).(admitted := old(past.admitted) + m.admitted)
      ensures worker == old(worker) && pubs == old(pubs)
    {
      queue := queue + m.admitted;
      past := past.(admitted := past.admitted + m.admitted);
      if m.stop {
        running := false;
      }
    }

    /** The worker loop, with whatever publishers admit and whenever the processor is stopped
        in between: it takes packets in admission order, settles each with its own verdict,
        exits only when stopped with nothing left, and otherwise ends up waiting. */
    method ProcessLoop(others: seq<Meanwhile>, clock: nat -> nat)
      requires worker.Waiting? && past.admitted == past.taken + queue
      modifies this
      ensures past.admitted == past.taken + queue && queue == []
      ensures if running then worker.Waiting? else worker.Exited?
      ensures HasSettled(old(past), past, clock)
    {
      var n, k := 0, 0;
      ghost var start := past;
      while true
        invariant worker.Waiting? && 0 <= k <= |others| && past.admitted == past.taken + queue
        invariant |past.taken| == |start.taken| + n && HasSettled(start, past, clock)
        decreases |others| - k, |queue|
      {
        if k < |others| {
          Interfere(others[k]);
          k := k + 1;
        } else if queue == [] && running {
          return;
        }
        if queue != [] || !running {
          ghost var before, front := past, queue;
          var exits := TakeAndSettle(clock(n));
          if exits {
            break;
          }
          SettledOneMore(start, before, past, front[0], clock);
          assert before.taken + front == past.taken + queue;
          n := n + 1;
        }
      }
    }
  }

  /** What the other threads do meanwhile: packets admitted, and a stop. */
  datatype Meanwhile = Meanwhile(admitted: seq<Packet>, stop: bool)

  /** From `start` to `now`, each packet taken was settled by the worker in the order taken. */
  ghost predicate HasSettled(start: State, now: State, clock: nat -> nat) {
    && start.taken <= now.taken && start.settled <= now.settled
    && |now.settled| - |start.settled| == |now.taken| - |start.taken|
    && forall k :: 0 <= k < |now.taken| - |start.taken| ==>
         var p := now.taken[|start.taken| + k];
         now.settled[|start.settled| + k] == Settled(p, WorkerMessage(p, clock(k)), true)
  }

  lemma SettledOneMore(start: State, before: State, now: State, p: Packet, clock: nat -> nat)
    requires HasSettled(start, before, clock)
    requires now.taken == before.taken + [p]
    requires now.settled == before.settled + [Settled(p, WorkerMessage(p, clock(|before.taken| - |start.taken|)), true)]
    ensures HasSettled(start, now, clock)
  {
  }
}
