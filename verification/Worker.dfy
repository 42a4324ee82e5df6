/** The worker's side of a packet: validation, switching, transmission and publication. */
module PacketWorker {
  import opened Packets
  import opened Counting
  import opened MacTables
  import opened Forwarding
  import opened Pipeline

  // ---- The transport manager ----

  datatype TransmitStatus = Success | PortDown | BackendUnavailable | InvalidPacket | SendFailed

  datatype TransmitResult = TransmitResult(status: TransmitStatus, bytes: nat)

  datatype TransportCounters = TransportCounters(
    txPackets: nat,
    txBytes: nat,
    txFailed: nat,
    backendUnavailable: nat,
    portDown: nat,
    invalidPacket: nat)

  const NO_TRAFFIC := TransportCounters(0, 0, 0, 0, 0, 0)

  /** The counters after one transmission result. */
  function Counted(c: TransportCounters, r: TransmitResult): TransportCounters {
    match r.status
    case Success => c.(txPackets := c.txPackets + 1, txBytes := c.txBytes + r.bytes)
    case PortDown => c.(txFailed := c.txFailed + 1, portDown := c.portDown + 1)
    case BackendUnavailable => c.(txFailed := c.txFailed + 1, backendUnavailable := c.backendUnavailable + 1)
    case InvalidPacket => c.(txFailed := c.txFailed + 1, invalidPacket := c.invalidPacket + 1)
    case SendFailed => c.(txFailed := c.txFailed + 1)
  }

  /** What a transmission to `port` returns when its backend, if any, answers `answer`. */
  function ResultFor(backends: set<nat>, port: nat, answer: TransmitResult): TransmitResult {
    if port in backends then answer else TransmitResult(BackendUnavailable, 0)
  }

  class TransportManager {
    var backends: set<nat>
    var counters: TransportCounters

    constructor ()
      ensures backends == {} && counters == NO_TRAFFIC
    {
      backends, counters := {}, NO_TRAFFIC;
    }

    method RegisterBackend(port: nat)
      modifies this
      ensures backends == old(backends) + {port} && counters == old(counters)
    {
      backends := backends + {port};
    }

    /** `answer` is what the port's backend would report. */
    method Transmit(port: nat, answer: TransmitResult) returns (result: TransmitResult)
      modifies this`counters
      ensures result == ResultFor(backends, port, answer)
      ensures counters == Counted(old(counters), result)
    {
      if port !in backends {
        counters := counters.(backendUnavailable := counters.backendUnavailable + 1, txFailed := counters.txFailed + 1);
        return TransmitResult(BackendUnavailable, 0);
      }
      result := answer;
      match result.status {
        case Success =>
          counters := counters.(txPackets := counters.txPackets + 1, txBytes := counters.txBytes + result.bytes);
        case PortDown =>
          counters := counters.(txFailed := counters.txFailed + 1, portDown := counters.portDown + 1);
        case BackendUnavailable =>
          counters := counters.(txFailed := counters.txFailed + 1, backendUnavailable := counters.backendUnavailable + 1);
        case InvalidPacket =>
          counters := counters.(txFailed := counters.txFailed + 1, invalidPacket := counters.invalidPacket + 1);
        case SendFailed =>
          counters := counters.(txFailed := counters.txFailed + 1);
      }
    }

    method ResetCounters()
      modifies this`counters
      ensures counters == NO_TRAFFIC
    {
      counters := NO_TRAFFIC;
    }
  }

  /** The counters after a list of results. */
  function Tally(c: TransportCounters, rs: seq<TransmitResult>): TransportCounters {
    if rs == [] then c else Counted(Tally(c, rs[..|rs| - 1]), rs[|rs| - 1])
  }

  function Statuses(rs: seq<TransmitResult>): seq<TransmitStatus> {
    seq(|rs|, k requires 0 <= k < |rs| => rs[k].status)
  }

  function BytesSent(rs: seq<TransmitResult>): nat {
    if rs == [] then 0
    else BytesSent(rs[..|rs| - 1]) + if rs[|rs| - 1].status == Success then rs[|rs| - 1].bytes else 0
  }

  lemma StatusesSnoc(rs: seq<TransmitResult>)
    requires rs != []
    ensures forall x :: Occurs(Statuses(rs), x)
                        == Occurs(Statuses(rs[..|rs| - 1]), x) + if rs[|rs| - 1].status == x then 1 else 0
  {
    assert Statuses(rs)[..|rs| - 1] == Statuses(rs[..|rs| - 1]);
  }

  /** Each result is counted once and under its own name: successes and failures make up all
      results, and the failures without a counter of their own are the send failures. */
  lemma {:induction false} TallyConserves(rs: seq<TransmitResult>)
    ensures var c := Tally(NO_TRAFFIC, rs);
            && c.txPackets + c.txFailed == |rs|
            && c.txPackets == Occurs(Statuses(rs), Success) && c.txBytes == BytesSent(rs)
            && c.backendUnavailable == Occurs(Statuses(rs), BackendUnavailable)
            && c.portDown == Occurs(Statuses(rs), PortDown) && c.invalidPacket == Occurs(Statuses(rs), InvalidPacket)
            && c.txFailed - (c.backendUnavailable + c.portDown + c.invalidPacket) == Occurs(Statuses(rs), SendFailed)
  {
    if rs == [] {
    } else {
      TallyConserves(rs[..|rs| - 1]);
      StatusesSnoc(rs);
    }
  }

  lemma {:induction false} TallyConcat(c: TransportCounters, rs: seq<TransmitResult>, qs: seq<TransmitResult>)
    ensures Tally(c, rs + qs) == Tally(Tally(c, rs), qs)
  {
    if qs == [] {
      assert rs + qs == rs;
    } else {
      TallyConcat(c, rs, qs[..|qs| - 1]);
      assert rs + qs == (rs + qs[..|qs| - 1]) + [qs[|qs| - 1]];
      assert (rs + qs)[..|rs + qs| - 1] == rs + qs[..|qs| - 1];
    }
  }

  // ---- The worker's publications ----

  datatype Publication = Forwarded(lifecycleId: nat, decision: Decision) | Ended(message: Terminal)

  /** Does the packet pass validation with switching context? */
  predicate Switched(hasEngine: bool, p: Packet) {
    hasEngine && p.ingressPort.Some? && WorkerMessage(p, 0).Processed?
  }

  /** What the worker publishes for one packet, given the engine's decision if it is asked. */
  function Block(hasEngine: bool, p: Packet, nowMs: nat, d: Decision): seq<Publication> {
    if Switched(hasEngine, p) then [Forwarded(p.lifecycleId, d), Ended(WorkerMessage(p, nowMs))]
    else [Ended(WorkerMessage(p, nowMs))]
  }

  /** Every forwarding decision is directly followed by the processed message of the same
      lifecycle; everything else stands alone. */
  predicate Blocks(log: seq<Publication>) {
    forall k :: 0 <= k < |log| && log[k].Forwarded? ==>
                  k + 1 < |log| && log[k + 1].Ended? && log[k + 1].message.Processed?
                  && log[k + 1].message.LifecycleId() == log[k].lifecycleId
  }

  function EgressTotal(log: seq<Publication>): nat {
    if log == [] then 0
    else EgressTotal(log[..|log| - 1]) + if log[|log| - 1].Forwarded? then |log[|log| - 1].decision.egress| else 0
  }

  lemma BlocksConcat(a: seq<Publication>, b: seq<Publication>)
    requires Blocks(a) && Blocks(b)
    ensures Blocks(a + b)
  {
    var log := a + b;
    forall k | 0 <= k < |log| && log[k].Forwarded?
      ensures k + 1 < |log| && log[k + 1].Ended? && log[k + 1].message.Processed?
              && log[k + 1].message.LifecycleId() == log[k].lifecycleId
    {
      if k < |a| {
        assert a[k].Forwarded?;
      } else {
        assert b[k - |a|].Forwarded?;
      }
    }
  }

  lemma {:induction false} EgressConcat(a: seq<Publication>, b: seq<Publication>)
    ensures EgressTotal(a + b) == EgressTotal(a) + EgressTotal(b)
  {
    if b == [] {
      assert a + b == a;
    } else {
      EgressConcat(a, b[..|b| - 1]);
      assert (a + b)[..|a + b| - 1] == a + b[..|b| - 1];
    }
  }

  lemma BlockShape(hasEngine: bool, p: Packet, nowMs: nat, d: Decision)
    ensures Blocks(Block(hasEngine, p, nowMs, d))
    ensures EgressTotal(Block(hasEngine, p, nowMs, d)) == if Switched(hasEngine, p) then |d.egress| else 0
  {
    var b := Block(hasEngine, p, nowMs, d);
    if Switched(hasEngine, p) {
      assert b == [b[0]] + [b[1]];
      EgressConcat([b[0]], [b[1]]);
    }
  }

  lemma LogGrows(log: seq<Publication>, mark: nat, hasEngine: bool, p: Packet, nowMs: nat, d: Decision)
    requires Blocks(log) && mark <= |log|
    ensures var grown := log + Block(hasEngine, p, nowMs, d);
            && Blocks(grown)
            && EgressTotal(grown[mark..]) == EgressTotal(log[mark..]) + if Switched(hasEngine, p) then |d.egress| else 0
  {
    var block := Block(hasEngine, p, nowMs, d);
    BlockShape(hasEngine, p, nowMs, d);
    BlocksConcat(log, block);
    assert (log + block)[mark..] == log[mark..] + block;
    EgressConcat(log[mark..], block);
  }

  /** The results of transmitting to each port in turn. */
  function Results(backends: set<nat>, egress: seq<nat>, answers: nat -> TransmitResult): seq<TransmitResult> {
    seq(|egress|, k requires 0 <= k < |egress| => ResultFor(backends, egress[k], answers(k)))
  }

  // ---- The worker's state and its steps ----

  /** What the worker was built with. */
  datatype Setup = Setup(hasEngine: bool, capacity: nat, hasTransport: bool)

  /** The engine's table and ports, the transport's backends and counters, and the worker's
      publications; `sent` and `mark` are the transmission results and the length of the log
      at the last counter reset. */
  datatype Progress = Progress(
    table: Table,
    ports: Ports,
    backends: set<nat>,
    log: seq<Publication>,
    counters: TransportCounters,
    sent: seq<TransmitResult>,
    mark: nat)

  const NOTHING_DONE := Progress(map[], map[], {}, [], NO_TRAFFIC, [], 0)

  /** A packet that the worker handles, with the clock it reads and what the backends answer;
      or a step of the control plane between two packets. */
  datatype Step =
    | Handle(packet: Packet, nowMs: nat, answers: nat -> TransmitResult)
    | Age(now: Tick, maxAge: Tick)
    | NewPort(id: nat, port: SwitchPort)
    | PortState(id: nat, up: bool)
    | NewBackend(id: nat)
    | ResetCounters

  /** The engine's decision for a packet that is switched. */
  ghost function DecisionOn(setup: Setup, w: Progress, p: Packet): Decision {
    if Switched(setup.hasEngine, p) then
      EngineDecision(setup.capacity, w.table, w.ports, p, p.ingressPort.value, p.timestampMs)
    else Decision(Drop, [])
  }

  /** What is transmitted for a packet. */
  ghost function ResultsOn(setup: Setup, w: Progress, p: Packet, answers: nat -> TransmitResult): seq<TransmitResult> {
    if Switched(setup.hasEngine, p) && setup.hasTransport then Results(w.backends, DecisionOn(setup, w, p).egress, answers)
    else []
  }

  ghost function HandleOn(setup: Setup, w: Progress, p: Packet, nowMs: nat, answers: nat -> TransmitResult): Progress {
    var results := ResultsOn(setup, w, p, answers);
    w.(table := if Switched(setup.hasEngine, p) then
                  TableWith(setup.capacity, w.table, p, p.ingressPort.value, p.timestampMs)
                else w.table,
       log := w.log + Block(setup.hasEngine, p, nowMs, DecisionOn(setup, w, p)),
       counters := Tally(w.counters, results),
       sent := w.sent + results)
  }

  ghost function StepOn(setup: Setup, w: Progress, step: Step): Progress {
    match step
    case Handle(p, now, answers) => HandleOn(setup, w, p, now, answers)
    case Age(now, maxAge) => w.(table := Aged(w.table, now, maxAge))
    case NewPort(id, port) => w.(ports := WithPort(w.ports, id, port))
    case PortState(id, up) => w.(ports := WithState(w.ports, id, up))
    case NewBackend(id) => w.(backends := w.backends + {id})
    case ResetCounters => w.(counters := NO_TRAFFIC, sent := [], mark := |w.log|)
  }

  class Worker {
    const engine: SwitchForwardingEngine?
    const transport: TransportManager?
    var log: seq<Publication>
    ghost var sent: seq<TransmitResult>
    ghost var mark: nat

    ghost function Built(): Setup {
      Setup(engine != null, if engine != null then engine.macTable.capacity else 0, transport != null)
    }

    ghost function View(): Progress
      reads this, engine, transport, if engine != null then {engine.macTable, engine.interfaces} else {}
    {
      Progress(
        if engine != null then engine.macTable.entries else map[],
        if engine != null then engine.interfaces.ports else map[],
        if transport != null then transport.backends else {},
        log,
        if transport != null then transport.counters else NO_TRAFFIC,
        sent,
        mark)
    }

    constructor (engine: SwitchForwardingEngine?, transport: TransportManager?)
      ensures this.engine == engine && this.transport == transport
      ensures log == [] && sent == [] && mark == 0
      ensures && (engine != null ==> engine.macTable.entries == map[] && engine.interfaces.ports == map[])
              && (transport != null ==> transport.counters == NO_TRAFFIC && transport.backends == {})
              ==> View() == NOTHING_DONE
    {
      this.engine, this.transport := engine, transport;
      log, sent, mark := [], [], 0;
    }

    /** `answers` is what the backends report, by transmission. */
    method ProcessPacket(p: Packet, nowMs: nat, answers: nat -> TransmitResult) returns (d: Decision)
      modifies this, if engine != null then {engine.macTable} else {}, transport
      ensures d == DecisionOn(Built(), old(View()), p)
      ensures View() == HandleOn(Built(), old(View()), p, nowMs, answers)
    {
      ghost var w, setup := View(), Built();
      d := Decision(Drop, []);
      if |p.payload| > MAX_PAYLOAD_SIZE {
        log := log + [Ended(Dropped(DropOf(p, ValidationError, p.timestampMs)))];
      } else if p.timestampMs == 0 {
        log := log + [Ended(Dropped(DropOf(p, ValidationError, nowMs)))];
      } else {
        var processed := p.(payloadSize := |p.payload|);
        if engine != null && processed.ingressPort.Some? {
          d := engine.ProcessPacket(processed, processed.ingressPort.value, processed.timestampMs);
          EngineAgrees(setup, w, p, processed, d);
          if transport != null {
            TransmitAll(d.egress, answers);
          }
          log := log + [Forwarded(processed.lifecycleId, d)];
        }
        log := log + [Ended(Processed(processed))];
      }
      assert log == w.log + Block(setup.hasEngine, p, nowMs, d);
    }

    method TransmitAll(egress: seq<nat>, answers: nat -> TransmitResult)
      requires transport != null
      modifies transport`counters, this`sent
      ensures sent == old(sent) + Results(transport.backends, egress, answers)
      ensures transport.counters == Tally(old(transport.counters), Results(transport.backends, egress, answers))
    {
      var k := 0;
      while k < |egress|
        invariant 0 <= k <= |egress|
        invariant sent == old(sent) + Results(transport.backends, egress[..k], answers)
        invariant transport.counters == Tally(old(transport.counters), Results(transport.backends, egress[..k], answers))
      {
        var result := transport.Transmit(egress[k], answers(k));
        sent := sent + [result];
        var done := Results(transport.backends, egress[..k], answers);
        assert Results(transport.backends, egress[..k + 1], answers) == done + [result];
        assert (done + [result])[..|done|] == done;
        k := k + 1;
      }
      assert egress[..k] == egress;
    }

    /** The control plane resets the counters between two packets. */
    method ResetTransport()
      modifies this`sent, this`mark, transport
      ensures View() == if transport != null then StepOn(Built(), old(View()), ResetCounters) else old(View())
    {
      if transport != null {
        transport.ResetCounters();
        sent, mark := [], |log|;
      }
    }
  }

  /** The engine's answer for the packet with its payload size filled in is the decision. */
  lemma EngineAgrees(setup: Setup, w: Progress, p: Packet, q: Packet, d: Decision)
    requires Switched(setup.hasEngine, p) && q == p.(payloadSize := |p.payload|)
    requires var t := TableWith(setup.capacity, w.table, q, q.ingressPort.value, q.timestampMs);
             if HasAddresses(q) then Decides(t, w.ports, q.ingressPort.value, q.destinationMac.value, d)
             else d == Decision(Drop, [])
    ensures d == DecisionOn(setup, w, p)
  {
    var t := TableWith(setup.capacity, w.table, p, p.ingressPort.value, p.timestampMs);
    if HasAddresses(p) {
      DecisionDetermined(t, w.ports, p.ingressPort.value, p.destinationMac.value, d, DecisionOn(setup, w, p));
    }
  }

  // ---- Whole runs of the worker ----

  ghost function Work(setup: Setup, steps: seq<Step>): Progress {
    if steps == [] then NOTHING_DONE else StepOn(setup, Work(setup, steps[..|steps| - 1]), steps[|steps| - 1])
  }

  /** What holds between any two steps of the worker and the control plane. */
  ghost predicate Balanced(setup: Setup, w: Progress) {
    && Blocks(w.log) && w.mark <= |w.log|
    && w.counters == Tally(NO_TRAFFIC, w.sent)
    && (setup.hasTransport ==> |w.sent| == EgressTotal(w.log[w.mark..]))
  }

  lemma HandleBalanced(setup: Setup, w: Progress, p: Packet, nowMs: nat, answers: nat -> TransmitResult)
    requires Balanced(setup, w)
    ensures Balanced(setup, HandleOn(setup, w, p, nowMs, answers))
  {
    LogGrows(w.log, w.mark, setup.hasEngine, p, nowMs, DecisionOn(setup, w, p));
    TallyConcat(NO_TRAFFIC, w.sent, ResultsOn(setup, w, p, answers));
  }

  lemma {:induction false} WorkBalanced(setup: Setup, steps: seq<Step>)
    ensures Balanced(setup, Work(setup, steps))
  {
    if steps == [] {
    } else {
      var init, step := steps[..|steps| - 1], steps[|steps| - 1];
      WorkBalanced(setup, init);
      if step.Handle? {
        HandleBalanced(setup, Work(setup, init), step.packet, step.nowMs, step.answers);
      }
    }
  }

  /** At every block boundary of every run of packets, ageing, port changes, new backends and
      counter resets: the publications are blocks; successes plus failures since the last
      reset are the egress ports of all decisions since then; and the failures without a
      counter of their own are the send failures. */
  lemma TransmitConservation(setup: Setup, steps: seq<Step>)
    requires setup.hasTransport
    ensures var w := Work(setup, steps);
            && Blocks(w.log) && w.mark <= |w.log|
            && w.counters.txPackets + w.counters.txFailed == EgressTotal(w.log[w.mark..])
            && w.counters.txPackets == Occurs(Statuses(w.sent), Success)
            && w.counters.txFailed
               == w.counters.backendUnavailable + w.counters.portDown + w.counters.invalidPacket
                  + Occurs(Statuses(w.sent), SendFailed)
  {
    WorkBalanced(setup, steps);
    TallyConserves(Work(setup, steps).sent);
  }

  /** The forwarding events that a run of the worker and the control plane amounts to. */
  function Forwardings(setup: Setup, steps: seq<Step>): seq<Forwarding.Event> {
    if steps == [] then []
    else
      var init, step := Forwardings(setup, steps[..|steps| - 1]), steps[|steps| - 1];
      match step
      case Handle(p, _, _) =>
        if Switched(setup.hasEngine, p) then init + [Arrive(p, p.ingressPort.value, p.timestampMs)] else init
      case Age(now, maxAge) => init + [AgeEntries(now, maxAge)]
      case NewPort(id, port) => init + [AddPort(id, port)]
      case PortState(id, up) => init + [SetState(id, up)]
      case _ => init
  }

  lemma EventSnoc(capacity: nat, es: seq<Forwarding.Event>, e: Forwarding.Event)
    ensures TableAfter(capacity, es + [e])
            == if Learns(e) then TableWith(capacity, TableAfter(capacity, es), e.packet, e.ingress, e.tick)
               else if e.AgeEntries? then Aged(TableAfter(capacity, es), e.now, e.maxAge)
               else TableAfter(capacity, es)
    ensures PortsAfter(es + [e])
            == if e.AddPort? then WithPort(PortsAfter(es), e.id, e.port)
               else if e.SetState? then WithState(PortsAfter(es), e.id, e.up)
               else PortsAfter(es)
  {
    assert (es + [e])[..|es|] == es;
  }

  /** Through the whole run the worker's table and ports are those of its forwarding events. */
  lemma {:induction false} WorkForwards(setup: Setup, steps: seq<Step>)
    ensures Work(setup, steps).table == TableAfter(setup.capacity, Forwardings(setup, steps))
    ensures Work(setup, steps).ports == PortsAfter(Forwardings(setup, steps))
  {
    if steps == [] {
    } else {
      var init, step := steps[..|steps| - 1], steps[|steps| - 1];
      WorkForwards(setup, init);
      var before, after := Forwardings(setup, init), Forwardings(setup, steps);
      if |after| > |before| {
        EventSnoc(setup.capacity, before, after[|before|]);
      }
    }
  }

  /** Handling a packet, in terms of the packet: it is switched, and a forwarding decision
      published before its processed message, if and only if there is an engine and the packet
      has an ingress port, a payload of at most 512 characters and a time stamp. Every other
      packet is only ended. */
  lemma HandlingPublishes(setup: Setup, w: Progress, p: Packet, nowMs: nat, answers: nat -> TransmitResult)
    ensures var w', m := HandleOn(setup, w, p, nowMs, answers), WorkerMessage(p, nowMs);
            && (m.Processed? <==> |p.payload| <= 512 && p.timestampMs != 0)
            && if setup.hasEngine && p.ingressPort.Some? && |p.payload| <= 512 && p.timestampMs != 0 then
                 && |w'.log| == |w.log| + 2 && w'.log[..|w.log|] == w.log
                 && w'.log[|w.log|].Forwarded? && w'.log[|w.log|].lifecycleId == p.lifecycleId
                 && w'.log[|w.log| + 1] == Ended(m)
               else
                 w'.log == w.log + [Ended(m)] && w'.table == w.table && w'.sent == w.sent && w'.counters == w.counters
  {
  }

  /** Exactly then the run's forwarding events gain the packet's arrival. */
  lemma HandlingArrives(setup: Setup, steps: seq<Step>, p: Packet, nowMs: nat, answers: nat -> TransmitResult)
    ensures Forwardings(setup, steps + [Handle(p, nowMs, answers)])
            == Forwardings(setup, steps)
               + if setup.hasEngine && p.ingressPort.Some? && |p.payload| <= 512 && p.timestampMs != 0 then
                   [Arrive(p, p.ingressPort.value, p.timestampMs)]
                 else []
  {
    var all := steps + [Handle(p, nowMs, answers)];
    assert all[..|all| - 1] == steps;
  }

  /** Every step of the control plane that concerns forwarding is an event of the run, in its
      place; a new backend or a counter reset is none. */
  lemma ControlArrives(setup: Setup, steps: seq<Step>, step: Step)
    requires !step.Handle?
    ensures Forwardings(setup, steps + [step])
            == Forwardings(setup, steps)
               + if step.Age? then [AgeEntries(step.now, step.maxAge)]
                 else if step.NewPort? then [AddPort(step.id, step.port)]
                 else if step.PortState? then [SetState(step.id, step.up)]
                 else []
  {
    assert (steps + [step])[..|steps|] == steps;
  }

  /** The backends are those registered so far. */
  lemma {:induction false} BackendsAreRegistered(setup: Setup, steps: seq<Step>, id: nat)
    ensures id in Work(setup, steps).backends <==> exists k :: 0 <= k < |steps| && steps[k].NewBackend? && steps[k].id == id
  {
    if |steps| == 0 {
    } else {
      var init, step := steps[..|steps| - 1], steps[|steps| - 1];
      BackendsAreRegistered(setup, init, id);
      if k :| 0 <= k < |init| && init[k].NewBackend? && init[k].id == id {
        assert steps[k] == init[k];
      }
      if k :| 0 <= k < |steps| && steps[k].NewBackend? && steps[k].id == id {
        assert k < |init| ==> init[k] == steps[k];
      }
    }
  }

  /** What is transmitted for a switched packet: once per egress port of the published
      decision, in order; a port without a backend gives backend-unavailable and no bytes. */
  lemma HandlingTransmits(setup: Setup, w: Progress, p: Packet, nowMs: nat, answers: nat -> TransmitResult) returns (d: Decision)
    requires setup.hasEngine && p.ingressPort.Some? && |p.payload| <= 512 && p.timestampMs != 0 && setup.hasTransport
    ensures var w' := HandleOn(setup, w, p, nowMs, answers);
            && |w'.log| > |w.log| && w'.log[|w.log|] == Forwarded(p.lifecycleId, d)
            && |w'.sent| == |w.sent| + |d.egress| && w'.sent[..|w.sent|] == w.sent
            && forall k :: 0 <= k < |d.egress| ==>
                 w'.sent[|w.sent| + k]
                 == if d.egress[k] in w.backends then answers(k) else TransmitResult(BackendUnavailable, 0)
  {
    d := DecisionOn(setup, w, p);
    var rs := Results(w.backends, d.egress, answers);
    assert ResultsOn(setup, w, p, answers) == rs;
    ResultsSay(w.backends, d.egress, answers);
    Appended(w.sent, rs);
  }

  lemma ResultsSay(backends: set<nat>, egress: seq<nat>, answers: nat -> TransmitResult)
    ensures var rs := Results(backends, egress, answers);
            && |rs| == |egress|
            && forall k :: 0 <= k < |egress| ==>
                 rs[k] == if egress[k] in backends then answers(k) else TransmitResult(BackendUnavailable, 0)
  {
    var rs := Results(backends, egress, answers);
    forall k | 0 <= k < |egress|
      ensures rs[k] == if egress[k] in backends then answers(k) else TransmitResult(BackendUnavailable, 0)
    {
      assert rs[k] == ResultFor(backends, egress[k], answers(k));
    }
  }

  lemma Appended(a: seq<TransmitResult>, b: seq<TransmitResult>)
    ensures (a + b)[..|a|] == a && forall k :: 0 <= k < |b| ==> (a + b)[|a| + k] == b[k]
  {
    forall k | 0 <= k < |b| ensures (a + b)[|a| + k] == b[k] {
      assert (a + b)[|a|..] == b;
    }
  }

  /** The decision published for a switched packet: with both addresses it is the one that the
      history of the run demands, so `Forwarding.ForwardingAgreesWithHistory` and
      `Forwarding.BroadcastFloods` hold of it; otherwise it is a drop. */
  lemma PublishedDecision(setup: Setup, steps: seq<Step>)
    requires steps != [] && steps[|steps| - 1].Handle?
    requires var p := steps[|steps| - 1].packet;
             setup.hasEngine && p.ingressPort.Some? && |p.payload| <= 512 && p.timestampMs != 0
    ensures var log, p := Work(setup, steps).log, steps[|steps| - 1].packet;
            && |log| >= 2 && log[|log| - 2].Forwarded? && log[|log| - 2].lifecycleId == p.lifecycleId
            && if p.sourceMac.Some? && p.destinationMac.Some? then
                 LastDecision(setup.capacity, Forwardings(setup, steps), log[|log| - 2].decision)
               else log[|log| - 2].decision == Decision(Drop, [])
  {
    WorkForwards(setup, steps);
    WorkForwards(setup, steps[..|steps| - 1]);
    var p := steps[|steps| - 1].packet;
    EventSnoc(setup.capacity, Forwardings(setup, steps[..|steps| - 1]), Arrive(p, p.ingressPort.value, p.timestampMs));
  }
}
