/** The forwarding engine over the MAC table and the port registry. */
module Forwarding {
  import opened Packets
  import opened MacTables

  datatype SwitchPort = SwitchPort(name: string, up: bool)

  type Ports = map<nat, SwitchPort>

  datatype Action = Drop | Flood | ForwardToPorts

  datatype Decision = Decision(action: Action, egress: seq<nat>)

  predicate IsUp(ports: Ports, id: nat) {
    id in ports && ports[id].up
  }

  predicate Ascending(s: seq<nat>) {
    forall i, j :: 0 <= i < j < |s| ==> s[i] < s[j]
  }

  /** `s` lists exactly the Up ports other than `except`, in ascending order. */
  ghost predicate ListsUpPorts(ports: Ports, except: Option<nat>, s: seq<nat>) {
    Ascending(s) && forall id :: id in s <==> IsUp(ports, id) && except != Some(id)
  }

  ghost predicate SameMembers(a: seq<nat>, b: seq<nat>) {
    forall x: nat :: x in a <==> x in b
  }

  lemma LastIsLargest(a: seq<nat>, x: nat)
    requires Ascending(a) && x in a
    ensures x <= a[|a| - 1] && (x < a[|a| - 1] <==> x in a[..|a| - 1])
  {
    var k :| 0 <= k < |a| && a[k] == x;
    if k < |a| - 1 {
      assert a[..|a| - 1][k] == x;
    }
  }

  lemma InitMember(a: seq<nat>, b: seq<nat>, x: nat)
    requires Ascending(a) && Ascending(b) && SameMembers(a, b) && a != [] && b != []
    requires a[|a| - 1] == b[|b| - 1]
    ensures x in a[..|a| - 1] <==> x in b[..|b| - 1]
  {
    if x in a {
      LastIsLargest(a, x);
      LastIsLargest(b, x);
    }
  }

  lemma DropLast(a: seq<nat>, b: seq<nat>)
    requires Ascending(a) && Ascending(b) && SameMembers(a, b) && a != [] && b != []
    ensures a[|a| - 1] == b[|b| - 1] && SameMembers(a[..|a| - 1], b[..|b| - 1])
  {
    var a', b' := a[..|a| - 1], b[..|b| - 1];
    assert a[|a| - 1] in b && b[|b| - 1] in a;
    LastIsLargest(a, b[|b| - 1]);
    LastIsLargest(b, a[|a| - 1]);
    forall x: nat ensures x in a' <==> x in b' {
      InitMember(a, b, x);
    }
  }

  lemma {:induction false} AscendingUnique(a: seq<nat>, b: seq<nat>)
    requires Ascending(a) && Ascending(b) && SameMembers(a, b)
    ensures a == b
  {
    assert |a| > 0 ==> a[0] in b;
    assert |b| > 0 ==> b[0] in a;
    if a == [] {
    } else {
      DropLast(a, b);
      AscendingUnique(a[..|a| - 1], b[..|b| - 1]);
      assert a == a[..|a| - 1] + [a[|a| - 1]];
      assert b == b[..|b| - 1] + [b[|b| - 1]];
    }
  }

  class InterfaceRegistry {
    var ports: Ports

    constructor ()
      ensures ports == map[]
    {
      ports := map[];
    }

    /** Adding an id that is already registered changes nothing. */
    method AddPort(id: nat, port: SwitchPort)
      modifies this
      ensures ports == WithPort(old(ports), id, port)
    {
      if id !in ports {
        ports := ports[id := port];
      }
    }

    method SetState(id: nat, up: bool)
      modifies this
      ensures ports == WithState(old(ports), id, up)
    {
      if id !in ports {
        return;
      }
      ports := ports[id := ports[id].(up := up)];
    }

    method PortIsUp(id: nat) returns (up: bool)
      ensures up == IsUp(ports, id)
    {
      up := id in ports && ports[id].up;
    }

    method ActivePortIds() returns (active: seq<nat>)
      ensures ListsUpPorts(ports, None, active)
    {
      active := [];
      var rest := ports.Keys;
      while rest != {}
        invariant rest <= ports.Keys && Ascending(active)
        invariant forall id :: id in active <==> IsUp(ports, id) && id !in rest
        invariant forall x, y :: x in ports && x !in rest && y in rest ==> x < y
        decreases rest
      {
        ghost var least := LeastMember(rest);
        var id :| id in rest && forall x :: x in rest ==> id <= x;
        if ports[id].up {
          forall k | 0 <= k < |active| ensures active[k] < id {
            assert active[k] in active;
          }
          active := active + [id];
        }
        rest := rest - {id};
      }
    }
  }

  function WithPort(ports: Ports, id: nat, port: SwitchPort): Ports {
    if id in ports then ports else ports[id := port]
  }

  function WithState(ports: Ports, id: nat, up: bool): Ports {
    if id in ports then ports[id := ports[id].(up := up)] else ports
  }

  /** What the engine may decide for destination `dst` once the source is learned. */
  ghost predicate Decides(t: Table, ports: Ports, ingress: nat, dst: MacAddress, d: Decision) {
    if dst == BROADCAST || dst !in t then
      d.action == Flood && ListsUpPorts(ports, Some(ingress), d.egress)
    else if IsUp(ports, t[dst].port) then
      d == Decision(ForwardToPorts, [t[dst].port])
    else
      d == Decision(Drop, [])
  }

  /** The decision is a function of the table, the ports, the ingress and the destination. */
  lemma DecisionDetermined(t: Table, ports: Ports, ingress: nat, dst: MacAddress, d: Decision, d': Decision)
    requires Decides(t, ports, ingress, dst, d) && Decides(t, ports, ingress, dst, d')
    ensures d == d'
  {
    if d.action == Flood {
      AscendingUnique(d.egress, d'.egress);
    }
  }

  /** Some list has exactly the Up ports of a set of ids, other than `except`. */
  lemma {:induction false} UpPortsListed(ports: Ports, ids: set<nat>, except: Option<nat>) returns (s: seq<nat>)
    ensures Ascending(s) && forall id :: id in s <==> id in ids && IsUp(ports, id) && except != Some(id)
    decreases ids
  {
    if ids == {} {
      s := [];
    } else {
      var m := LeastMember(ids);
      var rest := UpPortsListed(ports, ids - {m}, except);
      if IsUp(ports, m) && except != Some(m) {
        s := [m] + rest;
        forall j | 0 <= j < |rest| ensures m < rest[j] {
          assert rest[j] in rest;
        }
      } else {
        s := rest;
      }
    }
  }

  /** The decision that the table and the ports demand. */
  ghost function DecisionFor(t: Table, ports: Ports, ingress: nat, dst: MacAddress): (d: Decision)
    ensures Decides(t, ports, ingress, dst, d)
  {
    assert exists d :: Decides(t, ports, ingress, dst, d) by {
      var flood := UpPortsListed(ports, ports.Keys, Some(ingress));
      assert ListsUpPorts(ports, Some(ingress), flood);
      var d := if dst == BROADCAST || dst !in t then Decision(Flood, flood)
               else if IsUp(ports, t[dst].port) then Decision(ForwardToPorts, [t[dst].port])
               else Decision(Drop, []);
      assert Decides(t, ports, ingress, dst, d);
    }
    var d :| Decides(t, ports, ingress, dst, d);
    d
  }

  predicate HasAddresses(p: Packet) {
    p.sourceMac.Some? && p.destinationMac.Some?
  }

  /** The table after the engine has seen a packet. */
  ghost function TableWith(capacity: nat, t: Table, p: Packet, ingress: nat, tick: Tick): Table {
    if HasAddresses(p) then Learned(capacity, t, p.sourceMac.value, ingress, tick) else t
  }

  /** What the engine decides for a packet, the packet itself learned. */
  ghost function EngineDecision(capacity: nat, t: Table, ports: Ports, p: Packet, ingress: nat, tick: Tick): Decision {
    if HasAddresses(p) then
      DecisionFor(TableWith(capacity, t, p, ingress, tick), ports, ingress, p.destinationMac.value)
    else Decision(Drop, [])
  }

  class SwitchForwardingEngine {
    const macTable: MacTable
    const interfaces: InterfaceRegistry

    constructor (macTable: MacTable, interfaces: InterfaceRegistry)
      ensures this.macTable == macTable && this.interfaces == interfaces
    {
      this.macTable := macTable;
      this.interfaces := interfaces;
    }

    method ProcessPacket(packet: Packet, ingress: nat, tick: Tick) returns (d: Decision)
      modifies macTable
      ensures interfaces.ports == old(interfaces.ports)
      ensures macTable.entries == TableWith(macTable.capacity, old(macTable.entries), packet, ingress, tick)
      ensures if HasAddresses(packet) then
                Decides(macTable.entries, interfaces.ports, ingress, packet.destinationMac.value, d)
              else d == Decision(Drop, [])
    {
      if packet.sourceMac.None? || packet.destinationMac.None? {
        return Decision(Drop, []);
      }
      macTable.Learn(packet.sourceMac.value, ingress, tick);
      if packet.destinationMac.value == BROADCAST {
        var egress := FloodPorts(ingress);
        return Decision(Flood, egress);
      }
      var destination := macTable.Lookup(packet.destinationMac.value);
      if destination.Some? {
        var up := interfaces.PortIsUp(destination.value);
        if !up {
          return Decision(Drop, []);
        }
        return Decision(ForwardToPorts, [destination.value]);
      }
      var egress := FloodPorts(ingress);
      return Decision(Flood, egress);
    }

    method FloodPorts(ingress: nat) returns (egress: seq<nat>)
      ensures ListsUpPorts(interfaces.ports, Some(ingress), egress)
    {
      var active := interfaces.ActivePortIds();
      egress := [];
      var k := 0;
      while k < |active|
        invariant 0 <= k <= |active| && Ascending(egress)
        invariant forall id :: id in egress <==> id in active[..k] && id != ingress
      {
        if active[k] != ingress {
          forall j | 0 <= j < |egress| ensures egress[j] < active[k] {
            assert egress[j] in egress;
          }
          egress := egress + [active[k]];
        }
        k := k + 1;
      }
      assert active[..k] == active;
    }
  }

  // ---- Runs of packets, ageing and port changes ----

  datatype Event =
    | Arrive(packet: Packet, ingress: nat, tick: Tick)
    | AgeEntries(now: Tick, maxAge: Tick)
    | AddPort(id: nat, port: SwitchPort)
    | SetState(id: nat, up: bool)

  predicate Learns(e: Event) {
    e.Arrive? && HasAddresses(e.packet)
  }

  ghost function TableAfter(capacity: nat, es: seq<Event>): Table {
    if es == [] then map[]
    else
      var t, e := TableAfter(capacity, es[..|es| - 1]), es[|es| - 1];
      if Learns(e) then Learned(capacity, t, e.packet.sourceMac.value, e.ingress, e.tick)
      else if e.AgeEntries? then Aged(t, e.now, e.maxAge)
      else t
  }

  function PortsAfter(es: seq<Event>): Ports {
    if es == [] then map[]
    else
      var ports := PortsAfter(es[..|es| - 1]);
      match es[|es| - 1]
      case AddPort(id, port) => WithPort(ports, id, port)
      case SetState(id, up) => WithState(ports, id, up)
      case _ => ports
  }

  /** The port on which the latest switched packet sourced from `mac` arrived. */
  function LatestArrival(es: seq<Event>, mac: MacAddress): Option<nat> {
    if es == [] then None
    else
      var e := es[|es| - 1];
      if e.Arrive? && e.packet.sourceMac == Some(mac) && e.packet.destinationMac.Some? then Some(e.ingress)
      else LatestArrival(es[..|es| - 1], mac)
  }

  /** The table operations that a run performs. */
  function TableOps(es: seq<Event>): seq<Op> {
    if es == [] then []
    else
      var ops, e := TableOps(es[..|es| - 1]), es[|es| - 1];
      if Learns(e) then ops + [Op.Learn(e.packet.sourceMac.value, e.ingress, e.tick)]
      else if e.AgeEntries? then ops + [Op.AgeOut(e.now, e.maxAge)]
      else ops
  }

  lemma OpsSnoc(es: seq<Event>)
    requires es != []
    ensures var init, e := es[..|es| - 1], es[|es| - 1];
            TableOps(es) == TableOps(init)
                            + if Learns(e) then [Op.Learn(e.packet.sourceMac.value, e.ingress, e.tick)]
                              else if e.AgeEntries? then [Op.AgeOut(e.now, e.maxAge)]
                              else []
  {
  }

  lemma RunSnoc(capacity: nat, ops: seq<Op>, op: Op)
    ensures Run(capacity, ops + [op])
            == match op
               case Learn(_, _, _) => Learned(capacity, Run(capacity, ops), op.mac, op.port, op.tick)
               case AgeOut(_, _) => Aged(Run(capacity, ops), op.now, op.maxAge)
  {
    assert (ops + [op])[..|ops|] == ops;
  }

  /** The engine's table is the table of the operations that its events perform. */
  lemma {:induction false} TableFollowsOps(capacity: nat, es: seq<Event>)
    ensures TableAfter(capacity, es) == Run(capacity, TableOps(es))
  {
    if es == [] {
    } else {
      var init, e := es[..|es| - 1], es[|es| - 1];
      TableFollowsOps(capacity, init);
      OpsSnoc(es);
      if Learns(e) {
        RunSnoc(capacity, TableOps(init), Op.Learn(e.packet.sourceMac.value, e.ingress, e.tick));
      } else if e.AgeEntries? {
        RunSnoc(capacity, TableOps(init), Op.AgeOut(e.now, e.maxAge));
      }
    }
  }

  lemma {:induction false} LatestFollowsOps(es: seq<Event>, mac: MacAddress)
    ensures LatestArrival(es, mac) == match LastLearn(TableOps(es), mac)
                                      case None => None
                                      case Some(entry) => Some(entry.port)
  {
    if es == [] {
    } else {
      var init, e := es[..|es| - 1], es[|es| - 1];
      LatestFollowsOps(init, mac);
      var ops := TableOps(init);
      if Learns(e) {
        assert (ops + [Op.Learn(e.packet.sourceMac.value, e.ingress, e.tick)])[..|ops|] == ops;
      } else if e.AgeEntries? {
        assert (ops + [Op.AgeOut(e.now, e.maxAge)])[..|ops|] == ops;
      }
    }
  }

  /** `d` is what the engine decides for the last event of a run, a packet with both
      addresses. */
  ghost predicate LastDecision(capacity: nat, es: seq<Event>, d: Decision) {
    && es != [] && es[|es| - 1].Arrive?
    && es[|es| - 1].packet.sourceMac.Some? && es[|es| - 1].packet.destinationMac.Some?
    && Decides(TableAfter(capacity, es), PortsAfter(es), es[|es| - 1].ingress,
               es[|es| - 1].packet.destinationMac.value, d)
  }

  /** In every run: a forwarded packet goes to the one Up port on which the latest packet
      from its destination arrived (this packet included); a dropped one had such a port,
      not Up; a flood is exactly the Up ports without the ingress, in ascending order. */
  lemma ForwardingAgreesWithHistory(capacity: nat, es: seq<Event>, d: Decision)
    requires LastDecision(capacity, es, d)
    ensures var e, ports := es[|es| - 1], PortsAfter(es);
            var latest := LatestArrival(es, e.packet.destinationMac.value);
            match d.action
            case ForwardToPorts => |d.egress| == 1 && latest == Some(d.egress[0]) && IsUp(ports, d.egress[0])
            case Drop => d.egress == [] && latest.Some? && !IsUp(ports, latest.value)
            case Flood => ListsUpPorts(ports, Some(e.ingress), d.egress)
  {
    var dst := es[|es| - 1].packet.destinationMac.value;
    TableFollowsOps(capacity, es);
    LatestFollowsOps(es, dst);
    TableAgreesWithHistory(capacity, TableOps(es));
  }

  /** Without ageing and with strictly increasing ticks, a packet to a non-broadcast address
      is flooded exactly when the address is not among the `capacity` most recently seen
      sources. */
  lemma FloodsExactlyTheForgotten(capacity: nat, es: seq<Event>, d: Decision)
    requires LastDecision(capacity, es, d)
    requires LearnsOnly(TableOps(es)) && Increasing(TableOps(es))
    requires es[|es| - 1].packet.destinationMac.value != BROADCAST
    ensures d.action == Flood
            <==> es[|es| - 1].packet.destinationMac.value !in MostRecent(capacity, Last(TableOps(es)))
  {
    TableFollowsOps(capacity, es);
    LruRefinement(capacity, TableOps(es));
  }

  /** A broadcast is flooded to every Up port but the ingress, even if the broadcast address was
      learned; and the packet's source is in the table, on the port it came from. */
  lemma BroadcastFloods(capacity: nat, es: seq<Event>, d: Decision)
    requires LastDecision(capacity, es, d) && es[|es| - 1].packet.destinationMac == Some(0xFFFF_FFFF_FFFF)
    ensures d.action == Flood && Ascending(d.egress)
    ensures forall id :: id in d.egress <==> IsUp(PortsAfter(es), id) && id != es[|es| - 1].ingress
    ensures capacity > 0 ==>
              var e, t := es[|es| - 1], TableAfter(capacity, es);
              e.packet.sourceMac.value in t && t[e.packet.sourceMac.value] == Entry(e.ingress, e.tick)
  {
  }

  // ---- Which ports are Up ----

  predicate Adds(e: Event, id: nat) {
    e.AddPort? && e.id == id
  }

  predicate Sets(e: Event, id: nat) {
    e.SetState? && e.id == id
  }

  /** Event j registers port `id`, and no earlier one does. */
  ghost predicate FirstAdded(es: seq<Event>, id: nat, j: nat) {
    j < |es| && Adds(es[j], id) && forall i :: 0 <= i < j ==> !Adds(es[i], id)
  }

  /** From event j on, the last word on port `id` is `up`: that of the last state change, or
      the registered state if there is none. */
  ghost predicate LastWord(es: seq<Event>, id: nat, j: nat, up: bool)
    requires j < |es| && Adds(es[j], id)
  {
    || (es[j].port.up == up && forall k :: j < k < |es| ==> !Sets(es[k], id))
    || (exists k :: j < k < |es| && Sets(es[k], id) && es[k].up == up && forall i :: k < i < |es| ==> !Sets(es[i], id))
  }

  lemma FirstAddedSnoc(es: seq<Event>, e: Event, id: nat, j: nat)
    requires FirstAdded(es, id, j)
    ensures FirstAdded(es + [e], id, j)
  {
  }

  lemma LastWordSnoc(es: seq<Event>, e: Event, id: nat, j: nat, up: bool)
    requires j < |es| && Adds(es[j], id) && LastWord(es, id, j, up)
    ensures LastWord(es + [e], id, j, if Sets(e, id) then e.up else up)
  {
    var all := es + [e];
    if Sets(e, id) {
      assert Sets(all[|es|], id);
    } else if k :| j < k < |es| && Sets(es[k], id) && es[k].up == up && forall i :: k < i < |es| ==> !Sets(es[i], id) {
      assert Sets(all[k], id) && all[k].up == up;
    }
  }

  /** Through every run: a port is known exactly when some event registers it; later
      registrations change nothing, and its state is the last word since the first one. */
  lemma {:induction false} PortsFollowHistory(es: seq<Event>, id: nat)
    ensures id in PortsAfter(es) <==> exists j :: FirstAdded(es, id, j)
    ensures forall j :: FirstAdded(es, id, j) ==> LastWord(es, id, j, PortsAfter(es)[id].up)
  {
    if es == [] {
    } else {
      var init, e := es[..|es| - 1], es[|es| - 1];
      PortsFollowHistory(init, id);
      assert es == init + [e];
      if id in PortsAfter(init) {
        var j :| FirstAdded(init, id, j);
        FirstAddedSnoc(init, e, id, j);
        LastWordSnoc(init, e, id, j, PortsAfter(init)[id].up);
        assert forall i :: FirstAdded(es, id, i) ==> i == j;
      } else {
        NotYetAdded(init, e, id);
        if Adds(e, id) {
          assert FirstAdded(es, id, |init|);
        }
      }
    }
  }

  lemma NotYetAdded(es: seq<Event>, e: Event, id: nat)
    requires !exists j :: FirstAdded(es, id, j)
    ensures forall j: nat :: FirstAdded(es + [e], id, j) <==> j == |es| && Adds(e, id)
  {
    NeverAdded(es, id);
    forall j: nat ensures FirstAdded(es + [e], id, j) <==> j == |es| && Adds(e, id) {
      assert j < |es| ==> (es + [e])[j] == es[j];
    }
  }

  lemma {:induction false} NeverAdded(es: seq<Event>, id: nat)
    requires !exists j :: FirstAdded(es, id, j)
    ensures forall i :: 0 <= i < |es| ==> !Adds(es[i], id)
  {
    if es == [] {
    } else {
      var init, e := es[..|es| - 1], es[|es| - 1];
      assert es == init + [e];
      if j :| FirstAdded(init, id, j) {
        FirstAddedSnoc(init, e, id, j);
      }
      NeverAdded(init, id);
      assert !FirstAdded(es, id, |init|);
    }
  }
}
