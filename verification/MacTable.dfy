/** The bounded MAC table with oldest-tick eviction, and what it keeps of the history. */
module MacTables {
  import opened Packets

  datatype Entry = Entry(port: nat, tick: Tick)

  type Table = map<MacAddress, Entry>

  /** The order in which the eviction scan prefers entries: older first, then lower address. */
  predicate Before(t: Table, a: MacAddress, b: MacAddress)
    requires a in t && b in t
  {
    t[a].tick < t[b].tick || (t[a].tick == t[b].tick && a <= b)
  }

  ghost predicate IsOldest(t: Table, m: MacAddress) {
    m in t && forall x :: x in t ==> Before(t, m, x)
  }

  lemma {:induction false} OldestExists(t: Table, s: set<MacAddress>) returns (m: MacAddress)
    requires s != {} && s <= t.Keys
    ensures m in s && forall x :: x in s ==> Before(t, m, x)
    decreases s
  {
    var some :| some in s;
    m := some;
    var rest := s - {some};
    if rest != {} {
      var oldest := OldestExists(t, rest);
      m := if Before(t, oldest, some) then oldest else some;
    }
    assert forall x :: x in s ==> x == some || x in rest;
  }

  ghost function Oldest(t: Table): (m: MacAddress)
    requires t != map[]
    ensures IsOldest(t, m)
  {
    assert exists m :: IsOldest(t, m) by {
      assert t.Keys != {};
      var m := OldestExists(t, t.Keys);
      assert IsOldest(t, m);
    }
    var m :| IsOldest(t, m);
    m
  }

  ghost function Learned(capacity: nat, t: Table, mac: MacAddress, port: nat, tick: Tick): Table {
    if capacity == 0 then t
    else if mac in t then t[mac := Entry(port, tick)]
    else if |t| >= capacity then (t - {Oldest(t)})[mac := Entry(port, tick)]
    else t[mac := Entry(port, tick)]
  }

  /** The age of an entry as 64-bit unsigned subtraction gives it. */
  function Age(now: Tick, e: Entry): nat {
    if now >= e.tick then now - e.tick else now - e.tick + WORD
  }

  function Aged(t: Table, now: Tick, maxAge: Tick): Table {
    map m | m in t && Age(now, t[m]) <= maxAge :: t[m]
  }

  class MacTable {
    const capacity: nat
    var entries: Table

    constructor (capacity: nat)
      ensures this.capacity == capacity && entries == map[]
    {
      this.capacity := capacity;
      entries := map[];
    }

    method Learn(mac: MacAddress, port: nat, tick: Tick)
      modifies this
      ensures entries == Learned(capacity, old(entries), mac, port, tick)
    {
      if capacity == 0 {
        return;
      }
      if mac in entries {
        entries := entries[mac := Entry(port, tick)];
        return;
      }
      if |entries| >= capacity {
        var oldest := ScanOldest();
        OldestUnique(entries, oldest, Oldest(entries));
        entries := entries - {oldest};
      }
      entries := entries[mac := Entry(port, tick)];
    }

    /** The eviction scan, in ascending address order. */
    method ScanOldest() returns (oldest: MacAddress)
      requires entries != map[]
      ensures IsOldest(entries, oldest)
    {
      var rest := entries.Keys;
      oldest := First(rest);
      while rest != {}
        invariant rest <= entries.Keys && oldest in entries
        invariant forall x :: x in entries && x !in rest ==> Before(entries, oldest, x)
        invariant forall x, y :: x in entries && x !in rest && y in rest ==> x < y
        invariant forall y :: y in rest ==> oldest <= y
        decreases rest
      {
        var candidate := First(rest);
        if entries[candidate].tick < entries[oldest].tick {
          oldest := candidate;
        }
        rest := rest - {candidate};
      }
    }

    method Lookup(mac: MacAddress) returns (port: Option<nat>)
      ensures port == if mac in entries then Some(entries[mac].port) else None
    {
      if mac !in entries {
        return None;
      }
      return Some(entries[mac].port);
    }

    method AgeOut(now: Tick, maxAge: Tick)
      modifies this
      ensures entries == Aged(old(entries), now, maxAge)
    {
      var rest := entries.Keys;
      while rest != {}
        invariant rest <= entries.Keys <= old(entries).Keys
        invariant forall x :: x in entries ==> entries[x] == old(entries)[x]
        invariant forall x :: x in old(entries) && x !in rest ==> (x in entries <==> Age(now, old(entries)[x]) <= maxAge)
        decreases rest
      {
        var m := First(rest);
        if Age(now, entries[m]) > maxAge {
          entries := entries - {m};
        }
        rest := rest - {m};
      }
    }
  }

  /** The next key of an ordered map's iteration. */
  method First(keys: set<MacAddress>) returns (m: MacAddress)
    requires keys != {}
    ensures m in keys && forall x :: x in keys ==> m <= x
  {
    ghost var least := LeastMember(keys);
    m :| m in keys && forall x :: x in keys ==> m <= x;
  }

  lemma OldestUnique(t: Table, a: MacAddress, b: MacAddress)
    requires IsOldest(t, a) && IsOldest(t, b)
    ensures a == b
  {
  }

  // ---- What holds with any ticks ----

  datatype Op = Learn(mac: MacAddress, port: nat, tick: Tick) | AgeOut(now: Tick, maxAge: Tick)

  ghost function Run(capacity: nat, ops: seq<Op>): Table {
    if ops == [] then map[]
    else
      var t := Run(capacity, ops[..|ops| - 1]);
      match ops[|ops| - 1]
      case Learn(mac, port, tick) => Learned(capacity, t, mac, port, tick)
      case AgeOut(now, maxAge) => Aged(t, now, maxAge)
  }

  /** The last learn operation for `mac`: the entry it makes, or none. */
  function LastLearn(ops: seq<Op>, mac: MacAddress): Option<Entry> {
    if ops == [] then None
    else
      var op := ops[|ops| - 1];
      if op.Learn? && op.mac == mac then Some(Entry(op.port, op.tick)) else LastLearn(ops[..|ops| - 1], mac)
  }

  lemma AgedSize(t: Table, now: Tick, maxAge: Tick)
    ensures |Aged(t, now, maxAge)| <= |t|
  {
    Subset(Aged(t, now, maxAge).Keys, t.Keys);
  }

  lemma {:induction false} Subset<T>(a: set<T>, b: set<T>)
    requires a <= b
    ensures |a| <= |b|
    ensures |a| == |b| ==> a == b
  {
    assert |b - a| == |b| - |a|;
  }

  /** In every run of learning and ageing, the table stays within its capacity and each
      entry is the last learn of its address. */
  lemma {:induction false} TableAgreesWithHistory(capacity: nat, ops: seq<Op>)
    ensures |Run(capacity, ops)| <= capacity
    ensures forall m :: m in Run(capacity, ops) ==> LastLearn(ops, m) == Some(Run(capacity, ops)[m])
  {
    if ops == [] {
    } else {
      TableAgreesWithHistory(capacity, ops[..|ops| - 1]);
      var t := Run(capacity, ops[..|ops| - 1]);
      match ops[|ops| - 1]
      case Learn(mac, port, tick) =>
        LearnedSize(capacity, t, mac, port, tick);
      case AgeOut(now, maxAge) =>
        AgedSize(t, now, maxAge);
    }
  }

  lemma LearnedSize(capacity: nat, t: Table, mac: MacAddress, port: nat, tick: Tick)
    requires |t| <= capacity
    ensures |Learned(capacity, t, mac, port, tick)| <= capacity
  {
    if capacity > 0 {
      var kept := if mac !in t && |t| >= capacity then t - {Oldest(t)} else t;
      if mac !in t && |t| >= capacity {
        assert kept.Keys == t.Keys - {Oldest(t)};
      }
      assert kept[mac := Entry(port, tick)].Keys == kept.Keys + {mac};
    }
  }

  /** Learning forgets at most one address: the oldest, and only to make room. */
  lemma EvictionIsOldest(capacity: nat, t: Table, mac: MacAddress, port: nat, tick: Tick, x: MacAddress)
    requires x in t && x !in Learned(capacity, t, mac, port, tick)
    ensures mac !in t && |t| >= capacity > 0 && IsOldest(t, x)
  {
  }

  /** An entry survives ageing exactly when its age in 64-bit arithmetic is within the limit;
      an entry stamped later than `now` is aged out unless the limit is near 2^64. */
  lemma AgeingLimit(t: Table, now: Tick, maxAge: Tick, m: MacAddress)
    requires m in t
    ensures m in Aged(t, now, maxAge) <==>
            if t[m].tick <= now then now - t[m].tick <= maxAge else WORD - maxAge <= t[m].tick - now
  {
  }

  // ---- Strictly increasing ticks: the table is a least-recently-used cache ----

  /** The last entry of every address ever learned: an unbounded table. */
  function Last(ops: seq<Op>): Table {
    if ops == [] then map[]
    else
      var op := ops[|ops| - 1];
      if op.Learn? then Last(ops[..|ops| - 1])[op.mac := Entry(op.port, op.tick)] else Last(ops[..|ops| - 1])
  }

  /** The addresses seen more recently than `m`. */
  function Newer(t: Table, m: MacAddress): set<MacAddress>
    requires m in t
  {
    set x | x in t && t[x].tick > t[m].tick
  }

  /** The `capacity` most recently seen addresses: those with fewer than `capacity` newer ones. */
  function MostRecent(capacity: nat, t: Table): Table {
    map m | m in t && |Newer(t, m)| < capacity :: t[m]
  }

  predicate LearnsOnly(ops: seq<Op>) {
    forall k :: 0 <= k < |ops| ==> ops[k].Learn?
  }

  predicate Increasing(ops: seq<Op>)
    requires LearnsOnly(ops)
  {
    forall i, j :: 0 <= i < j < |ops| ==> ops[i].tick < ops[j].tick
  }

  ghost predicate TicksDiffer(t: Table) {
    forall a, b :: a in t && b in t && a != b ==> t[a].tick != t[b].tick
  }

  /** Learning `mac` puts it in front of every other address. */
  lemma NewerAfterLearn(t: Table, mac: MacAddress, port: nat, tick: Tick, x: MacAddress)
    requires forall m :: m in t ==> t[m].tick < tick
    requires x in t && x != mac
    ensures var t' := t[mac := Entry(port, tick)];
            Newer(t', x) == Newer(t, x) + {mac} && Newer(t', mac) == {}
  {
  }

  lemma {:induction false} NewestOf(t: Table, s: set<MacAddress>) returns (m: MacAddress)
    requires s != {} && s <= t.Keys
    ensures m in s && forall x :: x in s ==> t[x].tick <= t[m].tick
    decreases s
  {
    var some :| some in s;
    m := some;
    var rest := s - {some};
    if rest != {} {
      var newest := NewestOf(t, rest);
      m := if t[newest].tick > t[some].tick then newest else some;
    }
    assert forall x :: x in s ==> x == some || x in rest;
  }

  /** If fewer than `capacity` addresses are kept, none was dropped. */
  lemma KeepsAllWhenNotFull(capacity: nat, t: Table)
    requires |MostRecent(capacity, t)| < capacity
    ensures MostRecent(capacity, t) == t
  {
    var kept := MostRecent(capacity, t);
    var missing := t.Keys - kept.Keys;
    if missing != {} {
      var m := NewestOf(t, missing);
      Subset(Newer(t, m), kept.Keys);
      assert false;
    }
    forall x | x in t ensures x in kept {
      assert x !in missing;
    }
  }

  /** The oldest kept address has exactly the other kept ones before it. */
  lemma OldestKept(capacity: nat, t: Table, m: MacAddress)
    requires TicksDiffer(t) && IsOldest(MostRecent(capacity, t), m)
    ensures Newer(t, m) == MostRecent(capacity, t).Keys - {m}
  {
    var kept := MostRecent(capacity, t);
    forall x | x in Newer(t, m) ensures x in kept {
      Subset(Newer(t, x), Newer(t, m));
    }
    forall x | x in kept && x != m ensures x in Newer(t, m) {
      assert Before(kept, m, x);
    }
  }

  lemma KeptWithinCapacity(capacity: nat, t: Table)
    requires TicksDiffer(t)
    ensures |MostRecent(capacity, t)| <= capacity
  {
    var kept := MostRecent(capacity, t);
    if kept != map[] {
      var m := Oldest(kept);
      OldestKept(capacity, t, m);
    }
  }

  /** An address that stays in the table when another one is learned. */
  lemma StaysRecent(capacity: nat, t: Table, mac: MacAddress, port: nat, tick: Tick, x: MacAddress)
    requires TicksDiffer(t) && (forall m :: m in t ==> t[m].tick < tick)
    requires x in t && x != mac && capacity > 0
    ensures var t' := t[mac := Entry(port, tick)];
            x in MostRecent(capacity, t') <==> |Newer(t, x) + {mac}| < capacity
  {
    NewerAfterLearn(t, mac, port, tick, x);
  }

  lemma RelearnKeeps(capacity: nat, t: Table, mac: MacAddress, x: MacAddress)
    requires TicksDiffer(t) && mac in MostRecent(capacity, t) && x in t && x != mac
    ensures |Newer(t, x) + {mac}| < capacity <==> x in MostRecent(capacity, t)
  {
    if t[x].tick < t[mac].tick {
      assert Newer(t, x) + {mac} == Newer(t, x);
    } else {
      Subset(Newer(t, x) + {x}, Newer(t, mac));
    }
  }

  /** An address that is not kept is not newer than a kept one. */
  lemma KeptIsNewer(capacity: nat, t: Table, mac: MacAddress, x: MacAddress)
    requires TicksDiffer(t) && mac !in MostRecent(capacity, t) && x in MostRecent(capacity, t)
    ensures mac !in Newer(t, x)
  {
    if mac in Newer(t, x) {
      Subset(Newer(t, mac), Newer(t, x));
    }
  }

  lemma FullDropsOldest(capacity: nat, t: Table, mac: MacAddress, x: MacAddress)
    requires TicksDiffer(t) && capacity > 0 && mac !in MostRecent(capacity, t)
    requires |MostRecent(capacity, t)| == capacity && x in MostRecent(capacity, t)
    ensures |Newer(t, x) + {mac}| < capacity <==> x != Oldest(MostRecent(capacity, t))
  {
    var kept := MostRecent(capacity, t);
    var oldest := Oldest(kept);
    OldestKept(capacity, t, oldest);
    KeptIsNewer(capacity, t, mac, x);
    if x != oldest {
      assert Before(kept, oldest, x);
      Subset(Newer(t, x) + {x}, Newer(t, oldest));
    }
  }

  /** Learning a new address drops the oldest kept one exactly when the table is full. */
  lemma LearnDropsOldest(capacity: nat, t: Table, mac: MacAddress, x: MacAddress)
    requires TicksDiffer(t) && capacity > 0 && mac !in MostRecent(capacity, t) && x in t && x != mac
    ensures var kept := MostRecent(capacity, t);
            |Newer(t, x) + {mac}| < capacity <==> x in kept && !(|kept| >= capacity && x == Oldest(kept))
  {
    var kept := MostRecent(capacity, t);
    KeptWithinCapacity(capacity, t);
    if |kept| < capacity {
      KeepsAllWhenNotFull(capacity, t);
      Subset(Newer(t, x) + {x}, t.Keys);
    } else if x in kept {
      FullDropsOldest(capacity, t, mac, x);
    } else {
      Subset(Newer(t, x), Newer(t, x) + {mac});
    }
  }

  lemma LearnedMember(capacity: nat, t: Table, mac: MacAddress, port: nat, tick: Tick, x: MacAddress)
    requires TicksDiffer(t) && (forall m :: m in t ==> t[m].tick < tick) && capacity > 0
    requires x in t && x != mac
    ensures x in Learned(capacity, MostRecent(capacity, t), mac, port, tick)
            <==> x in MostRecent(capacity, t[mac := Entry(port, tick)])
  {
    StaysRecent(capacity, t, mac, port, tick, x);
    if mac in MostRecent(capacity, t) {
      RelearnKeeps(capacity, t, mac, x);
    } else {
      LearnDropsOldest(capacity, t, mac, x);
    }
  }

  lemma LearnedEntry(capacity: nat, t: Table, mac: MacAddress, port: nat, tick: Tick, x: MacAddress)
    requires x in Learned(capacity, t, mac, port, tick)
    ensures x in t[mac := Entry(port, tick)]
    ensures capacity > 0 ==> Learned(capacity, t, mac, port, tick)[x] == t[mac := Entry(port, tick)][x]
  {
  }

  lemma LearnKeepsMostRecent(capacity: nat, t: Table, mac: MacAddress, port: nat, tick: Tick)
    requires TicksDiffer(t) && (forall m :: m in t ==> t[m].tick < tick)
    ensures Learned(capacity, MostRecent(capacity, t), mac, port, tick)
            == MostRecent(capacity, t[mac := Entry(port, tick)])
  {
    if capacity > 0 {
      var kept := MostRecent(capacity, t);
      var got := Learned(capacity, kept, mac, port, tick);
      var want := MostRecent(capacity, t[mac := Entry(port, tick)]);
      assert Newer(t[mac := Entry(port, tick)], mac) == {};
      assert mac in want && mac in got;
      forall x ensures x in got <==> x in want {
        if x in t && x != mac {
          LearnedMember(capacity, t, mac, port, tick, x);
        } else if x in got {
          LearnedEntry(capacity, kept, mac, port, tick, x);
        }
      }
      forall x | x in got ensures got[x] == want[x] {
        LearnedEntry(capacity, kept, mac, port, tick, x);
      }
    }
  }

  lemma {:induction false} LastTicks(ops: seq<Op>)
    requires LearnsOnly(ops) && Increasing(ops)
    ensures TicksDiffer(Last(ops))
    ensures forall m :: m in Last(ops) ==> ops != [] && Last(ops)[m].tick <= ops[|ops| - 1].tick
  {
    if ops == [] {
    } else {
      LastTicks(ops[..|ops| - 1]);
    }
  }

  /** Least-recently-used refinement: after any learn sequence with strictly increasing
      ticks, the table holds exactly the `capacity` most recently seen addresses, each with
      the port and tick of its last learn. */
  lemma {:induction false} LruRefinement(capacity: nat, ops: seq<Op>)
    requires LearnsOnly(ops) && Increasing(ops)
    ensures Run(capacity, ops) == MostRecent(capacity, Last(ops))
  {
    if ops == [] {
    } else {
      var init, op := ops[..|ops| - 1], ops[|ops| - 1];
      LruRefinement(capacity, init);
      LastTicks(init);
      LearnKeepsMostRecent(capacity, Last(init), op.mac, op.port, op.tick);
    }
  }

  /** The reference is the history: `Last` holds the last learn of each address. */
  lemma {:induction false} LastIsLastLearn(ops: seq<Op>, m: MacAddress)
    ensures LastLearn(ops, m) == if m in Last(ops) then Some(Last(ops)[m]) else None
  {
    if ops == [] {
    } else {
      LastIsLastLearn(ops[..|ops| - 1], m);
    }
  }

  /** How many addresses the table holds: all that were seen, or the capacity. */
  lemma MostRecentCount(capacity: nat, t: Table)
    requires TicksDiffer(t)
    ensures |MostRecent(capacity, t)| == if |t| < capacity then |t| else capacity
  {
    KeptWithinCapacity(capacity, t);
    Subset(MostRecent(capacity, t).Keys, t.Keys);
    if |MostRecent(capacity, t)| < capacity {
      KeepsAllWhenNotFull(capacity, t);
    }
  }

  // ---- Inclusion between capacities, with any ticks and with ageing ----

  /** The larger table holds all that the smaller one holds, and exceeds it by no more than
      the difference of the capacities. */
  ghost predicate Includes(small: nat, large: nat, s: Table, l: Table) {
    && (forall m :: m in s ==> m in l && l[m] == s[m])
    && |l.Keys - s.Keys| <= large - small
  }

  lemma LearnedKeys(capacity: nat, t: Table, mac: MacAddress, port: nat, tick: Tick)
    requires capacity > 0 && |t| <= capacity
    ensures Learned(capacity, t, mac, port, tick).Keys
            == (if mac !in t && |t| == capacity then t.Keys - {Oldest(t)} else t.Keys) + {mac}
  {
  }

  lemma FullTogether(small: nat, large: nat, s: Table, l: Table)
    requires small <= large && Includes(small, large, s, l) && |s| <= small && |l| <= large
    ensures |l.Keys - s.Keys| == |l| - |s|
    ensures |l| == large ==> |s| == small
  {
    assert l.Keys == s.Keys + (l.Keys - s.Keys);
    assert |s.Keys + (l.Keys - s.Keys)| == |s.Keys| + |l.Keys - s.Keys|;
  }

  lemma OldestOfSubTable(s: Table, l: Table)
    requires s != map[] && (forall m :: m in s ==> m in l && l[m] == s[m])
    requires Oldest(l) in s
    ensures Oldest(s) == Oldest(l)
  {
    assert Before(l, Oldest(l), Oldest(s));
    assert Before(s, Oldest(s), Oldest(l));
  }

  lemma LearnIncludes(small: nat, large: nat, s: Table, l: Table, mac: MacAddress, port: nat, tick: Tick)
    requires 0 < small <= large && Includes(small, large, s, l) && |s| <= small && |l| <= large
    ensures Includes(small, large, Learned(small, s, mac, port, tick), Learned(large, l, mac, port, tick))
  {
    var s', l' := Learned(small, s, mac, port, tick), Learned(large, l, mac, port, tick);
    FullTogether(small, large, s, l);
    LearnedKeys(small, s, mac, port, tick);
    LearnedKeys(large, l, mac, port, tick);
    if mac !in l && |l| == large && Oldest(l) in s {
      OldestOfSubTable(s, l);
    }
    forall m | m in s' ensures m in l' && l'[m] == s'[m] {
      LearnedEntry(small, s, mac, port, tick, m);
    }
    LearnExcess(small, large, s, l, mac, port, tick);
  }

  lemma LearnExcess(small: nat, large: nat, s: Table, l: Table, mac: MacAddress, port: nat, tick: Tick)
    requires 0 < small <= large && Includes(small, large, s, l) && |s| <= small && |l| <= large
    requires Learned(small, s, mac, port, tick).Keys <= Learned(large, l, mac, port, tick).Keys
    ensures |Learned(large, l, mac, port, tick).Keys - Learned(small, s, mac, port, tick).Keys| <= large - small
  {
    var s', l' := Learned(small, s, mac, port, tick).Keys, Learned(large, l, mac, port, tick).Keys;
    FullTogether(small, large, s, l);
    LearnedKeys(small, s, mac, port, tick);
    LearnedKeys(large, l, mac, port, tick);
    assert l' == s' + (l' - s');
    assert |l' - s'| == |l'| - |s'|;
  }

  /** Growing the table never turns a hit into a miss: after any operations, with any ticks
      and with ageing, the smaller table is a sub-map of the larger one. */
  lemma {:induction false} GrowingKeepsHits(small: nat, large: nat, ops: seq<Op>)
    requires small <= large
    ensures Includes(small, large, Run(small, ops), Run(large, ops))
  {
    if ops == [] {
    } else {
      var init := ops[..|ops| - 1];
      GrowingKeepsHits(small, large, init);
      TableAgreesWithHistory(small, init);
      TableAgreesWithHistory(large, init);
      TableAgreesWithHistory(large, ops);
      var s, l := Run(small, init), Run(large, init);
      match ops[|ops| - 1]
      case Learn(mac, port, tick) =>
        if small > 0 {
          LearnIncludes(small, large, s, l, mac, port, tick);
        } else {
          EmptyIncluded(large, s, Run(large, ops));
        }
      case AgeOut(now, maxAge) =>
        Subset(Aged(l, now, maxAge).Keys - Aged(s, now, maxAge).Keys, l.Keys - s.Keys);
    }
  }

  lemma EmptyIncluded(large: nat, s: Table, l: Table)
    requires |s| == 0 && |l| <= large
    ensures Includes(0, large, s, l)
  {
    assert s == map[];
    Subset(l.Keys - s.Keys, l.Keys);
  }
}
