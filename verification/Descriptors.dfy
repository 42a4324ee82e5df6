/**
 * File-descriptor ownership. Objects in several threads own kernel descriptors and keep a
 * shared registry informed; the kernel hands out closed numbers again at once. Every
 * registry call and every system call is one step, so other threads act in between.
 */
module Descriptors {
  import opened Packets
  import opened Counting

  datatype FdState = Active | Released | Closed

  /** What follows when a `reset` is complete. */
  datatype Task = Plain | Destroying | MovingFrom(source: nat)

  /** The next observable operation of the thread that uses an object. A pending descriptor
      is the argument of the `reset` under way. */
  datatype Phase =
    | Idle
    | MarkClosed(pending: int, task: Task)
    | Unregister(pending: int, task: Task)
    | CloseFd(pending: int, task: Task)
    | AssignFd(pending: int, task: Task)
    | Register(task: Task)
    | Finish(task: Task)
    | MarkReleased
    | HandOver

  /** A descriptor object: its `fd_`, whether it has a registry, and its thread's position. */
  datatype Owner = Owner(fd: int, bound: bool, phase: Phase)

  /** `raw` holds the open descriptors that no object owns; `calls` records system calls. */
  datatype State = State(
    open: set<int>,
    raw: set<int>,
    owners: map<nat, Owner>,
    records: map<int, FdState>,
    calls: seq<Call>)

  datatype Call = Opened(fd: int) | ClosedCall(fd: int)

  const START := State({}, {}, map[], map[], [])

  datatype Event =
    | OsOpen(fd: int)
    | RawClose(fd: int)
    | Construct(o: nat, fd: int, bound: bool)
    | MoveConstruct(o: nat, source: nat)
    | Reset(o: nat, fd: int)
    | MoveAssign(o: nat, source: nat)
    | Destroy(o: nat)
    | Release(o: nat)
    | Step(o: nat)

  predicate MayTake(s: State, fd: int) {
    fd < 0 || fd in s.raw
  }

  predicate IsIdle(s: State, o: nat) {
    o in s.owners && s.owners[o].phase.Idle?
  }

  predicate Enabled(s: State, e: Event) {
    match e
    case OsOpen(fd) => fd >= 0 && fd !in s.open
    case RawClose(fd) => fd in s.raw
    case Construct(o, fd, _) => o !in s.owners && MayTake(s, fd)
    case MoveConstruct(o, source) => o !in s.owners && IsIdle(s, source)
    case Reset(o, fd) => IsIdle(s, o) && MayTake(s, fd)
    case MoveAssign(o, source) => IsIdle(s, o)
    case Destroy(o) => IsIdle(s, o)
    case Release(o) => IsIdle(s, o)
    case Step(o) =>
      && o in s.owners && !s.owners[o].phase.Idle?
      && (s.owners[o].phase.Finish? && s.owners[o].phase.task.MovingFrom? ==>
            IsIdle(s, s.owners[o].phase.task.source) && s.owners[o].phase.task.source != o)
  }

  /** A registry update of a record that may be absent. */
  function Updated(records: map<int, FdState>, fd: int, state: FdState): map<int, FdState> {
    if fd in records then records[fd := state] else records
  }

  function With(s: State, o: nat, owner: Owner): State {
    s.(owners := s.owners[o := owner])
  }

  /** Where a `reset` to `pending` begins: a valid descriptor is first given up. */
  function ResetPhase(w: Owner, pending: int, task: Task): Phase {
    if w.fd < 0 then AssignFd(pending, task)
    else if w.bound then MarkClosed(pending, task)
    else CloseFd(pending, task)
  }

  function StepApply(s: State, o: nat): State
    requires Enabled(s, Step(o))
  {
    var w := s.owners[o];
    match w.phase
    case MarkClosed(pending, task) =>
      With(s, o, w.(phase := Unregister(pending, task))).(records := Updated(s.records, w.fd, Closed))
    case Unregister(pending, task) =>
      With(s, o, w.(phase := CloseFd(pending, task))).(records := s.records - {w.fd})
    case CloseFd(pending, task) =>
      With(s, o, w.(phase := AssignFd(pending, task))).(open := s.open - {w.fd}, calls := s.calls + [ClosedCall(w.fd)])
    case AssignFd(pending, task) =>
      With(s, o, Owner(pending, w.bound, if w.bound && pending >= 0 then Register(task) else Finish(task)))
    case Register(task) =>
      With(s, o, w.(phase := Finish(task))).(records := s.records[w.fd := Active])
    case MarkReleased =>
      With(s, o, w.(phase := HandOver)).(records := Updated(s.records, w.fd, Released))
    case HandOver =>
      With(s, o, Owner(-1, w.bound, Phase.Idle)).(raw := if w.fd >= 0 then s.raw + {w.fd} else s.raw)
    case Finish(task) =>
      match task {
        case Plain => With(s, o, w.(phase := Phase.Idle))
        case Destroying => s.(owners := s.owners - {o})
        case MovingFrom(source) =>
          With(With(s, o, s.owners[source]), source, Owner(-1, false, Phase.Idle))
      }
    case Idle => s
  }

  function Apply(s: State, e: Event): State
    requires Enabled(s, e)
  {
    match e
    case OsOpen(fd) => s.(open := s.open + {fd}, raw := s.raw + {fd}, calls := s.calls + [Opened(fd)])
    case RawClose(fd) => s.(open := s.open - {fd}, raw := s.raw - {fd}, calls := s.calls + [ClosedCall(fd)])
    case Construct(o, fd, bound) =>
      With(s, o, Owner(fd, bound, if bound && fd >= 0 then Phase.Register(Plain) else Phase.Idle)).(raw := s.raw - {fd})
    case MoveConstruct(o, source) =>
      With(With(s, o, s.owners[source]), source, Owner(-1, false, Phase.Idle))
    case Reset(o, fd) =>
      With(s, o, s.owners[o].(phase := ResetPhase(s.owners[o], fd, Plain))).(raw := s.raw - {fd})
    case MoveAssign(o, source) =>
      if o == source then s
      else With(s, o, s.owners[o].(phase := ResetPhase(s.owners[o], -1, MovingFrom(source))))
    case Destroy(o) =>
      With(s, o, s.owners[o].(phase := ResetPhase(s.owners[o], -1, Destroying)))
    case Release(o) =>
      With(s, o, s.owners[o].(phase := if s.owners[o].bound && s.owners[o].fd >= 0 then MarkReleased else HandOver))
    case Step(o) => StepApply(s, o)
  }

  function After(es: seq<Event>): Option<State> {
    if es == [] then Some(START)
    else match After(es[..|es| - 1])
      case None => None
      case Some(s) => if Enabled(s, es[|es| - 1]) then Some(Apply(s, es[|es| - 1])) else None
  }

  // ---- Ownership ----

  function One(fd: int): set<int> {
    if fd >= 0 then {fd} else {}
  }

  function Pending(ph: Phase): set<int> {
    if ph.MarkClosed? || ph.Unregister? || ph.CloseFd? || ph.AssignFd? then One(ph.pending) else {}
  }

  /** The descriptor that an object owns. Between the close and the assignment its field still
      has the closed number, which another thread may already own. */
  function Owned(w: Owner): set<int> {
    if w.phase.AssignFd? then {} else One(w.fd)
  }

  function Holds(w: Owner): set<int> {
    Owned(w) + Pending(w.phase)
  }

  /** A reset on the way to destruction or to a move has nothing pending, and is left with
      no descriptor. */
  predicate Orderly(w: Owner) {
    match w.phase
    case MarkClosed(pending, task) => w.fd >= 0 && w.bound && (task.Plain? || pending < 0)
    case Unregister(pending, task) => w.fd >= 0 && w.bound && (task.Plain? || pending < 0)
    case CloseFd(pending, task) => w.fd >= 0 && (task.Plain? || pending < 0)
    case AssignFd(pending, task) => task.Plain? || pending < 0
    case Register(task) => w.fd >= 0 && w.bound && task.Plain?
    case Finish(task) => task.Plain? || w.fd < 0
    case MarkReleased => w.fd >= 0 && w.bound
    case HandOver => true
    case Idle => true
  }

  /** Each open descriptor is raw or has at most one holder. */
  ghost predicate Exclusive(open: set<int>, raw: set<int>, owners: map<nat, Owner>) {
    && raw <= open
    && (forall o :: o in owners ==> Orderly(owners[o]) && Holds(owners[o]) <= open - raw
                                    && Owned(owners[o]) !! Pending(owners[o].phase))
    && (forall o, q :: o in owners && q in owners && o != q ==> Holds(owners[o]) !! Holds(owners[q]))
  }

  function HeldBy(owners: map<nat, Owner>, o: nat): set<int> {
    if o in owners then Holds(owners[o]) else {}
  }

  /** One owner changes what it holds, within what it held and what was raw. */
  lemma OwnerChanges(s: State, o: nat, w: Owner, open: set<int>, raw: set<int>)
    requires Exclusive(s.open, s.raw, s.owners)
    requires Orderly(w) && Owned(w) !! Pending(w.phase)
    requires Holds(w) + raw <= HeldBy(s.owners, o) + s.raw && Holds(w) !! raw && Holds(w) + raw <= open
    requires s.open - open <= HeldBy(s.owners, o)
    ensures Exclusive(open, raw, s.owners[o := w])
  {
    var owners := s.owners[o := w];
    forall q | q in owners && q != o
      ensures Orderly(owners[q]) && Holds(owners[q]) <= open - raw && Holds(owners[q]) !! Holds(w)
              && Owned(owners[q]) !! Pending(owners[q].phase)
    {
      assert owners[q] == s.owners[q];
    }
  }

  /** A moved-from object's holdings pass to another that has none. */
  lemma OwnershipMoves(s: State, o: nat, source: nat)
    requires Exclusive(s.open, s.raw, s.owners)
    requires o != source && IsIdle(s, source) && HeldBy(s.owners, o) == {}
    ensures Exclusive(s.open, s.raw, s.owners[o := s.owners[source]][source := Owner(-1, false, Phase.Idle)])
  {
    var owners := s.owners[o := s.owners[source]][source := Owner(-1, false, Phase.Idle)];
    assert Holds(Owner(-1, false, Phase.Idle)) == {};
    forall q | q in owners && q != o && q != source
      ensures owners[q] == s.owners[q] && Holds(owners[q]) !! Holds(owners[o])
    {
    }
  }

  lemma StepExclusive(s: State, o: nat)
    requires Exclusive(s.open, s.raw, s.owners) && Enabled(s, Step(o))
    ensures var s' := StepApply(s, o); Exclusive(s'.open, s'.raw, s'.owners)
  {
    var w := s.owners[o];
    if w.phase.Finish? && w.phase.task.MovingFrom? {
      OwnershipMoves(s, o, w.phase.task.source);
    } else if w.phase.Finish? && w.phase.task.Destroying? {
    } else {
      var s' := StepApply(s, o);
      OwnerChanges(s, o, s'.owners[o], s'.open, s'.raw);
    }
  }

  lemma CallExclusive(s: State, e: Event)
    requires Exclusive(s.open, s.raw, s.owners) && Enabled(s, e) && !e.Step?
    ensures var s' := Apply(s, e); Exclusive(s'.open, s'.raw, s'.owners)
  {
    var s' := Apply(s, e);
    match e
    case OsOpen(fd) =>
      forall o | o in s.owners ensures Holds(s.owners[o]) <= s'.open - s'.raw {
      }
    case RawClose(fd) =>
    case MoveConstruct(o, source) => OwnershipMoves(s, o, source);
    case MoveAssign(o, source) =>
      if o != source {
        OwnerChanges(s, o, s'.owners[o], s'.open, s'.raw);
      }
    case Construct(o, _, _) => OwnerChanges(s, o, s'.owners[o], s'.open, s'.raw);
    case Reset(o, _) => OwnerChanges(s, o, s'.owners[o], s'.open, s'.raw);
    case Destroy(o) => OwnerChanges(s, o, s'.owners[o], s'.open, s'.raw);
    case Release(o) => OwnerChanges(s, o, s'.owners[o], s'.open, s'.raw);
  }

  // ---- The registry tells the truth ----

  predicate IsActive(records: map<int, FdState>, f: int) {
    f in records && records[f].Active?
  }

  /** Phases in which an owner's record has been taken out of the active state. */
  predicate Withdrawn(ph: Phase) {
    ph.Unregister? || ph.CloseFd? || ph.HandOver?
  }

  predicate BoundTo(w: Owner, f: int) {
    w.bound && f in Owned(w)
  }

  ghost predicate HasBoundOwner(owners: map<nat, Owner>, f: int) {
    exists o :: o in owners && BoundTo(owners[o], f)
  }

  /** An active record names a descriptor owned by a registry-bound object. */
  ghost predicate Truthful(records: map<int, FdState>, owners: map<nat, Owner>) {
    && (forall f :: IsActive(records, f) ==> HasBoundOwner(owners, f))
    && (forall o :: o in owners && Withdrawn(owners[o].phase) ==> !IsActive(records, owners[o].fd))
  }

  /** One owner moves on; its descriptor leaves it only when its record is not active. */
  lemma OwnerKeepsTruth(s: State, o: nat, w: Owner, records: map<int, FdState>)
    requires Truthful(s.records, s.owners)
    requires forall f :: IsActive(records, f) ==> IsActive(s.records, f) || BoundTo(w, f)
    requires forall f :: IsActive(records, f) && o in s.owners && BoundTo(s.owners[o], f) ==> BoundTo(w, f)
    requires Withdrawn(w.phase) ==> !IsActive(records, w.fd)
    requires forall q :: q in s.owners && q != o && Withdrawn(s.owners[q].phase) ==> !IsActive(records, s.owners[q].fd)
    ensures Truthful(records, s.owners[o := w])
  {
    var owners := s.owners[o := w];
    forall f | IsActive(records, f) ensures HasBoundOwner(owners, f) {
      if BoundTo(w, f) {
        assert BoundTo(owners[o], f);
      } else {
        var q :| q in s.owners && BoundTo(s.owners[q], f);
        assert q != o && owners[q] == s.owners[q];
      }
    }
  }

  /** Moving an object moves its record's owner. */
  lemma MoveKeepsTruth(s: State, o: nat, source: nat)
    requires Truthful(s.records, s.owners)
    requires o != source && IsIdle(s, source) && (o in s.owners ==> Owned(s.owners[o]) == {})
    ensures Truthful(s.records, s.owners[o := s.owners[source]][source := Owner(-1, false, Phase.Idle)])
  {
    var owners := s.owners[o := s.owners[source]][source := Owner(-1, false, Phase.Idle)];
    forall f | IsActive(s.records, f) ensures HasBoundOwner(owners, f) {
      var q :| q in s.owners && BoundTo(s.owners[q], f);
      assert q != o;
      var q' := if q == source then o else q;
      assert BoundTo(owners[q'], f);
    }
  }

  /** An owner without a registry holds no descriptor with an active record. */
  lemma UnboundIsInactive(s: State, o: nat)
    requires Exclusive(s.open, s.raw, s.owners) && Truthful(s.records, s.owners)
    requires o in s.owners && (!s.owners[o].bound || s.owners[o].fd < 0) && !s.owners[o].phase.AssignFd?
    ensures !IsActive(s.records, s.owners[o].fd)
  {
  }

  lemma RegisterKeepsTruth(s: State, o: nat)
    requires Exclusive(s.open, s.raw, s.owners) && Truthful(s.records, s.owners)
    requires o in s.owners && s.owners[o].phase.Register?
    ensures Truthful(s.records[s.owners[o].fd := Active], s.owners[o := s.owners[o].(phase := Finish(Plain))])
  {
    var w, records := s.owners[o], s.records[s.owners[o].fd := Active];
    forall q | q in s.owners && q != o && Withdrawn(s.owners[q].phase) ensures !IsActive(records, s.owners[q].fd) {
      assert w.fd in Holds(w);
      assert s.owners[q].fd >= 0 ==> s.owners[q].fd in Holds(s.owners[q]);
    }
    OwnerKeepsTruth(s, o, w.(phase := Finish(Plain)), records);
  }

  lemma DestroyKeepsTruth(s: State, o: nat)
    requires Truthful(s.records, s.owners)
    requires o in s.owners && Owned(s.owners[o]) == {}
    ensures Truthful(s.records, s.owners - {o})
  {
    forall f | IsActive(s.records, f) ensures HasBoundOwner(s.owners - {o}, f) {
      var q :| q in s.owners && BoundTo(s.owners[q], f);
      assert q in s.owners - {o} && BoundTo((s.owners - {o})[q], f);
    }
  }

  lemma StepTruthful(s: State, o: nat)
    requires Exclusive(s.open, s.raw, s.owners) && Truthful(s.records, s.owners) && Enabled(s, Step(o))
    ensures var s' := StepApply(s, o); Truthful(s'.records, s'.owners)
  {
    var w, s' := s.owners[o], StepApply(s, o);
    match w.phase
    case Register(_) => RegisterKeepsTruth(s, o);
    case Finish(task) =>
      if task.MovingFrom? {
        MoveKeepsTruth(s, o, task.source);
      } else if task.Destroying? {
        DestroyKeepsTruth(s, o);
      } else {
        OwnerKeepsTruth(s, o, s'.owners[o], s'.records);
      }
    case _ => OwnerKeepsTruth(s, o, s'.owners[o], s'.records);
  }

  lemma CallTruthful(s: State, e: Event)
    requires Exclusive(s.open, s.raw, s.owners) && Truthful(s.records, s.owners) && Enabled(s, e) && !e.Step?
    ensures var s' := Apply(s, e); Truthful(s'.records, s'.owners)
  {
    var s' := Apply(s, e);
    match e
    case OsOpen(_) =>
    case RawClose(_) =>
    case Construct(o, _, _) => OwnerKeepsTruth(s, o, s'.owners[o], s'.records);
    case MoveConstruct(o, source) => MoveKeepsTruth(s, o, source);
    case MoveAssign(o, source) =>
      if o != source {
        ResetKeepsTruth(s, o, -1, MovingFrom(source));
      }
    case Reset(o, fd) => ResetKeepsTruth(s, o, fd, Plain);
    case Destroy(o) => ResetKeepsTruth(s, o, -1, Destroying);
    case Release(o) =>
      if !s.owners[o].bound || s.owners[o].fd < 0 {
        UnboundIsInactive(s, o);
      }
      OwnerKeepsTruth(s, o, s'.owners[o], s'.records);
  }

  lemma ResetKeepsTruth(s: State, o: nat, pending: int, task: Task)
    requires Exclusive(s.open, s.raw, s.owners) && Truthful(s.records, s.owners) && IsIdle(s, o)
    ensures Truthful(s.records, s.owners[o := s.owners[o].(phase := ResetPhase(s.owners[o], pending, task))])
  {
    if !s.owners[o].bound || s.owners[o].fd < 0 {
      UnboundIsInactive(s, o);
    }
    OwnerKeepsTruth(s, o, s.owners[o].(phase := ResetPhase(s.owners[o], pending, task)), s.records);
  }

  // ---- The registry is told before a descriptor goes ----

  /** What the record of a registry-bound object's descriptor says: active while the object has
      it; and when the object gives it up, closed before it is removed, gone before the number
      is closed, released before it is handed out. */
  predicate Announced(records: map<int, FdState>, w: Owner) {
    w.bound && w.fd >= 0 ==>
      && (w.phase.Idle? || w.phase.Finish? || w.phase.MarkClosed? || w.phase.MarkReleased? ==> IsActive(records, w.fd))
      && (w.phase.Unregister? && w.fd in records ==> records[w.fd] == Closed)
      && (w.phase.CloseFd? ==> w.fd !in records)
      && (w.phase.HandOver? && w.fd in records ==> records[w.fd] == Released)
  }

  ghost predicate AllAnnounced(records: map<int, FdState>, owners: map<nat, Owner>) {
    forall o :: o in owners ==> Announced(records, owners[o])
  }

  /** Another object's step does not touch the record of a descriptor that is being given up. */
  lemma OthersRecordStays(s: State, o: nat, q: nat)
    requires Exclusive(s.open, s.raw, s.owners) && Enabled(s, Step(o)) && q in s.owners && q != o
    requires Announced(s.records, s.owners[q])
    ensures Announced(StepApply(s, o).records, s.owners[q])
  {
    var w, v := s.owners[o], s.owners[q];
    assert Holds(w) !! Holds(v);
    assert !w.phase.AssignFd? && w.fd >= 0 ==> w.fd in Holds(w);
    assert !v.phase.AssignFd? && v.fd >= 0 ==> v.fd in Holds(v);
  }

  lemma StepAnnounced(s: State, o: nat)
    requires Exclusive(s.open, s.raw, s.owners) && Enabled(s, Step(o)) && AllAnnounced(s.records, s.owners)
    ensures AllAnnounced(StepApply(s, o).records, StepApply(s, o).owners)
  {
    var s' := StepApply(s, o);
    forall q | q in s'.owners ensures Announced(s'.records, s'.owners[q]) {
      if q != o && s'.owners[q] == s.owners[q] {
        OthersRecordStays(s, o, q);
      }
    }
  }

  lemma CallAnnounced(s: State, e: Event)
    requires Enabled(s, e) && !e.Step? && AllAnnounced(s.records, s.owners)
    ensures AllAnnounced(Apply(s, e).records, Apply(s, e).owners)
  {
  }

  /** In every interleaving, the record of a registry-bound object's descriptor is active while
      the object has it, so that with `OwnershipIsExclusive` the active records are exactly
      the descriptors of registry-bound objects at rest; it is marked closed before it is removed, is gone when the number is closed, and is marked released when the
      descriptor is handed out. */
  lemma {:induction false} RegistryIsToldFirst(es: seq<Event>)
    requires After(es).Some?
    ensures AllAnnounced(After(es).value.records, After(es).value.owners)
  {
    if es == [] {
    } else {
      var before, e := After(es[..|es| - 1]).value, es[|es| - 1];
      RegistryIsToldFirst(es[..|es| - 1]);
      RunInv(es[..|es| - 1], 0);
      if e.Step? {
        StepAnnounced(before, e.o);
      } else {
        CallAnnounced(before, e);
      }
    }
  }

  // ---- No descriptor leaks ----

  ghost predicate HasHolder(owners: map<nat, Owner>, f: int) {
    exists o :: o in owners && f in Holds(owners[o])
  }

  /** Every open descriptor is raw or some object is responsible for it. */
  ghost predicate Covered(s: State) {
    && (forall f :: f in s.raw ==> f >= 0)
    && (forall f :: f in s.open && f !in s.raw ==> HasHolder(s.owners, f))
  }

  /** The holder of a descriptor after a step of one object. */
  lemma HolderAfterStep(s: State, o: nat, q: nat, f: int) returns (q': nat)
    requires Exclusive(s.open, s.raw, s.owners) && Enabled(s, Step(o)) && q in s.owners && f in Holds(s.owners[q])
    requires f in StepApply(s, o).open && f !in StepApply(s, o).raw
    ensures q' in StepApply(s, o).owners && f in Holds(StepApply(s, o).owners[q'])
  {
    var w, s' := s.owners[o], StepApply(s, o);
    assert Orderly(w);
    q' := q;
    if w.phase.Finish? && w.phase.task.MovingFrom? && q == w.phase.task.source {
      q' := o;
    }
  }

  lemma StepCovered(s: State, o: nat)
    requires Exclusive(s.open, s.raw, s.owners) && Covered(s) && Enabled(s, Step(o))
    ensures Covered(StepApply(s, o))
  {
    var s' := StepApply(s, o);
    forall f | f in s'.open && f !in s'.raw ensures HasHolder(s'.owners, f) {
      assert HasHolder(s.owners, f);
      var q :| q in s.owners && f in Holds(s.owners[q]);
      var q' := HolderAfterStep(s, o, q, f);
    }
  }

  /** The holder of a descriptor after a call. */
  lemma HolderAfterCall(s: State, e: Event, q: nat, f: int) returns (q': nat)
    requires Enabled(s, e) && !e.Step? && q in s.owners && f in Holds(s.owners[q])
    ensures q' in Apply(s, e).owners && f in Holds(Apply(s, e).owners[q'])
  {
    q' := if e.MoveConstruct? && q == e.source then e.o else q;
  }

  lemma CallCovered(s: State, e: Event)
    requires Covered(s) && Enabled(s, e) && !e.Step?
    ensures Covered(Apply(s, e))
  {
    var s' := Apply(s, e);
    forall f | f in s'.open && f !in s'.raw ensures HasHolder(s'.owners, f) {
      if f in s.raw {
        assert e.Construct? || e.Reset?;
        assert f in Holds(s'.owners[e.o]);
      } else {
        assert HasHolder(s.owners, f);
        var q :| q in s.owners && f in Holds(s.owners[q]);
        var q' := HolderAfterCall(s, e, q, f);
      }
    }
  }

  lemma {:induction false} RunCovered(es: seq<Event>)
    requires After(es).Some?
    ensures Covered(After(es).value)
  {
    if es == [] {
    } else {
      var before, e := After(es[..|es| - 1]).value, es[|es| - 1];
      RunCovered(es[..|es| - 1]);
      RunInv(es[..|es| - 1], 0);
      if e.Step? {
        StepCovered(before, e.o);
      } else {
        CallCovered(before, e);
      }
    }
  }

  /** In every interleaving no descriptor leaks: what is open and not in a caller's hands is held
      by exactly one object, and once every object is destroyed, all that an object took over
      is closed or was released. */
  lemma NoDescriptorLeaks(es: seq<Event>, f: int)
    requires After(es).Some?
    ensures var s := After(es).value;
            && (f in s.open && f !in s.raw ==>
                  exists o :: o in s.owners && f in Holds(s.owners[o])
                              && forall q :: q in s.owners && q != o ==> f !in Holds(s.owners[q]))
            && (s.owners == map[] ==> s.open == s.raw)
  {
    RunCovered(es);
    RunInv(es, 0);
    var s := After(es).value;
    if f in s.open && f !in s.raw {
      assert HasHolder(s.owners, f);
      var o :| o in s.owners && f in Holds(s.owners[o]);
      forall q | q in s.owners && q != o ensures f !in Holds(s.owners[q]) {
        assert Holds(s.owners[o]) !! Holds(s.owners[q]);
      }
    }
    if s.owners == map[] {
      forall g | g in s.open ensures g in s.raw {
        assert !HasHolder(s.owners, g);
      }
    }
  }

  // ---- Opens and closes alternate ----

  ghost predicate Alternates(calls: seq<Call>, open: set<int>, f: int) {
    Occurs(calls, Opened(f)) == Occurs(calls, ClosedCall(f)) + if f in open then 1 else 0
  }

  lemma OpenAlternates(calls: seq<Call>, open: set<int>, g: int, f: int)
    requires Alternates(calls, open, f) && g !in open
    ensures Alternates(calls + [Opened(g)], open + {g}, f)
  {
    OccursSnoc(calls, Opened(g), Opened(f));
    OccursSnoc(calls, Opened(g), ClosedCall(f));
  }

  lemma CloseAlternates(calls: seq<Call>, open: set<int>, g: int, f: int)
    requires Alternates(calls, open, f) && g in open
    ensures Alternates(calls + [ClosedCall(g)], open - {g}, f)
  {
    OccursSnoc(calls, ClosedCall(g), Opened(f));
    OccursSnoc(calls, ClosedCall(g), ClosedCall(f));
  }

  lemma StepAlternates(s: State, o: nat, f: int)
    requires Exclusive(s.open, s.raw, s.owners) && Enabled(s, Step(o)) && Alternates(s.calls, s.open, f)
    ensures Alternates(StepApply(s, o).calls, StepApply(s, o).open, f)
  {
    var w := s.owners[o];
    if w.phase.CloseFd? {
      assert Orderly(w) && w.fd in Holds(w);
      CloseAlternates(s.calls, s.open, w.fd, f);
    }
  }

  lemma CallAlternates(s: State, e: Event, f: int)
    requires Exclusive(s.open, s.raw, s.owners) && Enabled(s, e) && !e.Step? && Alternates(s.calls, s.open, f)
    ensures Alternates(Apply(s, e).calls, Apply(s, e).open, f)
  {
    if e.OsOpen? {
      OpenAlternates(s.calls, s.open, e.fd, f);
    } else if e.RawClose? {
      CloseAlternates(s.calls, s.open, e.fd, f);
    }
  }

  lemma {:induction false} RunInv(es: seq<Event>, f: int)
    ensures After(es).Some? ==>
              var s := After(es).value;
              Exclusive(s.open, s.raw, s.owners) && Truthful(s.records, s.owners) && Alternates(s.calls, s.open, f)
  {
    if es == [] {
    } else {
      RunInv(es[..|es| - 1], f);
      var before, e := After(es[..|es| - 1]), es[|es| - 1];
      if before.Some? && Enabled(before.value, e) {
        if e.Step? {
          StepAlternates(before.value, e.o, f);
          StepExclusive(before.value, e.o);
          StepTruthful(before.value, e.o);
        } else {
          CallAlternates(before.value, e, f);
          CallExclusive(before.value, e);
          CallTruthful(before.value, e);
        }
      }
    }
  }

  /** In every interleaving of construction, moves, release, reset and destruction, with the
      kernel reusing closed numbers: an open descriptor is raw or owned by at most one object,
      and every active record names an open descriptor owned by a registry-bound object. */
  lemma OwnershipIsExclusive(es: seq<Event>)
    requires After(es).Some?
    ensures var s := After(es).value;
            && (forall o :: o in s.owners ==> Owned(s.owners[o]) <= s.open - s.raw)
            && (forall o, q :: o in s.owners && q in s.owners && o != q ==> Owned(s.owners[o]) !! Owned(s.owners[q]))
            && (forall f :: IsActive(s.records, f) ==> f in s.open && HasBoundOwner(s.owners, f))
  {
    RunInv(es, 0);
    var s := After(es).value;
    forall f | IsActive(s.records, f) ensures f in s.open {
      var o :| o in s.owners && BoundTo(s.owners[o], f);
      assert f in Holds(s.owners[o]);
    }
    forall o | o in s.owners ensures Owned(s.owners[o]) <= s.open - s.raw {
      assert Owned(s.owners[o]) <= Holds(s.owners[o]);
    }
    forall o, q | o in s.owners && q in s.owners && o != q ensures Owned(s.owners[o]) !! Owned(s.owners[q]) {
      assert Holds(s.owners[o]) !! Holds(s.owners[q]);
    }
  }

  /** No descriptor is closed twice per open: the calls for each number alternate, and an
      object that is about to close closes an open descriptor that it alone owns. */
  lemma ClosesOncePerOpen(es: seq<Event>, f: int)
    requires After(es).Some?
    ensures var s := After(es).value;
            && Occurs(s.calls, ClosedCall(f)) <= Occurs(s.calls, Opened(f)) <= Occurs(s.calls, ClosedCall(f)) + 1
            && (forall o :: o in s.owners && s.owners[o].phase.CloseFd? ==> s.owners[o].fd in s.open - s.raw)
  {
    RunInv(es, f);
    var s := After(es).value;
    forall o | o in s.owners && s.owners[o].phase.CloseFd? ensures s.owners[o].fd in s.open - s.raw {
      assert Orderly(s.owners[o]) && s.owners[o].fd in Holds(s.owners[o]);
    }
  }

  /** Once every object is destroyed, no record is active. */
  lemma NoOwnerNoActiveRecord(es: seq<Event>, f: int)
    requires After(es).Some? && After(es).value.owners == map[]
    ensures !IsActive(After(es).value.records, f)
  {
    RunInv(es, f);
  }
}
