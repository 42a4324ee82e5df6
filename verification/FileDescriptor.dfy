/** The descriptor object as code, with the order of its registry and system calls. */
module FileDescriptors {
  import opened Descriptors

  datatype FdType = UnknownType | UdpSocket | UnixSocket | EpollFd | PipeFd | EventFdType

  datatype FdRecord = FdRecord(state: FdState, fdType: FdType)

  datatype Action =
    | Registered(fd: int, fdType: FdType)
    | StateUpdated(fd: int, state: FdState)
    | Unregistered(fd: int)
    | ClosedFd(fd: int)

  /** What the registry and the kernel see, in order. */
  class Process {
    var records: map<int, FdRecord>
    ghost var log: seq<Action>

    constructor ()
      ensures records == map[] && log == []
    {
      records, log := map[], [];
    }

    method RegisterFd(fd: int, fdType: FdType)
      modifies this
      ensures records == old(records)[fd := FdRecord(Active, fdType)] && log == old(log) + [Registered(fd, fdType)]
    {
      records := records[fd := FdRecord(Active, fdType)];
      log := log + [Registered(fd, fdType)];
    }

    method UpdateState(fd: int, state: FdState)
      modifies this
      ensures records == if fd in old(records) then old(records)[fd := old(records)[fd].(state := state)] else old(records)
      ensures log == old(log) + [StateUpdated(fd, state)]
    {
      log := log + [StateUpdated(fd, state)];
      if fd !in records {
        return;
      }
      records := records[fd := records[fd].(state := state)];
    }

    method UnregisterFd(fd: int)
      modifies this
      ensures records == old(records) - {fd} && log == old(log) + [Unregistered(fd)]
    {
      records := records - {fd};
      log := log + [Unregistered(fd)];
    }

    method Close(fd: int)
      modifies this
      ensures records == old(records) && log == old(log) + [ClosedFd(fd)]
    {
      log := log + [ClosedFd(fd)];
    }
  }

  /** The calls that give up a descriptor: the record goes before the number can be reused. */
  function GiveUp(fd: int, bound: bool): seq<Action> {
    if fd < 0 then []
    else if bound then [StateUpdated(fd, Closed), Unregistered(fd), ClosedFd(fd)]
    else [ClosedFd(fd)]
  }

  function TakeOver(fd: int, bound: bool, fdType: FdType): seq<Action> {
    if bound && fd >= 0 then [Registered(fd, fdType)] else []
  }

  /** The records without that of a given-up descriptor; all others stay as they are. */
  function WithoutRecord(records: map<int, FdRecord>, fd: int, bound: bool): map<int, FdRecord> {
    if bound && fd >= 0 then records - {fd} else records
  }

  /** The records with that of a taken-over descriptor; all others stay as they are. */
  function WithRecord(records: map<int, FdRecord>, fd: int, bound: bool, fdType: FdType): map<int, FdRecord> {
    if bound && fd >= 0 then records[fd := FdRecord(Active, fdType)] else records
  }

  class FileDescriptor {
    const process: Process
    var fd: int
    var bound: bool
    var fdType: FdType

    constructor (process: Process, fd: int, bound: bool, fdType: FdType)
      modifies process
      ensures this.process == process && this.fd == fd && this.bound == bound && this.fdType == fdType
      ensures process.log == old(process.log) + TakeOver(fd, bound, fdType)
      ensures process.records == WithRecord(old(process.records), fd, bound, fdType)
    {
      this.process, this.fd, this.bound, this.fdType := process, fd, bound, fdType;
      new;
      if bound && fd >= 0 {
        process.RegisterFd(fd, fdType);
      }
    }

    /** The moved-from object is left empty and cannot close anything. */
    constructor MoveFrom(other: FileDescriptor)
      modifies other
      ensures process == other.process && fd == old(other.fd) && bound == old(other.bound) && fdType == old(other.fdType)
      ensures other.fd == -1 && !other.bound
    {
      process, fd, bound, fdType := other.process, other.fd, other.bound, other.fdType;
      new;
      other.fd := -1;
      other.bound := false;
    }

    method Release() returns (released: int)
      modifies this, process
      ensures released == old(fd) && fd == -1 && bound == old(bound) && fdType == old(fdType)
      ensures process.log == old(process.log) + if bound && released >= 0 then [StateUpdated(released, Released)] else []
      ensures process.records
              == if bound && released >= 0 && released in old(process.records) then
                   old(process.records)[released := old(process.records)[released].(state := Released)]
                 else old(process.records)
    {
      released := fd;
      if bound && released >= 0 {
        process.UpdateState(released, Released);
      }
      fd := -1;
    }

    method Reset(newFd: int, newType: FdType)
      modifies this, process
      ensures fd == newFd && bound == old(bound) && fdType == old(fdType)
      ensures process.log == old(process.log) + GiveUp(old(fd), bound) + TakeOver(newFd, bound, newType)
      ensures process.records == WithRecord(WithoutRecord(old(process.records), old(fd), bound), newFd, bound, newType)
    {
      if fd >= 0 {
        if bound {
          process.UpdateState(fd, Closed);
          process.UnregisterFd(fd);
        }
        process.Close(fd);
      }
      fd := newFd;
      if bound && fd >= 0 {
        process.RegisterFd(fd, newType);
      }
    }

    /** The destructor. */
    method Destroy()
      modifies this, process
      ensures fd == -1 && process.log == old(process.log) + GiveUp(old(fd), old(bound))
      ensures process.records == WithoutRecord(old(process.records), old(fd), old(bound))
    {
      Reset(-1, UnknownType);
    }

    /** Move assignment gives up the old descriptor first; assigning an object to itself
        changes nothing. */
    method MoveAssign(other: FileDescriptor)
      requires other.process == process
      modifies this, other, process
      ensures fdType == old(fdType) && other.fdType == old(other.fdType)
      ensures other == this ==>
                fd == old(fd) && bound == old(bound) && process.log == old(process.log) && process.records == old(process.records)
      ensures other != this ==>
                && fd == old(other.fd) && bound == old(other.bound) && other.fd == -1 && !other.bound
                && process.log == old(process.log) + GiveUp(old(fd), old(bound))
                && process.records == WithoutRecord(old(process.records), old(fd), old(bound))
    {
      if this != other {
        Reset(-1, UnknownType);
        fd := other.fd;
        bound := other.bound;
        other.fd := -1;
        other.bound := false;
      }
    }
  }

  // ---- The methods are the uninterrupted paths through the step system ----

  /** The call to the registry or the kernel that an object's next step makes. */
  function Visible(w: Owner, fdType: FdType): seq<Action> {
    match w.phase
    case MarkClosed(_, _) => [StateUpdated(w.fd, Closed)]
    case Unregister(_, _) => [Unregistered(w.fd)]
    case CloseFd(_, _) => [ClosedFd(w.fd)]
    case Register(_) => [Registered(w.fd, fdType)]
    case MarkReleased => [StateUpdated(w.fd, Released)]
    case _ => []
  }

  function StepsLeft(ph: Phase): nat {
    match ph
    case MarkClosed(_, _) => 5
    case Unregister(_, _) => 4
    case CloseFd(_, _) => 3
    case AssignFd(_, _) => 2
    case Register(_) => 1
    case MarkReleased => 2
    case HandOver => 1
    case _ => 0
  }

  /** The steps of one object's thread with no other thread in between. */
  function Alone(s: State, o: nat, fdType: FdType): (State, seq<Action>)
    requires o in s.owners
    decreases StepsLeft(s.owners[o].phase)
  {
    var w := s.owners[o];
    if StepsLeft(w.phase) == 0 then (s, [])
    else
      var rest := Alone(StepApply(s, o), o, fdType);
      (rest.0, Visible(w, fdType) + rest.1)
  }

  lemma AssignAlone(s: State, o: nat, fdType: FdType)
    requires o in s.owners && s.owners[o].phase.AssignFd?
    ensures var r, w := Alone(s, o, fdType), s.owners[o];
            && r.1 == TakeOver(w.phase.pending, w.bound, fdType)
            && r.0.owners == s.owners[o := Owner(w.phase.pending, w.bound, Finish(w.phase.task))]
            && r.0.records == (if w.bound && w.phase.pending >= 0 then s.records[w.phase.pending := Active] else s.records)
            && r.0.open == s.open && r.0.raw == s.raw
  {
    var next := StepApply(s, o);
    if next.owners[o].phase.Register? {
      assert Alone(StepApply(next, o), o, fdType).1 == [];
    }
  }

  lemma CloseAlone(s: State, o: nat, fdType: FdType)
    requires o in s.owners && s.owners[o].phase.CloseFd?
    ensures var r, w := Alone(s, o, fdType), s.owners[o];
            && r.1 == [ClosedFd(w.fd)] + TakeOver(w.phase.pending, w.bound, fdType)
            && r.0.owners == s.owners[o := Owner(w.phase.pending, w.bound, Finish(w.phase.task))]
            && r.0.records == (if w.bound && w.phase.pending >= 0 then s.records[w.phase.pending := Active] else s.records)
            && r.0.open == s.open - {w.fd}
  {
    AssignAlone(StepApply(s, o), o, fdType);
  }

  /** An uninterrupted `reset` makes the calls of `FileDescriptor.Reset`, in its order, and
      leaves the same descriptor, records and open numbers. */
  lemma ResetAlone(s: State, o: nat, fd: int, fdType: FdType)
    requires Enabled(s, Event.Reset(o, fd))
    ensures var r, w := Alone(Apply(s, Event.Reset(o, fd)), o, fdType), s.owners[o];
            var kept := if w.bound && w.fd >= 0 then s.records - {w.fd} else s.records;
            && r.1 == GiveUp(w.fd, w.bound) + TakeOver(fd, w.bound, fdType)
            && r.0.owners == s.owners[o := Owner(fd, w.bound, Finish(Plain))]
            && r.0.records == (if w.bound && fd >= 0 then kept[fd := Active] else kept)
            && r.0.open == if w.fd >= 0 then s.open - {w.fd} else s.open
  {
    var s0, w := Apply(s, Event.Reset(o, fd)), s.owners[o];
    if w.fd < 0 {
      AssignAlone(s0, o, fdType);
    } else if !w.bound {
      CloseAlone(s0, o, fdType);
    } else {
      var s1 := StepApply(s0, o);
      var s2 := StepApply(s1, o);
      CloseAlone(s2, o, fdType);
      assert Alone(s1, o, fdType).1 == [Unregistered(w.fd)] + Alone(s2, o, fdType).1;
      assert s2.records == s.records - {w.fd};
    }
  }

  /** An uninterrupted `release` makes the calls of `FileDescriptor.Release` and hands the
      descriptor to the caller open. */
  lemma ReleaseAlone(s: State, o: nat, fdType: FdType)
    requires Enabled(s, Event.Release(o))
    ensures var r, w := Alone(Apply(s, Event.Release(o)), o, fdType), s.owners[o];
            && r.1 == (if w.bound && w.fd >= 0 then [StateUpdated(w.fd, Released)] else [])
            && r.0.owners == s.owners[o := Owner(-1, w.bound, Phase.Idle)]
            && r.0.records == (if w.bound && w.fd >= 0 && w.fd in s.records then s.records[w.fd := Released] else s.records)
            && r.0.open == s.open && r.0.raw == s.raw + One(w.fd)
  {
    var s0 := Apply(s, Event.Release(o));
    if s0.owners[o].phase.MarkReleased? {
      var s1 := StepApply(s0, o);
      assert Alone(StepApply(s1, o), o, fdType).1 == [];
    }
  }
}
