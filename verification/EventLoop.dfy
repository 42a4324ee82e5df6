/** Stopping the epoll loop: an atomic flag and an eventfd that wakes the wait. */
module EventLoop {
  import opened Packets

  // ---- The eventfd, as an abstract counter ----

  datatype IoOutcome = Completed | Interrupted | WouldBlock | Failed

  /** The outcome on which a retry loop stops: the first that is not an interruption. */
  function Settled(tries: seq<IoOutcome>): Option<IoOutcome> {
    if tries == [] then None else if tries[0].Interrupted? then Settled(tries[1..]) else Some(tries[0])
  }

  /** A retry loop stops on the first outcome that is not an interruption, and only on such. */
  lemma {:induction false} RetriesUntilFirst(tries: seq<IoOutcome>, k: nat)
    requires k <= |tries| && forall j :: 0 <= j < k ==> tries[j] == Interrupted
    ensures k == |tries| ==> Settled(tries) == None
    ensures k < |tries| && tries[k] != Interrupted ==> Settled(tries) == Some(tries[k])
  {
    if k == 0 {
    } else {
      RetriesUntilFirst(tries[1..], k - 1);
    }
  }

  class EventFd {
    var counter: nat

    constructor ()
      ensures counter == 0
    {
      counter := 0;
    }

    /** `tries` is what successive writes report; none left means still retrying. */
    method Notify(tries: seq<IoOutcome>) returns (r: Option<IoOutcome>)
      modifies this
      ensures r == Settled(tries)
      ensures counter == if r == Some(Completed) then old(counter) + 1 else old(counter)
    {
      var k := 0;
      while k < |tries|
        invariant 0 <= k <= |tries| && counter == old(counter)
        invariant Settled(tries) == Settled(tries[k..])
      {
        if tries[k].Completed? {
          counter := counter + 1;
          return Some(Completed);
        }
        if tries[k].Interrupted? {
          k := k + 1;
          continue;
        }
        return Some(tries[k]);
      }
      return None;
    }

    /** A completed read takes the whole counter; one that would block takes nothing. */
    method Drain(tries: seq<IoOutcome>) returns (r: Option<IoOutcome>, value: nat)
      modifies this
      ensures r == Settled(tries)
      ensures value == if r == Some(Completed) then old(counter) else 0
      ensures counter == if r == Some(Completed) then 0 else old(counter)
    {
      var k := 0;
      value := 0;
      while k < |tries|
        invariant 0 <= k <= |tries| && counter == old(counter) && value == 0
        invariant Settled(tries) == Settled(tries[k..])
      {
        if tries[k].Completed? {
          value := counter;
          counter := 0;
          return Some(Completed), value;
        }
        if tries[k].Interrupted? {
          k := k + 1;
          continue;
        }
        return Some(tries[k]), 0;
      }
      return None, 0;
    }
  }

  class EpollEventLoop {
    const shutdownEvent: EventFd
    var running: bool

    constructor ()
      ensures !running && fresh(shutdownEvent) && shutdownEvent.counter == 0
    {
      shutdownEvent := new EventFd();
      running := false;
    }

    /** Only the call that clears the flag notifies. */
    method Stop(tries: seq<IoOutcome>) returns (r: Option<IoOutcome>)
      modifies this, shutdownEvent
      ensures !running
      ensures r == if old(running) then Settled(tries) else None
      ensures shutdownEvent.counter
              == old(shutdownEvent.counter) + if old(running) && Settled(tries) == Some(Completed) then 1 else 0
    {
      var wasRunning := running;
      running := false;
      r := None;
      if wasRunning {
        r := shutdownEvent.Notify(tries);
      }
    }
  }

  // ---- The loop and any number of stop calls, interleaved ----

  datatype LoopPc = BeforeRun | AtCheck | AtWait | Dispatching(shutdown: bool) | Exited

  /** A call of `stop`: before its exchange, after winning or losing it, and after its notify
      has written or thrown. */
  datatype StopPc = Ready | Won | Lost | Notified | Threw

  datatype State = State(
    loop: LoopPc,
    running: bool,
    counter: nat,
    stops: seq<StopPc>,
    notifies: nat,
    winner: Option<nat>,
    batchesAfterStop: nat)

  datatype Event =
    | StoreRunning
    | Check
    | WaitReturns(shutdown: bool)
    | Dispatch
    | Exchange(i: nat)
    | NotifyBy(i: nat, written: bool)

  function Init(calls: nat): State {
    State(BeforeRun, false, 0, seq(calls, _ => Ready), 0, None, 0)
  }

  predicate Enabled(s: State, e: Event) {
    match e
    case StoreRunning => s.loop.BeforeRun?
    case Check => s.loop.AtCheck?
    case WaitReturns(shutdown) => s.loop.AtWait? && (shutdown ==> s.counter > 0)
    case Dispatch => s.loop.Dispatching?
    case Exchange(i) => i < |s.stops| && s.stops[i].Ready?
    case NotifyBy(i, _) => i < |s.stops| && s.stops[i].Won?
  }

  function Apply(s: State, e: Event): State
    requires Enabled(s, e)
  {
    match e
    case StoreRunning => s.(loop := AtCheck, running := true)
    case Check => s.(loop := if s.running then AtWait else Exited)
    case WaitReturns(shutdown) =>
      s.(loop := Dispatching(shutdown), batchesAfterStop := s.batchesAfterStop + if s.running then 0 else 1)
    case Dispatch => s.(loop := AtCheck, counter := if s.loop.shutdown then 0 else s.counter)
    case Exchange(i) =>
      if s.running then s.(running := false, stops := s.stops[i := Won], winner := Some(i))
      else s.(stops := s.stops[i := Lost])
    case NotifyBy(i, written) =>
      if written then s.(counter := s.counter + 1, stops := s.stops[i := Notified], notifies := s.notifies + 1)
      else s.(stops := s.stops[i := Threw])
  }

  function After(calls: nat, es: seq<Event>): Option<State> {
    if es == [] then Some(Init(calls))
    else match After(calls, es[..|es| - 1])
      case None => None
      case Some(s) => if Enabled(s, es[|es| - 1]) then Some(Apply(s, es[|es| - 1])) else None
  }

  predicate WonExchange(pc: StopPc) {
    pc.Won? || pc.Notified? || pc.Threw?
  }

  /** Only the recorded winner has won, and it alone notifies. */
  ghost predicate OneWinner(s: State) {
    && (forall i :: 0 <= i < |s.stops| ==> (WonExchange(s.stops[i]) <==> s.winner == Some(i)))
    && (s.winner.Some? ==> s.winner.value < |s.stops|)
    && s.notifies == (if s.winner.Some? && s.stops[s.winner.value].Notified? then 1 else 0)
  }

  /** After the flag is stored, it is cleared exactly by the winner. */
  ghost predicate FlagFollowsWinner(s: State) {
    && (s.loop.BeforeRun? ==> !s.running && s.winner.None?)
    && (!s.loop.BeforeRun? ==> (s.running <==> s.winner.None?))
    && (s.loop.Exited? ==> !s.running)
  }

  /** Until the loop drains it on its way out, the counter is the number of notifies. */
  ghost predicate WakeupPending(s: State) {
    && s.counter <= s.notifies
    && (s.running || s.loop.AtWait? || s.loop.BeforeRun? ==> s.counter == s.notifies)
    && (s.loop.Dispatching? && s.loop.shutdown ==> !s.running)
  }

  ghost predicate FewBatches(s: State) {
    && s.batchesAfterStop <= 1
    && (s.running || s.loop.AtWait? || s.loop.BeforeRun? ==> s.batchesAfterStop == 0)
  }

  ghost predicate Inv(s: State) {
    OneWinner(s) && FlagFollowsWinner(s) && WakeupPending(s) && FewBatches(s)
  }

  lemma StepInv(s: State, e: Event)
    requires Inv(s) && Enabled(s, e)
    ensures Inv(Apply(s, e))
  {
  }

  lemma {:induction false} RunInv(calls: nat, es: seq<Event>)
    ensures After(calls, es).Some? ==> Inv(After(calls, es).value)
  {
    if es == [] {
    } else {
      RunInv(calls, es[..|es| - 1]);
      var before := After(calls, es[..|es| - 1]);
      if before.Some? && Enabled(before.value, es[|es| - 1]) {
        StepInv(before.value, es[|es| - 1]);
      }
    }
  }

  /** In every interleaving with any number of stop calls: at most one notify happens; once the
      flag that `run` stored has been cleared, exactly one call has won, and all others have
      lost or have still to try; whenever the loop waits with the flag cleared, the eventfd is
      readable exactly when the winner has written, and otherwise the winner has still to
      write or its write threw; and at most one more batch is dispatched after the stop. */
  lemma StopProtocol(calls: nat, es: seq<Event>)
    requires After(calls, es).Some?
    ensures var s := After(calls, es).value;
            && s.notifies <= 1
            && s.batchesAfterStop <= 1
            && (!s.loop.BeforeRun? && !s.running ==>
                  exists i :: 0 <= i < |s.stops| && WonExchange(s.stops[i])
                              && (s.notifies == 1 <==> s.stops[i].Notified?)
                              && (s.loop.AtWait? ==> (s.counter > 0 <==> s.stops[i].Notified?))
                              && forall j :: 0 <= j < |s.stops| && j != i ==> s.stops[j].Ready? || s.stops[j].Lost?)
  {
    RunInv(calls, es);
    var s := After(calls, es).value;
    if !s.loop.BeforeRun? && !s.running {
      var i := s.winner.value;
      assert WonExchange(s.stops[i]);
      forall j | 0 <= j < |s.stops| && j != i ensures s.stops[j].Ready? || s.stops[j].Lost? {
        assert !WonExchange(s.stops[j]);
      }
    }
  }

  // ---- Exactly when a stop takes effect ----

  /** `run` has stored its flag. */
  predicate Started(es: seq<Event>) {
    exists j :: 0 <= j < |es| && es[j].StoreRunning?
  }

  /** Some call of `stop` makes its exchange after `run` has stored its flag. */
  predicate StoppedAfterStart(es: seq<Event>) {
    exists j, k :: 0 <= j < k < |es| && es[j].StoreRunning? && es[k].Exchange?
  }

  lemma StartedSnoc(es: seq<Event>)
    requires es != []
    ensures var init, e := es[..|es| - 1], es[|es| - 1];
            && (Started(es) <==> Started(init) || e.StoreRunning?)
            && (StoppedAfterStart(es) <==> StoppedAfterStart(init) || (Started(init) && e.Exchange?))
  {
    var init, e := es[..|es| - 1], es[|es| - 1];
    if Started(init) {
      var j :| 0 <= j < |init| && init[j].StoreRunning?;
      assert es[j].StoreRunning?;
    }
    if StoppedAfterStart(init) {
      var j, k :| 0 <= j < k < |init| && init[j].StoreRunning? && init[k].Exchange?;
      assert es[j].StoreRunning? && es[k].Exchange?;
    }
    if StoppedAfterStart(es) {
      var j, k :| 0 <= j < k < |es| && es[j].StoreRunning? && es[k].Exchange?;
      assert init[j].StoreRunning?;
    }
  }

  lemma {:induction false} StopsByExchange(calls: nat, es: seq<Event>)
    requires After(calls, es).Some?
    ensures var s := After(calls, es).value;
            && (!s.loop.BeforeRun? <==> Started(es))
            && (s.running <==> Started(es) && !StoppedAfterStart(es))
  {
    if es == [] {
    } else {
      StopsByExchange(calls, es[..|es| - 1]);
      StartedSnoc(es);
    }
  }

  /** In every interleaving, once `run` has stored its flag: the loop has been told to stop
      exactly when some exchange of a stop call follows that store, and it exits only then.
      Calls that come before it are lost: without a later one the loop runs on and nothing has been notified. */
  lemma StopTakesEffectIff(calls: nat, es: seq<Event>)
    requires After(calls, es).Some? && !After(calls, es).value.loop.BeforeRun?
    ensures var s := After(calls, es).value;
            && (!s.running <==> StoppedAfterStart(es))
            && (s.loop.Exited? ==> StoppedAfterStart(es))
            && (!StoppedAfterStart(es) ==>
                  s.notifies == 0 && s.counter == 0
                  && forall i :: 0 <= i < |s.stops| ==> s.stops[i].Ready? || s.stops[i].Lost?)
  {
    StopsByExchange(calls, es);
    RunInv(calls, es);
    var s := After(calls, es).value;
    if s.running {
      forall i | 0 <= i < |s.stops| ensures s.stops[i].Ready? || s.stops[i].Lost? {
        assert !WonExchange(s.stops[i]);
      }
    }
  }

  /** A stop that comes before `run` stores the flag is lost: the loop runs, nothing has been
      notified, and the call is over. */
  lemma EarlyStopIsLost()
    ensures After(1, [Exchange(0), StoreRunning, Check])
            == Some(State(AtWait, true, 0, [Lost], 0, None, 0))
  {
    var es := [Exchange(0), StoreRunning, Check];
    assert es[..2] == [Exchange(0), StoreRunning];
    assert es[..2][..1] == [Exchange(0)];
    assert es[..2][..1][..0] == [];
    assert Init(1).stops[0 := Lost] == [Lost];
    assert After(1, es[..2][..1]) == Some(Init(1).(stops := [Lost]));
    assert After(1, es[..2]) == Some(Init(1).(stops := [Lost], loop := AtCheck, running := true));
  }
}
