/**
 * Numbering and storing. The ingress recorder and the outcome collector draw a number for
 * an event before they take the lock that stores it, so several recording threads
 * interleave as draws and stores.
 */
module Recordings {
  import opened Packets
  import opened Counting
  import opened Replay

  datatype Numbered<T> = Numbered(sequence: nat, value: T)

  /** `next` and `stored` are the fields of the recorder or collector, `hands` is what each
      thread has numbered but not stored, and `drawn` lists the values in numbering order. */
  datatype Recording<T> = Recording(
    next: nat,
    stored: seq<Numbered<T>>,
    hands: seq<Option<Numbered<T>>>,
    drawn: seq<T>)

  datatype Event<T> = Draw(i: nat, value: T) | Store(i: nat)

  function Fresh<T>(threads: nat): Recording<T> {
    Recording(0, [], seq(threads, _ => None), [])
  }

  predicate Can<T>(s: Recording<T>, e: Event<T>) {
    e.i < |s.hands| && (e.Draw? <==> s.hands[e.i].None?)
  }

  function Do<T>(s: Recording<T>, e: Event<T>): Recording<T>
    requires Can(s, e)
  {
    match e
    case Draw(i, v) =>
      s.(next := s.next + 1, hands := s.hands[i := Some(Numbered(s.next, v))], drawn := s.drawn + [v])
    case Store(i) =>
      s.(stored := s.stored + [s.hands[i].value], hands := s.hands[i := None])
  }

  predicate Plays<T>(s: Recording<T>, es: seq<Event<T>>)
    decreases |es|
  {
    es == [] || (Can(s, es[0]) && Plays(Do(s, es[0]), es[1..]))
  }

  function Played<T>(s: Recording<T>, es: seq<Event<T>>): Recording<T>
    requires Plays(s, es)
    decreases |es|
  {
    if es == [] then s else Played(Do(s, es[0]), es[1..])
  }

  ghost predicate Recorded<T(!new)>(threads: nat, s: Recording<T>) {
    exists es :: Plays(Fresh<T>(threads), es) && Played(Fresh<T>(threads), es) == s
  }

  /** No thread is between numbering and storing. */
  predicate AtRest<T>(s: Recording<T>) {
    forall i :: 0 <= i < |s.hands| ==> s.hands[i].None?
  }

  // ---- Numbers are unique and without gaps ----

  function Numbers<T>(ns: seq<Numbered<T>>): seq<nat> {
    seq(|ns|, k requires 0 <= k < |ns| => ns[k].sequence)
  }

  /** The numbers in the threads' hands. */
  function Held<T>(hands: seq<Option<Numbered<T>>>): seq<nat> {
    if hands == [] then []
    else
      var init, last := Held(hands[..|hands| - 1]), hands[|hands| - 1];
      if last.Some? then init + [last.value.sequence] else init
  }

  /** How often `x` is the number in one hand. */
  function InHand<T>(h: Option<Numbered<T>>, x: nat): nat {
    if h.Some? && h.value.sequence == x then 1 else 0
  }

  lemma {:induction false} HandsUpdate<T>(hands: seq<Option<Numbered<T>>>, i: nat, h: Option<Numbered<T>>, x: nat)
    requires i < |hands|
    ensures Occurs(Held(hands[i := h]), x) + InHand(hands[i], x) == Occurs(Held(hands), x) + InHand(h, x)
    ensures |Held(hands[i := h])| + (if hands[i].Some? then 1 else 0) == |Held(hands)| + if h.Some? then 1 else 0
  {
    var n := |hands| - 1;
    if i == n {
      assert hands[i := h][..n] == hands[..n];
    } else {
      HandsUpdate(hands[..n], i, h, x);
      assert hands[i := h][..n] == hands[..n][i := h];
    }
    HeldSnoc(hands, x);
    HeldSnoc(hands[i := h], x);
  }

  lemma HeldSnoc<T>(hands: seq<Option<Numbered<T>>>, x: nat)
    requires hands != []
    ensures Occurs(Held(hands), x) == Occurs(Held(hands[..|hands| - 1]), x) + InHand(hands[|hands| - 1], x)
  {
    if hands[|hands| - 1].Some? {
      OccursSnoc(Held(hands[..|hands| - 1]), hands[|hands| - 1].value.sequence, x);
    }
  }

  lemma {:induction false} EmptyHands<T>(hands: seq<Option<Numbered<T>>>)
    requires forall i :: 0 <= i < |hands| ==> hands[i].None?
    ensures Held(hands) == []
  {
    if hands == [] {
    } else {
      EmptyHands(hands[..|hands| - 1]);
    }
  }

  /** Number `x` has been handed out once if it is below `next`, and never otherwise. */
  predicate OnceEach<T>(s: Recording<T>, x: nat) {
    && Occurs(Numbers(s.stored), x) + Occurs(Held(s.hands), x) == (if x < s.next then 1 else 0)
    && |s.stored| + |Held(s.hands)| == s.next
  }

  /** Each number leads back to the value that drew it. */
  predicate Faithful<T(==)>(s: Recording<T>) {
    && |s.drawn| == s.next
    && (forall k :: 0 <= k < |s.stored| ==> Names(s.drawn, s.stored[k]))
    && (forall i :: 0 <= i < |s.hands| && s.hands[i].Some? ==> Names(s.drawn, s.hands[i].value))
  }

  predicate Names<T(==)>(drawn: seq<T>, n: Numbered<T>) {
    n.sequence < |drawn| && drawn[n.sequence] == n.value
  }

  lemma DoOnceEach<T>(s: Recording<T>, e: Event<T>, x: nat)
    requires Can(s, e) && OnceEach(s, x)
    ensures OnceEach(Do(s, e), x)
  {
    var s' := Do(s, e);
    HandsUpdate(s.hands, e.i, s'.hands[e.i], x);
    if e.Store? {
      assert Numbers(s'.stored) == Numbers(s.stored) + [s.hands[e.i].value.sequence];
      OccursSnoc(Numbers(s.stored), s.hands[e.i].value.sequence, x);
    }
  }

  lemma DoFaithful<T>(s: Recording<T>, e: Event<T>)
    requires Can(s, e) && Faithful(s)
    ensures Faithful(Do(s, e))
  {
  }

  lemma FreshInv<T>(threads: nat, x: nat)
    ensures OnceEach(Fresh<T>(threads), x) && Faithful(Fresh<T>(threads)) && AtRest(Fresh<T>(threads))
  {
    EmptyHands(Fresh<T>(threads).hands);
  }

  lemma {:induction false} PlayedInv<T>(s: Recording<T>, es: seq<Event<T>>, x: nat)
    requires Plays(s, es) && OnceEach(s, x) && Faithful(s)
    ensures OnceEach(Played(s, es), x) && Faithful(Played(s, es))
    decreases |es|
  {
    if es == [] {
    } else {
      DoOnceEach(s, es[0], x);
      DoFaithful(s, es[0]);
      PlayedInv(Do(s, es[0]), es[1..], x);
    }
  }

  /** With any number of recording threads, every stored number names its value and no number
      is stored twice; once no thread is between numbering and storing, the stored numbers
      are 0, 1, ..., each exactly once. */
  lemma NumbersAreUnique<T(!new)>(threads: nat, s: Recording<T>, x: nat)
    requires Recorded(threads, s)
    ensures Faithful(s) && Occurs(Numbers(s.stored), x) <= 1
    ensures AtRest(s) ==>
              |s.stored| == s.next == |s.drawn| && Occurs(Numbers(s.stored), x) == if x < |s.stored| then 1 else 0
  {
    var es :| Plays(Fresh<T>(threads), es) && Played(Fresh<T>(threads), es) == s;
    FreshInv<T>(threads, x);
    PlayedInv(Fresh<T>(threads), es, x);
    if AtRest(s) {
      EmptyHands(s.hands);
    }
  }

  // ---- When the stored order is the numbering order ----

  /** The position in the vector is the number. */
  predicate InOrder<T>(s: Recording<T>) {
    forall k :: 0 <= k < |s.stored| ==> s.stored[k].sequence == k
  }

  /** One event at a time: at most one hand is occupied, and it has the next number. */
  predicate OneAtATime<T>(s: Recording<T>) {
    && InOrder(s)
    && (forall i, j :: 0 <= i < j < |s.hands| ==> s.hands[i].None? || s.hands[j].None?)
    && (forall i :: 0 <= i < |s.hands| && s.hands[i].Some? ==>
          s.next == |s.stored| + 1 && s.hands[i].value.sequence == |s.stored|)
    && (AtRest(s) ==> s.next == |s.stored|)
  }

  lemma FreshAlone<T>(threads: nat)
    ensures OneAtATime(Fresh<T>(threads)) && |Fresh<T>(threads).hands| == threads
  {
  }

  lemma DrawAlone<T>(s: Recording<T>, e: Event<T>)
    requires Can(s, e) && e.Draw? && OneAtATime(s) && AtRest(s)
    ensures OneAtATime(Do(s, e))
  {
    assert Do(s, e).hands[e.i].Some?;
  }

  lemma StoreAlone<T>(s: Recording<T>, e: Event<T>)
    requires Can(s, e) && e.Store? && OneAtATime(s)
    ensures OneAtATime(Do(s, e)) && AtRest(Do(s, e))
  {
  }

  /** Values numbered by their position. */
  function Sequenced<T>(vs: seq<T>): seq<Numbered<T>> {
    seq(|vs|, k requires 0 <= k < |vs| => Numbered(k, vs[k]))
  }

  function Values<T>(ns: seq<Numbered<T>>): seq<T> {
    seq(|ns|, k requires 0 <= k < |ns| => ns[k].value)
  }

  /** One event at a time leaves the values in numbering order. */
  lemma StoredInOrder<T>(s: Recording<T>)
    requires OneAtATime(s) && AtRest(s) && Faithful(s)
    ensures s.stored == Sequenced(s.drawn) && Values(s.stored) == s.drawn
  {
    forall k | 0 <= k < |s.stored| ensures s.stored[k] == Numbered(k, s.drawn[k]) {
      assert Names(s.drawn, s.stored[k]);
    }
  }

  lemma {:induction false} PlayedAlone<T>(s: Recording<T>, es: seq<Event<T>>)
    requires Plays(s, es) && |s.hands| <= 1 && OneAtATime(s)
    ensures OneAtATime(Played(s, es))
    decreases |es|
  {
    if es == [] {
    } else {
      if es[0].Draw? {
        DrawAlone(s, es[0]);
      } else {
        StoreAlone(s, es[0]);
      }
      PlayedAlone(Do(s, es[0]), es[1..]);
    }
  }

  /** A recorder that one thread feeds gives back, at rest, the stream that it was fed. */
  lemma OneThreadRecordsStream<T(!new)>(s: Recording<T>)
    requires Recorded(1, s) && AtRest(s)
    ensures s.stored == Sequenced(s.drawn) && Values(s.stored) == s.drawn
  {
    var es :| Plays(Fresh<T>(1), es) && Played(Fresh<T>(1), es) == s;
    PlayedAlone(Fresh<T>(1), es);
    NumbersAreUnique(1, s, 0);
    StoredInOrder(s);
  }

  /** Two threads that draw in one order and store in the other. */
  lemma Overtaken<T(!new)>(threads: nat, v: T) returns (s: Recording<T>)
    requires threads >= 2
    ensures Recorded(threads, s) && s.stored == [Numbered(1, v), Numbered(0, v)]
  {
    var s0 := Fresh<T>(threads);
    var es := [Draw(0, v), Draw(1, v), Store(1), Store(0)];
    var s1 := Do(s0, es[0]);
    var s2 := Do(s1, es[1]);
    var s3 := Do(s2, es[2]);
    s := Do(s3, es[3]);
    assert es[1..][0] == es[1] && es[1..][1..][0] == es[2] && es[1..][1..][1..] == [es[3]];
    assert Plays(s3, [es[3]]) && Played(s3, [es[3]]) == s;
    assert Plays(s2, es[1..][1..]) && Played(s2, es[1..][1..]) == s;
    assert Plays(s1, es[1..]) && Played(s1, es[1..]) == s;
    assert Plays(s0, es) && Played(s0, es) == s;
  }

  /** The stored order is the numbering order in every run exactly when at most one thread
      records. */
  lemma InOrderIffAlone<T(!new)>(threads: nat, v: T)
    ensures (forall s: Recording<T> :: Recorded(threads, s) ==> InOrder(s)) <==> threads <= 1
  {
    if threads <= 1 {
      forall s: Recording<T> | Recorded(threads, s) ensures InOrder(s) {
        var es :| Plays(Fresh<T>(threads), es) && Played(Fresh<T>(threads), es) == s;
        PlayedAlone(Fresh<T>(threads), es);
      }
    } else {
      var s := Overtaken(threads, v);
      assert s.stored[0].sequence == 1;
    }
  }

  // ---- The classes: each method is one atomic section of a recording thread ----

  class ReplayRecorder {
    var nextSequence: nat
    var records: seq<Numbered<Packet>>
    var hands: seq<Option<Numbered<Packet>>>
    ghost var drawn: seq<Packet>

    ghost function View(): Recording<Packet>
      reads this
    {
      Recording(nextSequence, records, hands, drawn)
    }

    constructor (threads: nat)
      ensures View() == Fresh(threads)
    {
      nextSequence, records, hands, drawn := 0, [], seq(threads, _ => None), [];
    }

    /** The atomic increment, by thread `i`. */
    method DrawRecord(i: nat, p: Packet)
      requires Can(View(), Draw(i, p))
      modifies this
      ensures View() == Do(old(View()), Draw(i, p))
    {
      var sequence := nextSequence;
      nextSequence := nextSequence + 1;
      hands := hands[i := Some(Numbered(sequence, p))];
      drawn := drawn + [p];
    }

    /** The locked append, by thread `i`. */
    method StoreRecord(i: nat)
      requires Can(View(), Store(i))
      modifies this
      ensures View() == Do(old(View()), Store(i))
    {
      records := records + [hands[i].value];
      hands := hands[i := None];
    }
  }

  class ReplayOutcomeCollector {
    var nextSequence: nat
    var outcomes: seq<Numbered<Outcome>>
    var hands: seq<Option<Numbered<Outcome>>>
    ghost var drawn: seq<Outcome>

    ghost function View(): Recording<Outcome>
      reads this
    {
      Recording(nextSequence, outcomes, hands, drawn)
    }

    constructor (threads: nat)
      ensures View() == Fresh(threads)
    {
      nextSequence, outcomes, hands, drawn := 0, [], seq(threads, _ => None), [];
    }

    /** The atomic increment of `recordProcessed`, by thread `i`. */
    method DrawProcessed(i: nat, p: Packet)
      requires Can(View(), Draw(i, OutcomeOf(Processed(p))))
      modifies this
      ensures View() == Do(old(View()), Draw(i, OutcomeOf(Processed(p))))
      ensures hands[i] == Some(Numbered(old(nextSequence), Outcome(true, p.lifecycleId, Unknown)))
    {
      var outcome := Outcome(true, p.lifecycleId, Unknown);
      hands := hands[i := Some(Numbered(nextSequence, outcome))];
      nextSequence := nextSequence + 1;
      drawn := drawn + [outcome];
    }

    /** The atomic increment of `recordDropped`, by thread `i`. */
    method DrawDropped(i: nat, d: PacketDropped)
      requires Can(View(), Draw(i, OutcomeOf(Dropped(d))))
      modifies this
      ensures View() == Do(old(View()), Draw(i, OutcomeOf(Dropped(d))))
      ensures hands[i] == Some(Numbered(old(nextSequence), Outcome(false, d.lifecycleId, d.reason)))
    {
      var outcome := Outcome(false, d.lifecycleId, d.reason);
      hands := hands[i := Some(Numbered(nextSequence, outcome))];
      nextSequence := nextSequence + 1;
      drawn := drawn + [outcome];
    }

    /** The locked append of both, by thread `i`. */
    method StoreOutcome(i: nat)
      requires Can(View(), Store(i))
      modifies this
      ensures View() == Do(old(View()), Store(i))
    {
      outcomes := outcomes + [hands[i].value];
      hands := hands[i := None];
    }
  }

  class ReplayPlayer {
    /** The packets published as `PacketRx`. */
    var published: seq<Packet>

    constructor ()
      ensures published == []
    {
      published := [];
    }

    method Replay(records: seq<Numbered<Packet>>)
      modifies this
      ensures published == old(published) + Values(records)
    {
      for k := 0 to |records|
        invariant published == old(published) + Values(records[..k])
      {
        assert Values(records[..k + 1]) == Values(records[..k]) + [records[k].value];
        published := published + [records[k].value];
      }
      assert records[..|records|] == records;
    }
  }
}
