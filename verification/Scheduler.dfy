/**
 * The ordered, bounded scheduler: a deque of futures of which the first `n` are polled,
 * and whose outputs are yielded from the front only. A future is a script that says what
 * each successive poll answers.
 */
module Scheduler {
  import opened Base

  /** A future: its identity and the answer of its k-th poll. */
  datatype Future<T> = Future(id: nat, script: nat -> Option<T>)

  /** One slot of the deque. `Ready` keeps the finished future for the record only. */
  datatype Slot<T> =
    | New(future: Future<T>)
    | Pending(future: Future<T>, polls: nat)
    | Ready(future: Future<T>, polls: nat, output: T)

  datatype Event<T> = Polled(id: nat) | Completed(id: nat, output: T) | Yielded(id: nat, output: T)

  datatype Poll<T> = Done | Item(value: T) | NotYet

  /** The deque, the limit, the number of futures pushed so far and everything that happened. */
  datatype State<T> = State(slots: seq<Slot<T>>, n: Option<nat>, pushed: nat, log: seq<Event<T>>)

  function Started<T>(s: Slot<T>): nat {
    if s.New? then 0 else s.polls
  }

  /** Polling a slot: completed ones are left alone. */
  function PollSlot<T>(s: Slot<T>): (Slot<T>, seq<Event<T>>) {
    if s.Ready? then (s, [])
    else
      var k := Started(s);
      match s.future.script(k)
      case Some(out) => (Ready(s.future, k + 1, out), [Polled(s.future.id), Completed(s.future.id, out)])
      case None => (Pending(s.future, k + 1), [Polled(s.future.id)])
  }

  function PollAt<T>(s: State<T>, i: nat): (r: State<T>)
    requires i < |s.slots|
    ensures |r.slots| == |s.slots|
  {
    var (slot, events) := PollSlot(s.slots[i]);
    s.(slots := s.slots[i := slot], log := s.log + events)
  }

  /** Polling the first `k` slots in order. */
  function PollFirst<T>(s: State<T>, k: nat): (r: State<T>)
    requires k <= |s.slots|
    ensures |r.slots| == |s.slots|
  {
    if k == 0 then s else PollAt(PollFirst(s, k - 1), k - 1)
  }

  /** How many slots a call polls. */
  function Limit<T>(s: State<T>): (k: nat)
    ensures k <= |s.slots|
  {
    if s.n.Some? && s.n.value < |s.slots| then s.n.value else |s.slots|
  }

  function PollNext<T>(s: State<T>): (Poll<T>, State<T>) {
    if s.slots == [] || s.n == Some(0) then (Done, s)
    else
      var polled := PollFirst(s, Limit(s));
      var front := polled.slots[0];
      if front.Ready? then
        (Item(front.output), polled.(slots := polled.slots[1..], log := polled.log + [Yielded(front.future.id, front.output)]))
      else (NotYet, polled)
  }

  datatype Op<T> =
    | PushFront(script: nat -> Option<T>)
    | PushBack(script: nat -> Option<T>)
    | SetN(n: Option<nat>)
    | IncrementN
    | DecrementN
    | Next

  /** A change of the limit by one, on `usize`. */
  function Bump(n: Option<nat>, delta: int): Option<nat> {
    match n
    case None => None
    case Some(v) => Some((v + delta) % TWO_64)
  }

  function Apply<T>(s: State<T>, op: Op<T>): State<T> {
    match op
    case PushFront(script) => s.(slots := [New(Future(s.pushed, script))] + s.slots, pushed := s.pushed + 1)
    case PushBack(script) => s.(slots := s.slots + [New(Future(s.pushed, script))], pushed := s.pushed + 1)
    case SetN(n) => s.(n := n)
    case IncrementN => s.(n := Bump(s.n, 1))
    case DecrementN => s.(n := Bump(s.n, -1))
    case Next => PollNext(s).1
  }

  function Run<T>(s: State<T>, ops: seq<Op<T>>): State<T>
    decreases |ops|
  {
    if ops == [] then s else Run(Apply(s, ops[0]), ops[1..])
  }

  // ------------------------------------------------------------- the object

  class Stream<T> {
    var slots: seq<Slot<T>>
    var n: Option<nat>
    ghost var pushed: nat
    ghost var log: seq<Event<T>>

    ghost function Current(): State<T>
      reads this
    {
      State(slots, n, pushed, log)
    }

    constructor (n: Option<nat>)
      ensures Current() == State([], n, 0, [])
    {
      slots, this.n, pushed, log := [], n, 0, [];
    }

    method PushBackFuture(f: Future<T>)
      requires f.id == pushed
      modifies this
      ensures Current() == Apply(old(Current()), PushBack(f.script))
    {
      slots := slots + [New(f)];
      pushed := pushed + 1;
    }

    method PushFrontFuture(f: Future<T>)
      requires f.id == pushed
      modifies this
      ensures Current() == Apply(old(Current()), PushFront(f.script))
    {
      slots := [New(f)] + slots;
      pushed := pushed + 1;
    }

    method ChangeN(delta: int)
      modifies `n
      ensures n == Bump(old(n), delta)
    {
      if n.Some? {
        n := Some((n.value + delta) % TWO_64);
      }
    }

    method PollNextItem() returns (r: Poll<T>)
      modifies this
      ensures (r, Current()) == PollNext(old(Current()))
    {
      var len := |slots|;
      if len == 0 || (n.Some? && n.value == 0) {
        return Done;
      }
      var take := if n.Some? && n.value < len then n.value else len;
      for i := 0 to take
        invariant |slots| == len
        invariant Current() == PollFirst(old(Current()), i)
      {
        var (slot, events) := PollSlot(slots[i]);
        slots := slots[i := slot];
        log := log + events;
      }
      if slots[0].Ready? {
        var front := slots[0];
        slots := slots[1..];
        log := log + [Yielded(front.future.id, front.output)];
        return Item(front.output);
      }
      r := NotYet;
    }
  }

  // ------------------------------------------------- the life of one future

  datatype Life<T> = Untouched | Running(polls: nat) | Finished(output: T) | Delivered | Broken

  /** What the log says about one future; `Broken` if an event came where it must not. */
  ghost function LifeOf<T>(log: seq<Event<T>>, id: nat): Life<T> {
    if log == [] then Untouched
    else
      var before := LifeOf(log[..|log| - 1], id);
      var e := log[|log| - 1];
      if e.id != id then before
      else match e
        case Polled(_) =>
          (match before
           case Untouched => Running(1)
           case Running(k) => Running(k + 1)
           case _ => Broken)
        case Completed(_, out) => if before.Running? then Finished(out) else Broken
        case Yielded(_, out) => if before == Finished(out) then Delivered else Broken
  }

  lemma LifeStep<T>(log: seq<Event<T>>, e: Event<T>, id: nat)
    ensures LifeOf(log + [e], id) ==
            if e.id != id then LifeOf(log, id)
            else match e
              case Polled(_) =>
                (match LifeOf(log, id)
                 case Untouched => Running(1)
                 case Running(k) => Running(k + 1)
                 case _ => Broken)
              case Completed(_, out) => if LifeOf(log, id).Running? then Finished(out) else Broken
              case Yielded(_, out) => if LifeOf(log, id) == Finished(out) then Delivered else Broken
  {
    assert (log + [e])[..|log|] == log;
  }

  /** The slot and its future's script and history agree. */
  ghost predicate Faithful<T>(s: Slot<T>, log: seq<Event<T>>) {
    var id := s.future.id;
    match s
    case New(_) => LifeOf(log, id) == Untouched
    case Pending(f, k) =>
      k >= 1 && LifeOf(log, id) == Running(k) && forall j: nat :: j < k ==> f.script(j).None?
    case Ready(f, k, out) =>
      k >= 1 && LifeOf(log, id) == Finished(out) && f.script(k - 1) == Some(out)
      && forall j: nat :: j < k - 1 ==> f.script(j).None?
  }

  ghost predicate Waiting<T>(slots: seq<Slot<T>>, id: nat) {
    exists i :: 0 <= i < |slots| && slots[i].future.id == id
  }

  /** Every pushed future is in exactly one slot or has been delivered; nothing was ever polled or yielded out of turn. */
  ghost predicate Inv<T>(s: State<T>) {
    && (forall i :: 0 <= i < |s.slots| ==> s.slots[i].future.id < s.pushed && Faithful(s.slots[i], s.log))
    && (forall i, j :: 0 <= i < j < |s.slots| ==> s.slots[i].future.id != s.slots[j].future.id)
    && (forall id: nat :: id < s.pushed && !Waiting(s.slots, id) ==> LifeOf(s.log, id) == Delivered)
    && (forall id: nat :: id >= s.pushed ==> LifeOf(s.log, id) == Untouched)
  }

  lemma PollSlotFaithful<T>(s: Slot<T>, log: seq<Event<T>>)
    requires Faithful(s, log)
    ensures Faithful(PollSlot(s).0, log + PollSlot(s).1)
    ensures PollSlot(s).0.future == s.future
    ensures forall id: nat :: id != s.future.id ==> LifeOf(log + PollSlot(s).1, id) == LifeOf(log, id)
  {
    var (slot, events) := PollSlot(s);
    var me := s.future.id;
    if events == [] {
      assert log + [] == log;
    } else {
      var first := log + [events[0]];
      forall id: nat
        ensures id != me ==> LifeOf(first, id) == LifeOf(log, id)
      {
        LifeStep(log, events[0], id);
      }
      LifeStep(log, events[0], me);
      if |events| == 1 {
        assert log + events == first;
      } else {
        assert log + events == first + [events[1]];
        forall id: nat
          ensures id != me ==> LifeOf(log + events, id) == LifeOf(log, id)
        {
          LifeStep(first, events[1], id);
        }
        LifeStep(first, events[1], me);
      }
    }
  }

  lemma FaithfulElsewhere<T>(s: Slot<T>, log: seq<Event<T>>, log': seq<Event<T>>)
    requires Faithful(s, log) && LifeOf(log', s.future.id) == LifeOf(log, s.future.id)
    ensures Faithful(s, log')
  {}

  /** Polling one slot keeps the invariant. */
  lemma PollOneKeeps<T>(s: State<T>, i: nat)
    requires Inv(s) && i < |s.slots|
    ensures Inv(PollAt(s, i))
  {
    var s' := PollAt(s, i);
    PollSlotFaithful(s.slots[i], s.log);
    forall j | 0 <= j < |s'.slots|
      ensures s'.slots[j].future == s.slots[j].future && Faithful(s'.slots[j], s'.log)
    {
      if j != i {
        assert s.slots[j].future.id != s.slots[i].future.id;
        FaithfulElsewhere(s.slots[j], s.log, s'.log);
      }
    }
    SameFutures(s.slots, s'.slots);
    assert Waiting(s.slots, s.slots[i].future.id);
  }

  lemma WaitingCons<T>(x: Slot<T>, xs: seq<Slot<T>>)
    ensures forall id: nat :: Waiting([x] + xs, id) <==> id == x.future.id || Waiting(xs, id)
  {
    forall id: nat
      ensures Waiting([x] + xs, id) <==> id == x.future.id || Waiting(xs, id)
    {
      assert ([x] + xs)[0] == x;
      if Waiting(xs, id) {
        var i :| 0 <= i < |xs| && xs[i].future.id == id;
        assert ([x] + xs)[i + 1].future.id == id;
      }
    }
  }

  lemma WaitingSnoc<T>(xs: seq<Slot<T>>, x: Slot<T>)
    ensures forall id: nat :: Waiting(xs + [x], id) <==> id == x.future.id || Waiting(xs, id)
  {
    forall id: nat
      ensures Waiting(xs + [x], id) <==> id == x.future.id || Waiting(xs, id)
    {
      assert (xs + [x])[|xs|] == x;
      if Waiting(xs, id) {
        var i :| 0 <= i < |xs| && xs[i].future.id == id;
        assert (xs + [x])[i].future.id == id;
      }
    }
  }

  lemma SameFutures<T>(xs: seq<Slot<T>>, ys: seq<Slot<T>>)
    requires |xs| == |ys| && forall j :: 0 <= j < |xs| ==> xs[j].future == ys[j].future
    ensures forall id: nat :: Waiting(xs, id) <==> Waiting(ys, id)
  {
    forall id: nat
      ensures Waiting(xs, id) <==> Waiting(ys, id)
    {
      if Waiting(xs, id) {
        var i :| 0 <= i < |xs| && xs[i].future.id == id;
        assert ys[i].future.id == id;
      }
      if Waiting(ys, id) {
        var i :| 0 <= i < |ys| && ys[i].future.id == id;
        assert xs[i].future.id == id;
      }
    }
  }

  lemma {:induction false} PollFirstKeeps<T>(s: State<T>, k: nat)
    requires Inv(s) && k <= |s.slots|
    ensures Inv(PollFirst(s, k))
    decreases k
  {
    if k > 0 {
      PollFirstKeeps(s, k - 1);
      PollOneKeeps(PollFirst(s, k - 1), k - 1);
    }
  }

  lemma YieldKeeps<T>(s: State<T>)
    requires Inv(s) && s.slots != [] && s.slots[0].Ready?
    ensures
      var front := s.slots[0];
      Inv(s.(slots := s.slots[1..], log := s.log + [Yielded(front.future.id, front.output)]))
  {
    var front := s.slots[0];
    var e := Yielded(front.future.id, front.output);
    var s' := s.(slots := s.slots[1..], log := s.log + [e]);
    forall id: nat
      ensures LifeOf(s'.log, id) == if id == front.future.id then Delivered else LifeOf(s.log, id)
    {
      LifeStep(s.log, e, id);
    }
    forall j | 0 <= j < |s'.slots|
      ensures Faithful(s'.slots[j], s'.log)
    {
      assert s'.slots[j] == s.slots[j + 1] && s.slots[0].future.id != s.slots[j + 1].future.id;
      FaithfulElsewhere(s'.slots[j], s.log, s'.log);
    }
    assert s.slots == [front] + s'.slots;
    WaitingCons(front, s'.slots);
  }

  lemma PushKeeps<T>(s: State<T>, script: nat -> Option<T>, front: bool)
    requires Inv(s)
    ensures Inv(Apply(s, if front then PushFront(script) else PushBack(script)))
  {
    var slot := New(Future(s.pushed, script));
    var s' := Apply(s, if front then PushFront(script) else PushBack(script));
    WaitingCons(slot, s.slots);
    WaitingSnoc(s.slots, slot);
  }

  lemma ApplyKeeps<T>(s: State<T>, op: Op<T>)
    requires Inv(s)
    ensures Inv(Apply(s, op))
  {
    match op
    case PushFront(script) => PushKeeps(s, script, true);
    case PushBack(script) => PushKeeps(s, script, false);
    case Next =>
      if s.slots != [] && s.n != Some(0) {
        PollFirstKeeps(s, Limit(s));
        if PollFirst(s, Limit(s)).slots[0].Ready? {
          YieldKeeps(PollFirst(s, Limit(s)));
        }
      }
    case _ =>
  }

  lemma {:induction false} RunKeeps<T>(s: State<T>, ops: seq<Op<T>>)
    requires Inv(s)
    ensures Inv(Run(s, ops))
    decreases |ops|
  {
    if ops != [] {
      ApplyKeeps(s, ops[0]);
      RunKeeps(Apply(s, ops[0]), ops[1..]);
    }
  }

  // --------------------------------------------------------------- theorems

  ghost predicate Fresh<T>(s: State<T>) {
    s.slots == [] && s.pushed == 0 && s.log == []
  }

  /**
   * In every run no future is polled after it completed, each completes and is yielded at most
   * once and with its own output, and every future still waiting is exactly as far as the log says.
   */
  lemma NoFutureIsMisused<T>(s: State<T>, ops: seq<Op<T>>, id: nat)
    requires Fresh(s)
    ensures !LifeOf(Run(s, ops).log, id).Broken?
    ensures LifeOf(Run(s, ops).log, id).Delivered? <==> id < Run(s, ops).pushed && !Waiting(Run(s, ops).slots, id)
  {
    RunKeeps(s, ops);
    var s' := Run(s, ops);
    if Waiting(s'.slots, id) {
      var i :| 0 <= i < |s'.slots| && s'.slots[i].future.id == id;
      assert Faithful(s'.slots[i], s'.log);
    }
  }

  /** A call polls only the first `n` slots, each unfinished one exactly once and in order. */
  lemma {:induction false} OnlyFirstSlotsPolled<T>(s: State<T>, k: nat)
    requires k <= |s.slots|
    ensures PollFirst(s, k).slots[k..] == s.slots[k..]
    ensures forall i :: 0 <= i < k ==> PollFirst(s, k).slots[i] == PollSlot(s.slots[i]).0
    ensures PollFirst(s, k).log == s.log + Events(s.slots[..k])
    ensures PollFirst(s, k).n == s.n && PollFirst(s, k).pushed == s.pushed
    decreases k
  {
    if k == 0 {
      assert s.log + [] == s.log;
    } else {
      OnlyFirstSlotsPolled(s, k - 1);
      var before := PollFirst(s, k - 1);
      assert before.slots[k - 1] == before.slots[k - 1..][0] == s.slots[k - 1];
      assert s.slots[..k][..k - 1] == s.slots[..k - 1];
      assert PollFirst(s, k).slots[k..] == before.slots[k - 1..][1..];
      assert s.slots[k..] == s.slots[k - 1..][1..];
    }
  }

  ghost function Events<T>(slots: seq<Slot<T>>): seq<Event<T>> {
    if slots == [] then [] else Events(slots[..|slots| - 1]) + PollSlot(slots[|slots| - 1]).1
  }

  /** An item is yielded exactly when polling leaves the front slot ready, and it is that slot's output. */
  lemma YieldsOnlyFromFront<T>(s: State<T>)
    requires s.slots != [] && s.n != Some(0)
    ensures
      var (r, s') := PollNext(s);
      var front := PollSlot(s.slots[0]).0;
      && (r.Item? <==> front.Ready?) && !r.Done?
      && (r.Item? ==> r.value == front.output && |s'.slots| == |s.slots| - 1
                      && s'.log == s.log + Events(s.slots[..Limit(s)]) + [Yielded(front.future.id, front.output)])
      && (r.NotYet? ==> s'.log == s.log + Events(s.slots[..Limit(s)]))
  {
    OnlyFirstSlotsPolled(s, Limit(s));
  }

  lemma PolledSlot<T>(s: State<T>, k: nat, i: nat)
    requires k <= |s.slots| && i < |s.slots|
    ensures PollFirst(s, k).slots[i] == if i < k then PollSlot(s.slots[i]).0 else s.slots[i]
  {
    OnlyFirstSlotsPolled(s, k);
    if i >= k {
      assert PollFirst(s, k).slots[i] == PollFirst(s, k).slots[k..][i - k] && s.slots[i] == s.slots[k..][i - k];
    }
  }

  /** The stream ends exactly while nothing waits or the limit is 0, and an ended poll changes nothing. */
  lemma EndsExactly<T>(s: State<T>)
    ensures PollNext(s).0.Done? <==> s.slots == [] || s.n == Some(0)
    ensures PollNext(s).0.Done? ==> PollNext(s).1 == s
  {}

  /**
   * One call polls every slot before the limit, all of them without a limit, and touches no other;
   * a yielded front makes the rest move up by one.
   */
  lemma EverySlotWithinTheLimitIsPolled<T>(s: State<T>, i: nat)
    requires s.slots != [] && s.n != Some(0) && i < |s.slots|
    ensures
      var (r, s') := PollNext(s);
      var gone := if r.Item? then 1 else 0;
      && |s'.slots| == |s.slots| - gone
      && (gone <= i ==>
            s'.slots[i - gone] == if s.n.Some? && s.n.value <= i then s.slots[i] else PollSlot(s.slots[i]).0)
  {
    PolledSlot(s, Limit(s), i);
  }

  /** A future pushed to the front is the next to be yielded, at its first poll if it is ready by then. */
  lemma PushedFrontIsNext<T>(s: State<T>, script: nat -> Option<T>)
    requires s.n != Some(0)
    ensures
      var s1 := Apply(s, PushFront(script));
      var (r, s2) := PollNext(s1);
      if script(0).Some? then r == Item(script(0).value) && |s2.slots| == |s.slots|
      else r.NotYet? && s2.slots[0] == Pending(Future(s.pushed, script), 1)
  {
    var s1 := Apply(s, PushFront(script));
    YieldsOnlyFromFront(s1);
    EverySlotWithinTheLimitIsPolled(s1, 0);
  }

  /** Raising the limit by one lets one more slot be polled; lowering it takes that back. */
  lemma LimitMovesByOne<T>(s: State<T>)
    requires s.n.Some? && s.n.value < TWO_64 - 1
    ensures var up := Apply(s, IncrementN);
            Limit(up) == (if s.n.value < |s.slots| then Limit(s) + 1 else Limit(s)) && Apply(up, DecrementN) == s
  {}

  /** A limit that is set counts at once; lowering a limit of 0 wraps and so lifts it. */
  lemma LimitIsSet<T>(s: State<T>, n: Option<nat>)
    ensures Limit(Apply(s, SetN(n))) == (if n.Some? && n.value < |s.slots| then n.value else |s.slots|)
    ensures s.n == Some(0) && |s.slots| < TWO_64 ==> Limit(Apply(s, DecrementN)) == |s.slots|
  {}

  // ------------------------------- pushing at the back with a constant limit

  ghost predicate InOrderOp<T>(op: Op<T>) {
    op.PushBack? || op.Next?
  }

  ghost function YieldedIds<T>(log: seq<Event<T>>): seq<nat> {
    if log == [] then []
    else
      var e := log[|log| - 1];
      YieldedIds(log[..|log| - 1]) + (if e.Yielded? then [e.id] else [])
  }

  ghost function Upto(k: nat): (r: seq<nat>)
    ensures |r| == k && forall i :: 0 <= i < k ==> r[i] == i
  {
    seq(k, i requires i >= 0 => i)
  }

  /** The futures wait in push order behind the yielded ones, and only the first `n` have been started. */
  ghost predicate InOrder<T>(s: State<T>) {
    && |s.slots| <= s.pushed
    && YieldedIds(s.log) == Upto(s.pushed - |s.slots|)
    && (forall i :: 0 <= i < |s.slots| ==> s.slots[i].future.id == s.pushed - |s.slots| + i)
    && (s.n.Some? ==> forall i :: s.n.value <= i < |s.slots| ==> s.slots[i].New?)
  }

  lemma {:induction false} NothingYielded<T>(log: seq<Event<T>>, es: seq<Event<T>>)
    requires forall i :: 0 <= i < |es| ==> !es[i].Yielded?
    ensures YieldedIds(log + es) == YieldedIds(log)
    decreases |es|
  {
    if es == [] {
      assert log + es == log;
    } else {
      var n := |es| - 1;
      NothingYielded(log, es[..n]);
      assert (log + es)[..|log + es| - 1] == log + es[..n];
      assert YieldedIds(log) + [] == YieldedIds(log);
    }
  }

  lemma {:induction false} EventsYieldNothing<T>(slots: seq<Slot<T>>)
    ensures forall i :: 0 <= i < |Events(slots)| ==> !Events(slots)[i].Yielded?
    decreases |slots|
  {
    if slots != [] { EventsYieldNothing(slots[..|slots| - 1]); }
  }

  lemma InOrderPolled<T>(s: State<T>)
    requires InOrder(s)
    ensures InOrder(PollFirst(s, Limit(s)))
  {
    var k := Limit(s);
    var polled := PollFirst(s, k);
    OnlyFirstSlotsPolled(s, k);
    EventsYieldNothing(s.slots[..k]);
    NothingYielded(s.log, Events(s.slots[..k]));
    forall i | 0 <= i < |s.slots|
      ensures polled.slots[i].future == s.slots[i].future
      ensures i >= k ==> polled.slots[i] == s.slots[i]
    {
      if i >= k {
        assert polled.slots[i] == polled.slots[k..][i - k] && s.slots[i] == s.slots[k..][i - k];
      }
    }
  }

  lemma InOrderYield<T>(s: State<T>)
    requires InOrder(s) && s.slots != [] && s.slots[0].Ready?
    ensures
      var front := s.slots[0];
      InOrder(s.(slots := s.slots[1..], log := s.log + [Yielded(front.future.id, front.output)]))
  {
    var e := Yielded(s.slots[0].future.id, s.slots[0].output);
    assert (s.log + [e])[..|s.log|] == s.log;
    assert YieldedIds(s.log + [e]) == Upto(s.pushed - |s.slots| + 1);
  }

  lemma InOrderNext<T>(s: State<T>)
    requires InOrder(s)
    ensures InOrder(Apply(s, Next))
  {
    if s.slots != [] && s.n != Some(0) {
      InOrderPolled(s);
      if PollFirst(s, Limit(s)).slots[0].Ready? {
        InOrderYield(PollFirst(s, Limit(s)));
      }
    }
  }

  lemma InOrderPush<T>(s: State<T>, script: nat -> Option<T>)
    requires InOrder(s)
    ensures InOrder(Apply(s, PushBack(script)))
  {}

  lemma {:induction false} InOrderRun<T>(s: State<T>, ops: seq<Op<T>>)
    requires InOrder(s) && forall i :: 0 <= i < |ops| ==> InOrderOp(ops[i])
    ensures InOrder(Run(s, ops))
    decreases |ops|
  {
    if ops != [] {
      if ops[0].Next? {
        InOrderNext(s);
      } else {
        InOrderPush(s, ops[0].script);
      }
      InOrderRun(Apply(s, ops[0]), ops[1..]);
    }
  }

  /** With pushes at the back and a constant limit, outputs come in push order and at most `n` futures are under way. */
  lemma OrderedAndBounded<T>(s: State<T>, ops: seq<Op<T>>)
    requires Fresh(s) && forall i :: 0 <= i < |ops| ==> InOrderOp(ops[i])
    ensures
      var s' := Run(s, ops);
      && YieldedIds(s'.log) == Upto(|YieldedIds(s'.log)|)
      && (s.n.Some? ==> Underway(s'.slots) <= s.n.value)
  {
    InOrderRun(s, ops);
    LimitKept(s, ops);
    var s' := Run(s, ops);
    if s.n.Some? {
      UnderwayBounded(s'.slots, s.n.value);
    }
  }

  function Underway<T>(slots: seq<Slot<T>>): nat {
    if slots == [] then 0
    else (if slots[|slots| - 1].New? then 0 else 1) + Underway(slots[..|slots| - 1])
  }

  lemma {:induction false} UnderwayBounded<T>(slots: seq<Slot<T>>, n: nat)
    requires forall i :: n <= i < |slots| ==> slots[i].New?
    ensures Underway(slots) <= n
    ensures Underway(slots) <= |slots|
    decreases |slots|
  {
    if slots != [] { UnderwayBounded(slots[..|slots| - 1], n); }
  }

  lemma {:induction false} LimitKept<T>(s: State<T>, ops: seq<Op<T>>)
    requires forall i :: 0 <= i < |ops| ==> InOrderOp(ops[i])
    ensures Run(s, ops).n == s.n
    decreases |ops|
  {
    if ops != [] {
      OnlyFirstSlotsPolled(s, Limit(s));
      LimitKept(Apply(s, ops[0]), ops[1..]);
    }
  }
}
