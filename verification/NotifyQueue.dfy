/** The eventfd wakeup protocol of lib/queue.c with the budgeted consumer of main/stack.c, as a
    step relation on top of the queue of module MpscQueue.

    A producer pushes one or more nodes and then notifies: it sets `pending` by compare-and-swap
    and, if it won, writes the eventfd.  The consumer sleeps until the eventfd is readable, reads
    it, clears `pending`, pops at most BUDGET nodes, and notifies itself if anything is left. */
module NotifyQueue {
  import Q = MpscQueue

  type Thread = Q.Thread

  const BUDGET: nat := 128
  const EVENTFD_MAX: nat := 0xFFFF_FFFF_FFFF_FFFE   // a write that would exceed this fails

  datatype NotifyPc =
    | Quiet
    | Owes       // pushed, the compare-and-swap on `pending` is still to come
    | Writing    // won the compare-and-swap, about to write the eventfd
    | Undoing    // the write failed, about to clear `pending`

  datatype Phase =
    | Asleep
    | DrainRead | DrainClear              // notify_queue_drain
    | Popping(taken: nat) | CheckEmpty    // the loop and the test after it
    | SelfOwes | SelfWriting | SelfUndoing

  datatype State = State(q: Q.State, efd: nat, pending: bool, notify: map<Thread, NotifyPc>, phase: Phase)

  predicate Init(s: State) {
    && Q.Init(s.q) && s.efd == 0 && !s.pending && s.phase == Asleep
    && s.notify.Keys == s.q.producers.Keys
    && forall t :: t in s.notify ==> s.notify[t] == Quiet
  }

  /** notify_queue_is_empty is false. */
  predicate Linked(q: Q.State) {
    q.tail != Q.STUB || (q.tail in q.next && q.next[q.tail].Some?)
  }

  /** A push step; once its node is linked the producer owes a notification. */
  predicate PushStep(s: State, s': State, step: Q.Step) {
    && !step.Pop? && step.t in s.notify && (s.notify[step.t] == Quiet || s.notify[step.t] == Owes)
    && Q.NextStep(s.q, s'.q, step)
    && s' == s.(q := s'.q, notify := if step.Link? then s.notify[step.t := Owes] else s.notify)
  }

  predicate NotifyStep(s: State, s': State, t: Thread) {
    && t in s.notify && t in s.q.producers && s.q.producers[t] == Q.Idle
    && match s.notify[t]
       case Quiet => false
       case Owes =>
         s' == if s.pending then s.(notify := s.notify[t := Quiet])
               else s.(pending := true, notify := s.notify[t := Writing])
       case Writing =>
         s' == if s.efd < EVENTFD_MAX then s.(efd := s.efd + 1, notify := s.notify[t := Quiet])
               else s.(notify := s.notify[t := Undoing])
       case Undoing =>
         s' == s.(pending := false, notify := s.notify[t := Quiet])
  }

  predicate ConsumerStep(s: State, s': State) {
    match s.phase
    case Asleep => s.efd > 0 && s' == s.(phase := DrainRead)
    case DrainRead => s' == s.(efd := 0, phase := DrainClear)
    case DrainClear => s' == s.(pending := false, phase := Popping(0))
    case Popping(taken) =>
      if taken < BUDGET then
        && Q.NextStep(s.q, s'.q, Q.Pop)
        && s' == s.(q := s'.q, phase := if s'.q.consumer != Q.Ready then s.phase
                                        else if s'.q.popped == s.q.popped then CheckEmpty
                                        else Popping(taken + 1))
      else
        s' == s.(phase := CheckEmpty)
    case CheckEmpty => s' == s.(phase := if Linked(s.q) then SelfOwes else Asleep)
    case SelfOwes =>
      s' == if s.pending then s.(phase := Asleep) else s.(pending := true, phase := SelfWriting)
    case SelfWriting =>
      s' == if s.efd < EVENTFD_MAX then s.(efd := s.efd + 1, phase := Asleep) else s.(phase := SelfUndoing)
    case SelfUndoing =>
      s' == s.(pending := false, phase := Asleep)
  }

  datatype Step = Push(step: Q.Step) | Notify(t: Thread) | Consume

  predicate NextStep(s: State, s': State, step: Step) {
    match step
    case Push(p) => PushStep(s, s', p)
    case Notify(t) => NotifyStep(s, s', t)
    case Consume => ConsumerStep(s, s')
  }

  ghost predicate Next(s: State, s': State) {
    exists step :: NextStep(s, s', step)
  }

  // ---------------------------------------------------------------- invariant

  predicate Signalling(s: State, t: Thread) {
    t in s.notify && (s.notify[t] == Owes || s.notify[t] == Writing)
  }

  predicate SomeWriter(s: State) {
    exists t :: t in s.notify && s.notify[t] == Writing
  }

  predicate SomeSignaller(s: State) {
    exists t :: t in s.notify && Signalling(s, t)
  }

  /** `pending` is never left set with nobody bound to make the eventfd readable or clear it. */
  predicate PendingBacked(s: State) {
    s.pending ==> s.efd > 0 || SomeWriter(s) || s.phase == DrainClear || s.phase == SelfWriting
  }

  /** A sleeping consumer with a poppable node has a wakeup: delivered, or on its way. */
  predicate Awakened(s: State) {
    s.phase == Asleep && Linked(s.q) ==> s.efd > 0 || SomeSignaller(s)
  }

  /** What the protocol keeps besides the queue's own invariant. */
  predicate Protocol(s: State) {
    && s.notify.Keys == s.q.producers.Keys
    && (!s.phase.Popping? ==> s.q.consumer == Q.Ready)
    && (s.phase.Popping? ==> s.phase.taken <= BUDGET)
    && (s.phase.Popping? && s.phase.taken == BUDGET ==> s.q.consumer == Q.Ready)
    && (s.phase == SelfUndoing ==> s.efd > 0)
    && PendingBacked(s) && Awakened(s)
  }

  predicate Inv(s: State) { Q.Inv(s.q) && Protocol(s) }

  /** A push step leaves the consumer's view alone except that a link may make the queue
      non-empty, and then the linking producer owes a notification. */
  lemma {:induction false} PushKeepsView(q: Q.State, q': Q.State, step: Q.Step)
    requires Q.Inv(q) && !step.Pop? && Q.NextStep(q, q', step)
    ensures Q.Inv(q') && q'.consumer == q.consumer && q'.tail == q.tail
    ensures q'.producers.Keys == q.producers.Keys
    ensures step.Link? || (Linked(q') ==> Linked(q))
  {
    Q.NextPreserves(q, q', step);
    assert step.t in q.producers;
  }

  lemma {:induction false} PushProtocol(s: State, s': State, step: Q.Step)
    requires Protocol(s) && PushStep(s, s', step)
    requires s'.q.consumer == s.q.consumer && s'.q.producers.Keys == s.q.producers.Keys
    requires step.Link? || (Linked(s'.q) ==> Linked(s.q))
    ensures Protocol(s')
  {
    assert step.Link? ==> Signalling(s', step.t);
    if SomeWriter(s) {
      var t :| t in s.notify && s.notify[t] == Writing;
      assert t in s'.notify && s'.notify[t] == Writing;
    }
    if SomeSignaller(s) {
      var t :| t in s.notify && Signalling(s, t);
      assert Signalling(s', t);
    }
  }

  lemma {:induction false} PushPreserves(s: State, s': State, step: Q.Step)
    requires Inv(s) && PushStep(s, s', step)
    ensures Inv(s')
  {
    PushKeepsView(s.q, s'.q, step);
    PushProtocol(s, s', step);
  }

  lemma {:induction false} NotifyPreserves(s: State, s': State, t: Thread)
    requires Protocol(s) && NotifyStep(s, s', t)
    ensures Protocol(s')
  {
    if s.notify[t] == Owes && !s.pending {
      assert s'.notify[t] == Writing && Signalling(s', t);
    } else if s.notify[t] == Owes && SomeWriter(s) {
      var u :| u in s.notify && s.notify[u] == Writing;
      assert s'.notify[u] == Writing && Signalling(s', u);
    } else if s.notify[t] == Undoing && SomeSignaller(s) {
      var u :| u in s.notify && Signalling(s, u);
      assert Signalling(s', u);
    }
  }

  lemma {:induction false} ConsumeProtocol(s: State, s': State)
    requires Protocol(s) && ConsumerStep(s, s')
    ensures Protocol(s')
  {
    if SomeWriter(s) {
      var t :| t in s.notify && s.notify[t] == Writing;
      assert s'.notify[t] == Writing && Signalling(s', t);
    }
  }

  lemma {:induction false} ConsumePreserves(s: State, s': State)
    requires Inv(s) && ConsumerStep(s, s')
    ensures Inv(s')
  {
    if s.phase.Popping? && s.phase.taken < BUDGET { Q.NextPreserves(s.q, s'.q, Q.Pop); }
    ConsumeProtocol(s, s');
  }

  // ---------------------------------------------------------------- runs

  ghost predicate StepAt(run: seq<State>, i: nat) {
    0 < i < |run| && Next(run[i - 1], run[i])
  }

  ghost predicate Run(run: seq<State>) {
    && |run| > 0 && Init(run[0])
    && forall i :: 0 < i < |run| ==> StepAt(run, i)
  }

  lemma {:induction false} InitInv(s: State)
    requires Init(s)
    ensures Inv(s)
  {
    Q.InitInv(s.q);
  }

  lemma {:induction false} NextInv(s: State, s': State)
    requires Inv(s) && Next(s, s')
    ensures Inv(s')
  {
    var step :| NextStep(s, s', step);
    match step
    case Push(p) => PushPreserves(s, s', p);
    case Notify(t) => NotifyPreserves(s, s', t);
    case Consume => ConsumePreserves(s, s');
  }

  lemma {:induction false} RunInv(run: seq<State>, i: nat)
    requires Run(run) && i < |run|
    ensures Inv(run[i])
  {
    if i == 0 {
      InitInv(run[0]);
    } else {
      RunInv(run, i - 1);
      assert StepAt(run, i);
      NextInv(run[i - 1], run[i]);
    }
  }

  /** No wakeup is lost, in any interleaving: a sleeping consumer with a linked node in its queue
      has a readable eventfd or a producer that has not finished its notification. */
  lemma {:induction false} NoLostWakeup(run: seq<State>, i: nat)
    requires Run(run) && i < |run| && run[i].phase == Asleep && Linked(run[i].q)
    ensures run[i].efd > 0 || SomeSignaller(run[i])
  {
    RunInv(run, i);
  }

  /** When everything has come to rest, every node ever pushed has been handed out, in order. */
  lemma {:induction false} RestMeansDelivered(run: seq<State>, i: nat)
    requires Run(run) && i < |run|
    requires run[i].phase == Asleep && run[i].efd == 0
    requires forall t :: t in run[i].notify ==> run[i].notify[t] == Quiet
    requires forall t :: t in run[i].q.producers ==> run[i].q.producers[t] == Q.Idle
    ensures Q.WithoutStub(run[i].q.order) == run[i].q.popped
    ensures !run[i].pending
  {
    RunInv(run, i);
    var q := run[i].q;
    assert !Linked(q);
    assert q.base + 1 !in q.unlinked;
    assert q.base + 1 < |q.order| ==> Q.LinkAt(q, q.base + 1);
    assert q.order == q.order[..q.base] + [Q.STUB];
    Q.WithoutStubAppend(q.order[..q.base], Q.STUB);
  }

  // ---------------------------------------------------------------- a pass that runs alone

  /** The consumer's steps one after the other, with nobody in between. */
  ghost predicate Pass(run: seq<State>) {
    |run| > 0 && forall i :: 0 < i < |run| ==> PassAt(run, i)
  }

  predicate PassAt(run: seq<State>, i: nat) { 0 < i < |run| && ConsumerStep(run[i - 1], run[i]) }

  lemma {:induction false} PassJoin(a: seq<State>, b: seq<State>)
    requires Pass(a) && Pass(b) && a[|a| - 1] == b[0]
    ensures Pass(a + b[1..]) && (a + b[1..])[0] == a[0] && (a + b[1..])[|a + b[1..]| - 1] == b[|b| - 1]
  {
    var r := a + b[1..];
    forall i | 0 < i < |r| ensures PassAt(r, i) {
      if i < |a| { assert PassAt(a, i); } else { assert PassAt(b, i - |a| + 1); }
    }
  }

  lemma {:induction false} PassStep(a: State, b: State)
    requires ConsumerStep(a, b)
    ensures Pass([a, b])
  {
    assert PassAt([a, b], 1);
  }

  /** One pop of the loop. */
  lemma {:induction false} PassPop(s: State, n: nat) returns (run: seq<State>)
    requires s.phase.Popping? && s.phase.taken < BUDGET && Q.Inv(s.q) && Q.PopEnds(s.q, n)
    ensures Pass(run) && run[0] == s
    ensures var q := Q.Alone(s.q, n);
            run[|run| - 1]
            == s.(q := q, phase := if q.popped == s.q.popped then CheckEmpty else Popping(s.phase.taken + 1))
  {
    run := [s];
    assert Q.Alone(s.q, 0) == s.q;
    for j := 0 to n - 1
      invariant Pass(run) && run[0] == s && run[|run| - 1] == s.(q := Q.Alone(s.q, j))
    {
      Q.AloneNext(s.q, j);
      PassStep(s.(q := Q.Alone(s.q, j)), s.(q := Q.Alone(s.q, j + 1)));
      PassJoin(run, [s.(q := Q.Alone(s.q, j)), s.(q := Q.Alone(s.q, j + 1))]);
      run := run + [s.(q := Q.Alone(s.q, j)), s.(q := Q.Alone(s.q, j + 1))][1..];
    }
    Q.AloneNext(s.q, n - 1);
    PopKeepsPopped(s.q, n - 1);
    var q := Q.Alone(s.q, n);
    var last := s.(q := q, phase := if q.popped == s.q.popped then CheckEmpty else Popping(s.phase.taken + 1));
    PassStep(run[|run| - 1], last);
    PassJoin(run, [run[|run| - 1], last]);
    run := run + [run[|run| - 1], last][1..];
  }

  /** Nothing is returned before the pop is over. */
  lemma {:induction false} PopKeepsPopped(q: Q.State, n: nat)
    requires Q.Inv(q) && Q.PopEnds(q, n + 1)
    ensures Q.Alone(q, n).popped == q.popped
    decreases n
  {
    Earlier(q, n);
  }

  lemma {:induction false} Earlier(q: Q.State, n: nat)
    requires Q.Inv(q) && forall j :: 0 < j <= n ==> Q.Alone(q, j).consumer != Q.Ready
    ensures Q.Alone(q, n).popped == q.popped
    decreases n
  {
    if n > 0 {
      Q.AloneNext(q, n - 1);
      Earlier(q, n - 1);
      assert Q.Alone(q, n).consumer != Q.Ready;
      Q.GoesOnKeeps(Q.Alone(q, n - 1));
    }
  }

  function Take(q: seq<Q.Node>, n: nat): seq<Q.Node> { if |q| <= n then q else q[..n] }

  /** One more pop when something is queued. */
  lemma {:induction false} PopMore(q: Q.State, room: nat) returns (n: nat)
    requires Q.Inv(q) && q.unlinked == map[] && q.consumer == Q.Ready && Q.WithoutStub(Q.Chain(q)) != [] && room > 0
    ensures Q.PopEnds(q, n)
    ensures var e := Q.Alone(q, n);
            && Q.Inv(e) && e.unlinked == map[] && e.popped != q.popped
            && e.popped + Take(Q.WithoutStub(Q.Chain(e)), room - 1) == q.popped + Take(Q.WithoutStub(Q.Chain(q)), room)
  {
    n := Q.PopAloneDelivers(q);
    Q.AfterPop(q, n);
    var e := Q.Alone(q, n);
    PopsFirst(q.popped, Q.WithoutStub(Q.Chain(q)), e.popped, Q.WithoutStub(Q.Chain(e)), room);
  }

  predicate Looping(s: State) {
    && s.phase.Popping? && s.phase.taken <= BUDGET
    && Q.Inv(s.q) && s.q.unlinked == map[] && s.q.consumer == Q.Ready
  }

  /** The loop from any point on: it pops what is queued, as far as the budget goes. */
  lemma {:induction false} PassLoop(s: State) returns (run: seq<State>)
    requires Looping(s)
    ensures Pass(run) && run[0] == s
    ensures var e := run[|run| - 1];
            && e == s.(q := e.q, phase := CheckEmpty)
            && e.q.popped == s.q.popped + Take(Q.WithoutStub(Q.Chain(s.q)), BUDGET - s.phase.taken)
    decreases BUDGET - s.phase.taken
  {
    if s.phase.taken == BUDGET {
      PassStep(s, s.(phase := CheckEmpty));
      run := [s, s.(phase := CheckEmpty)];
    } else if Q.WithoutStub(Q.Chain(s.q)) == [] {
      Q.PopAloneEmpty(s.q);
      run := PassPop(s, 1);
    } else {
      run := PassOnce(s);
    }
  }

  lemma {:induction false} PassOnce(s: State) returns (run: seq<State>)
    requires Looping(s) && s.phase.taken < BUDGET && Q.WithoutStub(Q.Chain(s.q)) != []
    ensures Pass(run) && run[0] == s
    ensures var e := run[|run| - 1];
            && e == s.(q := e.q, phase := CheckEmpty)
            && e.q.popped == s.q.popped + Take(Q.WithoutStub(Q.Chain(s.q)), BUDGET - s.phase.taken)
    decreases BUDGET - s.phase.taken, 0
  {
    var n := PopMore(s.q, BUDGET - s.phase.taken);
    var first := PassPop(s, n);
    var rest := PassLoop(first[|first| - 1]);
    PassJoin(first, rest);
    run := first + rest[1..];
  }

  lemma {:induction false} PopsFirst(popped: seq<Q.Node>, queued: seq<Q.Node>, popped': seq<Q.Node>,
                                     queued': seq<Q.Node>, room: nat)
    requires queued != [] && popped' == popped + [queued[0]] && popped' + queued' == popped + queued && room > 0
    ensures popped' != popped && popped' + Take(queued', room - 1) == popped + Take(queued, room)
  {
    assert popped + queued == popped' + queued[1..];
    assert (popped' + queued')[|popped'|..] == queued' && (popped' + queued[1..])[|popped'|..] == queued[1..];
    assert popped + Take(queued, room) == popped' + Take(queued[1..], room - 1);
  }

  /** A wake-up does its work: from sleep with the eventfd readable, a pass that runs alone drains the
      eventfd, pops the first 128 of the nodes queued, or all if there are fewer, and looks whether any
      are left. */
  lemma {:induction false} WakeUpPops(s: State) returns (run: seq<State>)
    requires Inv(s) && s.phase == Asleep && s.efd > 0 && s.q.unlinked == map[]
    ensures Pass(run) && run[0] == s
    ensures var e := run[|run| - 1];
            && e.phase == CheckEmpty && e.efd == 0 && !e.pending
            && e.q.popped == s.q.popped + Take(Q.WithoutStub(Q.Chain(s.q)), BUDGET)
  {
    var s1 := s.(phase := DrainRead);
    var s2 := s1.(efd := 0, phase := DrainClear);
    var s3 := s2.(pending := false, phase := Popping(0));
    PassStep(s, s1);
    PassStep(s1, s2);
    PassStep(s2, s3);
    PassJoin([s, s1], [s1, s2]);
    PassJoin([s, s1] + [s1, s2][1..], [s2, s3]);
    var head := [s, s1] + [s1, s2][1..] + [s2, s3][1..];
    var rest := PassLoop(s3);
    PassJoin(head, rest);
    run := head + rest[1..];
  }
}
