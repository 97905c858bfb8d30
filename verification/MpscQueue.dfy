/** The intrusive multi-producer single-consumer queue of lib/queue.c, as a step relation.

    Every atomic access of `mpscq_push` and `mpscq_pop` is one step, so any interleaving of any
    number of producers with the consumer is a run.  Three history variables carry the proof:
    `order` is the sequence of all head exchanges, `base` the position in it of the node the
    consumer's `tail` points to, and `unlinked` the positions whose predecessor has not been
    linked yet, with the agent that will do it. */
module MpscQueue {
  import opened Common

  type Node = nat
  type Thread = nat

  const STUB: Node := 0

  datatype Agent = Producer(t: Thread) | Consumer

  datatype ProducerPc =
    | Idle
    | Prepared(node: Node)                          // node.next is NULL, exchange comes next
    | Exchanged(node: Node, prev: Node, pos: nat)   // between the exchange and the link

  datatype ConsumerPc =
    | Ready                                         // outside mpscq_pop
    | PastStub(tail: Node)                          // tail moved off the stub, reload tail.next
    | CompareHead(tail: Node)                       // tail.next was NULL, load head
    | InitStub(tail: Node)                          // tail is the head, clear stub.next
    | PreparedStub(tail: Node)                      // exchange the head with the stub
    | ExchangedStub(tail: Node, prev: Node, pos: nat)
    | Recheck(tail: Node)                           // load tail.next once more

  datatype State = State(
    next: map<Node, Option<Node>>, head: Node, tail: Node,
    producers: map<Thread, ProducerPc>, consumer: ConsumerPc,
    order: seq<Node>, base: nat, unlinked: map<nat, Agent>,
    popped: seq<Node>,     // nodes returned so far
    blocked: bool)         // the current pop has seen the queue empty or its first link missing

  datatype Step = Begin(t: Thread, n: Node) | Exchange(t: Thread) | Link(t: Thread) | Pop

  /** The nodes between the consumer's tail and the head, in exchange order. */
  function Chain(s: State): seq<Node>
    requires s.base <= |s.order|
  {
    s.order[s.base..]
  }

  predicate NotQueued(s: State, n: Node) {
    forall i :: s.base <= i < |s.order| ==> s.order[i] != n
  }

  function WithoutStub(q: seq<Node>): seq<Node> {
    if q == [] then [] else (if q[0] == STUB then [] else [q[0]]) + WithoutStub(q[1..])
  }

  /** Nothing can be returned right now: the queue holds the stub alone, or a push sits
      between its exchange and its link immediately after the tail. */
  predicate Blocked(s: State) {
    (s.base + 1 == |s.order| && s.tail == STUB) || s.base + 1 in s.unlinked
  }

  predicate Init(s: State) {
    && s.next == map[STUB := None] && s.head == STUB && s.tail == STUB
    && (forall t :: t in s.producers ==> s.producers[t] == Idle)
    && s.consumer == Ready
    && s.order == [STUB] && s.base == 0 && s.unlinked == map[] && s.popped == [] && !s.blocked
  }

  /** A node may be pushed when it is neither queued nor being pushed by another producer. */
  predicate Pushable(s: State, n: Node)
  {
    && n != STUB && NotQueued(s, n)
    && forall t :: t in s.producers && s.producers[t].Prepared? ==> s.producers[t].node != n
  }

  predicate ProducerStep(s: State, s': State, step: Step)
    requires !step.Pop?
  {
    && step.t in s.producers
    && match step
       case Begin(t, n) =>
         && s.producers[t] == Idle && Pushable(s, n)
         && s' == s.(next := s.next[n := None], producers := s.producers[t := Prepared(n)])
       case Exchange(t) =>
         && s.producers[t].Prepared?
         && var n := s.producers[t].node;
         var pos := |s.order|;
         var mid := s.(head := n, order := s.order + [n], unlinked := s.unlinked[pos := Producer(t)],
                       producers := s.producers[t := Exchanged(n, s.head, pos)]);
         s' == mid.(blocked := s.blocked || Blocked(mid))
       case Link(t) =>
         && s.producers[t].Exchanged?
         && var pc := s.producers[t];
         s' == s.(next := s.next[pc.prev := Some(pc.node)], unlinked := s.unlinked - {pc.pos},
                  producers := s.producers[t := Idle])
  }

  /** `q->tail = next; return tail`: hand out the tail node. */
  function Return(s: State, next: Node): State {
    s.(tail := next, base := s.base + 1, popped := s.popped + [s.tail], consumer := Ready)
  }

  /** The next atomic access of the consumer; starting a pop when it is outside one. */
  function ConsumerNext(s: State): State
    requires s.tail in s.next
  {
    var next := s.next[s.tail];
    match s.consumer
    case Ready =>
      var c := s.(blocked := Blocked(s));
      if s.tail == STUB then
        if next == None then c
        else c.(tail := next.value, base := s.base + 1, consumer := PastStub(next.value))
      else if next == None then c.(consumer := CompareHead(s.tail))
      else Return(c, next.value)
    case PastStub(tail) =>
      var c := s.(blocked := s.blocked || Blocked(s));
      if next == None then c.(consumer := CompareHead(tail)) else Return(c, next.value)
    case CompareHead(tail) =>
      s.(consumer := if s.head == tail then InitStub(tail) else Ready)
    case InitStub(tail) =>
      s.(next := s.next[STUB := None], consumer := PreparedStub(tail))
    case PreparedStub(tail) =>
      var pos := |s.order|;
      s.(head := STUB, order := s.order + [STUB], unlinked := s.unlinked[pos := Consumer],
         consumer := ExchangedStub(tail, s.head, pos))
    case ExchangedStub(tail, prev, pos) =>
      s.(next := s.next[prev := Some(STUB)], unlinked := s.unlinked - {pos}, consumer := Recheck(tail))
    case Recheck(tail) =>
      var c := s.(blocked := s.blocked || Blocked(s));
      if next == None then c.(consumer := Ready) else Return(c, next.value)
  }

  predicate NextStep(s: State, s': State, step: Step) {
    if step.Pop? then s.tail in s.next && s' == ConsumerNext(s) else ProducerStep(s, s', step)
  }

  ghost predicate Next(s: State, s': State) {
    exists step :: NextStep(s, s', step)
  }

  /** mpscq_pop returns NULL in this step. */
  predicate ReturnsNull(s: State, s': State, step: Step) {
    step.Pop? && s'.consumer == Ready && s'.popped == s.popped
  }

  // ---------------------------------------------------------------- invariant

  predicate Shape(s: State) {
    && s.base < |s.order| && s.tail == s.order[s.base] && s.head == s.order[|s.order| - 1]
    && forall i, j :: s.base <= i < j < |s.order| ==> s.order[i] != s.order[j]
  }

  /** Position `i` is linked from its predecessor exactly when it is not pending. */
  predicate LinkAt(s: State, i: nat) {
    && 0 < i < |s.order| && s.order[i - 1] in s.next
    && s.next[s.order[i - 1]] == if i in s.unlinked then None else Some(s.order[i])
  }

  predicate Links(s: State)
    requires Shape(s)
  {
    && s.tail in s.next && s.head in s.next && s.next[s.head] == None
    && forall i :: s.base < i < |s.order| ==> LinkAt(s, i)
  }

  /** The agent recorded for an unlinked position is the one that holds that link. */
  predicate HoldsLink(s: State, a: Agent, pos: nat)
    requires Shape(s)
  {
    && s.base < pos < |s.order|
    && match a
       case Producer(t) => t in s.producers && s.producers[t] == Exchanged(s.order[pos], s.order[pos - 1], pos)
       case Consumer => s.consumer == ExchangedStub(s.tail, s.order[pos - 1], pos) && s.order[pos] == STUB
  }

  predicate Pending(s: State)
    requires Shape(s)
  {
    && (forall p :: p in s.unlinked ==> HoldsLink(s, s.unlinked[p], p))
    && (forall t :: t in s.producers && s.producers[t].Exchanged? ==>
          s.producers[t].pos in s.unlinked && s.unlinked[s.producers[t].pos] == Producer(t))
    && (s.consumer.ExchangedStub? ==>
          s.consumer.pos in s.unlinked && s.unlinked[s.consumer.pos] == Consumer)
  }

  predicate PreparedNodes(s: State)
    requires Shape(s)
  {
    && (forall t :: t in s.producers && s.producers[t].Prepared? ==>
          && s.producers[t].node != STUB && NotQueued(s, s.producers[t].node)
          && s.producers[t].node in s.next && s.next[s.producers[t].node] == None)
    && forall t, u :: t in s.producers && u in s.producers && t != u
                      && s.producers[t].Prepared? && s.producers[u].Prepared? ==>
         s.producers[t].node != s.producers[u].node
  }

  predicate ConsumerInv(s: State)
    requires Shape(s)
  {
    && (s.consumer != Ready ==> s.consumer.tail == s.tail && s.tail != STUB)
    && (s.consumer.CompareHead? ==> s.base + 1 == |s.order| || s.blocked)
    && (s.consumer.InitStub? || s.consumer.PreparedStub? ==> NotQueued(s, STUB))
    && (s.consumer.PreparedStub? ==> STUB in s.next && s.next[STUB] == None)
    && (s.consumer.Recheck? ==> s.base + 1 < |s.order|)
  }

  predicate Inv(s: State) {
    && Shape(s) && Links(s) && Pending(s) && PreparedNodes(s) && ConsumerInv(s)
    && s.popped == WithoutStub(s.order[..s.base])
  }

  lemma {:induction false} WithoutStubConcat(p: seq<Node>, q: seq<Node>)
    ensures WithoutStub(p + q) == WithoutStub(p) + WithoutStub(q)
  {
    if p == [] {
      assert p + q == q;
    } else {
      assert (p + q)[1..] == p[1..] + q;
      WithoutStubConcat(p[1..], q);
    }
  }

  lemma {:induction false} WithoutStubAppend(p: seq<Node>, n: Node)
    ensures WithoutStub(p + [n]) == if n == STUB then WithoutStub(p) else WithoutStub(p) + [n]
  {
    WithoutStubConcat(p, [n]);
  }

  lemma {:induction false} InitInv(s: State)
    requires Init(s)
    ensures Inv(s)
  {
  }

  lemma {:induction false} BeginPreserves(s: State, s': State, t: Thread, n: Node)
    requires Inv(s) && ProducerStep(s, s', Begin(t, n))
    ensures Inv(s')
  {
    forall i | s'.base < i < |s'.order| ensures LinkAt(s', i) {
      assert LinkAt(s, i);
    }
    forall p | p in s'.unlinked ensures HoldsLink(s', s'.unlinked[p], p) {
      assert HoldsLink(s, s.unlinked[p], p);
    }
    assert Pending(s');
    assert PreparedNodes(s');
  }

  /** Appending a detached node at the head, on behalf of `a`. */
  lemma {:induction false} AppendLinks(s: State, s': State, n: Node, a: Agent)
    requires Shape(s) && Links(s) && NotQueued(s, n) && n in s.next && s.next[n] == None
    requires s'.next == s.next && s'.head == n && s'.tail == s.tail && s'.base == s.base
    requires s'.order == s.order + [n] && s'.unlinked == s.unlinked[|s.order| := a]
    requires forall p :: p in s.unlinked ==> p < |s.order|
    ensures Shape(s') && Links(s')
    ensures s'.order[..s'.base] == s.order[..s.base]
  {
    forall i | s'.base < i < |s'.order| ensures LinkAt(s', i) {
      if i < |s.order| { assert LinkAt(s, i); }
    }
  }

  lemma {:induction false} ExchangePending(s: State, s': State, t: Thread)
    requires Shape(s) && Pending(s) && Shape(s') && ProducerStep(s, s', Exchange(t))
    ensures Pending(s')
  {
    forall p | p in s'.unlinked ensures HoldsLink(s', s'.unlinked[p], p) {
      if p != |s.order| { assert HoldsLink(s, s.unlinked[p], p); }
    }
    forall u | u in s'.producers && s'.producers[u].Exchanged?
      ensures s'.producers[u].pos in s'.unlinked && s'.unlinked[s'.producers[u].pos] == Producer(u)
    {
      if u != t { assert HoldsLink(s, Producer(u), s.producers[u].pos); }
    }
    if s.consumer.ExchangedStub? { assert HoldsLink(s, Consumer, s.consumer.pos); }
  }

  lemma {:induction false} ExchangePrepared(s: State, s': State, t: Thread)
    requires Shape(s) && PreparedNodes(s) && ConsumerInv(s) && Shape(s') && ProducerStep(s, s', Exchange(t))
    ensures PreparedNodes(s') && ConsumerInv(s')
  {
  }

  lemma {:induction false} ExchangePreserves(s: State, s': State, t: Thread)
    requires Inv(s) && ProducerStep(s, s', Exchange(t))
    ensures Inv(s')
  {
    assert forall p :: p in s.unlinked ==> HoldsLink(s, s.unlinked[p], p);
    AppendLinks(s, s', s.producers[t].node, Producer(t));
    ExchangePending(s, s', t);
    ExchangePrepared(s, s', t);
  }

  /** Completing the link of position `pos`. */
  lemma {:induction false} LinkKeepsLinks(s: State, s': State, pos: nat)
    requires Shape(s) && Links(s) && pos in s.unlinked && s.base < pos < |s.order|
    requires s'.order == s.order && s'.base == s.base && s'.head == s.head && s'.tail == s.tail
    requires s'.next == s.next[s.order[pos - 1] := Some(s.order[pos])] && s'.unlinked == s.unlinked - {pos}
    ensures Shape(s') && Links(s')
  {
    forall i | s'.base < i < |s'.order| ensures LinkAt(s', i) {
      assert LinkAt(s, i);
    }
  }

  lemma {:induction false} LinkPreserves(s: State, s': State, t: Thread)
    requires Inv(s) && ProducerStep(s, s', Link(t))
    ensures Inv(s')
  {
    var pos := s.producers[t].pos;
    assert HoldsLink(s, Producer(t), pos);
    LinkKeepsLinks(s, s', pos);
    forall p | p in s'.unlinked ensures HoldsLink(s', s'.unlinked[p], p) {
      assert HoldsLink(s, s.unlinked[p], p);
    }
    assert Pending(s');
    assert PreparedNodes(s');
    assert ConsumerInv(s');
  }

  /** The tail moves past a linked node. */
  predicate Advances(s: State, s': State) {
    && s.tail in s.next && s.next[s.tail].Some?
    && (s.consumer == Ready || s.consumer.PastStub? || s.consumer.Recheck?)
    && s'.next == s.next && s'.head == s.head && s'.producers == s.producers
    && s'.order == s.order && s'.unlinked == s.unlinked
    && s'.tail == s.next[s.tail].value && s'.base == s.base + 1
    && (s'.consumer == Ready || (s'.consumer == PastStub(s'.tail) && s.tail == STUB))
    && s'.popped == if s.tail == STUB then s.popped else s.popped + [s.tail]
  }

  lemma {:induction false} AdvanceLinks(s: State, s': State)
    requires Shape(s) && Links(s) && Pending(s) && Advances(s, s')
    ensures s.base + 1 < |s.order| && Shape(s') && Links(s') && Pending(s') && NotQueued(s', s.tail)
  {
    assert s.base + 1 < |s.order|;
    assert LinkAt(s, s.base + 1);
    assert s.base + 2 < |s.order| ==> LinkAt(s, s.base + 2);
    forall i | s'.base < i < |s'.order| ensures LinkAt(s', i) {
      assert LinkAt(s, i);
    }
    forall p | p in s'.unlinked ensures HoldsLink(s', s'.unlinked[p], p) {
      assert HoldsLink(s, s.unlinked[p], p);
    }
  }

  /** Moving the tail past a linked node keeps the chain well formed. */
  lemma {:induction false} AdvanceKeeps(s: State, s': State)
    requires Inv(s) && Advances(s, s')
    ensures Inv(s')
    ensures NotQueued(s', s.tail)
  {
    AdvanceLinks(s, s');
    assert s.order[..s.base + 1] == s.order[..s.base] + [s.tail];
    WithoutStubAppend(s.order[..s.base], s.tail);
    assert PreparedNodes(s');
    assert ConsumerInv(s');
  }

  /** A step that only moves the consumer's program counter keeps the shared structure. */
  lemma {:induction false} ConsumerOnly(s: State, s': State)
    requires Shape(s) && Links(s) && Pending(s) && PreparedNodes(s)
    requires s' == s.(consumer := s'.consumer, blocked := s'.blocked)
    requires !s.consumer.ExchangedStub? && !s'.consumer.ExchangedStub?
    ensures Shape(s') && Links(s') && Pending(s') && PreparedNodes(s')
  {
    forall i | s'.base < i < |s'.order| ensures LinkAt(s', i) {
      assert LinkAt(s, i);
    }
    forall p | p in s'.unlinked ensures HoldsLink(s', s'.unlinked[p], p) {
      assert HoldsLink(s, s.unlinked[p], p);
    }
  }

  lemma {:induction false} GiveUpPreserves(s: State, s': State)
    requires Inv(s) && (s.consumer == Ready || s.consumer.PastStub? || s.consumer.CompareHead? || s.consumer.Recheck?)
    requires s' == ConsumerNext(s) && (s.next[s.tail] == None || s.consumer.CompareHead?)
    ensures Inv(s')
  {
    ConsumerOnly(s, s');
    assert s.consumer.CompareHead? && s.head == s.tail ==> s.base + 1 == |s.order|;
    assert s.base + 1 < |s.order| ==> LinkAt(s, s.base + 1);
  }

  lemma {:induction false} InitStubPreserves(s: State, s': State)
    requires Inv(s) && s.consumer.InitStub? && s' == ConsumerNext(s)
    ensures Inv(s')
  {
    forall i | s'.base < i < |s'.order| ensures LinkAt(s', i) {
      assert LinkAt(s, i);
    }
    forall p | p in s'.unlinked ensures HoldsLink(s', s'.unlinked[p], p) {
      assert HoldsLink(s, s.unlinked[p], p);
    }
    assert Pending(s');
    assert PreparedNodes(s');
  }

  lemma {:induction false} ExchangeStubPreserves(s: State, s': State)
    requires Inv(s) && s.consumer.PreparedStub? && s' == ConsumerNext(s)
    ensures Inv(s')
  {
    assert forall p :: p in s.unlinked ==> HoldsLink(s, s.unlinked[p], p);
    AppendLinks(s, s', STUB, Consumer);
    forall p | p in s'.unlinked ensures HoldsLink(s', s'.unlinked[p], p) {
      if p != |s.order| { assert HoldsLink(s, s.unlinked[p], p); }
    }
    assert Pending(s');
    assert PreparedNodes(s');
    assert ConsumerInv(s');
  }

  lemma {:induction false} LinkStubPreserves(s: State, s': State)
    requires Inv(s) && s.consumer.ExchangedStub? && s' == ConsumerNext(s)
    ensures Inv(s')
  {
    var pos := s.consumer.pos;
    assert HoldsLink(s, Consumer, pos);
    LinkKeepsLinks(s, s', pos);
    forall p | p in s'.unlinked ensures HoldsLink(s', s'.unlinked[p], p) {
      assert HoldsLink(s, s.unlinked[p], p);
    }
    assert Pending(s');
    assert PreparedNodes(s');
    assert ConsumerInv(s');
  }

  lemma {:induction false} NextPreserves(s: State, s': State, step: Step)
    requires Inv(s) && NextStep(s, s', step)
    ensures Inv(s')
  {
    match step
    case Begin(t, n) => BeginPreserves(s, s', t, n);
    case Exchange(t) => ExchangePreserves(s, s', t);
    case Link(t) => LinkPreserves(s, s', t);
    case Pop =>
      match s.consumer
      case InitStub(_) => InitStubPreserves(s, s');
      case PreparedStub(_) => ExchangeStubPreserves(s, s');
      case ExchangedStub(_, _, _) => LinkStubPreserves(s, s');
      case _ =>
        if s.next[s.tail] == None || s.consumer.CompareHead? {
          GiveUpPreserves(s, s');
        } else {
          AdvanceKeeps(s, s');
        }
  }

  // ---------------------------------------------------------------- runs

  ghost predicate StepAt(run: seq<State>, i: nat) {
    0 < i < |run| && Next(run[i - 1], run[i])
  }

  /** Every interleaving: a start state and one step of one agent after another. */
  ghost predicate Run(run: seq<State>) {
    && |run| > 0 && Init(run[0])
    && forall i :: 0 < i < |run| ==> StepAt(run, i)
  }

  lemma {:induction false} RunInv(run: seq<State>, i: nat)
    requires Run(run) && i < |run|
    ensures Inv(run[i])
  {
    if i == 0 {
      InitInv(run[0]);
    } else {
      RunInv(run, i - 1);
      assert StepAt(run, i);
      var step :| NextStep(run[i - 1], run[i], step);
      NextPreserves(run[i - 1], run[i], step);
    }
  }

  /** In every reachable state the returned nodes are a prefix of the pushes in exchange order,
      the rest of that order is still in the chain, and the stub is in the chain at most once. */
  lemma {:induction false} PopsFollowPushOrder(run: seq<State>, i: nat)
    requires Run(run) && i < |run|
    ensures Inv(run[i])
    ensures WithoutStub(run[i].order) == run[i].popped + WithoutStub(Chain(run[i]))
    ensures forall j, k :: run[i].base <= j < k < |run[i].order| ==>
              !(run[i].order[j] == STUB && run[i].order[k] == STUB)
  {
    RunInv(run, i);
    var s := run[i];
    assert s.order == s.order[..s.base] + Chain(s);
    WithoutStubConcat(s.order[..s.base], Chain(s));
  }

  /** A NULL result is never wrong: when pop gives up, the queue was empty or a push stood
      between exchange and link at some moment of this very pop. */
  lemma {:induction false} NullMeansBlocked(s: State, s': State, step: Step)
    requires Inv(s) && NextStep(s, s', step) && ReturnsNull(s, s', step)
    ensures s'.blocked
  {
    if s.base + 1 < |s.order| {
      assert LinkAt(s, s.base + 1);
    }
  }

  lemma {:induction false} BlockedStep(s: State, s': State, step: Step)
    requires NextStep(s, s', step) && s'.blocked && s'.consumer != Ready && !Blocked(s) && !Blocked(s')
    ensures s.blocked && s.consumer != Ready
  {
  }

  /** `blocked` is honest: it records a state of the pop in progress in which Blocked held. */
  lemma {:induction false} BlockedHasWitness(run: seq<State>, i: nat) returns (k: nat)
    requires Run(run) && i < |run| && run[i].consumer != Ready && run[i].blocked
    ensures k <= i && Blocked(run[k])
    ensures forall j :: k < j <= i ==> run[j].consumer != Ready
  {
    assert i > 0;
    assert StepAt(run, i);
    if Blocked(run[i]) {
      k := i;
    } else if Blocked(run[i - 1]) {
      k := i - 1;
    } else {
      var step :| NextStep(run[i - 1], run[i], step);
      BlockedStep(run[i - 1], run[i], step);
      k := BlockedHasWitness(run, i - 1);
    }
  }

  /** Over whole runs: whenever a pop returns NULL, there was a moment within that same pop at which the
      queue was empty or its first link missing. */
  lemma {:induction false} NullHasWitness(run: seq<State>, i: nat) returns (k: nat)
    requires Run(run) && 0 < i < |run| && NextStep(run[i - 1], run[i], Pop) && ReturnsNull(run[i - 1], run[i], Pop)
    ensures k < i && Blocked(run[k])
    ensures forall j :: k < j < i ==> run[j].consumer != Ready
  {
    RunInv(run, i - 1);
    NullMeansBlocked(run[i - 1], run[i], Pop);
    if Blocked(run[i - 1]) {
      k := i - 1;
    } else {
      k := BlockedHasWitness(run, i - 1);
    }
  }

  /** Once a node has been handed out, no agent still holds a link that would write to it. */
  lemma {:induction false} PoppedNodeIsFree(s: State, s': State, step: Step)
    requires Inv(s) && NextStep(s, s', step) && s'.popped != s.popped
    ensures s'.popped == s.popped + [s.tail] && s.tail != STUB
    ensures NotQueued(s', s.tail)
    ensures forall p :: p in s'.unlinked && 0 < p <= |s'.order| ==> s'.order[p - 1] != s.tail
  {
    AdvanceKeeps(s, s');
    forall p | p in s'.unlinked && 0 < p <= |s'.order| ensures s'.order[p - 1] != s.tail {
      assert HoldsLink(s', s'.unlinked[p], p);
    }
  }

  // ---------------------------------------------------------------- nothing is lost

  /** The consumer's next `steps` accesses with no producer in between. */
  function Alone(s: State, steps: nat): State
    decreases steps
  {
    if steps == 0 || s.tail !in s.next then s else Alone(ConsumerNext(s), steps - 1)
  }

  /** After exactly n accesses the consumer is outside pop again. */
  ghost predicate PopEnds(s: State, n: nat) {
    n > 0 && Alone(s, n).consumer == Ready && forall j :: 0 < j < n ==> Alone(s, j).consumer != Ready
  }

  lemma {:induction false} PopGoesOn(s: State, n: nat)
    requires s.tail in s.next && ConsumerNext(s).consumer != Ready && PopEnds(ConsumerNext(s), n)
    ensures PopEnds(s, n + 1) && Alone(s, n + 1) == Alone(ConsumerNext(s), n)
  {
    forall j | 0 < j < n + 1 ensures Alone(s, j).consumer != Ready {
      assert Alone(s, j) == Alone(ConsumerNext(s), j - 1);
    }
  }

  lemma {:induction false} AloneNext(s: State, n: nat)
    requires Inv(s)
    ensures Alone(s, n).tail in Alone(s, n).next && Alone(s, n + 1) == ConsumerNext(Alone(s, n))
    decreases n
  {
    if n > 0 {
      NextPreserves(s, ConsumerNext(s), Pop);
      AloneNext(ConsumerNext(s), n - 1);
    } else {
      assert Alone(ConsumerNext(s), 0) == ConsumerNext(s);
    }
  }

  /** What the consumer alone leaves as it is. */
  lemma {:induction false} AloneKeeps(s: State, n: nat)
    requires Inv(s)
    ensures var e := Alone(s, n);
            Inv(e) && e.producers == s.producers && WithoutStub(e.order) == WithoutStub(s.order)
    decreases n
  {
    if n > 0 {
      OneKeeps(s);
      AloneKeeps(ConsumerNext(s), n - 1);
    }
  }

  lemma {:induction false} OneKeeps(s: State)
    requires Inv(s)
    ensures var m := ConsumerNext(s);
            Inv(m) && m.producers == s.producers && WithoutStub(m.order) == WithoutStub(s.order)
  {
    NextPreserves(s, ConsumerNext(s), Pop);
    WithoutStubAppend(s.order, STUB);
  }

  /** Nothing is returned while pop goes on. */
  lemma {:induction false} GoesOnKeeps(s: State)
    requires s.tail in s.next && ConsumerNext(s).consumer != Ready
    ensures ConsumerNext(s).popped == s.popped
  {
  }

  /** When a pop run alone has ended, no link is missing, and the chain has lost what was returned. */
  lemma {:induction false} AfterPop(s: State, n: nat)
    requires Inv(s) && s.unlinked == map[] && PopEnds(s, n)
    ensures var e := Alone(s, n);
            && Inv(e) && e.unlinked == map[] && e.producers == s.producers
            && e.popped + WithoutStub(Chain(e)) == s.popped + WithoutStub(Chain(s))
  {
    AloneKeeps(s, n);
    var e := Alone(s, n);
    assert e.unlinked.Keys == {};
    OrderIs(s);
    OrderIs(e);
  }

  lemma {:induction false} OrderIs(s: State)
    requires Inv(s)
    ensures WithoutStub(s.order) == s.popped + WithoutStub(Chain(s))
  {
    assert s.order == s.order[..s.base] + Chain(s);
    WithoutStubConcat(s.order[..s.base], Chain(s));
  }

  /** With the tail on a real node and no push in flight, pop returns that node: directly when
      it has a successor, otherwise by parking the stub behind it. */
  lemma {:induction false} PopFromTail(s: State) returns (steps: nat)
    requires Inv(s) && s.unlinked == map[] && s.tail != STUB && (s.consumer == Ready || s.consumer.PastStub?)
    ensures PopEnds(s, steps) && Alone(s, steps).popped == s.popped + [s.tail]
  {
    if s.base + 1 < |s.order| {
      assert LinkAt(s, s.base + 1);
      steps := 1;
      assert Alone(s, 1) == ConsumerNext(s);
    } else {
      var s1 := ConsumerNext(s);
      NextPreserves(s, s1, Pop);
      ParkStub(s1);
      PopGoesOn(s, 5);
      steps := 6;
    }
  }

  lemma {:induction false} ParkStub(s: State)
    requires Inv(s) && s.unlinked == map[] && s.consumer.CompareHead? && s.base + 1 == |s.order|
    ensures PopEnds(s, 5) && Alone(s, 5).popped == s.popped + [s.tail]
  {
    var s2 := ConsumerNext(s);
    NextPreserves(s, s2, Pop);
    var s3 := ConsumerNext(s2);
    NextPreserves(s2, s3, Pop);
    LinkParked(s3);
    PopGoesOn(s2, 3);
    PopGoesOn(s, 4);
  }

  lemma {:induction false} LinkParked(s: State)
    requires Inv(s) && s.consumer.PreparedStub? && s.head == s.tail && s.base + 1 == |s.order|
    ensures PopEnds(s, 3) && Alone(s, 3).popped == s.popped + [s.tail]
  {
    var s4 := ConsumerNext(s);
    NextPreserves(s, s4, Pop);
    var s5 := ConsumerNext(s4);
    NextPreserves(s4, s5, Pop);
    assert s5.next[s.tail] == Some(STUB);
    assert Alone(s5, 1) == ConsumerNext(s5);
    PopGoesOn(s4, 1);
    PopGoesOn(s, 2);
  }

  /** Nothing is lost: whenever no push is in flight, a pop run alone returns the oldest node
      that has been pushed and not yet returned. */
  lemma {:induction false} PopAloneDelivers(s: State) returns (steps: nat)
    requires Inv(s) && s.unlinked == map[] && s.consumer == Ready && WithoutStub(Chain(s)) != []
    ensures PopEnds(s, steps)
    ensures Alone(s, steps).popped == s.popped + [WithoutStub(Chain(s))[0]]
  {
    assert Chain(s)[0] == s.tail;
    if s.tail != STUB {
      steps := PopFromTail(s);
    } else {
      assert Chain(s) == [STUB] + Chain(s)[1..];
      assert s.base + 1 < |s.order|;
      assert LinkAt(s, s.base + 1);
      assert Chain(s)[1..][0] == s.order[s.base + 1] != STUB;
      var m := ConsumerNext(s);
      NextPreserves(s, m, Pop);
      steps := PopFromTail(m);
      PopGoesOn(s, steps);
      steps := steps + 1;
    }
  }

  /** And with nothing queued it returns NULL at once. */
  lemma {:induction false} PopAloneEmpty(s: State)
    requires Inv(s) && s.unlinked == map[] && s.consumer == Ready && WithoutStub(Chain(s)) == []
    ensures PopEnds(s, 1) && Alone(s, 1).popped == s.popped
  {
    assert Chain(s)[0] == s.tail;
    assert |Chain(s)| == 1;
    assert Alone(s, 1) == ConsumerNext(s);
  }

  // ---------------------------------------------------------------- what was given to push

  predicate StepTaken(run: seq<State>, steps: seq<Step>, i: nat)
    requires i < |steps| && i + 1 < |run|
  {
    NextStep(run[i], run[i + 1], steps[i])
  }

  /** A run together with who did what. */
  ghost predicate Schedule(run: seq<State>, steps: seq<Step>) {
    |run| == |steps| + 1 && Init(run[0]) && forall i :: 0 <= i < |steps| ==> StepTaken(run, steps, i)
  }

  /** The node the producer's last push was called with. */
  function Given(steps: seq<Step>, t: Thread): Option<Node> {
    if steps == [] then None
    else
      var step := steps[|steps| - 1];
      if step.Begin? && step.t == t then Some(step.n) else Given(steps[..|steps| - 1], t)
  }

  /** A producer in the middle of a push works on the node it was given. */
  lemma {:induction false} PushesGiven(run: seq<State>, steps: seq<Step>, i: nat, t: Thread)
    requires Schedule(run, steps) && i < |run| && t in run[i].producers && run[i].producers[t] != Idle
    ensures Given(steps[..i], t) == Some(run[i].producers[t].node)
    decreases i
  {
    if i > 0 {
      assert StepTaken(run, steps, i - 1);
      assert steps[..i][..i - 1] == steps[..i - 1];
      if run[i - 1].producers[t] != Idle { PushesGiven(run, steps, i - 1, t); }
    }
  }

  /** In every run the exchange of a push puts the node it was given, and nothing else, at the end of the
      order. */
  lemma {:induction false} ExchangeAppends(run: seq<State>, steps: seq<Step>, i: nat)
    requires Schedule(run, steps) && i < |steps| && steps[i].Exchange?
    ensures Given(steps[..i], steps[i].t).Some?
    ensures run[i + 1].order == run[i].order + [Given(steps[..i], steps[i].t).value]
  {
    assert StepTaken(run, steps, i);
    PushesGiven(run, steps, i, steps[i].t);
  }
}
