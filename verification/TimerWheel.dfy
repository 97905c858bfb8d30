/** The two-level timer wheel of lib/thread.c.

    The simple rule it must agree with is a table from timers to deadlines: when the clock is looked
    at, whatever is due fires and nothing else does.  The wheel is an index over that table, and the
    theorem is about every history of registrations, cancellations, clock jumps, and callbacks that
    register and cancel timers themselves. */
module TimerWheel {
  import opened ListIndex

  const SIZE: nat := 100
  const MOD: nat := 0x1_0000_0000

  type Id = nat

  datatype Slot = L0(i: nat) | L1(i: nat)

  /** `timers`: deadlines of the registered timers.  `idx`: the lists of both levels.
      `time`: the instant the cursors stand for, last_timer_check_ms plus the ticks advanced since. */
  datatype View = View(timers: map<Id, nat>, idx: Index<Slot, Id>, c0: nat, c1: nat, time: nat)

  function Head(w: View, s: Slot, id: Id): View { w.(idx := PutHead(w.idx, s, id)) }
  function Tail(w: View, s: Slot, id: Id): View { w.(idx := PutTail(w.idx, s, id)) }
  function Unlink(w: View, id: Id): View
    requires id in w.idx.where
  {
    w.(idx := Detach(w.idx, id))
  }

  // ---------------------------------------------------------------- where a timer goes

  /** How many steps forward from slot `from` to slot `to`. */
  function Dist(from: nat, to: nat): int {
    if to >= from then to - from else to - from + SIZE
  }

  /** wheel_timer_slot, with the casts to uint32_t. */
  function SlotFor(w: View, timeout: nat, now: nat): Slot {
    if timeout <= now then L0(w.c0)
    else
      var delta := timeout - now;
      var l0Ticks := delta % MOD;
      if l0Ticks < SIZE then L0((w.c0 + l0Ticks) % SIZE)
      else
        var l1Ticks := (delta / SIZE) % MOD;
        L1((w.c1 + if l1Ticks >= SIZE then SIZE - 1 else l1Ticks) % SIZE)
  }

  /** A list will be looked at no later than `due`: at once for the current one, and for the others at
      the instant the cursors reach them. */
  predicate InTime(w: View, s: Slot, due: nat) {
    match s
    case L0(i) => i < SIZE && (i == w.c0 || w.time + Dist(w.c0, i) <= due)
    case L1(i) => i < SIZE && i != w.c1 && w.time - w.c0 + SIZE * Dist(w.c1, i) <= due
  }

  predicate Cursors(w: View) { w.c0 < SIZE && w.c1 < SIZE }

  lemma {:induction false} Forward(from: nat, k: nat)
    requires from < SIZE && k < SIZE
    ensures (from + k) % SIZE < SIZE && Dist(from, (from + k) % SIZE) == k
    ensures (from + k) % SIZE == from <==> k == 0
  {
  }

  lemma {:induction false} L1TicksPositive(delta: nat)
    requires delta % MOD >= SIZE
    ensures (delta / SIZE) % MOD > 0
  {
    var q, r := delta / SIZE, delta % SIZE;
    if q % MOD == 0 {
      var m := q / MOD;
      assert q == MOD * m;
      assert delta == MOD * (SIZE * m) + r;
      RestOf(SIZE * m, r);
    }
  }

  lemma {:induction false} RestOf(m: nat, r: nat)
    requires r < SIZE
    ensures (MOD * m + r) % MOD == r
  {
  }

  lemma {:induction false} Truncated(x: nat)
    ensures x % MOD <= x && SIZE * (x / SIZE) <= x
  {
  }

  /** A deadline whose distance is a multiple of 2^32 ms: the cast makes it no distance at all. */
  predicate Stuck(timeout: nat, now: nat) {
    timeout > now && (timeout - now) % MOD == 0
  }

  /** The chosen list is looked at in time, and it is the current one exactly for a timer that is due
      or stuck. */
  lemma {:induction false} SlotForInTime(w: View, timeout: nat, now: nat)
    requires Cursors(w) && w.time <= now
    ensures InTime(w, SlotFor(w, timeout, now), timeout)
    ensures SlotFor(w, timeout, now) == L0(w.c0) <==> timeout <= now || Stuck(timeout, now)
  {
    if timeout > now {
      var delta := timeout - now;
      Truncated(delta);
      if delta % MOD < SIZE {
        Forward(w.c0, delta % MOD);
      } else {
        var t := (delta / SIZE) % MOD;
        L1TicksPositive(delta);
        Truncated(delta / SIZE);
        var k := if t >= SIZE then SIZE - 1 else t;
        Forward(w.c1, k);
        assert SIZE * k <= delta;
      }
    }
  }

  // ---------------------------------------------------------------- invariant and single operations

  predicate Timely(w: View) {
    forall id :: id in w.idx.where && id in w.timers ==> InTime(w, w.idx.where[id], w.timers[id])
  }

  ghost predicate Inv(w: View) {
    Cursors(w) && Indexed(w.idx) && w.idx.where.Keys == w.timers.Keys && Timely(w)
  }

  datatype Action = Arm(id: Id, timeout: nat, clock: nat) | Cancel(id: Id)

  /** register_task on a timer at the given clock reading, and unregister_task. */
  function Act(w: View, a: Action): View
    requires w.idx.where.Keys == w.timers.Keys
  {
    match a
    case Arm(id, timeout, clock) =>
      var v := if id in w.timers then Unlink(w, id) else w;
      Head(v.(timers := w.timers[id := timeout]), SlotFor(w, timeout, clock), id)
    case Cancel(id) =>
      if id in w.timers then Unlink(w, id).(timers := w.timers - {id}) else w
  }

  lemma {:induction false} ActKeeps(w: View, a: Action)
    requires Inv(w) && (a.Arm? ==> w.time <= a.clock)
    ensures Inv(Act(w, a))
  {
    match a
    case Arm(id, timeout, clock) =>
      var v := if id in w.timers then Unlink(w, id) else w;
      if id in w.timers { DetachIndexed(w.idx, id); }
      var u := v.(timers := w.timers[id := timeout]);
      SlotForInTime(w, timeout, clock);
      PutHeadIndexed(u.idx, SlotFor(w, timeout, clock), id);
    case Cancel(id) =>
      if id in w.timers {
        DetachIndexed(w.idx, id);
      }
  }

  /** The head of the current list goes back into the wheel because its deadline has not come. */
  function Requeue(w: View, now: nat): View
    requires List(w.idx, L0(w.c0)) != [] && List(w.idx, L0(w.c0))[0] in w.idx.where.Keys * w.timers.Keys
  {
    var id := List(w.idx, L0(w.c0))[0];
    Tail(Unlink(w, id), SlotFor(w, w.timers[id], now), id)
  }

  /** Or it is taken out to be fired. */
  function Take(w: View): View
    requires List(w.idx, L0(w.c0)) != [] && List(w.idx, L0(w.c0))[0] in w.idx.where
  {
    var id := List(w.idx, L0(w.c0))[0];
    Unlink(w, id).(timers := w.timers - {id})
  }

  lemma {:induction false} HeadLinked(w: View)
    requires Indexed(w.idx) && List(w.idx, L0(w.c0)) != []
    ensures var id := List(w.idx, L0(w.c0))[0]; id in w.idx.where && w.idx.where[id] == L0(w.c0)
  {
    assert Linked(w.idx, L0(w.c0), List(w.idx, L0(w.c0))[0]);
  }

  lemma {:induction false} TakeKeeps(w: View)
    requires Inv(w) && List(w.idx, L0(w.c0)) != []
    ensures List(w.idx, L0(w.c0))[0] in w.timers
    ensures Inv(Take(w)) && List(Take(w).idx, L0(w.c0)) == List(w.idx, L0(w.c0))[1..]
  {
    HeadLinked(w);
    var id := List(w.idx, L0(w.c0))[0];
    assert id in w.timers.Keys;
    DetachIndexed(w.idx, id);
  }

  lemma {:induction false} RequeueKeeps(w: View, now: nat)
    requires Inv(w) && List(w.idx, L0(w.c0)) != [] && w.time <= now
    ensures List(w.idx, L0(w.c0))[0] in w.timers
    ensures Inv(Requeue(w, now)) && Requeue(w, now).timers == w.timers
    ensures var id := List(w.idx, L0(w.c0))[0];
            List(Requeue(w, now).idx, L0(w.c0)) ==
              List(w.idx, L0(w.c0))[1..] + if w.timers[id] <= now || Stuck(w.timers[id], now) then [id] else []
  {
    HeadLinked(w);
    var id := List(w.idx, L0(w.c0))[0];
    assert id in w.timers.Keys;
    DetachIndexed(w.idx, id);
    SlotForInTime(w, w.timers[id], now);
    PutTailIndexed(Detach(w.idx, id), SlotFor(w, w.timers[id], now), id);
    var q := List(w.idx, L0(w.c0));
    assert q[1..] + [] == q[1..];
  }

  // ---------------------------------------------------------------- the cursor moves

  /** Move the head of a first-level-1 list down, as wheel_cascade_l1 does for each node in turn. */
  function Lower(w: View, clock: nat): View
    requires List(w.idx, L1(w.c1)) != [] && List(w.idx, L1(w.c1))[0] in w.idx.where.Keys * w.timers.Keys
  {
    var id := List(w.idx, L1(w.c1))[0];
    Head(Unlink(w, id), SlotFor(w, w.timers[id], clock), id)
  }

  /** During the cascade the list under the second cursor is the one exception. */
  predicate TimelyBut(w: View) {
    forall id :: id in w.idx.where && id in w.timers ==>
      w.idx.where[id] == L1(w.c1) || InTime(w, w.idx.where[id], w.timers[id])
  }

  ghost predicate Cascading(w: View) {
    Cursors(w) && Indexed(w.idx) && w.idx.where.Keys == w.timers.Keys && TimelyBut(w)
  }

  lemma {:induction false} LowerKeeps(w: View, clock: nat)
    requires Cascading(w) && List(w.idx, L1(w.c1)) != [] && w.time <= clock
    ensures List(w.idx, L1(w.c1))[0] in w.idx.where.Keys * w.timers.Keys
    ensures Cascading(Lower(w, clock)) && Lower(w, clock).timers == w.timers
    ensures List(Lower(w, clock).idx, L1(w.c1)) == List(w.idx, L1(w.c1))[1..]
  {
    var id := List(w.idx, L1(w.c1))[0];
    assert Linked(w.idx, L1(w.c1), id);
    assert id in w.timers.Keys;
    DetachIndexed(w.idx, id);
    SlotForInTime(w, w.timers[id], clock);
    PutHeadIndexed(Detach(w.idx, id), SlotFor(w, w.timers[id], clock), id);
  }

  lemma {:induction false} CascadeDone(w: View)
    requires Cascading(w) && List(w.idx, L1(w.c1)) == []
    ensures Inv(w)
  {
    forall id | id in w.idx.where ensures w.idx.where[id] != L1(w.c1) {
      assert Linked(w.idx, L1(w.c1), id);
    }
  }

  /** The cursors after one tick. */
  function Ticked(w: View): View {
    var c0 := (w.c0 + 1) % SIZE;
    w.(c0 := c0, c1 := if c0 == 0 then (w.c1 + 1) % SIZE else w.c1, time := w.time + 1)
  }

  lemma {:induction false} TickedInTime(w: View, s: Slot, due: nat)
    requires Cursors(w) && InTime(w, s, due) && s != L0(w.c0)
    ensures InTime(Ticked(w), s, due) || (Ticked(w).c0 == 0 && s == L1(Ticked(w).c1))
  {
  }

  lemma {:induction false} TickedKeeps(w: View)
    requires Inv(w) && List(w.idx, L0(w.c0)) == []
    ensures Cascading(Ticked(w)) && (Ticked(w).c0 != 0 ==> Inv(Ticked(w)))
  {
    forall id | id in w.idx.where && id in w.timers
      ensures InTime(Ticked(w), w.idx.where[id], w.timers[id])
              || (Ticked(w).c0 == 0 && w.idx.where[id] == L1(Ticked(w).c1))
    {
      assert Linked(w.idx, L0(w.c0), id);
      TickedInTime(w, w.idx.where[id], w.timers[id]);
    }
  }

  /** When the current list is empty nothing registered is due. */
  lemma {:induction false} NothingDue(w: View, id: Id)
    requires Inv(w) && List(w.idx, L0(w.c0)) == [] && id in w.timers
    ensures w.timers[id] > w.time
  {
    assert id in w.idx.where.Keys;
    assert Linked(w.idx, L0(w.c0), id);
    LaterSlot(w, w.idx.where[id], w.timers[id]);
  }

  lemma {:induction false} LaterSlot(w: View, s: Slot, due: nat)
    requires Cursors(w) && InTime(w, s, due) && s != L0(w.c0)
    ensures due > w.time
  {
  }

  // ---------------------------------------------------------------- when the loop over a list ends

  /** The head of the current list fires, and its callback arms it again. */
  function Rearm(w: View, timeout: nat, now: nat): View
    requires List(w.idx, L0(w.c0)) != [] && List(w.idx, L0(w.c0))[0] in w.idx.where
  {
    var id := List(w.idx, L0(w.c0))[0];
    Head(Take(w).(timers := w.timers[id := timeout]), SlotFor(w, timeout, now), id)
  }

  /** One round of process_current_timer_slot.  The callbacks of the timers in `again` arm their own timer
      again, at the deadline given there; the others touch no timer. */
  function Round(w: View, now: nat, again: map<Id, nat>): View {
    var q := List(w.idx, L0(w.c0));
    if q == [] || q[0] !in w.timers || q[0] !in w.idx.where then w
    else if w.timers[q[0]] > now then Requeue(w, now)
    else if q[0] in again then Rearm(w, again[q[0]], now) else Take(w)
  }

  function Rounds(w: View, now: nat, again: map<Id, nat>, n: nat): View
    decreases n
  {
    if n == 0 then w else Rounds(Round(w, now, again), now, again, n - 1)
  }

  lemma {:induction false} RearmKeeps(w: View, timeout: nat, now: nat)
    requires Inv(w) && List(w.idx, L0(w.c0)) != [] && w.time <= now
    ensures List(w.idx, L0(w.c0))[0] in w.idx.where && Inv(Rearm(w, timeout, now))
    ensures var q := List(w.idx, L0(w.c0));
            List(Rearm(w, timeout, now).idx, L0(w.c0)) == if timeout <= now || Stuck(timeout, now) then q else q[1..]
  {
    HeadLinked(w);
    TakeKeeps(w);
    var q := List(w.idx, L0(w.c0));
    var a := Arm(q[0], timeout, now);
    ActKeeps(Take(w), a);
    assert Take(w).timers[q[0] := timeout] == w.timers[q[0] := timeout];
    assert SlotFor(Take(w), timeout, now) == SlotFor(w, timeout, now);
    assert Act(Take(w), a) == Rearm(w, timeout, now);
    SlotForInTime(w, timeout, now);
    assert [q[0]] + q[1..] == q;
  }

  lemma {:induction false} RoundKeeps(w: View, now: nat, again: map<Id, nat>)
    requires Inv(w) && w.time <= now
    ensures var v := Round(w, now, again); Inv(v) && v.time == w.time && v.c0 == w.c0
  {
    if List(w.idx, L0(w.c0)) != [] {
      HeadLinked(w);
      TakeKeeps(w);
      RequeueKeeps(w, now);
      if List(w.idx, L0(w.c0))[0] in again { RearmKeeps(w, again[List(w.idx, L0(w.c0))[0]], now); }
    }
  }

  /** A deadline that puts a timer into the current list. */
  predicate AtOnce(timeout: nat, now: nat) { timeout <= now || Stuck(timeout, now) }

  /** The timer comes back to the current list whenever it is taken from it: it is stuck, or due and armed
      again at once. */
  predicate Returns(w: View, now: nat, again: map<Id, nat>, id: Id)
    requires id in w.timers
  {
    Stuck(w.timers[id], now) || (w.timers[id] <= now && id in again && AtOnce(again[id], now))
  }

  ghost predicate NoneReturns(w: View, now: nat, again: map<Id, nat>) {
    forall id :: id in List(w.idx, L0(w.c0)) && id in w.timers ==> !Returns(w, now, again, id)
  }

  /** What a round does to the current list. */
  lemma {:induction false} RoundList(w: View, now: nat, again: map<Id, nat>)
    requires Inv(w) && w.time <= now && List(w.idx, L0(w.c0)) != []
    ensures var q := List(w.idx, L0(w.c0));
            var r := List(Round(w, now, again).idx, L0(w.c0));
            && q[0] in w.timers && q[0] !in q[1..]
            && (!Returns(w, now, again, q[0]) ==> r == q[1..])
            && (Returns(w, now, again, q[0]) ==> r == q || r == q[1..] + [q[0]])
  {
    HeadLinked(w);
    TakeKeeps(w);
    RequeueKeeps(w, now);
    var q := List(w.idx, L0(w.c0));
    assert NoDup(q);
    assert q[1..] + [] == q[1..];
    if q[0] in again { RearmKeeps(w, again[q[0]], now); }
  }

  lemma {:induction false} RoundTimers(w: View, now: nat, again: map<Id, nat>, id: Id)
    requires Inv(w) && w.time <= now && List(w.idx, L0(w.c0)) != [] && id in w.timers
    ensures var v := Round(w, now, again);
            && (id != List(w.idx, L0(w.c0))[0] ==> id in v.timers && v.timers[id] == w.timers[id])
            && (Returns(w, now, again, id) ==> id in v.timers && Returns(v, now, again, id))
  {
    HeadLinked(w);
  }

  lemma {:induction false} RoundShrinks(w: View, now: nat, again: map<Id, nat>)
    requires Inv(w) && w.time <= now && List(w.idx, L0(w.c0)) != [] && NoneReturns(w, now, again)
    ensures List(Round(w, now, again).idx, L0(w.c0)) == List(w.idx, L0(w.c0))[1..]
    ensures NoneReturns(Round(w, now, again), now, again)
  {
    var q, v := List(w.idx, L0(w.c0)), Round(w, now, again);
    RoundList(w, now, again);
    RoundKeeps(w, now, again);
    assert q[0] in q;
    forall id | id in List(v.idx, L0(v.c0)) && id in v.timers ensures !Returns(v, now, again, id) {
      assert id in q && id != q[0];
      ListedIsKnown(w, id);
      RoundTimers(w, now, again, id);
    }
  }

  lemma {:induction false} ListedIsKnown(w: View, id: Id)
    requires Inv(w) && id in List(w.idx, L0(w.c0))
    ensures id in w.timers
  {
    assert Linked(w.idx, L0(w.c0), id);
    assert id in w.idx.where.Keys;
  }

  lemma {:induction false} RoundsEnd(w: View, now: nat, again: map<Id, nat>)
    requires Inv(w) && w.time <= now && NoneReturns(w, now, again)
    ensures List(Rounds(w, now, again, |List(w.idx, L0(w.c0))|).idx, L0(w.c0)) == []
    decreases |List(w.idx, L0(w.c0))|
  {
    if List(w.idx, L0(w.c0)) != [] {
      RoundKeeps(w, now, again);
      RoundShrinks(w, now, again);
      RoundsEnd(Round(w, now, again), now, again);
    }
  }

  predicate HoldsReturning(w: View, now: nat, again: map<Id, nat>, id: Id) {
    id in List(w.idx, L0(w.c0)) && id in w.timers && Returns(w, now, again, id)
  }

  lemma {:induction false} ReturningStays(w: View, now: nat, again: map<Id, nat>, id: Id)
    requires Inv(w) && w.time <= now && HoldsReturning(w, now, again, id)
    ensures HoldsReturning(Round(w, now, again), now, again, id)
  {
    var q := List(w.idx, L0(w.c0));
    RoundList(w, now, again);
    RoundTimers(w, now, again, id);
    RoundKeeps(w, now, again);
    assert q == [q[0]] + q[1..];
  }

  lemma {:induction false} NeverEnds(w: View, now: nat, again: map<Id, nat>, id: Id, n: nat)
    requires Inv(w) && w.time <= now && HoldsReturning(w, now, again, id)
    ensures HoldsReturning(Rounds(w, now, again, n), now, again, id) && Rounds(w, now, again, n).c0 == w.c0
    decreases n
  {
    if n > 0 {
      RoundKeeps(w, now, again);
      ReturningStays(w, now, again, id);
      NeverEnds(Round(w, now, again), now, again, id, n - 1);
    }
  }

  /** With callbacks that do nothing or arm their own timer again, the loop over the current list ends if
      and only if no timer in it lies a positive multiple of 2^32 ms ahead, and none that is due is armed
      again at or before now or such a multiple ahead. */
  lemma {:induction false} SlotLoopEndsIff(w: View, now: nat, again: map<Id, nat>)
    requires Inv(w) && w.time <= now
    ensures (exists n: nat :: List(Rounds(w, now, again, n).idx, L0(w.c0)) == []) <==> NoneReturns(w, now, again)
  {
    if NoneReturns(w, now, again) {
      RoundsEnd(w, now, again);
    } else {
      var id :| id in List(w.idx, L0(w.c0)) && id in w.timers && Returns(w, now, again, id);
      forall n: nat ensures List(Rounds(w, now, again, n).idx, L0(w.c0)) != [] {
        NeverEnds(w, now, again, id, n);
      }
    }
  }

  /** A wheel with one timer, armed at time 0. */
  function Single(timeout: nat): View {
    Act(View(map[], Index(map[], map[]), 0, 0, 0), Arm(7, timeout, 0))
  }

  lemma {:induction false} SingleIs(timeout: nat)
    requires AtOnce(timeout, 0)
    ensures var w := Single(timeout);
            List(w.idx, L0(0)) == [7] && w.timers == map[7 := timeout] && Inv(w) && w.time == w.c0 == 0
  {
    var e := View(map[], Index(map[], map[]), 0, 0, 0);
    assert Indexed(e.idx);
    ActKeeps(e, Arm(7, timeout, 0));
    SlotForInTime(e, timeout, 0);
    assert [7 as Id] + [] == [7];
  }

  /** A timer armed 2^32 ms ahead goes into the current list, and the loop never ends, whatever its callback
      would do. */
  lemma {:induction false} StuckExample(again: map<Id, nat>, n: nat)
    ensures 7 in List(Rounds(Single(MOD), 0, again, n).idx, L0(0))
  {
    SingleIs(MOD);
    NeverEnds(Single(MOD), 0, again, 7, n);
  }

  /** A timer whose callback arms it again at the same instant fires for ever. */
  lemma {:induction false} RearmExample(n: nat)
    ensures 7 in List(Rounds(Single(0), 0, map[7 := 0], n).idx, L0(0))
  {
    SingleIs(0);
    NeverEnds(Single(0), 0, map[7 := 0], 7, n);
  }

  // ---------------------------------------------------------------- the simple rule

  datatype Event = Fired(id: Id, due: nat) | Armed(id: Id, due: nat) | Cancelled(id: Id)

  function Do(table: map<Id, nat>, e: Event): map<Id, nat> {
    match e
    case Fired(id, _) => table - {id}
    case Armed(id, due) => table[id := due]
    case Cancelled(id) => table - {id}
  }

  function Replay(table: map<Id, nat>, log: seq<Event>): map<Id, nat> {
    if log == [] then table else Do(Replay(table, log[..|log| - 1]), log[|log| - 1])
  }

  /** Whatever fires at event i is registered then, with a deadline that has passed. */
  predicate FiringAllowed(table: map<Id, nat>, log: seq<Event>, now: nat, i: nat)
    requires i < |log|
  {
    log[i].Fired? ==>
      var t := Replay(table, log[..i]);
      log[i].id in t && t[log[i].id] == log[i].due && log[i].due <= now
  }

  predicate Lawful(table: map<Id, nat>, log: seq<Event>, now: nat) {
    forall i :: 0 <= i < |log| ==> FiringAllowed(table, log, now, i)
  }

  lemma {:induction false} LawfulMore(table: map<Id, nat>, log: seq<Event>, now: nat, e: Event)
    requires Lawful(table, log, now)
    requires e.Fired? ==> var t := Replay(table, log); e.id in t && t[e.id] == e.due <= now
    ensures Lawful(table, log + [e], now) && Replay(table, log + [e]) == Do(Replay(table, log), e)
  {
    var more := log + [e];
    assert more[..|log|] == log;
    forall i | 0 <= i < |more| ensures FiringAllowed(table, more, now, i) {
      if i < |log| {
        assert FiringAllowed(table, log, now, i);
        assert more[..i] == log[..i];
      }
    }
  }

  predicate Touched(log: seq<Event>, id: Id) {
    exists i :: 0 <= i < |log| && !log[i].Fired? && log[i].id == id
  }

  /** If nothing due is left in the table, every timer that was due at the start has fired with its
      own deadline, unless a callback cancelled or re-armed it; and a timer that was not due has not
      fired unless a callback armed it. */
  lemma {:induction false} ExactlyTheDueFire(table: map<Id, nat>, log: seq<Event>, now: nat, id: Id)
    requires Lawful(table, log, now) && !Touched(log, id)
    requires id in table && (id in Replay(table, log) ==> Replay(table, log)[id] > now)
    ensures table[id] <= now <==> Fired(id, table[id]) in log
    ensures table[id] > now <==> id in Replay(table, log)
  {
    UntouchedFires(table, log, now, id, |log|);
    assert log[..|log|] == log;
    if Fired(id, table[id]) in log {
      var i :| 0 <= i < |log| && log[i] == Fired(id, table[id]);
      assert FiringAllowed(table, log, now, i);
    }
  }

  lemma {:induction false} UntouchedFires(table: map<Id, nat>, log: seq<Event>, now: nat, id: Id, k: nat)
    requires Lawful(table, log, now) && !Touched(log, id) && id in table && k <= |log|
    ensures id in Replay(table, log[..k]) ==> Replay(table, log[..k])[id] == table[id]
    ensures id !in Replay(table, log[..k]) ==> Fired(id, table[id]) in log[..k]
    decreases k
  {
    if k > 0 {
      UntouchedFires(table, log, now, id, k - 1);
      assert log[..k][..k - 1] == log[..k - 1] && log[..k][k - 1] == log[k - 1];
      assert FiringAllowed(table, log, now, k - 1);
      assert log[k - 1].id == id ==> log[k - 1].Fired?;
    }
  }

  /** Between two firings of a timer it has been armed. */
  lemma {:induction false} FiresOnce(table: map<Id, nat>, log: seq<Event>, now: nat, i: nat, j: nat)
    requires Lawful(table, log, now) && i < j < |log| && log[i].Fired? && log[j].Fired?
    requires log[i].id == log[j].id
    ensures exists k :: i < k < j && log[k].Armed? && log[k].id == log[i].id
  {
    assert FiringAllowed(table, log, now, j);
    ArmedSince(table, log, i, j);
  }

  lemma {:induction false} ArmedSince(table: map<Id, nat>, log: seq<Event>, i: nat, j: nat)
    requires i < j <= |log| && log[i].Fired? && log[i].id in Replay(table, log[..j])
    ensures exists k :: i < k < j && log[k].Armed? && log[k].id == log[i].id
    decreases j
  {
    assert log[..j][..j - 1] == log[..j - 1] && log[..j][j - 1] == log[j - 1];
    if j - 1 > i && !(log[j - 1].Armed? && log[j - 1].id == log[i].id) { ArmedSince(table, log, i, j - 1); }
  }

  // ---------------------------------------------------------------- the code

  predicate NoneStuck(timers: map<Id, nat>, now: nat) {
    forall id :: id in timers ==> !Stuck(timers[id], now)
  }

  /** What a callback may do: read the clock no earlier than the caller did, and arm no stuck timer. */
  predicate Allowed(a: Action, now: nat) {
    a.Arm? ==> a.clock >= now && !Stuck(a.timeout, now)
  }

  predicate AllAllowed(actions: seq<Action>, now: nat) {
    forall i :: 0 <= i < |actions| ==> Allowed(actions[i], now)
  }

  predicate ArmsLater(actions: seq<Action>, now: nat) {
    forall i :: 0 <= i < |actions| ==> Later(actions[i], now)
  }

  predicate Later(a: Action, now: nat) { a.Arm? ==> a.timeout > now }

  /** `cb(k)` is what the k-th callback does, and from number n on callbacks arm only later deadlines. */
  ghost predicate SettledFrom(cb: nat -> seq<Action>, now: nat, n: nat) {
    forall k: nat :: AllAllowed(cb(k), now) && (k >= n ==> ArmsLater(cb(k), now))
  }

  /** All callbacks are allowed, and all but finitely many arm only later deadlines. */
  ghost predicate Settles(cb: nat -> seq<Action>, now: nat) {
    exists n: nat :: SettledFrom(cb, now, n)
  }

  lemma {:induction false} LaterSettles(cb: nat -> seq<Action>, now: nat)
    requires forall k: nat :: AllAllowed(cb(k), now) && ArmsLater(cb(k), now)
    ensures Settles(cb, now)
  {
    assert SettledFrom(cb, now, 0);
  }

  function Due(timers: map<Id, nat>, now: nat): set<Id> {
    set id | id in timers && timers[id] <= now
  }

  lemma {:induction false} FewerDue(a: set<Id>, b: set<Id>, id: Id)
    requires a <= b - {id} && id in b
    ensures |a| < |b|
  {
    SubsetSize(a, b - {id});
  }

  lemma {:induction false} SubsetSize(a: set<Id>, b: set<Id>)
    requires a <= b
    ensures |a| <= |b|
    decreases |a|
  {
    if x :| x in a { SubsetSize(a - {x}, b - {x}); }
  }

  function EventOf(a: Action): Event {
    match a
    case Arm(id, timeout, _) => Armed(id, timeout)
    case Cancel(id) => Cancelled(id)
  }

  function EventsOf(actions: seq<Action>): seq<Event> {
    seq(|actions|, i requires 0 <= i < |actions| => EventOf(actions[i]))
  }

  /** What happens when timers fire one after the other: each firing, followed by all that its own callback
      does. */
  ghost function Trace(fired: seq<Event>, cb: nat -> seq<Action>): seq<Event> {
    if fired == [] then []
    else
      var n := |fired| - 1;
      Trace(fired[..n], cb) + ([fired[n]] + EventsOf(cb(n)))
  }

  lemma {:induction false} TraceMore(fired: seq<Event>, e: Event, cb: nat -> seq<Action>)
    ensures Trace(fired + [e], cb) == Trace(fired, cb) + ([e] + EventsOf(cb(|fired|)))
  {
    assert (fired + [e])[..|fired|] == fired;
  }

  class Wheel {
    var timers: map<Id, nat>
    var where: map<Id, Slot>
    var lists: map<Slot, seq<Id>>
    var c0: nat
    var c1: nat
    var last: nat
    ghost var time: nat
    ghost var start: map<Id, nat>
    ghost var log: seq<Event>
    ghost var fired: seq<Event>

    ghost function V(): View
      reads this
    {
      View(timers, Index(where, lists), c0, c1, time)
    }

    /** Between calls the cursors stand for last_timer_check_ms. */
    ghost predicate Valid()
      reads this
    {
      Inv(V()) && time == last
    }

    /** Inside do_timer_tasks at time `now`: the table is what the events so far make of it. */
    ghost predicate Running(now: nat)
      reads this
    {
      && Inv(V()) && last <= time <= now && NoneStuck(timers, now)
      && timers == Replay(start, log) && Lawful(start, log, now)
    }

    /** The log is the firings so far, each with all that its callback did, and nothing else. */
    ghost predicate Traced(cb: nat -> seq<Action>)
      reads this
    {
      log == Trace(fired, cb) && forall i :: 0 <= i < |fired| ==> fired[i].Fired?
    }

    constructor (now: nat)
      ensures Valid() && timers == map[] && last == now
    {
      timers, where, lists, c0, c1, last, time := map[], map[], map[], 0, 0, now, now;
      start, log, fired := map[], [], [];
      new;
      assert Indexed(V().idx);
    }

    method Slots(timeout: nat, now: nat) returns (s: Slot)
      ensures s == SlotFor(V(), timeout, now)
    {
      if timeout <= now { return L0(c0); }
      var delta := timeout - now;
      var l0Ticks := delta % MOD;
      if l0Ticks < SIZE { return L0((c0 + l0Ticks) % SIZE); }
      var l1Ticks := (delta / SIZE) % MOD;
      if l1Ticks >= SIZE { l1Ticks := SIZE - 1; }
      return L1((c1 + l1Ticks) % SIZE);
    }

    method Remove(id: Id)
      requires id in where
      modifies this`where, this`lists
      ensures V() == Unlink(old(V()), id)
    {
      var s := where[id];
      var q := if s in lists then lists[s] else [];
      lists := lists[s := Without(q, id)];
      where := where - {id};
    }

    method AddAt(id: Id, now: nat)
      requires id in timers
      modifies this`where, this`lists
      ensures V() == Head(old(V()), SlotFor(old(V()), timers[id], now), id)
    {
      var s := Slots(timers[id], now);
      var q := if s in lists then lists[s] else [];
      lists, where := lists[s := [id] + q], where[id := s];
    }

    /** register_task on a timer. */
    method ArmTimer(id: Id, timeout: nat, clock: nat)
      requires Inv(V()) && time <= clock
      modifies this`timers, this`where, this`lists
      ensures V() == Act(old(V()), Arm(id, timeout, clock)) && timers == old(timers)[id := timeout]
    {
      if id in timers { Remove(id); }
      timers := timers[id := timeout];
      AddAt(id, clock);
    }

    /** unregister_task on a timer. */
    method CancelTimer(id: Id)
      requires Inv(V())
      modifies this`timers, this`where, this`lists
      ensures V() == Act(old(V()), Cancel(id)) && timers == old(timers) - {id}
    {
      if id in timers {
        Remove(id);
        timers := timers - {id};
      }
    }

    method Perform(a: Action)
      requires Inv(V()) && (a.Arm? ==> time <= a.clock)
      modifies this`timers, this`where, this`lists
      ensures V() == Act(old(V()), a) && Inv(V())
      ensures a.Arm? ==> timers == old(timers)[a.id := a.timeout]
      ensures a.Cancel? ==> timers == old(timers) - {a.id}
    {
      ActKeeps(V(), a);
      match a
      case Arm(id, timeout, clock) => ArmTimer(id, timeout, clock);
      case Cancel(id) => CancelTimer(id);
    }

    method Register(id: Id, timeout: nat, clock: nat)
      requires Valid() && last <= clock
      modifies this
      ensures Valid() && timers == old(timers)[id := timeout] && last == old(last)
    {
      Perform(Arm(id, timeout, clock));
    }

    method Unregister(id: Id)
      requires Valid()
      modifies this
      ensures Valid() && timers == old(timers) - {id} && last == old(last)
    {
      Perform(Cancel(id));
    }

    /** One thing a callback does to the wheel. */
    method Effect(a: Action, now: nat)
      requires Running(now) && Allowed(a, now)
      modifies this`timers, this`where, this`lists, this`log
      ensures Running(now) && log == old(log) + [EventOf(a)]
      ensures Later(a, now) ==> Due(timers, now) <= old(Due(timers, now))
    {
      LawfulMore(start, log, now, EventOf(a));
      Perform(a);
      log := log + [EventOf(a)];
    }

    /** What a callback does to the wheel. */
    method Callback(actions: seq<Action>, now: nat)
      requires Running(now) && AllAllowed(actions, now)
      modifies this`timers, this`where, this`lists, this`log
      ensures Running(now) && log == old(log) + EventsOf(actions)
      ensures ArmsLater(actions, now) ==> Due(timers, now) <= old(Due(timers, now))
    {
      for i := 0 to |actions|
        invariant Running(now) && log == old(log) + EventsOf(actions)[..i]
        invariant ArmsLater(actions, now) ==> Due(timers, now) <= old(Due(timers, now))
      {
        assert Allowed(actions[i], now);
        Effect(actions[i], now);
      }
    }

    /** The head of the current list is not due: link it further on. */
    method PutBack(now: nat)
      requires Running(now) && L0(c0) in lists && lists[L0(c0)] != []
      requires lists[L0(c0)][0] in timers && timers[lists[L0(c0)][0]] > now
      modifies this`where, this`lists
      ensures Running(now) && |List(V().idx, L0(c0))| < old(|List(V().idx, L0(c0))|)
    {
      ghost var w := V();
      HeadLinked(w);
      RequeueKeeps(w, now);
      Relink(now);
    }

    method Relink(now: nat)
      requires L0(c0) in lists && lists[L0(c0)] != [] && lists[L0(c0)][0] in timers && lists[L0(c0)][0] in where
      modifies this`where, this`lists
      ensures V() == Requeue(old(V()), now)
    {
      var id := lists[L0(c0)][0];
      Remove(id);
      RequeueAt(id, now);
    }

    /** wheel_requeue_timer_locked: at the end of its list. */
    method RequeueAt(id: Id, now: nat)
      requires id in timers
      modifies this`where, this`lists
      ensures V() == Tail(old(V()), SlotFor(old(V()), timers[id], now), id)
    {
      var s := Slots(timers[id], now);
      var q := if s in lists then lists[s] else [];
      lists, where := lists[s := q + [id]], where[id := s];
    }

    /** The head of the current list is due: unlink it; it is no longer registered. */
    method FireHead(now: nat)
      requires Running(now) && L0(c0) in lists && lists[L0(c0)] != []
      requires lists[L0(c0)][0] in timers && timers[lists[L0(c0)][0]] <= now
      modifies this`timers, this`where, this`lists, this`log
      ensures Running(now) && timers == old(timers) - {old(lists[L0(c0)][0])}
      ensures log == old(log) + [Fired(old(lists[L0(c0)][0]), old(timers[lists[L0(c0)][0]]))]
    {
      ghost var w := V();
      HeadLinked(w);
      TakeKeeps(w);
      var id := lists[L0(c0)][0];
      LawfulMore(start, log, now, Fired(id, timers[id]));
      Remove(id);
      log := log + [Fired(id, timers[id])];
      timers := timers - {id};
      assert V() == Take(w);
    }

    /** fire_timer_task: a due timer fires and its callback runs. */
    method Fire(now: nat, actions: seq<Action>)
      requires Running(now) && L0(c0) in lists && lists[L0(c0)] != [] && AllAllowed(actions, now)
      requires lists[L0(c0)][0] in timers && timers[lists[L0(c0)][0]] <= now
      modifies this`timers, this`where, this`lists, this`log
      ensures Running(now)
      ensures log == old(log) + ([Fired(old(lists[L0(c0)][0]), old(timers[lists[L0(c0)][0]]))] + EventsOf(actions))
      ensures ArmsLater(actions, now) ==> |Due(timers, now)| < old(|Due(timers, now)|)
    {
      ghost var before, id := Due(timers, now), lists[L0(c0)][0];
      FireHead(now);
      assert Due(timers, now) == before - {id};
      Callback(actions, now);
      if ArmsLater(actions, now) { FewerDue(Due(timers, now), before, id); }
    }

    /** The next firing, with the callback of that number. */
    method FireNext(now: nat, cb: nat -> seq<Action>, k: nat)
      requires Running(now) && L0(c0) in lists && lists[L0(c0)] != [] && AllAllowed(cb(k), now)
      requires lists[L0(c0)][0] in timers && timers[lists[L0(c0)][0]] <= now && Traced(cb) && k == |fired|
      modifies this`timers, this`where, this`lists, this`log, this`fired
      ensures Running(now) && Traced(cb) && |fired| == k + 1
      ensures ArmsLater(cb(k), now) ==> |Due(timers, now)| < old(|Due(timers, now)|)
    {
      ghost var e := Fired(lists[L0(c0)][0], timers[lists[L0(c0)][0]]);
      TraceMore(fired, e, cb);
      Fire(now, cb(k));
      fired := fired + [e];
    }

    /** process_current_timer_slot, starting with callback number k: it ends, with nothing left in the
        current list.  Returns the number of the next callback. */
    method ProcessCurrentSlot(now: nat, cb: nat -> seq<Action>, k: nat) returns (next: nat)
      requires Running(now) && Settles(cb, now) && Traced(cb) && k == |fired|
      modifies this`timers, this`where, this`lists, this`log, this`fired
      ensures Running(now) && List(V().idx, L0(c0)) == []
      ensures Traced(cb) && next == |fired|
    {
      ghost var n: nat :| SettledFrom(cb, now, n);
      next := k;
      while L0(c0) in lists && lists[L0(c0)] != []
        invariant Running(now) && Traced(cb) && next == |fired|
        decreases if next < n then n - next else 0, |Due(timers, now)|, |List(V().idx, L0(c0))|
      {
        TakeKeeps(V());
        var id := lists[L0(c0)][0];
        if timers[id] > now {
          PutBack(now);
        } else {
          FireNext(now, cb, next);
          next := next + 1;
        }
      }
    }

    /** wheel_cascade_l1. */
    method Cascade(clock: nat)
      requires Cascading(V()) && time <= clock
      modifies this`where, this`lists
      ensures Inv(V())
    {
      while L1(c1) in lists && lists[L1(c1)] != []
        invariant Cascading(V())
        decreases |List(V().idx, L1(c1))|
      {
        LowerKeeps(V(), clock);
        LowerHead(clock);
      }
      CascadeDone(V());
    }

    method LowerHead(clock: nat)
      requires L1(c1) in lists && lists[L1(c1)] != [] && lists[L1(c1)][0] in timers && lists[L1(c1)][0] in where
      modifies this`where, this`lists
      ensures V() == Lower(old(V()), clock)
    {
      var id := lists[L1(c1)][0];
      Remove(id);
      AddAt(id, clock);
    }

    /** wheel_advance. */
    method Advance(clock: nat)
      requires Inv(V()) && List(V().idx, L0(c0)) == [] && time < clock
      modifies this`where, this`lists, this`c0, this`c1, this`time
      ensures Inv(V()) && time == old(time) + 1
    {
      ghost var w := V();
      TickedKeeps(w);
      c0, time := (c0 + 1) % SIZE, time + 1;
      if c0 == 0 { c1 := (c1 + 1) % SIZE; }
      assert V() == Ticked(w);
      if c0 == 0 { Cascade(clock); }
    }

    /** do_timer_tasks: afterwards no registered timer is due, and the table has changed only by
        firings of timers that were due and by what the callbacks did: the log is each firing followed by
        exactly what its own callback did.  Returns the number of firings. */
    method DoTimerTasks(now: nat, cb: nat -> seq<Action>) returns (k: nat)
      requires Valid() && last <= now && NoneStuck(timers, now) && Settles(cb, now)
      modifies this
      ensures Valid() && last == now
      ensures timers == Replay(old(timers), log) && Lawful(old(timers), log, now)
      ensures Traced(cb) && k == |fired|
      ensures forall id :: id in timers ==> timers[id] > now
    {
      start, log, fired := timers, [], [];
      var elapsed := now - last;
      k := ProcessCurrentSlot(now, cb, 0);
      for i := 0 to elapsed
        invariant Running(now) && List(V().idx, L0(c0)) == [] && Traced(cb) && k == |fired|
        invariant time == last + i && last == old(last) && start == old(timers)
      {
        var clock: nat :| clock >= now;
        Advance(clock);
        k := ProcessCurrentSlot(now, cb, k);
      }
      last := last + elapsed;
      forall id | id in timers ensures timers[id] > now { NothingDue(V(), id); }
    }
  }
}
