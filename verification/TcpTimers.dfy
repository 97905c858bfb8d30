/** The seven deadlines of a TCP connection and the one timer task they share (main/tcp.c). */
module TcpTimers {

  const STOP: nat := 0
  const COUNT: nat := 7

  /** In the order tcp_reset_timer lists them: keepalive, retransmit, persist, ack, nagle, time-wait,
      fin-wait-2. */
  type Deadlines = d: seq<nat> | |d| == COUNT witness [0, 0, 0, 0, 0, 0, 0]

  /** In the order tcp_timer_cb looks at them. */
  const ORDER: seq<nat> := [4, 1, 3, 2, 5, 6, 0]

  /** The task is registered exactly when some deadline is set, and then at the earliest of them. */
  predicate Agrees(d: Deadlines, registered: bool, timeout: nat) {
    if registered then IsEarliest(d, timeout) else timeout == STOP && forall i :: 0 <= i < COUNT ==> d[i] == STOP
  }

  predicate IsEarliest(d: Deadlines, t: nat) {
    t != STOP && t in d && forall i :: 0 <= i < COUNT ==> d[i] == STOP || t <= d[i]
  }

  predicate Due(d: Deadlines, now: nat, i: nat)
    requires i < COUNT
  {
    d[i] != STOP && d[i] <= now
  }

  /** The task's deadline has passed exactly when that of one of the seven has: no deadline is missed,
      and the task is never woken for nothing. */
  lemma {:induction false} TaskDueIff(d: Deadlines, registered: bool, timeout: nat, now: nat)
    requires Agrees(d, registered, timeout)
    ensures registered && timeout <= now <==> exists i :: 0 <= i < COUNT && Due(d, now, i)
  {
    if registered && timeout <= now {
      var i :| 0 <= i < COUNT && d[i] == timeout;
      assert Due(d, now, i);
    }
  }

  /** There is only one registration that agrees with given deadlines, so the shortcut of
      tcp_update_timer and a full recomputation cannot differ. */
  lemma {:induction false} AgreesUnique(d: Deadlines, r1: bool, t1: nat, r2: bool, t2: nat)
    requires Agrees(d, r1, t1) && Agrees(d, r2, t2)
    ensures r1 == r2 && t1 == t2
  {
    if r1 {
      var i :| 0 <= i < COUNT && d[i] == t1;
      assert r2;
      var j :| 0 <= j < COUNT && d[j] == t2;
    }
  }

  /** What tcp_update_timer does to the deadlines themselves. */
  function Updated(d: Deadlines, u: Update): Deadlines {
    if d[u.which] == STOP || d[u.which] > u.deadline || u.force then d[u.which := u.deadline] else d
  }

  type Index = i: nat | i < COUNT
  datatype Update = Update(which: Index, deadline: nat, force: bool)

  function UpdatedAll(d: Deadlines, us: seq<Update>): Deadlines {
    if us == [] then d else Updated(UpdatedAll(d, us[..|us| - 1]), us[|us| - 1])
  }

  /** Changing one deadline that is not the earliest moves the earliest only if the new one is earlier. */
  lemma {:induction false} ShortcutAgrees(d: Deadlines, t: nat, i: Index, x: nat)
    requires IsEarliest(d, t) && d[i] != t
    ensures IsEarliest(d[i := x], if x != STOP && x < t then x else t)
  {
    var e := d[i := x];
    var j :| 0 <= j < COUNT && d[j] == t;
    assert e[j] == t;
    assert e[i] == x;
  }

  class Timer {
    var deadlines: Deadlines
    var registered: bool
    var timeout: nat

    predicate Valid()
      reads this
    {
      Agrees(deadlines, registered, timeout)
    }

    constructor ()
      ensures Valid() && forall i :: 0 <= i < COUNT ==> deadlines[i] == STOP
    {
      deadlines, registered, timeout := [0, 0, 0, 0, 0, 0, 0], false, STOP;
    }

    /** tcp_reset_timer: from any state. */
    method Reset()
      modifies this`registered, this`timeout
      ensures Valid()
    {
      var next := 0;
      for i := 0 to COUNT
        invariant next == 0 ==> forall j :: 0 <= j < i ==> deadlines[j] == STOP
        invariant next != 0 ==> next in deadlines
                                && forall j :: 0 <= j < i ==> deadlines[j] == STOP || next <= deadlines[j]
      {
        if deadlines[i] != 0 && (next == 0 || deadlines[i] < next) { next := deadlines[i]; }
      }
      registered, timeout := next != 0, next;
    }

    /** tcp_update_timer, called with the task in agreement or from inside its callback after a reset. */
    method Update(u: Update)
      requires Valid()
      modifies this
      ensures Valid() && deadlines == Updated(old(deadlines), u)
    {
      if deadlines[u.which] == u.deadline { return; }
      if deadlines[u.which] == STOP || deadlines[u.which] > u.deadline || u.force {
        var was := deadlines[u.which];
        if registered && was != timeout { ShortcutAgrees(deadlines, timeout, u.which, u.deadline); }
        deadlines := deadlines[u.which := u.deadline];
        if !registered || was == timeout {
          Reset();
        } else if u.deadline != STOP && (timeout == STOP || u.deadline < timeout) {
          timeout, registered := u.deadline, true;
        }
      }
    }

    /** tcp_deadline_due. */
    method DeadlineDue(now: nat, i: Index) returns (due: bool)
      modifies this
      ensures due == old(Due(deadlines, now, i))
      ensures due ==> Valid() && deadlines == old(deadlines)[i := STOP]
      ensures !due ==> deadlines == old(deadlines) && registered == old(registered) && timeout == old(timeout)
    {
      if deadlines[i] == STOP { return false; }
      if now >= deadlines[i] {
        deadlines := deadlines[i := STOP];
        Reset();
        return true;
      }
      return false;
    }

    /** The timer wheel fires the task (it is no longer registered) and calls tcp_timer_cb, which
        serves the first due deadline in its order; `later` are the updates that service makes. */
    method Fire(now: nat, later: seq<Update>) returns (served: Index)
      requires Valid() && registered && timeout <= now
      modifies this
      ensures Valid()
      ensures old(Due(deadlines, now, served))
      ensures exists k :: 0 <= k < COUNT && ORDER[k] == served
                          && forall j :: 0 <= j < k ==> !old(Due(deadlines, now, ORDER[j]))
      ensures deadlines == UpdatedAll(old(deadlines)[served := STOP], later)
    {
      TaskDueIff(deadlines, registered, timeout, now);
      registered := false;
      var k, due := 0, false;
      while !due && k < COUNT
        invariant 0 <= k <= COUNT
        invariant forall j :: 0 <= j < k - (if due then 1 else 0) ==> !old(Due(deadlines, now, ORDER[j]))
        invariant !due ==> deadlines == old(deadlines)
        invariant due ==> k > 0 && Valid() && deadlines == old(deadlines)[ORDER[k - 1] := STOP]
        invariant due ==> old(Due(deadlines, now, ORDER[k - 1]))
        decreases COUNT - k
      {
        due := DeadlineDue(now, ORDER[k]);
        k := k + 1;
      }
      OrderCovers(old(deadlines), now);
      served := ORDER[k - 1];
      ghost var base := deadlines;
      for i := 0 to |later|
        invariant Valid() && deadlines == UpdatedAll(base, later[..i])
      {
        Update(later[i]);
        assert later[..i + 1][..i] == later[..i];
      }
      assert later[..|later|] == later;
    }
  }

  /** The callback's order misses none of the seven. */
  lemma {:induction false} OrderCovers(d: Deadlines, now: nat)
    ensures (exists i :: 0 <= i < COUNT && Due(d, now, i)) ==> exists k :: 0 <= k < COUNT && Due(d, now, ORDER[k])
  {
    if i :| 0 <= i < COUNT && Due(d, now, i) {
      assert ORDER[0] == 4 && ORDER[1] == 1 && ORDER[2] == 3 && ORDER[3] == 2;
      assert ORDER[4] == 5 && ORDER[5] == 6 && ORDER[6] == 0;
      var k := if i == 4 then 0 else if i == 1 then 1 else if i == 3 then 2 else if i == 2 then 3
               else if i == 5 then 4 else if i == 6 then 5 else 6;
      assert ORDER[k] == i;
    }
  }
}
