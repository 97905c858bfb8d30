/** The multi-waiter completion queue of main/req_async.c and its producer `req_notify` in
    main/req.c, as a step relation over any number of workers, submitters and waiters.

    Each access to shared memory is one step.  The completion queue itself is used through the
    interface proved in module MpscQueue: nodes are handed out in the order of their head
    exchanges, and a pop may come back empty.  `stage` is a history variable: where each submitted
    request is in its life. */
module AsyncCq {
  import opened Common

  type Thread = nat
  type Req = nat

  const NO_NEED: nat := 0xFFFF_FFFF                  // wait_need when nobody waits
  const INT_MAX: nat := 0x7FFF_FFFF
  const EVENTFD_MAX: nat := 0xFFFF_FFFF_FFFF_FFFE

  /** The arguments of async_wait and the requests collected so far. */
  datatype Wait = Wait(min: nat, max: nat, got: seq<Req>)

  predicate ValidWait(w: Wait) {
    0 < w.min <= w.max <= INT_MAX && |w.got| <= w.max
  }

  datatype PollResult = Readable | TimedOut | Failed

  /** What a thread does after notify_queue_notify: a waiter goes on, a worker is finished. */
  datatype Then = Finish | Resume(w: Wait, poll: PollResult)

  datatype Pc =
    | Idle
    | Submitting
    // req_notify
    | Count(r: Req) | Publish(r: Req, queued: nat) | LoadNeed(queued: nat)
    // notify_queue_notify
    | Cas(next: Then) | Write(next: Then) | Undo(next: Then)
    // async_wait
    | Pop(w: Wait) | Uncount(w: Wait, r: Req) | Arm(w: Wait) | Recheck(w: Wait) | Unlock(w: Wait)
    | Sleep(w: Wait) | Relock(w: Wait, poll: PollResult)
    | DrainRead(w: Wait) | DrainClear(w: Wait) | Disarm(w: Wait, poll: PollResult)
    | ReadyNeed(w: Wait, poll: PollResult) | ReadyCount(w: Wait, poll: PollResult, need: nat)
    | Exit(w: Wait)

  datatype Waiter = Waiter(t: Thread, need: nat)

  datatype Stage =
    Submitted | Completing(t: Thread) | Counted(t: Thread) | Queued | Popping(t: Thread) | Returned(t: Thread)

  datatype State = State(
    done: set<Req>, attached: set<Req>,          // r->done, r->async.cq != NULL
    count: nat, queue: seq<Req>,                 // complete_count, completions
    needed: nat, waiters: seq<Waiter>,           // wait_need and the waiter list
    mtx: Option<Thread>,                         // entry->mtx
    efd: nat, pending: bool,
    pc: map<Thread, Pc>,
    stage: map<Req, Stage>)

  datatype Action =
    | BeginSubmit | SubmitOne(r: Req) | EndSubmit
    | Complete(r: Req)                           // a worker calls req_notify(r)
    | BeginWait(w: Wait)
    | PopOne | PopNone(expired: bool)
    | Wake(poll: PollResult)
    | Go                                         // the only possible next access

  // ---------------------------------------------------------------- the code

  function MinNeed(ws: seq<Waiter>): nat {
    if ws == [] then NO_NEED
    else if ws[0].need < MinNeed(ws[1..]) then ws[0].need else MinNeed(ws[1..])
  }

  function Unlisted(ws: seq<Waiter>, t: Thread): seq<Waiter> {
    if ws == [] then [] else if ws[0].t == t then ws[1..] else [ws[0]] + Unlisted(ws[1..], t)
  }

  function NeedOf(w: Wait): int {
    w.min - |w.got|
  }

  function After(next: Then): Pc {
    match next
    case Finish => Idle
    case Resume(w, poll) => if poll == Failed then Exit(w) else Pop(w)
  }

  predicate Enabled(s: State, t: Thread, a: Action) {
    && t in s.pc
    && match s.pc[t]
       case Idle =>
         (match a
          case BeginSubmit => s.mtx == None
          case BeginWait(w) => s.mtx == None && ValidWait(w) && w.got == []
          case Complete(_) => true
          case _ => false)
       case Submitting => (a.SubmitOne? && a.r !in s.done && a.r !in s.attached) || a.EndSubmit?
       case Pop(w) => if a.PopOne? then |w.got| < w.max && s.queue != [] else a.PopNone?
       case Sleep(_) => a.Wake? && (a.poll == Readable ==> s.efd > 0)
       case Relock(_, _) => a.Go? && s.mtx == None
       case _ => a.Go?
  }

  /** Where a thread goes next. */
  function NextPc(s: State, t: Thread, a: Action): Pc
    requires Enabled(s, t, a)
  {
    match s.pc[t]
    case Idle =>
      (match a
       case BeginSubmit => Submitting
       case BeginWait(w) => Pop(w)
       case Complete(r) => if r !in s.done && r in s.attached then Count(r) else Idle)
    case Submitting => if a.EndSubmit? then Idle else Submitting
    case Count(r) => Publish(r, s.count + 1)
    case Publish(r, queued) => LoadNeed(queued)
    case LoadNeed(queued) => if s.needed != NO_NEED && queued >= s.needed then Cas(Finish) else Idle
    case Cas(next) => if s.pending then After(next) else Write(next)
    case Write(next) => if s.efd < EVENTFD_MAX then After(next) else Undo(next)
    case Undo(next) => After(next)
    case Pop(w) =>
      if a.PopOne? then Uncount(w, s.queue[0])
      else if |w.got| >= w.min || a.expired then Exit(w) else Arm(w)
    case Uncount(w, r) => Pop(w.(got := w.got + [r]))
    case Arm(w) => Recheck(w)
    case Recheck(w) => if s.count >= NeedOf(w) then Pop(w) else Unlock(w)
    case Unlock(w) => Sleep(w)
    case Sleep(w) => Relock(w, a.poll)
    case Relock(w, poll) => if poll == Readable then DrainRead(w) else Disarm(w, poll)
    case DrainRead(w) => DrainClear(w)
    case DrainClear(w) => Disarm(w, Readable)
    case Disarm(w, poll) => ReadyNeed(w, poll)
    case ReadyNeed(w, poll) => ReadyCount(w, poll, s.needed)
    case ReadyCount(w, poll, need) =>
      if need != NO_NEED && s.count >= need then Cas(Resume(w, poll)) else After(Resume(w, poll))
    case Exit(_) => Idle
  }

  /** async_waiter_remove. */
  function Disarmed(s: State, t: Thread): State {
    var ws := Unlisted(s.waiters, t);
    s.(waiters := ws, needed := MinNeed(ws))
  }

  /** What the step does to shared memory. */
  function Effect(s: State, t: Thread, a: Action): State
    requires Enabled(s, t, a)
  {
    match s.pc[t]
    case Idle =>
      if a.BeginSubmit? || a.BeginWait? then s.(mtx := Some(t))
      else if a.r in s.done then s
      else if a.r !in s.attached then s.(done := s.done + {a.r})
      else s.(done := s.done + {a.r}, stage := s.stage[a.r := Completing(t)])
    case Submitting =>
      if a.EndSubmit? then s.(mtx := None)
      else s.(attached := s.attached + {a.r}, stage := s.stage[a.r := Submitted])
    case Count(r) => s.(count := s.count + 1, stage := s.stage[r := Counted(t)])
    case Publish(r, _) => s.(queue := s.queue + [r], stage := s.stage[r := Queued])
    case Cas(_) => s.(pending := true)
    case Write(_) => s.(efd := if s.efd < EVENTFD_MAX then s.efd + 1 else s.efd)
    case Undo(_) => s.(pending := false)
    case Pop(_) => if a.PopOne? then s.(queue := s.queue[1..], stage := s.stage[s.queue[0] := Popping(t)]) else s
    case Uncount(_, r) =>
      s.(count := if s.count == 0 then NO_NEED else s.count - 1,
         attached := s.attached - {r}, stage := s.stage[r := Returned(t)])
    case Arm(w) =>
      var need := if NeedOf(w) < 0 then 0 else NeedOf(w);
      s.(waiters := [Waiter(t, need)] + s.waiters, needed := if need < s.needed then need else s.needed)
    case Recheck(w) => if s.count >= NeedOf(w) then Disarmed(s, t) else s
    case Unlock(_) => s.(mtx := None)
    case Relock(_, _) => s.(mtx := Some(t))
    case DrainRead(_) => s.(efd := 0)
    case DrainClear(_) => s.(pending := false)
    case Disarm(_, _) => Disarmed(s, t)
    case Exit(_) => s.(mtx := None)
    case _ => s
  }

  function Apply(s: State, t: Thread, a: Action): State
    requires Enabled(s, t, a)
  {
    Effect(s, t, a).(pc := s.pc[t := NextPc(s, t, a)])
  }

  predicate Init(s: State) {
    && s.done == {} && s.attached == {} && s.count == 0 && s.queue == []
    && s.needed == NO_NEED && s.waiters == [] && s.mtx == None && s.efd == 0 && !s.pending
    && (forall t :: t in s.pc ==> s.pc[t] == Idle) && s.stage == map[]
  }

  ghost predicate Next(s: State, s': State) {
    exists t, a :: Enabled(s, t, a) && s' == Apply(s, t, a)
  }

  // ---------------------------------------------------------------- invariant: locking and waiters

  predicate HoldsMutex(pc: Pc) {
    match pc
    case Idle => false
    case Count(_) => false
    case Publish(_, _) => false
    case LoadNeed(_) => false
    case Cas(next) => next.Resume?
    case Write(next) => next.Resume?
    case Undo(next) => next.Resume?
    case Sleep(_) => false
    case Relock(_, _) => false
    case _ => true
  }

  predicate Armed(pc: Pc) {
    pc.Recheck? || pc.Unlock? || pc.Sleep? || pc.Relock? || pc.DrainRead? || pc.DrainClear? || pc.Disarm?
  }

  /** A waiter short of its minimum, or past the point where that matters. */
  predicate WaitOk(pc: Pc) {
    match pc
    case Pop(w) => ValidWait(w)
    case Uncount(w, _) => ValidWait(w) && |w.got| < w.max
    case Cas(next) => next.Resume? ==> ValidWait(next.w)
    case Write(next) => next.Resume? ==> ValidWait(next.w)
    case Undo(next) => next.Resume? ==> ValidWait(next.w)
    case Arm(w) => ValidWait(w) && |w.got| < w.min
    case ReadyNeed(w, _) => ValidWait(w)
    case ReadyCount(w, _, _) => ValidWait(w)
    case _ => Armed(pc) ==> ValidWait(pc.w) && |pc.w.got| < pc.w.min
  }

  predicate Locking(s: State) {
    && (forall t :: t in s.pc ==> WaitOk(s.pc[t]))
    && (forall t :: t in s.pc ==> (HoldsMutex(s.pc[t]) <==> s.mtx == Some(t)))
  }

  predicate Listed(ws: seq<Waiter>, t: Thread, need: int) {
    exists i :: 0 <= i < |ws| && ws[i].t == t && ws[i].need == need
  }

  predicate Waiting(s: State) {
    && s.needed == MinNeed(s.waiters)
    && Distinct(s.waiters)
    && (forall i :: 0 <= i < |s.waiters| ==> s.waiters[i].t in s.pc && Armed(s.pc[s.waiters[i].t]))
    && (forall t :: t in s.pc && Armed(s.pc[t]) ==> Listed(s.waiters, t, NeedOf(s.pc[t].w)))
  }

  lemma {:induction false} MinNeedBelow(ws: seq<Waiter>, i: nat)
    requires i < |ws|
    ensures MinNeed(ws) <= ws[i].need
  {
    if i > 0 { MinNeedBelow(ws[1..], i - 1); }
  }

  predicate Distinct(ws: seq<Waiter>) {
    forall i, j :: 0 <= i < j < |ws| ==> ws[i].t != ws[j].t
  }

  /** Removing a thread's entry leaves only entries of other threads, */
  lemma {:induction false} UnlistedSub(ws: seq<Waiter>, t: Thread, i: nat)
    requires Distinct(ws) && i < |Unlisted(ws, t)|
    ensures Unlisted(ws, t)[i] in ws && Unlisted(ws, t)[i].t != t
  {
    if ws[0].t != t && i > 0 {
      UnlistedSub(ws[1..], t, i - 1);
      assert Unlisted(ws, t)[i] == Unlisted(ws[1..], t)[i - 1];
    }
  }

  lemma {:induction false} UnlistedDistinct(ws: seq<Waiter>, t: Thread)
    requires Distinct(ws)
    ensures Distinct(Unlisted(ws, t))
  {
    if ws != [] && ws[0].t != t {
      var rest := Unlisted(ws[1..], t);
      UnlistedDistinct(ws[1..], t);
      forall j | 0 <= j < |rest| ensures rest[j].t != ws[0].t { UnlistedSub(ws[1..], t, j); }
      assert Unlisted(ws, t) == [ws[0]] + rest;
    }
  }

  /** and all of them. */
  lemma {:induction false} UnlistedKeeps(ws: seq<Waiter>, t: Thread, i: nat)
    requires i < |ws| && ws[i].t != t
    ensures ws[i] in Unlisted(ws, t)
  {
    if ws[0].t == t {
      assert ws[1..][i - 1] == ws[i];
    } else if i > 0 {
      UnlistedKeeps(ws[1..], t, i - 1);
    }
  }

  lemma {:induction false} StepWaitOk(s: State, t: Thread, a: Action)
    requires Enabled(s, t, a) && WaitOk(s.pc[t])
    ensures WaitOk(NextPc(s, t, a))
  {
  }

  lemma {:induction false} StepMutex(s: State, t: Thread, a: Action)
    requires Enabled(s, t, a)
    ensures var s' := Effect(s, t, a);
            var before, after := HoldsMutex(s.pc[t]), HoldsMutex(NextPc(s, t, a));
            && (before == after ==> s'.mtx == s.mtx)
            && (!before && after ==> s.mtx == None && s'.mtx == Some(t))
            && (before && !after ==> s'.mtx == None)
  {
  }

  lemma {:induction false} LockingPreserved(s: State, t: Thread, a: Action)
    requires Locking(s) && Enabled(s, t, a)
    ensures Locking(Apply(s, t, a))
  {
    StepWaitOk(s, t, a);
    StepMutex(s, t, a);
  }

  /** The waiter list and the need change only when a thread arms or disarms itself. */
  lemma {:induction false} StepWaiters(s: State, t: Thread, a: Action)
    requires Enabled(s, t, a) && WaitOk(s.pc[t])
    ensures var s' := Effect(s, t, a);
            var pc, pc' := s.pc[t], NextPc(s, t, a);
            if pc.Arm? then
              && pc' == Recheck(pc.w) && s'.waiters == [Waiter(t, NeedOf(pc.w))] + s.waiters
              && s'.needed == if NeedOf(pc.w) < s.needed then NeedOf(pc.w) else s.needed
            else if Armed(pc) && !Armed(pc') then
              s'.waiters == Unlisted(s.waiters, t) && s'.needed == MinNeed(s'.waiters)
            else
              && s'.waiters == s.waiters && s'.needed == s.needed
              && (Armed(pc) <==> Armed(pc')) && (Armed(pc) ==> pc'.w == pc.w)
  {
  }

  lemma {:induction false} ArmKeepsWaiting(s: State, s': State, t: Thread, w: Wait)
    requires Waiting(s) && t in s.pc && s.pc[t] == Arm(w) && NeedOf(w) >= 0
    requires s'.pc == s.pc[t := Recheck(w)] && s'.waiters == [Waiter(t, NeedOf(w))] + s.waiters
    requires s'.needed == if NeedOf(w) < s.needed then NeedOf(w) else s.needed
    ensures Waiting(s')
  {
    assert s'.waiters[1..] == s.waiters;
    assert s'.waiters[0] == Waiter(t, NeedOf(w));
    forall u | u in s'.pc && Armed(s'.pc[u]) ensures Listed(s'.waiters, u, NeedOf(s'.pc[u].w)) {
      if u != t {
        assert Listed(s.waiters, u, NeedOf(s.pc[u].w));
        var i :| 0 <= i < |s.waiters| && s.waiters[i].t == u && s.waiters[i].need == NeedOf(s.pc[u].w);
        assert s'.waiters[i + 1] == s.waiters[i];
      }
    }
    assert forall i :: 0 < i < |s'.waiters| ==> s'.waiters[i] == s.waiters[i - 1];
  }

  lemma {:induction false} DisarmKeepsWaiting(s: State, s': State, t: Thread)
    requires Waiting(s) && t in s.pc && t in s'.pc && !Armed(s'.pc[t]) && s'.pc == s.pc[t := s'.pc[t]]
    requires s'.waiters == Unlisted(s.waiters, t) && s'.needed == MinNeed(s'.waiters)
    ensures Waiting(s')
  {
    var ws := s'.waiters;
    UnlistedDistinct(s.waiters, t);
    forall i | 0 <= i < |ws| ensures ws[i].t in s'.pc && Armed(s'.pc[ws[i].t]) { UnlistedSub(s.waiters, t, i); }
    forall u | u in s'.pc && Armed(s'.pc[u]) ensures Listed(ws, u, NeedOf(s'.pc[u].w)) {
      assert Listed(s.waiters, u, NeedOf(s.pc[u].w));
      var i :| 0 <= i < |s.waiters| && s.waiters[i].t == u && s.waiters[i].need == NeedOf(s.pc[u].w);
      UnlistedKeeps(s.waiters, t, i);
      var k :| 0 <= k < |ws| && ws[k] == s.waiters[i];
    }
  }

  lemma {:induction false} WaitingPreserved(s: State, t: Thread, a: Action)
    requires Locking(s) && Waiting(s) && Enabled(s, t, a)
    ensures Waiting(Apply(s, t, a))
  {
    var s' := Apply(s, t, a);
    StepWaiters(s, t, a);
    if s.pc[t].Arm? {
      ArmKeepsWaiting(s, s', t, s.pc[t].w);
    } else if Armed(s.pc[t]) && !Armed(s'.pc[t]) {
      DisarmKeepsWaiting(s, s', t);
    }
  }

  // ---------------------------------------------------------------- invariant: the life of a request

  /** Requests that complete_count accounts for. */
  function InCount(stage: map<Req, Stage>): set<Req> {
    set r | r in stage && (stage[r].Counted? || stage[r].Queued? || stage[r].Popping?)
  }

  /** The recorded stage of a submitted request is its real one. */
  predicate StageTrue(s: State, r: Req)
    requires r in s.stage
  {
    && (r in s.done <==> s.stage[r] != Submitted)
    && (r in s.attached <==> !s.stage[r].Returned?)
    && match s.stage[r]
       case Completing(t) => t in s.pc && s.pc[t] == Count(r)
       case Counted(t) => t in s.pc && s.pc[t].Publish? && s.pc[t].r == r
       case Queued => r in s.queue
       case Popping(t) => t in s.pc && s.pc[t].Uncount? && s.pc[t].r == r
       case _ => true
  }

  /** A thread that carries a request is the one recorded for it. */
  predicate CarrierTrue(s: State, t: Thread)
    requires t in s.pc
  {
    match s.pc[t]
    case Count(r) => r in s.stage && s.stage[r] == Completing(t)
    case Publish(r, _) => r in s.stage && s.stage[r] == Counted(t)
    case Uncount(_, r) => r in s.stage && s.stage[r] == Popping(t)
    case _ => true
  }

  predicate Lives(s: State) {
    && (forall r :: r in s.stage ==> StageTrue(s, r))
    && (forall t :: t in s.pc ==> CarrierTrue(s, t))
    && (forall r :: r in s.attached ==> r in s.stage)
    && (forall i :: 0 <= i < |s.queue| ==> s.queue[i] in s.stage && s.stage[s.queue[i]] == Queued)
    && (forall i, j :: 0 <= i < j < |s.queue| ==> s.queue[i] != s.queue[j])
    && s.count == |InCount(s.stage)|
  }

  /** Steps that do not touch a request. */
  predicate Bystander(s: State, t: Thread, a: Action)
    requires t in s.pc
  {
    && !s.pc[t].Count? && !s.pc[t].Publish? && !s.pc[t].Uncount?
    && !a.PopOne? && !a.SubmitOne? && !a.Complete?
  }

  lemma {:induction false} BystanderKeepsLives(s: State, t: Thread, a: Action)
    requires Lives(s) && Enabled(s, t, a) && Bystander(s, t, a)
    ensures Lives(Apply(s, t, a))
  {
    BystanderKeepsRequests(s, t, a);
    var s' := Apply(s, t, a);
    forall r | r in s'.stage ensures StageTrue(s', r) { assert StageTrue(s, r); }
    forall u | u in s'.pc ensures CarrierTrue(s', u) { assert u != t ==> CarrierTrue(s, u); }
  }

  lemma {:induction false} BystanderKeepsRequests(s: State, t: Thread, a: Action)
    requires Enabled(s, t, a) && Bystander(s, t, a)
    ensures var s', pc' := Apply(s, t, a), NextPc(s, t, a);
            && s'.stage == s.stage && s'.queue == s.queue && s'.count == s.count && s'.done == s.done
            && s'.attached == s.attached && s'.pc == s.pc[t := pc'] && !pc'.Count? && !pc'.Publish? && !pc'.Uncount?
  {
  }

  lemma {:induction false} CompleteKeepsLives(s: State, t: Thread, r: Req)
    requires Lives(s) && Enabled(s, t, Complete(r)) && s.pc[t] == Idle
    ensures Lives(Apply(s, t, Complete(r)))
  {
    var s' := Apply(s, t, Complete(r));
    forall q | q in s'.stage ensures StageTrue(s', q) { assert StageTrue(s, q); }
    forall u | u in s'.pc ensures CarrierTrue(s', u) { assert u != t ==> CarrierTrue(s, u); }
    assert InCount(s'.stage) == InCount(s.stage);
  }

  lemma {:induction false} SubmitKeepsLives(s: State, t: Thread, r: Req)
    requires Lives(s) && Enabled(s, t, SubmitOne(r)) && s.pc[t] == Submitting
    ensures Lives(Apply(s, t, SubmitOne(r)))
  {
    var s' := Apply(s, t, SubmitOne(r));
    assert r !in s.stage by { assert r in s.stage ==> StageTrue(s, r); }
    forall q | q in s'.stage ensures StageTrue(s', q) { assert q != r ==> StageTrue(s, q); }
    forall u | u in s'.pc ensures CarrierTrue(s', u) { assert u != t ==> CarrierTrue(s, u); }
    assert InCount(s'.stage) == InCount(s.stage);
  }

  lemma {:induction false} CountKeepsLives(s: State, t: Thread, a: Action)
    requires Lives(s) && Enabled(s, t, a) && s.pc[t].Count?
    ensures Lives(Apply(s, t, a))
  {
    var s' := Apply(s, t, a);
    var r := s.pc[t].r;
    assert CarrierTrue(s, t) && StageTrue(s, r);
    forall q | q in s'.stage ensures StageTrue(s', q) { assert StageTrue(s, q); }
    forall u | u in s'.pc ensures CarrierTrue(s', u) { assert CarrierTrue(s, u); }
    assert InCount(s'.stage) == InCount(s.stage) + {r};
  }

  lemma {:induction false} PublishKeepsLives(s: State, t: Thread, a: Action)
    requires Lives(s) && Enabled(s, t, a) && s.pc[t].Publish?
    ensures Lives(Apply(s, t, a))
  {
    var s' := Apply(s, t, a);
    var r := s.pc[t].r;
    assert CarrierTrue(s, t) && StageTrue(s, r);
    assert s'.queue == s.queue + [r];
    assert forall q :: q in s'.queue <==> q in s.queue || q == r;
    forall q | q in s'.stage ensures StageTrue(s', q) { assert StageTrue(s, q); }
    forall u | u in s'.pc ensures CarrierTrue(s', u) { assert CarrierTrue(s, u); }
    assert InCount(s'.stage) == InCount(s.stage);
  }

  lemma {:induction false} PopKeepsLives(s: State, t: Thread)
    requires Lives(s) && Enabled(s, t, PopOne) && s.pc[t].Pop?
    ensures Lives(Apply(s, t, PopOne))
  {
    var s' := Apply(s, t, PopOne);
    var r := s.queue[0];
    assert s.stage[r] == Queued;
    assert forall q :: q in s.queue && q != r ==> q in s'.queue;
    forall q | q in s'.stage ensures StageTrue(s', q) { assert StageTrue(s, q); }
    forall u | u in s'.pc ensures CarrierTrue(s', u) { assert CarrierTrue(s, u); }
    assert InCount(s'.stage) == InCount(s.stage);
  }

  /** The assertion after the fetch-and-subtract holds, and the count stays exact. */
  lemma {:induction false} UncountKeepsLives(s: State, t: Thread, a: Action)
    requires Lives(s) && Enabled(s, t, a) && s.pc[t].Uncount?
    ensures s.count != 0
    ensures Lives(Apply(s, t, a))
  {
    var s' := Apply(s, t, a);
    var r := s.pc[t].r;
    assert CarrierTrue(s, t) && StageTrue(s, r);
    assert r in InCount(s.stage);
    assert InCount(s'.stage) == InCount(s.stage) - {r};
    forall q | q in s'.stage ensures StageTrue(s', q) { assert StageTrue(s, q); }
    forall u | u in s'.pc ensures CarrierTrue(s', u) { assert CarrierTrue(s, u); }
  }

  lemma {:induction false} LivesPreserved(s: State, t: Thread, a: Action)
    requires Lives(s) && Enabled(s, t, a)
    ensures Lives(Apply(s, t, a))
  {
    match s.pc[t]
    case Count(_) => CountKeepsLives(s, t, a);
    case Publish(_, _) => PublishKeepsLives(s, t, a);
    case Uncount(_, _) => UncountKeepsLives(s, t, a);
    case Idle => if a.Complete? { CompleteKeepsLives(s, t, a.r); } else { BystanderKeepsLives(s, t, a); }
    case Submitting => if a.SubmitOne? { SubmitKeepsLives(s, t, a.r); } else { BystanderKeepsLives(s, t, a); }
    case Pop(_) => if a.PopOne? { PopKeepsLives(s, t); } else { BystanderKeepsLives(s, t, a); }
    case _ => BystanderKeepsLives(s, t, a);
  }

  // ---------------------------------------------------------------- invariant: wakeups

  /** `pending` set means a readable eventfd, a thread about to write it, or one about to clear it. */
  predicate PendingBy(pc: Pc) {
    pc.Write? || pc.DrainClear?
  }

  predicate PendingBacked(s: State) {
    s.pending ==> s.efd > 0 || exists u :: u in s.pc && PendingBy(s.pc[u])
  }

  /** A thread in this position will notify if `need` completions are there. */
  predicate Coming(pc: Pc, need: int) {
    match pc
    case Publish(_, queued) => queued >= need
    case LoadNeed(queued) => queued >= need
    case Cas(_) => true
    case Write(_) => true
    case DrainClear(_) => true
    case Disarm(_, _) => true
    case ReadyNeed(_, _) => true
    case ReadyCount(_, _, n) => n <= need
    case _ => false
  }

  predicate SomeoneComing(s: State, need: int) {
    exists u :: u in s.pc && Coming(s.pc[u], need)
  }

  predicate Asleep(pc: Pc) {
    pc.Unlock? || pc.Sleep?
  }

  /** The thread does not sleep through completions that satisfy it. */
  predicate NotForgotten(s: State, t: Thread)
    requires t in s.pc
  {
    Asleep(s.pc[t]) && s.count >= NeedOf(s.pc[t].w) ==> s.efd > 0 || SomeoneComing(s, NeedOf(s.pc[t].w))
  }

  predicate Wakeups(s: State) {
    && PendingBacked(s)
    && forall t :: t in s.pc ==> NotForgotten(s, t)
  }

  predicate Inv(s: State) {
    Locking(s) && Waiting(s) && Lives(s) && Wakeups(s)
  }

  lemma {:induction false} PendingPreserved(s: State, t: Thread, a: Action)
    requires PendingBacked(s) && Enabled(s, t, a)
    ensures PendingBacked(Apply(s, t, a))
  {
    var s' := Apply(s, t, a);
    if s.pending && s.efd == 0 {
      var u :| u in s.pc && PendingBy(s.pc[u]);
      assert u != t ==> PendingBy(s'.pc[u]);
    }
    assert PendingBy(s'.pc[t]) ==> t in s'.pc;
  }

  /** The wait_need a thread reads is at most the need of every sleeper. */
  lemma {:induction false} NeededBelow(s: State, t: Thread)
    requires Locking(s) && Waiting(s) && t in s.pc && Armed(s.pc[t])
    ensures s.needed <= NeedOf(s.pc[t].w) < NO_NEED
  {
    assert WaitOk(s.pc[t]);
    assert Listed(s.waiters, t, NeedOf(s.pc[t].w));
    var i :| 0 <= i < |s.waiters| && s.waiters[i].t == t && s.waiters[i].need == NeedOf(s.pc[t].w);
    MinNeedBelow(s.waiters, i);
  }

  /** A thread that is on its way stays on its way, hands over, or finds the need unmet. */
  lemma {:induction false} ComingProgress(s: State, t: Thread, a: Action, need: int)
    requires Enabled(s, t, a) && PendingBacked(s) && s.needed <= need < NO_NEED
    requires Coming(s.pc[t], need)
    ensures var s' := Apply(s, t, a);
            s'.count >= need ==> s'.efd > 0 || SomeoneComing(s', need)
  {
    var s' := Apply(s, t, a);
    if s.pc[t].Cas? && s.pending && s.efd == 0 {
      var u :| u in s.pc && PendingBy(s.pc[u]);
      assert u != t && Coming(s'.pc[u], need);
    } else {
      assert Coming(s'.pc[t], need) || s'.efd > 0 || s'.count < need;
    }
  }

  /** A decrement of the count finds it positive. */
  predicate CountBacked(s: State, t: Thread) {
    t in s.pc && s.pc[t].Uncount? ==> s.count > 0
  }

  lemma {:induction false} WakeupsPreserved(s: State, t: Thread, a: Action)
    requires Inv(s) && Enabled(s, t, a)
    ensures Wakeups(Apply(s, t, a))
  {
    var s' := Apply(s, t, a);
    PendingPreserved(s, t, a);
    if s.pc[t].Uncount? { UncountKeepsLives(s, t, a); }
    forall v | v in s'.pc ensures NotForgotten(s', v) {
      if Asleep(s.pc[v]) { NeededBelow(s, v); }
      SleeperKept(s, t, a, v);
    }
  }

  /** The count grows only by a worker that then carries it along; the eventfd is emptied only by
      a waiter that then looks again; and a thread falls asleep only with its need unmet. */
  lemma {:induction false} StepSources(s: State, t: Thread, a: Action)
    requires Enabled(s, t, a) && CountBacked(s, t)
    ensures Apply(s, t, a).count > s.count ==> Coming(NextPc(s, t, a), Apply(s, t, a).count)
    ensures s.efd > 0 && Apply(s, t, a).efd == 0 ==> NextPc(s, t, a).DrainClear?
    ensures Asleep(NextPc(s, t, a)) && !Asleep(s.pc[t]) ==> Apply(s, t, a).count < NeedOf(NextPc(s, t, a).w)
    ensures Asleep(NextPc(s, t, a)) && Asleep(s.pc[t]) ==> NextPc(s, t, a).w == s.pc[t].w
  {
  }

  lemma {:induction false} SleeperKept(s: State, t: Thread, a: Action, v: Thread)
    requires Enabled(s, t, a) && CountBacked(s, t) && PendingBacked(s) && v in s.pc && NotForgotten(s, v)
    requires Asleep(s.pc[v]) ==> s.needed <= NeedOf(s.pc[v].w) < NO_NEED
    ensures v in Apply(s, t, a).pc && NotForgotten(Apply(s, t, a), v)
  {
    var s' := Apply(s, t, a);
    StepSources(s, t, a);
    if Asleep(s'.pc[v]) && s'.count >= NeedOf(s'.pc[v].w) {
      var need := NeedOf(s'.pc[v].w);
      assert Asleep(s.pc[v]) && NeedOf(s.pc[v].w) == need;
      if s'.count > s.count || (s.efd > 0 && s'.efd == 0) {
        assert Coming(s'.pc[t], need);
      } else if s.efd == 0 {
        var u :| u in s.pc && Coming(s.pc[u], need);
        if u == t { ComingProgress(s, t, a, need); } else { assert Coming(s'.pc[u], need); }
      }
    }
  }

  // ---------------------------------------------------------------- runs

  lemma {:induction false} InvPreserved(s: State, t: Thread, a: Action)
    requires Inv(s) && Enabled(s, t, a)
    ensures Inv(Apply(s, t, a))
  {
    LockingPreserved(s, t, a);
    WaitingPreserved(s, t, a);
    LivesPreserved(s, t, a);
    WakeupsPreserved(s, t, a);
  }

  ghost predicate StepAt(run: seq<State>, i: nat) {
    0 < i < |run| && Next(run[i - 1], run[i])
  }

  ghost predicate Run(run: seq<State>) {
    && |run| > 0 && Init(run[0])
    && forall i :: 0 < i < |run| ==> StepAt(run, i)
  }

  lemma {:induction false} InitInv(s: State)
    requires Init(s)
    ensures Inv(s)
  {
    assert InCount(s.stage) == {};
  }

  lemma {:induction false} NextInv(s: State, s': State)
    requires Inv(s) && Next(s, s')
    ensures Inv(s')
  {
    var t, a :| Enabled(s, t, a) && s' == Apply(s, t, a);
    InvPreserved(s, t, a);
  }

  lemma {:induction false} RunInv(run: seq<State>, i: nat)
    requires Run(run) && i < |run|
    ensures Inv(run[i])
  {
    if i == 0 {
      InitInv(run[0]);
    } else {
      RunInv(run, i - 1);
      assert StepAt(run, i);
      NextInv(run[i - 1], run[i]);
    }
  }

  /** In every interleaving: a waiter asleep with its need met has a readable eventfd or some
      thread still on its way to signal it. */
  lemma {:induction false} NoSleeperForgotten(run: seq<State>, i: nat, t: Thread)
    requires Run(run) && i < |run| && t in run[i].pc && run[i].pc[t].Sleep?
    requires run[i].count >= NeedOf(run[i].pc[t].w)
    ensures run[i].efd > 0 || SomeoneComing(run[i], NeedOf(run[i].pc[t].w))
  {
    RunInv(run, i);
    assert NotForgotten(run[i], t);
  }

  /** complete_count is exactly the number of requests completed and not yet handed out, so the
      subtraction in async_cq_pop never starts from zero. */
  lemma {:induction false} CountExact(run: seq<State>, i: nat)
    requires Run(run) && i < |run|
    ensures run[i].count == |InCount(run[i].stage)|
    ensures forall t :: t in run[i].pc && run[i].pc[t].Uncount? ==> run[i].count != 0
  {
    RunInv(run, i);
    forall t | t in run[i].pc && run[i].pc[t].Uncount? ensures run[i].count != 0 {
      UncountKeepsLives(run[i], t, Go);
    }
  }

  function Rank(g: Stage): nat {
    match g
    case Submitted => 0
    case Completing(_) => 1
    case Counted(_) => 2
    case Queued => 3
    case Popping(_) => 4
    case Returned(_) => 5
  }

  /** One step moves a request at most one stage on, and never touches a returned one. */
  lemma {:induction false} StageAdvances(s: State, t: Thread, a: Action, r: Req)
    requires Lives(s) && Enabled(s, t, a) && r in s.stage
    ensures var s' := Apply(s, t, a);
            && r in s'.stage && (s'.stage[r] == s.stage[r] || Rank(s'.stage[r]) == Rank(s.stage[r]) + 1)
            && (s.stage[r].Returned? ==> s'.stage[r] == s.stage[r])
  {
    assert StageTrue(s, r) && CarrierTrue(s, t);
  }

  lemma {:induction false} StageNext(s: State, s': State, r: Req)
    requires Inv(s) && Next(s, s') && r in s.stage
    ensures r in s'.stage && Rank(s.stage[r]) <= Rank(s'.stage[r])
    ensures s.stage[r].Returned? ==> s'.stage[r] == s.stage[r]
  {
    var t, a :| Enabled(s, t, a) && s' == Apply(s, t, a);
    StageAdvances(s, t, a, r);
  }

  lemma {:induction false} RunStageNext(run: seq<State>, j: nat, r: Req)
    requires Run(run) && 0 < j < |run| && r in run[j - 1].stage
    ensures r in run[j].stage && Rank(run[j - 1].stage[r]) <= Rank(run[j].stage[r])
    ensures run[j - 1].stage[r].Returned? ==> run[j].stage[r] == run[j - 1].stage[r]
  {
    RunInv(run, j - 1);
    assert StepAt(run, j);
    StageNext(run[j - 1], run[j], r);
  }

  /** Each submitted request goes through completion once and is returned to one waiter for good:
      its stages only ever move forward, and the waiter recorded for it never changes. */
  lemma {:induction false} ReturnedOnce(run: seq<State>, i: nat, j: nat, r: Req)
    requires Run(run) && i <= j < |run| && r in run[i].stage
    ensures r in run[j].stage && Rank(run[i].stage[r]) <= Rank(run[j].stage[r])
    ensures run[i].stage[r].Returned? ==> run[j].stage[r] == run[i].stage[r]
    decreases j
  {
    if i < j {
      ReturnedOnce(run, i, j - 1, r);
      RunStageNext(run, j, r);
    }
  }

  /** The async_wait a thread is in. */
  function WaitIn(pc: Pc): Option<Wait> {
    match pc
    case Cas(next) => if next.Resume? then Some(next.w) else None
    case Write(next) => if next.Resume? then Some(next.w) else None
    case Undo(next) => if next.Resume? then Some(next.w) else None
    case Idle => None
    case Submitting => None
    case Count(_) => None
    case Publish(_, _) => None
    case LoadNeed(_) => None
    case _ => Some(pc.w)
  }

  /** The requests an async_wait in progress has collected. */
  function GotOf(pc: Pc): seq<Req> {
    if WaitIn(pc).Some? then WaitIn(pc).value.got else []
  }

  /** Everything in a waiter's results has been returned to that waiter, and is there once. */
  predicate ResultsTrue(s: State, t: Thread)
    requires t in s.pc
  {
    var got := GotOf(s.pc[t]);
    && (forall i :: 0 <= i < |got| ==> got[i] in s.stage && s.stage[got[i]] == Returned(t))
    && (forall i, j :: 0 <= i < j < |got| ==> got[i] != got[j])
  }

  predicate Results(s: State) { forall t :: t in s.pc ==> ResultsTrue(s, t) }

  /** A waiter's results change only by starting afresh, by ending, or by the request just counted off. */
  lemma {:induction false} GotNext(s: State, t: Thread, a: Action)
    requires Enabled(s, t, a)
    ensures var got, got' := GotOf(s.pc[t]), GotOf(NextPc(s, t, a));
            if s.pc[t].Uncount? then got' == got + [s.pc[t].r]
                                     && Apply(s, t, a).stage == s.stage[s.pc[t].r := Returned(t)]
            else got' == got || got' == []
  {
  }

  lemma {:induction false} ResultsPreserved(s: State, t: Thread, a: Action)
    requires Lives(s) && Results(s) && Enabled(s, t, a)
    ensures Results(Apply(s, t, a))
  {
    var s' := Apply(s, t, a);
    forall u | u in s'.pc ensures ResultsTrue(s', u) {
      if u != t {
        StillReturned(s, t, a, u);
      } else {
        OwnResults(s, t, a);
      }
    }
  }

  lemma {:induction false} StillReturned(s: State, t: Thread, a: Action, u: Thread)
    requires Lives(s) && Enabled(s, t, a) && u in s.pc && ResultsTrue(s, u)
    ensures var s', got := Apply(s, t, a), GotOf(s.pc[u]);
            forall i :: 0 <= i < |got| ==> got[i] in s'.stage && s'.stage[got[i]] == Returned(u)
  {
    var got := GotOf(s.pc[u]);
    forall i | 0 <= i < |got| ensures got[i] in Apply(s, t, a).stage && Apply(s, t, a).stage[got[i]] == Returned(u) {
      StageAdvances(s, t, a, got[i]);
    }
  }

  lemma {:induction false} OwnResults(s: State, t: Thread, a: Action)
    requires Lives(s) && Enabled(s, t, a) && ResultsTrue(s, t)
    ensures ResultsTrue(Apply(s, t, a), t)
  {
    GotNext(s, t, a);
    StillReturned(s, t, a, t);
    assert CarrierTrue(s, t);
  }

  lemma {:induction false} RunResults(run: seq<State>, i: nat)
    requires Run(run) && i < |run|
    ensures Results(run[i])
  {
    if i == 0 {
      InitResults(run[0]);
    } else {
      RunResults(run, i - 1);
      RunLives(run, i - 1);
      assert StepAt(run, i);
      NextResults(run[i - 1], run[i]);
    }
  }

  lemma {:induction false} RunLives(run: seq<State>, i: nat)
    requires Run(run) && i < |run|
    ensures Lives(run[i])
  {
    RunInv(run, i);
  }

  lemma {:induction false} InitResults(s: State)
    requires Init(s)
    ensures Results(s)
  {
  }

  lemma {:induction false} NextResults(s: State, s': State)
    requires Lives(s) && Results(s) && Next(s, s')
    ensures Results(s')
  {
    var t, a :| Enabled(s, t, a) && s' == Apply(s, t, a);
    ResultsPreserved(s, t, a);
  }

  /** Step i puts the request into the results of the thread's async_wait. */
  predicate HandedOut(run: seq<State>, i: nat, t: Thread, r: Req) {
    && 0 < i < |run| && t in run[i - 1].pc && t in run[i].pc
    && r !in GotOf(run[i - 1].pc[t]) && r in GotOf(run[i].pc[t])
  }

  lemma {:induction false} HandedOutFrom(run: seq<State>, i: nat, t: Thread, r: Req)
    requires Run(run) && HandedOut(run, i, t, r)
    ensures r in run[i - 1].stage && run[i - 1].stage[r] == Popping(t)
    ensures r in run[i].stage && run[i].stage[r] == Returned(t)
  {
    RunLives(run, i - 1);
    assert StepAt(run, i);
    NextHandsOut(run[i - 1], run[i], t, r);
  }

  lemma {:induction false} NextHandsOut(s: State, s': State, t: Thread, r: Req)
    requires Lives(s) && Next(s, s') && t in s.pc && t in s'.pc && r !in GotOf(s.pc[t]) && r in GotOf(s'.pc[t])
    ensures r in s.stage && s.stage[r] == Popping(t) && r in s'.stage && s'.stage[r] == Returned(t)
  {
    var u, a :| Enabled(s, u, a) && s' == Apply(s, u, a);
    assert u == t;
    GotNext(s, t, a);
    assert CarrierTrue(s, t);
  }

  /** In every interleaving a request gets into the results of one async_wait of one thread, once: no later
      step puts it into any results again. */
  lemma {:induction false} HandedOutOnce(run: seq<State>, i: nat, j: nat, t: Thread, u: Thread, r: Req)
    requires Run(run) && i < j && HandedOut(run, i, t, r)
    ensures !HandedOut(run, j, u, r)
  {
    HandedOutFrom(run, i, t, r);
    if HandedOut(run, j, u, r) {
      HandedOutFrom(run, j, u, r);
      ReturnedOnce(run, i, j - 1, r);
    }
  }

  // ---------------------------------------------------------------- how a wait ends

  /** What the poll returned, between its return and the next round. */
  function PollIn(pc: Pc): Option<PollResult> {
    match pc
    case Relock(_, poll) => Some(poll)
    case DrainRead(_) => Some(Readable)
    case DrainClear(_) => Some(Readable)
    case Disarm(_, poll) => Some(poll)
    case ReadyNeed(_, poll) => Some(poll)
    case ReadyCount(_, poll, _) => Some(poll)
    case Cas(next) => if next.Resume? then Some(next.poll) else None
    case Write(next) => if next.Resume? then Some(next.poll) else None
    case Undo(next) => if next.Resume? then Some(next.poll) else None
    case _ => None
  }

  /** One step of a schedule. */
  datatype Move = Move(t: Thread, a: Action)

  predicate MoveAt(run: seq<State>, moves: seq<Move>, i: nat)
    requires i < |moves| && i + 1 < |run|
  {
    Enabled(run[i], moves[i].t, moves[i].a) && run[i + 1] == Apply(run[i], moves[i].t, moves[i].a)
  }

  /** A run together with who did what. */
  ghost predicate Schedule(run: seq<State>, moves: seq<Move>) {
    |run| == |moves| + 1 && Init(run[0]) && forall i :: 0 <= i < |moves| ==> MoveAt(run, moves, i)
  }

  /** What the thread's async_wait was last called with. */
  function Asked(moves: seq<Move>, t: Thread): Option<Wait> {
    if moves == [] then None
    else
      var m := moves[|moves| - 1];
      if m.t == t && m.a.BeginWait? then Some(m.a.w) else Asked(moves[..|moves| - 1], t)
  }

  /** What its last poll returned. */
  function Polled(moves: seq<Move>, t: Thread): Option<PollResult> {
    if moves == [] then None
    else
      var m := moves[|moves| - 1];
      if m.t == t && m.a.Wake? then Some(m.a.poll) else Polled(moves[..|moves| - 1], t)
  }

  /** The wait works with the bounds it was called with, and on the answer its poll gave. */
  predicate CallTrue(pc: Pc, asked: Option<Wait>, polled: Option<PollResult>) {
    && (WaitIn(pc).Some? ==>
          var w := WaitIn(pc).value;
          asked.Some? && w.min == asked.value.min && w.max == asked.value.max && |w.got| <= w.max)
    && (PollIn(pc).Some? ==> PollIn(pc) == polled)
  }

  lemma {:induction false} OwnCall(s: State, t: Thread, a: Action, asked: Option<Wait>, polled: Option<PollResult>)
    requires Enabled(s, t, a) && WaitOk(s.pc[t]) && CallTrue(s.pc[t], asked, polled)
    ensures CallTrue(NextPc(s, t, a), if a.BeginWait? then Some(a.w) else asked,
                     if a.Wake? then Some(a.poll) else polled)
  {
  }

  /** A schedule's states are a run. */
  lemma {:induction false} ScheduleRuns(run: seq<State>, moves: seq<Move>)
    requires Schedule(run, moves)
    ensures Run(run)
  {
    forall i | 0 < i < |run| ensures StepAt(run, i) { assert MoveAt(run, moves, i - 1); }
  }

  lemma {:induction false} WaitsOk(run: seq<State>, i: nat, t: Thread)
    requires Run(run) && i < |run| && t in run[i].pc
    ensures WaitOk(run[i].pc[t])
  {
    RunInv(run, i);
  }

  lemma {:induction false} MovePc(run: seq<State>, moves: seq<Move>, i: nat, t: Thread)
    requires i < |moves| && i + 1 < |run| && MoveAt(run, moves, i) && t in run[i + 1].pc
    ensures t in run[i].pc && Enabled(run[i], moves[i].t, moves[i].a)
    ensures run[i + 1].pc[t] == if t == moves[i].t then NextPc(run[i], t, moves[i].a) else run[i].pc[t]
  {
  }

  lemma {:induction false} RunCalls(run: seq<State>, moves: seq<Move>, i: nat, t: Thread)
    requires Schedule(run, moves) && Run(run) && i < |run| && t in run[i].pc
    ensures CallTrue(run[i].pc[t], Asked(moves[..i], t), Polled(moves[..i], t))
    decreases i
  {
    if i > 0 {
      assert MoveAt(run, moves, i - 1);
      MovePc(run, moves, i - 1, t);
      RunCalls(run, moves, i - 1, t);
      assert moves[..i][..i - 1] == moves[..i - 1];
      if t == moves[i - 1].t {
        WaitsOk(run, i - 1, t);
        OwnCall(run[i - 1], t, moves[i - 1].a, Asked(moves[..i - 1], t), Polled(moves[..i - 1], t));
      }
    }
  }

  /** The step takes the thread out of its wait's loop. */
  predicate Leaves(s: State, t: Thread, a: Action) {
    Enabled(s, t, a) && !s.pc[t].Exit? && NextPc(s, t, a).Exit?
  }

  lemma {:induction false} StepEnds(s: State, t: Thread, a: Action)
    requires Leaves(s, t, a) && WaitOk(s.pc[t])
    ensures WaitIn(s.pc[t]).Some? && NextPc(s, t, a).w == WaitIn(s.pc[t]).value
    ensures var w := NextPc(s, t, a).w;
            w.min <= |w.got| || (a.PopNone? && a.expired) || PollIn(s.pc[t]) == Some(Failed)
  {
  }

  /** In every interleaving an async_wait ends with at least `min` and at most `max` requests, as it was
      called; with fewer than `min` only if its deadline had passed when it looked, or its poll failed. */
  lemma {:induction false} WaitEnds(run: seq<State>, moves: seq<Move>, i: nat)
    requires Schedule(run, moves) && i < |moves| && Leaves(run[i], moves[i].t, moves[i].a)
    ensures var m, asked := moves[i], Asked(moves[..i], moves[i].t);
            var got := NextPc(run[i], m.t, m.a).w.got;
            && asked.Some? && |got| <= asked.value.max
            && (asked.value.min <= |got| || m.a == PopNone(true) || Polled(moves[..i], m.t) == Some(Failed))
  {
    ScheduleRuns(run, moves);
    RunCalls(run, moves, i, moves[i].t);
    WaitsOk(run, i, moves[i].t);
    StepEnds(run[i], moves[i].t, moves[i].a);
  }

  lemma {:induction false} StepGoesOn(s: State, t: Thread, a: Action)
    requires Enabled(s, t, a) && s.pc[t].Pop? && !a.PopOne? && !Leaves(s, t, a)
    ensures a == PopNone(false) && |s.pc[t].w.got| < s.pc[t].w.min
  {
  }

  /** And it goes on waiting only while it is short of `min` and its deadline had not passed. */
  lemma {:induction false} WaitGoesOn(run: seq<State>, moves: seq<Move>, i: nat)
    requires Schedule(run, moves) && i < |moves| && Enabled(run[i], moves[i].t, moves[i].a)
    requires run[i].pc[moves[i].t].Pop? && !moves[i].a.PopOne? && !Leaves(run[i], moves[i].t, moves[i].a)
    ensures var m, asked := moves[i], Asked(moves[..i], moves[i].t);
            m.a == PopNone(false) && asked.Some? && |run[i].pc[m.t].w.got| < asked.value.min
  {
    ScheduleRuns(run, moves);
    RunCalls(run, moves, i, moves[i].t);
    StepGoesOn(run[i], moves[i].t, moves[i].a);
  }

  /** It may go on collecting as long as it has fewer than `max`. */
  lemma {:induction false} CollectsUpToMax(run: seq<State>, moves: seq<Move>, i: nat, t: Thread)
    requires Schedule(run, moves) && i < |run| && t in run[i].pc && run[i].pc[t].Pop? && run[i].queue != []
    ensures var asked := Asked(moves[..i], t);
            asked.Some? && (|run[i].pc[t].w.got| < asked.value.max ==> Enabled(run[i], t, PopOne))
  {
    ScheduleRuns(run, moves);
    RunCalls(run, moves, i, t);
  }

  /** When nothing moves any more and the eventfd is silent, every sleeper really lacks completions. */
  lemma {:induction false} RestMeansUnmet(run: seq<State>, i: nat, t: Thread)
    requires Run(run) && i < |run| && run[i].efd == 0
    requires forall u :: u in run[i].pc ==> run[i].pc[u] == Idle || run[i].pc[u].Sleep?
    requires t in run[i].pc && run[i].pc[t].Sleep?
    ensures run[i].count < NeedOf(run[i].pc[t].w)
    ensures run[i].count == |run[i].queue|
  {
    RunInv(run, i);
    var s := run[i];
    assert NotForgotten(s, t);
    forall r | r in InCount(s.stage) ensures r in s.queue { assert StageTrue(s, r); }
    QueueSize(s.queue, InCount(s.stage));
  }

  lemma {:induction false} QueueSize(q: seq<Req>, rs: set<Req>)
    requires forall i, j :: 0 <= i < j < |q| ==> q[i] != q[j]
    requires forall i :: 0 <= i < |q| ==> q[i] in rs
    requires forall r :: r in rs ==> r in q
    ensures |q| == |rs|
  {
    if q == [] {
      assert rs == {};
    } else {
      assert forall r :: r in rs && r != q[0] ==> r in q[1..];
      QueueSize(q[1..], rs - {q[0]});
    }
  }
}
