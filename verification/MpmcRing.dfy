/** The bounded multi-producer multi-consumer rings: the batch ring of lib/frame_cache.c and its
    single-item form, the frame pool of lib/xdp.c, as one step relation.

    Positions are unbounded naturals; position p lives in slot p mod n.  History variables: `log`
    holds the entry claimed for each position, `writer` and `reader` name the thread that has
    claimed a position and not finished with it, `delivered` maps each position to the entry a
    dequeuer read there. */
module MpmcRing {
  import opened Common

  type Thread = nat
  type Entry = nat

  datatype Slot = Slot(sequence: nat, entry: Entry)

  datatype Pc =
    | Idle
    // enqueue; `pool` selects the frame pool's answer to a slot that is not free yet
    | EnqLoad(entries: seq<Entry>, pool: bool)
    | EnqScan(entries: seq<Entry>, pool: bool, pos: nat, ready: nat)
    | EnqFull(entries: seq<Entry>, pos: nat)
    | EnqCas(entries: seq<Entry>, pool: bool, pos: nat, ready: nat)
    | EnqWrite(entries: seq<Entry>, pos: nat, i: nat)
    | EnqPublish(entries: seq<Entry>, pos: nat, i: nat)
    // dequeue
    | DeqLoad(max: nat)
    | DeqScan(max: nat, pos: nat, ready: nat)
    | DeqCas(max: nat, pos: nat, ready: nat)
    | DeqRead(pos: nat, k: nat, got: seq<Entry>)
    | DeqRelease(pos: nat, k: nat, got: seq<Entry>)

  datatype Shared = Shared(
    slots: seq<Slot>, enq: nat, deq: nat,
    log: seq<Entry>, writer: map<nat, Thread>, reader: map<nat, Thread>, delivered: map<nat, Entry>)

  datatype State = State(sh: Shared, pc: map<Thread, Pc>)

  datatype Action = Enqueue(entries: seq<Entry>) | Push(entry: Entry) | Dequeue(max: nat) | Go(spurious: bool)

  // ---------------------------------------------------------------- the code

  /** The slot of position p in a ring of n: p mod n, which the code computes by masking. */
  function Index(p: nat, n: nat): (i: nat)
    requires n > 0
    ensures i < n
  {
    if p < n then p else Index(p - n, n)
  }

  function SlotOf(slots: seq<Slot>, p: nat): Slot
    requires slots != []
  {
    slots[Index(p, |slots|)]
  }

  function Seq(slots: seq<Slot>, p: nat): nat
    requires slots != []
  {
    SlotOf(slots, p).sequence
  }

  predicate Enabled(s: Shared, pc: Pc, a: Action) {
    && |s.slots| >= 2
    && if pc == Idle then !a.Go? && (a.Enqueue? ==> a.entries != []) && (a.Dequeue? ==> a.max > 0) else a.Go?
  }

  function NextPc(s: Shared, pc: Pc, a: Action): Pc
    requires Enabled(s, pc, a)
  {
    var n := |s.slots|;
    match pc
    case Idle =>
      (match a
       case Enqueue(entries) => EnqLoad(entries[..Min(|entries|, n)], false)
       case Push(entry) => EnqLoad([entry], true)
       case Dequeue(max) => DeqLoad(Min(max, n)))
    case EnqLoad(entries, pool) => EnqScan(entries, pool, s.enq, 0)
    case EnqScan(entries, pool, pos, ready) =>
      if ready >= |entries| then EnqCas(entries, pool, pos, ready)
      else if Seq(s.slots, pos + ready) == pos + ready then EnqScan(entries, pool, pos, ready + 1)
      else if Seq(s.slots, pos + ready) > pos + ready then EnqLoad(entries, pool)
      else if ready > 0 then EnqCas(entries, pool, pos, ready)
      else if pool then EnqFull(entries, pos)
      else Idle
    case EnqFull(entries, pos) =>
      // unsigned difference: a position behind the dequeue side counts as full
      if pos < s.deq || pos - s.deq >= n then Idle else EnqLoad(entries, true)
    case EnqCas(entries, pool, pos, ready) =>
      if s.enq == pos && !a.spurious then EnqWrite(entries[..Min(ready, |entries|)], pos, 0)
      else EnqScan(entries, pool, s.enq, 0)
    case EnqWrite(entries, pos, i) => EnqPublish(entries, pos, i)
    case EnqPublish(entries, pos, i) => if i + 1 < |entries| then EnqWrite(entries, pos, i + 1) else Idle
    case DeqLoad(max) => DeqScan(max, s.deq, 0)
    case DeqScan(max, pos, ready) =>
      if ready >= max then DeqCas(max, pos, ready)
      else if Seq(s.slots, pos + ready) == pos + ready + 1 then DeqScan(max, pos, ready + 1)
      else if Seq(s.slots, pos + ready) > pos + ready + 1 then DeqLoad(max)
      else if ready > 0 then DeqCas(max, pos, ready)
      else Idle
    case DeqCas(max, pos, ready) =>
      if s.deq == pos && !a.spurious then DeqRead(pos, ready, []) else DeqScan(max, s.deq, 0)
    case DeqRead(pos, k, got) => DeqRelease(pos, k, got + [SlotOf(s.slots, pos + |got|).entry])
    case DeqRelease(pos, k, got) => if |got| < k then DeqRead(pos, k, got) else Idle
  }

  function Claimed(m: map<nat, Thread>, pos: nat, k: nat, t: Thread): (r: map<nat, Thread>)
    ensures forall p :: p in r <==> p in m || pos <= p < pos + k
    ensures forall p :: p in r ==> r[p] == if pos <= p < pos + k then t else m[p]
  {
    if k == 0 then m else Claimed(m, pos, k - 1, t)[pos + k - 1 := t]
  }

  function Effect(s: Shared, t: Thread, pc: Pc, a: Action): Shared
    requires Enabled(s, pc, a)
  {
    var n := |s.slots|;
    match pc
    case EnqCas(entries, _, pos, ready) =>
      if s.enq == pos && !a.spurious then
        s.(enq := pos + ready, log := s.log + entries[..Min(ready, |entries|)],
           writer := Claimed(s.writer, pos, ready, t))
      else s
    case EnqWrite(entries, pos, i) =>
      if i < |entries| then s.(slots := s.slots[Index(pos + i, n) := SlotOf(s.slots, pos + i).(entry := entries[i])])
      else s
    case EnqPublish(_, pos, i) =>
      s.(slots := s.slots[Index(pos + i, n) := SlotOf(s.slots, pos + i).(sequence := pos + i + 1)],
         writer := s.writer - {pos + i})
    case DeqCas(_, pos, ready) =>
      if s.deq == pos && !a.spurious then
        s.(deq := pos + ready, reader := Claimed(s.reader, pos, ready, t))
      else s
    case DeqRead(pos, k, got) =>
      s.(delivered := s.delivered[pos + |got| := SlotOf(s.slots, pos + |got|).entry])
    case DeqRelease(pos, k, got) =>
      var p := pos + |got| - 1;
      if p < 0 then s
      else s.(slots := s.slots[Index(p, n) := SlotOf(s.slots, p).(sequence := p + n)], reader := s.reader - {p})
    case _ => s
  }

  predicate NextStep(s: State, s': State, t: Thread, a: Action) {
    && t in s.pc && Enabled(s.sh, s.pc[t], a)
    && s' == State(Effect(s.sh, t, s.pc[t], a), s.pc[t := NextPc(s.sh, s.pc[t], a)])
  }

  ghost predicate Next(s: State, s': State) {
    exists t, a :: NextStep(s, s', t, a)
  }

  /** The batch ring starts empty; the frame pool starts with position i holding frame i. */
  predicate InitShared(s: Shared) {
    && |s.slots| >= 2 && s.deq == 0
    && s.writer == map[] && s.reader == map[] && s.delivered == map[]
    && ((s.enq == 0 && s.log == [] && forall i :: 0 <= i < |s.slots| ==> s.slots[i].sequence == i)
        || (s.enq == |s.slots| && |s.log| == s.enq
            && forall i :: 0 <= i < |s.slots| ==> s.slots[i] == Slot(i + 1, i) && s.log[i] == i))
  }

  predicate Init(s: State) {
    InitShared(s.sh) && forall t :: t in s.pc ==> s.pc[t] == Idle
  }

  // ---------------------------------------------------------------- invariant

  /** What the sequence number of its slot says about position p. */
  predicate Position(s: Shared, p: nat)
    requires s.slots != []
  {
    var q := Seq(s.slots, p);
    && (p in s.writer <==> p < s.enq && q <= p)
    && (p in s.writer ==> q == p)
    && (p >= s.enq ==> q <= p)
    && (p in s.reader <==> p < s.deq && q <= p + 1)
    && (p in s.reader ==> q == p + 1)
    && (p >= s.deq ==> q <= p + 1 && p !in s.delivered)
    && (q == p + 1 ==> p < |s.log| && SlotOf(s.slots, p).entry == s.log[p])
    && (q > p + 1 ==> p in s.delivered && q >= p + |s.slots|)
    && (q < p ==> p >= |s.slots| && q + |s.slots| <= p + 1)
    && (p in s.delivered ==> p < |s.log| && s.delivered[p] == s.log[p])
  }

  ghost predicate Ring(s: Shared) {
    && |s.slots| >= 2 && |s.log| == s.enq && s.deq <= s.enq
    && forall p: nat :: Position(s, p)
  }

  predicate AtLeast(slots: seq<Slot>, pos: nat, k: nat, extra: nat)
    requires slots != []
  {
    forall p :: pos <= p < pos + k ==> Seq(slots, p) >= p + extra
  }

  predicate Owns(m: map<nat, Thread>, t: Thread, lo: nat, hi: nat) {
    forall p :: lo <= p < hi ==> p in m && m[p] == t
  }

  /** What thread t may rely on at each point of its operation. */
  predicate PcOk(s: Shared, t: Thread, pc: Pc)
    requires |s.slots| >= 2
  {
    match pc
    case Idle => true
    case EnqLoad(entries, _) => 0 < |entries| <= |s.slots|
    case EnqScan(entries, _, pos, ready) =>
      0 < |entries| <= |s.slots| && ready <= |entries| && pos <= s.enq && AtLeast(s.slots, pos, ready, 0)
    case EnqFull(entries, pos) => 0 < |entries| <= |s.slots| && pos <= s.enq
    case EnqCas(entries, _, pos, ready) =>
      0 < ready <= |entries| <= |s.slots| && pos <= s.enq && AtLeast(s.slots, pos, ready, 0)
    case EnqWrite(entries, pos, i) =>
      && i < |entries| <= |s.slots| && Owns(s.writer, t, pos + i, pos + |entries|)
      && pos + |entries| <= |s.log| && s.log[pos..pos + |entries|] == entries
    case EnqPublish(entries, pos, i) =>
      && i < |entries| <= |s.slots| && Owns(s.writer, t, pos + i, pos + |entries|)
      && pos + |entries| <= |s.log| && s.log[pos..pos + |entries|] == entries
      && SlotOf(s.slots, pos + i).entry == entries[i]
    case DeqLoad(max) => 0 < max <= |s.slots|
    case DeqScan(max, pos, ready) =>
      0 < max <= |s.slots| && ready <= max && pos <= s.deq && AtLeast(s.slots, pos, ready, 1)
    case DeqCas(max, pos, ready) =>
      0 < ready <= max <= |s.slots| && pos <= s.deq && AtLeast(s.slots, pos, ready, 1)
    case DeqRead(pos, k, got) =>
      && |got| < k <= |s.slots| && Owns(s.reader, t, pos + |got|, pos + k)
      && pos + k <= |s.log| && s.log[pos..pos + |got|] == got
      && (forall p :: pos + |got| <= p < pos + k ==> p !in s.delivered)
    case DeqRelease(pos, k, got) =>
      && 0 < |got| <= k <= |s.slots| && Owns(s.reader, t, pos + |got| - 1, pos + k)
      && pos + k <= |s.log| && s.log[pos..pos + |got|] == got
      && pos + |got| - 1 in s.delivered
      && (forall p :: pos + |got| <= p < pos + k ==> p !in s.delivered)
  }

  ghost predicate Inv(s: State) {
    Ring(s.sh) && forall t :: t in s.pc ==> PcOk(s.sh, t, s.pc[t])
  }

  /** Two positions of the same slot are a whole turn apart. */
  lemma {:induction false} SameSlot(p: nat, q: nat, n: nat)
    requires n > 0 && Index(p, n) == Index(q, n) && p < q
    ensures q - p >= n
  {
    if p >= n {
      SameSlot(p - n, q - n, n);
    } else if q >= n && q - n > p {
      SameSlot(p, q - n, n);
    }
  }

  lemma {:induction false} InitInv(s: State)
    requires Init(s)
    ensures Inv(s)
  {
    forall p: nat ensures Position(s.sh, p) {
      IndexBelow(p, |s.sh.slots|);
    }
  }

  lemma {:induction false} IndexBelow(p: nat, n: nat)
    requires n > 0
    ensures Index(p, n) <= p && (p >= n ==> Index(p, n) + n <= p)
  {
    if p >= n { IndexBelow(p - n, n); }
  }

  // ---------------------------------------------------------------- steps that only look

  /** The compare-and-swap of this step succeeds. */
  predicate CasWins(s: Shared, pc: Pc, a: Action) {
    && a.Go? && !a.spurious
    && ((pc.EnqCas? && s.enq == pc.pos) || (pc.DeqCas? && s.deq == pc.pos))
  }

  /** The step reads shared memory and writes nothing. */
  predicate Looks(s: Shared, pc: Pc, a: Action) {
    !CasWins(s, pc, a) && !pc.EnqWrite? && !pc.EnqPublish? && !pc.DeqRead? && !pc.DeqRelease?
  }

  lemma {:induction false} LookKeeps(s: Shared, t: Thread, pc: Pc, a: Action)
    requires Ring(s) && Enabled(s, pc, a) && PcOk(s, t, pc) && Looks(s, pc, a)
    ensures Effect(s, t, pc, a) == s
    ensures PcOk(s, t, NextPc(s, pc, a))
  {
  }

  // ---------------------------------------------------------------- claiming

  /** The slots that were checked one by one are all still free when the compare-and-swap wins. */
  lemma {:induction false} CheckedRunIsFree(s: Shared, t: Thread, pc: Pc)
    requires Ring(s) && PcOk(s, t, pc) && pc.EnqCas? && s.enq == pc.pos
    ensures forall p :: pc.pos <= p < pc.pos + pc.ready ==> Seq(s.slots, p) == p
  {
    forall p | pc.pos <= p < pc.pos + pc.ready ensures Seq(s.slots, p) == p {
      assert Position(s, p);
    }
  }

  /** The checked entries are all still there when the compare-and-swap wins. */
  lemma {:induction false} CheckedRunIsFilled(s: Shared, t: Thread, pc: Pc)
    requires Ring(s) && PcOk(s, t, pc) && pc.DeqCas? && s.deq == pc.pos
    ensures forall p :: pc.pos <= p < pc.pos + pc.ready ==> Seq(s.slots, p) == p + 1
    ensures pc.pos + pc.ready <= s.enq
  {
    forall p | pc.pos <= p < pc.pos + pc.ready ensures Seq(s.slots, p) == p + 1 {
      assert Position(s, p);
    }
    assert Position(s, pc.pos + pc.ready - 1);
  }

  lemma {:induction false} EnqClaimKeeps(s: Shared, t: Thread, pc: Pc, a: Action)
    requires Ring(s) && Enabled(s, pc, a) && PcOk(s, t, pc) && pc.EnqCas? && CasWins(s, pc, a)
    ensures var s' := Effect(s, t, pc, a); Ring(s') && PcOk(s', t, NextPc(s, pc, a))
  {
    var s' := Effect(s, t, pc, a);
    CheckedRunIsFree(s, t, pc);
    forall p: nat ensures Position(s', p) {
      assert Position(s, p);
      assert s'.slots == s.slots;
    }
    AppendedSlice(s.log, pc.entries[..pc.ready]);
  }

  lemma {:induction false} AppendedSlice(log: seq<Entry>, more: seq<Entry>)
    ensures (log + more)[|log|..|log| + |more|] == more
  {
  }

  lemma {:induction false} SliceGrows(log: seq<Entry>, from: nat, to: nat)
    requires from <= to < |log|
    ensures log[from..to + 1] == log[from..to] + [log[to]]
  {
  }

  lemma {:induction false} DeqClaimKeeps(s: Shared, t: Thread, pc: Pc, a: Action)
    requires Ring(s) && Enabled(s, pc, a) && PcOk(s, t, pc) && pc.DeqCas? && CasWins(s, pc, a)
    ensures var s' := Effect(s, t, pc, a); Ring(s') && PcOk(s', t, NextPc(s, pc, a))
  {
    var s' := Effect(s, t, pc, a);
    CheckedRunIsFilled(s, t, pc);
    forall p: nat ensures Position(s', p) {
      assert Position(s, p);
      assert s'.slots == s.slots;
    }
    assert forall p :: s.deq <= p ==> p !in s.delivered by {
      forall p | s.deq <= p ensures p !in s.delivered { assert Position(s, p); }
    }
    assert Seq(s.slots, pc.pos + pc.ready - 1) == pc.pos + pc.ready;
    assert s'.log[pc.pos..pc.pos] == [];
  }

  // ---------------------------------------------------------------- working on a claimed position

  lemma {:induction false} WriteKeeps(s: Shared, t: Thread, pc: Pc, a: Action)
    requires Ring(s) && Enabled(s, pc, a) && PcOk(s, t, pc) && pc.EnqWrite?
    ensures var s' := Effect(s, t, pc, a); Ring(s') && PcOk(s', t, NextPc(s, pc, a))
  {
    var s' := Effect(s, t, pc, a);
    var p0 := pc.pos + pc.i;
    assert Position(s, p0);
    forall p: nat ensures Position(s', p) {
      assert Position(s, p);
      assert Seq(s'.slots, p) == Seq(s.slots, p);
      Apart(p, p0, |s.slots|);
    }
  }

  /** Distinct positions of one slot differ by a turn; others do not share the slot. */
  lemma {:induction false} Apart(p: nat, q: nat, n: nat)
    requires n > 0
    ensures Index(p, n) == Index(q, n) && p != q ==> p + n <= q || q + n <= p
  {
    if Index(p, n) == Index(q, n) && p < q {
      SameSlot(p, q, n);
    } else if Index(p, n) == Index(q, n) && q < p {
      SameSlot(q, p, n);
    }
  }

  lemma {:induction false} PublishKeeps(s: Shared, t: Thread, pc: Pc, a: Action)
    requires Ring(s) && Enabled(s, pc, a) && PcOk(s, t, pc) && pc.EnqPublish?
    ensures var s' := Effect(s, t, pc, a); Ring(s') && PcOk(s', t, NextPc(s, pc, a))
  {
    var s' := Effect(s, t, pc, a);
    var p0 := pc.pos + pc.i;
    assert Position(s, p0);
    assert s.log[p0] == pc.entries[pc.i];
    forall p: nat ensures Position(s', p) {
      assert Position(s, p);
      Apart(p, p0, |s.slots|);
    }
  }

  lemma {:induction false} ReadKeeps(s: Shared, t: Thread, pc: Pc, a: Action)
    requires Ring(s) && Enabled(s, pc, a) && PcOk(s, t, pc) && pc.DeqRead?
    ensures var s' := Effect(s, t, pc, a); Ring(s') && PcOk(s', t, NextPc(s, pc, a))
  {
    var s' := Effect(s, t, pc, a);
    var p0 := pc.pos + |pc.got|;
    assert Position(s, p0);
    forall p: nat ensures Position(s', p) {
      assert Position(s, p);
    }
    SliceGrows(s.log, pc.pos, p0);
  }

  lemma {:induction false} ReleaseKeeps(s: Shared, t: Thread, pc: Pc, a: Action)
    requires Ring(s) && Enabled(s, pc, a) && PcOk(s, t, pc) && pc.DeqRelease?
    ensures var s' := Effect(s, t, pc, a); Ring(s') && PcOk(s', t, NextPc(s, pc, a))
  {
    var s' := Effect(s, t, pc, a);
    var p0 := pc.pos + |pc.got| - 1;
    assert Position(s, p0);
    forall p: nat ensures Position(s', p) {
      assert Position(s, p);
      Apart(p, p0, |s.slots|);
      Apart(p, p0 + |s.slots|, |s.slots|);
    }
  }

  // ---------------------------------------------------------------- other threads

  /** What a step of t may change, as seen by the others: sequence numbers and positions only
      grow, and what another thread has claimed is left alone. */
  ghost predicate Frame(s: Shared, s': Shared, t: Thread) {
    && |s.slots| >= 2 && |s'.slots| == |s.slots| && s.enq <= s'.enq && s.deq <= s'.deq && s.log <= s'.log
    && (forall p: nat :: Seq(s.slots, p) <= Seq(s'.slots, p))
    && (forall p :: p in s.writer && s.writer[p] != t ==>
          p in s'.writer && s'.writer[p] == s.writer[p] && SlotOf(s'.slots, p).entry == SlotOf(s.slots, p).entry)
    && (forall p :: p in s.reader && s.reader[p] != t ==>
          p in s'.reader && s'.reader[p] == s.reader[p] && (p in s'.delivered <==> p in s.delivered))
  }

  lemma {:induction false} FrameKeepsPc(s: Shared, s': Shared, t: Thread, u: Thread, pc: Pc)
    requires Frame(s, s', t) && u != t && PcOk(s, u, pc)
    ensures PcOk(s', u, pc)
  {
    match pc
    case EnqScan(_, _, pos, ready) => StillAtLeast(s, s', t, pos, ready, 0);
    case EnqCas(_, _, pos, ready) => StillAtLeast(s, s', t, pos, ready, 0);
    case DeqScan(_, pos, ready) => StillAtLeast(s, s', t, pos, ready, 1);
    case DeqCas(_, pos, ready) => StillAtLeast(s, s', t, pos, ready, 1);
    case EnqWrite(_, _, _) => FrameKeepsWriter(s, s', t, u, pc);
    case EnqPublish(_, _, _) => FrameKeepsWriter(s, s', t, u, pc);
    case DeqRead(_, _, _) => FrameKeepsReader(s, s', t, u, pc);
    case DeqRelease(_, _, _) => FrameKeepsReader(s, s', t, u, pc);
    case _ =>
  }

  lemma {:induction false} StillAtLeast(s: Shared, s': Shared, t: Thread, pos: nat, k: nat, extra: nat)
    requires Frame(s, s', t) && AtLeast(s.slots, pos, k, extra)
    ensures AtLeast(s'.slots, pos, k, extra)
  {
  }

  lemma {:induction false} FrameKeepsWriter(s: Shared, s': Shared, t: Thread, u: Thread, pc: Pc)
    requires Frame(s, s', t) && u != t && PcOk(s, u, pc) && (pc.EnqWrite? || pc.EnqPublish?)
    ensures PcOk(s', u, pc)
  {
    SliceKept(s.log, s'.log, pc.pos, pc.pos + |pc.entries|);
  }

  lemma {:induction false} FrameKeepsReader(s: Shared, s': Shared, t: Thread, u: Thread, pc: Pc)
    requires Frame(s, s', t) && u != t && PcOk(s, u, pc) && (pc.DeqRead? || pc.DeqRelease?)
    ensures PcOk(s', u, pc)
  {
    SliceKept(s.log, s'.log, pc.pos, pc.pos + |pc.got|);
  }

  lemma {:induction false} SliceKept(log: seq<Entry>, more: seq<Entry>, from: nat, to: nat)
    requires log <= more && from <= to <= |log|
    ensures more[from..to] == log[from..to]
  {
  }

  lemma {:induction false} ClaimFrames(s: Shared, t: Thread, pc: Pc, a: Action)
    requires Ring(s) && Enabled(s, pc, a) && PcOk(s, t, pc) && CasWins(s, pc, a)
    ensures Frame(s, Effect(s, t, pc, a), t)
  {
    var s' := Effect(s, t, pc, a);
    assert s'.slots == s.slots;
    forall p | p in s.writer ensures p < s.enq { assert Position(s, p); }
    forall p | p in s.reader ensures p < s.deq { assert Position(s, p); }
  }

  lemma {:induction false} WorkFrames(s: Shared, t: Thread, pc: Pc, a: Action)
    requires Ring(s) && Enabled(s, pc, a) && PcOk(s, t, pc)
    requires pc.EnqWrite? || pc.EnqPublish? || pc.DeqRead? || pc.DeqRelease?
    ensures Frame(s, Effect(s, t, pc, a), t)
  {
    if pc.EnqWrite? || pc.EnqPublish? { FillFrames(s, t, pc, a); } else { DrainFrames(s, t, pc, a); }
  }

  lemma {:induction false} FillFrames(s: Shared, t: Thread, pc: Pc, a: Action)
    requires Ring(s) && Enabled(s, pc, a) && PcOk(s, t, pc) && (pc.EnqWrite? || pc.EnqPublish?)
    ensures Frame(s, Effect(s, t, pc, a), t)
  {
    var s' := Effect(s, t, pc, a);
    assert Position(s, pc.pos + pc.i);
    forall p: nat ensures Seq(s.slots, p) <= Seq(s'.slots, p) { assert Position(s, p); }
    forall p | p in s.writer && s.writer[p] != t ensures SlotOf(s'.slots, p).entry == SlotOf(s.slots, p).entry {
      assert Position(s, p);
    }
  }

  lemma {:induction false} DrainFrames(s: Shared, t: Thread, pc: Pc, a: Action)
    requires Ring(s) && Enabled(s, pc, a) && PcOk(s, t, pc) && (pc.DeqRead? || pc.DeqRelease?)
    ensures Frame(s, Effect(s, t, pc, a), t)
  {
    var s' := Effect(s, t, pc, a);
    assert Position(s, pc.pos + |pc.got| - if pc.DeqRead? then 0 else 1);
    forall p: nat ensures Seq(s.slots, p) <= Seq(s'.slots, p) { assert Position(s, p); }
    forall p | p in s.writer && s.writer[p] != t ensures SlotOf(s'.slots, p).entry == SlotOf(s.slots, p).entry {
      assert Position(s, p);
    }
  }

  // ---------------------------------------------------------------- every step, every run

  lemma {:induction false} EffectKeeps(s: Shared, t: Thread, pc: Pc, a: Action)
    requires Ring(s) && Enabled(s, pc, a) && PcOk(s, t, pc)
    ensures var s' := Effect(s, t, pc, a);
            Ring(s') && PcOk(s', t, NextPc(s, pc, a)) && (s' == s || Frame(s, s', t))
  {
    if Looks(s, pc, a) {
      LookKeeps(s, t, pc, a);
    } else if CasWins(s, pc, a) {
      if pc.EnqCas? { EnqClaimKeeps(s, t, pc, a); } else { DeqClaimKeeps(s, t, pc, a); }
      ClaimFrames(s, t, pc, a);
    } else {
      match pc {
        case EnqWrite(_, _, _) => WriteKeeps(s, t, pc, a);
        case EnqPublish(_, _, _) => PublishKeeps(s, t, pc, a);
        case DeqRead(_, _, _) => ReadKeeps(s, t, pc, a);
        case DeqRelease(_, _, _) => ReleaseKeeps(s, t, pc, a);
      }
      WorkFrames(s, t, pc, a);
    }
  }

  lemma {:induction false} NextPreserves(s: State, s': State, t: Thread, a: Action)
    requires Inv(s) && NextStep(s, s', t, a)
    ensures Inv(s')
    ensures s'.sh == s.sh || Frame(s.sh, s'.sh, t)
  {
    EffectKeeps(s.sh, t, s.pc[t], a);
    forall u | u in s'.pc && u != t ensures PcOk(s'.sh, u, s'.pc[u]) {
      if s'.sh != s.sh { FrameKeepsPc(s.sh, s'.sh, t, u, s.pc[u]); }
    }
  }

  ghost predicate StepAt(run: seq<State>, i: nat) {
    0 < i < |run| && Next(run[i - 1], run[i])
  }

  ghost predicate Run(run: seq<State>) {
    && |run| > 0 && Init(run[0])
    && forall i :: 0 < i < |run| ==> StepAt(run, i)
  }

  lemma {:induction false} RunInv(run: seq<State>, i: nat)
    requires Run(run) && i < |run|
    ensures Inv(run[i])
  {
    if i == 0 {
      InitInv(run[0]);
    } else {
      RunInv(run, i - 1);
      assert StepAt(run, i);
      var t, a :| NextStep(run[i - 1], run[i], t, a);
      NextPreserves(run[i - 1], run[i], t, a);
    }
  }

  /** Each position is handed to one dequeuer: what has been delivered there never changes. */
  lemma {:induction false} DeliveredOnce(s: State, s': State, t: Thread, a: Action)
    requires Inv(s) && NextStep(s, s', t, a)
    ensures s.sh.log <= s'.sh.log
    ensures forall p :: p in s.sh.delivered ==> p in s'.sh.delivered && s'.sh.delivered[p] == s.sh.delivered[p]
    ensures forall p :: p in s'.sh.delivered ==> p < |s'.sh.log| && s'.sh.delivered[p] == s'.sh.log[p]
  {
    NextPreserves(s, s', t, a);
    assert PcOk(s.sh, t, s.pc[t]);
    forall p | p in s'.sh.delivered ensures p < |s'.sh.log| && s'.sh.delivered[p] == s'.sh.log[p] {
      assert Position(s'.sh, p);
    }
  }

  lemma {:induction false} RunDeliveredNext(run: seq<State>, j: nat)
    requires Run(run) && 0 < j < |run|
    ensures run[j - 1].sh.log <= run[j].sh.log
    ensures forall p :: p in run[j - 1].sh.delivered ==>
              p in run[j].sh.delivered && run[j].sh.delivered[p] == run[j - 1].sh.delivered[p]
  {
    RunInv(run, j - 1);
    assert StepAt(run, j);
    var t, a :| NextStep(run[j - 1], run[j], t, a);
    DeliveredOnce(run[j - 1], run[j], t, a);
  }

  /** Over every run: entries keep their place in claim order, a delivered position stays
      delivered with the same entry, and that entry is the one enqueued at that position. */
  lemma {:induction false} HandedOverInOrder(run: seq<State>, i: nat, j: nat, p: nat)
    requires Run(run) && i <= j < |run|
    ensures run[i].sh.log <= run[j].sh.log
    ensures p in run[i].sh.delivered ==> p in run[j].sh.delivered && p < |run[j].sh.log|
    ensures p in run[i].sh.delivered ==> run[i].sh.delivered[p] == run[j].sh.delivered[p] == run[j].sh.log[p]
    decreases j
  {
    if i < j {
      HandedOverInOrder(run, i, j - 1, p);
      RunDeliveredNext(run, j);
    } else {
      RunInv(run, i);
      assert Position(run[i].sh, p);
    }
  }

  /** A slot is not overwritten before it is read: when a thread is about to store an entry for
      position p, the entry of the previous turn has been delivered. */
  lemma {:induction false} NeverOverwritten(s: State, t: Thread)
    requires Inv(s) && t in s.pc && s.pc[t].EnqWrite?
    ensures var p := s.pc[t].pos + s.pc[t].i;
            p >= |s.sh.slots| ==> p - |s.sh.slots| in s.sh.delivered
  {
    var p := s.pc[t].pos + s.pc[t].i;
    assert PcOk(s.sh, t, s.pc[t]);
    assert Position(s.sh, p);
    if p >= |s.sh.slots| {
      assert Index(p, |s.sh.slots|) == Index(p - |s.sh.slots|, |s.sh.slots|);
      assert Position(s.sh, p - |s.sh.slots|);
    }
  }

  /** A dequeuer reads a position nobody has read, and gets the entry enqueued there. */
  lemma {:induction false} ReadsFreshEntry(s: State, t: Thread)
    requires Inv(s) && t in s.pc && s.pc[t].DeqRead?
    ensures var p := s.pc[t].pos + |s.pc[t].got|;
            p !in s.sh.delivered && p < |s.sh.log| && SlotOf(s.sh.slots, p).entry == s.sh.log[p]
  {
    assert PcOk(s.sh, t, s.pc[t]);
    assert Position(s.sh, s.pc[t].pos + |s.pc[t].got|);
  }

  /** Conservation: an enqueued position is still being written, waiting in the ring, being taken
      out, or delivered and its slot given back. */
  lemma {:induction false} EntryAccountedFor(s: State, p: nat)
    requires Inv(s) && p < s.sh.enq
    ensures (p in s.sh.writer && p >= s.sh.deq)
         || (p >= s.sh.deq && Seq(s.sh.slots, p) == p + 1 && SlotOf(s.sh.slots, p).entry == s.sh.log[p])
         || (p in s.sh.reader && p < s.sh.deq && p !in s.sh.writer)
         || (p < s.sh.deq && p in s.sh.delivered && p !in s.sh.reader && p !in s.sh.writer)
  {
    assert Position(s.sh, p);
  }

  /** A dequeue gives up only when the oldest position is absent or still being written. */
  lemma {:induction false} DequeueFailsWhenEmpty(s: State, t: Thread, a: Action)
    requires Inv(s) && t in s.pc && Enabled(s.sh, s.pc[t], a)
    requires s.pc[t].DeqScan? && NextPc(s.sh, s.pc[t], a) == Idle
    ensures s.sh.deq == s.sh.enq || s.sh.deq in s.sh.writer
  {
    assert PcOk(s.sh, t, s.pc[t]);
    assert Position(s.sh, s.pc[t].pos);
  }

  /** An enqueue gives up only when the slot of the next position still holds the entry of the
      previous turn, claimed by a dequeuer or not. */
  lemma {:induction false} EnqueueFailsWhenFull(s: State, t: Thread, a: Action)
    requires Inv(s) && t in s.pc && Enabled(s.sh, s.pc[t], a)
    requires s.pc[t].EnqScan? && (NextPc(s.sh, s.pc[t], a) == Idle || NextPc(s.sh, s.pc[t], a).EnqFull?)
    ensures s.sh.enq >= |s.sh.slots|
    ensures s.sh.enq - s.sh.deq >= |s.sh.slots| || s.sh.enq - |s.sh.slots| in s.sh.reader
  {
    var n := |s.sh.slots|;
    assert PcOk(s.sh, t, s.pc[t]);
    assert Position(s.sh, s.pc[t].pos);
    assert s.pc[t].pos == s.sh.enq;
    assert Index(s.sh.enq, n) == Index(s.sh.enq - n, n);
    assert Position(s.sh, s.sh.enq - n);
  }

  /** When the pool's push reports failure: with room in the pool exactly when the position it looked at has
      been overtaken by the dequeuers since; and if nothing was put in since, exactly when the pool is full. */
  lemma {:induction false} PoolPushFails(s: State, t: Thread, a: Action)
    requires Inv(s) && t in s.pc && Enabled(s.sh, s.pc[t], a) && s.pc[t].EnqFull?
    ensures var full, fails := s.sh.enq - s.sh.deq >= |s.sh.slots|, NextPc(s.sh, s.pc[t], a) == Idle;
            && (!full ==> (fails <==> s.pc[t].pos < s.sh.deq))
            && (s.pc[t].pos == s.sh.enq ==> (fails <==> full))
  {
    assert PcOk(s.sh, t, s.pc[t]);
  }

  // ---------------------------------------------------------------- what the calls were given, and what they return

  /** One step of a schedule. */
  datatype Move = Move(t: Thread, a: Action)

  predicate MoveAt(run: seq<State>, moves: seq<Move>, i: nat)
    requires i < |moves| && i + 1 < |run|
  {
    NextStep(run[i], run[i + 1], moves[i].t, moves[i].a)
  }

  /** A run together with who did what. */
  ghost predicate Schedule(run: seq<State>, moves: seq<Move>) {
    |run| == |moves| + 1 && Init(run[0]) && forall i :: 0 <= i < |moves| ==> MoveAt(run, moves, i)
  }

  /** A schedule's states are a run. */
  lemma {:induction false} ScheduleRuns(run: seq<State>, moves: seq<Move>)
    requires Schedule(run, moves)
    ensures Run(run)
  {
    forall i | 0 < i < |run| ensures StepAt(run, i) { assert MoveAt(run, moves, i - 1); }
  }

  /** The call the thread is in, or was last in. */
  function Called(moves: seq<Move>, t: Thread): Option<Action> {
    if moves == [] then None
    else
      var m := moves[|moves| - 1];
      if m.t == t && !m.a.Go? then Some(m.a) else Called(moves[..|moves| - 1], t)
  }

  /** The entries an enqueue or a push was given. */
  function Given(call: Action): seq<Entry> {
    match call
    case Enqueue(entries) => entries
    case Push(entry) => [entry]
    case _ => []
  }

  /** As many of them as the ring has slots. */
  function Capped(call: Action, n: nat): seq<Entry> { Given(call)[..Min(|Given(call)|, n)] }

  /** The thread still works with what its call was given. */
  predicate ArgTrue(pc: Pc, call: Option<Action>, n: nat) {
    match pc
    case Idle => true
    case EnqLoad(entries, pool) => call.Some? && entries == Capped(call.value, n) && pool == call.value.Push?
    case EnqScan(entries, pool, _, _) => call.Some? && entries == Capped(call.value, n) && pool == call.value.Push?
    case EnqFull(entries, _) => call.Some? && entries == Capped(call.value, n) && call.value.Push?
    case EnqCas(entries, pool, _, _) => call.Some? && entries == Capped(call.value, n) && pool == call.value.Push?
    case EnqWrite(entries, _, _) => call.Some? && entries <= Given(call.value)
    case EnqPublish(entries, _, _) => call.Some? && entries <= Given(call.value)
    case DeqLoad(max) => call.Some? && call.value.Dequeue? && max == Min(call.value.max, n)
    case DeqScan(max, _, _) => call.Some? && call.value.Dequeue? && max == Min(call.value.max, n)
    case DeqCas(max, _, _) => call.Some? && call.value.Dequeue? && max == Min(call.value.max, n)
    case DeqRead(_, k, _) => call.Some? && call.value.Dequeue? && k <= call.value.max
    case DeqRelease(_, k, _) => call.Some? && call.value.Dequeue? && k <= call.value.max
  }

  lemma {:induction false} OwnArg(s: Shared, t: Thread, pc: Pc, a: Action, call: Option<Action>)
    requires Enabled(s, pc, a) && PcOk(s, t, pc) && ArgTrue(pc, call, |s.slots|)
    ensures ArgTrue(NextPc(s, pc, a), if a.Go? then call else Some(a), |s.slots|)
  {
  }

  lemma {:induction false} SameSize(s: Shared, t: Thread, pc: Pc, a: Action)
    requires Enabled(s, pc, a)
    ensures |Effect(s, t, pc, a).slots| == |s.slots|
  {
  }

  lemma {:induction false} OwnPc(run: seq<State>, i: nat, t: Thread)
    requires Run(run) && i < |run| && t in run[i].pc
    ensures |run[i].sh.slots| >= 2 && PcOk(run[i].sh, t, run[i].pc[t])
  {
    RunInv(run, i);
  }

  lemma {:induction false} MovePc(run: seq<State>, moves: seq<Move>, i: nat, t: Thread)
    requires i < |moves| && i + 1 < |run| && MoveAt(run, moves, i) && t in run[i + 1].pc
    ensures t in run[i].pc && |run[i + 1].sh.slots| == |run[i].sh.slots|
    ensures moves[i].t == t ==>
              Enabled(run[i].sh, run[i].pc[t], moves[i].a)
              && run[i + 1].pc[t] == NextPc(run[i].sh, run[i].pc[t], moves[i].a)
    ensures moves[i].t != t ==> run[i + 1].pc[t] == run[i].pc[t]
  {
    SameSize(run[i].sh, moves[i].t, run[i].pc[moves[i].t], moves[i].a);
  }

  /** Through all retries a call works with exactly what it was given. */
  lemma {:induction false} RunArgs(run: seq<State>, moves: seq<Move>, i: nat, t: Thread)
    requires Schedule(run, moves) && Run(run) && i < |run| && t in run[i].pc
    ensures ArgTrue(run[i].pc[t], Called(moves[..i], t), |run[i].sh.slots|)
    decreases i
  {
    if i > 0 {
      assert MoveAt(run, moves, i - 1);
      MovePc(run, moves, i - 1, t);
      RunArgs(run, moves, i - 1, t);
      assert moves[..i][..i - 1] == moves[..i - 1];
      if t == moves[i - 1].t {
        OwnPc(run, i - 1, t);
        OwnArg(run[i - 1].sh, t, run[i - 1].pc[t], moves[i - 1].a, Called(moves[..i - 1], t));
      }
    }
  }

  /** In every run a winning compare-and-swap of an enqueuer puts into the order of the ring exactly the
      first `ready` of the entries its call was given, at least one and no more than there are slots. */
  lemma {:induction false} EnqueueAppends(run: seq<State>, moves: seq<Move>, i: nat)
    requires Schedule(run, moves) && i < |moves| && moves[i].t in run[i].pc
    requires run[i].pc[moves[i].t].EnqCas? && CasWins(run[i].sh, run[i].pc[moves[i].t], moves[i].a)
    ensures var call, ready := Called(moves[..i], moves[i].t), run[i].pc[moves[i].t].ready;
            && call.Some? && 0 < ready <= |Given(call.value)| && ready <= |run[i].sh.slots|
            && run[i + 1].sh.log == run[i].sh.log + Given(call.value)[..ready]
  {
    ScheduleRuns(run, moves);
    RunArgs(run, moves, i, moves[i].t);
    OwnPc(run, i, moves[i].t);
    assert MoveAt(run, moves, i);
    var given, ready := Given(Called(moves[..i], moves[i].t).value), run[i].pc[moves[i].t].ready;
    assert Capped(Called(moves[..i], moves[i].t).value, |run[i].sh.slots|)[..ready] == given[..ready];
  }

  /** The enqueue is done with its last position: what it leaves in the ring, and returns the number of,
      are the first entries it was given. */
  lemma {:induction false} EnqueueReturns(run: seq<State>, moves: seq<Move>, i: nat, t: Thread)
    requires Schedule(run, moves) && i < |run| && t in run[i].pc && run[i].pc[t].EnqPublish?
    ensures var call, pc := Called(moves[..i], t), run[i].pc[t];
            && call.Some? && pc.entries <= Given(call.value) && pc.pos + |pc.entries| <= |run[i].sh.log|
            && run[i].sh.log[pc.pos..pc.pos + |pc.entries|] == pc.entries
  {
    ScheduleRuns(run, moves);
    RunArgs(run, moves, i, t);
    OwnPc(run, i, t);
  }

  /** What a finished dequeue returns: the entries of k consecutive positions in the order of the ring, at
      least one and no more than it asked for. */
  lemma {:induction false} DequeueReturns(run: seq<State>, moves: seq<Move>, i: nat, t: Thread)
    requires Schedule(run, moves) && i < |run| && t in run[i].pc && run[i].pc[t].DeqRelease?
    requires |run[i].pc[t].got| == run[i].pc[t].k
    ensures var call, pc := Called(moves[..i], t), run[i].pc[t];
            && call.Some? && call.value.Dequeue? && 0 < pc.k <= call.value.max && pc.pos + pc.k <= |run[i].sh.log|
            && pc.got == run[i].sh.log[pc.pos..pc.pos + pc.k]
  {
    ScheduleRuns(run, moves);
    RunArgs(run, moves, i, t);
    OwnPc(run, i, t);
  }

  // ---------------------------------------------------------------- a call that runs alone

  /** The thread's next `steps` accesses with nobody in between. */
  function Alone(s: Shared, t: Thread, pc: Pc, steps: nat): (Shared, Pc)
    decreases steps
  {
    if steps == 0 || !Enabled(s, pc, Go(false)) then (s, pc)
    else Alone(Effect(s, t, pc, Go(false)), t, NextPc(s, pc, Go(false)), steps - 1)
  }

  lemma {:induction false} AloneAdd(s: Shared, t: Thread, pc: Pc, m: nat, n: nat)
    ensures var mid := Alone(s, t, pc, m); Alone(s, t, pc, m + n) == Alone(mid.0, t, mid.1, n)
    decreases m
  {
    if m > 0 && Enabled(s, pc, Go(false)) {
      AloneAdd(Effect(s, t, pc, Go(false)), t, NextPc(s, pc, Go(false)), m - 1, n);
    } else if m > 0 {
      assert Alone(s, t, pc, m + n) == (s, pc);
    }
  }

  /** How many of the positions from pos on, up to max, have their sequence number at p + extra: free for
      enqueuing with 0, filled with 1. */
  function Prepared(slots: seq<Slot>, pos: nat, max: nat, extra: nat): (k: nat)
    requires slots != []
    ensures k <= max
    decreases max
  {
    if max == 0 || Seq(slots, pos) != pos + extra then 0 else 1 + Prepared(slots, pos + 1, max - 1, extra)
  }

  lemma {:induction false} EnqScanAlone(s: Shared, t: Thread, entries: seq<Entry>, pool: bool, ready: nat)
    returns (steps: nat)
    requires Ring(s) && ready <= |entries| && ready + Prepared(s.slots, s.enq + ready, |entries| - ready, 0) > 0
    ensures Alone(s, t, EnqScan(entries, pool, s.enq, ready), steps)
         == (s, EnqCas(entries, pool, s.enq, ready + Prepared(s.slots, s.enq + ready, |entries| - ready, 0)))
    decreases |entries| - ready
  {
    assert Position(s, s.enq + ready);
    if ready < |entries| && Seq(s.slots, s.enq + ready) == s.enq + ready {
      steps := EnqScanAlone(s, t, entries, pool, ready + 1);
      steps := steps + 1;
    } else {
      steps := 1;
      assert Alone(s, t, NextPc(s, EnqScan(entries, pool, s.enq, ready), Go(false)), 0).0 == s;
    }
  }

  lemma {:induction false} WriteAlone(s: Shared, t: Thread, entries: seq<Entry>, pos: nat, i: nat)
    returns (steps: nat)
    requires |s.slots| >= 2 && i < |entries|
    ensures var r := Alone(s, t, EnqWrite(entries, pos, i), steps); r.1 == Idle && r.0.log == s.log && r.0.enq == s.enq
    decreases |entries| - i
  {
    var s1 := Effect(s, t, EnqWrite(entries, pos, i), Go(false));
    var s2 := Effect(s1, t, EnqPublish(entries, pos, i), Go(false));
    steps := 0;
    if i + 1 < |entries| { steps := WriteAlone(s2, t, entries, pos, i + 1); }
    assert Alone(s1, t, EnqPublish(entries, pos, i), steps + 1)
        == Alone(s2, t, if i + 1 < |entries| then EnqWrite(entries, pos, i + 1) else Idle, steps);
    assert Alone(s, t, EnqWrite(entries, pos, i), steps + 2) == Alone(s1, t, EnqPublish(entries, pos, i), steps + 1);
    steps := steps + 2;
  }

  /** An enqueue that runs alone puts in as many of its entries as there are free positions in a row, and
      is done. */
  lemma {:induction false} EnqueueAlone(s: Shared, t: Thread, entries: seq<Entry>, pool: bool) returns (steps: nat)
    requires Ring(s) && entries != [] && Prepared(s.slots, s.enq, |entries|, 0) > 0
    ensures var r, k := Alone(s, t, EnqLoad(entries, pool), steps), Prepared(s.slots, s.enq, |entries|, 0);
            r.1 == Idle && r.0.log == s.log + entries[..k] && r.0.enq == s.enq + k
  {
    var scan := EnqScanAlone(s, t, entries, pool, 0);
    var write := EnqCasAlone(s, t, entries, pool, Prepared(s.slots, s.enq, |entries|, 0));
    AloneAdd(s, t, EnqScan(entries, pool, s.enq, 0), scan, write);
    steps := scan + write + 1;
    AloneOne(s, t, EnqLoad(entries, pool), scan + write);
  }

  lemma {:induction false} AloneOne(s: Shared, t: Thread, pc: Pc, n: nat)
    requires Enabled(s, pc, Go(false))
    ensures Alone(s, t, pc, n + 1) == Alone(Effect(s, t, pc, Go(false)), t, NextPc(s, pc, Go(false)), n)
  {
  }

  lemma {:induction false} EnqCasAlone(s: Shared, t: Thread, entries: seq<Entry>, pool: bool, k: nat)
    returns (steps: nat)
    requires |s.slots| >= 2 && 0 < k <= |entries|
    ensures var r := Alone(s, t, EnqCas(entries, pool, s.enq, k), steps);
            r.1 == Idle && r.0.log == s.log + entries[..k] && r.0.enq == s.enq + k
  {
    var pc := EnqCas(entries, pool, s.enq, k);
    steps := WriteAlone(Effect(s, t, pc, Go(false)), t, entries[..k], s.enq, 0);
    AloneOne(s, t, pc, steps);
    steps := steps + 1;
  }

  lemma {:induction false} DeqScanAlone(s: Shared, t: Thread, max: nat, ready: nat) returns (steps: nat)
    requires Ring(s) && ready <= max && ready + Prepared(s.slots, s.deq + ready, max - ready, 1) > 0
    ensures Alone(s, t, DeqScan(max, s.deq, ready), steps)
         == (s, DeqCas(max, s.deq, ready + Prepared(s.slots, s.deq + ready, max - ready, 1)))
    decreases max - ready
  {
    assert Position(s, s.deq + ready);
    if ready < max && Seq(s.slots, s.deq + ready) == s.deq + ready + 1 {
      steps := DeqScanAlone(s, t, max, ready + 1);
      steps := steps + 1;
    } else {
      steps := 1;
      assert Alone(s, t, NextPc(s, DeqScan(max, s.deq, ready), Go(false)), 0).0 == s;
    }
  }

  lemma {:induction false} ReadAlone(s: Shared, t: Thread, pos: nat, k: nat, got: seq<Entry>) returns (steps: nat)
    requires |s.slots| >= 2 && |got| < k
    ensures var r := Alone(s, t, DeqRead(pos, k, got), steps);
            r.1.DeqRelease? && r.1.pos == pos && r.1.k == k == |r.1.got| && r.0.log == s.log
    decreases k - |got|
  {
    var s1 := Effect(s, t, DeqRead(pos, k, got), Go(false));
    var more := got + [SlotOf(s.slots, pos + |got|).entry];
    var release := DeqRelease(pos, k, more);
    if |more| == k {
      steps := 1;
      assert Alone(s1, t, release, 0) == (s1, release);
    } else {
      var s2 := Effect(s1, t, release, Go(false));
      steps := ReadAlone(s2, t, pos, k, more);
      assert Alone(s1, t, release, steps + 1) == Alone(s2, t, DeqRead(pos, k, more), steps);
      assert Alone(s, t, DeqRead(pos, k, got), steps + 2) == Alone(s1, t, release, steps + 1);
      steps := steps + 2;
    }
  }

  /** A dequeue that runs alone takes as many entries as there are filled positions in a row, up to its
      maximum. */
  lemma {:induction false} DequeueAlone(s: Shared, t: Thread, max: nat) returns (steps: nat)
    requires Ring(s) && Prepared(s.slots, s.deq, max, 1) > 0
    ensures var r, k := Alone(s, t, DeqLoad(max), steps), Prepared(s.slots, s.deq, max, 1);
            r.1.DeqRelease? && r.1.pos == s.deq && r.1.k == k == |r.1.got| && r.0.log == s.log
  {
    var scan := DeqScanAlone(s, t, max, 0);
    var read := DeqCasAlone(s, t, max, Prepared(s.slots, s.deq, max, 1));
    AloneAdd(s, t, DeqScan(max, s.deq, 0), scan, read);
    steps := scan + read + 1;
    AloneOne(s, t, DeqLoad(max), scan + read);
  }

  lemma {:induction false} DeqCasAlone(s: Shared, t: Thread, max: nat, k: nat) returns (steps: nat)
    requires |s.slots| >= 2 && k > 0
    ensures var r := Alone(s, t, DeqCas(max, s.deq, k), steps);
            r.1.DeqRelease? && r.1.pos == s.deq && r.1.k == k == |r.1.got| && r.0.log == s.log
  {
    var pc := DeqCas(max, s.deq, k);
    steps := ReadAlone(Effect(s, t, pc, Go(false)), t, s.deq, k, []);
    AloneOne(s, t, pc, steps);
    steps := steps + 1;
  }

  // ---------------------------------------------------------------- a push that fails on an empty pool

  function Last(run: seq<State>): State
    requires run != []
  {
    run[|run| - 1]
  }

  /** A schedule goes on with one more step. */
  lemma {:induction false} OneMove(run: seq<State>, moves: seq<Move>, m: Move, s: State)
    requires Schedule(run, moves) && NextStep(Last(run), s, m.t, m.a)
    ensures Schedule(run + [s], moves + [m])
  {
    var run2, moves2 := run + [s], moves + [m];
    forall i | 0 <= i < |moves2| ensures MoveAt(run2, moves2, i) {
      if i < |moves| { assert MoveAt(run, moves, i); }
    }
  }

  /** Or with so many steps of one thread. */
  lemma {:induction false} GoesOn(run: seq<State>, moves: seq<Move>, t: Thread, steps: nat)
    returns (run2: seq<State>, moves2: seq<Move>)
    requires Schedule(run, moves) && t in Last(run).pc
    ensures Schedule(run2, moves2)
    ensures var s := Last(run); var r := Alone(s.sh, t, s.pc[t], steps); Last(run2) == State(r.0, s.pc[t := r.1])
    decreases steps
  {
    var s := Last(run);
    if steps == 0 || !Enabled(s.sh, s.pc[t], Go(false)) {
      run2, moves2 := run, moves;
      assert s.pc[t := s.pc[t]] == s.pc;
    } else {
      var pc := NextPc(s.sh, s.pc[t], Go(false));
      var next := State(Effect(s.sh, t, s.pc[t], Go(false)), s.pc[t := pc]);
      OneMove(run, moves, Move(t, Go(false)), next);
      run2, moves2 := GoesOn(run + [next], moves + [Move(t, Go(false))], t, steps - 1);
      var r := Alone(next.sh, t, pc, steps - 1);
      assert next.pc[t := r.1] == s.pc[t := r.1];
    }
  }

  /** Or with a call and so many steps of it. */
  lemma {:induction false} CallGoesOn(run: seq<State>, moves: seq<Move>, t: Thread, a: Action, steps: nat)
    returns (run2: seq<State>, moves2: seq<Move>)
    requires Schedule(run, moves) && t in Last(run).pc && Last(run).pc[t] == Idle && Enabled(Last(run).sh, Idle, a)
    ensures Schedule(run2, moves2)
    ensures var s := Last(run);
            var r := Alone(s.sh, t, NextPc(s.sh, Idle, a), steps);
            Last(run2) == State(r.0, s.pc[t := r.1])
  {
    var s := Last(run);
    var next := State(s.sh, s.pc[t := NextPc(s.sh, Idle, a)]);
    OneMove(run, moves, Move(t, a), next);
    run2, moves2 := GoesOn(run + [next], moves + [Move(t, a)], t, steps);
    var r := Alone(s.sh, t, NextPc(s.sh, Idle, a), steps);
    assert next.pc[t := r.1] == s.pc[t := r.1];
  }

  /** The ring and the two threads of the example. */
  predicate Stands(sh: Shared, slots: seq<Slot>, enq: nat, deq: nat) {
    sh.slots == slots && sh.enq == enq && sh.deq == deq
  }

  predicate Two(s: State, pc0: Pc, pc1: Pc) { s.pc == map[0 := pc0, 1 := pc1] }

  /** In a full pool of two frames thread 1 claims the first and does not read it yet. */
  lemma {:induction false} ClaimsFirst(s: Shared)
    requires Stands(s, [Slot(1, 0), Slot(2, 1)], 2, 0)
    ensures var r := Alone(s, 1, DeqLoad(1), 4);
            r.1 == DeqRead(0, 1, []) && Stands(r.0, [Slot(1, 0), Slot(2, 1)], 2, 1)
  {
  }

  /** Thread 0 claims the other, */
  lemma {:induction false} ClaimsSecond(s: Shared)
    requires Stands(s, [Slot(1, 0), Slot(2, 1)], 2, 1)
    ensures var r := Alone(s, 0, DeqLoad(1), 4);
            r.1 == DeqRead(1, 1, []) && Stands(r.0, [Slot(1, 0), Slot(2, 1)], 2, 2)
  {
  }

  /** gets it, */
  lemma {:induction false} GetsSecond(s: Shared)
    requires Stands(s, [Slot(1, 0), Slot(2, 1)], 2, 2)
    ensures var r := Alone(s, 0, DeqRead(1, 1, []), 2); r.1 == Idle && Stands(r.0, [Slot(1, 0), Slot(3, 1)], 2, 2)
  {
  }

  /** and wants to give it back. */
  lemma {:induction false} MeetsFirst(s: Shared)
    requires Stands(s, [Slot(1, 0), Slot(3, 1)], 2, 2)
    ensures Alone(s, 0, EnqLoad([1], true), 2) == (s, EnqFull([1], 2))
  {
  }

  /** Thread 1 gets its frame, */
  lemma {:induction false} GetsFirst(s: Shared)
    requires Stands(s, [Slot(1, 0), Slot(3, 1)], 2, 2)
    ensures var r := Alone(s, 1, DeqRead(0, 1, []), 2); r.1 == Idle && Stands(r.0, [Slot(2, 0), Slot(3, 1)], 2, 2)
  {
  }

  /** puts it back, */
  lemma {:induction false} PutsBack(s: Shared)
    requires Stands(s, [Slot(2, 0), Slot(3, 1)], 2, 2)
    ensures var r := Alone(s, 1, EnqLoad([0], true), 6); r.1 == Idle && Stands(r.0, [Slot(3, 0), Slot(3, 1)], 3, 2)
  {
  }

  /** and takes it again. */
  lemma {:induction false} TakesAgain(s: Shared)
    requires Stands(s, [Slot(3, 0), Slot(3, 1)], 3, 2)
    ensures var r := Alone(s, 1, DeqLoad(1), 6); r.1 == Idle && Stands(r.0, [Slot(4, 0), Slot(3, 1)], 3, 3)
  {
  }

  lemma {:induction false} PoolOfTwo() returns (run: seq<State>, moves: seq<Move>)
    ensures Schedule(run, moves) && Two(Last(run), Idle, Idle)
    ensures Stands(Last(run).sh, [Slot(1, 0), Slot(2, 1)], 2, 0)
  {
    var sh := Shared([Slot(1, 0), Slot(2, 1)], 2, 0, [0, 1], map[], map[], map[]);
    run, moves := [State(sh, map[0 := Idle, 1 := Idle])], [];
  }

  lemma {:induction false} OneClaims() returns (run: seq<State>, moves: seq<Move>)
    ensures Schedule(run, moves) && Two(Last(run), Idle, DeqRead(0, 1, []))
    ensures Stands(Last(run).sh, [Slot(1, 0), Slot(2, 1)], 2, 1)
  {
    run, moves := PoolOfTwo();
    ClaimsFirst(Last(run).sh);
    run, moves := CallGoesOn(run, moves, 1, Dequeue(1), 4);
  }

  lemma {:induction false} BothHold() returns (run: seq<State>, moves: seq<Move>)
    ensures Schedule(run, moves) && Two(Last(run), Idle, DeqRead(0, 1, []))
    ensures Stands(Last(run).sh, [Slot(1, 0), Slot(3, 1)], 2, 2)
  {
    run, moves := OneClaims();
    ClaimsSecond(Last(run).sh);
    run, moves := CallGoesOn(run, moves, 0, Dequeue(1), 4);
    GetsSecond(Last(run).sh);
    run, moves := GoesOn(run, moves, 0, 2);
  }

  lemma {:induction false} OneWaits() returns (run: seq<State>, moves: seq<Move>)
    ensures Schedule(run, moves) && Two(Last(run), EnqFull([1], 2), Idle)
    ensures Stands(Last(run).sh, [Slot(2, 0), Slot(3, 1)], 2, 2)
  {
    run, moves := BothHold();
    MeetsFirst(Last(run).sh);
    run, moves := CallGoesOn(run, moves, 0, Push(1), 2);
    GetsFirst(Last(run).sh);
    run, moves := GoesOn(run, moves, 1, 2);
  }

  /** The pool's push is meant to fail on a full pool only.  In this run of a pool with two frames it fails on
      an empty one: thread 0 gives back its frame and meets a slot that thread 1 has not released yet; before
      it looks at the dequeue position, thread 1 gets its frame, puts it back and takes it again. */
  lemma {:induction false} PushFailsOnEmpty() returns (run: seq<State>, moves: seq<Move>)
    ensures Schedule(run, moves)
    ensures var s := Last(run);
            && 0 in s.pc && s.pc[0].EnqFull? && Enabled(s.sh, s.pc[0], Go(false))
            && s.sh.enq == s.sh.deq && NextPc(s.sh, s.pc[0], Go(false)) == Idle
  {
    run, moves := OneWaits();
    PutsBack(Last(run).sh);
    run, moves := CallGoesOn(run, moves, 1, Push(0), 6);
    TakesAgain(Last(run).sh);
    run, moves := CallGoesOn(run, moves, 1, Dequeue(1), 6);
  }
}
