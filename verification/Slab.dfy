/** The slab cache over packet frames (lib/frame_cache.c): frames cut into equal slots, slots handed out,
    kept in per-worker and shared caches, and given up; a frame goes back to the pool with its last slot.

    The shared cache is the ring of module MpmcRing, seen here as a queue that takes a prefix of what it
    is offered and gives back a prefix of what it holds. */
module Slab {
  import opened Common
  import opened ListIndex

  const LIMIT: nat := 64
  const LOW: nat := 32
  const CLASSES: nat := 6
  const FRAME: nat := 4096

  // ---------------------------------------------------------------- layout of a frame

  function Align16(x: nat): nat { (x + 15) / 16 * 16 }

  /** Sizes the compiler decides: page_info, and frame_slot with the transmit metadata. */
  datatype Layout = Layout(page: nat, slot: nat)

  predicate Sensible(l: Layout) { 0 < l.page <= 64 && 0 < l.slot <= 256 }

  function First(l: Layout): nat { Align16(l.page) }

  function DataSize(l: Layout, cls: nat): int
    requires cls < CLASSES
  {
    if cls == 0 then 128 else if cls == 1 then 254 else if cls == 2 then 512 else if cls == 3 then 1024
    else if cls == 4 then 1800 else FRAME - Align16(First(l) + l.slot)
  }

  function Stride(l: Layout, cls: nat): nat
    requires cls < CLASSES && Sensible(l)
  {
    Align16(l.slot + DataSize(l, cls))
  }

  function PerFrame(l: Layout, cls: nat): nat
    requires cls < CLASSES && Sensible(l)
  {
    (FRAME - First(l)) / Stride(l, cls)
  }

  function SlotStart(l: Layout, cls: nat, i: nat): nat
    requires cls < CLASSES && Sensible(l)
  {
    First(l) + i * Stride(l, cls)
  }

  /** End of the slot's header, metadata and data. */
  function SlotEnd(l: Layout, cls: nat, i: nat): nat
    requires cls < CLASSES && Sensible(l)
  {
    SlotStart(l, cls, i) + l.slot + DataSize(l, cls)
  }

  lemma {:induction false} StrideFits(l: Layout, cls: nat)
    requires cls < CLASSES && Sensible(l)
    ensures 0 < DataSize(l, cls) && l.slot + DataSize(l, cls) <= Stride(l, cls) <= FRAME - First(l)
  {
  }

  lemma {:induction false} Times(a: nat, b: nat, s: nat)
    requires a <= b
    ensures a * s <= b * s && (a + 1) * s == a * s + s
  {
  }

  /** Every frame holds at least one slot; slots lie inside the frame, after its header, and apart. */
  lemma {:induction false} SlotsApart(l: Layout, cls: nat, i: nat, j: nat)
    requires cls < CLASSES && Sensible(l) && i < j < PerFrame(l, cls)
    ensures l.page <= SlotStart(l, cls, i) && SlotEnd(l, cls, i) <= SlotStart(l, cls, j) && SlotEnd(l, cls, j) <= FRAME
  {
    StrideFits(l, cls);
    var s := Stride(l, cls);
    Times(i + 1, j, s);
    Times(i, j, s);
    LastFits(FRAME - First(l), s, j);
  }

  lemma {:induction false} LastFits(room: nat, s: nat, j: nat)
    requires s > 0 && j < room / s
    ensures j * s + s <= room
  {
    Times(j + 1, room / s, s);
    assert room == room / s * s + room % s;
    assert (j + 1) * s == j * s + s;
  }

  lemma {:induction false} AtLeastOne(l: Layout, cls: nat)
    requires cls < CLASSES && Sensible(l)
    ensures PerFrame(l, cls) >= 1 && SlotEnd(l, cls, 0) <= FRAME
  {
    StrideFits(l, cls);
    DivPositive(FRAME - First(l), Stride(l, cls));
  }

  lemma {:induction false} DivPositive(room: nat, s: nat)
    requires 0 < s <= room
    ensures room / s >= 1
  {
  }

  // ---------------------------------------------------------------- where the slots are

  type Frame = nat

  datatype Slot = Slot(frame: Frame, i: nat)
  datatype Page = Page(cls: nat, count: nat, refs: nat)
  datatype Cache = Local(worker: nat, cls: nat) | Global(cls: nat)

  /** Frames in use with their reference counts, slots' own reference counts, the caches, and the slots
      that were given up while others of their frame were not. */
  datatype View = View(pages: map<Frame, Page>, cnt: map<Slot, nat>, idx: Index<Cache, Slot>, evicted: set<Slot>)

  predicate Exists(v: View, s: Slot) { s.frame in v.pages && s.i < v.pages[s.frame].count }

  predicate Cached(v: View, s: Slot) { s in v.idx.where }

  /** How many of the first n slots of a frame were not given up. */
  function Held(evicted: set<Slot>, f: Frame, n: nat): nat {
    if n == 0 then 0 else Held(evicted, f, n - 1) + if Slot(f, n - 1) in evicted then 0 else 1
  }

  predicate CachedOk(v: View, s: Slot) {
    Cached(v, s) ==> && Exists(v, s) && s !in v.evicted && s in v.cnt && v.cnt[s] == 0
                     && v.idx.where[s].cls == v.pages[s.frame].cls
  }

  /** A slot of a frame in use that is neither cached nor given up is live, with references; slots in
      `uncut` are the exception while a frame is being cut. */
  predicate SlotOk(v: View, s: Slot, uncut: set<Slot>) {
    && (s in v.cnt <==> Exists(v, s)) && (s in v.evicted ==> Exists(v, s) && v.cnt[s] == 0)
    && (s in uncut ==> Exists(v, s) && !Cached(v, s) && s !in v.evicted)
    && (Exists(v, s) && !Cached(v, s) && s !in v.evicted ==> if s in uncut then v.cnt[s] == 0 else v.cnt[s] >= 1)
  }

  predicate PageOk(v: View, f: Frame) {
    f in v.pages ==> v.pages[f].refs == Held(v.evicted, f, v.pages[f].count) >= 1
  }

  predicate CacheOk(v: View, c: Cache) { c.Local? ==> |List(v.idx, c)| <= LIMIT }

  ghost predicate Inv(v: View, uncut: set<Slot>) {
    && Indexed(v.idx)
    && (forall s :: CachedOk(v, s)) && (forall s :: SlotOk(v, s, uncut))
    && (forall f :: PageOk(v, f)) && (forall c :: CacheOk(v, c))
  }

  /** Each slot of a frame in use is in exactly one place: live, in one cache (once), or given up. */
  lemma {:induction false} OnePlace(v: View, s: Slot, c: Cache, d: Cache)
    requires Inv(v, {}) && Exists(v, s)
    ensures s in v.cnt && (v.cnt[s] >= 1 || Cached(v, s) || s in v.evicted)
    ensures !(v.cnt[s] >= 1 && Cached(v, s)) && !(Cached(v, s) && s in v.evicted)
    ensures s in List(v.idx, c) && s in List(v.idx, d) ==> c == d
    ensures s in List(v.idx, c) ==> Cached(v, s) && v.cnt[s] == 0 && c.cls == v.pages[s.frame].cls
  {
    assert SlotOk(v, s, {}) && CachedOk(v, s);
    assert Linked(v.idx, c, s) && Linked(v.idx, d, s);
  }

  // ---------------------------------------------------------------- counting

  lemma {:induction false} HeldAdd(evicted: set<Slot>, s: Slot, f: Frame, n: nat)
    requires s !in evicted
    ensures Held(evicted + {s}, f, n) == Held(evicted, f, n) - if s.frame == f && s.i < n then 1 else 0
    decreases n
  {
    if n > 0 { HeldAdd(evicted, s, f, n - 1); }
  }

  lemma {:induction false} HeldPositive(evicted: set<Slot>, s: Slot, n: nat)
    requires s !in evicted && s.i < n
    ensures Held(evicted, s.frame, n) >= 1
    decreases n
  {
    if s.i < n - 1 { HeldPositive(evicted, s, n - 1); }
  }

  /** If one is held, all others of the frame were given up. */
  lemma {:induction false} HeldLast(evicted: set<Slot>, s: Slot, t: Slot, n: nat)
    requires s !in evicted && s.i < n && t.frame == s.frame && t.i < n && t != s && Held(evicted, s.frame, n) == 1
    ensures t in evicted
  {
    if t !in evicted {
      HeldAdd(evicted, s, s.frame, n);
      HeldPositive(evicted + {s}, t, n);
    }
  }

  lemma {:induction false} HeldSame(a: set<Slot>, b: set<Slot>, f: Frame, n: nat)
    requires forall i :: 0 <= i < n ==> (Slot(f, i) in a <==> Slot(f, i) in b)
    ensures Held(a, f, n) == Held(b, f, n)
    decreases n
  {
    if n > 0 { HeldSame(a, b, f, n - 1); }
  }

  lemma {:induction false} HeldAll(evicted: set<Slot>, f: Frame, n: nat)
    requires forall i :: 0 <= i < n ==> Slot(f, i) !in evicted
    ensures Held(evicted, f, n) == n
    decreases n
  {
    if n > 0 { HeldAll(evicted, f, n - 1); }
  }

  // ---------------------------------------------------------------- the single moves

  function SlotsOf(f: Frame, count: nat): set<Slot> { set i | 0 <= i < count :: Slot(f, i) }

  /** A slot leaves its cache for good: PUT_REF on its page.  With the last one the frame is free. */
  function Evict(v: View, s: Slot): View
    requires s in v.idx.where && s.frame in v.pages && v.pages[s.frame].refs >= 1
  {
    var f, pg := s.frame, v.pages[s.frame];
    if pg.refs > 1 then View(v.pages[f := pg.(refs := pg.refs - 1)], v.cnt, Detach(v.idx, s), v.evicted + {s})
    else View(v.pages - {f}, v.cnt - SlotsOf(f, pg.count), Detach(v.idx, s), v.evicted - SlotsOf(f, pg.count))
  }

  /** From one cache to the end of another. */
  function Transfer(v: View, s: Slot, c: Cache): View
    requires s in v.idx.where
  {
    v.(idx := PutTail(Detach(v.idx, s), c, s))
  }

  /** A slot without references goes to the end of a cache. */
  function Store(v: View, s: Slot, c: Cache): View {
    v.(idx := PutTail(v.idx, c, s), cnt := v.cnt[s := 0])
  }

  /** A cached slot is handed out. */
  function Acquire(v: View, s: Slot): View
    requires s in v.idx.where
  {
    v.(idx := Detach(v.idx, s), cnt := v.cnt[s := 1])
  }

  /** A frame is cut: the first slot is handed out, the others are still to be put somewhere. */
  function CutFrame(v: View, f: Frame, cls: nat, count: nat): View {
    v.(pages := v.pages[f := Page(cls, count, count)],
       cnt := v.cnt + map s | s in SlotsOf(f, count) :: if s.i == 0 then 1 else 0)
  }

  lemma {:induction false} DetachKeepsSizes(v: View, s: Slot, c: Cache)
    requires Indexed(v.idx) && s in v.idx.where && CacheOk(v, c)
    ensures c.Local? ==> |List(Detach(v.idx, s), c)| <= LIMIT
  {
    DetachIndexed(v.idx, s);
  }

  lemma {:induction false} EvictOneKeeps(v: View, s: Slot, uncut: set<Slot>)
    requires Inv(v, uncut) && s in v.idx.where && s.frame in v.pages && v.pages[s.frame].refs > 1
    ensures Inv(Evict(v, s), uncut)
  {
    var w := Evict(v, s);
    assert CachedOk(v, s) && SlotOk(v, s, uncut);
    DetachIndexed(v.idx, s);
    forall t ensures CachedOk(w, t) { assert CachedOk(v, t); }
    forall t ensures SlotOk(w, t, uncut) { assert SlotOk(v, t, uncut); }
    forall f ensures PageOk(w, f) {
      assert PageOk(v, f);
      if f in v.pages { HeldAdd(v.evicted, s, f, v.pages[f].count); }
    }
    forall c ensures CacheOk(w, c) { assert CacheOk(v, c); DetachKeepsSizes(v, s, c); }
  }

  /** The last slot's eviction: every other slot of the frame had been given up, so nothing refers to the
      frame any more. */
  lemma {:induction false} LastOneAlone(v: View, s: Slot, uncut: set<Slot>, t: Slot)
    requires Inv(v, uncut) && s in v.idx.where && s.frame in v.pages && v.pages[s.frame].refs == 1
    requires t.frame == s.frame && t != s
    ensures Exists(v, t) ==> t in v.evicted
    ensures !Cached(v, t) && t !in uncut
  {
    assert CachedOk(v, s) && CachedOk(v, t) && SlotOk(v, t, uncut) && PageOk(v, s.frame);
    if Exists(v, t) { HeldLast(v.evicted, s, t, v.pages[s.frame].count); }
  }

  lemma {:induction false} EvictLastKeeps(v: View, s: Slot, uncut: set<Slot>)
    requires Inv(v, uncut) && s in v.idx.where && s.frame in v.pages && v.pages[s.frame].refs == 1
    ensures Inv(Evict(v, s), uncut)
  {
    var w := Evict(v, s);
    assert CachedOk(v, s);
    DetachIndexed(v.idx, s);
    forall t ensures CachedOk(w, t) && SlotOk(w, t, uncut) {
      assert CachedOk(v, t) && SlotOk(v, t, uncut) && SlotOk(v, s, uncut);
      if t.frame == s.frame && t != s { LastOneAlone(v, s, uncut, t); }
      assert t in SlotsOf(s.frame, v.pages[s.frame].count) <==> t.frame == s.frame && t.i < v.pages[s.frame].count;
    }
    forall f ensures PageOk(w, f) {
      assert PageOk(v, f);
      if f in w.pages { HeldSame(v.evicted, w.evicted, f, v.pages[f].count); }
    }
    forall c ensures CacheOk(w, c) { assert CacheOk(v, c); DetachKeepsSizes(v, s, c); }
  }

  /** Giving up a cached slot keeps everything in order, and frees its frame exactly when it was the last
      slot of the frame not given up. */
  lemma {:induction false} EvictKeeps(v: View, s: Slot, uncut: set<Slot>)
    requires Inv(v, uncut) && s in v.idx.where
    ensures s.frame in v.pages && v.pages[s.frame].refs >= 1 && Inv(Evict(v, s), uncut)
    ensures s.frame !in Evict(v, s).pages <==>
              forall t :: Exists(v, t) && t.frame == s.frame && t != s ==> t in v.evicted
    ensures forall f :: f != s.frame ==> (f in Evict(v, s).pages <==> f in v.pages)
  {
    assert CachedOk(v, s) && PageOk(v, s.frame);
    if v.pages[s.frame].refs > 1 {
      EvictOneKeeps(v, s, uncut);
      OtherHeld(v, s);
    } else {
      EvictLastKeeps(v, s, uncut);
      forall t | Exists(v, t) && t.frame == s.frame && t != s ensures t in v.evicted { LastOneAlone(v, s, uncut, t); }
    }
  }

  lemma {:induction false} OtherHeld(v: View, s: Slot)
    requires s.frame in v.pages && PageOk(v, s.frame) && v.pages[s.frame].refs > 1 && s !in v.evicted && Exists(v, s)
    ensures exists t :: Exists(v, t) && t.frame == s.frame && t != s && t !in v.evicted
  {
    var n := v.pages[s.frame].count;
    HeldAdd(v.evicted, s, s.frame, n);
    FindHeld(v.evicted + {s}, s.frame, n);
    var i :| 0 <= i < n && Slot(s.frame, i) !in v.evicted + {s};
    assert Exists(v, Slot(s.frame, i));
  }

  lemma {:induction false} FindHeld(evicted: set<Slot>, f: Frame, n: nat)
    requires Held(evicted, f, n) >= 1
    ensures exists i :: 0 <= i < n && Slot(f, i) !in evicted
    decreases n
  {
    if Slot(f, n - 1) in evicted {
      FindHeld(evicted, f, n - 1);
      var i :| 0 <= i < n - 1 && Slot(f, i) !in evicted;
    }
  }

  lemma {:induction false} TransferKeeps(v: View, s: Slot, c: Cache, uncut: set<Slot>)
    requires Inv(v, uncut) && s in v.idx.where && c.cls == v.idx.where[s].cls && c.Global?
    ensures Inv(Transfer(v, s, c), uncut)
  {
    var w := Transfer(v, s, c);
    assert CachedOk(v, s);
    DetachIndexed(v.idx, s);
    PutTailIndexed(Detach(v.idx, s), c, s);
    forall t ensures CachedOk(w, t) && SlotOk(w, t, uncut) { assert CachedOk(v, t) && SlotOk(v, t, uncut); }
    forall f ensures PageOk(w, f) { assert PageOk(v, f); }
    forall d ensures CacheOk(w, d) { assert CacheOk(v, d); DetachKeepsSizes(v, s, d); }
  }

  /** Refilling: from the shared cache to a local one with room. */
  lemma {:induction false} RefillKeeps(v: View, s: Slot, c: Cache, uncut: set<Slot>)
    requires Inv(v, uncut) && s in v.idx.where && c.cls == v.idx.where[s].cls && v.idx.where[s].Global?
    requires c.Local? && |List(v.idx, c)| < LIMIT
    ensures Inv(Transfer(v, s, c), uncut) && |List(Transfer(v, s, c).idx, c)| == |List(v.idx, c)| + 1
  {
    var w := Transfer(v, s, c);
    assert CachedOk(v, s);
    DetachIndexed(v.idx, s);
    PutTailIndexed(Detach(v.idx, s), c, s);
    forall t ensures CachedOk(w, t) && SlotOk(w, t, uncut) { assert CachedOk(v, t) && SlotOk(v, t, uncut); }
    forall f ensures PageOk(w, f) { assert PageOk(v, f); }
    forall d ensures CacheOk(w, d) { assert CacheOk(v, d); }
  }

  lemma {:induction false} StoreKeeps(v: View, s: Slot, c: Cache, uncut: set<Slot>)
    requires Inv(v, uncut) && Exists(v, s) && !Cached(v, s) && s !in v.evicted
    requires c.Local? && c.cls == v.pages[s.frame].cls && |List(v.idx, c)| < LIMIT
    ensures Inv(Store(v, s, c), uncut - {s})
  {
    var w := Store(v, s, c);
    PutTailIndexed(v.idx, c, s);
    assert SlotOk(v, s, uncut);
    forall t ensures CachedOk(w, t) && SlotOk(w, t, uncut - {s}) { assert CachedOk(v, t) && SlotOk(v, t, uncut); }
    forall f ensures PageOk(w, f) { assert PageOk(v, f); }
    forall d ensures CacheOk(w, d) { assert CacheOk(v, d); }
  }

  lemma {:induction false} AcquireKeeps(v: View, s: Slot, uncut: set<Slot>)
    requires Inv(v, uncut) && s in v.idx.where
    ensures s in v.cnt && v.cnt[s] == 0 && Exists(v, s) && Inv(Acquire(v, s), uncut)
  {
    var w := Acquire(v, s);
    assert CachedOk(v, s) && SlotOk(v, s, uncut);
    DetachIndexed(v.idx, s);
    forall t ensures CachedOk(w, t) && SlotOk(w, t, uncut) { assert CachedOk(v, t) && SlotOk(v, t, uncut); }
    forall f ensures PageOk(w, f) { assert PageOk(v, f); }
    forall d ensures CacheOk(w, d) { assert CacheOk(v, d); DetachKeepsSizes(v, s, d); }
  }

  lemma {:induction false} CutFrameKeeps(v: View, f: Frame, cls: nat, count: nat)
    requires Inv(v, {}) && f !in v.pages && count >= 1
    ensures Inv(CutFrame(v, f, cls, count), SlotsOf(f, count) - {Slot(f, 0)})
  {
    var w := CutFrame(v, f, cls, count);
    var uncut := SlotsOf(f, count) - {Slot(f, 0)};
    forall t ensures CachedOk(w, t) && SlotOk(w, t, uncut) {
      assert CachedOk(v, t) && SlotOk(v, t, {});
      assert t in SlotsOf(f, count) <==> t.frame == f && t.i < count;
    }
    forall g ensures PageOk(w, g) {
      assert PageOk(v, g);
      if g == f {
        forall i | 0 <= i < count ensures Slot(f, i) !in w.evicted { assert SlotOk(v, Slot(f, i), {}); }
        HeldAll(w.evicted, f, count);
      }
    }
    forall d ensures CacheOk(w, d) { assert CacheOk(v, d); }
  }

  // ---------------------------------------------------------------- what users hold

  /** The slots handed out, with their reference counts. */
  function Live(v: View): map<Slot, nat> { map s | s in v.cnt && v.cnt[s] >= 1 :: v.cnt[s] }

  lemma {:induction false} EvictLive(v: View, s: Slot, uncut: set<Slot>)
    requires Inv(v, uncut) && s in v.idx.where && s.frame in v.pages && v.pages[s.frame].refs >= 1
    ensures Live(Evict(v, s)) == Live(v)
    ensures forall f :: f in Evict(v, s).pages ==> f in v.pages && Evict(v, s).pages[f].cls == v.pages[f].cls
  {
    var w, pg := Evict(v, s), v.pages[s.frame];
    assert CachedOk(v, s);
    if pg.refs == 1 {
      forall t | t in v.cnt && v.cnt[t] >= 1 ensures t in w.cnt {
        assert SlotOk(v, t, uncut);
        if t.frame == s.frame && t != s { LastOneAlone(v, s, uncut, t); }
      }
    }
  }

  lemma {:induction false} DropKeeps(v: View, s: Slot)
    requires Inv(v, {}) && s in v.cnt && v.cnt[s] == 1
    ensures Inv(v.(cnt := v.cnt[s := 0]), {s}) && Exists(v, s) && Live(v.(cnt := v.cnt[s := 0])) == Live(v) - {s}
  {
    var w := v.(cnt := v.cnt[s := 0]);
    assert SlotOk(v, s, {}) && CachedOk(v, s);
    forall t ensures CachedOk(w, t) && SlotOk(w, t, {s}) { assert CachedOk(v, t) && SlotOk(v, t, {}); }
    forall f ensures PageOk(w, f) { assert PageOk(v, f); }
    forall d ensures CacheOk(w, d) { assert CacheOk(v, d); }
  }

  lemma {:induction false} RefKeeps(v: View, s: Slot, n: nat)
    requires Inv(v, {}) && s in v.cnt && v.cnt[s] >= 1 && n >= 1
    ensures Inv(v.(cnt := v.cnt[s := n]), {}) && Live(v.(cnt := v.cnt[s := n])) == Live(v)[s := n]
  {
    var w := v.(cnt := v.cnt[s := n]);
    assert SlotOk(v, s, {}) && CachedOk(v, s);
    forall t ensures CachedOk(w, t) && SlotOk(w, t, {}) { assert CachedOk(v, t) && SlotOk(v, t, {}); }
    forall f ensures PageOk(w, f) { assert PageOk(v, f); }
    forall d ensures CacheOk(w, d) { assert CacheOk(v, d); }
  }

  /** The length a request asks for: the largest class's for 0. */
  function Wanted(l: Layout, len: nat): int { if len == 0 then DataSize(l, 5) else len }

  /** The first class from i on with room. */
  function FirstFit(l: Layout, n: int, i: nat): Option<nat>
    decreases CLASSES - i
  {
    if i >= CLASSES then None else if n <= DataSize(l, i) then Some(i) else FirstFit(l, n, i + 1)
  }

  function SizeClass(l: Layout, len: nat): Option<nat> { FirstFit(l, Wanted(l, len), 0) }

  /** The class is the least with room for the request, and there is none only if none has. */
  lemma {:induction false} SizeClassLeast(l: Layout, n: int, i: nat)
    ensures match FirstFit(l, n, i)
            case None => forall c :: i <= c < CLASSES ==> DataSize(l, c) < n
            case Some(c) => i <= c < CLASSES && n <= DataSize(l, c) && forall d :: i <= d < c ==> DataSize(l, d) < n
    decreases CLASSES - i
  {
    if i < CLASSES && n > DataSize(l, i) { SizeClassLeast(l, n, i + 1); }
  }

  // ---------------------------------------------------------------- the code

  class FrameCache {
    const layout: Layout
    ghost const all: set<Frame>
    var pages: map<Frame, Page>
    var cnt: map<Slot, nat>
    var where: map<Slot, Cache>
    var lists: map<Cache, seq<Slot>>
    var evicted: set<Slot>
    var pool: set<Frame>

    function V(): View
      reads this
    {
      View(pages, cnt, Index(where, lists), evicted)
    }

    /** Every frame is either in the pool or in use, and a frame in use is cut as its class says. */
    ghost predicate Frames()
      reads this
    {
      && Sensible(layout) && pool + pages.Keys == all && (forall f :: f in pool ==> f !in pages)
      && forall f :: f in pages ==> pages[f].cls < CLASSES && pages[f].count == PerFrame(layout, pages[f].cls)
    }

    ghost predicate Valid()
      reads this
    {
      Frames() && Inv(V(), {})
    }

    /** The list of a cache. */
    function Entries(c: Cache): seq<Slot>
      reads this
    {
      if c in lists then lists[c] else []
    }

    /** Unlink one slot and put it at the end of another cache. */
    method Move(s: Slot, c: Cache)
      requires s in where
      modifies this`where, this`lists
      ensures V() == Transfer(old(V()), s, c)
    {
      var from := where[s];
      lists := lists[from := Without(Entries(from), s)];
      lists := lists[c := Entries(c) + [s]];
      where := where[s := c];
      assert where == (old(where) - {s})[s := c];
    }

    /** PUT_REF on the page of a slot that leaves its cache; at zero the frame goes back to the pool. */
    method GiveUp(s: Slot, ghost uncut: set<Slot>)
      requires s in where && Frames() && Inv(V(), uncut) && s.frame in pages && pages[s.frame].refs >= 1
      modifies this`where, this`lists, this`pages, this`cnt, this`evicted, this`pool
      ensures V() == old(Evict(V(), s)) && Frames() && Inv(V(), uncut)
    {
      EvictKeeps(V(), s, uncut);
      var f, from := s.frame, where[s];
      lists := lists[from := Without(Entries(from), s)];
      where := where - {s};
      var page := pages[f];
      if page.refs > 1 {
        pages, evicted := pages[f := page.(refs := page.refs - 1)], evicted + {s};
      } else {
        pages, pool := pages - {f}, pool + {f};
        cnt, evicted := cnt - SlotsOf(f, page.count), evicted - SlotsOf(f, page.count);
      }
    }

    /** What spilling leaves alone: users' slots, slots being cut, and the class of every frame kept. */
    twostate predicate Undisturbed()
      reads this
    {
      Live(V()) == old(Live(V())) && forall f :: f in pages ==> f in old(pages) && pages[f].cls == old(pages)[f].cls
    }

    /** One slot above the low watermark goes to the shared cache, or is given up. */
    method SpillOne(w: nat, cls: nat, taken: bool, ghost uncut: set<Slot>)
      requires Frames() && Inv(V(), uncut) && |Entries(Local(w, cls))| > LOW
      modifies this`where, this`lists, this`pages, this`cnt, this`evicted, this`pool
      ensures Frames() && Inv(V(), uncut) && Undisturbed()
      ensures Entries(Local(w, cls)) == old(Entries(Local(w, cls)))[..LOW] + old(Entries(Local(w, cls)))[LOW + 1..]
      ensures Entries(Global(cls))
           == old(Entries(Global(cls))) + if taken then [old(Entries(Local(w, cls)))[LOW]] else []
    {
      var c := Local(w, cls);
      var s := Entries(c)[LOW];
      assert Linked(V().idx, c, s);
      assert NoDup(List(V().idx, c));
      WithoutAt(Entries(c), LOW);
      if taken {
        TransferKeeps(V(), s, Global(cls), uncut);
        Move(s, Global(cls));
      } else {
        EvictKeeps(V(), s, uncut);
        EvictLive(V(), s, uncut);
        GiveUp(s, uncut);
      }
    }

    /** local_cache_spill: everything above the low watermark goes to the shared cache, as far as that
        accepts it, and is given up otherwise. */
    method Spill(w: nat, cls: nat, accepts: nat, ghost uncut: set<Slot>)
      requires Frames() && Inv(V(), uncut)
      modifies this`where, this`lists, this`pages, this`cnt, this`evicted, this`pool
      ensures Frames() && Inv(V(), uncut) && Undisturbed()
      ensures Entries(Local(w, cls)) == old(Entries(Local(w, cls)))[..Min(|old(Entries(Local(w, cls)))|, LOW)]
      ensures var q := old(Entries(Local(w, cls)));
              Entries(Global(cls))
              == old(Entries(Global(cls))) + if |q| <= LOW then [] else q[LOW..Min(|q|, LOW + accepts)]
    {
      var c := Local(w, cls);
      if |Entries(c)| <= LOW { return; }
      var pushed := Min(accepts, |Entries(c)| - LOW);
      ghost var q := Entries(c);
      SpillMany(w, cls, pushed, true, uncut);
      SpillMany(w, cls, |Entries(c)| - LOW, false, uncut);
      assert q[..LOW] + [] == q[..LOW];
    }

    /** So many slots above the low watermark go to the shared cache, or are given up. */
    method SpillMany(w: nat, cls: nat, n: nat, taken: bool, ghost uncut: set<Slot>)
      requires Frames() && Inv(V(), uncut) && LOW + n <= |Entries(Local(w, cls))|
      modifies this`where, this`lists, this`pages, this`cnt, this`evicted, this`pool
      ensures Frames() && Inv(V(), uncut) && Undisturbed()
      ensures Spilled(old(Entries(Local(w, cls))), old(Entries(Global(cls))), Entries(Local(w, cls)),
                      Entries(Global(cls)), n, taken)
    {
      var c := Local(w, cls);
      for i := 0 to n
        invariant Frames() && Inv(V(), uncut) && Undisturbed()
        invariant Spilled(old(Entries(c)), old(Entries(Global(cls))), Entries(c), Entries(Global(cls)), i, taken)
      {
        SpilledMore(old(Entries(c)), old(Entries(Global(cls))), Entries(c), Entries(Global(cls)), i, taken);
        SpillOne(w, cls, taken, uncut);
      }
    }

    /** local_cache_push. */
    method PushLocal(w: nat, cls: nat, s: Slot, ghost uncut: set<Slot>) returns (cached: bool)
      requires Frames() && Inv(V(), uncut) && s in uncut && s.frame in pages && pages[s.frame].cls == cls
      modifies this`where, this`lists
      ensures cached == (|old(Entries(Local(w, cls)))| < LIMIT)
      ensures Frames() && Inv(V(), if cached then uncut - {s} else uncut) && Live(V()) == old(Live(V()))
      ensures !cached ==> V() == old(V())
      ensures cached ==> Entries(Local(w, cls)) == old(Entries(Local(w, cls))) + [s]
                         && where == old(where)[s := Local(w, cls)]
    {
      var c := Local(w, cls);
      assert SlotOk(V(), s, uncut);
      if |Entries(c)| >= LIMIT { return false; }
      StoreKeeps(V(), s, c, uncut);
      lists := lists[c := Entries(c) + [s]];
      where := where[s := c];
      assert cnt[s := 0] == cnt;
      assert V() == Store(old(V()), s, c);
      cached := true;
    }

    /** cache_free_slot, and the same lines of alloc_slot_page: after a spill there is room. */
    method Keep(w: nat, cls: nat, s: Slot, ghost uncut: set<Slot>)
      requires Frames() && Inv(V(), uncut) && s in uncut && s.frame in pages && pages[s.frame].cls == cls
      modifies this`where, this`lists, this`pages, this`cnt, this`evicted, this`pool
      ensures Frames() && Inv(V(), uncut - {s}) && Undisturbed()
      ensures s in where && where[s] == Local(w, cls)
      ensures Entries(Local(w, cls))
           == (var q := old(Entries(Local(w, cls))); (if |q| < LIMIT then q else q[..LOW]) + [s])
    {
      var cached := PushLocal(w, cls, s, uncut);
      if !cached {
        var accepts: nat := *;
        Spill(w, cls, accepts, uncut);
        assert SlotOk(V(), s, uncut);
        cached := PushLocal(w, cls, s, uncut);
        assert cached;
      }
    }

    constructor (l: Layout, frames: set<Frame>)
      requires Sensible(l)
      ensures Valid() && Live(V()) == map[] && pool == frames
    {
      layout, all := l, frames;
      pages, cnt, where, lists, evicted, pool := map[], map[], map[], map[], {}, frames;
      new;
      assert Indexed(V().idx);
    }

    /** INC_REF on a slot a user holds. */
    method Get(s: Slot)
      requires Valid() && s in Live(V())
      modifies this`cnt
      ensures Valid() && Live(V()) == old(Live(V()))[s := old(cnt)[s] + 1]
    {
      RefKeeps(V(), s, cnt[s] + 1);
      cnt := cnt[s := cnt[s] + 1];
    }

    /** PUT_REF on a slot a user holds: with the last reference, destroy_frame_slot puts it in the worker's
        cache.  No other user's slot is touched. */
    method Put(s: Slot, w: nat)
      requires Valid() && s in Live(V())
      modifies this
      ensures Valid()
      ensures Live(V()) == if old(cnt)[s] > 1 then old(Live(V()))[s := old(cnt)[s] - 1] else old(Live(V())) - {s}
      ensures old(cnt)[s] == 1 ==> s in where && s.frame in old(pages) && where[s] == Local(w, old(pages)[s.frame].cls)
    {
      if cnt[s] > 1 {
        RefKeeps(V(), s, cnt[s] - 1);
        cnt := cnt[s := cnt[s] - 1];
        return;
      }
      DropKeeps(V(), s);
      cnt := cnt[s := 0];
      ghost var uncut := {s};
      Keep(w, pages[s.frame].cls, s, uncut);
      assert uncut - {s} == {};
    }

    /** local_cache_pop. */
    method Pop(w: nat, cls: nat) returns (r: Option<Slot>)
      requires Valid()
      modifies this`cnt, this`where, this`lists
      ensures Valid() && (r == None <==> |old(Entries(Local(w, cls)))| == 0)
      ensures r == None ==> V() == old(V())
      ensures r.Some? ==> Handed(old(V()), V(), r.value, cls)
      ensures r.Some? ==> old(Entries(Local(w, cls))) == Entries(Local(w, cls)) + [r.value]
    {
      var c := Local(w, cls);
      if |Entries(c)| == 0 { return None; }
      var s := Entries(c)[|Entries(c)| - 1];
      assert Linked(V().idx, c, s);
      AcquireKeeps(V(), s, {});
      AcquireHands(V(), s);
      assert cnt[s] == 0;
      assert NoDup(List(V().idx, c));
      WithoutAt(Entries(c), |Entries(c)| - 1);
      lists := lists[c := Without(Entries(c), s)];
      where, cnt := where - {s}, cnt[s := 1];
      assert V() == Acquire(old(V()), s);
      r := Some(s);
    }

    /** The oldest slot of the shared cache moves to the end of the worker's. */
    method RefillOne(w: nat, cls: nat)
      requires Valid() && Entries(Global(cls)) != [] && |Entries(Local(w, cls))| < LIMIT
      modifies this`where, this`lists
      ensures Valid() && Live(V()) == old(Live(V())) && pages == old(pages) && evicted == old(evicted)
      ensures Entries(Local(w, cls)) == old(Entries(Local(w, cls))) + [old(Entries(Global(cls)))[0]]
      ensures Entries(Global(cls)) == old(Entries(Global(cls)))[1..]
    {
      var c, g := Local(w, cls), Global(cls);
      var s := Entries(g)[0];
      assert Linked(V().idx, g, s);
      RefillKeeps(V(), s, c, {});
      Move(s, c);
    }

    /** So many of the oldest slots of the shared cache move to the worker's. */
    method RefillMany(w: nat, cls: nat, n: nat)
      requires Valid() && n <= |Entries(Global(cls))| && |Entries(Local(w, cls))| + n <= LIMIT
      modifies this`where, this`lists
      ensures Valid() && Live(V()) == old(Live(V())) && pages == old(pages) && evicted == old(evicted)
      ensures Refilled(old(Entries(Local(w, cls))), old(Entries(Global(cls))), Entries(Local(w, cls)),
                       Entries(Global(cls)), n)
    {
      var c, g := Local(w, cls), Global(cls);
      for i := 0 to n
        invariant Valid() && Live(V()) == old(Live(V())) && pages == old(pages) && evicted == old(evicted)
        invariant Refilled(old(Entries(c)), old(Entries(g)), Entries(c), Entries(g), i)
      {
        RefilledMore(old(Entries(c)), old(Entries(g)), Entries(c), Entries(g), i);
        RefillOne(w, cls);
      }
    }

    /** local_cache_refill: as many of the oldest slots of the shared cache as it gives, at most what the
        worker's cache wants. */
    method Refill(w: nat, cls: nat, healthy: bool) returns (added: nat)
      requires Valid()
      modifies this`where, this`lists
      ensures Valid() && Live(V()) == old(Live(V())) && pages == old(pages) && evicted == old(evicted)
      ensures added <= |old(Entries(Global(cls)))| && added <= LOW && |Entries(Local(w, cls))| <= LIMIT
      ensures Entries(Local(w, cls)) == old(Entries(Local(w, cls))) + old(Entries(Global(cls)))[..added]
      ensures Entries(Global(cls)) == old(Entries(Global(cls)))[added..]
      ensures healthy ==> added == Min(|old(Entries(Global(cls)))|, Min(LOW, LIMIT - |old(Entries(Local(w, cls)))|))
    {
      var c, g := Local(w, cls), Global(cls);
      assert CacheOk(V(), c);
      var room := LIMIT - |Entries(c)|;
      var want := if LOW < room then LOW else room;
      var all := Min(|Entries(g)|, want);
      var give: nat :| give <= all;
      if healthy { give := all; }
      RefillMany(w, cls, give);
      added := give;
    }

    /** A frame from the pool, its page header and slot headers. */
    method TakeFrame(cls: nat) returns (f: Frame)
      requires Valid() && cls < CLASSES && pool != {}
      modifies this`pool, this`cnt, this`pages
      ensures f !in old(pages) && V() == CutFrame(old(V()), f, cls, PerFrame(layout, cls)) && Frames()
    {
      f :| f in pool;
      var count := PerFrame(layout, cls);
      pool := pool - {f};
      cnt := cnt + map s | s in SlotsOf(f, count) :: if s.i == 0 then 1 else 0;
      pages := pages[f := Page(cls, count, count)];
    }

    /** The loop of alloc_slot_page over the slots after the first. */
    method KeepRest(w: nat, f: Frame, cls: nat, count: nat)
      requires Frames() && Inv(V(), SlotsOf(f, count) - {Slot(f, 0)}) && count >= 1
      requires f in pages && pages[f].cls == cls && Slot(f, 0) in Live(V())
      modifies this`where, this`lists, this`pages, this`cnt, this`evicted, this`pool
      ensures Valid() && Live(V()) == old(Live(V())) && f in pages && pages[f].cls == cls
      ensures KeptSoFar(old(Entries(Local(w, cls))), Entries(Local(w, cls)), f, count, count)
    {
      ghost var uncut := SlotsOf(f, count) - {Slot(f, 0)};
      for i := 1 to count
        invariant Frames() && Inv(V(), uncut) && f in pages && pages[f].cls == cls && Live(V()) == old(Live(V()))
        invariant forall s :: s in uncut <==> s.frame == f && i <= s.i < count
        invariant KeptSoFar(old(Entries(Local(w, cls))), Entries(Local(w, cls)), f, i, count)
      {
        assert Slot(f, i) in uncut;
        KeptMore(old(Entries(Local(w, cls))), Entries(Local(w, cls)), f, i, count);
        Keep(w, cls, Slot(f, i), uncut);
        uncut := uncut - {Slot(f, i)};
        StillUsed(V(), Slot(f, 0), uncut);
      }
      assert uncut == {};
    }

    /** alloc_slot_page. */
    method AllocPage(w: nat, cls: nat, healthy: bool) returns (r: Option<Slot>)
      requires Valid() && cls < CLASSES
      modifies this
      ensures Valid() && (r == None ==> V() == old(V()) && pool == old(pool))
      ensures r.Some? ==> Handed(old(V()), V(), r.value, cls)
      ensures healthy && old(pool) != {} ==> r.Some?
      ensures r.Some? && |old(Entries(Local(w, cls)))| + PerFrame(layout, cls) - 1 <= LIMIT ==>
                Entries(Local(w, cls)) == old(Entries(Local(w, cls))) + Others(r.value.frame, PerFrame(layout, cls))
    {
      var ok := *;
      if pool == {} || (!ok && !healthy) { return None; }
      AtLeastOne(layout, cls);
      var count := PerFrame(layout, cls);
      ghost var v := V();
      var f := TakeFrame(cls);
      CutFrameKeeps(v, f, cls, count);
      CutFrameHands(v, f, cls, count);
      KeepRest(w, f, cls, count);
      r := Some(Slot(f, 0));
    }

    /** frame_size_class. */
    method FindClass(len: nat) returns (r: Option<nat>)
      ensures r == SizeClass(layout, len)
    {
      var n := if len == 0 then DataSize(layout, 5) else len;
      for i := 0 to CLASSES
        invariant FirstFit(layout, n, i) == SizeClass(layout, len)
      {
        if n <= DataSize(layout, i) { return Some(i); }
      }
      return None;
    }

    /** frame_slot_alloc: a slot no user holds, of the least class with room for the request.  It fails only
        for a request that is too long, or with the worker's cache empty; and if `healthy`, which says that
        the shared cache gives what it has and the pool gives a frame, only with those empty too. */
    method Alloc(len: nat, w: nat, healthy: bool) returns (r: Option<Slot>)
      requires Valid()
      modifies this
      ensures Valid()
      ensures r == None ==> Live(V()) == old(Live(V()))
      ensures r.Some? ==> && SizeClass(layout, len).Some?
                          && Handed(old(V()), V(), r.value, SizeClass(layout, len).value)
                          && DataSize(layout, SizeClass(layout, len).value) >= len
      ensures SizeClass(layout, len) == None ==> r == None
      ensures var c := SizeClass(layout, len);
              && (c.Some? && old(Entries(Local(w, c.value))) != [] ==> r.Some?)
              && (c.Some? && healthy && (old(Entries(Global(c.value))) != [] || old(pool) != {}) ==> r.Some?)
    {
      var c := FindClass(len);
      SizeClassLeast(layout, Wanted(layout, len), 0);
      if c == None { return None; }
      var cls := c.value;
      r := Pop(w, cls);
      if r == None {
        var added := Refill(w, cls, healthy);
        if added > 0 { r := Pop(w, cls); }
        if r == None { r := AllocPage(w, cls, healthy); }
      }
    }
  }

  /** What n slots above the low watermark leave behind in the two caches. */
  predicate Spilled(q0: seq<Slot>, g0: seq<Slot>, q: seq<Slot>, g: seq<Slot>, n: nat, taken: bool) {
    && LOW + n <= |q0| && q == q0[..LOW] + q0[LOW + n..]
    && g == g0 + if taken then q0[LOW..LOW + n] else []
  }

  lemma {:induction false} SpilledMore(q0: seq<Slot>, g0: seq<Slot>, q: seq<Slot>, g: seq<Slot>, n: nat, taken: bool)
    requires Spilled(q0, g0, q, g, n, taken) && LOW + n < |q0|
    ensures Spilled(q0, g0, q[..LOW] + q[LOW + 1..], g + (if taken then [q[LOW]] else []), n + 1, taken)
  {
    assert q[..LOW] + q[LOW + 1..] == q0[..LOW] + q0[LOW + (n + 1)..];
    assert q0[LOW..LOW + n] + [q0[LOW + n]] == q0[LOW..LOW + (n + 1)];
  }

  /** What the first n slots of the shared cache make of the two caches when they move. */
  predicate Refilled(q0: seq<Slot>, g0: seq<Slot>, q: seq<Slot>, g: seq<Slot>, n: nat) {
    n <= |g0| && q == q0 + g0[..n] && g == g0[n..]
  }

  lemma {:induction false} RefilledMore(q0: seq<Slot>, g0: seq<Slot>, q: seq<Slot>, g: seq<Slot>, n: nat)
    requires Refilled(q0, g0, q, g, n) && n < |g0|
    ensures Refilled(q0, g0, q + [g[0]], g[1..], n + 1)
  {
    assert g0[..n] + [g0[n]] == g0[..n + 1];
    assert q + [g[0]] == q0 + g0[..n + 1];
  }

  /** The slots of a frame after the first. */
  function Others(f: Frame, count: nat): seq<Slot> {
    if count <= 1 then [] else Others(f, count - 1) + [Slot(f, count - 1)]
  }

  /** The worker's cache while the slots of a frame are put into it, if there is room for all of them. */
  predicate KeptSoFar(before: seq<Slot>, after: seq<Slot>, f: Frame, i: nat, count: nat) {
    |before| + count - 1 <= LIMIT ==> after == before + Others(f, i)
  }

  lemma {:induction false} KeptMore(before: seq<Slot>, after: seq<Slot>, f: Frame, i: nat, count: nat)
    requires 1 <= i < count && KeptSoFar(before, after, f, i, count)
    ensures KeptSoFar(before, (if |after| < LIMIT then after else after[..LOW]) + [Slot(f, i)], f, i + 1, count)
  {
    OthersLength(f, i);
    assert (before + Others(f, i)) + [Slot(f, i)] == before + Others(f, i + 1);
  }

  lemma {:induction false} OthersLength(f: Frame, count: nat)
    requires count >= 1
    ensures |Others(f, count)| == count - 1
    decreases count
  {
    if count > 1 { OthersLength(f, count - 1); }
  }

  /** A slot is handed out: it was not held by anyone, it belongs to a frame of the class, and it is the only
      change to what users hold. */
  predicate Handed(before: View, after: View, s: Slot, cls: nat) {
    s !in Live(before) && Live(after) == Live(before)[s := 1]
    && s.frame in after.pages && after.pages[s.frame].cls == cls
  }

  lemma {:induction false} AcquireHands(v: View, s: Slot)
    requires Inv(v, {}) && s in v.idx.where
    ensures s.frame in v.pages && Handed(v, Acquire(v, s), s, v.idx.where[s].cls)
  {
    assert CachedOk(v, s);
  }

  lemma {:induction false} CutFrameHands(v: View, f: Frame, cls: nat, count: nat)
    requires Inv(v, {}) && f !in v.pages && count >= 1
    ensures Handed(v, CutFrame(v, f, cls, count), Slot(f, 0), cls)
  {
    var w := CutFrame(v, f, cls, count);
    assert Slot(f, 0) in SlotsOf(f, count);
    assert SlotOk(v, Slot(f, 0), {});
    forall t ensures t in w.cnt && w.cnt[t] >= 1 <==> (t in v.cnt && v.cnt[t] >= 1) || t == Slot(f, 0) {
      assert SlotOk(v, t, {});
      assert t in SlotsOf(f, count) <==> t.frame == f && t.i < count;
    }
    assert Live(w) == Live(v)[Slot(f, 0) := 1];
  }

  /** A frame with a slot in use stays. */
  lemma {:induction false} StillUsed(v: View, s: Slot, uncut: set<Slot>)
    requires Inv(v, uncut) && s in Live(v)
    ensures Exists(v, s)
  {
    assert SlotOk(v, s, uncut);
  }
}
