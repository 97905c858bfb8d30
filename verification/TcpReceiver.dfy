/** The TCP receiver of main/tcp.c: a sorted list of segments that arrived out of order, and a queue
    of segments ready for the application.

    The code is first written as functions on values; the class at the end runs the same steps in
    loops on its fields.  `at`, the position in the peer's stream that a recorded sequence number
    stands for, is a history variable. */
module TcpReceiver {
  import opened Common
  import opened TcpSeq

  datatype Item = Item(seqno: int, data: seq<Byte>, at: int)

  datatype Pcb = Pcb(nxt: int, wnd: nat, list: seq<Item>, recvq: seq<seq<Byte>>, bufLen: nat, bufMax: nat)

  // ---------------------------------------------------------------- the code as functions

  /** add_list_node_compare with tcp_seq_cmp: sorted insert, refused for an equal number. */
  function Insert(list: seq<Item>, it: Item): Option<seq<Item>> {
    if list == [] || Gt(list[0].seqno, it.seqno) then Some([it] + list)
    else if Lt(list[0].seqno, it.seqno) then
      match Insert(list[1..], it)
      case None => None
      case Some(rest) => Some([list[0]] + rest)
    else None
  }

  /** Hand the head of the list to the application, its payload cut to `data`. */
  function Deliver(r: Pcb, data: seq<Byte>): Pcb
    requires r.list != []
  {
    r.(list := r.list[1..], recvq := r.recvq + [data], bufLen := r.bufLen + |data|, nxt := Add(r.nxt, |data|))
  }

  /** One round of the loop that moves in-order segments to the receive queue; None at a gap. */
  function DrainOne(r: Pcb): Option<Pcb>
    requires r.list != []
  {
    var it := r.list[0];
    if Gt(it.seqno, r.nxt) then None
    else if Lt(it.seqno, r.nxt) then
      var overlap := Sub(r.nxt, it.seqno);
      if overlap >= |it.data| then Some(r.(list := r.list[1..]))
      else Some(Deliver(r, it.data[overlap..]))
    else Some(Deliver(r, it.data))
  }

  function Drain(r: Pcb): Pcb
    decreases |r.list|
  {
    if r.list == [] || DrainOne(r) == None then r else Drain(DrainOne(r).value)
  }

  function Window(r: Pcb): nat {
    if r.bufMax > r.bufLen then r.bufMax - r.bufLen else 0
  }

  /** The segment as it enters the list: cut at the front to rcv_nxt, at the back to the window; its
      recorded number stays what it was. */
  function Trimmed(r: Pcb, seg: Item): Option<Item> {
    var overlap := if Lt(seg.seqno, r.nxt) then Sub(r.nxt, seg.seqno) else 0;
    if overlap >= |seg.data| then None
    else
      var start := if Lt(seg.seqno, r.nxt) then r.nxt else seg.seqno;
      var data := seg.data[overlap..];
      if Gt(Add(start, |data|), Add(r.nxt, r.wnd)) then
        var over := Sub(Add(start, |data|), Add(r.nxt, r.wnd));
        if over >= |data| then None else Some(seg.(data := data[..|data| - over]))
      else Some(seg.(data := data))
  }

  /** Insert a segment, drain what is in order, open the window again. */
  function Take(r: Pcb, it: Item): Pcb {
    match Insert(r.list, it)
    case None => r
    case Some(list) =>
      var d := Drain(r.(list := list));
      d.(wnd := Window(d))
  }

  /** tcp_recv_data. */
  function Receive(r: Pcb, seg: Item): Pcb {
    match Trimmed(r, seg)
    case None => r
    case Some(it) => Take(r, it)
  }

  // ---------------------------------------------------------------- the invariant

  /** History: the peer's stream with the number of its first octet, how much of it has arrived in
      order, and how much of that the application has read. */
  datatype History = History(irs: nat, stream: seq<Byte>, n: nat, read: nat)

  function Flat(q: seq<seq<Byte>>): seq<Byte> {
    if q == [] then [] else q[0] + Flat(q[1..])
  }

  /** A piece of the peer's stream under the right number. */
  predicate Genuine(h: History, it: Item) {
    && 0 <= it.at && it.at + |it.data| <= |h.stream| && it.seqno == Wrap(h.irs + it.at)
    && forall i :: 0 <= i < |it.data| ==> it.data[i] == h.stream[it.at + i]
  }

  /** Sorted genuine pieces that start after `lo` and end by `edge`. */
  predicate Sorted(h: History, list: seq<Item>, lo: int, edge: int) {
    list == [] || (&& Genuine(h, list[0]) && list[0].data != [] && lo < list[0].at
                   && list[0].at + |list[0].data| <= edge && Sorted(h, list[1..], list[0].at, edge))
  }

  predicate Queued(h: History, recvq: seq<seq<Byte>>) {
    h.read <= h.n <= |h.stream| && Flat(recvq) == h.stream[h.read..h.n]
  }

  predicate Good(r: Pcb, h: History) {
    && r.nxt == Wrap(h.irs + h.n) && Queued(h, r.recvq)
    && r.bufLen == h.n - h.read <= r.bufMax < HALF && r.wnd == r.bufMax - r.bufLen
    && Sorted(h, r.list, h.n, h.n + r.wnd)
  }

  /** Segments this theory speaks about: pieces of the stream within 2^31 of the window. */
  predicate Near(r: Pcb, h: History, seg: Item) {
    Genuine(h, seg) && h.n + r.wnd - seg.at < HALF && seg.at + |seg.data| - h.n < HALF
  }

  /** Octets of the segment that lie before rcv_nxt, and octets left after both cuts. */
  function Overlap(h: History, seg: Item): int { h.n - seg.at }
  function Left(r: Pcb, h: History, seg: Item): int {
    var rest := seg.at + |seg.data| - h.n;
    if rest < r.wnd then rest else r.wnd
  }

  /** The one case the code gets wrong: the segment starts before rcv_nxt, and what is left of it
      after the cut is longer than what was cut off.  The drain loop then cuts it a second time. */
  predicate CutTwice(r: Pcb, h: History, seg: Item) {
    0 < Overlap(h, seg) < Left(r, h, seg)
  }

  /** Reference: how far the contiguous data reaches from position n through sorted pieces. */
  function Reach(list: seq<Item>, n: int): int {
    if list == [] || list[0].at > n then n
    else Reach(list[1..], if list[0].at + |list[0].data| > n then list[0].at + |list[0].data| else n)
  }

  predicate Covers(list: seq<Item>, p: int) {
    list != [] && (list[0].at <= p < list[0].at + |list[0].data| || Covers(list[1..], p))
  }

  // ---------------------------------------------------------------- insertion

  lemma {:induction false} SortedFrom(h: History, list: seq<Item>, lo: int, lower: int, edge: int)
    requires Sorted(h, list, lo, edge) && (list == [] || lower < list[0].at)
    ensures Sorted(h, list, lower, edge)
  {
  }

  /** Sorted insertion keeps the list sorted, adds the new piece and loses none; it is refused only
      when the list holds a piece that starts at the same place. */
  lemma {:induction false} InsertSorted(h: History, list: seq<Item>, it: Item, lo: int, edge: int)
    requires Sorted(h, list, lo, edge) && edge - lo <= HALF
    requires Genuine(h, it) && it.data != [] && lo < it.at && it.at + |it.data| <= edge
    ensures Insert(list, it).Some? ==> Sorted(h, Insert(list, it).value, lo, edge)
    ensures Insert(list, it) == None ==> Covers(list, it.at)
    decreases |list|
  {
    if list != [] {
      Compare(h.irs + list[0].at, h.irs + it.at);
      if list[0].at < it.at {
        InsertSorted(h, list[1..], it, list[0].at, edge);
      } else if list[0].at > it.at {
        assert ([it] + list)[1..] == list;
        SortedFrom(h, list, lo, it.at, edge);
      }
    } else {
      assert [it][1..] == [];
    }
  }

  lemma {:induction false} InsertCovers(list: seq<Item>, it: Item, p: int)
    requires Insert(list, it).Some?
    ensures Covers(Insert(list, it).value, p) <==> Covers(list, p) || it.at <= p < it.at + |it.data|
    decreases |list|
  {
    if list == [] || Gt(list[0].seqno, it.seqno) {
      assert ([it] + list)[1..] == list;
    } else {
      InsertCovers(list[1..], it, p);
      assert ([list[0]] + Insert(list[1..], it).value)[1..] == Insert(list[1..], it).value;
    }
  }

  /** A piece numbered below every piece of the list goes to the front. */
  lemma {:induction false} InsertFront(h: History, list: seq<Item>, it: Item, lo: int, edge: int)
    requires Sorted(h, list, lo, edge) && it.seqno == Wrap(h.irs + it.at)
    requires it.at <= lo && edge - it.at < HALF
    ensures Insert(list, it) == Some([it] + list)
  {
    if list != [] { Compare(h.irs + list[0].at, h.irs + it.at); }
  }

  // ---------------------------------------------------------------- the drain loop

  lemma {:induction false} FlatAppend(q: seq<seq<Byte>>, d: seq<Byte>)
    ensures Flat(q + [d]) == Flat(q) + d
    decreases |q|
  {
    if q == [] {
      assert [d][1..] == [];
    } else {
      FlatAppend(q[1..], d);
      assert (q + [d])[1..] == q[1..] + [d];
    }
  }

  /** State inside the loop: the list is sorted but may start before rcv_nxt. */
  predicate Draining(r: Pcb, h: History, lo: int, edge: int) {
    && r.nxt == Wrap(h.irs + h.n) && Queued(h, r.recvq) && r.bufLen == h.n - h.read
    && h.n <= edge && edge - h.n < HALF && edge - lo <= HALF
    && Sorted(h, r.list, lo, edge) && edge - h.read <= r.bufMax
  }

  lemma {:induction false} QueuedMore(h: History, q: seq<seq<Byte>>, d: seq<Byte>)
    requires Queued(h, q) && h.n + |d| <= |h.stream|
    requires forall i :: 0 <= i < |d| ==> d[i] == h.stream[h.n + i]
    ensures Queued(h.(n := h.n + |d|), q + [d])
  {
    FlatAppend(q, d);
    assert d == h.stream[h.n..h.n + |d|];
    assert h.stream[h.read..h.n] + h.stream[h.n..h.n + |d|] == h.stream[h.read..h.n + |d|];
  }

  lemma {:induction false} SortedAnyN(h: History, n: nat, list: seq<Item>, lo: int, edge: int)
    requires Sorted(h, list, lo, edge)
    ensures Sorted(h.(n := n), list, lo, edge)
    decreases |list|
  {
    if list != [] {
      assert Genuine(h.(n := n), list[0]);
      SortedAnyN(h, n, list[1..], list[0].at, edge);
    }
  }

  /** One round of the loop, and the position it moves to. */
  function Next(r: Pcb, h: History): nat
    requires r.list != []
  {
    var end := r.list[0].at + |r.list[0].data|;
    if end > h.n then end else h.n
  }

  /** What one round does, with positions in place of sequence numbers. */
  lemma {:induction false} DrainOneIs(r: Pcb, h: History, lo: int, edge: int)
    requires Draining(r, h, lo, edge) && r.list != []
    ensures var it, cut := r.list[0], h.n - r.list[0].at;
            DrainOne(r) == if cut < 0 then None
                           else if cut >= |it.data| then Some(r.(list := r.list[1..]))
                           else Some(Deliver(r, it.data[cut..]))
  {
    var it := r.list[0];
    Compare(h.irs + it.at, h.irs + h.n);
    if it.at < h.n {
      WrapSub(h.irs + h.n, h.irs + it.at);
    } else if it.at == h.n {
      assert it.data[0..] == it.data;
    }
  }

  lemma {:induction false} DeliverKeeps(r: Pcb, h: History, lo: int, edge: int, cut: nat)
    requires Draining(r, h, lo, edge) && r.list != [] && cut == h.n - r.list[0].at < |r.list[0].data|
    ensures Draining(Deliver(r, r.list[0].data[cut..]), h.(n := Next(r, h)), r.list[0].at, edge)
  {
    var it := r.list[0];
    var d := it.data[cut..];
    forall i | 0 <= i < |d| ensures d[i] == h.stream[h.n + i] {
      assert it.data[cut + i] == h.stream[it.at + (cut + i)];
    }
    QueuedMore(h, r.recvq, d);
    WrapAdd(h.irs + h.n, |d|);
    SortedAnyN(h, Next(r, h), r.list[1..], it.at, edge);
  }

  lemma {:induction false} DrainOneKeeps(r: Pcb, h: History, lo: int, edge: int)
    requires Draining(r, h, lo, edge) && r.list != []
    ensures DrainOne(r) == None <==> r.list[0].at > h.n
    ensures r.list[0].at <= h.n ==> && DrainOne(r).Some? && DrainOne(r).value.list == r.list[1..]
                                    && DrainOne(r).value.bufMax == r.bufMax
                                    && Draining(DrainOne(r).value, h.(n := Next(r, h)), r.list[0].at, edge)
  {
    var cut := h.n - r.list[0].at;
    DrainOneIs(r, h, lo, edge);
    if 0 <= cut < |r.list[0].data| {
      DeliverKeeps(r, h, lo, edge, cut);
    } else if cut >= 0 {
      assert h.(n := Next(r, h)) == h;
    }
  }

  /** The loop moves rcv_nxt exactly as far as contiguous data reaches, hands over exactly the
      peer's octets, and leaves only what lies beyond a gap. */
  lemma {:induction false} DrainKeeps(r: Pcb, h: History, lo: int, edge: int)
    requires Draining(r, h, lo, edge)
    ensures Reach(r.list, h.n) >= h.n
    ensures var n := Reach(r.list, h.n);
            Draining(Drain(r), h.(n := n), n - 1, edge) && Sorted(h.(n := n), Drain(r).list, n, edge)
    ensures Drain(r).bufMax == r.bufMax
    decreases |r.list|
  {
    if r.list != [] {
      DrainOneKeeps(r, h, lo, edge);
      if r.list[0].at <= h.n {
        DrainKeeps(DrainOne(r).value, h.(n := Next(r, h)), r.list[0].at, edge);
        assert h.(n := Next(r, h)).(n := Reach(r.list, h.n)) == h.(n := Reach(r.list, h.n));
      } else {
        assert h.(n := h.n) == h;
        SortedFrom(h, r.list, lo, h.n, edge);
        SortedFrom(h, r.list, lo, h.n - 1, edge);
      }
    } else {
      assert h.(n := h.n) == h;
    }
  }

  /** Whatever the list held is either delivered or still held. */
  lemma {:induction false} DrainCovers(r: Pcb, h: History, lo: int, edge: int, p: int)
    requires Draining(r, h, lo, edge) && Covers(r.list, p)
    ensures p < Reach(r.list, h.n) || Covers(Drain(r).list, p)
    decreases |r.list|
  {
    DrainOneKeeps(r, h, lo, edge);
    if r.list[0].at <= h.n {
      var s, g := DrainOne(r).value, h.(n := Next(r, h));
      if Covers(r.list[1..], p) {
        DrainCovers(s, g, r.list[0].at, edge, p);
      } else {
        DrainKeeps(s, g, r.list[0].at, edge);
      }
    }
  }

  // ---------------------------------------------------------------- tcp_recv_data

  /** The segment after both cuts, with positions in place of sequence numbers. */
  function Front(h: History, seg: Item): int { if seg.at < h.n then h.n - seg.at else 0 }
  function Back(r: Pcb, h: History, seg: Item): int {
    if seg.at + |seg.data| > h.n + r.wnd then h.n + r.wnd - seg.at else |seg.data|
  }

  lemma {:induction false} CutBack(start: int, data: seq<Byte>, nxt: int, wnd: nat)
    requires 0 <= start - nxt && start + |data| - nxt < HALF && wnd < HALF
    ensures Gt(Add(Wrap(start), |data|), Add(Wrap(nxt), wnd)) <==> start + |data| > nxt + wnd
    ensures start + |data| > nxt + wnd ==>
              Sub(Add(Wrap(start), |data|), Add(Wrap(nxt), wnd)) == start + |data| - (nxt + wnd)
  {
    WrapAdd(start, |data|);
    WrapAdd(nxt, wnd);
    Compare(start + |data|, nxt + wnd);
    WrapSub(start + |data|, nxt + wnd);
  }

  lemma {:induction false} CutFront(h: History, r: Pcb, seg: Item)
    requires r.nxt == Wrap(h.irs + h.n) && Near(r, h, seg)
    ensures Lt(seg.seqno, r.nxt) <==> seg.at < h.n
    ensures seg.at < h.n ==> Sub(r.nxt, seg.seqno) == h.n - seg.at
  {
    Compare(h.irs + seg.at, h.irs + h.n);
    WrapSub(h.irs + h.n, h.irs + seg.at);
  }

  function TrimmedAt(r: Pcb, h: History, seg: Item): Option<Item> {
    var front, back := Front(h, seg), Back(r, h, seg);
    if 0 <= front < back <= |seg.data| then Some(seg.(data := seg.data[front..back])) else None
  }

  lemma {:induction false} TrimmedIs(r: Pcb, h: History, seg: Item)
    requires Good(r, h) && Near(r, h, seg)
    ensures Trimmed(r, seg) == TrimmedAt(r, h, seg)
  {
    CutFront(h, r, seg);
    var front, back := Front(h, seg), Back(r, h, seg);
    if front < |seg.data| {
      var data := seg.data[front..];
      CutBack(h.irs + (seg.at + front), data, h.irs + h.n, r.wnd);
      assert front < back ==> data[..back - front] == seg.data[front..back];
      assert back == |seg.data| ==> data == seg.data[front..back];
    }
  }

  /** Where rcv_nxt goes when a segment that starts at or after it arrives. */
  function After(r: Pcb, h: History, seg: Item): int {
    var t := TrimmedAt(r, h, seg);
    if t == None || Insert(r.list, t.value) == None then h.n else Reach(Insert(r.list, t.value).value, h.n)
  }

  lemma {:induction false} InsertedDrains(r: Pcb, h: History, seg: Item)
    requires Good(r, h) && Near(r, h, seg) && seg.at >= h.n && TrimmedAt(r, h, seg).Some?
    ensures var it, edge := TrimmedAt(r, h, seg).value, h.n + r.wnd;
            && it.at == seg.at && it.data == seg.data[..|it.data|] && |it.data| > 0
            && (Insert(r.list, it) == None ==> Covers(r.list, seg.at))
            && (Insert(r.list, it).Some? ==> Draining(r.(list := Insert(r.list, it).value), h, h.n - 1, edge))
  {
    var it, edge := TrimmedAt(r, h, seg).value, h.n + r.wnd;
    assert Genuine(h, it);
    SortedFrom(h, r.list, h.n, h.n - 1, edge);
    InsertSorted(h, r.list, it, h.n - 1, edge);
  }

  lemma {:induction false} TakeKeeps(r: Pcb, h: History, seg: Item)
    requires Good(r, h) && Near(r, h, seg) && seg.at >= h.n && TrimmedAt(r, h, seg).Some?
    ensures var it, n := TrimmedAt(r, h, seg).value, After(r, h, seg);
            n >= h.n && Good(Take(r, it), h.(n := n)) && n + Take(r, it).wnd == h.n + r.wnd
  {
    assert h.(n := h.n) == h;
    InsertedDrains(r, h, seg);
    var it, edge := TrimmedAt(r, h, seg).value, h.n + r.wnd;
    if Insert(r.list, it).Some? {
      var s := r.(list := Insert(r.list, it).value);
      DrainKeeps(s, h, h.n - 1, edge);
      Reopened(Drain(s), h.(n := After(r, h, seg)), edge);
    }
  }

  /** The window reaches to the same edge again. */
  lemma {:induction false} Reopened(d: Pcb, h: History, edge: int)
    requires Draining(d, h, h.n - 1, edge) && Sorted(h, d.list, h.n, edge)
             && edge == h.read + d.bufMax && d.bufMax < HALF
    ensures Good(d.(wnd := Window(d)), h) && h.n + Window(d) == edge
  {
  }

  /** For any arrival order, duplication and overlap: a segment that starts at or after rcv_nxt
      keeps the receive queue equal to the peer's stream, the buffer within its size, and the right
      edge of the window where it was. */
  lemma {:induction false} ReceiveKeeps(r: Pcb, h: History, seg: Item)
    requires Good(r, h) && Near(r, h, seg) && seg.at >= h.n
    ensures After(r, h, seg) >= h.n && Good(Receive(r, seg), h.(n := After(r, h, seg)))
    ensures After(r, h, seg) + Receive(r, seg).wnd == h.n + r.wnd
  {
    TrimmedIs(r, h, seg);
    if TrimmedAt(r, h, seg).Some? { TakeKeeps(r, h, seg); } else { assert h.(n := h.n) == h; }
  }

  /** No octet that was held is lost, and no octet of an accepted segment inside the window is. */
  lemma {:induction false} NothingLost(r: Pcb, h: History, seg: Item, p: int)
    requires Good(r, h) && Near(r, h, seg) && seg.at >= h.n
    ensures Covers(r.list, p) ==> p < After(r, h, seg) || Covers(Receive(r, seg).list, p)
    ensures seg.at <= p < seg.at + |seg.data| && p < h.n + r.wnd && !Covers(r.list, seg.at)
            ==> p < After(r, h, seg) || Covers(Receive(r, seg).list, p)
  {
    TrimmedIs(r, h, seg);
    if TrimmedAt(r, h, seg).Some? {
      InsertedDrains(r, h, seg);
      var it, edge := TrimmedAt(r, h, seg).value, h.n + r.wnd;
      if Insert(r.list, it).Some? {
        var list := Insert(r.list, it).value;
        InsertCovers(r.list, it, p);
        if Covers(list, p) {
          DrainCovers(r.(list := list), h, h.n - 1, edge, p);
        }
      }
    }
  }

  lemma {:induction false} NoneBelow(h: History, list: seq<Item>, lo: int, edge: int, p: int)
    requires Sorted(h, list, lo, edge) && p <= lo
    ensures !Covers(list, p)
    decreases |list|
  {
    if list != [] { NoneBelow(h, list[1..], list[0].at, edge, p); }
  }

  /** A segment that starts exactly at rcv_nxt is always taken, as far as the window allows. */
  lemma {:induction false} InOrderAdvances(r: Pcb, h: History, seg: Item)
    requires Good(r, h) && Near(r, h, seg) && seg.at == h.n
    ensures After(r, h, seg) >= h.n + if |seg.data| < r.wnd then |seg.data| else r.wnd
  {
    var len := if |seg.data| < r.wnd then |seg.data| else r.wnd;
    NoneBelow(h, r.list, h.n, h.n + r.wnd, h.n);
    ReceiveKeeps(r, h, seg);
    if len > 0 {
      InOrderFirst(r, h, seg);
    }
  }

  lemma {:induction false} InOrderFirst(r: Pcb, h: History, seg: Item)
    requires Good(r, h) && Near(r, h, seg) && seg.at == h.n && seg.data != [] && r.wnd > 0
    ensures After(r, h, seg) >= h.n + if |seg.data| < r.wnd then |seg.data| else r.wnd
  {
    var it := TrimmedAt(r, h, seg).value;
    InsertFront(h, r.list, it, h.n, h.n + r.wnd);
    ReachFront(it, r.list, h.n);
  }

  lemma {:induction false} ReachFront(it: Item, list: seq<Item>, n: int)
    requires it.at <= n
    ensures Reach([it] + list, n) >= it.at + |it.data|
  {
    assert ([it] + list)[1..] == list;
    ReachGrows(list, if it.at + |it.data| > n then it.at + |it.data| else n);
  }

  lemma {:induction false} ReachGrows(list: seq<Item>, n: int)
    ensures Reach(list, n) >= n
    decreases |list|
  {
    if list != [] && list[0].at <= n {
      ReachGrows(list[1..], if list[0].at + |list[0].data| > n then list[0].at + |list[0].data| else n);
    }
  }

  // ---------------------------------------------------------------- segments that start before rcv_nxt

  /** The drain loop does nothing when the list starts beyond a gap. */
  lemma {:induction false} DrainRests(r: Pcb, h: History)
    requires r.nxt == Wrap(h.irs + h.n) && Sorted(h, r.list, h.n, h.n + r.wnd) && r.wnd < HALF
    ensures Drain(r) == r
  {
    if r.list != [] { Compare(h.irs + r.list[0].at, h.irs + h.n); }
  }

  /** A segment that starts before rcv_nxt, after the first cut, is cut a second time: it is dropped
      if what is left is no longer than what was cut, and otherwise delivered from the wrong place. */
  lemma {:induction false} StraddleIs(r: Pcb, h: History, seg: Item)
    requires Good(r, h) && Near(r, h, seg) && seg.at < h.n
    ensures !CutTwice(r, h, seg) ==> Receive(r, seg) == r
    ensures CutTwice(r, h, seg) ==>
              var cut, rest := Overlap(h, seg), Left(r, h, seg);
              cut <= rest && h.n + rest <= |h.stream|
              && r.recvq + [h.stream[h.n + cut..h.n + rest]] <= Receive(r, seg).recvq
  {
    TrimmedIs(r, h, seg);
    var cut, rest := Overlap(h, seg), Left(r, h, seg);
    assert r.(wnd := r.wnd) == r;
    if rest > 0 {
      var it := TrimmedAt(r, h, seg).value;
      assert it.data == seg.data[cut..cut + rest];
      StraddleFront(r, h, it);
      if cut < rest { SecondCut(h, seg, cut, rest); }
    }
  }

  /** What the second cut leaves. */
  lemma {:induction false} SecondCut(h: History, seg: Item, cut: nat, rest: nat)
    requires Genuine(h, seg) && cut < rest && cut + rest <= |seg.data| && cut == h.n - seg.at
    ensures h.n + rest <= |h.stream| && seg.data[cut..cut + rest][cut..] == h.stream[h.n + cut..h.n + rest]
  {
    var left := seg.data[cut..cut + rest][cut..];
    forall i | 0 <= i < |left| ensures left[i] == h.stream[h.n + cut..h.n + rest][i] {
      assert seg.data[cut + (cut + i)] == h.stream[seg.at + (cut + (cut + i))];
    }
  }

  lemma {:induction false} StraddleFront(r: Pcb, h: History, it: Item)
    requires Good(r, h) && it.at < h.n && h.n + r.wnd - it.at < HALF && it.seqno == Wrap(h.irs + it.at)
    ensures Insert(r.list, it) == Some([it] + r.list)
    ensures var d, cut := Drain(r.(list := [it] + r.list)), h.n - it.at;
            if cut >= |it.data| then d == r else r.recvq + [it.data[cut..]] <= d.recvq
  {
    InsertFront(h, r.list, it, h.n, h.n + r.wnd);
    var s := r.(list := [it] + r.list);
    assert s.list[1..] == r.list;
    Compare(h.irs + it.at, h.irs + h.n);
    WrapSub(h.irs + h.n, h.irs + it.at);
    var cut := h.n - it.at;
    if cut >= |it.data| {
      assert DrainOne(s) == Some(r);
      DrainRests(r, h);
    } else {
      DrainExtends(DrainOne(s).value);
    }
  }

  lemma {:induction false} DrainExtends(r: Pcb)
    ensures r.recvq <= Drain(r).recvq
    decreases |r.list|
  {
    if r.list != [] && DrainOne(r).Some? {
      DrainExtends(DrainOne(r).value);
    }
  }

  lemma {:induction false} FlatPrefix(q: seq<seq<Byte>>, p: seq<seq<Byte>>)
    requires q <= p
    ensures Flat(q) <= Flat(p)
    decreases |q|
  {
    if q != [] {
      assert q[1..] <= p[1..];
      FlatPrefix(q[1..], p[1..]);
    }
  }

  /** What the application will read is the peer's stream. */
  predicate Faithful(r: Pcb, h: History) {
    h.read + |Flat(r.recvq)| <= |h.stream| && Flat(r.recvq) == h.stream[h.read..h.read + |Flat(r.recvq)|]
  }

  /** If a doubly cut segment still leaves the right octets in the queue, the stream repeats itself
      there with the period of the overlap. */
  lemma {:induction false} StraddleFaithful(r: Pcb, h: History, seg: Item, i: nat)
    requires Good(r, h) && Near(r, h, seg) && seg.at < h.n
    requires CutTwice(r, h, seg) && i < Left(r, h, seg) - Overlap(h, seg)
    ensures Faithful(Receive(r, seg), h) ==> h.stream[h.n + i] == h.stream[h.n + Overlap(h, seg) + i]
  {
    StraddleIs(r, h, seg);
    var cut, rest := Overlap(h, seg), Left(r, h, seg);
    var d := h.stream[h.n + cut..h.n + rest];
    var q := Receive(r, seg).recvq;
    FlatAppend(r.recvq, d);
    FlatPrefix(r.recvq + [d], q);
    assert Flat(r.recvq) + d <= Flat(q);
    assert |Flat(r.recvq)| == h.n - h.read;
    assert (Flat(r.recvq) + d)[h.n - h.read + i] == d[i];
    assert Faithful(Receive(r, seg), h) ==> Flat(q)[h.n - h.read + i] == h.stream[h.read + (h.n - h.read + i)];
  }

  /** The same history and segment with octet b at position rcv_nxt of the stream. */
  function Patch(h: History, b: Byte): History {
    if h.n < |h.stream| then h.(stream := h.stream[h.n := b]) else h
  }
  function PatchSeg(h: History, seg: Item, b: Byte): Item {
    if 0 <= h.n - seg.at < |seg.data| then seg.(data := seg.data[h.n - seg.at := b]) else seg
  }

  lemma {:induction false} PatchSorted(h: History, b: Byte, list: seq<Item>, lo: int, edge: int)
    requires Sorted(h, list, lo, edge) && h.n <= lo
    ensures Sorted(Patch(h, b), list, lo, edge)
    decreases |list|
  {
    if list != [] {
      assert Genuine(Patch(h, b), list[0]);
      PatchSorted(h, b, list[1..], list[0].at, edge);
    }
  }

  lemma {:induction false} PatchGood(r: Pcb, h: History, seg: Item, b: Byte)
    requires Good(r, h) && Near(r, h, seg)
    ensures Good(r, Patch(h, b)) && Near(r, Patch(h, b), PatchSeg(h, seg, b))
    ensures CutTwice(r, Patch(h, b), PatchSeg(h, seg, b)) == CutTwice(r, h, seg)
  {
    PatchSorted(h, b, r.list, h.n, h.n + r.wnd);
    assert Patch(h, b).stream[h.read..h.n] == h.stream[h.read..h.n];
  }

  /** tcp_recv_data hands over the peer's octets whatever octet stands at rcv_nxt, if and only if
      the segment is not cut twice. */
  ghost predicate RightWhateverComes(r: Pcb, h: History, seg: Item) {
    forall b: Byte :: Faithful(Receive(r, PatchSeg(h, seg, b)), Patch(h, b))
  }

  lemma {:induction false} ReceiveRightIff(r: Pcb, h: History, seg: Item)
    requires Good(r, h) && Near(r, h, seg)
    ensures RightWhateverComes(r, h, seg) <==> !CutTwice(r, h, seg)
  {
    if CutTwice(r, h, seg) {
      var cut := Overlap(h, seg);
      var b: Byte := if h.stream[h.n + cut] == 0 then 1 else 0;
      PatchGood(r, h, seg, b);
      var g, s := Patch(h, b), PatchSeg(h, seg, b);
      StraddleDiffers(r, g, s);
    } else {
      forall b: Byte ensures Faithful(Receive(r, PatchSeg(h, seg, b)), Patch(h, b)) {
        PatchGood(r, h, seg, b);
        ReceiveFaithful(r, Patch(h, b), PatchSeg(h, seg, b));
      }
    }
  }

  lemma {:induction false} ReceiveFaithful(r: Pcb, h: History, seg: Item)
    requires Good(r, h) && Near(r, h, seg) && !CutTwice(r, h, seg)
    ensures Faithful(Receive(r, seg), h)
  {
    if seg.at < h.n { StraddleIs(r, h, seg); } else { ReceiveKeeps(r, h, seg); }
  }

  lemma {:induction false} StraddleDiffers(r: Pcb, h: History, seg: Item)
    requires Good(r, h) && Near(r, h, seg) && CutTwice(r, h, seg)
    requires h.stream[h.n] != h.stream[h.n + Overlap(h, seg)]
    ensures !Faithful(Receive(r, seg), h)
  {
    StraddleFaithful(r, h, seg, 0);
  }

  /** A run that goes wrong: octets 10, 11 have arrived; 11..14 are sent again starting at 11, and the
      application is handed 13, 14 where the peer sent 12, 13. */
  lemma {:induction false} StraddleExample()
    ensures var h := History(0, [10, 11, 12, 13, 14], 2, 0);
            var r := Pcb(2, 100, [], [[10, 11]], 2, 102);
            var seg := Item(1, [11, 12, 13, 14], 1);
            && Good(r, h) && Near(r, h, seg) && Receive(r, seg).recvq == [[10, 11], [13, 14]]
            && !Faithful(Receive(r, seg), h)
  {
    var h := History(0, [10, 11, 12, 13, 14], 2, 0);
    var r := Pcb(2, 100, [], [[10, 11]], 2, 102);
    var seg := Item(1, [11, 12, 13, 14], 1);
    ExampleGood(r, h);
    assert Genuine(h, seg);
    TrimmedIs(r, h, seg);
    var it := seg.(data := [12, 13, 14]);
    assert seg.data[1..4] == it.data;
    assert Insert([], it) == Some([it]) by { assert [it] + [] == [it]; }
    var s := r.(list := [it]);
    assert DrainOne(s).value == Pcb(4, 100, [], [[10, 11], [13, 14]], 4, 102) by {
      assert it.data[1..] == [13, 14] && [it][1..] == [];
    }
    assert Drain(s) == DrainOne(s).value;
    StraddleDiffers(r, h, seg);
  }

  lemma {:induction false} ExampleGood(r: Pcb, h: History)
    requires h == History(0, [10, 11, 12, 13, 14], 2, 0) && r == Pcb(2, 100, [], [[10, 11]], 2, 102)
    ensures Good(r, h)
  {
    assert [[10 as Byte, 11]][1..] == [];
    assert Flat(r.recvq) == [10, 11] + Flat([]);
  }

  // ---------------------------------------------------------------- tcp_read

  /** The receive queue without its first k octets: whole segments popped, the next one cut. */
  function Skip(q: seq<seq<Byte>>, k: nat): seq<seq<Byte>> {
    if q == [] || k == 0 then q
    else if |q[0]| <= k then Skip(q[1..], k - |q[0]|)
    else [q[0][k..]] + q[1..]
  }

  function Taken(r: Pcb, len: nat): nat {
    if len < |Flat(r.recvq)| then len else |Flat(r.recvq)|
  }

  function Read(r: Pcb, len: nat): Pcb
    requires r.bufLen >= |Flat(r.recvq)|
  {
    var s := r.(recvq := Skip(r.recvq, len), bufLen := r.bufLen - Taken(r, len));
    s.(wnd := Window(s))
  }

  lemma {:induction false} SkipFlat(q: seq<seq<Byte>>, k: nat)
    ensures Flat(Skip(q, k)) == if k < |Flat(q)| then Flat(q)[k..] else []
    decreases |q|
  {
    if q != [] && k > 0 {
      if |q[0]| <= k {
        SkipFlat(q[1..], k - |q[0]|);
      } else {
        assert ([q[0][k..]] + q[1..])[1..] == q[1..];
        assert (q[0] + Flat(q[1..]))[k..] == q[0][k..] + Flat(q[1..]);
      }
    }
  }

  lemma {:induction false} SortedWider(h: History, read: nat, list: seq<Item>, lo: int, edge: int, wider: int)
    requires Sorted(h, list, lo, edge) && edge <= wider
    ensures Sorted(h.(read := read), list, lo, wider)
    decreases |list|
  {
    if list != [] {
      assert Genuine(h.(read := read), list[0]);
      SortedWider(h, read, list[1..], list[0].at, edge, wider);
    }
  }

  /** Reading takes the next octets of the stream, and opens the window by exactly that much. */
  lemma {:induction false} ReadKeeps(r: Pcb, h: History, len: nat)
    requires Good(r, h)
    ensures Taken(r, len) <= h.n - h.read
    ensures Flat(r.recvq)[..Taken(r, len)] == h.stream[h.read..h.read + Taken(r, len)]
    ensures Good(Read(r, len), h.(read := h.read + Taken(r, len)))
    ensures Read(r, len).wnd == r.wnd + Taken(r, len)
  {
    var k := Taken(r, len);
    QueuedLess(h, r.recvq, len, k);
    SortedWider(h, h.read + k, r.list, h.n, h.n + r.wnd, h.n + r.wnd + k);
  }

  lemma {:induction false} QueuedLess(h: History, q: seq<seq<Byte>>, len: nat, k: nat)
    requires Queued(h, q) && k == if len < |Flat(q)| then len else |Flat(q)|
    ensures k <= h.n - h.read && Flat(q)[..k] == h.stream[h.read..h.read + k]
    ensures Queued(h.(read := h.read + k), Skip(q, len))
  {
    SkipTaken(q, len, k);
    SliceCut(h.stream, h.read, h.n, k);
  }

  lemma {:induction false} SkipTaken(q: seq<seq<Byte>>, len: nat, k: nat)
    requires k == if len < |Flat(q)| then len else |Flat(q)|
    ensures Flat(Skip(q, len)) == Flat(q)[k..]
  {
    SkipFlat(q, len);
  }

  lemma {:induction false} SliceCut(stream: seq<Byte>, from: nat, to: nat, k: nat)
    requires from + k <= to <= |stream|
    ensures stream[from..to][k..] == stream[from + k..to] && stream[from..to][..k] == stream[from..from + k]
  {
  }

  // ---------------------------------------------------------------- whole runs

  datatype Event = Arrives(seg: Item) | Reads(len: nat)

  predicate Expected(r: Pcb, h: History, e: Event) {
    e.Arrives? ==> Near(r, h, e.seg) && !CutTwice(r, h, e.seg)
  }

  function Step(r: Pcb, e: Event): Pcb
    requires r.bufLen >= |Flat(r.recvq)|
  {
    match e
    case Arrives(seg) => Receive(r, seg)
    case Reads(len) => Read(r, len)
  }

  /** What the application gets from one event. */
  function Output(r: Pcb, e: Event): seq<Byte> {
    match e
    case Arrives(_) => []
    case Reads(len) => Flat(r.recvq)[..Taken(r, len)]
  }

  function Onward(r: Pcb, h: History, e: Event): History {
    match e
    case Arrives(seg) =>
      h.(n := if seg.at < h.n then h.n else var n := After(r, h, seg); if n < 0 then 0 else n)
    case Reads(len) => h.(read := h.read + Taken(r, len))
  }

  lemma {:induction false} StepKeeps(r: Pcb, h: History, e: Event)
    requires Good(r, h) && Expected(r, h, e)
    ensures r.bufLen >= |Flat(r.recvq)|
    ensures var s, g := Step(r, e), Onward(r, h, e);
            && Good(s, g) && h.n <= g.n && h.read <= g.read && h.stream == g.stream
            && h.n + r.wnd <= g.n + s.wnd
            && Output(r, e) == h.stream[h.read..g.read]
  {
    match e
    case Arrives(seg) =>
      if seg.at < h.n { StraddleIs(r, h, seg); assert h.(n := h.n) == h; } else { ReceiveKeeps(r, h, seg); }
    case Reads(len) => ReadKeeps(r, h, len);
  }

  /** A run: the states before each event and after the last. */
  ghost predicate RunOf(rs: seq<Pcb>, hs: seq<History>, es: seq<Event>) {
    && |rs| == |hs| == |es| + 1 && Good(rs[0], hs[0])
    && forall i :: 0 <= i < |es| ==> StepAt(rs, hs, es, i)
  }
  ghost predicate StepAt(rs: seq<Pcb>, hs: seq<History>, es: seq<Event>, i: nat)
    requires |rs| == |hs| == |es| + 1 && i < |es|
  {
    && Expected(rs[i], hs[i], es[i]) && hs[i + 1] == Onward(rs[i], hs[i], es[i])
    && rs[i].bufLen >= |Flat(rs[i].recvq)| && rs[i + 1] == Step(rs[i], es[i])
  }

  function Outputs(rs: seq<Pcb>, es: seq<Event>, k: nat): seq<Byte>
    requires k <= |es| <= |rs|
  {
    if k == 0 then [] else Outputs(rs, es, k - 1) + Output(rs[k - 1], es[k - 1])
  }

  /** Over every run, the octets the application has read are the peer's stream in order, what is
      queued is the next stretch of it up to rcv_nxt, and the right edge never moves left. */
  lemma {:induction false} RunDelivers(rs: seq<Pcb>, hs: seq<History>, es: seq<Event>, k: nat)
    requires RunOf(rs, hs, es) && k <= |es|
    ensures Good(rs[k], hs[k]) && hs[k].stream == hs[0].stream && hs[0].read <= hs[k].read
    ensures Outputs(rs, es, k) + Flat(rs[k].recvq) == hs[0].stream[hs[0].read..hs[k].n]
    ensures hs[0].n + rs[0].wnd <= hs[k].n + rs[k].wnd
  {
    RunReads(rs, hs, es, k);
    var s, a, b, c := hs[0].stream, hs[0].read, hs[k].read, hs[k].n;
    assert s[a..b] + s[b..c] == s[a..c];
  }

  /** One step, as far as the run cares. */
  lemma {:induction false} RunStep(r: Pcb, h: History, e: Event, s: Pcb, g: History, first: History, out: seq<Byte>)
    requires Good(r, h) && Expected(r, h, e) && g == Onward(r, h, e)
    requires r.bufLen >= |Flat(r.recvq)| && s == Step(r, e)
    requires first.stream == h.stream && first.read <= h.read <= |h.stream| && out == h.stream[first.read..h.read]
    ensures Good(s, g) && g.stream == h.stream && h.read <= g.read <= |h.stream|
    ensures out + Output(r, e) == h.stream[first.read..g.read] && h.n + r.wnd <= g.n + s.wnd
  {
    StepKeeps(r, h, e);
    var a, b, c := first.read, h.read, g.read;
    assert h.stream[a..b] + h.stream[b..c] == h.stream[a..c];
  }

  lemma {:induction false} RunReads(rs: seq<Pcb>, hs: seq<History>, es: seq<Event>, k: nat)
    requires RunOf(rs, hs, es) && k <= |es|
    ensures Good(rs[k], hs[k]) && hs[k].stream == hs[0].stream && hs[0].read <= hs[k].read
    ensures Outputs(rs, es, k) == hs[0].stream[hs[0].read..hs[k].read]
    ensures hs[0].n + rs[0].wnd <= hs[k].n + rs[k].wnd
  {
    if k > 0 {
      var j := k - 1;
      RunReads(rs, hs, es, j);
      assert StepAt(rs, hs, es, j);
      RunStep(rs[j], hs[j], es[j], rs[k], hs[k], hs[0], Outputs(rs, es, j));
    }
  }

  /** The queue after n octets of its first buffer are taken. */
  lemma {:induction false} RestIs(buf: seq<Byte>, q: seq<seq<Byte>>, n: nat)
    requires q != [] && n <= |q[0]|
    ensures var rest := if n < |q[0]| then [q[0][n..]] + q[1..] else q[1..];
            buf + Flat(q) == (buf + q[0][..n]) + Flat(rest) && |Flat(rest)| == |Flat(q)| - n
  {
    var tail := Flat(q[1..]);
    assert ([q[0][n..]] + q[1..])[1..] == q[1..];
    assert buf + (q[0] + tail) == (buf + q[0][..n]) + (q[0][n..] + tail);
    assert n == |q[0]| ==> q[0][n..] + tail == tail;
  }

  // ---------------------------------------------------------------- the code in place

  class Receiver {
    var nxt: int
    var wnd: nat
    var list: seq<Item>
    var recvq: seq<seq<Byte>>
    var bufLen: nat
    var bufMax: nat

    function V(): Pcb
      reads this
    {
      Pcb(nxt, wnd, list, recvq, bufLen, bufMax)
    }

    /** add_list_node_compare. */
    method AddNode(it: Item) returns (added: bool)
      modifies this`list
      ensures added == Insert(old(list), it).Some?
      ensures list == if added then Insert(old(list), it).value else old(list)
    {
      var i := 0;
      assert list[0..] == list && (Insert(list, it).Some? ==> [] + Insert(list, it).value == Insert(list, it).value);
      while i < |list|
        invariant 0 <= i <= |list| && list == old(list)
        invariant Insert(list, it) == Prepend(list[..i], Insert(list[i..], it))
      {
        if Gt(list[i].seqno, it.seqno) {
          list := list[..i] + ([it] + list[i..]);
          return true;
        }
        if !Lt(list[i].seqno, it.seqno) { return false; }
        assert list[i..][1..] == list[i + 1..];
        ghost var rest := Insert(list[i + 1..], it);
        assert rest.Some? ==> list[..i] + ([list[i]] + rest.value) == list[..i + 1] + rest.value;
        i := i + 1;
      }
      list := list[..i] + ([it] + []);
      assert old(list)[i..] == [];
      added := true;
    }

    /** The loop over the reorder list. */
    method DrainList()
      modifies this
      ensures V() == Drain(old(V()))
    {
      while list != []
        invariant Drain(V()) == Drain(old(V()))
        decreases |list|
      {
        ghost var was := V();
        var it := list[0];
        if Gt(it.seqno, nxt) { break; }
        var data := it.data;
        if Lt(it.seqno, nxt) {
          var overlap := Sub(nxt, it.seqno);
          if overlap >= |it.data| {
            list := list[1..];
            assert DrainOne(was) == Some(V());
            continue;
          }
          data := data[overlap..];
        }
        list, recvq, bufLen, nxt := list[1..], recvq + [data], bufLen + |data|, Add(nxt, |data|);
        assert DrainOne(was) == Some(V());
      }
    }

    /** tcp_recv_data. */
    method RecvData(seg: Item) returns (taken: bool)
      modifies this
      ensures V() == Receive(old(V()), seg)
      ensures !taken ==> V() == old(V())
    {
      var start, data := seg.seqno, seg.data;
      if data == [] { return false; }
      if Lt(start, nxt) {
        var overlap := Sub(nxt, start);
        if overlap >= |data| { return false; }
        start, data := nxt, data[overlap..];
      }
      assert data == seg.data[if Lt(seg.seqno, nxt) then Sub(nxt, seg.seqno) else 0..];
      if Gt(Add(start, |data|), Add(nxt, wnd)) {
        var over := Sub(Add(start, |data|), Add(nxt, wnd));
        if over >= |data| { return false; }
        data := data[..|data| - over];
      }
      assert Trimmed(old(V()), seg) == Some(seg.(data := data));
      taken := AddNode(seg.(data := data));
      if !taken { return; }
      DrainList();
      wnd := if bufMax > bufLen then bufMax - bufLen else 0;
    }

    /** One round of the copy loop: as much of the first buffer as fits, and the buffer itself when it is
        used up. */
    method ReadOne(room: nat) returns (got: seq<Byte>)
      requires recvq != [] && room > 0 && bufLen >= |Flat(recvq)|
      modifies this`recvq, this`bufLen
      ensures |got| <= room && old(Flat(recvq)) == got + Flat(recvq) && bufLen == old(bufLen) - |got|
      ensures Skip(recvq, room - |got|) == Skip(old(recvq), room)
      ensures |got| > 0 || |recvq| < |old(recvq)|
    {
      var skb := recvq[0];
      var n := if |skb| <= room then |skb| else room;
      RestIs([], recvq, n);
      assert [] + Flat(recvq) == Flat(recvq) && [] + skb[..n] == skb[..n];
      got, bufLen := skb[..n], bufLen - n;
      recvq := if n < |skb| then [skb[n..]] + recvq[1..] else recvq[1..];
    }

    /** The copy loop of tcp_read. */
    method ReadData(len: nat) returns (buf: seq<Byte>)
      requires bufLen >= |Flat(recvq)|
      modifies this
      ensures V() == Read(old(V()), len)
      ensures buf == old(Flat(recvq))[..Taken(old(V()), len)]
    {
      buf := [];
      while |buf| < len && recvq != []
        invariant |buf| <= len && buf + Flat(recvq) == old(Flat(recvq))
        invariant Skip(recvq, len - |buf|) == Skip(old(recvq), len)
        invariant bufLen == old(bufLen) - |buf| && bufLen >= |Flat(recvq)|
        invariant nxt == old(nxt) && list == old(list) && wnd == old(wnd) && bufMax == old(bufMax)
        decreases len - |buf|, |recvq|
      {
        ghost var before := Flat(recvq);
        var got := ReadOne(len - |buf|);
        assert buf + before == (buf + got) + Flat(recvq);
        buf := buf + got;
      }
      wnd := if bufMax > bufLen then bufMax - bufLen else 0;
    }
  }
}
