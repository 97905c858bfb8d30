/** The TCP sender of main/tcp.c: two queues of segments, one sent and one not, that together tile
    the sequence space from the oldest unacknowledged number to the end of what was written. */
module TcpSender {
  import opened Common
  import opened TcpSeq
  import opened TcpSendQueue

  const BURST_MAX: nat := 64

  /** A packet on the wire: header sequence number and what it carries; `at` is the place in the
      sequence space that number stands for. */
  datatype Segment = Segment(at: nat, seqno: int, units: seq<Unit>)

  /** The sender's variables that the tiling is about. */
  datatype View = View(una: int, nxt: int, end: int, rtq: seq<Skb>, sndq: seq<Skb>, bufLen: nat, closed: bool)

  /** History: the sequence space, the places of una and nxt in it, the packets sent. */
  datatype History = History(space: Space, ua: nat, nx: nat, wire: seq<Segment>)

  /** The packet carries, at its sequence number, exactly what the connection holds there. */
  predicate Truthful(s: Space, w: Segment) {
    w.seqno == Wrap(s.isn + w.at) && Holds(s, w.at, w.units)
  }

  /** The retransmit queue tiles [una, nxt), the send queue tiles [nxt, end). */
  ghost predicate Tiled(s: Space, ua: nat, nx: nat, rtq: seq<Skb>, sndq: seq<Skb>) {
    && ua <= nx <= |s.units|
    && Row(s, ua, rtq) && RowEnd(ua, rtq) == nx && AllLive(rtq)
    && Row(s, nx, sndq) && RowEnd(nx, sndq) == |s.units| && NoSyn(sndq)
  }

  ghost predicate Good(v: View, h: History) {
    && Tiled(h.space, h.ua, h.nx, v.rtq, v.sndq)
    && v.una == Wrap(h.space.isn + h.ua) && v.nxt == Wrap(h.space.isn + h.nx)
    && v.end == Wrap(h.space.isn + |h.space.units|)
    && WellFormed(h.space.units) && (Fin in h.space.units ==> v.closed)
    && v.bufLen == DataFrom(h.space.units, h.ua) <= HALF - 3
    && forall i :: 0 <= i < |h.wire| ==> Truthful(h.space, h.wire[i])
  }

  /** The whole outstanding span stays below 2^31, so the comparison macros are exact on it. */
  lemma {:induction false} SpanSmall(v: View, h: History)
    requires Good(v, h)
    ensures |h.space.units| - h.ua < HALF
  {
    SpanBound(h.space.units, h.ua);
  }

  /** What the invariant says in plain terms: the two queues laid end to end are exactly what lies
      between una and the end of what was written, and send_buffer_len is their payload. */
  lemma {:induction false} QueuesTileTheSpace(v: View, h: History)
    requires Good(v, h)
    ensures Flat(v.rtq) == h.space.units[h.ua..h.nx] && Flat(v.sndq) == h.space.units[h.nx..]
    ensures v.bufLen == DataLen(v.rtq) + DataLen(v.sndq)
    ensures Sub(v.nxt, v.una) == |Flat(v.rtq)| && Sub(v.end, v.nxt) == |Flat(v.sndq)|
  {
    RowIsSlice(h.space, h.ua, v.rtq);
    RowIsSlice(h.space, h.nx, v.sndq);
    RowData(h.space, h.ua, v.rtq);
    RowData(h.space, h.nx, v.sndq);
    SpanSmall(v, h);
    WrapSub(h.space.isn + h.nx, h.space.isn + h.ua);
    WrapSub(h.space.isn + |h.space.units|, h.space.isn + h.nx);
  }

  /** Retransmissions never contradict the first transmission: two packets that cover the same
      position carry the same thing there, and it is what was written there. */
  lemma {:induction false} WireNeverContradicts(v: View, h: History, i: nat, j: nat, p: nat)
    requires Good(v, h) && i < |h.wire| && j < |h.wire|
    requires h.wire[i].at <= p < h.wire[i].at + |h.wire[i].units|
    requires h.wire[j].at <= p < h.wire[j].at + |h.wire[j].units|
    ensures p < |h.space.units|
    ensures h.wire[i].units[p - h.wire[i].at] == h.wire[j].units[p - h.wire[j].at] == h.space.units[p]
  {
    assert Truthful(h.space, h.wire[i]) && Truthful(h.space, h.wire[j]);
    assert h.space.units[h.wire[i].at + (p - h.wire[i].at)] == h.wire[i].units[p - h.wire[i].at];
    assert h.space.units[h.wire[j].at + (p - h.wire[j].at)] == h.wire[j].units[p - h.wire[j].at];
  }

  // ---------------------------------------------------------------- single steps on values

  lemma {:induction false} EmitKeeps(v: View, h: History, w: Segment)
    requires Good(v, h) && Truthful(h.space, w)
    ensures Good(v, h.(wire := h.wire + [w]))
  {
  }

  /** Numbering more units at the end: the unsent queue and the space grow by the same. */
  lemma {:induction false} GrowKeeps(v: View, h: History, sndq: seq<Skb>, extra: seq<Unit>, closed: bool)
    requires Good(v, h) && Fin !in h.space.units && v.bufLen + DataFrom(extra, 0) <= HALF - 3 && (v.closed ==> closed)
    requires var s' := Grown(h.space, extra); Row(s', h.nx, sndq) && RowEnd(h.nx, sndq) == |s'.units| && NoSyn(sndq)
    requires Syn !in extra && (forall i :: 0 <= i < |extra| && extra[i] == Fin ==> i == |extra| - 1)
             && (Fin in extra ==> closed)
    ensures Good(v.(sndq := sndq, end := Add(v.end, |extra|), bufLen := v.bufLen + DataFrom(extra, 0),
                    closed := closed),
                 h.(space := Grown(h.space, extra)))
  {
    RowGrows(h.space, h.ua, v.rtq, extra);
    DataFromGrows(h.space.units, extra, h.ua);
    WrapAdd(h.space.isn + |h.space.units|, |extra|);
    WireKept(h.space, h.wire, extra);
    WellFormedGrows(h.space.units, extra);
  }

  lemma {:induction false} WireKept(s: Space, wire: seq<Segment>, extra: seq<Unit>)
    requires forall i :: 0 <= i < |wire| ==> Truthful(s, wire[i])
    ensures forall i :: 0 <= i < |wire| ==> Truthful(Grown(s, extra), wire[i])
  {
    forall i | 0 <= i < |wire| ensures Truthful(Grown(s, extra), wire[i]) {
      assert Truthful(s, wire[i]);
      HoldsGrows(s, wire[i].at, wire[i].units, extra);
    }
  }

  lemma {:induction false} WellFormedGrows(u: seq<Unit>, extra: seq<Unit>)
    requires WellFormed(u) && Fin !in u && Syn !in extra
    requires forall i :: 0 <= i < |extra| && extra[i] == Fin ==> i == |extra| - 1
    ensures WellFormed(u + extra) && (Fin in u + extra ==> Fin in extra)
  {
  }

  /** The last unsent segment continued by units that reach the new end. */
  lemma {:induction false} ContinueLast(s: Space, nx: nat, sndq: seq<Skb>, k: Skb, extra: seq<Unit>)
    requires sndq != [] && Row(s, nx, sndq) && RowEnd(nx, sndq) == |s.units| && NoSyn(sndq)
    requires var last := sndq[|sndq| - 1]; k.seqno == last.seqno && !k.syn && Units(k) == Units(last) + extra
    ensures var q := sndq[..|sndq| - 1] + [k];
            Row(Grown(s, extra), nx, q) && RowEnd(nx, q) == |s.units| + |extra| && NoSyn(q)
  {
    var front, last := sndq[..|sndq| - 1], sndq[|sndq| - 1];
    RowLast(s, nx, sndq);
    RowGrows(s, nx, front, extra);
    HoldsExtends(s, RowEnd(nx, front), Units(last), extra);
    RowAppend(Grown(s, extra), nx, front, k);
  }

  /** A FIN flag on the last segment shows in the space. */
  lemma {:induction false} LastFinShows(s: Space, at: nat, q: seq<Skb>)
    requires q != [] && Row(s, at, q) && q[|q| - 1].fin
    ensures Fin in s.units
  {
    RowLast(s, at, q);
    var m, last := RowEnd(at, q[..|q| - 1]), q[|q| - 1];
    assert Units(last)[SeqLen(last) - 1] == Fin;
    assert s.units[m + (SeqLen(last) - 1)] == Fin;
  }

  /** Payload appended to the last unsent segment. */
  /** The last unsent segment gets more data. */
  function Extended(v: View, d: seq<Byte>): View
    requires v.sndq != []
  {
    var last := v.sndq[|v.sndq| - 1];
    v.(sndq := v.sndq[..|v.sndq| - 1] + [last.(data := last.data + d)],
       end := Add(v.end, |d|), bufLen := v.bufLen + |d|)
  }

  lemma {:induction false} ExtendKeeps(v: View, h: History, d: seq<Byte>)
    requires Good(v, h) && !v.closed && v.sndq != [] && v.bufLen + |d| <= HALF - 3
    ensures Good(Extended(v, d), h.(space := Grown(h.space, Octets(d))))
  {
    var last := v.sndq[|v.sndq| - 1];
    if last.fin { LastFinShows(h.space, h.nx, v.sndq); }
    RowLast(h.space, h.nx, v.sndq);
    AppendData(last, d);
    ContinueLast(h.space, h.nx, v.sndq, last.(data := last.data + d), Octets(d));
    DataFromOctets(d, 0);
    GrowKeeps(v, h, v.sndq[..|v.sndq| - 1] + [last.(data := last.data + d)], Octets(d), v.closed);
  }

  lemma {:induction false} UnitsFin(k: Skb)
    ensures !k.fin ==> Units(k.(fin := true)) == Units(k) + [Fin]
  {
  }

  /** The FIN put on the last unsent segment. */
  lemma {:induction false} FinKeeps(v: View, h: History)
    requires Good(v, h) && Fin !in h.space.units && v.sndq != []
    ensures var last := v.sndq[|v.sndq| - 1];
            Good(v.(sndq := v.sndq[..|v.sndq| - 1] + [last.(fin := true)], end := Add(v.end, 1), closed := true),
                 h.(space := Grown(h.space, [Fin])))
  {
    var last := v.sndq[|v.sndq| - 1];
    if last.fin { LastFinShows(h.space, h.nx, v.sndq); }
    RowLast(h.space, h.nx, v.sndq);
    UnitsFin(last);
    ContinueLast(h.space, h.nx, v.sndq, last.(fin := true), [Fin]);
    assert DataFrom([Fin], 0) == 0;
    GrowKeeps(v, h, v.sndq[..|v.sndq| - 1] + [last.(fin := true)], [Fin], true);
  }

  /** An empty segment opened at the end of the unsent queue. */
  lemma {:induction false} OpenKeeps(v: View, h: History)
    requires Good(v, h)
    ensures Good(v.(sndq := v.sndq + [Skb(v.end, [], false, false)]), h)
  {
    var k := Skb(v.end, [], false, false);
    assert Units(k) == [];
    RowAppend(h.space, h.nx, v.sndq, k);
  }

  /** The head of the unsent queue cut in two. */
  lemma {:induction false} CutKeeps(v: View, h: History, n: nat, a: Skb, b: Skb)
    requires Good(v, h) && v.sndq != [] && n <= SeqLen(v.sndq[0])
    requires var k := v.sndq[0];
             && !a.syn && !b.syn && a.seqno == k.seqno && b.seqno == Add(k.seqno, n)
             && a.data == k.data[..if n < |k.data| then n else |k.data|] && a.fin == (k.fin && n > |k.data|)
             && b.data == k.data[if n < |k.data| then n else |k.data|..] && b.fin == (k.fin && n <= |k.data|)
    ensures Good(v.(sndq := [a, b] + v.sndq[1..]), h) && SeqLen(a) == n
  {
    var k, rest := v.sndq[0], v.sndq[1..];
    CutInPlace(h.space, h.nx, k, n, a, b);
    RowTwo(h.space, h.nx, a, b, rest);
  }

  lemma {:induction false} CutInPlace(s: Space, at: nat, k: Skb, n: nat, a: Skb, b: Skb)
    requires InPlace(s, at, k) && !k.syn && n <= SeqLen(k)
    requires !a.syn && !b.syn && a.seqno == k.seqno && b.seqno == Add(k.seqno, n)
    requires a.data == k.data[..if n < |k.data| then n else |k.data|] && a.fin == (k.fin && n > |k.data|)
    requires b.data == k.data[if n < |k.data| then n else |k.data|..] && b.fin == (k.fin && n <= |k.data|)
    ensures InPlace(s, at, a) && SeqLen(a) == n && InPlace(s, at + n, b) && SeqLen(b) == SeqLen(k) - n
  {
    CutUnits(k, n, a, b);
    HoldsSub(s, at, Units(k), 0, n);
    HoldsSub(s, at, Units(k), n, SeqLen(k));
    WrapAdd(s.isn + at, n);
  }

  lemma {:induction false} RowTwo(s: Space, at: nat, a: Skb, b: Skb, rest: seq<Skb>)
    requires InPlace(s, at, a) && InPlace(s, at + SeqLen(a), b) && Row(s, at + SeqLen(a) + SeqLen(b), rest)
    ensures Row(s, at, [a, b] + rest)
    ensures RowEnd(at, [a, b] + rest) == RowEnd(at + SeqLen(a) + SeqLen(b), rest)
    ensures NoSyn(rest) && !a.syn && !b.syn ==> NoSyn([a, b] + rest)
  {
    assert ([a, b] + rest)[1..] == [b] + rest;
    assert ([b] + rest)[1..] == rest;
  }

  /** The head of the unsent queue moved behind the sent ones, as `rtq` says how. */
  lemma {:induction false} SendKeeps(v: View, h: History, rtq: seq<Skb>)
    requires Good(v, h) && v.sndq != []
    requires Row(h.space, h.ua, rtq) && RowEnd(h.ua, rtq) == h.nx + SeqLen(v.sndq[0]) && AllLive(rtq)
    ensures var n := SeqLen(v.sndq[0]);
            Good(v.(rtq := rtq, sndq := v.sndq[1..], nxt := Add(v.nxt, n)), h.(nx := h.nx + n))
  {
    WrapAdd(h.space.isn + h.nx, SeqLen(v.sndq[0]));
  }

  /** The first n unacknowledged numbers acknowledged: `rtq` is what is left of the sent queue. */
  lemma {:induction false} AckKeeps(v: View, h: History, n: nat, rtq: seq<Skb>)
    requires Good(v, h) && h.ua + n <= h.nx && v.bufLen >= DataFrom(h.space.units, h.ua + n)
    requires Row(h.space, h.ua + n, rtq) && RowEnd(h.ua + n, rtq) == h.nx && AllLive(rtq)
    ensures Good(v.(una := Wrap(h.space.isn + h.ua + n), rtq := rtq, bufLen := DataFrom(h.space.units, h.ua + n)),
                 h.(ua := h.ua + n))
  {
  }

  /** The oldest sent segment acknowledged in full. */
  lemma {:induction false} PopAcked(v: View, h: History)
    requires Good(v, h) && v.rtq != []
    ensures var k := v.rtq[0];
            && v.bufLen >= |k.data| && h.ua + SeqLen(k) <= h.nx
            && Good(v.(una := Wrap(h.space.isn + h.ua + SeqLen(k)), rtq := v.rtq[1..], bufLen := v.bufLen - |k.data|),
                    h.(ua := h.ua + SeqLen(k)))
  {
    var k := v.rtq[0];
    RowBounded(h.space, h.ua + SeqLen(k), v.rtq[1..]);
    DataFromSegment(h.space, h.ua, k);
    AckKeeps(v, h, SeqLen(k), v.rtq[1..]);
  }

  /** The oldest sent segment acknowledged in part: SYN first, then payload. */
  lemma {:induction false} TrimAcked(v: View, h: History, n: nat, r: Skb)
    requires Good(v, h) && v.rtq != [] && 0 < n < SeqLen(v.rtq[0])
    requires var k := v.rtq[0];
             && !r.syn && r.fin == k.fin && n - SynLen(k) <= |k.data| && r.data == k.data[n - SynLen(k)..]
             && r.seqno == Wrap(h.space.isn + h.ua + n)
    ensures var k := v.rtq[0];
            && v.bufLen >= n - SynLen(k) && h.ua + n <= h.nx
            && Good(v.(una := Wrap(h.space.isn + h.ua + n), rtq := [r] + v.rtq[1..],
                       bufLen := v.bufLen - (n - SynLen(k))),
                    h.(ua := h.ua + n))
  {
    DataFromTrim(h.space, h.ua, v.rtq[0], n);
    RowTrim(h.space, h.ua, v.rtq, n, r);
    AckKeeps(v, h, n, [r] + v.rtq[1..]);
  }

  /** The row without its first n units. */
  lemma {:induction false} RowTrim(s: Space, at: nat, q: seq<Skb>, n: nat, r: Skb)
    requires Row(s, at, q) && q != [] && AllLive(q) && 0 < n < SeqLen(q[0]) && n - SynLen(q[0]) <= |q[0].data|
    requires !r.syn && r.fin == q[0].fin && r.data == q[0].data[n - SynLen(q[0])..] && r.seqno == Wrap(s.isn + at + n)
    ensures Row(s, at + n, [r] + q[1..]) && RowEnd(at + n, [r] + q[1..]) == RowEnd(at, q) && AllLive([r] + q[1..])
    ensures at + n <= RowEnd(at, q)
  {
    TrimInPlace(s, at, q[0], n, r);
    RowBounded(s, at + SeqLen(q[0]), q[1..]);
    assert ([r] + q[1..])[1..] == q[1..];
  }

  lemma {:induction false} TrimInPlace(s: Space, at: nat, k: Skb, n: nat, r: Skb)
    requires InPlace(s, at, k) && 0 < n < SeqLen(k) && n - SynLen(k) <= |k.data|
    requires !r.syn && r.fin == k.fin && r.data == k.data[n - SynLen(k)..] && r.seqno == Wrap(s.isn + at + n)
    ensures InPlace(s, at + n, r) && SeqLen(r) == SeqLen(k) - n
  {
    TrimUnits(k, n, r);
    HoldsSub(s, at, Units(k), n, SeqLen(k));
  }

  /** Opening the connection: the SYN takes the first number. */
  lemma {:induction false} SynKeeps(v: View, h: History)
    requires Good(v, h) && h.space.units == [] && !v.closed
    ensures Good(v.(rtq := [Skb(v.nxt, [], true, false)], sndq := [], nxt := Add(v.nxt, 1), end := Add(v.end, 1)),
                 h.(space := Grown(h.space, [Syn]), nx := 1))
  {
    var k := Skb(v.nxt, [], true, false);
    assert Units(k) == [Syn];
    var s' := Grown(h.space, [Syn]);
    assert s'.units == [Syn];
    RowOne(s', 0, k);
    WrapAdd(h.space.isn, 1);
    assert DataFrom([Syn], 0) == 0;
    WireKept(h.space, h.wire, [Syn]);
  }

  /** Inside the window, the budget computed modulo 2^32 is the true room left in it. */
  lemma {:induction false} BudgetExact(v: View, h: History, win: nat)
    requires Good(v, h) && v.sndq != [] && 0 < win < HALF && !Geq(v.sndq[0].seqno, Add(v.una, win))
    ensures h.nx - h.ua < win && Sub(Add(v.una, win), v.sndq[0].seqno) == h.ua + win - h.nx
  {
    var isn := h.space.isn;
    SpanSmall(v, h);
    WrapAdd(isn + h.ua, win);
    Compare(isn + h.nx, isn + h.ua + win);
    WrapSub(isn + h.ua + win, isn + h.nx);
  }

  /** The test before it, exactly: the first unsent number lies at or past the end of the window. */
  lemma {:induction false} WindowTest(v: View, h: History, win: nat)
    requires Good(v, h) && v.sndq != [] && win < HALF
    ensures win == 0 || Geq(v.sndq[0].seqno, Add(v.una, win)) <==> h.ua + win <= h.nx
  {
    var isn := h.space.isn;
    SpanSmall(v, h);
    WrapAdd(isn + h.ua, win);
    Compare(isn + h.nx, isn + h.ua + win);
  }

  /** The same for the oldest segment, which starts at una: only a closed window keeps it back. */
  lemma {:induction false} AgainTest(v: View, h: History, win: nat)
    requires Good(v, h) && v.rtq != [] && win < HALF
    ensures win == 0 || Geq(v.rtq[0].seqno, Add(v.una, win)) <==> win == 0
    ensures Sub(Add(v.una, win), v.rtq[0].seqno) == win
  {
    var isn := h.space.isn;
    WrapAdd(isn + h.ua, win);
    Compare(isn + h.ua, isn + h.ua + win);
    WrapSub(isn + h.ua + win, isn + h.ua);
  }

  /** Packets that carry the numbers from one place to another, one after the other. */
  predicate Follow(ws: seq<Segment>, from: nat, to: nat) {
    if ws == [] then from == to else ws[0].at == from && Follow(ws[1..], from + |ws[0].units|, to)
  }

  lemma {:induction false} FollowAppend(ws: seq<Segment>, w: Segment, from: nat, mid: nat)
    requires Follow(ws, from, mid) && w.at == mid
    ensures Follow(ws + [w], from, mid + |w.units|)
    decreases |ws|
  {
    if ws == [] {
      assert [w][1..] == [];
    } else {
      FollowAppend(ws[1..], w, from + |ws[0].units|, mid);
      assert (ws + [w])[1..] == ws[1..] + [w];
    }
  }

  lemma {:induction false} FollowMore(start: seq<Segment>, before: seq<Segment>, after: seq<Segment>,
                                      from: nat, mid: nat, to: nat)
    requires start <= before && Follow(before[|start|..], from, mid) && mid <= to
             && OneMore(before, after, mid, to - mid)
    ensures start <= after && Follow(after[|start|..], from, to) && |after| == |before| + 1
  {
    var w :| after == before + [w] && w.at == mid && |w.units| == to - mid;
    assert after[|start|..] == before[|start|..] + [w];
    FollowAppend(before[|start|..], w, from, mid);
  }

  // ---------------------------------------------------------------- the protocol control block

  class Sender {
    var una: int
    var nxt: int
    var end: int
    var rtq: seq<Skb>          // retransmit_queue
    var sndq: seq<Skb>         // send_queue
    var bufLen: nat            // send_buffer_len
    var bufMax: nat            // send_buffer_len_max
    var closed: bool           // close_send
    var wnd: nat
    var cwnd: nat
    var mss: nat
    var limit: nat             // payload per segment: mss less the options
    var cork: bool
    ghost var h: History

    function V(): View
      reads this
    {
      View(una, nxt, end, rtq, sndq, bufLen, closed)
    }

    ghost predicate Valid()
      reads this
    {
      Good(V(), h) && wnd < HALF && bufMax <= HALF - 3 && limit > 0
    }

    constructor (iss: nat, max: nat, snd_mss: nat, seg_limit: nat, window: nat)
      requires iss < MOD && max <= HALF - 3 && seg_limit > 0 && window < HALF
      ensures Valid() && h == History(Space(iss, []), 0, 0, [])
    {
      una, nxt, end := iss, iss, iss;
      rtq, sndq, bufLen, bufMax, closed := [], [], 0, max, false;
      wnd, cwnd, mss, limit, cork := window, 0, snd_mss, seg_limit, false;
      h := History(Space(iss, []), 0, 0, []);
    }

    /** Build and submit one packet: a copy of the segment cut to the budget (tcp_xmit_segment).
        The output path may refuse it.  Here and below, `healthy` says that no allocation fails and that
        the output path takes every packet. */
    method XmitSegment(k: Skb, budget: nat, healthy: bool, ghost at: nat) returns (ok: bool)
      requires Valid() && InPlace(h.space, at, k) && (k.syn ==> budget > 0)
      modifies this`h
      ensures Valid()
      ensures h == if ok then old(h).(wire := old(h).wire + [Segment(at, k.seqno, Units(k)[..Min(budget, SeqLen(k))])])
                   else old(h)
      ensures healthy ==> ok
    {
      var b := Min(budget, SeqLen(k));
      var payload := if b > SynLen(k) then b - SynLen(k) else 0;
      var sent := Skb(k.seqno, k.data[..Min(|k.data|, payload)], k.syn, k.fin && b > SynLen(k) + |k.data|);
      SentUnits(k, b, sent);
      ok := *;
      ok := ok || healthy;
      if ok {
        HoldsSub(h.space, at, Units(k), 0, b);
        EmitKeeps(V(), h, Segment(at, sent.seqno, Units(sent)));
        h := h.(wire := h.wire + [Segment(at, sent.seqno, Units(sent))]);
      }
    }

    /** Queue a segment that has been sent; small plain ones are merged into the previous one when
        there is room (tcp_retransmit_enqueue). */
    method RetransmitEnqueue(k: Skb, ghost at: nat)
      requires Row(h.space, h.ua, rtq) && AllLive(rtq) && RowEnd(h.ua, rtq) == at && InPlace(h.space, at, k)
      modifies this`rtq
      ensures Row(h.space, h.ua, rtq) && AllLive(rtq) && RowEnd(h.ua, rtq) == at + SeqLen(k)
    {
      if SeqLen(k) == 0 {
        return;
      }
      if rtq != [] {
        var last := rtq[|rtq| - 1];
        RowLast(h.space, h.ua, rtq);
        WrapAdd(h.space.isn + at - SeqLen(last), SeqLen(last));
        assert Add(last.seqno, SeqLen(last)) == k.seqno;
        var room := *;
        if !k.fin && !k.syn && !last.fin && !last.syn && |k.data| <= mss / 3 && |last.data| + |k.data| <= mss && room {
          RowMerge(h.space, h.ua, rtq, k);
          rtq := rtq[..|rtq| - 1] + [last.(data := last.data + k.data)];
          return;
        }
      }
      RowAppend(h.space, h.ua, rtq, k);
      rtq := rtq + [k];
    }

    /** Make the first unsent segment exactly n numbers long, moving the rest into a segment behind
        it.  Fails without effect when no buffer is to be had or nothing would be left in front. */
    method SplitFirst(n: nat, healthy: bool) returns (ok: bool)
      requires Valid() && sndq != [] && n < SeqLen(sndq[0])
      modifies this`sndq
      ensures Valid() && (!ok ==> sndq == old(sndq))
      ensures ok ==> |sndq| == |old(sndq)| + 1 && SeqLen(sndq[0]) == n
      ensures healthy && (n > 0 || sndq[0].data == []) ==> ok
    {
      var k := sndq[0];
      var m := Min(|k.data|, n);
      ok := *;
      ok := ok || healthy;
      if !ok || (m == 0 && |k.data| > 0) {
        return false;
      }
      var head := Skb(k.seqno, k.data[..m], false, k.fin && n > |k.data|);
      var tail := Skb(Add(k.seqno, n), k.data[m..], false, k.fin);
      CutKeeps(V(), h, n, head, tail);
      sndq := [head, tail] + sndq[1..];
    }

    /** Book the first unsent segment as sent: advance nxt and move it to the retransmit queue. */
    method CommitFirst()
      requires Valid() && sndq != []
      modifies this`h, this`rtq, this`sndq, this`nxt
      ensures Valid() && sndq == old(sndq[1..])
      ensures h == old(h).(nx := old(h).nx + SeqLen(old(sndq[0])))
    {
      ghost var v := V();
      var k := sndq[0];
      nxt := Add(nxt, SeqLen(k));
      sndq := sndq[1..];
      RetransmitEnqueue(k, h.nx);
      SendKeeps(v, h, rtq);
      h := h.(nx := h.nx + SeqLen(k));
      assert V() == v.(rtq := rtq, sndq := v.sndq[1..], nxt := Add(v.nxt, SeqLen(k)));
    }

    /** Send the first unsent segment, or as much of it as the budget allows (tcp_xmit_new_skb).
        A segment that must be cut is cut first; if output then fails the two parts stay queued. */
    method XmitNew(budget: nat, healthy: bool) returns (ok: bool)
      requires Valid() && sndq != []
      modifies this`h, this`rtq, this`sndq, this`nxt
      ensures Valid() && h.space == old(h.space) && h.ua == old(h.ua)
      ensures h.nx == old(h.nx) + if ok then Min(budget, SeqLen(old(sndq[0]))) else 0
      ensures ok && budget >= SeqLen(old(sndq[0])) ==> sndq == old(sndq[1..])
      ensures ok ==> exists w :: h.wire == old(h.wire) + [w] && w.at == old(h.nx) && |w.units| == h.nx - old(h.nx)
      ensures !ok ==> h.wire == old(h.wire) && rtq == old(rtq)
      ensures healthy && (budget > 0 || old(sndq[0]).data == []) ==> ok
    {
      var k := sndq[0];
      var b := Min(budget, SeqLen(k));
      if b < SeqLen(k) {
        ok := SplitFirst(b, healthy);
        if !ok {
          return;
        }
      }
      k := sndq[0];
      ghost var w := Segment(h.nx, k.seqno, Units(k)[..Min(b, SeqLen(k))]);
      ok := XmitSegment(k, b, healthy, h.nx);
      if ok {
        assert h.wire == old(h.wire) + [w];
        CommitFirst();
      }
    }

    /** Nothing more may go out now: the window is used up, or what is left is one short segment that is
        held back. */
    predicate HoldsBack(flush: bool)
      reads this
    {
      cork && !flush && |sndq| == 1 && !sndq[0].fin && |sndq[0].data| < limit
    }

    /** Send queued segments while the window allows, at most a burst (tcp_write_xmit).  The packets follow
        each other from nxt on, inside the window that starts at the oldest unacknowledged number; and
        unless output fails, all goes out that window, burst and cork allow. */
    method WriteXmit(flush: bool, healthy: bool) returns (ok: bool)
      requires Valid()
      modifies this`h, this`rtq, this`sndq, this`nxt
      ensures Valid() && h.space == old(h.space) && h.ua == old(h.ua)
      ensures old(h.nx) <= h.nx && (h.nx > old(h.nx) ==> h.nx - h.ua <= Min(wnd, cwnd))
      ensures old(h.wire) <= h.wire && |h.wire| <= |old(h.wire)| + BURST_MAX
      ensures Follow(h.wire[|old(h.wire)|..], old(h.nx), h.nx)
      ensures ok ==> || sndq == [] || h.ua + Min(wnd, cwnd) <= h.nx || HoldsBack(flush)
                     || |h.wire| == |old(h.wire)| + BURST_MAX
      ensures healthy ==> ok
    {
      ok := true;
      var win := Min(wnd, cwnd);
      var sent := 0;
      assert h.wire[|h.wire|..] == [];
      while sndq != [] && sent < BURST_MAX
        invariant Valid() && h.space == old(h.space) && h.ua == old(h.ua) && ok
        invariant old(h.nx) <= h.nx && (h.nx > old(h.nx) ==> h.nx - h.ua <= win)
        invariant old(h.wire) <= h.wire && |h.wire| == |old(h.wire)| + sent <= |old(h.wire)| + BURST_MAX
        invariant Follow(h.wire[|old(h.wire)|..], old(h.nx), h.nx)
        decreases BURST_MAX - sent
      {
        var k := sndq[0];
        var windowEnd := Add(una, win);
        WindowTest(V(), h, win);
        if win == 0 || Geq(k.seqno, windowEnd) {
          break;
        }
        if cork && !flush && !k.fin && |sndq| == 1 && |k.data| < limit {
          break;
        }
        BudgetExact(V(), h, win);
        var budget := Min(SeqLen(k), Sub(windowEnd, k.seqno));
        ghost var wire, nx := h.wire, h.nx;
        ok := XmitNew(budget, healthy);
        if !ok {
          return;
        }
        FollowMore(old(h.wire), wire, h.wire, old(h.nx), nx, h.nx);
        sent := sent + 1;
      }
    }

    /** A retransmission has to wait: it is no probe, and no SYN, and the window is closed. */
    predicate Blocked(probe: bool)
      requires rtq != []
      reads this
    {
      !probe && !rtq[0].syn && Min(wnd, cwnd) == 0
    }

    /** How much of the oldest segment a retransmission carries. */
    function RetransmitLen(probe: bool): nat
      requires rtq != []
      reads this
    {
      if probe then 1 else if rtq[0].syn then SeqLen(rtq[0]) else Min(SeqLen(rtq[0]), Min(wnd, cwnd))
    }

    /** Send a queued segment again, cut to the window, or one number of it as a probe
        (tcp_retransmit_skb on the head of the queue). */
    method Retransmit(probe: bool, healthy: bool) returns (ok: bool)
      requires Valid() && rtq != []
      modifies this`h
      ensures Valid() && h.space == old(h.space) && h.ua == old(h.ua) && h.nx == old(h.nx)
      ensures !ok || Blocked(probe) ==> h.wire == old(h.wire)
      ensures ok && !Blocked(probe) ==> OneMore(old(h.wire), h.wire, h.ua, RetransmitLen(probe))
      ensures h.ua + RetransmitLen(probe) <= h.nx && (healthy ==> ok)
    {
      var k := rtq[0];
      RowBounded(h.space, h.ua + SeqLen(k), rtq[1..]);
      var budget := SeqLen(k);
      if probe {
        budget := Min(budget, 1);
      } else if !k.syn {
        var win := Min(wnd, cwnd);
        var windowEnd := Add(una, win);
        AgainTest(V(), h, win);
        if win == 0 || Geq(k.seqno, windowEnd) {
          return true;
        }
        budget := Min(budget, Sub(windowEnd, k.seqno));
      }
      ghost var w := Segment(h.ua, k.seqno, Units(k)[..Min(budget, SeqLen(k))]);
      ok := XmitSegment(k, budget, healthy, h.ua);
      assert ok ==> h.wire == old(h.wire) + [w] && w.at == h.ua;
    }

    /** Open the connection: the SYN is queued for retransmission and sent (tcp_send_flag). */
    method Open(healthy: bool) returns (ok: bool)
      requires Valid() && h.space.units == [] && sndq == [] && !closed
      modifies this`h, this`rtq, this`nxt, this`end
      ensures Valid() && (ok ==> h.space.units == [Syn]) && (!ok ==> V() == old(V()) && h == old(h))
      ensures healthy ==> ok && OneMore(old(h.wire), h.wire, 0, 1)
    {
      ok := *;
      ok := ok || healthy;
      if ok {
        SynKeeps(V(), h);
        var k := Skb(nxt, [], true, false);
        rtq, nxt, end := [k], Add(nxt, 1), Add(end, 1);
        h := h.(space := Grown(h.space, [Syn]), nx := 1);
        ghost var w := Segment(0, k.seqno, Units(k)[..Min(1, SeqLen(k))]);
        var sent := XmitSegment(k, 1, healthy, 0);
        assert sent ==> h.wire == old(h.wire) + [w];
      }
    }

    /** One round of the release loop: drop the first sent segment if it is acknowledged in full,
        trim it if in part.  `g` is the history with ua where that segment starts. */
    method ReleaseFirst(ack: int, ghost g: History, ghost target: nat) returns (more: bool, ghost g': History)
      requires rtq != [] && Good(V().(una := Wrap(g.space.isn + g.ua)), g)
      requires g.ua <= target <= g.nx && ack == Wrap(g.space.isn + target)
      modifies this`rtq, this`bufLen
      ensures g' == g.(ua := g'.ua) && g'.ua <= target && (!more ==> g'.ua == target)
      ensures Good(V().(una := Wrap(g.space.isn + g'.ua)), g')
      ensures more ==> |rtq| < |old(rtq)|
    {
      AckCompares(V().(una := Wrap(g.space.isn + g.ua)), g, target);
      var k := rtq[0];
      if !Gt(ack, k.seqno) {
        return false, g;
      }
      if Geq(ack, Add(k.seqno, SeqLen(k))) {
        PopFirst(g);
        return true, g.(ua := g.ua + SeqLen(k));
      }
      TrimFirst(ack, Sub(ack, k.seqno), g);
      return false, g.(ua := target);
    }

    /** The first segment is acknowledged in full. */
    method PopFirst(ghost g: History)
      requires rtq != [] && Good(V().(una := Wrap(g.space.isn + g.ua)), g)
      modifies this`rtq, this`bufLen
      ensures rtq == old(rtq)[1..]
      ensures var n := SeqLen(old(rtq)[0]); Good(V().(una := Wrap(g.space.isn + g.ua + n)), g.(ua := g.ua + n))
    {
      PopAcked(V().(una := Wrap(g.space.isn + g.ua)), g);
      rtq, bufLen := rtq[1..], bufLen - |rtq[0].data|;
    }

    /** Or its first `consumed` numbers are: the SYN, then payload. */
    method TrimFirst(ack: int, consumed: nat, ghost g: History)
      requires rtq != [] && Good(V().(una := Wrap(g.space.isn + g.ua)), g) && 0 < consumed < SeqLen(rtq[0])
      requires consumed - SynLen(rtq[0]) <= |rtq[0].data| && ack == Wrap(g.space.isn + g.ua + consumed)
      modifies this`rtq, this`bufLen
      ensures Good(V().(una := ack), g.(ua := g.ua + consumed))
    {
      var k := rtq[0];
      var payload := consumed - SynLen(k);
      var rest := Skb(ack, k.data[payload..], false, k.fin);
      TrimAcked(V().(una := Wrap(g.space.isn + g.ua)), g, consumed, rest);
      rtq, bufLen := [rest] + rtq[1..], bufLen - payload;
    }

    /** tcp_update_retransmit_queue: release everything below the acknowledged number. */
    method UpdateRetransmitQueue(ack: int, ghost target: nat) returns (ghost g: History)
      requires Good(V().(una := Wrap(h.space.isn + h.ua)), h)
      requires h.ua <= target <= h.nx && ack == Wrap(h.space.isn + target)
      modifies this`rtq, this`bufLen
      ensures g == h.(ua := target) && Good(V().(una := ack), g)
    {
      g := h;
      var more := true;
      while rtq != [] && more
        invariant g == h.(ua := g.ua) && g.ua <= target && (!more ==> g.ua == target)
        invariant Good(V().(una := Wrap(g.space.isn + g.ua)), g)
        decreases more, |rtq|
      {
        more, g := ReleaseFirst(ack, g, target);
      }
    }

    /** An acknowledgment arrives: una moves to it and the acknowledged part of the retransmit queue
        is released, the last piece possibly in part. */
    method Acknowledge(ack: int)
      requires Valid() && 0 <= ack < MOD
      modifies this`h, this`una, this`rtq, this`bufLen
      ensures Valid()
      ensures h == if AckPasses(ack, old(una), nxt, wnd) then old(h).(ua := old(h).ua + Sub(ack, old(una))) else old(h)
      ensures !AckPasses(ack, old(una), nxt, wnd) ==> V() == old(V())
    {
      if !AckPasses(ack, una, nxt, wnd) {
        return;
      }
      SpanSmall(V(), h);
      AckNamesSentNumber(h.space.isn + h.ua, h.nx - h.ua, ack, wnd);
      ghost var target := h.ua + Sub(ack, una);
      una := ack;
      ghost var g := UpdateRetransmitQueue(ack, target);
      h := g;
    }

    method OpenLast()
      requires Valid()
      modifies this`sndq
      ensures Valid() && sndq == old(sndq) + [Skb(end, [], false, false)]
    {
      OpenKeeps(V(), h);
      sndq := sndq + [Skb(end, [], false, false)];
    }

    method ExtendLast(d: seq<Byte>)
      requires Valid() && !closed && sndq != [] && bufLen + |d| <= HALF - 3
      modifies this`h, this`sndq, this`end, this`bufLen
      ensures Valid() && h == old(h).(space := Grown(old(h).space, Octets(d))) && bufLen == old(bufLen) + |d|
    {
      ghost var v := V();
      ExtendKeeps(v, h, d);
      var last := sndq[|sndq| - 1];
      sndq := sndq[..|sndq| - 1] + [last.(data := last.data + d)];
      end, bufLen := Add(end, |d|), bufLen + |d|;
      h := h.(space := Grown(h.space, Octets(d)));
      assert V() == Extended(v, d);
    }

    /** One round of the write loop: open a new segment if the last one has no room for the chunk,
        then append; either allocation may fail. */
    method AppendChunk(d: seq<Byte>, healthy: bool) returns (ok: bool)
      requires Valid() && !closed && bufLen + |d| <= HALF - 3
      modifies this`h, this`sndq, this`end, this`bufLen
      ensures Valid()
      ensures h == (if ok then old(h).(space := Grown(old(h).space, Octets(d))) else old(h))
      ensures bufLen == old(bufLen) + if ok then |d| else 0
      ensures healthy ==> ok
    {
      if sndq == [] || |sndq[|sndq| - 1].data| + |d| > limit {
        ok := *;
        ok := ok || healthy;
        if !ok {
          return;
        }
        OpenLast();
      }
      ok := *;
      ok := ok || healthy;
      if ok {
        ExtendLast(d);
      }
    }

    /** tcp_write: number as many octets as the send buffer takes, in segments of at most `limit`;
        a failing allocation ends the loop early. */
    method Write(buf: seq<Byte>, healthy: bool) returns (taken: nat)
      requires Valid()
      modifies this`h, this`sndq, this`end, this`bufLen
      ensures Valid() && taken <= |buf|
      ensures h == old(h).(space := Grown(old(h).space, Octets(buf[..taken])))
      ensures bufLen == old(bufLen) + taken
      ensures taken > 0 ==> !closed && bufLen <= bufMax
      ensures healthy ==> taken == if closed || old(bufLen) >= bufMax then 0 else Min(|buf|, bufMax - old(bufLen))
    {
      taken := 0;
      assert Grown(h.space, Octets(buf[..0])) == h.space;
      if closed || bufLen >= bufMax {
        return;
      }
      var len := Min(|buf|, bufMax - bufLen);
      while taken < len
        invariant taken <= len && Valid()
        invariant h == old(h).(space := Grown(old(h).space, Octets(buf[..taken])))
        invariant bufLen == old(bufLen) + taken
      {
        var chunk := Min(len - taken, limit);
        var ok := AppendChunk(buf[taken..taken + chunk], healthy);
        if !ok {
          break;
        }
        OctetsSplit(buf, taken, chunk, old(h).space);
        taken := taken + chunk;
      }
    }

    method MarkFin()
      requires Valid() && !closed && sndq != []
      modifies this`h, this`sndq, this`end, this`closed
      ensures Valid() && closed && h == old(h).(space := Grown(old(h).space, [Fin]))
    {
      FinKeeps(V(), h);
      var last := sndq[|sndq| - 1];
      sndq := sndq[..|sndq| - 1] + [last.(fin := true)];
      end, closed := Add(end, 1), true;
      h := h.(space := Grown(h.space, [Fin]));
    }

    /** tcp_send_fin: the FIN goes on the last unsent segment, or on one made for it. */
    method SendFin(healthy: bool) returns (ok: bool)
      requires Valid() && !closed
      modifies this`h, this`sndq, this`end, this`closed
      ensures Valid() && closed
      ensures h == if ok then old(h).(space := Grown(old(h).space, [Fin])) else old(h)
      ensures healthy || old(sndq) != [] ==> ok
    {
      if sndq == [] {
        ok := *;
        ok := ok || healthy;
        if !ok {
          closed := true;
          return;
        }
        OpenLast();
      }
      MarkFin();
      ok := true;
    }

    /** tcp_send_probe: one number of the oldest segment that is not acknowledged. */
    method Probe(healthy: bool) returns (ok: bool)
      requires Valid() && (rtq != [] || sndq != [])
      modifies this`h, this`rtq, this`sndq, this`nxt
      ensures Valid() && h.space == old(h.space) && h.ua == old(h.ua)
      ensures !ok ==> h.wire == old(h.wire) && h.nx == old(h.nx)
      ensures ok && old(rtq) != [] ==> h.nx == old(h.nx) && OneMore(old(h.wire), h.wire, h.ua, 1)
      ensures ok && old(rtq) == [] ==> && h.nx == old(h.nx) + Min(SeqLen(old(sndq[0])), 1)
                                       && OneMore(old(h.wire), h.wire, h.ua, Min(SeqLen(old(sndq[0])), 1))
      ensures healthy ==> ok
    {
      if rtq != [] {
        ok := Retransmit(true, healthy);
      } else {
        assert h.ua == h.nx;
        ok := XmitNew(Min(SeqLen(sndq[0]), 1), healthy);
      }
    }
  }

  /** One more packet, with n numbers from place `at` on. */
  ghost predicate OneMore(before: seq<Segment>, after: seq<Segment>, at: nat, n: nat) {
    exists w :: after == before + [w] && w.at == at && |w.units| == n
  }

  lemma {:induction false} OctetsSplit(buf: seq<Byte>, taken: nat, chunk: nat, s: Space)
    requires taken + chunk <= |buf|
    ensures Grown(Grown(s, Octets(buf[..taken])), Octets(buf[taken..taken + chunk]))
         == Grown(s, Octets(buf[..taken + chunk]))
  {
    assert Octets(buf[..taken]) + Octets(buf[taken..taken + chunk]) == Octets(buf[..taken + chunk]);
    assert s.units + Octets(buf[..taken]) + Octets(buf[taken..taken + chunk])
        == s.units + (Octets(buf[..taken]) + Octets(buf[taken..taken + chunk]));
  }

  /** The comparisons of the release loop, on the segment that starts at h.ua. */
  lemma {:induction false} AckCompares(v: View, h: History, target: nat)
    requires Good(v, h) && v.rtq != [] && h.ua <= target <= h.nx
    ensures var k := v.rtq[0];
            var ack := Wrap(h.space.isn + target);
            && (Gt(ack, k.seqno) <==> target > h.ua)
            && (Geq(ack, Add(k.seqno, SeqLen(k))) <==> target >= h.ua + SeqLen(k))
            && Sub(ack, k.seqno) == target - h.ua
            && (target < h.ua + SeqLen(k) ==> target - h.ua - SynLen(k) <= |k.data|)
  {
    var k, isn := v.rtq[0], h.space.isn;
    SpanSmall(v, h);
    RowBounded(h.space, h.ua + SeqLen(k), v.rtq[1..]);
    WrapAdd(isn + h.ua, SeqLen(k));
    Compare(isn + target, isn + h.ua);
    Compare(isn + target, isn + h.ua + SeqLen(k));
    WrapSub(isn + target, isn + h.ua);
  }
}
