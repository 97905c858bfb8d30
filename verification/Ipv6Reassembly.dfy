/** ipv6_defrag and ipv6_frag of main/ipv6_ext.c on real buffers: the queue table, the loops over the
    fragment list, and the joining and splitting of buffer chains. */
module Ipv6Reassembly {
  import opened Common
  import opened Skbuff
  import Q = Ipv6Queue
  import W = Ipv6Wire

  /** One ipq6_frag: offset in 8-octet units, payload length, and the buffer with all its headers. */
  datatype Held = Held(off8: nat, len: nat, skb: Skb)

  /** One ipq6. */
  datatype Ipq = Ipq(unfrag: nat, prev: nat, nh: Byte, total: nat, received: nat,
                     last: bool, first: bool, frags: seq<Held>)

  // ---------------------------------------------------------------- what a queue stands for

  /** What is left of a buffer once so many octets are stripped from its front. */
  function BufOf(s: Skb, strip: nat): Q.Buf {
    if WellFormed(s) then var c := Consume(s, strip); Q.Buf(c.num, c.chain[0].pre) else Q.Buf(0, 0)
  }

  function PieceOf(h: Held, unfrag: nat): Q.Piece {
    var b := Bytes(h.skb.chain);
    Q.Piece(h.off8 * 8, if unfrag <= |b| then b[..unfrag] else [],
            if unfrag + W.FRAG_HDR <= |b| then b[unfrag + W.FRAG_HDR..] else [], BufOf(h.skb, unfrag + W.FRAG_HDR))
  }

  function PiecesOf(frags: seq<Held>, unfrag: nat): seq<Q.Piece> {
    if frags == [] then [] else [PieceOf(frags[0], unfrag)] + PiecesOf(frags[1..], unfrag)
  }

  function QueueOf(q: Ipq): Q.Queue {
    Q.Queue(q.unfrag, q.prev, q.nh, q.total, q.received, q.last, q.first, PiecesOf(q.frags, q.unfrag))
  }

  predicate HeldOk(h: Held, unfrag: nat) {
    WellFormed(h.skb) && h.len > 0 && |Bytes(h.skb.chain)| == unfrag + W.FRAG_HDR + h.len
  }

  predicate AllHeld(frags: seq<Held>, unfrag: nat) {
    frags == [] || (HeldOk(frags[0], unfrag) && AllHeld(frags[1..], unfrag))
  }

  predicate QueueOk(q: Ipq) {
    Q.HDR <= q.unfrag && q.prev < q.unfrag && AllHeld(q.frags, q.unfrag) && Q.Inv(QueueOf(q))
  }

  lemma {:induction false} PiecesCons(h: Held, rest: seq<Held>, unfrag: nat)
    ensures PiecesOf([h] + rest, unfrag) == [PieceOf(h, unfrag)] + PiecesOf(rest, unfrag)
    ensures AllHeld([h] + rest, unfrag) == (HeldOk(h, unfrag) && AllHeld(rest, unfrag))
  {
    assert ([h] + rest)[1..] == rest;
  }

  /** The abstract list, entry by entry. */
  lemma {:induction false} HeldAt(frags: seq<Held>, unfrag: nat, i: nat)
    requires AllHeld(frags, unfrag)
    ensures |PiecesOf(frags, unfrag)| == |frags|
    ensures i < |frags| ==> && HeldOk(frags[i], unfrag) && PiecesOf(frags, unfrag)[i] == PieceOf(frags[i], unfrag)
                            && Q.End(PiecesOf(frags, unfrag)[i]) == frags[i].off8 * 8 + frags[i].len
    decreases |frags|
  {
    if frags != [] { HeldAt(frags[1..], unfrag, if i > 0 then i - 1 else 0); }
  }

  // ---------------------------------------------------------------- the loops

  /** find_frag_header, with skb_copy_bits as a slice of the flat octets. */
  method FindHeader(b: seq<Byte>) returns (r: Option<W.Info>)
    ensures r == W.FindFragHeader(b)
  {
    if |b| < Q.HDR { return None; }
    var nh: Byte, offset: nat, prev: nat := b[W.NH_OFFSET], Q.HDR, W.NH_OFFSET;
    for i := 0 to W.ROUNDS
      invariant offset <= |b| && W.FindFrom(b, nh, offset, prev, W.ROUNDS - i) == W.FindFragHeader(b)
    {
      if nh == W.FRAG {
        if offset + W.FRAG_HDR > |b| { return None; }
        return Some(W.Info(offset, prev));
      }
      if !W.IsVariable(nh) { return None; }
      if offset + 2 > |b| { return None; }
      var len := (b[offset + 1] as nat + 1) * 8;
      if len > |b| - offset { return None; }
      nh, prev, offset := b[offset], offset, offset + len;
    }
    return None;
  }

  /** The loop that looks for an overlap and for octets beyond a last fragment's end. */
  method Scan(frags: seq<Held>, unfrag: nat, start: nat, end: nat, more: bool, ghost p: Q.Piece)
      returns (overlap: bool, beyond: bool)
    requires AllHeld(frags, unfrag) && start == p.off && end == Q.End(p)
    ensures overlap == Q.Overlaps(PiecesOf(frags, unfrag), p)
    ensures !overlap ==> beyond == (!more && Q.Beyond(PiecesOf(frags, unfrag), end))
  {
    ghost var all := PiecesOf(frags, unfrag);
    HeldAt(frags, unfrag, 0);
    overlap, beyond := false, false;
    assert all[0..] == all;
    for i := 0 to |frags|
      invariant Q.Overlaps(all, p) == Q.Overlaps(all[i..], p)
      invariant (!more && Q.Beyond(all, end)) == (beyond || (!more && Q.Beyond(all[i..], end)))
    {
      HeldAt(frags, unfrag, i);
      assert all[i..][1..] == all[i + 1..];
      var otherStart := frags[i].off8 * 8;
      var otherEnd := otherStart + frags[i].len;
      if !more && otherEnd > end { beyond := true; }
      if start < otherEnd && otherStart < end { return true, beyond; }
    }
  }

  lemma {:induction false} PiecesSplit(a: seq<Held>, b: seq<Held>, unfrag: nat)
    ensures PiecesOf(a + b, unfrag) == PiecesOf(a, unfrag) + PiecesOf(b, unfrag)
    ensures AllHeld(a + b, unfrag) == (AllHeld(a, unfrag) && AllHeld(b, unfrag))
    decreases |a|
  {
    if a == [] {
      assert a + b == b;
    } else {
      assert (a + b)[1..] == a[1..] + b;
      PiecesSplit(a[1..], b, unfrag);
    }
  }

  lemma {:induction false} InsertStep(all: seq<Q.Piece>, i: nat, p: Q.Piece)
    requires i < |all| && all[i].off < p.off
    ensures Prepend(all[..i], Q.Insert(all[i..], p)) == Prepend(all[..i + 1], Q.Insert(all[i + 1..], p))
  {
    assert all[i..][1..] == all[i + 1..];
    var rest := Q.Insert(all[i + 1..], p);
    assert rest.Some? ==> all[..i] + ([all[i]] + rest.value) == all[..i + 1] + rest.value;
  }

  lemma {:induction false} PiecesPrefix(frags: seq<Held>, unfrag: nat, i: nat)
    requires AllHeld(frags, unfrag) && i <= |frags| == |PiecesOf(frags, unfrag)|
    ensures PiecesOf(frags[..i], unfrag) == PiecesOf(frags, unfrag)[..i]
    ensures PiecesOf(frags[i..], unfrag) == PiecesOf(frags, unfrag)[i..]
    ensures AllHeld(frags[..i], unfrag) && AllHeld(frags[i..], unfrag)
  {
    assert frags == frags[..i] + frags[i..];
    PiecesSplit(frags[..i], frags[i..], unfrag);
    HeldAt(frags[..i], unfrag, 0);
  }

  /** The search loop of the sorted insertion. */
  method FindPlace(frags: seq<Held>, off8: nat, unfrag: nat, ghost p: Q.Piece) returns (i: nat)
    requires AllHeld(frags, unfrag) && p.off == off8 * 8
    ensures i <= |frags| == |PiecesOf(frags, unfrag)| && (i < |frags| ==> off8 <= frags[i].off8)
    ensures var all := PiecesOf(frags, unfrag);
            Q.Insert(all, p) == Prepend(all[..i], Q.Insert(all[i..], p))
  {
    ghost var all := PiecesOf(frags, unfrag);
    HeldAt(frags, unfrag, 0);
    i := 0;
    assert all[0..] == all && (Q.Insert(all, p).Some? ==> [] + Q.Insert(all, p).value == Q.Insert(all, p).value);
    while i < |frags| && frags[i].off8 < off8
      invariant i <= |frags| && Q.Insert(all, p) == Prepend(all[..i], Q.Insert(all[i..], p))
    {
      HeldAt(frags, unfrag, i);
      InsertStep(all, i, p);
      i := i + 1;
    }
  }

  /** Insertion sorted by offset. */
  method InsertHeld(frags: seq<Held>, h: Held, unfrag: nat) returns (r: Option<seq<Held>>)
    requires AllHeld(frags, unfrag) && HeldOk(h, unfrag)
    ensures r.Some? <==> Q.Insert(PiecesOf(frags, unfrag), PieceOf(h, unfrag)).Some?
    ensures r.Some? ==> AllHeld(r.value, unfrag)
                        && Some(PiecesOf(r.value, unfrag)) == Q.Insert(PiecesOf(frags, unfrag), PieceOf(h, unfrag))
  {
    ghost var p, all := PieceOf(h, unfrag), PiecesOf(frags, unfrag);
    var i := FindPlace(frags, h.off8, unfrag, p);
    HeldAt(frags, unfrag, i);
    assert i < |all| ==> all[i..][0].off == frags[i].off8 * 8;
    if i < |frags| && frags[i].off8 == h.off8 { return None; }
    assert Q.Insert(all[i..], p) == Some([p] + all[i..]);
    InsertedPieces(frags, h, unfrag, i);
    r := Some(frags[..i] + ([h] + frags[i..]));
  }

  lemma {:induction false} InsertedPieces(frags: seq<Held>, h: Held, unfrag: nat, i: nat)
    requires AllHeld(frags, unfrag) && HeldOk(h, unfrag) && i <= |frags| == |PiecesOf(frags, unfrag)|
    ensures var r, all := frags[..i] + ([h] + frags[i..]), PiecesOf(frags, unfrag);
            AllHeld(r, unfrag) && PiecesOf(r, unfrag) == all[..i] + ([PieceOf(h, unfrag)] + all[i..])
  {
    PiecesPrefix(frags, unfrag, i);
    InsertedParts(frags[..i], frags[i..], h, unfrag);
  }

  lemma {:induction false} InsertedParts(a: seq<Held>, b: seq<Held>, h: Held, unfrag: nat)
    ensures PiecesOf(a + ([h] + b), unfrag) == PiecesOf(a, unfrag) + ([PieceOf(h, unfrag)] + PiecesOf(b, unfrag))
    ensures AllHeld(a + ([h] + b), unfrag) == (AllHeld(a, unfrag) && HeldOk(h, unfrag) && AllHeld(b, unfrag))
  {
    PiecesSplit(a, [h] + b, unfrag);
    PiecesCons(h, b, unfrag);
  }

  // ---------------------------------------------------------------- one fragment into one queue

  datatype Step = KeptQueue(q: Ipq) | DroppedQueue | FullQueue(q: Ipq)

  /** The step agrees with the flat queue's. */
  predicate Agrees(s: Step, r: Q.Result) {
    match s
    case KeptQueue(q) => QueueOk(q) && r == Q.Kept(QueueOf(q))
    case DroppedQueue => r.Destroyed?
    case FullQueue(q) => QueueOk(q) && r == Q.Finish(QueueOf(q))
  }

  predicate Carries(h: Held, a: Q.Arrival) {
    HeldOk(h, a.unfrag) && PieceOf(h, a.unfrag) == a.piece && Q.HDR <= a.unfrag && a.prev < a.unfrag
  }

  /** From the header comparison to the completeness test of ipv6_defrag. */
  method Accept(q: Ipq, h: Held, more: bool, ghost a: Q.Arrival) returns (s: Step)
    requires QueueOk(q) && Carries(h, a) && a.more == more && Q.SameHeaders(QueueOf(q), a)
    ensures Agrees(s, Q.Arrive(Some(QueueOf(q)), a))
  {
    var start := h.off8 * 8;
    var end := start + h.len;
    assert end == Q.End(a.piece);
    var inconsistent := q.last && end > q.total;
    var overlap, beyond := Scan(q.frags, q.unfrag, start, end, more, a.piece);
    if overlap { return KeptQueue(q); }
    if inconsistent || beyond || (!more && q.last && q.total != end) { return DroppedQueue; }
    s := TakeIn(q, h, more, a);
  }

  /** The fragment goes into the list and is counted. */
  method TakeIn(q: Ipq, h: Held, more: bool, ghost a: Q.Arrival) returns (s: Step)
    requires QueueOk(q) && Carries(h, a) && a.more == more && Q.SameHeaders(QueueOf(q), a)
    requires !Q.Overlaps(QueueOf(q).frags, a.piece) && !Q.Refused(QueueOf(q), a)
    ensures Agrees(s, Q.Arrive(Some(QueueOf(q)), a))
  {
    Q.TakenKeeps(QueueOf(q), a);
    var r := InsertHeld(q.frags, h, q.unfrag);
    var t := q.(frags := r.value, received := q.received + h.len, last := q.last || !more,
                total := if more then q.total else h.off8 * 8 + h.len, first := q.first || h.off8 == 0);
    assert QueueOf(t) == Q.Taken(QueueOf(q), a, PiecesOf(r.value, q.unfrag));
    s := if t.first && t.last && t.received >= t.total then FullQueue(t) else KeptQueue(t);
  }

  // ---------------------------------------------------------------- joining a full queue

  lemma {:induction false} Stripped(h: Held, unfrag: nat)
    requires HeldOk(h, unfrag)
    ensures h.skb.num <= |h.skb.chain|
    ensures var c, p := Consume(h.skb, unfrag + W.FRAG_HDR), PieceOf(h, unfrag);
            && WellFormed(c) && 1 <= c.num == p.buf.nodes && c.chain[0].pre == p.buf.room && Bytes(c.chain) == p.data
  {
    ConsumeIs(h.skb, unfrag + W.FRAG_HDR);
  }

  /** What the collecting loop makes of the rest, with some octets collected before. */
  function Onto(done: seq<Byte>, rest: Option<(seq<Byte>, nat)>): Option<(seq<Byte>, nat)> {
    match rest
    case None => None
    case Some(r) => Some((done + r.0, r.1))
  }

  lemma {:induction false} CollectStep(done: seq<Byte>, all: seq<Q.Piece>, i: nat, at: nat, nodes: nat)
    requires i < |all|
    ensures Onto(done, Q.Collect(all[i..], at, nodes))
         == if all[i].off != at || nodes + all[i].buf.nodes > MAX_NODES then None
            else Onto(done + all[i].data, Q.Collect(all[i + 1..], Q.End(all[i]), nodes + all[i].buf.nodes))
  {
    assert all[i..][1..] == all[i + 1..];
    var rest := Q.Collect(all[i + 1..], Q.End(all[i]), nodes + all[i].buf.nodes);
    assert rest.Some? ==> done + (all[i].data + rest.value.0) == (done + all[i].data) + rest.value.0;
  }

  /** The buffer has these octets in so many nodes, and so much room in front. */
  predicate Joined(s: Skb, octets: seq<Byte>, nodes: nat, room: nat) {
    WellFormed(s) && s.num == nodes >= 1 && Bytes(s.chain) == octets && s.chain[0].pre == room
  }

  /** One more fragment: stripped of its headers and appended, unless nodes or memory run out. */
  method JoinOne(joined: Skb, h: Held, unfrag: nat, alloc: bool) returns (r: Option<Skb>)
    requires WellFormed(joined) && joined.num >= 1 && HeldOk(h, unfrag)
    ensures var p := PieceOf(h, unfrag);
            && (r.Some? ==> && joined.num + p.buf.nodes <= MAX_NODES
                            && Joined(r.value, Bytes(joined.chain) + p.data, joined.num + p.buf.nodes,
                                      joined.chain[0].pre))
            && (alloc && joined.num + p.buf.nodes <= MAX_NODES ==> r.Some?)
  {
    Stripped(h, unfrag);
    var next := Consume(h.skb, unfrag + W.FRAG_HDR);
    var ok := *;
    if joined.num + next.num > MAX_NODES || (!alloc && !ok) { return None; }
    AppendIs(joined, next);
    r := Append(joined, next);
  }

  /** Between two rounds of the collecting loop: what is joined, and the rest, make up the whole. */
  predicate Collecting(joined: Skb, all: seq<Q.Piece>, i: nat, at: nat, whole: Option<(seq<Byte>, nat)>) {
    && i <= |all| && all != [] && WellFormed(joined) && joined.num >= 1 && joined.chain[0].pre == all[0].buf.room
    && whole == Onto(Bytes(joined.chain), Q.Collect(all[i..], at, joined.num))
  }

  lemma {:induction false} CollectStops(joined: Skb, all: seq<Q.Piece>, i: nat, at: nat,
                                        whole: Option<(seq<Byte>, nat)>)
    requires i < |all| && Collecting(joined, all, i, at, whole)
    ensures all[i].off != at || joined.num + all[i].buf.nodes > MAX_NODES ==> whole == None
  {
    CollectStep(Bytes(joined.chain), all, i, at, joined.num);
  }

  lemma {:induction false} CollectMore(joined: Skb, all: seq<Q.Piece>, i: nat, at: nat,
                                       whole: Option<(seq<Byte>, nat)>, next: Skb)
    requires i < |all| && Collecting(joined, all, i, at, whole)
    requires all[i].off == at && joined.num + all[i].buf.nodes <= MAX_NODES
    requires Joined(next, Bytes(joined.chain) + all[i].data, joined.num + all[i].buf.nodes, joined.chain[0].pre)
    ensures Collecting(next, all, i + 1, Q.End(all[i]), whole)
  {
    CollectStep(Bytes(joined.chain), all, i, at, joined.num);
  }

  lemma {:induction false} CollectEnds(joined: Skb, all: seq<Q.Piece>, at: nat, whole: Option<(seq<Byte>, nat)>)
    requires Collecting(joined, all, |all|, at, whole)
    ensures whole == Some((Bytes(joined.chain), joined.num))
  {
    assert all[|all|..] == [] && Bytes(joined.chain) + [] == Bytes(joined.chain);
  }

  /** One round of the collecting loop. */
  method JoinNext(joined: Skb, h: Held, unfrag: nat, at: nat, alloc: bool,
                  ghost all: seq<Q.Piece>, ghost i: nat, ghost whole: Option<(seq<Byte>, nat)>) returns (r: Option<Skb>)
    requires HeldOk(h, unfrag) && i < |all| && all[i] == PieceOf(h, unfrag) && Collecting(joined, all, i, at, whole)
    ensures r.Some? ==> Collecting(r.value, all, i + 1, at + h.len, whole)
    ensures alloc && r == None ==> whole == None
  {
    CollectStops(joined, all, i, at, whole);
    if h.off8 * 8 != at { return None; }
    r := JoinOne(joined, h, unfrag, alloc);
    if r.Some? { CollectMore(joined, all, i, at, whole, r.value); }
  }

  /** The collecting loop: exactly the flat queue's, unless an allocation fails. */
  method Join(frags: seq<Held>, unfrag: nat, alloc: bool) returns (r: Option<Skb>)
    requires frags != [] && AllHeld(frags, unfrag)
    ensures |PiecesOf(frags, unfrag)| == |frags|
    ensures var all := PiecesOf(frags, unfrag);
            var c := Q.Collect(all[1..], |all[0].data|, all[0].buf.nodes);
            && (r.Some? ==> c.Some? && Joined(r.value, all[0].data + c.value.0, c.value.1, all[0].buf.room))
            && (alloc && c.Some? ==> r.Some?)
  {
    ghost var all := PiecesOf(frags, unfrag);
    HeldAt(frags, unfrag, 0);
    Stripped(frags[0], unfrag);
    var joined := Consume(frags[0].skb, unfrag + W.FRAG_HDR);
    ghost var whole := Onto(all[0].data, Q.Collect(all[1..], |all[0].data|, joined.num));
    var at: nat := frags[0].len;
    for i := 1 to |frags|
      invariant |all| == |frags| && Collecting(joined, all, i, at, whole)
    {
      HeldAt(frags, unfrag, i);
      var next := JoinNext(joined, frags[i], unfrag, at, alloc, all, i, whole);
      if next == None { return None; }
      joined, at := next.value, at + frags[i].len;
    }
    CollectEnds(joined, all, at, whole);
    r := Some(joined);
  }

  /** The result carries the rebuilt packet. */
  predicate Rebuilt(out: Skb, r: Q.Result)
    requires r.Complete?
  {
    && WellFormed(out) && Q.HDR <= |r.head| && r.q.prev < |r.head|
    && Bytes(out.chain) == W.Rebuild(r.head, r.q.prev, r.q.nh, r.payload)
  }

  /** The headers go in front of the joined payload, with next header and length put right, unless the
      packet would be too long or there is neither room nor a spare node. */
  method AddHeaders(joined: Skb, unfrag: seq<Byte>, prev: nat, nh: Byte, alloc: bool) returns (out: Option<Skb>)
    requires WellFormed(joined) && joined.num >= 1 && Q.HDR <= |unfrag| && prev < |unfrag|
    ensures out.Some? ==> WellFormed(out.value)
                          && Bytes(out.value.chain) == W.Rebuild(unfrag, prev, nh, Bytes(joined.chain))
    ensures var fits := && |unfrag| + joined.total <= Q.HDR + Q.MAX_PAYLOAD
                        && (|unfrag| <= joined.chain[0].pre || joined.num < MAX_NODES);
            (out.Some? ==> fits) && (alloc && fits ==> out.Some?)
  {
    var len := |unfrag| - Q.HDR + joined.total;
    if len > Q.MAX_PAYLOAD { return None; }
    var ok := *;
    if !alloc && !ok { return None; }
    var fill: seq<Byte> := unfrag[prev := nh][4 := W.Hi(len)][5 := W.Lo(len)];
    PushIs(joined, fill);
    out := Push(joined, fill);
  }

  /** From a queue that has received enough to the packet: exactly what the flat queue says, unless an
      allocation fails. */
  method Finish(q: Ipq, alloc: bool) returns (out: Option<Skb>)
    requires QueueOk(q)
    ensures out.Some? ==> Q.Finish(QueueOf(q)).Complete? && Rebuilt(out.value, Q.Finish(QueueOf(q)))
    ensures alloc && Q.Finish(QueueOf(q)).Complete? ==> out.Some?
  {
    if q.received != q.total { return None; }
    if q.frags == [] || q.unfrag > Q.MAX_UNFRAG { return None; }
    HeldAt(q.frags, q.unfrag, 0);
    var unfrag := Bytes(q.frags[0].skb.chain)[..q.unfrag];
    if q.frags[0].off8 != 0 { return None; }
    var joined := Join(q.frags, q.unfrag, alloc);
    if joined == None { return None; }
    out := AddHeaders(joined.value, unfrag, q.prev, q.nh, alloc);
  }

  // ---------------------------------------------------------------- the table of queues

  function Lookup(table: map<W.Key, Ipq>, key: W.Key): Option<Q.Queue> {
    if key in table then Some(QueueOf(table[key])) else None
  }

  /** The flat table a table stands for. */
  function Flat(table: map<W.Key, Ipq>): W.Table {
    map key | key in table :: QueueOf(table[key])
  }

  /** What happens to the table and what comes out is what the flat queue says: the queue is kept, or is
      gone; and a completed one yields the rebuilt packet, unless an allocation fails. */
  predicate Outcome(before: map<W.Key, Ipq>, after: map<W.Key, Ipq>, key: W.Key, r: Q.Result,
                    alloc: bool, out: Option<Skb>)
  {
    match r
    case Kept(q) => out == None && key in after && QueueOf(after[key]) == q && after - {key} == before - {key}
    case Destroyed => out == None && after == before - {key}
    case Complete(_, _, _) =>
      after == before - {key} && (out.Some? ==> Rebuilt(out.value, r)) && (alloc ==> out.Some?)
  }

  lemma {:induction false} OutcomeMoves(before: map<W.Key, Ipq>, after: map<W.Key, Ipq>, key: W.Key, r: Q.Result,
                                        alloc: bool, out: Option<Skb>)
    requires Outcome(before, after, key, r, alloc, out)
    ensures Flat(after) == W.Moved(Flat(before), key, r)
  {
    forall k | k != key
      ensures k in after <==> k in before
      ensures k in after ==> after[k] == before[k]
    {
      SameRest(before, after, key, k);
    }
    if r.Kept? {
      assert Flat(after) == Flat(before)[key := r.q];
    } else {
      assert Flat(after) == Flat(before) - {key};
    }
  }

  lemma {:induction false} SameRest(before: map<W.Key, Ipq>, after: map<W.Key, Ipq>, key: W.Key, k: W.Key)
    requires after - {key} == before - {key} && k != key
    ensures k in after <==> k in before
    ensures k in after ==> after[k] == before[k]
  {
    assert k in after <==> k in after - {key};
    assert k in before <==> k in before - {key};
    assert k in after ==> after[k] == (after - {key})[k];
  }

  class Reassembler {
    var table: map<W.Key, Ipq>

    predicate Valid()
      reads this
    {
      forall key :: key in table ==> QueueOk(table[key])
    }

    constructor ()
      ensures Valid() && table == map[]
    {
      table := map[];
    }

    /** Put the queue back, drop it, or turn it into the packet. */
    method Settle(key: W.Key, s: Step, alloc: bool, ghost r: Q.Result) returns (out: Option<Skb>)
      requires Valid() && Agrees(s, r)
      modifies this
      ensures Valid() && Outcome(old(table), table, key, r, alloc, out)
    {
      match s
      case KeptQueue(t) =>
        table := table[key := t];
        out := None;
        assert table - {key} == old(table) - {key};
      case DroppedQueue =>
        table := table - {key};
        out := None;
      case FullQueue(t) =>
        table := table - {key};
        out := Finish(t, alloc);
        assert r.Destroyed? || r.Complete?;
    }

    /** From the queue lookup of ipv6_defrag on. */
    method Enqueue(key: W.Key, a: Q.Arrival, skb: Skb, alloc: bool) returns (out: Option<Skb>)
      requires Valid() && a.piece.off % 8 == 0 && Carries(Held(a.piece.off / 8, |a.piece.data|, skb), a)
      modifies this
      ensures Valid()
      ensures Outcome(old(table), table, key, Q.Arrive(Lookup(old(table), key), a), alloc, out)
    {
      var h := Held(a.piece.off / 8, |a.piece.data|, skb);
      var q := if key in table then table[key] else Ipq(a.unfrag, a.prev, a.nh, 0, 0, false, false, []);
      ghost var r := Q.Arrive(Lookup(table, key), a);
      assert r == Q.Arrive(Some(QueueOf(q)), a);
      var s := DroppedQueue;
      if q.unfrag == a.unfrag && q.prev == a.prev && q.nh == a.nh {
        s := Accept(q, h, a.more, a);
      }
      out := Settle(key, s, alloc, r);
    }

    /** ipv6_defrag.  `alloc` says that no allocation fails; then the table moves as the flat one. */
    method Defrag(skb: Skb, alloc: bool) returns (out: Option<Skb>, p: W.Parsed)
      requires Valid() && WellFormed(skb)
      modifies this
      ensures Valid()
      ensures p == W.Parse(Bytes(skb.chain), PacketBuf(skb))
      ensures alloc ==> Flat(table) == W.After(Flat(old(table)), W.Received(Bytes(skb.chain), PacketBuf(skb)))
      ensures p.NoFragment? ==> out == None && table == old(table)
      ensures p.Unfragmented? ==> out == Some(skb) && table == old(table)
      ensures p.Fragment? ==> || Outcome(old(table), table, p.key, Q.Arrive(Lookup(old(table), p.key), p.arrival),
                                         alloc, out)
                              || (!alloc && out == None && table == old(table))
    {
      p := Examine(skb);
      match p
      case NoFragment => out := None;
      case Unfragmented => out := Some(skb);
      case Fragment(key, a) =>
        var ok := *;
        if !alloc && !ok { return None, p; }
        out := Enqueue(key, a, skb, alloc);
        OutcomeMoves(old(table), table, key, Q.Arrive(Lookup(old(table), key), a), alloc, out);
    }

    /** A queue is given up. */
    method Expire(key: W.Key)
      requires Valid()
      modifies this
      ensures Valid() && Flat(table) == W.After(Flat(old(table)), W.Expired(key))
    {
      table := table - {key};
    }
  }

  /** The buffer of a received packet, without the headers up to its fragment header's end. */
  function PacketBuf(skb: Skb): Q.Buf {
    match W.FindFragHeader(Bytes(skb.chain))
    case None => Q.Buf(0, 0)
    case Some(info) => BufOf(skb, info.offset + W.FRAG_HDR)
  }

  /** The checks of ipv6_defrag on the packet alone. */
  method Examine(skb: Skb) returns (p: W.Parsed)
    requires WellFormed(skb)
    ensures p == W.Parse(Bytes(skb.chain), PacketBuf(skb))
    ensures p.Fragment? ==> && p.arrival.piece.off % 8 == 0
                            && Carries(Held(p.arrival.piece.off / 8, |p.arrival.piece.data|, skb), p.arrival)
  {
    var info := FindHeader(Bytes(skb.chain));
    if info == None { return W.NoFragment; }
    p := W.ParseAt(Bytes(skb.chain), info.value, PacketBuf(skb));
    ParsedCarries(skb, info.value);
  }

  lemma {:induction false} ParsedCarries(skb: Skb, info: W.Info)
    requires WellFormed(skb) && W.FindFragHeader(Bytes(skb.chain)) == Some(info)
    ensures W.ParseAt(Bytes(skb.chain), info, PacketBuf(skb)).Fragment? ==>
              var a := W.ParseAt(Bytes(skb.chain), info, PacketBuf(skb)).arrival;
              a.piece.off % 8 == 0 && Carries(Held(a.piece.off / 8, |a.piece.data|, skb), a)
  {
    var b := Bytes(skb.chain);
    W.FoundAt(b, b[W.NH_OFFSET], Q.HDR, W.NH_OFFSET, W.ROUNDS);
  }

  /** A received fragment brings at least one node; one that arrived in a single node brings one, with
      at least the room its own headers took. */
  lemma {:induction false} FragmentNodes(skb: Skb)
    requires WellFormed(skb) && W.Parse(Bytes(skb.chain), PacketBuf(skb)).Fragment?
    ensures PacketBuf(skb).nodes >= 1
    ensures skb.num == 1 ==> PacketBuf(skb).nodes == 1 && PacketBuf(skb).room >= Q.HDR + W.FRAG_HDR
  {
    var info := W.FindFragHeader(Bytes(skb.chain)).value;
    ParsedCarries(skb, info);
    var a := W.ParseAt(Bytes(skb.chain), info, PacketBuf(skb)).arrival;
    Stripped(Held(a.piece.off / 8, |a.piece.data|, skb), a.unfrag);
    if skb.num == 1 { BytesOne(skb.chain[0]); }
  }

  // ---------------------------------------------------------------- ipv6_frag

  /** There is room in front for the headers of a fragment, or a node to spare. */
  predicate HasRoom(s: Skb)
    requires s.chain != []
  {
    Q.HDR + W.FRAG_HDR <= s.chain[0].pre || s.num < MAX_NODES
  }

  /** So it is for every fragment the payload is cut into. */
  predicate AllHaveRoom(s: Skb, size: nat)
    requires size > 0
    decreases s.total
  {
    if s.total <= size then s.chain != [] && HasRoom(s)
    else
      match Split(s, size)
      case None => false
      case Some(p) => p.0.chain != [] && HasRoom(p.0) && AllHaveRoom(p.1, size)
  }

  /** Below 32 nodes it always is. */
  lemma {:induction false} FewNodesHaveRoom(s: Skb, size: nat)
    requires WellFormed(s) && 0 < s.num < MAX_NODES && size > 0
    ensures AllHaveRoom(s, size)
    decreases s.total
  {
    if s.total > size {
      SplitIs(s, size);
      FewNodesHaveRoom(Split(s, size).value.1, size);
    }
  }

  /** push_frag_headers. */
  method PushHeaders(skb: Skb, fixed: seq<Byte>, id: seq<Byte>, off: nat, more: bool, len: nat, alloc: bool)
      returns (r: Option<Skb>)
    requires WellFormed(skb) && skb.num >= 1 && |fixed| == Q.HDR && len == skb.total
    ensures r.Some? ==> WellFormed(r.value)
                        && Bytes(r.value.chain) == W.FragmentOf(fixed, id, off, more, Bytes(skb.chain))
    ensures |id| == 4 ==> (r.Some? ==> HasRoom(skb)) && (alloc && HasRoom(skb) ==> r.Some?)
  {
    var ok := *;
    if !alloc && !ok { return None; }
    var fill := W.Header(fixed, W.FRAG, W.FRAG_HDR + len) + W.FragHeader(fixed[W.NH_OFFSET], off, more, id);
    PushIs(skb, fill);
    r := Push(skb, fill);
  }

  /** A cut list is its first cut and the cuts of the rest. */
  lemma {:induction false} CutHead(payload: seq<Byte>, size: nat, off: nat)
    requires size > 0 && off < |payload|
    ensures var cuts := W.Cut(payload, size, off);
            if |payload| - off > size
            then cuts[0] == (off, payload[off..off + size])
                 && cuts[1..] == W.Cut(payload, size, off + size) && |cuts| > 1
            else cuts == [(off, payload[off..])]
  {
    assert |payload| - off > size ==> W.Cut(payload, size, off)[1..] == W.Cut(payload, size, off + size);
  }

  /** The fragments built so far are those of the first cuts. */
  predicate Built(out: seq<Skb>, fixed: seq<Byte>, id: seq<Byte>, cuts: seq<(nat, seq<Byte>)>)
    requires |fixed| == Q.HDR
  {
    |out| <= |cuts| && forall j :: 0 <= j < |out| ==> BuiltAt(out[j], fixed, id, cuts, j)
  }

  predicate BuiltAt(s: Skb, fixed: seq<Byte>, id: seq<Byte>, cuts: seq<(nat, seq<Byte>)>, j: nat)
    requires |fixed| == Q.HDR && j < |cuts|
  {
    WellFormed(s) && Bytes(s.chain) == W.FragmentOf(fixed, id, cuts[j].0, j < |cuts| - 1, cuts[j].1)
  }

  lemma {:induction false} BuiltMore(out: seq<Skb>, s: Skb, fixed: seq<Byte>, id: seq<Byte>,
                                     cuts: seq<(nat, seq<Byte>)>)
    requires |fixed| == Q.HDR && Built(out, fixed, id, cuts) && |out| < |cuts| && BuiltAt(s, fixed, id, cuts, |out|)
    ensures Built(out + [s], fixed, id, cuts)
  {
  }

  /** The next fragment's payload and what is left after it, if it is too long for one fragment. */
  predicate CutOf(rest: Skb, size: nat, cur: Skb, next: Option<Skb>) {
    && WellFormed(cur) && 1 <= cur.num && (next.Some? <==> rest.total > size)
    && (next == None ==> cur == rest)
    && (next.Some? ==> && WellFormed(next.value) && size <= |Bytes(rest.chain)|
                       && Split(rest, size) == Some((cur, next.value))
                       && Bytes(cur.chain) == Bytes(rest.chain)[..size]
                       && Bytes(next.value.chain) == Bytes(rest.chain)[size..])
  }

  method CutOne(rest: Skb, size: nat, alloc: bool) returns (r: Option<(Skb, Option<Skb>)>)
    requires WellFormed(rest) && rest.total > 0 && size > 0
    ensures alloc ==> r.Some?
    ensures r.Some? ==> CutOf(rest, size, r.value.0, r.value.1)
  {
    if rest.total <= size { return Some((rest, None)); }
    var ok := *;
    if !alloc && !ok { return None; }
    SplitIs(rest, size);
    var p := Split(rest, size).value;
    r := Some((p.0, Some(p.1)));
  }

  /** Between two rounds of the splitting loop: what is left are the octets from `off` on, and their cuts
      are those not yet done. */
  predicate ToCut(rest: Option<Skb>, b: seq<Byte>, off: nat, size: nat, cuts: seq<(nat, seq<Byte>)>, done: nat) {
    && off <= |b| && size > 0 && done <= |cuts|
    && match rest
       case None => done == |cuts|
       case Some(s) => WellFormed(s) && off < |b| && Bytes(s.chain) == b[off..] && cuts[done..] == W.Cut(b, size, off)
  }

  lemma {:induction false} CutStep(rest: Skb, cur: Skb, next: Option<Skb>, b: seq<Byte>, off: nat, size: nat,
                                   cuts: seq<(nat, seq<Byte>)>, done: nat)
    requires ToCut(Some(rest), b, off, size, cuts, done) && CutOf(rest, size, cur, next)
    ensures done < |cuts| && cuts[done] == (off, Bytes(cur.chain)) && (next.Some? <==> done < |cuts| - 1)
    ensures cur.total > 0 && ToCut(next, b, off + cur.total, size, cuts, done + 1)
  {
    CutHead(b, size, off);
    assert cuts[done] == cuts[done..][0] && cuts[done..][1..] == cuts[done + 1..];
    assert next.Some? ==> b[off..][..size] == b[off..off + size] && b[off..][size..] == b[off + size..];
  }

  lemma {:induction false} RoomStep(rest: Skb, size: nat, cur: Skb, next: Option<Skb>)
    requires WellFormed(rest) && size > 0 && CutOf(rest, size, cur, next)
    ensures cur.chain != []
    ensures AllHaveRoom(rest, size) == (HasRoom(cur) && (next.Some? ==> AllHaveRoom(next.value, size)))
  {
  }

  /** One round of the splitting loop: a fragment, the length of its payload, and what is left. */
  method OneFragment(rest: Skb, off: nat, size: nat, fixed: seq<Byte>, id: seq<Byte>, alloc: bool,
                     ghost b: seq<Byte>, ghost cuts: seq<(nat, seq<Byte>)>, ghost done: nat)
      returns (f: Option<Skb>, n: nat, next: Option<Skb>)
    requires |fixed| == Q.HDR && ToCut(Some(rest), b, off, size, cuts, done)
    ensures f.Some? ==> && done < |cuts| && BuiltAt(f.value, fixed, id, cuts, done) && n > 0
                        && ToCut(next, b, off + n, size, cuts, done + 1)
    ensures |id| == 4 && f.Some? ==> AllHaveRoom(rest, size) == (next.Some? ==> AllHaveRoom(next.value, size))
    ensures |id| == 4 && f == None && alloc ==> !AllHaveRoom(rest, size)
  {
    var parts := CutOne(rest, size, alloc);
    if parts == None { return None, 0, None; }
    var cur := parts.value.0;
    next := parts.value.1;
    CutStep(rest, cur, next, b, off, size, cuts, done);
    RoomStep(rest, size, cur, next);
    n := cur.total;
    f := PushHeaders(cur, fixed, id, off, next.Some?, n, alloc);
  }

  /** The splitting loop: cut, push headers, go on with the rest.  None if memory or nodes run out. */
  method SplitAll(payload: Skb, size: nat, fixed: seq<Byte>, id: seq<Byte>, alloc: bool) returns (r: Option<seq<Skb>>)
    requires WellFormed(payload) && payload.total > size > 0 && |fixed| == Q.HDR
    ensures r.Some? ==> var cuts := W.Cut(Bytes(payload.chain), size, 0);
                        |r.value| == |cuts| && Built(r.value, fixed, id, cuts)
    ensures |id| == 4 ==> (r.Some? ==> AllHaveRoom(payload, size)) && (alloc && AllHaveRoom(payload, size) ==> r.Some?)
  {
    ghost var b := Bytes(payload.chain);
    ghost var cuts := W.Cut(b, size, 0);
    var out, off: nat, rest := [], 0, Some(payload);
    assert b[0..] == b && cuts[0..] == cuts;
    while rest.Some?
      invariant Built(out, fixed, id, cuts) && ToCut(rest, b, off, size, cuts, |out|)
      invariant |id| == 4 ==> AllHaveRoom(payload, size) == (rest.Some? ==> AllHaveRoom(rest.value, size))
      decreases |b| - off + if rest.Some? then 1 else 0
    {
      var f, n, next := OneFragment(rest.value, off, size, fixed, id, alloc, b, cuts, |out|);
      if f == None { return None; }
      BuiltMore(out, f.value, fixed, id, cuts);
      out, off, rest := out + [f.value], off + n, next;
    }
    r := Some(out);
  }

  /** ipv6_frag: left alone if it fits, refused for a small MTU or an empty packet, and otherwise, if
      it succeeds, exactly the fragments of the packet.  With memory it succeeds exactly if the first node
      holds the fixed header and every fragment has room for its headers or a node to spare. */
  method Fragment(skb: Skb, mtu: nat, id: seq<Byte>, alloc: bool) returns (r: Option<seq<Skb>>)
    requires WellFormed(skb)
    ensures mtu < 1280 || skb.total <= Q.HDR ==> r == None
    ensures mtu >= 1280 && Q.HDR < skb.total <= mtu ==> r == Some([skb])
    ensures mtu >= 1280 && skb.total > mtu && r.Some? ==>
              var frags := W.Fragments(Bytes(skb.chain), mtu, id);
              && |r.value| == |frags|
              && forall i :: 0 <= i < |frags| ==> WellFormed(r.value[i]) && Bytes(r.value[i].chain) == frags[i]
    ensures skb.chain != [] && skb.num <= |skb.chain|
    ensures mtu >= 1280 && skb.total > mtu && |id| == 4 ==>
              var fits := |skb.chain[0].data| >= Q.HDR && AllHaveRoom(ConsumeLinear(skb, Q.HDR), W.FragPayload(mtu));
              (r.Some? ==> fits) && (alloc && fits ==> r.Some?)
  {
    if mtu < 1280 || skb.total <= Q.HDR { return None; }
    if skb.total <= mtu { return Some([skb]); }
    var size := W.FragPayload(mtu);
    W.FragPayloadIs(mtu);
    ConsumeLinearIs(skb, Q.HDR);
    if |skb.chain[0].data| < Q.HDR { return None; }
    ghost var b := Bytes(skb.chain);
    var fixed := skb.chain[0].data[..Q.HDR];
    assert fixed == b[..Q.HDR] by { assert b == skb.chain[0].data + Bytes(skb.chain[1..]); }
    var payload := ConsumeLinear(skb, Q.HDR);
    r := SplitAll(payload, size, fixed, id, alloc);
    if r.Some? { BuiltFragments(r.value, b, mtu, id); }
  }

  lemma {:induction false} BuiltFragments(out: seq<Skb>, b: seq<Byte>, mtu: nat, id: seq<Byte>)
    requires mtu >= 1280 && |b| >= Q.HDR
    requires var cuts := W.Cut(b[Q.HDR..], W.FragPayload(mtu), 0); |out| == |cuts| && Built(out, b[..Q.HDR], id, cuts)
    ensures |out| == |W.Fragments(b, mtu, id)|
    ensures forall i :: 0 <= i < |out| ==> WellFormed(out[i]) && Bytes(out[i].chain) == W.Fragments(b, mtu, id)[i]
  {
    var cuts := W.Cut(b[Q.HDR..], W.FragPayload(mtu), 0);
    forall i | 0 <= i < |out| ensures WellFormed(out[i]) && Bytes(out[i].chain) == W.Fragments(b, mtu, id)[i] {
      assert BuiltAt(out[i], b[..Q.HDR], id, cuts, i);
    }
  }
}
