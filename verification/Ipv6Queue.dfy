/** One IPv6 reassembly queue (struct ipq6 and ipv6_defrag in main/ipv6_ext.c), on flat octets with the
    buffer facts that matter: which fragments it takes, when it gives up, and what it hands over. */
module Ipv6Queue {
  import opened Common
  import Skbuff

  const HDR: nat := 40
  const MAX_PAYLOAD: nat := 65535

  /** The local buffer that holds the headers: the fixed header and 255 * 8 octets. */
  const MAX_UNFRAG: nat := 40 + 255 * 8

  /** What the buffer of a fragment looks like once its headers are stripped: how many nodes it has, and
      how much room there is before the payload in the first one. */
  datatype Buf = Buf(nodes: nat, room: nat)

  /** A fragment in the queue: offset in octets, the headers before its fragment header, its payload. */
  datatype Piece = Piece(off: nat, head: seq<Byte>, data: seq<Byte>, buf: Buf)

  function End(p: Piece): nat { p.off + |p.data| }

  /** What the fragment says about the headers, and whether more fragments follow. */
  datatype Arrival = Arrival(piece: Piece, more: bool, unfrag: nat, prev: nat, nh: Byte)

  datatype Queue = Queue(unfrag: nat, prev: nat, nh: Byte, total: nat, received: nat,
                         last: bool, first: bool, frags: seq<Piece>)

  /** The queue goes on, is destroyed, or is complete: the headers of the first piece and all payload. */
  datatype Result = Kept(q: Queue) | Destroyed | Complete(head: seq<Byte>, payload: seq<Byte>, q: Queue)

  // ---------------------------------------------------------------- the code

  function Fresh(a: Arrival): Queue {
    Queue(a.unfrag, a.prev, a.nh, 0, 0, false, false, [])
  }

  predicate SameHeaders(q: Queue, a: Arrival) {
    q.unfrag == a.unfrag && q.prev == a.prev && q.nh == a.nh
  }

  predicate Overlaps(list: seq<Piece>, p: Piece) {
    list != [] && ((p.off < End(list[0]) && list[0].off < End(p)) || Overlaps(list[1..], p))
  }

  predicate Beyond(list: seq<Piece>, end: nat) {
    list != [] && (End(list[0]) > end || Beyond(list[1..], end))
  }

  /** add_list_node_compare with frag6_offset_cmp. */
  function Insert(list: seq<Piece>, p: Piece): Option<seq<Piece>> {
    if list == [] || list[0].off > p.off then Some([p] + list)
    else if list[0].off < p.off then
      match Insert(list[1..], p)
      case None => None
      case Some(rest) => Some([list[0]] + rest)
    else None
  }

  predicate Refused(q: Queue, a: Arrival) {
    var end := End(a.piece);
    || (q.last && end > q.total)
    || (!a.more && Beyond(q.frags, end))
    || (!a.more && q.last && q.total != end)
  }

  function Taken(q: Queue, a: Arrival, frags: seq<Piece>): Queue {
    q.(frags := frags, received := q.received + |a.piece.data|,
       last := q.last || !a.more, total := if a.more then q.total else End(a.piece),
       first := q.first || a.piece.off == 0)
  }

  predicate Ready(q: Queue) { q.first && q.last && q.received >= q.total }

  /** The collecting loop after its first fragment: the payload from octet `at` on, and the nodes of the
      buffer it ends up in.  None at a hole, or when a buffer would get too many nodes. */
  function Collect(list: seq<Piece>, at: nat, nodes: nat): Option<(seq<Byte>, nat)> {
    if list == [] then Some(([], nodes))
    else if list[0].off != at || nodes + list[0].buf.nodes > Skbuff.MAX_NODES then None
    else
      match Collect(list[1..], End(list[0]), nodes + list[0].buf.nodes)
      case None => None
      case Some(r) => Some((list[0].data + r.0, r.1))
  }

  /** What ipv6_defrag does with a queue that has received enough. */
  function Finish(q: Queue): Result {
    if q.received != q.total then Destroyed
    else if q.frags == [] || q.unfrag > MAX_UNFRAG || |q.frags[0].head| != q.unfrag then Destroyed
    else if q.frags[0].off != 0 then Destroyed
    else
      var f := q.frags[0];
      match Collect(q.frags[1..], |f.data|, f.buf.nodes)
      case None => Destroyed
      case Some(r) =>
        if q.unfrag + |f.data + r.0| > HDR + MAX_PAYLOAD then Destroyed
        else if f.buf.room < q.unfrag && r.1 >= Skbuff.MAX_NODES then Destroyed
        else Complete(f.head, f.data + r.0, q)
  }

  function Arrive(q0: Option<Queue>, a: Arrival): Result {
    var q := if q0.None? then Fresh(a) else q0.value;
    if !SameHeaders(q, a) then Destroyed
    else if Overlaps(q.frags, a.piece) then Kept(q)
    else if Refused(q, a) then Destroyed
    else
      match Insert(q.frags, a.piece)
      case None => Kept(q)
      case Some(frags) =>
        var t := Taken(q, a, frags);
        if Ready(t) then Finish(t) else Kept(t)
  }

  // ---------------------------------------------------------------- the invariant

  function Concat(list: seq<Piece>): seq<Byte> {
    if list == [] then [] else list[0].data + Concat(list[1..])
  }

  function Nodes(list: seq<Piece>): nat {
    if list == [] then 0 else list[0].buf.nodes + Nodes(list[1..])
  }

  /** Sorted, pairwise disjoint, none empty, all at or after `from`. */
  predicate Disjoint(list: seq<Piece>, from: nat) {
    list == [] || (from <= list[0].off && list[0].data != [] && Disjoint(list[1..], End(list[0])))
  }

  function Sum(list: seq<Piece>): nat {
    if list == [] then 0 else |list[0].data| + Sum(list[1..])
  }

  /** Each piece starts where the one before ended. */
  predicate Tiles(list: seq<Piece>, from: nat) {
    list == [] || (list[0].off == from && Tiles(list[1..], End(list[0])))
  }

  /** Every piece has the headers the queue expects. */
  predicate Headed(list: seq<Piece>, unfrag: nat) {
    list == [] || (|list[0].head| == unfrag && Headed(list[1..], unfrag))
  }

  predicate Inv(q: Queue) {
    && Disjoint(q.frags, 0) && Headed(q.frags, q.unfrag) && q.received == Sum(q.frags)
    && (q.first <==> q.frags != [] && q.frags[0].off == 0)
    && (if q.last then !Beyond(q.frags, q.total) && q.total > 0 else q.total == 0)
  }

  lemma {:induction false} DisjointFrom(list: seq<Piece>, from: nat, lower: nat)
    requires Disjoint(list, from) && (list == [] || lower <= list[0].off)
    ensures Disjoint(list, lower)
  {
  }

  /** A piece that overlaps none goes in between; nothing else changes. */
  lemma {:induction false} InsertKeeps(list: seq<Piece>, p: Piece, from: nat)
    requires Disjoint(list, from) && from <= p.off && p.data != [] && !Overlaps(list, p)
    ensures Insert(list, p).Some?
    ensures var r := Insert(list, p).value;
            && Disjoint(r, from) && Sum(r) == Sum(list) + |p.data| && r != []
            && r[0].off == if list != [] && list[0].off < p.off then list[0].off else p.off
    decreases |list|
  {
    if list == [] || list[0].off > p.off {
      var r := [p] + list;
      assert r[1..] == list;
      if list != [] { DisjointFrom(list, from, End(p)); }
    } else {
      assert list[0].off < p.off;
      InsertKeeps(list[1..], p, End(list[0]));
      var rest := Insert(list[1..], p).value;
      assert ([list[0]] + rest)[1..] == rest;
    }
  }

  lemma {:induction false} InsertBeyond(list: seq<Piece>, p: Piece, end: nat)
    requires Insert(list, p).Some?
    ensures Beyond(Insert(list, p).value, end) <==> Beyond(list, end) || End(p) > end
    decreases |list|
  {
    if list == [] || list[0].off > p.off {
      assert ([p] + list)[1..] == list;
    } else {
      InsertBeyond(list[1..], p, end);
      var rest := Insert(list[1..], p).value;
      assert ([list[0]] + rest)[1..] == rest;
    }
  }

  lemma {:induction false} InsertHeaded(list: seq<Piece>, p: Piece, unfrag: nat)
    requires Insert(list, p).Some? && Headed(list, unfrag) && |p.head| == unfrag
    ensures Headed(Insert(list, p).value, unfrag)
    decreases |list|
  {
    if list == [] || list[0].off > p.off {
      assert ([p] + list)[1..] == list;
    } else {
      InsertHeaded(list[1..], p, unfrag);
      var rest := Insert(list[1..], p).value;
      assert ([list[0]] + rest)[1..] == rest;
    }
  }

  /** What the checks on a single fragment leave: some payload, and headers as long as announced. */
  predicate WellSized(a: Arrival) { a.piece.data != [] && |a.piece.head| == a.unfrag }

  /** The queue an arrival is put into. */
  function QueueFor(q0: Option<Queue>, a: Arrival): Queue {
    if q0.None? then Fresh(a) else q0.value
  }

  /** The arrival goes into the list. */
  predicate GoesIn(q: Queue, a: Arrival) {
    SameHeaders(q, a) && !Overlaps(q.frags, a.piece) && !Refused(q, a)
  }

  lemma {:induction false} TakenKeeps(q: Queue, a: Arrival)
    requires Inv(q) && WellSized(a) && GoesIn(q, a)
    ensures Insert(q.frags, a.piece).Some? && Inv(Taken(q, a, Insert(q.frags, a.piece).value))
  {
    InsertKeeps(q.frags, a.piece, 0);
    InsertBeyond(q.frags, a.piece, q.total);
    InsertBeyond(q.frags, a.piece, End(a.piece));
    InsertHeaded(q.frags, a.piece, q.unfrag);
  }

  /** Whatever arrives, a queue that goes on is still sorted, disjoint and within its total, and so is one
      that is complete. */
  lemma {:induction false} ArriveKeeps(q0: Option<Queue>, a: Arrival)
    requires (q0.Some? ==> Inv(q0.value)) && WellSized(a)
    ensures Arrive(q0, a).Kept? ==> Inv(Arrive(q0, a).q)
    ensures Arrive(q0, a).Complete? ==> Inv(Arrive(q0, a).q) && Ready(Arrive(q0, a).q)
  {
    var q := QueueFor(q0, a);
    if GoesIn(q, a) { TakenKeeps(q, a); }
  }

  /** Some piece reaches past an end. */
  predicate ReachesPast(list: seq<Piece>, end: nat) { exists i :: 0 <= i < |list| && End(list[i]) > end }

  lemma {:induction false} BeyondIs(list: seq<Piece>, end: nat)
    ensures Beyond(list, end) <==> ReachesPast(list, end)
    decreases |list|
  {
    if list != [] {
      BeyondIs(list[1..], end);
      if i :| 0 <= i < |list[1..]| && End(list[1..][i]) > end { assert End(list[i + 1]) > end; }
      if i :| 0 < i < |list| && End(list[i]) > end { assert End(list[1..][i - 1]) > end; }
    }
  }

  /** A fragment with other headers destroys the queue; one that overlaps changes nothing; one that
      contradicts the end destroys it; any other is put in. */
  lemma {:induction false} ArriveCases(q: Queue, a: Arrival)
    requires Inv(q) && WellSized(a)
    ensures !SameHeaders(q, a) ==> Arrive(Some(q), a) == Destroyed
    ensures SameHeaders(q, a) && Overlaps(q.frags, a.piece) ==> Arrive(Some(q), a) == Kept(q)
    ensures SameHeaders(q, a) && !Overlaps(q.frags, a.piece) && q.last && End(a.piece) > q.total ==>
              Arrive(Some(q), a) == Destroyed
    ensures SameHeaders(q, a) && !Overlaps(q.frags, a.piece) && !a.more && ReachesPast(q.frags, End(a.piece)) ==>
              Arrive(Some(q), a) == Destroyed
    ensures GoesIn(q, a) ==>
              var r := Arrive(Some(q), a);
              && (r.Kept? ==> a.piece in r.q.frags && Sum(r.q.frags) == Sum(q.frags) + |a.piece.data|)
              && (r.Destroyed? ==> q.received + |a.piece.data| >= q.total)
  {
    BeyondIs(q.frags, End(a.piece));
    if GoesIn(q, a) {
      TakenKeeps(q, a);
      InsertKeeps(q.frags, a.piece, 0);
      InsertHas(q.frags, a.piece);
    }
  }

  lemma {:induction false} InsertHas(list: seq<Piece>, p: Piece)
    requires Insert(list, p).Some?
    ensures p in Insert(list, p).value
    decreases |list|
  {
    if list == [] || list[0].off > p.off {
      assert ([p] + list)[0] == p;
    } else {
      InsertHas(list[1..], p);
    }
  }

  // ---------------------------------------------------------------- a queue that has received enough

  lemma {:induction false} SumFits(list: seq<Piece>, from: nat, total: nat)
    requires Disjoint(list, from) && !Beyond(list, total) && from <= total
    ensures from + Sum(list) <= total
    ensures from + Sum(list) == total ==> Tiles(list, from)
    decreases |list|
  {
    if list != [] { SumFits(list[1..], End(list[0]), total); }
  }

  /** Reaching the total forces an exact tiling: the counts cannot differ, no hole is left, and the
      piece at offset 0 is there without looking at its flag. */
  lemma {:induction false} ReadyTiles(q: Queue)
    requires Inv(q) && q.last && q.received >= q.total
    ensures q.received == q.total && Tiles(q.frags, 0) && q.first && q.frags != []
    ensures |Concat(q.frags)| == q.total && |q.frags[0].head| == q.unfrag
  {
    SumFits(q.frags, 0, q.total);
    ConcatLength(q.frags);
  }

  lemma {:induction false} ConcatLength(list: seq<Piece>)
    ensures |Concat(list)| == Sum(list)
    decreases |list|
  {
    if list != [] { ConcatLength(list[1..]); }
  }

  /** Along a tiling the collecting loop meets no hole; it fails exactly when the nodes are too many. */
  lemma {:induction false} CollectIs(list: seq<Piece>, at: nat, nodes: nat)
    requires Tiles(list, at)
    ensures Collect(list, at, nodes)
         == if list == [] || nodes + Nodes(list) <= Skbuff.MAX_NODES then Some((Concat(list), nodes + Nodes(list)))
            else None
    decreases |list|
  {
    if list != [] { CollectIs(list[1..], End(list[0]), nodes + list[0].buf.nodes); }
  }

  /** The limits of the code: headers that fit the local copy, a payload length that fits its field, at
      most 32 nodes in the joined buffer, and room in front or a spare node for the headers. */
  predicate Fits(unfrag: nat, frags: seq<Piece>) {
    && frags != [] && unfrag <= MAX_UNFRAG && unfrag + Sum(frags) <= HDR + MAX_PAYLOAD
    && (|frags| == 1 || Nodes(frags) <= Skbuff.MAX_NODES)
    && (unfrag <= frags[0].buf.room || Nodes(frags) < Skbuff.MAX_NODES)
  }

  /** What happens to a queue that has received enough, exactly: it is handed over if it is within the
      limits, and destroyed otherwise.  The mismatch, the missing first fragment and the hole, for which
      the code also destroys it, never occur. */
  lemma {:induction false} FinishIs(q: Queue)
    requires Inv(q) && Ready(q)
    ensures Finish(q) == if Fits(q.unfrag, q.frags) then Complete(q.frags[0].head, Concat(q.frags), q) else Destroyed
  {
    ReadyTiles(q);
    var f, rest := q.frags[0], q.frags[1..];
    CollectIs(rest, |f.data|, f.buf.nodes);
    ConcatLength(q.frags);
    assert |q.frags| == 1 <==> rest == [];
  }

  /** In a tiling every piece's payload stands at its own offset. */
  lemma {:induction false} PieceInPlace(list: seq<Piece>, from: nat, p: Piece)
    requires Tiles(list, from) && p in list
    ensures from <= p.off && End(p) - from <= |Concat(list)|
    ensures Concat(list)[p.off - from..End(p) - from] == p.data
    decreases |list|
  {
    if list[0] != p {
      assert p in list[1..];
      PieceInPlace(list[1..], End(list[0]), p);
      Shifted(list[0].data, Concat(list[1..]), p.off - End(list[0]), End(p) - End(list[0]));
    } else {
      Shifted([], list[0].data + Concat(list[1..]), 0, |p.data|);
    }
  }

  lemma {:induction false} Shifted(a: seq<Byte>, b: seq<Byte>, i: nat, j: nat)
    requires i <= j <= |b|
    ensures (a + b)[|a| + i..|a| + j] == b[i..j]
  {
  }

  /** What a completed queue hands over: every fragment it accepted, each at its own offset, with
      nothing missing and nothing twice, within the limits. */
  lemma {:induction false} CompleteIs(q0: Option<Queue>, a: Arrival, p: Piece)
    requires (q0.Some? ==> Inv(q0.value)) && WellSized(a) && Arrive(q0, a).Complete?
    ensures var c := Arrive(q0, a);
            && c.q.frags != [] && c.q.frags[0].off == 0 && c.head == c.q.frags[0].head
            && |c.payload| == c.q.total == c.q.received && Tiles(c.q.frags, 0) && Fits(c.q.unfrag, c.q.frags)
            && (p in c.q.frags ==> End(p) <= |c.payload| && c.payload[p.off..End(p)] == p.data)
  {
    var q := QueueFor(q0, a);
    TakenKeeps(q, a);
    var t := Taken(q, a, Insert(q.frags, a.piece).value);
    FinishIs(t);
    ReadyTiles(t);
    if p in t.frags { PieceInPlace(t.frags, 0, p); }
  }

  // ---------------------------------------------------------------- the fragments of one datagram

  /** The fragments of one datagram, in order.  The buffers they come in are given with each arrival. */
  datatype Datagram = Datagram(frags: seq<Piece>, unfrag: nat, prev: nat, nh: Byte)

  predicate Whole(d: Datagram) {
    d.frags != [] && Tiles(d.frags, 0) && Disjoint(d.frags, 0) && Headed(d.frags, d.unfrag)
  }

  /** Fragment i arrives in some buffer. */
  datatype Got = Got(i: nat, buf: Buf)

  function PieceAt(d: Datagram, g: Got): Piece
    requires g.i < |d.frags|
  {
    d.frags[g.i].(buf := g.buf)
  }

  function ArrivalOf(d: Datagram, g: Got): Arrival
    requires g.i < |d.frags|
  {
    Arrival(PieceAt(d, g), g.i < |d.frags| - 1, d.unfrag, d.prev, d.nh)
  }

  predicate Indices(d: Datagram, gots: seq<Got>) {
    forall j :: 0 <= j < |gots| ==> gots[j].i < |d.frags|
  }

  /** The queue after fragments have arrived in the given order, repeats allowed, also after completion. */
  function Run(d: Datagram, gots: seq<Got>): Option<Queue>
    requires Indices(d, gots)
  {
    if gots == [] then None
    else
      match Arrive(Run(d, gots[..|gots| - 1]), ArrivalOf(d, gots[|gots| - 1]))
      case Kept(q) => Some(q)
      case Destroyed => None
      case Complete(_, _, _) => None
  }

  predicate AllIn(d: Datagram, m: map<nat, Buf>) {
    forall i :: 0 <= i < |d.frags| ==> i in m
  }

  function Noted(m: map<nat, Buf>, g: Got): map<nat, Buf> {
    if g.i in m then m else m[g.i := g.buf]
  }

  /** Reference: the fragments seen since the datagram was last seen in full, each with the buffer it
      first came in. */
  function Seen(d: Datagram, gots: seq<Got>): map<nat, Buf> {
    if gots == [] then map[]
    else
      var m := Noted(Seen(d, gots[..|gots| - 1]), gots[|gots| - 1]);
      if AllIn(d, m) then map[] else m
  }

  /** The pieces that belong to a set of fragments, from fragment i on. */
  function Held(d: Datagram, m: map<nat, Buf>, i: nat): seq<Piece>
    decreases |d.frags| - i
  {
    if i >= |d.frags| then []
    else (if i in m then [PieceAt(d, Got(i, m[i]))] else []) + Held(d, m, i + 1)
  }

  // ---------------------------------------------------------------- what the queue holds

  /** From fragment i on the datagram tiles the payload from that fragment's offset. */
  lemma {:induction false} TailTiles(d: Datagram, i: nat)
    requires Whole(d) && i < |d.frags|
    ensures Tiles(d.frags[i..], d.frags[i].off) && Disjoint(d.frags[i..], d.frags[i].off)
    ensures d.frags[i].off + Sum(d.frags[i..]) == Sum(d.frags) && d.frags[i].data != []
    ensures (i == 0 <==> d.frags[i].off == 0) && |d.frags[i].head| == d.unfrag && Headed(d.frags[i..], d.unfrag)
    decreases i
  {
    if i == 0 {
      assert d.frags[0..] == d.frags;
    } else {
      TailTiles(d, i - 1);
      assert d.frags[i - 1..][1..] == d.frags[i..];
    }
  }

  /** Where fragment i starts; the total for the one after the last. */
  function Start(d: Datagram, i: nat): nat {
    if i < |d.frags| then d.frags[i].off else Sum(d.frags)
  }

  lemma {:induction false} NextStart(d: Datagram, i: nat)
    requires Whole(d) && i < |d.frags|
    ensures Start(d, i + 1) == End(d.frags[i]) && Start(d, i) < Start(d, i + 1) <= Sum(d.frags)
  {
    TailTiles(d, i);
    assert d.frags[i..][1..] == d.frags[i + 1..];
    if i + 1 < |d.frags| { TailTiles(d, i + 1); }
  }

  lemma {:induction false} StartsGrow(d: Datagram, i: nat, j: nat)
    requires Whole(d) && i <= j <= |d.frags|
    ensures Start(d, i) <= Start(d, j) && (i < j ==> Start(d, i) < Start(d, j) && Start(d, i + 1) <= Start(d, j))
    decreases j - i
  {
    if i < j {
      NextStart(d, i);
      StartsGrow(d, i + 1, j);
    }
  }

  /** The held pieces are in order and end within the datagram. */
  lemma {:induction false} HeldOrdered(d: Datagram, m: map<nat, Buf>, i: nat, from: nat)
    requires Whole(d) && i <= |d.frags| && from <= Start(d, i)
    ensures Disjoint(Held(d, m, i), from) && Headed(Held(d, m, i), d.unfrag) && !Beyond(Held(d, m, i), Sum(d.frags))
    decreases |d.frags| - i
  {
    if i < |d.frags| {
      NextStart(d, i);
      TailTiles(d, i);
      HeldOrdered(d, m, i + 1, if i in m then End(d.frags[i]) else from);
      HeldTail(d, m, i);
    }
  }

  lemma {:induction false} HeldTail(d: Datagram, m: map<nat, Buf>, i: nat)
    requires i < |d.frags|
    ensures i in m ==> && Held(d, m, i) == [PieceAt(d, Got(i, m[i]))] + Held(d, m, i + 1)
                       && Held(d, m, i)[1..] == Held(d, m, i + 1)
    ensures i !in m ==> Held(d, m, i) == Held(d, m, i + 1)
  {
  }

  /** An arrival overlaps what is held exactly if its fragment is held already. */
  lemma {:induction false} HeldOverlaps(d: Datagram, m: map<nat, Buf>, g: Got, i: nat)
    requires Whole(d) && g.i < |d.frags| && i <= |d.frags|
    ensures Overlaps(Held(d, m, i), PieceAt(d, g)) <==> g.i in m && i <= g.i
    decreases |d.frags| - i
  {
    if i < |d.frags| {
      HeldOverlaps(d, m, g, i + 1);
      Apart(d, i, g.i);
      HeldTail(d, m, i);
      if i in m { OverlapsCons(PieceAt(d, Got(i, m[i])), Held(d, m, i + 1), PieceAt(d, g)); }
    }
  }

  lemma {:induction false} OverlapsCons(p: Piece, rest: seq<Piece>, x: Piece)
    ensures Overlaps([p] + rest, x) <==> (x.off < End(p) && p.off < End(x)) || Overlaps(rest, x)
  {
    assert ([p] + rest)[1..] == rest;
  }

  /** Two fragments of the datagram overlap only if they are the same. */
  lemma {:induction false} Apart(d: Datagram, i: nat, k: nat)
    requires Whole(d) && i < |d.frags| && k < |d.frags|
    ensures d.frags[k].off < End(d.frags[i]) && d.frags[i].off < End(d.frags[k]) <==> i == k
  {
    NextStart(d, i);
    NextStart(d, k);
    if i < k { StartsGrow(d, i, k); }
    if k < i { StartsGrow(d, k, i); }
  }

  /** Putting in a missing fragment is holding one more. */
  lemma {:induction false} HeldInsert(d: Datagram, m: map<nat, Buf>, g: Got, i: nat)
    requires Whole(d) && i <= g.i < |d.frags| && g.i !in m
    ensures Insert(Held(d, m, i), PieceAt(d, g)) == Some(Held(d, m[g.i := g.buf], i))
    decreases g.i - i
  {
    HeldTail(d, m, i);
    HeldTail(d, m[g.i := g.buf], i);
    if i == g.i {
      SameAfter(d, m, g, i + 1);
      NextStart(d, i);
      HeldOrdered(d, m, i + 1, Start(d, i + 1));
    } else {
      HeldInsert(d, m, g, i + 1);
      StartsGrow(d, i, g.i);
    }
  }

  lemma {:induction false} SameAfter(d: Datagram, m: map<nat, Buf>, g: Got, i: nat)
    requires g.i < i
    ensures Held(d, m[g.i := g.buf], i) == Held(d, m, i)
    decreases |d.frags| - i
  {
    if i < |d.frags| { SameAfter(d, m, g, i + 1); }
  }

  /** All fragments from i on are there. */
  predicate AllFrom(d: Datagram, m: map<nat, Buf>, i: nat) {
    forall j :: i <= j < |d.frags| ==> j in m
  }

  /** The octets held reach the total exactly if nothing is missing. */
  lemma {:induction false} HeldSum(d: Datagram, m: map<nat, Buf>, i: nat)
    requires Whole(d) && i <= |d.frags|
    ensures Sum(Held(d, m, i)) <= Sum(d.frags[i..])
    ensures Sum(Held(d, m, i)) == Sum(d.frags[i..]) <==> AllFrom(d, m, i)
    decreases |d.frags| - i
  {
    if i < |d.frags| {
      HeldSum(d, m, i + 1);
      HeldTail(d, m, i);
      TailTiles(d, i);
      assert d.frags[i..][1..] == d.frags[i + 1..];
      assert AllFrom(d, m, i) <==> i in m && AllFrom(d, m, i + 1);
    }
  }

  lemma {:induction false} HeldConcat(d: Datagram, m: map<nat, Buf>, i: nat)
    requires i <= |d.frags| && AllFrom(d, m, i)
    ensures Concat(Held(d, m, i)) == Concat(d.frags[i..]) && |Held(d, m, i)| == |d.frags| - i
    decreases |d.frags| - i
  {
    if i < |d.frags| {
      HeldConcat(d, m, i + 1);
      HeldTail(d, m, i);
      assert d.frags[i..][1..] == d.frags[i + 1..];
    }
  }

  /** The queue that holds a set of fragments. */
  function HoldingQueue(d: Datagram, m: map<nat, Buf>): Queue {
    var last := 0 < |d.frags| && |d.frags| - 1 in m;
    Queue(d.unfrag, d.prev, d.nh, if last then Sum(d.frags) else 0, Sum(Held(d, m, 0)), last, 0 in m, Held(d, m, 0))
  }

  lemma {:induction false} HoldingInv(d: Datagram, m: map<nat, Buf>)
    requires Whole(d)
    ensures Inv(HoldingQueue(d, m)) && (Ready(HoldingQueue(d, m)) <==> AllIn(d, m))
  {
    HeldOrdered(d, m, 0, 0);
    HeldSum(d, m, 0);
    assert d.frags[0..] == d.frags;
    assert AllFrom(d, m, 0) <==> AllIn(d, m);
    HeldTail(d, m, 0);
    TailTiles(d, 0);
    NextStart(d, 0);
    HeldOrdered(d, m, 1, Start(d, 1));
  }

  // ---------------------------------------------------------------- exactly when it completes

  /** The arrival of a fragment of the datagram, whatever is held: a repeat changes nothing, and a new
      one is put in its place. */
  lemma {:induction false} ArriveFragment(d: Datagram, m: map<nat, Buf>, g: Got)
    requires Whole(d) && g.i < |d.frags| && !AllIn(d, m)
    ensures var t := HoldingQueue(d, Noted(m, g));
            Arrive(Some(HoldingQueue(d, m)), ArrivalOf(d, g)) == if AllIn(d, Noted(m, g)) then Finish(t) else Kept(t)
  {
    HeldOverlaps(d, m, g, 0);
    if g.i !in m {
      HeldNotRefused(d, m, g);
      HeldInsert(d, m, g, 0);
      HeldTaken(d, m, g);
      HoldingInv(d, Noted(m, g));
    }
  }

  lemma {:induction false} HeldNotRefused(d: Datagram, m: map<nat, Buf>, g: Got)
    requires Whole(d) && g.i < |d.frags| && g.i !in m
    ensures !Refused(HoldingQueue(d, m), ArrivalOf(d, g))
    ensures g.i == |d.frags| - 1 ==> End(d.frags[g.i]) == Sum(d.frags)
  {
    HeldOrdered(d, m, 0, 0);
    NextStart(d, g.i);
  }

  lemma {:induction false} HeldTaken(d: Datagram, m: map<nat, Buf>, g: Got)
    requires Whole(d) && g.i < |d.frags| && g.i !in m
    ensures Taken(HoldingQueue(d, m), ArrivalOf(d, g), Held(d, Noted(m, g), 0)) == HoldingQueue(d, Noted(m, g))
  {
    HeldOrdered(d, m, 0, 0);
    HeldOverlaps(d, m, g, 0);
    HeldInsert(d, m, g, 0);
    TailTiles(d, g.i);
    InsertKeeps(Held(d, m, 0), PieceAt(d, g), 0);
    HeldNotRefused(d, m, g);
  }

  /** The first fragment of a datagram opens its queue. */
  lemma {:induction false} ArriveFirst(d: Datagram, g: Got)
    requires Whole(d) && g.i < |d.frags|
    ensures Arrive(None, ArrivalOf(d, g)) == Arrive(Some(HoldingQueue(d, map[])), ArrivalOf(d, g))
  {
    HeldNone(d, 0);
  }

  lemma {:induction false} HeldNone(d: Datagram, i: nat)
    ensures Held(d, map[], i) == []
    decreases |d.frags| - i
  {
    if i < |d.frags| { HeldNone(d, i + 1); }
  }

  /** The next arrival of a fragment of the datagram after any arrivals. */
  function Next(d: Datagram, gots: seq<Got>, g: Got): Result
    requires Indices(d, gots) && g.i < |d.frags|
  {
    Arrive(Run(d, gots), ArrivalOf(d, g))
  }

  /** What is held after any arrivals: the fragments seen since the datagram was last seen in full. */
  lemma {:induction false} RunHolds(d: Datagram, gots: seq<Got>)
    requires Whole(d) && Indices(d, gots)
    ensures Run(d, gots) == if Seen(d, gots) == map[] then None else Some(HoldingQueue(d, Seen(d, gots)))
    ensures !AllIn(d, Seen(d, gots))
    decreases |gots|
  {
    assert Seen(d, gots) == map[] ==> 0 !in Seen(d, gots);
    if gots != [] {
      var before, g := gots[..|gots| - 1], gots[|gots| - 1];
      RunHolds(d, before);
      NextIs(d, before, g);
      assert g.i in Noted(Seen(d, before), g);
    }
  }

  lemma {:induction false} NextIs(d: Datagram, gots: seq<Got>, g: Got)
    requires Whole(d) && Indices(d, gots) && g.i < |d.frags| && !AllIn(d, Seen(d, gots))
    requires Run(d, gots) == if Seen(d, gots) == map[] then None else Some(HoldingQueue(d, Seen(d, gots)))
    ensures var m := Noted(Seen(d, gots), g);
            Next(d, gots, g) == if !AllIn(d, m) then Kept(HoldingQueue(d, m))
                                else if Fits(d.unfrag, Held(d, m, 0))
                                then Complete(d.frags[0].head, Concat(d.frags), HoldingQueue(d, m))
                                else Destroyed
  {
    var m := Noted(Seen(d, gots), g);
    if Seen(d, gots) == map[] { ArriveFirst(d, g); }
    ArriveFragment(d, Seen(d, gots), g);
    if AllIn(d, m) {
      HoldingInv(d, m);
      FinishIs(HoldingQueue(d, m));
      HeldConcat(d, m, 0);
      HeldTail(d, m, 0);
      assert d.frags[0..] == d.frags;
    }
  }

  /** For the fragments of one datagram arriving in any order, any number of times, in any buffers, also
      after the datagram has been handed over: an arrival completes it if and only if it is the last
      one missing and the whole is within the limits, and then hands over exactly the datagram's
      payload; if it is the last one missing and a limit is exceeded, everything is thrown away; and
      otherwise the fragment is kept or, as a repeat, ignored. */
  lemma {:induction false} CompletesExactlyThen(d: Datagram, gots: seq<Got>, g: Got)
    requires Whole(d) && Indices(d, gots) && g.i < |d.frags|
    ensures var m := Noted(Seen(d, gots), g);
            && (Next(d, gots, g).Complete? <==> AllIn(d, m) && Fits(d.unfrag, Held(d, m, 0)))
            && (Next(d, gots, g).Destroyed? <==> AllIn(d, m) && !Fits(d.unfrag, Held(d, m, 0)))
            && (Next(d, gots, g).Complete? ==> && Next(d, gots, g).payload == Concat(d.frags)
                                               && Next(d, gots, g).head == d.frags[0].head)
  {
    RunHolds(d, gots);
    NextIs(d, gots, g);
  }

  // ---------------------------------------------------------------- the limits in terms of the datagram

  /** Every fragment came in at least (at most) one node. */
  predicate AtLeastOne(m: map<nat, Buf>) { forall i :: i in m ==> m[i].nodes >= 1 }

  predicate OneNodeEach(m: map<nat, Buf>) { forall i :: i in m ==> m[i].nodes == 1 }

  lemma {:induction false} NodesCount(d: Datagram, m: map<nat, Buf>, i: nat)
    requires i <= |d.frags| && AllFrom(d, m, i)
    ensures AtLeastOne(m) ==> Nodes(Held(d, m, i)) >= |d.frags| - i
    ensures OneNodeEach(m) ==> Nodes(Held(d, m, i)) == |d.frags| - i
    decreases |d.frags| - i
  {
    if i < |d.frags| {
      NodesCount(d, m, i + 1);
      HeldTail(d, m, i);
    }
  }

  /** Caller's terms for the limits, when every fragment arrives in a single node: headers of at most
      2080 octets, a payload length that fits, and at most 32 fragments, or 31 if there is no room for
      the headers before the first payload. */
  lemma {:induction false} FitsIff(d: Datagram, m: map<nat, Buf>)
    requires Whole(d) && AllIn(d, m) && OneNodeEach(m)
    ensures Fits(d.unfrag, Held(d, m, 0)) <==>
              && d.unfrag <= MAX_UNFRAG && d.unfrag + Sum(d.frags) <= HDR + MAX_PAYLOAD
              && |d.frags| <= if d.unfrag <= m[0].room then Skbuff.MAX_NODES else Skbuff.MAX_NODES - 1
  {
    assert AllFrom(d, m, 0);
    NodesCount(d, m, 0);
    HeldSum(d, m, 0);
    HeldConcat(d, m, 0);
    HeldTail(d, m, 0);
    assert d.frags[0..] == d.frags;
  }

  /** Outside the limits of its own the datagram never comes through, in whatever order and buffers its
      fragments arrive. */
  lemma {:induction false} NeverCompletes(d: Datagram, gots: seq<Got>, g: Got)
    requires Whole(d) && Indices(d, gots) && g.i < |d.frags|
    requires d.unfrag > MAX_UNFRAG || d.unfrag + Sum(d.frags) > HDR + MAX_PAYLOAD
    ensures !Next(d, gots, g).Complete?
  {
    var m := Noted(Seen(d, gots), g);
    CompletesExactlyThen(d, gots, g);
    HeldSum(d, m, 0);
    assert d.frags[0..] == d.frags;
    assert AllIn(d, m) ==> AllFrom(d, m, 0);
  }

  /** Two fragments whose headers take 2088 octets, the fixed header and one header of the greatest
      length, 256 * 8: a legal datagram the 2080-octet copy is 8 octets too small for. */
  lemma {:induction false} LongHeaders(head: seq<Byte>, a: seq<Byte>, b: seq<Byte>, prev: nat, nh: Byte, buf: Buf)
    requires |head| == HDR + 256 * 8 && |a| == 8 && |b| == 8
    ensures var d := Datagram([Piece(0, head, a, buf), Piece(8, head, b, buf)], |head|, prev, nh);
            Whole(d) && Next(d, [Got(0, buf)], Got(1, buf)).Destroyed?
  {
    var d := Datagram([Piece(0, head, a, buf), Piece(8, head, b, buf)], |head|, prev, nh);
    TwoFragments(d, buf);
  }

  /** Two fragments with 48 octets of headers and 65535 octets of payload, each within the limits that
      are checked on its own. */
  lemma {:induction false} LongPayload(head: seq<Byte>, a: seq<Byte>, b: seq<Byte>, prev: nat, nh: Byte, buf: Buf)
    requires |head| == HDR + 8 && |a| == 32768 && |b| == 32767
    ensures var d := Datagram([Piece(0, head, a, buf), Piece(32768, head, b, buf)], |head|, prev, nh);
            Whole(d) && Next(d, [Got(0, buf)], Got(1, buf)).Destroyed?
  {
    var d := Datagram([Piece(0, head, a, buf), Piece(32768, head, b, buf)], |head|, prev, nh);
    TwoFragments(d, buf);
  }

  /** Two fragments in order are all of them. */
  lemma {:induction false} TwoFragments(d: Datagram, buf: Buf)
    requires |d.frags| == 2 && d.frags[0].off == 0 && d.frags[1].off == |d.frags[0].data|
    requires d.frags[0].data != [] && d.frags[1].data != [] && |d.frags[0].head| == |d.frags[1].head| == d.unfrag
    ensures Whole(d) && Sum(d.frags) == |d.frags[0].data| + |d.frags[1].data| && Indices(d, [Got(0, buf)])
    ensures d.unfrag > MAX_UNFRAG || d.unfrag + Sum(d.frags) > HDR + MAX_PAYLOAD ==>
              Next(d, [Got(0, buf)], Got(1, buf)).Destroyed?
  {
    assert d.frags[1..][0] == d.frags[1] && d.frags[1..][1..] == [];
    assert Sum(d.frags[1..]) == |d.frags[1].data|;
    var gots := [Got(0, buf)];
    SeenOne(d, Got(0, buf));
    assert 1 in Noted(Seen(d, gots), Got(1, buf)) && 0 in Noted(Seen(d, gots), Got(1, buf));
    CompletesExactlyThen(d, gots, Got(1, buf));
    if d.unfrag > MAX_UNFRAG || d.unfrag + Sum(d.frags) > HDR + MAX_PAYLOAD { NeverCompletes(d, gots, Got(1, buf)); }
  }

  lemma {:induction false} SeenOne(d: Datagram, g: Got)
    requires |d.frags| == 2 && g.i == 0
    ensures Seen(d, [g]) == map[0 := g.buf]
  {
    assert [g][..0] == [];
    assert 1 !in Noted(map[], g);
  }
}
