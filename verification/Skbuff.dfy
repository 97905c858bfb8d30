/** Scatter-gather packet buffers (main/skbuff.c): a chain of data areas that stands for one flat
    string of octets.

    The operations are first written as functions on values; the class at the end runs them in place,
    node by node, in loops. */
module Skbuff {
  import opened Common

  const MAX_NODES: nat := 32

  /** One data_info: free space before the data in its slot, the data, free space after it. */
  datatype Node = Node(pre: nat, data: seq<Byte>, post: nat)

  /** The zeroed data0 of a buffer without data. */
  const ZERO := Node(0, [], 0)

  /** data0 and its successors, data_num and data_total_len. */
  datatype Skb = Skb(chain: seq<Node>, num: nat, total: nat)

  function Bytes(chain: seq<Node>): seq<Byte> {
    if chain == [] then [] else chain[0].data + Bytes(chain[1..])
  }

  /** The bookkeeping matches the chain. */
  predicate WellFormed(s: Skb) {
    && s.total == |Bytes(s.chain)|
    && if s.num == 0 then s.chain == [ZERO] && s.total == 0 else s.num == |s.chain|
  }

  lemma {:induction false} BytesAppend(a: seq<Node>, b: seq<Node>)
    ensures Bytes(a + b) == Bytes(a) + Bytes(b)
    decreases |a|
  {
    if a == [] {
      assert a + b == b;
    } else {
      BytesAppend(a[1..], b);
      assert (a + b)[1..] == a[1..] + b;
    }
  }

  lemma {:induction false} BytesOne(n: Node)
    ensures Bytes([n]) == n.data
  {
    assert [n][1..] == [];
    assert n.data + [] == n.data;
  }

  // ---------------------------------------------------------------- consume

  function FrontCut(n: Node, k: nat): Node
    requires k <= |n.data|
  {
    Node(n.pre + k, n.data[k..], n.post)
  }

  /** The loop of skb_consume: nodes are dropped from the front until `k` octets are gone. */
  function ConsumeChain(chain: seq<Node>, num: nat, k: nat): (r: (seq<Node>, nat))
    requires 1 <= num <= |chain|
    ensures 1 <= |r.0|
    decreases |chain|
  {
    if k == 0 then (chain, num)
    else if k < |chain[0].data| then ([FrontCut(chain[0], k)] + chain[1..], num)
    else if num == 1 then ([ZERO], 0)
    else ConsumeChain(chain[1..], num - 1, k - |chain[0].data|)
  }

  /** skb_consume across nodes, and how much it took. */
  function Consume(s: Skb, size: nat): Skb
    requires s.num <= |s.chain| && (s.num == 0 ==> s.total == 0)
  {
    var k := Min(size, s.total);
    if k == 0 then s
    else var r := ConsumeChain(s.chain, s.num, k); Skb(r.0, r.1, s.total - k)
  }

  /** skb_consume with `linear`: at most the first node. */
  function ConsumeLinear(s: Skb, size: nat): Skb
    requires s.num <= |s.chain| && s.chain != []
  {
    var k := Min(Min(size, s.total), |s.chain[0].data|);
    if Min(size, s.total) == 0 then s
    else if k < |s.chain[0].data| then Skb([FrontCut(s.chain[0], k)] + s.chain[1..], s.num, s.total - k)
    else if s.num > 1 then Skb(s.chain[1..], s.num - 1, s.total - k)
    else Skb([ZERO], 0, s.total - k)
  }

  lemma {:induction false} ConsumeChainIs(chain: seq<Node>, k: nat)
    requires chain != [] && 0 < k <= |Bytes(chain)|
    ensures var r := ConsumeChain(chain, |chain|, k);
            && Bytes(r.0) == Bytes(chain)[k..]
            && (if r.1 == 0 then r.0 == [ZERO] else r.1 == |r.0|)
    decreases |chain|
  {
    if k < |chain[0].data| {
      assert ([FrontCut(chain[0], k)] + chain[1..])[1..] == chain[1..];
      assert (chain[0].data + Bytes(chain[1..]))[k..] == chain[0].data[k..] + Bytes(chain[1..]);
    } else if |chain| == 1 {
      BytesOne(ZERO);
      BytesOne(chain[0]);
      assert chain == [chain[0]];
    } else {
      assert (chain[0].data + Bytes(chain[1..]))[k..] == Bytes(chain[1..])[k - |chain[0].data|..];
      if k > |chain[0].data| { ConsumeChainIs(chain[1..], k - |chain[0].data|); }
    }
  }

  /** Consuming takes exactly the first octets off. */
  lemma {:induction false} ConsumeIs(s: Skb, size: nat)
    requires WellFormed(s)
    ensures s.num == 0 ==> s.total == 0
    ensures WellFormed(Consume(s, size)) && Bytes(Consume(s, size).chain) == Bytes(s.chain)[Min(size, s.total)..]
    ensures Consume(s, size).num <= s.num
  {
    BytesOne(ZERO);
    if Min(size, s.total) > 0 {
      ConsumeChainIs(s.chain, Min(size, s.total));
      ConsumeNum(s.chain, s.num, Min(size, s.total));
    }
  }

  lemma {:induction false} ConsumeNum(chain: seq<Node>, num: nat, k: nat)
    requires 1 <= num <= |chain|
    ensures ConsumeChain(chain, num, k).1 <= num
    decreases |chain|
  {
    if k > 0 && k >= |chain[0].data| && num > 1 { ConsumeNum(chain[1..], num - 1, k - |chain[0].data|); }
  }

  lemma {:induction false} ConsumeLinearIs(s: Skb, size: nat)
    requires WellFormed(s)
    ensures s.chain != [] && s.num <= |s.chain|
    ensures var k := Min(Min(size, s.total), |s.chain[0].data|);
            WellFormed(ConsumeLinear(s, size)) && Bytes(ConsumeLinear(s, size).chain) == Bytes(s.chain)[k..]
  {
    BytesOne(ZERO);
    assert s.chain != [] by { if s.num == 0 { assert |[ZERO]| == 1; } }
    var n := s.chain[0];
    var k := Min(Min(size, s.total), |n.data|);
    if Min(size, s.total) > 0 {
      assert (n.data + Bytes(s.chain[1..]))[k..] == n.data[k..] + Bytes(s.chain[1..]);
      if k < |n.data| { assert ([FrontCut(n, k)] + s.chain[1..])[1..] == s.chain[1..]; }
      else if s.num == 1 { assert s.chain[1..] == []; }
    }
  }

  // ---------------------------------------------------------------- truncate

  function BackCut(n: Node, k: nat): Node
    requires k <= |n.data|
  {
    Node(n.pre, n.data[..k], n.post + |n.data| - k)
  }

  /** The first nodes, up to and including the one that holds octet `len - 1`. */
  function Keep(chain: seq<Node>, len: nat): seq<Node> {
    if chain == [] then []
    else if |chain[0].data| >= len then [BackCut(chain[0], len)]
    else [chain[0]] + Keep(chain[1..], len - |chain[0].data|)
  }

  /** skb_truncate. */
  function Truncate(s: Skb, len: nat): Skb
    requires WellFormed(s)
  {
    if len >= s.total then s
    else if len == 0 then Skb([ZERO], 0, 0)
    else var kept := Keep(s.chain, len); Skb(kept, s.num - (|s.chain| - |kept|), len)
  }

  lemma {:induction false} KeepIs(chain: seq<Node>, len: nat)
    requires 0 < len <= |Bytes(chain)|
    ensures Bytes(Keep(chain, len)) == Bytes(chain)[..len] && 1 <= |Keep(chain, len)| <= |chain|
    decreases |chain|
  {
    var n := chain[0];
    if |n.data| >= len {
      BytesOne(BackCut(n, len));
      assert (n.data + Bytes(chain[1..]))[..len] == n.data[..len];
    } else {
      KeepIs(chain[1..], len - |n.data|);
      assert ([n] + Keep(chain[1..], len - |n.data|))[1..] == Keep(chain[1..], len - |n.data|);
      assert (n.data + Bytes(chain[1..]))[..len] == n.data + Bytes(chain[1..])[..len - |n.data|];
    }
  }

  lemma {:induction false} KeepStep(chain: seq<Node>, i: nat, rest: nat)
    requires i < |chain| && |chain[i].data| < rest <= |Bytes(chain[i..])|
    ensures i + 1 < |chain| && rest - |chain[i].data| <= |Bytes(chain[i + 1..])|
    ensures chain[..i] + Keep(chain[i..], rest) == chain[..i + 1] + Keep(chain[i + 1..], rest - |chain[i].data|)
  {
    assert chain[i..][1..] == chain[i + 1..];
    assert Bytes(chain[i + 1..]) != [];
    var more := Keep(chain[i + 1..], rest - |chain[i].data|);
    assert chain[..i] + ([chain[i]] + more) == chain[..i + 1] + more;
  }

  /** Truncating keeps exactly the first octets. */
  lemma {:induction false} TruncateIs(s: Skb, len: nat)
    requires WellFormed(s)
    ensures WellFormed(Truncate(s, len)) && Bytes(Truncate(s, len).chain) == Bytes(s.chain)[..Min(len, s.total)]
    ensures Truncate(s, len).num <= s.num
  {
    BytesOne(ZERO);
    if len < s.total && len > 0 { KeepIs(s.chain, len); }
  }

  // ---------------------------------------------------------------- split and append

  /** Nodes before the cut and from the cut on; None where skb_split gives up. */
  function SplitChain(chain: seq<Node>, len: nat): Option<(seq<Node>, seq<Node>)>
    decreases |chain|
  {
    if chain == [] then None
    else
      var n := chain[0];
      if len < |n.data| then
        if len == 0 then None
        else Some(([BackCut(n, len)], [FrontCut(n, len)] + chain[1..]))
      else if len == |n.data| then
        if |chain| == 1 then None else Some(([n], chain[1..]))
      else
        match SplitChain(chain[1..], len - |n.data|)
        case None => None
        case Some(p) => Some(([n] + p.0, p.1))
  }

  /** skb_split when its allocations succeed: what stays and what is split off. */
  function Split(s: Skb, len: nat): Option<(Skb, Skb)> {
    if len >= s.total then None
    else
      match SplitChain(s.chain, len)
      case None => None
      case Some(p) =>
        var moved := |p.1| - if |p.0| + |p.1| > |s.chain| then 1 else 0;
        Some((Skb(p.0, if s.num >= moved then s.num - moved else 0, len), Skb(p.1, |p.1|, s.total - len)))
  }

  lemma {:induction false} SplitChainIs(chain: seq<Node>, len: nat)
    requires len < |Bytes(chain)|
    ensures SplitChain(chain, len) == None <==> len == 0 && chain[0].data != []
    ensures SplitChain(chain, len).Some? ==>
              var p := SplitChain(chain, len).value;
              && Bytes(p.0) == Bytes(chain)[..len] && Bytes(p.1) == Bytes(chain)[len..]
              && 1 <= |p.0| <= |chain| && 1 <= |p.1| && |chain| <= |p.0| + |p.1| <= |chain| + 1
    decreases |chain|
  {
    var n := chain[0];
    var rest := Bytes(chain[1..]);
    if len < |n.data| {
      if len > 0 {
        BytesOne(BackCut(n, len));
        assert ([FrontCut(n, len)] + chain[1..])[1..] == chain[1..];
        assert (n.data + rest)[..len] == n.data[..len];
        assert (n.data + rest)[len..] == n.data[len..] + rest;
      }
    } else if len == |n.data| {
      BytesOne(n);
      assert (n.data + rest)[..len] == n.data;
      assert (n.data + rest)[len..] == rest;
      assert |chain| == 1 ==> rest == [];
    } else {
      SplitChainIs(chain[1..], len - |n.data|);
      assert (n.data + rest)[..len] == n.data + rest[..len - |n.data|];
      assert (n.data + rest)[len..] == rest[len - |n.data|..];
      if SplitChain(chain[1..], len - |n.data|).Some? {
        var p := SplitChain(chain[1..], len - |n.data|).value;
        assert ([n] + p.0)[1..] == p.0;
      }
    }
  }

  function Before(pre: seq<Node>, rest: Option<(seq<Node>, seq<Node>)>): Option<(seq<Node>, seq<Node>)> {
    match rest
    case None => None
    case Some(p) => Some((pre + p.0, p.1))
  }

  /** The two parts, given the node where the tail starts and how far into it. */
  function CutAt(chain: seq<Node>, i: nat, cut: nat): Option<(seq<Node>, seq<Node>)>
    requires i <= |chain| && (cut > 0 ==> i < |chain| && cut <= |chain[i].data|)
  {
    if cut > 0 then Some((chain[..i] + [BackCut(chain[i], cut)], [FrontCut(chain[i], cut)] + chain[i + 1..]))
    else if i == 0 || i == |chain| then None else Some((chain[..i], chain[i..]))
  }

  lemma {:induction false} AtStart(chain: seq<Node>, len: nat)
    ensures SplitChain(chain, len) == Before(chain[..0], SplitChain(chain[0..], len))
  {
    assert chain[0..] == chain;
    var r := SplitChain(chain, len);
    assert r.Some? ==> [] + r.value.0 == r.value.0;
  }

  /** One node passed over. */
  lemma {:induction false} BeforeStep(chain: seq<Node>, i: nat, k: nat)
    requires i < |chain| && |chain[i].data| <= k
    ensures k > |chain[i].data| ==>
              Before(chain[..i], SplitChain(chain[i..], k))
              == Before(chain[..i + 1], SplitChain(chain[i + 1..], k - |chain[i].data|))
    ensures k == |chain[i].data| ==> Before(chain[..i], SplitChain(chain[i..], k)) == CutAt(chain, i + 1, 0)
  {
    var n := chain[i];
    assert chain[i..][1..] == chain[i + 1..];
    assert chain[..i] + [n] == chain[..i + 1];
    if k > |n.data| {
      var r := SplitChain(chain[i + 1..], k - |n.data|);
      assert r.Some? ==> chain[..i] + ([n] + r.value.0) == chain[..i + 1] + r.value.0;
    }
  }

  /** A split cuts the octets in two at `len` and keeps both bookkeepings right; it is refused exactly
      at or past the end, and at 0 unless the buffer starts with an empty node. */
  lemma {:induction false} SplitIs(s: Skb, len: nat)
    requires WellFormed(s)
    ensures s.chain != []
    ensures Split(s, len) == None <==> len >= s.total || (len == 0 && s.chain[0].data != [])
    ensures Split(s, len).Some? ==>
              var p := Split(s, len).value;
              && WellFormed(p.0) && WellFormed(p.1) && p.0.num >= 1 && p.1.num >= 1
              && Bytes(p.0.chain) == Bytes(s.chain)[..len] && Bytes(p.1.chain) == Bytes(s.chain)[len..]
              && p.0.num + p.1.num <= s.num + 1
  {
    BytesOne(ZERO);
    if len < s.total { SplitChainIs(s.chain, len); }
  }

  /** The node counts of the two parts, as skb_split computes them. */
  lemma {:induction false} SplitCounts(s: Skb, len: nat, kept: seq<Node>, moved: seq<Node>, cut: nat)
    requires WellFormed(s) && len < s.total && SplitChain(s.chain, len) == Some((kept, moved))
    requires |kept| + |moved| == |s.chain| + if cut > 0 then 1 else 0
    ensures var n := |moved| - if cut > 0 then 1 else 0;
            && 0 <= n <= s.num && WellFormed(Skb(kept, s.num - n, len))
            && WellFormed(Skb(moved, |moved|, s.total - len))
            && Split(s, len) == Some((Skb(kept, s.num - n, len), Skb(moved, |moved|, s.total - len)))
  {
    SplitIs(s, len);
  }

  /** skb_append_skb without copying, when its allocation succeeds. */
  function Append(a: Skb, b: Skb): Option<Skb> {
    if a.num + b.num > MAX_NODES then None
    else Some(Skb(a.chain + b.chain, a.num + b.num, a.total + b.total))
  }

  /** Appending concatenates; the node count stays right if and only if neither side is without
      data nodes. */
  lemma {:induction false} AppendIs(a: Skb, b: Skb)
    requires WellFormed(a) && WellFormed(b) && a.num + b.num <= MAX_NODES
    ensures Append(a, b).Some? && Bytes(Append(a, b).value.chain) == Bytes(a.chain) + Bytes(b.chain)
    ensures Append(a, b).value.total == |Bytes(a.chain)| + |Bytes(b.chain)|
    ensures WellFormed(Append(a, b).value) <==> a.num >= 1 && b.num >= 1
  {
    BytesAppend(a.chain, b.chain);
    assert |[ZERO]| == 1;
  }

  /** What goes wrong otherwise: the count is one short, and the next consume drops everything. */
  lemma {:induction false} AppendToEmpty(b: Skb)
    requires WellFormed(b) && b.num == 1 && b.total >= 2
    ensures var c := Append(Skb([ZERO], 0, 0), b).value;
            && c.num == 1 && |c.chain| == 2 && Bytes(c.chain) == Bytes(b.chain)
            && Consume(c, 1) == Skb([ZERO], 0, b.total - 1)
  {
    BytesOne(ZERO);
    AppendIs(Skb([ZERO], 0, 0), b);
    var c := Append(Skb([ZERO], 0, 0), b).value;
    assert c.chain[0] == ZERO;
    assert [] + Bytes(b.chain) == Bytes(b.chain);
  }

  /** Splitting and appending again gives the same octets whenever the append succeeds, which it does
      exactly if the two parts have at most 32 nodes together; below 32 nodes it always does. */
  lemma {:induction false} SplitThenAppend(s: Skb, len: nat)
    requires WellFormed(s) && Split(s, len).Some?
    ensures var p := Split(s, len).value;
            && (Append(p.0, p.1).Some? <==> p.0.num + p.1.num <= MAX_NODES)
            && (s.num < MAX_NODES ==> Append(p.0, p.1).Some?)
            && (Append(p.0, p.1).Some? ==> && WellFormed(Append(p.0, p.1).value)
                                           && Bytes(Append(p.0, p.1).value.chain) == Bytes(s.chain))
  {
    SplitIs(s, len);
    var p := Split(s, len).value;
    if p.0.num + p.1.num <= MAX_NODES { AppendIs(p.0, p.1); }
    assert Bytes(s.chain)[..len] + Bytes(s.chain)[len..] == Bytes(s.chain);
  }

  // ---------------------------------------------------------------- growing at the ends

  /** More data in the last node is more data at the end. */
  lemma {:induction false} LastGrows(chain: seq<Node>, last: Node, more: seq<Byte>)
    requires chain != [] && last.data == chain[|chain| - 1].data + more
    ensures Bytes(chain[|chain| - 1 := last]) == Bytes(chain) + more
  {
    var k := |chain| - 1;
    assert chain == chain[..k] + [chain[k]];
    assert chain[k := last] == chain[..k] + [last];
    BytesAppend(chain[..k], [chain[k]]);
    BytesAppend(chain[..k], [last]);
    BytesOne(chain[k]);
    BytesOne(last);
    assert Bytes(chain[..k]) + (chain[k].data + more) == Bytes(chain[..k]) + chain[k].data + more;
  }

  /** skb_data_push: room before the data if there is enough, a new node otherwise.  The caller
      fills in the new octets; `fill` stands for them. */
  function Push(s: Skb, fill: seq<Byte>): Option<Skb>
    requires s.chain != []
  {
    var n := s.chain[0];
    if n.pre >= |fill| then
      Some(Skb([Node(n.pre - |fill|, fill + n.data, n.post)] + s.chain[1..], s.num, s.total + |fill|))
    else if s.num >= MAX_NODES then None
    else Some(Skb([Node(0, fill, 0)] + s.chain, s.num + 1, s.total + |fill|))
  }

  lemma {:induction false} PushIs(s: Skb, fill: seq<Byte>)
    requires WellFormed(s) && s.num >= 1
    ensures Push(s, fill) == None <==> s.chain[0].pre < |fill| && s.num >= MAX_NODES
    ensures Push(s, fill).Some? ==>
              WellFormed(Push(s, fill).value) && Bytes(Push(s, fill).value.chain) == fill + Bytes(s.chain)
  {
    var n := s.chain[0];
    if n.pre >= |fill| {
      assert ([Node(n.pre - |fill|, fill + n.data, n.post)] + s.chain[1..])[1..] == s.chain[1..];
      assert fill + n.data + Bytes(s.chain[1..]) == fill + (n.data + Bytes(s.chain[1..]));
    } else {
      assert ([Node(0, fill, 0)] + s.chain)[1..] == s.chain;
    }
  }

  lemma {:induction false} RoomLeft(left: nat, capacity: nat, nodes: nat)
    requires 0 < left <= capacity * nodes
    ensures nodes >= 1 && capacity >= 1
    ensures left > capacity ==> left - capacity <= capacity * (nodes - 1)
    ensures 0 <= capacity * (nodes - 1)
  {
  }

  lemma {:induction false} AddNode(chain: seq<Node>, node: Node, left: seq<Byte>, chunk: nat)
    requires chunk <= |left| && node.data == left[..chunk]
    ensures Bytes(chain + [node]) + left[chunk..] == Bytes(chain) + left
    ensures |Bytes(chain + [node])| == |Bytes(chain)| + chunk
  {
    BytesAppend(chain, [node]);
    BytesOne(node);
    assert left == left[..chunk] + left[chunk..];
  }

  lemma {:induction false} SliceFrom(b: seq<Byte>, pos: nat, skip: nat, len: nat)
    requires pos + skip <= |b|
    ensures pos + skip + len <= |b| ==> b[pos..][skip..skip + len] == b[pos + skip..pos + skip + len]
  {
  }

  /** Nothing starts after the last node. */
  lemma {:induction false} EndsAt(chain: seq<Node>, pos: nat)
    requires pos <= |Bytes(chain)| && Bytes(chain)[pos..] == Bytes(chain[|chain|..])
    ensures pos == |Bytes(chain)|
  {
    assert chain[|chain|..] == [];
  }

  /** The copy loop of skb_copy_bits on the nodes from some node on: `skip` octets into the first one, at
      most `len` octets.  What was copied, and how much is missing. */
  function Copy(chain: seq<Node>, skip: nat, len: nat): (seq<Byte>, nat)
    requires chain == [] || skip <= |chain[0].data|
    decreases |chain|
  {
    if chain == [] || len == 0 then ([], len)
    else
      var take := Min(|chain[0].data| - skip, len);
      var r := Copy(chain[1..], 0, len - take);
      (chain[0].data[skip..skip + take] + r.0, r.1)
  }

  lemma {:induction false} CopyIs(chain: seq<Node>, skip: nat, len: nat)
    requires if chain == [] then skip == 0 else skip <= |chain[0].data|
    ensures var r := Copy(chain, skip, len);
            && skip <= |Bytes(chain)| && (r.1 == 0 <==> skip + len <= |Bytes(chain)|)
            && (r.1 == 0 ==> r.0 == Bytes(chain)[skip..skip + len])
    decreases |chain|
  {
    if chain != [] && len > 0 {
      var d, rest := chain[0].data, Bytes(chain[1..]);
      var take := Min(|d| - skip, len);
      CopyIs(chain[1..], 0, len - take);
      if len - take <= |rest| { CopyJoin(d, rest, skip, take, len); }
    }
  }

  /** Between two rounds of the copy loop: what is copied and what is still to come from node i on. */
  predicate Copying(chain: seq<Node>, i: nat, skip: nat, left: nat, out: seq<Byte>, all: (seq<Byte>, nat)) {
    && i <= |chain| && (left > 0 && i < |chain| ==> skip <= |chain[i].data|)
    && if left > 0 && i < |chain| then var r := Copy(chain[i..], skip, left); all == (out + r.0, r.1)
       else all == (out, left)
  }

  lemma {:induction false} CopyingStep(chain: seq<Node>, i: nat, skip: nat, left: nat,
                                       out: seq<Byte>, all: (seq<Byte>, nat))
    requires i < |chain| && left > 0 && Copying(chain, i, skip, left, out, all)
    ensures var take := Min(|chain[i].data| - skip, left);
            Copying(chain, i + 1, 0, left - take, out + chain[i].data[skip..skip + take], all)
  {
    CopyStep(chain, i, skip, left, out);
  }

  /** One node of the loop. */
  lemma {:induction false} CopyStep(chain: seq<Node>, i: nat, skip: nat, left: nat, out: seq<Byte>)
    requires i < |chain| && skip <= |chain[i].data| && left > 0
    ensures var take := Min(|chain[i].data| - skip, left);
            var more, r := out + chain[i].data[skip..skip + take], Copy(chain[i..], skip, left);
            && (var s := Copy(chain[i + 1..], 0, left - take); (out + r.0, r.1) == (more + s.0, s.1))
            && (left == take || i + 1 == |chain| ==> (out + r.0, r.1) == (more, left - take))
  {
    var take := Min(|chain[i].data| - skip, left);
    assert chain[i..][1..] == chain[i + 1..];
    var s := Copy(chain[i + 1..], 0, left - take);
    var d := chain[i].data[skip..skip + take];
    assert out + (d + s.0) == (out + d) + s.0;
    assert (out + d) + [] == out + d;
    assert i + 1 == |chain| ==> chain[i + 1..] == [];
  }

  lemma {:induction false} CopyJoin(d: seq<Byte>, rest: seq<Byte>, skip: nat, take: nat, len: nat)
    requires skip <= |d| && take == Min(|d| - skip, len) && len - take <= |rest|
    ensures d[skip..skip + take] + rest[0..len - take] == (d + rest)[skip..skip + len]
  {
  }

  // ---------------------------------------------------------------- the operations in place

  /** What the nodes hold that a buffer of n nodes may still get. */
  function Spare(capacity: nat, n: nat): nat
    requires n <= MAX_NODES
  {
    capacity * (MAX_NODES - n)
  }

  class SkBuff {
    var chain: seq<Node>
    var num: nat
    var total: nat

    function V(): Skb
      reads this
    {
      Skb(chain, num, total)
    }

    predicate Valid()
      reads this
    {
      WellFormed(V())
    }

    /** skb_alloc: one empty node with room. */
    constructor (size: nat)
      ensures Valid() && num == 1 && Bytes(chain) == []
    {
      chain, num, total := [Node(0, [], size)], 1, 0;
      new;
      BytesOne(chain[0]);
    }

    method ConsumeBytes(size: nat) returns (consumed: nat)
      requires Valid()
      modifies this
      ensures V() == Consume(old(V()), size) && Valid()
      ensures consumed == Min(size, old(total)) && Bytes(chain) == old(Bytes(chain))[consumed..]
    {
      ConsumeIs(V(), size);
      consumed := Min(size, total);
      if consumed == 0 { return; }
      var remaining := consumed;
      while remaining > 0
        invariant 0 <= remaining && total == old(total)
        invariant remaining > 0 ==> 1 <= num <= |chain|
        invariant (if num == 0 then (chain, num)
                   else if 1 <= num <= |chain| then ConsumeChain(chain, num, remaining) else (chain, num))
                  == ConsumeChain(old(chain), old(num), consumed)
        decreases remaining, |chain|
      {
        var len := |chain[0].data|;
        if remaining < len {
          chain := [FrontCut(chain[0], remaining)] + chain[1..];
          break;
        }
        remaining := remaining - len;
        if num == 1 {
          chain, num := [ZERO], 0;
          break;
        }
        chain, num := chain[1..], num - 1;
      }
      total := total - consumed;
    }

    /** The search loop of skb_truncate: the last node kept, and how much of it. */
    method FindEnd(len: nat) returns (i: nat, rest: nat)
      requires 0 < len <= |Bytes(chain)|
      ensures i < |chain| && 0 < rest <= |chain[i].data|
      ensures Keep(chain, len) == chain[..i] + [BackCut(chain[i], rest)]
    {
      i, rest := 0, len;
      assert chain[0..] == chain && chain[..0] + Keep(chain, len) == Keep(chain, len);
      while |chain[i].data| < rest
        invariant i < |chain| && 0 < rest <= |Bytes(chain[i..])|
        invariant Keep(chain, len) == chain[..i] + Keep(chain[i..], rest)
        decreases |chain| - i
      {
        KeepStep(chain, i, rest);
        rest, i := rest - |chain[i].data|, i + 1;
      }
    }

    method TruncateTo(len: nat)
      requires Valid()
      modifies this
      ensures V() == Truncate(old(V()), len) && Valid()
      ensures Bytes(chain) == old(Bytes(chain))[..Min(len, old(total))]
    {
      TruncateIs(V(), len);
      if len >= total { return; }
      if len == 0 {
        chain, num, total := [ZERO], 0, 0;
        return;
      }
      var i, rest := FindEnd(len);
      num := num - (|chain| - (i + 1));
      chain := chain[..i] + [BackCut(chain[i], rest)];
      total := len;
    }

    /** The search loop of skb_split: the node where the tail starts, and how far into it. */
    method FindCut(len: nat) returns (i: nat, cut: nat)
      ensures i <= |chain| && (cut > 0 ==> i < |chain| && cut <= |chain[i].data|)
      ensures SplitChain(chain, len) == CutAt(chain, i, cut)
    {
      var cum := 0;
      i, cut := 0, 0;
      AtStart(chain, len);
      while i < |chain|
        invariant i <= |chain| && cum <= len && (i > 0 ==> cum < len) && (i == 0 ==> cum == 0) && cut == 0
        invariant SplitChain(chain, len) == Before(chain[..i], SplitChain(chain[i..], len - cum))
      {
        var n := |chain[i].data|;
        if cum + n > len {
          cut := len - cum;
          return;
        }
        BeforeStep(chain, i, len - cum);
        cum, i := cum + n, i + 1;
        if cum == len { return; }
      }
    }

    /** skb_split; `ok` is whether its allocations succeed.  Fresh buffer with the tail, or null. */
    method SplitOff(len: nat, ok: bool) returns (tail: SkBuff?)
      requires Valid()
      modifies this
      ensures Valid()
      ensures tail == null <==> !ok || len >= old(total) || (len == 0 && old(chain)[0].data != [])
      ensures tail == null ==> V() == old(V())
      ensures tail != null ==> fresh(tail) && Split(old(V()), len) == Some((V(), tail.V())) && tail.Valid()
      ensures tail != null ==> Bytes(chain) == old(Bytes(chain))[..len] && Bytes(tail.chain) == old(Bytes(chain))[len..]
    {
      SplitIs(V(), len);
      if len >= total || !ok { return null; }
      var i, cut := FindCut(len);
      if cut == 0 && (i == 0 || i == |chain|) { return null; }
      var kept := if cut > 0 then chain[..i] + [BackCut(chain[i], cut)] else chain[..i];
      var moved := if cut > 0 then [FrontCut(chain[i], cut)] + chain[i + 1..] else chain[i..];
      SplitCounts(V(), len, kept, moved, cut);
      tail := new SkBuff(0);
      tail.chain, tail.num, tail.total := moved, |moved|, total - len;
      chain, num, total := kept, num - (|moved| - if cut > 0 then 1 else 0), len;
    }

    /** skb_append_skb without copying; `ok` is whether its allocation succeeds. */
    method AppendSkb(b: SkBuff, ok: bool) returns (done: bool)
      requires b != this && Valid() && b.Valid()
      modifies this, b
      ensures done <==> ok && old(num + b.num) <= MAX_NODES
      ensures !done ==> V() == old(V()) && b.V() == old(b.V())
      ensures done ==> Append(old(V()), old(b.V())) == Some(V()) && b.V() == Skb([ZERO], 0, 0)
      ensures done ==> Bytes(chain) == old(Bytes(chain)) + old(Bytes(b.chain))
      ensures done ==> (Valid() <==> old(num) >= 1 && old(b.num) >= 1)
    {
      if num + b.num > MAX_NODES || !ok { return false; }
      AppendIs(V(), b.V());
      chain, num, total := chain + b.chain, num + b.num, total + b.total;
      b.chain, b.num, b.total := [ZERO], 0, 0;
      done := true;
    }

    /** skb_append_skb with copying: into the room after the last octet, if there is enough. */
    method AppendCopy(b: SkBuff) returns (done: bool)
      requires b != this && Valid() && b.Valid()
      modifies this
      ensures done <==> old(chain[|chain| - 1].post) >= b.total
      ensures !done ==> V() == old(V())
      ensures done && num >= 1 ==> Valid() && num == old(num) && Bytes(chain) == old(Bytes(chain)) + Bytes(b.chain)
    {
      var last := chain[|chain| - 1];
      if last.post < b.total { return false; }
      var data, left, i := last.data, b.total, 0;
      while i < |b.chain| && left > 0
        invariant i <= |b.chain| && V() == old(V())
        invariant left == |Bytes(b.chain[i..])| && last.data + Bytes(b.chain) == data + Bytes(b.chain[i..])
      {
        assert b.chain[i..][1..] == b.chain[i + 1..];
        assert data + (b.chain[i].data + Bytes(b.chain[i + 1..])) == data + b.chain[i].data + Bytes(b.chain[i + 1..]);
        data, left, i := data + b.chain[i].data, left - |b.chain[i].data|, i + 1;
      }
      assert data == last.data + Bytes(b.chain);
      LastGrows(chain, Node(last.pre, data, last.post - b.total), Bytes(b.chain));
      chain := chain[|chain| - 1 := Node(last.pre, data, last.post - b.total)];
      total := total + b.total;
      done := true;
    }

    /** The skip loop of skb_copy_bits: the first node with an octet at or after `offset`. */
    method FindOffset(offset: nat) returns (i: nat, pos: nat)
      ensures i <= |chain| && pos <= offset && pos <= |Bytes(chain)|
      ensures Bytes(chain)[pos..] == Bytes(chain[i..])
      ensures i < |chain| ==> pos + |chain[i].data| > offset
    {
      i, pos := 0, 0;
      assert chain[0..] == chain;
      while i < |chain|
        invariant i <= |chain| && pos <= offset && pos <= |Bytes(chain)|
        invariant Bytes(chain)[pos..] == Bytes(chain[i..])
      {
        var n := |chain[i].data|;
        if pos + n > offset { return; }
        assert chain[i..][1..] == chain[i + 1..];
        assert Bytes(chain)[pos..][n..] == Bytes(chain)[pos + n..];
        pos, i := pos + n, i + 1;
      }
    }

    /** The copy loop of skb_copy_bits, from node `first` that starts at `start`. */
    method CopyFrom(first: nat, start: nat, offset: nat, len: nat) returns (left: nat, out: seq<Byte>)
      requires first < |chain| && start <= offset < start + |chain[first].data|
      ensures (out, left) == Copy(chain[first..], offset - start, len)
    {
      var i, pos, at := first, start, offset;
      left, out := len, [];
      ghost var all := Copy(chain[first..], offset - start, len);
      assert [] + all.0 == all.0;
      while i < |chain| && left > 0
        invariant 0 <= i <= |chain| && (left > 0 ==> pos <= at)
        invariant Copying(chain, i, if left > 0 then at - pos else 0, left, out, all)
      {
        var n := |chain[i].data|;
        var skip := if at > pos then at - pos else 0;
        var take := if n - skip < left then n - skip else left;
        CopyingStep(chain, i, skip, left, out, all);
        out, left, at := out + chain[i].data[skip..skip + take], left - take, at + take;
        pos, i := pos + n, i + 1;
      }
    }

    /** skb_copy_bits.  The subtraction of the range test wraps in 32 bits when the offset is past the
        end, and then nothing but an empty range is found. */
    method CopyBits(offset: nat, len: nat) returns (r: Option<seq<Byte>>)
      requires Valid() && offset < 0x1_0000_0000 && len < 0x1_0000_0000 && total < 0x1_0000_0000
      ensures r.Some? <==> len == 0 || offset + len <= total
      ensures r.Some? ==> r.value == if len == 0 then [] else Bytes(chain)[offset..offset + len]
    {
      if len > (total - offset) % 0x1_0000_0000 {
        assert len > 0 && (offset <= total ==> (total - offset) % 0x1_0000_0000 == total - offset);
        return None;
      }
      var i, pos := FindOffset(offset);
      if i == |chain| || len == 0 {
        if i == |chain| { EndsAt(chain, pos); }
        return if len == 0 then Some([]) else None;
      }
      var left, out := CopyFrom(i, pos, offset, len);
      CopyIs(chain[i..], offset - pos, len);
      SliceFrom(Bytes(chain), pos, offset - pos, len);
      r := if left == 0 then Some(out) else None;
    }

    /** The allocation loop of skb_data_append: new nodes of at most `capacity` octets.  Gives up at the
        first failed allocation, leaving what was built so far for the caller to undo. */
    method AddNodes(buf: seq<Byte>, pre: nat, capacity: nat, alloc: bool) returns (left: seq<Byte>)
      requires Valid() && num >= 1 && num <= MAX_NODES && |buf| <= Spare(capacity, num)
      modifies this
      ensures Valid() && old(num) <= num <= MAX_NODES && chain[..old(num)] == old(chain)
      ensures Bytes(chain) + left == old(Bytes(chain)) + buf
      ensures alloc ==> left == []
    {
      left := buf;
      assert chain[..num] == chain;
      while left != []
        invariant Valid() && old(num) <= num <= MAX_NODES && chain[..old(num)] == old(chain)
        invariant Bytes(chain) + left == old(Bytes(chain)) + buf
        invariant |left| <= Spare(capacity, num)
        decreases MAX_NODES - num
      {
        var ok := *;
        if !ok && !alloc { return; }
        RoomLeft(|left|, capacity, MAX_NODES - num);
        var chunk := if |left| < capacity then |left| else capacity;
        var node := Node(pre, left[..chunk], capacity - chunk);
        AddNode(chain, node, left, chunk);
        chain, num, total, left := chain + [node], num + 1, total + chunk, left[chunk..];
      }
    }

    /** skb_data_append: all or nothing, whatever allocations fail, and never more than 32 nodes.  If none
        fails (`alloc`) it succeeds exactly when what is left in the last node and in the nodes to spare is
        enough. */
    method DataAppend(buf: seq<Byte>, pre: nat, segLen: nat, alloc: bool) returns (done: bool)
      requires Valid() && 1 <= num <= MAX_NODES && pre <= segLen
      modifies this
      ensures Valid() && num <= MAX_NODES
      ensures done ==> Bytes(chain) == old(Bytes(chain)) + buf
      ensures !done ==> V() == old(V())
      ensures var fits := |buf| <= old(chain[num - 1].post) + Spare(segLen - pre, old(num));
              (done ==> fits) && (alloc && fits ==> done)
    {
      var capacity := segLen - pre;
      var last := chain[num - 1];
      var chain0, num0, total0 := chain, num, total;
      if last.post + Spare(capacity, num) < |buf| { return false; }
      var use := if |buf| < last.post then |buf| else last.post;
      LastGrows(chain, Node(last.pre, last.data + buf[..use], last.post - use), buf[..use]);
      chain := chain[num - 1 := Node(last.pre, last.data + buf[..use], last.post - use)];
      total := total + use;
      assert old(Bytes(chain)) + buf == old(Bytes(chain)) + buf[..use] + buf[use..];
      var left := AddNodes(buf[use..], pre, capacity, alloc);
      if left != [] {
        chain, num, total := chain0, num0, total0;
        return false;
      }
      assert Bytes(chain) + [] == Bytes(chain);
      done := true;
    }
  }
}
