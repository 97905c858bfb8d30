/** The TCP send queues as pieces of the connection's sequence space.

    `space` is everything that has been given a sequence number so far: the SYN, every octet the
    application wrote, the FIN.  A queue of segments is a row: each segment is the slice of the
    space where the previous one ends, under the sequence number of that place modulo 2^32. */
module TcpSendQueue {
  import opened Common
  import opened TcpSeq

  datatype Unit = Syn | Octet(b: Byte) | Fin

  /** A queued segment: recorded sequence number, payload, and the two flags that use a number. */
  datatype Skb = Skb(seqno: int, data: seq<Byte>, syn: bool, fin: bool)

  datatype Space = Space(isn: nat, units: seq<Unit>)

  function SynLen(k: Skb): nat { if k.syn then 1 else 0 }
  function FinLen(k: Skb): nat { if k.fin then 1 else 0 }

  /** tcp_skb_seq_len. */
  function SeqLen(k: Skb): nat {
    |k.data| + SynLen(k) + FinLen(k)
  }

  function Octets(d: seq<Byte>): (r: seq<Unit>)
    ensures |r| == |d| && forall i :: 0 <= i < |d| ==> r[i] == Octet(d[i])
  {
    seq(|d|, i requires 0 <= i < |d| => Octet(d[i]))
  }

  function Units(k: Skb): (r: seq<Unit>)
    ensures |r| == SeqLen(k)
  {
    (if k.syn then [Syn] else []) + Octets(k.data) + (if k.fin then [Fin] else [])
  }

  /** The space holds `u` at position `at`. */
  predicate Holds(s: Space, at: nat, u: seq<Unit>) {
    at + |u| <= |s.units| && forall i :: 0 <= i < |u| ==> s.units[at + i] == u[i]
  }

  predicate InPlace(s: Space, at: nat, k: Skb) {
    k.seqno == Wrap(s.isn + at) && Holds(s, at, Units(k))
  }

  predicate Row(s: Space, at: nat, q: seq<Skb>)
    decreases |q|
  {
    q == [] || (InPlace(s, at, q[0]) && Row(s, at + SeqLen(q[0]), q[1..]))
  }

  function RowEnd(at: nat, q: seq<Skb>): nat
    decreases |q|
  {
    if q == [] then at else RowEnd(at + SeqLen(q[0]), q[1..])
  }

  /** Every segment uses sequence space. */
  predicate AllLive(q: seq<Skb>) {
    q == [] || (SeqLen(q[0]) > 0 && AllLive(q[1..]))
  }

  predicate NoSyn(q: seq<Skb>) {
    q == [] || (!q[0].syn && NoSyn(q[1..]))
  }

  /** Payload octets from a position on: what send_buffer_len counts. */
  function DataFrom(u: seq<Unit>, from: nat): nat
    decreases |u| - from
  {
    if from >= |u| then 0 else (if u[from].Octet? then 1 else 0) + DataFrom(u, from + 1)
  }

  /** The SYN can only come first and the FIN only last. */
  predicate WellFormed(u: seq<Unit>) {
    forall i :: 0 <= i < |u| ==> (u[i] == Syn ==> i == 0) && (u[i] == Fin ==> i == |u| - 1)
  }

  function Grown(s: Space, extra: seq<Unit>): Space {
    s.(units := s.units + extra)
  }

  // ---------------------------------------------------------------- units

  /** A segment cut at `n`: flags and payload fall on the side their number is on. */
  lemma {:induction false} CutUnits(k: Skb, n: nat, a: Skb, b: Skb)
    requires !k.syn && n <= SeqLen(k) && !a.syn && !b.syn
    requires a.data == k.data[..if n < |k.data| then n else |k.data|] && a.fin == (k.fin && n > |k.data|)
    requires b.data == k.data[if n < |k.data| then n else |k.data|..] && b.fin == (k.fin && n <= |k.data|)
    ensures Units(a) == Units(k)[..n] && Units(b) == Units(k)[n..] && SeqLen(a) == n
  {
    assert Octets(k.data) == Octets(a.data) + Octets(b.data);
    if n <= |k.data| {
      assert Units(a) == Octets(a.data);
      assert Units(k) == Octets(a.data) + Units(b);
    } else {
      assert Units(b) == [] && a.data == k.data && Units(a) == Units(k);
    }
  }

  /** Dropping acknowledged units from the front of a segment: the SYN first, then payload. */
  lemma {:induction false} TrimUnits(k: Skb, n: nat, r: Skb)
    requires 0 < n < SeqLen(k)
    requires !r.syn && r.fin == k.fin && SynLen(k) <= n && n - SynLen(k) <= |k.data|
             && r.data == k.data[n - SynLen(k)..]
    ensures Units(r) == Units(k)[n..] && SeqLen(r) == SeqLen(k) - n
  {
    var o, f, m := Octets(k.data), if k.fin then [Fin] else [], n - SynLen(k);
    assert Octets(r.data) == o[m..];
    DropParts(if k.syn then [Syn] else [], o, f, m);
  }

  lemma {:induction false} DropParts(a: seq<Unit>, o: seq<Unit>, f: seq<Unit>, m: nat)
    requires m <= |o|
    ensures (a + o + f)[|a| + m..] == [] + o[m..] + f
  {
  }

  /** The copy that goes out holds the first `b` units of the queued segment. */
  lemma {:induction false} SentUnits(k: Skb, b: nat, sent: Skb)
    requires b <= SeqLen(k) && (k.syn ==> b > 0)
    requires sent.syn == k.syn && sent.fin == (k.fin && b > SynLen(k) + |k.data|)
    requires |sent.data| == (if b <= SynLen(k) then 0 else if b - SynLen(k) < |k.data| then b - SynLen(k) else |k.data|)
    requires sent.data <= k.data
    ensures Units(sent) == Units(k)[..b]
  {
    var o := Octets(k.data);
    assert Octets(sent.data) == o[..|sent.data|];
    if sent.fin {
      assert sent.data == k.data && Units(sent) == Units(k);
    } else if k.syn {
      assert Units(sent) == [Syn] + o[..b - 1];
    } else {
      assert Units(sent) == o[..b];
    }
  }

  lemma {:induction false} AppendData(k: Skb, d: seq<Byte>)
    requires !k.fin
    ensures Units(k.(data := k.data + d)) == Units(k) + Octets(d)
  {
    assert Octets(k.data + d) == Octets(k.data) + Octets(d);
  }

  lemma {:induction false} DataFromGrows(u: seq<Unit>, extra: seq<Unit>, from: nat)
    requires from <= |u|
    ensures DataFrom(u + extra, from) == DataFrom(u, from) + DataFrom(extra, 0)
    decreases |u| - from
  {
    if from < |u| {
      assert (u + extra)[from] == u[from];
      DataFromGrows(u, extra, from + 1);
    } else {
      DataFromShift(u, extra, 0);
    }
  }

  lemma {:induction false} DataFromShift(u: seq<Unit>, extra: seq<Unit>, i: nat)
    requires i <= |extra|
    ensures DataFrom(u + extra, |u| + i) == DataFrom(extra, i)
    decreases |extra| - i
  {
    if i < |extra| {
      assert (u + extra)[|u| + i] == extra[i];
      DataFromShift(u, extra, i + 1);
    }
  }

  lemma {:induction false} DataFromOctets(d: seq<Byte>, i: nat)
    requires i <= |d|
    ensures DataFrom(Octets(d), i) == |d| - i
    decreases |d| - i
  {
    if i < |d| { DataFromOctets(d, i + 1); }
  }

  /** n units that are all payload. */
  lemma {:induction false} DataFromRun(u: seq<Unit>, from: nat, n: nat)
    requires from + n <= |u| && forall i :: from <= i < from + n ==> u[i].Octet?
    ensures DataFrom(u, from) == n + DataFrom(u, from + n)
    decreases n
  {
    if n > 0 { DataFromRun(u, from + 1, n - 1); }
  }

  /** The payload of a segment, or of its first n units when the SYN is among them. */
  lemma {:induction false} DataFromTrim(s: Space, at: nat, k: Skb, n: nat)
    requires Holds(s, at, Units(k)) && SynLen(k) <= n <= SeqLen(k) && n <= SynLen(k) + |k.data|
    ensures DataFrom(s.units, at) == n - SynLen(k) + DataFrom(s.units, at + n)
  {
    forall i | at + SynLen(k) <= i < at + n ensures s.units[i].Octet? {
      assert s.units[at + (i - at)] == Units(k)[i - at];
    }
    DataFromRun(s.units, at + SynLen(k), n - SynLen(k));
    if k.syn { assert s.units[at + 0] == Units(k)[0] == Syn; }
  }

  lemma {:induction false} DataFromSegment(s: Space, at: nat, k: Skb)
    requires Holds(s, at, Units(k))
    ensures DataFrom(s.units, at) == |k.data| + DataFrom(s.units, at + SeqLen(k))
  {
    var n := SynLen(k) + |k.data|;
    DataFromTrim(s, at, k, n);
    if k.fin { assert s.units[at + n] == Units(k)[n] == Fin; }
  }

  /** The outstanding span exceeds the buffered payload by at most the SYN and the FIN. */
  lemma {:induction false} SpanBound(u: seq<Unit>, from: nat)
    requires WellFormed(u) && from <= |u|
    ensures |u| - from <= DataFrom(u, from) + 2
    ensures from > 0 ==> |u| - from <= DataFrom(u, from) + 1
    decreases |u| - from
  {
    if from < |u| { SpanBound(u, from + 1); }
  }

  // ---------------------------------------------------------------- rows

  lemma {:induction false} HoldsSub(s: Space, at: nat, u: seq<Unit>, lo: nat, hi: nat)
    requires Holds(s, at, u) && lo <= hi <= |u|
    ensures Holds(s, at + lo, u[lo..hi])
  {
    forall i | 0 <= i < hi - lo ensures s.units[at + lo + i] == u[lo..hi][i] {
      assert s.units[at + (lo + i)] == u[lo + i];
    }
  }

  lemma {:induction false} HoldsGrows(s: Space, at: nat, u: seq<Unit>, extra: seq<Unit>)
    requires Holds(s, at, u)
    ensures Holds(Grown(s, extra), at, u)
  {
  }

  /** Units that reach the old end are continued by what is added there. */
  lemma {:induction false} HoldsExtends(s: Space, at: nat, u: seq<Unit>, extra: seq<Unit>)
    requires Holds(s, at, u) && at + |u| == |s.units|
    ensures Holds(Grown(s, extra), at, u + extra)
  {
  }

  lemma {:induction false} RowGrows(s: Space, at: nat, q: seq<Skb>, extra: seq<Unit>)
    requires Row(s, at, q)
    ensures Row(Grown(s, extra), at, q)
    decreases |q|
  {
    if q != [] {
      HoldsGrows(s, at, Units(q[0]), extra);
      RowGrows(s, at + SeqLen(q[0]), q[1..], extra);
    }
  }

  lemma {:induction false} RowConcat(s: Space, at: nat, p: seq<Skb>, q: seq<Skb>)
    ensures RowEnd(at, p + q) == RowEnd(RowEnd(at, p), q)
    ensures Row(s, at, p + q) <==> Row(s, at, p) && Row(s, RowEnd(at, p), q)
    ensures AllLive(p + q) <==> AllLive(p) && AllLive(q)
    ensures NoSyn(p + q) <==> NoSyn(p) && NoSyn(q)
    decreases |p|
  {
    if p == [] {
      assert p + q == q;
    } else {
      assert (p + q)[1..] == p[1..] + q;
      RowConcat(s, at + SeqLen(p[0]), p[1..], q);
    }
  }

  lemma {:induction false} RowOne(s: Space, at: nat, k: Skb)
    ensures RowEnd(at, [k]) == at + SeqLen(k)
    ensures Row(s, at, [k]) <==> InPlace(s, at, k)
    ensures AllLive([k]) <==> SeqLen(k) > 0
    ensures NoSyn([k]) <==> !k.syn
  {
    assert [k][1..] == [];
  }

  /** A row and its last segment. */
  lemma {:induction false} RowLast(s: Space, at: nat, q: seq<Skb>)
    requires q != [] && Row(s, at, q)
    ensures var m := RowEnd(at, q[..|q| - 1]);
            var last := q[|q| - 1];
            && Row(s, at, q[..|q| - 1]) && InPlace(s, m, last) && RowEnd(at, q) == m + SeqLen(last)
            && (NoSyn(q) ==> NoSyn(q[..|q| - 1]) && !last.syn)
            && (AllLive(q) ==> AllLive(q[..|q| - 1]) && SeqLen(last) > 0)
  {
    var front, last := q[..|q| - 1], q[|q| - 1];
    assert q == front + [last];
    RowConcat(s, at, front, [last]);
    RowOne(s, RowEnd(at, front), last);
  }

  /** A row continued by one segment. */
  lemma {:induction false} RowAppend(s: Space, at: nat, q: seq<Skb>, k: Skb)
    requires Row(s, at, q) && InPlace(s, RowEnd(at, q), k)
    ensures Row(s, at, q + [k]) && RowEnd(at, q + [k]) == RowEnd(at, q) + SeqLen(k)
    ensures NoSyn(q) && !k.syn ==> NoSyn(q + [k])
    ensures AllLive(q) && SeqLen(k) > 0 ==> AllLive(q + [k])
  {
    RowConcat(s, at, q, [k]);
    RowOne(s, RowEnd(at, q), k);
  }

  lemma {:induction false} RowBounded(s: Space, at: nat, q: seq<Skb>)
    requires Row(s, at, q) && at <= |s.units|
    ensures at <= RowEnd(at, q) <= |s.units|
    decreases |q|
  {
    if q != [] { RowBounded(s, at + SeqLen(q[0]), q[1..]); }
  }

  /** Two plain segments merged into one. */
  lemma {:induction false} RowMerge(s: Space, at: nat, q: seq<Skb>, k: Skb)
    requires q != [] && Row(s, at, q) && AllLive(q) && InPlace(s, RowEnd(at, q), k)
    requires !q[|q| - 1].fin && !k.syn && !k.fin
    ensures var last := q[|q| - 1];
            var r := q[..|q| - 1] + [last.(data := last.data + k.data)];
            Row(s, at, r) && RowEnd(at, r) == RowEnd(at, q) + SeqLen(k) && AllLive(r)
  {
    var front, last := q[..|q| - 1], q[|q| - 1];
    var merged := last.(data := last.data + k.data);
    RowLast(s, at, q);
    MergeInPlace(s, RowEnd(at, front), last, k);
    RowAppend(s, at, front, merged);
  }

  lemma {:induction false} MergeInPlace(s: Space, at: nat, a: Skb, b: Skb)
    requires InPlace(s, at, a) && InPlace(s, at + SeqLen(a), b) && !a.fin && !b.syn && !b.fin
    ensures InPlace(s, at, a.(data := a.data + b.data))
  {
    AppendData(a, b.data);
    assert Units(b) == Octets(b.data);
    forall i | 0 <= i < SeqLen(a) + SeqLen(b) ensures s.units[at + i] == (Units(a) + Units(b))[i] {
      if i < SeqLen(a) {
        assert s.units[at + i] == Units(a)[i];
      } else {
        assert s.units[at + SeqLen(a) + (i - SeqLen(a))] == Units(b)[i - SeqLen(a)];
      }
    }
  }

  // ---------------------------------------------------------------- rows as plain sequences

  function Flat(q: seq<Skb>): seq<Unit> {
    if q == [] then [] else Units(q[0]) + Flat(q[1..])
  }

  function DataLen(q: seq<Skb>): nat {
    if q == [] then 0 else |q[0].data| + DataLen(q[1..])
  }

  lemma {:induction false} RowAt(s: Space, at: nat, q: seq<Skb>, i: nat)
    requires Row(s, at, q) && at <= |s.units|
    ensures at + |Flat(q)| == RowEnd(at, q) <= |s.units|
    ensures i < |Flat(q)| ==> Flat(q)[i] == s.units[at + i]
    decreases |q|
  {
    if q != [] {
      var n := SeqLen(q[0]);
      RowAt(s, at + n, q[1..], if i >= n then i - n else 0);
      if i < n { assert Units(q[0])[i] == s.units[at + i]; }
    }
  }

  /** A row is the slice of the space between its ends. */
  lemma {:induction false} RowIsSlice(s: Space, at: nat, q: seq<Skb>)
    requires Row(s, at, q) && at <= |s.units|
    ensures at <= RowEnd(at, q) <= |s.units| && Flat(q) == s.units[at..RowEnd(at, q)]
  {
    RowAt(s, at, q, 0);
    forall i | 0 <= i < |Flat(q)| ensures Flat(q)[i] == s.units[at..RowEnd(at, q)][i] { RowAt(s, at, q, i); }
  }

  /** And its payload is counted by DataFrom. */
  lemma {:induction false} RowData(s: Space, at: nat, q: seq<Skb>)
    requires Row(s, at, q) && at <= |s.units|
    ensures at <= RowEnd(at, q) <= |s.units|
    ensures DataFrom(s.units, at) == DataLen(q) + DataFrom(s.units, RowEnd(at, q))
    decreases |q|
  {
    if q != [] {
      RowData(s, at + SeqLen(q[0]), q[1..]);
      DataFromSegment(s, at, q[0]);
    }
  }
}
