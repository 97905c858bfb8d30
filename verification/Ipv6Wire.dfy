/** IPv6 fragments on the wire (main/ipv6_ext.c; section 4.5 of RFC 8200): finding the fragment header,
    building fragments, and the round trip through the reassembly queue. */
module Ipv6Wire {
  import opened Common
  import opened Ipv6Queue
  import Skbuff

  const FRAG_HDR: nat := 8
  const NH_OFFSET: nat := 6
  const HOPOPT: Byte := 0
  const ROUTING: Byte := 43
  const FRAG: Byte := 44
  const DSTOPTS: Byte := 60

  /** Headers looked at before the search is given up. */
  const ROUNDS: nat := 8

  function Be16(hi: Byte, lo: Byte): nat { hi * 256 + lo }
  function Hi(v: nat): Byte { v / 256 % 256 }
  function Lo(v: nat): Byte { v % 256 }

  // ---------------------------------------------------------------- find_frag_header

  /** Where the fragment header is, and the octet that names it. */
  datatype Info = Info(offset: nat, prev: nat)

  predicate IsVariable(nh: Byte) { nh == HOPOPT || nh == DSTOPTS || nh == ROUTING }

  function FindFrom(b: seq<Byte>, nh: Byte, offset: nat, prev: nat, rounds: nat): Option<Info>
    requires offset <= |b|
    decreases rounds
  {
    if rounds == 0 then None
    else if nh == FRAG then
      if offset + FRAG_HDR <= |b| then Some(Info(offset, prev)) else None
    else if !IsVariable(nh) || offset + 2 > |b| then None
    else
      var len := (b[offset + 1] as nat + 1) * 8;
      if len > |b| - offset then None
      else FindFrom(b, b[offset], offset + len, offset, rounds - 1)
  }

  function FindFragHeader(b: seq<Byte>): Option<Info> {
    if |b| < HDR then None else FindFrom(b, b[NH_OFFSET], HDR, NH_OFFSET, ROUNDS)
  }

  /** An extension header: its type, its length field and what follows that. */
  datatype Ext = Ext(kind: Byte, units: Byte, body: seq<Byte>)

  /** Hop-by-hop options, routing and destination options (0, 43 and 60), as long as the length field says. */
  predicate WellExt(e: Ext) {
    (e.kind == 0 || e.kind == 43 || e.kind == 60) && |e.body| == (e.units as nat + 1) * 8 - 2
  }

  predicate AllWell(exts: seq<Ext>) { exts == [] || (WellExt(exts[0]) && AllWell(exts[1..])) }

  /** The type of the first header of a chain that ends in `last`. */
  function Leads(exts: seq<Ext>, last: Byte): Byte { if exts == [] then last else exts[0].kind }

  /** The chain's octets: each header names the next. */
  function ExtOctets(exts: seq<Ext>, last: Byte): seq<Byte> {
    if exts == [] then []
    else [Leads(exts[1..], last), exts[0].units] + exts[0].body + ExtOctets(exts[1..], last)
  }

  /** Where the octet is that names the header after the chain. */
  function NamedAt(exts: seq<Ext>, offset: nat, prev: nat): nat {
    if exts == [] then prev else NamedAt(exts[1..], offset + 2 + |exts[0].body|, offset)
  }

  lemma {:induction false} ExtStep(pre: seq<Byte>, e: Ext, next: Byte, more: seq<Byte>, prev: nat, rounds: nat)
    requires WellExt(e) && rounds > 0
    ensures var b := pre + ([next, e.units] + e.body + more);
            FindFrom(b, e.kind, |pre|, prev, rounds) == FindFrom(b, next, |pre| + 2 + |e.body|, |pre|, rounds - 1)
  {
    var b := pre + ([next, e.units] + e.body + more);
    assert b[|pre|] == next && b[|pre| + 1] == e.units;
  }

  /** From any place in the packet: behind a chain of fewer headers than there are rounds the fragment header
      is found, at its place and named at its place; behind a longer one, or one that ends in something else,
      nothing is. */
  lemma {:induction false} ChainFrom(pre: seq<Byte>, exts: seq<Ext>, last: Byte, rest: seq<Byte>,
                                     prev: nat, rounds: nat)
    requires AllWell(exts) && last != 0 && last != 43 && last != 60
    ensures FindFrom(pre + (ExtOctets(exts, last) + rest), Leads(exts, last), |pre|, prev, rounds)
         == if last == 44 && |exts| < rounds && |rest| >= FRAG_HDR
            then Some(Info(|pre| + |ExtOctets(exts, last)|, NamedAt(exts, |pre|, prev))) else None
    decreases |exts|
  {
    if exts != [] && rounds > 0 {
      var e, next, more := exts[0], Leads(exts[1..], last), ExtOctets(exts[1..], last);
      ExtStep(pre, e, next, more + rest, prev, rounds);
      var here := [next, e.units] + e.body;
      assert pre + (here + (more + rest)) == pre + (ExtOctets(exts, last) + rest);
      assert (pre + here) + (more + rest) == pre + (here + (more + rest));
      ChainFrom(pre + here, exts[1..], last, rest, |pre|, rounds - 1);
    } else if exts == [] {
      assert pre + ([] + rest) == pre + rest;
    }
  }

  /** Which packets have a fragment header, by their chain of headers: those with at most seven hop-by-hop,
      routing and destination headers before it. */
  lemma {:induction false} ChainFound(fixed: seq<Byte>, exts: seq<Ext>, last: Byte, rest: seq<Byte>)
    requires |fixed| == HDR && AllWell(exts) && last != 0 && last != 43 && last != 60
    requires fixed[NH_OFFSET] == Leads(exts, last)
    ensures FindFragHeader(fixed + (ExtOctets(exts, last) + rest))
         == if last == 44 && |exts| <= 7 && |rest| >= FRAG_HDR
            then Some(Info(HDR + |ExtOctets(exts, last)|, NamedAt(exts, HDR, NH_OFFSET))) else None
  {
    ChainFrom(fixed, exts, last, rest, NH_OFFSET, ROUNDS);
    assert (fixed + (ExtOctets(exts, last) + rest))[NH_OFFSET] == fixed[NH_OFFSET];
  }

  // ---------------------------------------------------------------- the checks of ipv6_defrag

  /** Source, destination and identification. */
  type Key = seq<Byte>

  datatype Parsed = NoFragment | Unfragmented | Fragment(key: Key, arrival: Arrival)

  /** What a packet in some buffer is to ipv6_defrag. */
  function Parse(b: seq<Byte>, buf: Buf): Parsed {
    match FindFragHeader(b)
    case None => NoFragment
    case Some(info) => ParseAt(b, info, buf)
  }

  function ParseAt(b: seq<Byte>, info: Info, buf: Buf): Parsed {
    var o := info.offset;
    if |b| < HDR || o + FRAG_HDR > |b| then NoFragment
    else
      var v := Be16(b[o + 2], b[o + 3]);
      if v / 2 % 4 != 0 || b[o + 1] != 0 then NoFragment
      else if v / 8 == 0 && v % 2 == 0 then Unfragmented
      else
        var off, more, data := v / 8 * 8, v % 2 == 1, b[o + FRAG_HDR..];
        if data == [] || |data| > MAX_PAYLOAD - off || (more && |data| % 8 != 0) then NoFragment
        else Fragment(b[8..HDR] + b[o + 4..o + FRAG_HDR],
                      Arrival(Piece(off, b[..o], data, buf), more, o, info.prev, b[o]))
  }

  /** A found fragment header lies after the fixed header, and the octet that names it before it. */
  lemma {:induction false} FoundAt(b: seq<Byte>, nh: Byte, offset: nat, prev: nat, rounds: nat)
    requires HDR <= offset <= |b| && prev < offset
    ensures var r := FindFrom(b, nh, offset, prev, rounds);
            r.Some? ==> HDR <= r.value.offset && r.value.prev < r.value.offset
    decreases rounds
  {
    if rounds > 0 && nh != FRAG && IsVariable(nh) && offset + 2 <= |b| {
      var len := (b[offset + 1] as nat + 1) * 8;
      if len <= |b| - offset { FoundAt(b, b[offset], offset + len, offset, rounds - 1); }
    }
  }

  lemma {:induction false} ParseSized(b: seq<Byte>, buf: Buf)
    ensures Parse(b, buf).Fragment? ==>
              var a := Parse(b, buf).arrival;
              WellSized(a) && HDR <= a.unfrag && a.prev < a.unfrag
  {
    if |b| >= HDR { FoundAt(b, b[NH_OFFSET], HDR, NH_OFFSET, ROUNDS); }
  }

  // ---------------------------------------------------------------- building fragments

  /** The octets of a packet's fixed header, with another next header and payload length. */
  function Header(fixed: seq<Byte>, nh: Byte, len: nat): seq<Byte>
    requires |fixed| == HDR
  {
    fixed[..4] + [Hi(len), Lo(len), nh] + fixed[7..]
  }

  function FragHeader(nh: Byte, off: nat, more: bool, id: seq<Byte>): seq<Byte> {
    var v := off / 8 * 8 % 0x10000 + if more then 1 else 0;
    [nh, 0, Hi(v), Lo(v)] + id
  }

  /** push_frag_headers on a payload. */
  function FragmentOf(fixed: seq<Byte>, id: seq<Byte>, off: nat, more: bool, data: seq<Byte>): seq<Byte>
    requires |fixed| == HDR
  {
    Header(fixed, FRAG, FRAG_HDR + |data|) + FragHeader(fixed[NH_OFFSET], off, more, id) + data
  }

  /** (mtu - 48) & ~7. */
  function FragPayload(mtu: nat): nat
    requires mtu >= 1280
  {
    (mtu - (HDR + FRAG_HDR)) / 8 * 8
  }

  /** Payloads and offsets of the fragments from octet `off` on. */
  function Cut(payload: seq<Byte>, size: nat, off: nat): seq<(nat, seq<Byte>)>
    requires size > 0 && off <= |payload|
    decreases |payload| - off
  {
    if |payload| - off <= size then [(off, payload[off..])]
    else [(off, payload[off..off + size])] + Cut(payload, size, off + size)
  }

  function Fragments(b: seq<Byte>, mtu: nat, id: seq<Byte>): seq<seq<Byte>>
    requires mtu >= 1280 && |b| >= HDR
  {
    var cuts := Cut(b[HDR..], FragPayload(mtu), 0);
    seq(|cuts|, i requires 0 <= i < |cuts| => FragmentOf(b[..HDR], id, cuts[i].0, i < |cuts| - 1, cuts[i].1))
  }

  // ---------------------------------------------------------------- what each fragment is

  lemma {:induction false} Be16RoundTrip(v: nat)
    requires v < 0x10000
    ensures Be16(Hi(v), Lo(v)) == v
  {
  }

  /** A fragment built from legal values parses back to exactly those values. */
  lemma {:induction false} ParseFragment(fixed: seq<Byte>, id: seq<Byte>, off: nat, more: bool,
                                         data: seq<Byte>, buf: Buf)
    requires |fixed| == HDR && |id| == 4 && off % 8 == 0 && data != [] && off + |data| <= MAX_PAYLOAD
    requires (more ==> |data| % 8 == 0) && (more || off > 0)
    ensures var b := FragmentOf(fixed, id, off, more, data);
            Parse(b, buf) == Fragment(fixed[8..] + id,
                                      Arrival(Piece(off, Header(fixed, FRAG, FRAG_HDR + |data|), data, buf), more, HDR,
                                              NH_OFFSET, fixed[NH_OFFSET]))
  {
    var head := Header(fixed, FRAG, FRAG_HDR + |data|);
    var fh := FragHeader(fixed[NH_OFFSET], off, more, id);
    FragFound(head, fh, data);
    FragParts(head, fh, data);
    OffsetField(off, more);
    FragFields(fixed[NH_OFFSET], off, more, id);
    assert head[8..HDR] == fixed[8..];
    ParseParts(head, fh, data, off, more, NH_OFFSET, buf);
  }

  lemma {:induction false} FragFound(head: seq<Byte>, fh: seq<Byte>, data: seq<Byte>)
    requires |head| == HDR && |fh| == FRAG_HDR && head[NH_OFFSET] == FRAG
    ensures FindFragHeader(head + fh + data) == Some(Info(HDR, NH_OFFSET))
  {
  }

  lemma {:induction false} FragFields(nh: Byte, off: nat, more: bool, id: seq<Byte>)
    requires off / 8 * 8 % 0x10000 == off && off + 1 < 0x10000 && |id| == 4
    ensures var fh := FragHeader(nh, off, more, id);
            && |fh| == FRAG_HDR && fh[0] == nh && fh[1] == 0 && fh[4..] == id
            && Be16(fh[2], fh[3]) == off + if more then 1 else 0
  {
    var v := off + if more then 1 else 0;
    var fh := FragHeader(nh, off, more, id);
    assert fh == [nh, 0, Hi(v), Lo(v)] + id;
    assert fh[2] == Hi(v) && fh[3] == Lo(v);
    Be16RoundTrip(v);
  }

  /** Values a fragment may have: offset and length in units of 8 octets, but for the last, in the range of
      a payload length, and not the whole packet at once. */
  predicate LegalFragment(off: nat, more: bool, data: seq<Byte>) {
    && off % 8 == 0 && data != [] && off + |data| <= MAX_PAYLOAD
    && (more ==> |data| % 8 == 0) && (more || off > 0)
  }

  /** Whatever headers come before it, a fragment header with legal values is taken for what it says. */
  lemma {:induction false} ParseParts(head: seq<Byte>, fh: seq<Byte>, data: seq<Byte>, off: nat, more: bool,
                                      prev: nat, buf: Buf)
    requires |head| >= HDR && |fh| == FRAG_HDR && fh[1] == 0 && Be16(fh[2], fh[3]) == off + if more then 1 else 0
    requires LegalFragment(off, more, data)
    ensures ParseAt(head + fh + data, Info(|head|, prev), buf)
         == Fragment(head[8..HDR] + fh[4..], Arrival(Piece(off, head, data, buf), more, |head|, prev, fh[0]))
  {
    FragParts(head, fh, data);
    OffsetField(off, more);
  }

  /** And nothing else is: whatever is taken for a fragment is, octet for octet, some headers, a fragment
      header with legal values as push_frag_headers would write it, and the payload. */
  lemma {:induction false} ParsedIs(b: seq<Byte>, buf: Buf)
    requires Parse(b, buf).Fragment?
    ensures var key, a := Parse(b, buf).key, Parse(b, buf).arrival;
            && |key| == 36 && |b| >= HDR && key[..32] == b[8..HDR] && LegalFragment(a.piece.off, a.more, a.piece.data)
            && b == a.piece.head + FragHeader(a.nh, a.piece.off, a.more, key[32..]) + a.piece.data
            && FindFragHeader(b) == Some(Info(|a.piece.head|, a.prev)) && a.unfrag == |a.piece.head|
            && a.piece.buf == buf
  {
    var info := FindFragHeader(b).value;
    var a := Parse(b, buf).arrival;
    HiLo(b[info.offset + 2], b[info.offset + 3]);
    ParsedField(Be16(b[info.offset + 2], b[info.offset + 3]), a.piece.off, a.more);
    ParsedOctets(b, info.offset, a.piece.off, a.more);
  }

  lemma {:induction false} ParsedOctets(b: seq<Byte>, o: nat, off: nat, more: bool)
    requires HDR <= |b| && o + FRAG_HDR <= |b| && b[o + 1] == 0
    requires var v := off / 8 * 8 % 0x10000 + if more then 1 else 0; Hi(v) == b[o + 2] && Lo(v) == b[o + 3]
    ensures var key := b[8..HDR] + b[o + 4..o + FRAG_HDR];
            && |key| == 36 && key[..32] == b[8..HDR]
            && b == b[..o] + FragHeader(b[o], off, more, key[32..]) + b[o + FRAG_HDR..]
  {
    var key := b[8..HDR] + b[o + 4..o + FRAG_HDR];
    assert key[32..] == b[o + 4..o + FRAG_HDR];
    assert FragHeader(b[o], off, more, key[32..]) == b[o..o + FRAG_HDR];
    assert b == b[..o] + b[o..o + FRAG_HDR] + b[o + FRAG_HDR..];
  }

  lemma {:induction false} ParsedField(v: nat, off: nat, more: bool)
    requires v < 0x10000 && v / 2 % 4 == 0 && off == v / 8 * 8 && more == (v % 2 == 1)
    ensures off / 8 * 8 % 0x10000 + (if more then 1 else 0) == v && off % 8 == 0
  {
    LowBits(v);
    OffsetKept(off);
  }

  lemma {:induction false} LowBits(v: nat)
    requires v / 2 % 4 == 0
    ensures v == v / 8 * 8 + v % 2 && v / 8 * 8 % 8 == 0
  {
  }

  lemma {:induction false} HiLo(hi: Byte, lo: Byte)
    ensures Hi(Be16(hi, lo)) == hi && Lo(Be16(hi, lo)) == lo && Be16(hi, lo) < 0x10000
  {
  }

  lemma {:induction false} OffsetKept(off: nat)
    requires off % 8 == 0 && off < 0x10000
    ensures off / 8 * 8 % 0x10000 == off
  {
  }

  lemma {:induction false} OffsetField(off: nat, more: bool)
    requires off % 8 == 0 && off <= MAX_PAYLOAD
    ensures var v := off + if more then 1 else 0;
            && off / 8 * 8 % 0x10000 == off && off + 1 < 0x10000
            && v / 2 % 4 == 0 && v / 8 * 8 == off && (v % 2 == 1 <==> more) && (v / 8 == 0 <==> off == 0)
  {
  }

  lemma {:induction false} FragParts(head: seq<Byte>, fh: seq<Byte>, data: seq<Byte>)
    requires |head| >= HDR && |fh| == FRAG_HDR
    ensures var b, o := head + fh + data, |head|;
            && b[..o] == head && b[o + FRAG_HDR..] == data && b[8..HDR] == head[8..HDR]
            && b[o + 4..o + FRAG_HDR] == fh[4..]
            && b[o] == fh[0] && b[o + 1] == fh[1] && b[o + 2] == fh[2] && b[o + 3] == fh[3]
  {
  }

  // ---------------------------------------------------------------- the round trip

  /** A packet ipv6_frag may be given: fixed header with a payload length that tells the truth. */
  predicate Legal(b: seq<Byte>) {
    && HDR < |b| <= HDR + MAX_PAYLOAD
    && b[4] == Hi(|b| - HDR) && b[5] == Lo(|b| - HDR)
  }

  /** The reassembly's last step: headers of the first fragment, with the next header and the payload
      length put back, and the payload. */
  function Rebuild(head: seq<Byte>, prev: nat, nh: Byte, payload: seq<Byte>): seq<Byte>
    requires HDR <= |head| && prev < |head|
  {
    var h := head[prev := nh];
    var len := |head| - HDR + |payload|;
    h[4 := Hi(len)][5 := Lo(len)] + payload
  }

  /** The pieces the fragments of a packet parse to. */
  function PieceOf(fixed: seq<Byte>, cut: (nat, seq<Byte>)): Piece
    requires |fixed| == HDR
  {
    Piece(cut.0, Header(fixed, FRAG, FRAG_HDR + |cut.1|), cut.1, Buf(1, 0))
  }

  function Pieces(fixed: seq<Byte>, cuts: seq<(nat, seq<Byte>)>): seq<Piece>
    requires |fixed| == HDR
  {
    if cuts == [] then [] else [PieceOf(fixed, cuts[0])] + Pieces(fixed, cuts[1..])
  }

  function DatagramOf(b: seq<Byte>, mtu: nat): Datagram
    requires mtu >= 1280 && |b| >= HDR
  {
    Datagram(Pieces(b[..HDR], Cut(b[HDR..], FragPayload(mtu), 0)), HDR, NH_OFFSET, b[NH_OFFSET])
  }

  lemma {:induction false} PiecesAt(fixed: seq<Byte>, cuts: seq<(nat, seq<Byte>)>, i: nat)
    requires |fixed| == HDR
    ensures |Pieces(fixed, cuts)| == |cuts|
    ensures i < |cuts| ==> Pieces(fixed, cuts)[i] == PieceOf(fixed, cuts[i])
    decreases |cuts|
  {
    if cuts != [] { PiecesAt(fixed, cuts[1..], if i > 0 then i - 1 else 0); }
  }

  /** The cuts tile the payload. */
  lemma {:induction false} CutTiles(fixed: seq<Byte>, payload: seq<Byte>, size: nat, off: nat)
    requires |fixed| == HDR && size > 0 && off < |payload|
    ensures var f := Pieces(fixed, Cut(payload, size, off));
            f != [] && Tiles(f, off) && Disjoint(f, off) && Headed(f, HDR) && Concat(f) == payload[off..]
    decreases |payload| - off
  {
    var cuts := Cut(payload, size, off);
    var p := PieceOf(fixed, cuts[0]);
    if |payload| - off <= size {
      assert cuts[1..] == [];
      assert Pieces(fixed, cuts) == [p] + Pieces(fixed, []);
      assert [p][1..] == [];
      assert p.data + [] == p.data;
    } else {
      var rest := Cut(payload, size, off + size);
      assert cuts[1..] == rest;
      CutTiles(fixed, payload, size, off + size);
      assert ([p] + Pieces(fixed, rest))[1..] == Pieces(fixed, rest);
      assert payload[off..off + size] + payload[off + size..] == payload[off..];
    }
  }

  /** Sizes and offsets of the cuts: every one but the last is exactly `size`, none is empty or longer,
      offsets are multiples of `size` and so of 8. */
  lemma {:induction false} CutAt(payload: seq<Byte>, size: nat, off: nat, i: nat)
    requires size > 0 && size % 8 == 0 && off < |payload| && off % 8 == 0 && i < |Cut(payload, size, off)|
    ensures var cuts := Cut(payload, size, off);
            var c := cuts[i];
            && c.0 % 8 == 0 && off <= c.0 && c.0 + |c.1| <= |payload| && 0 < |c.1| <= size
            && (i < |cuts| - 1 ==> |c.1| == size) && (i > 0 ==> c.0 >= off + size)
    decreases |payload| - off
  {
    if |payload| - off > size {
      if i > 0 {
        assert Cut(payload, size, off)[1..] == Cut(payload, size, off + size);
        CutAt(payload, size, off + size, i - 1);
      }
    }
  }

  lemma {:induction false} FragPayloadIs(mtu: nat)
    requires mtu >= 1280
    ensures FragPayload(mtu) % 8 == 0 && 1232 <= FragPayload(mtu) <= mtu - HDR - FRAG_HDR
  {
  }

  /** Every fragment fits the MTU, every one but the last carries a multiple of 8 octets, and it is
      received as the matching arrival of the datagram. */
  lemma {:induction false} FragmentIs(b: seq<Byte>, mtu: nat, id: seq<Byte>, g: Got)
    requires Splits(b, mtu, id) && g.i < |Fragments(b, mtu, id)|
    ensures |Fragments(b, mtu, id)| == |DatagramOf(b, mtu).frags| && |Fragments(b, mtu, id)[g.i]| <= mtu
    ensures g.i < |Fragments(b, mtu, id)| - 1 ==> (|Fragments(b, mtu, id)[g.i]| - HDR - FRAG_HDR) % 8 == 0
    ensures Parse(Fragments(b, mtu, id)[g.i], g.buf) == Fragment(KeyOf(b, id), ArrivalOf(DatagramOf(b, mtu), g))
  {
    var fixed, payload, size := b[..HDR], b[HDR..], FragPayload(mtu);
    var cuts := Cut(payload, size, 0);
    FragPayloadIs(mtu);
    CutAt(payload, size, 0, g.i);
    PiecesAt(fixed, cuts, g.i);
    LastNotFirst(payload, size);
    ParseFragment(fixed, id, cuts[g.i].0, g.i < |cuts| - 1, cuts[g.i].1, g.buf);
    assert fixed[8..] == b[8..HDR];
  }

  lemma {:induction false} LastNotFirst(payload: seq<Byte>, size: nat)
    requires size > 0 && |payload| > size
    ensures |Cut(payload, size, 0)| > 1
  {
  }

  /** A packet ipv6_frag splits. */
  predicate Splits(b: seq<Byte>, mtu: nat, id: seq<Byte>) {
    mtu >= 1280 && Legal(b) && |b| > mtu && |id| == 4
  }

  function KeyOf(b: seq<Byte>, id: seq<Byte>): Key
    requires |b| >= HDR
  {
    b[8..HDR] + id
  }

  /** The fragments are a datagram with the packet's payload. */
  lemma {:induction false} DatagramIs(b: seq<Byte>, mtu: nat)
    requires mtu >= 1280 && |b| > HDR
    ensures var d := DatagramOf(b, mtu);
            && Whole(d) && Concat(d.frags) == b[HDR..] && Sum(d.frags) == |b| - HDR
            && |d.frags| == |Cut(b[HDR..], FragPayload(mtu), 0)|
            && exists n: nat :: d.frags[0].head == Header(b[..HDR], FRAG, n)
  {
    var d, payload, size := DatagramOf(b, mtu), b[HDR..], FragPayload(mtu);
    FragPayloadIs(mtu);
    CutTiles(b[..HDR], payload, size, 0);
    assert payload[0..] == payload;
    ConcatLength(d.frags);
    PiecesAt(b[..HDR], Cut(payload, size, 0), 0);
  }

  /** The original header comes back, whatever payload length the first fragment had. */
  lemma {:induction false} RebuildIs(b: seq<Byte>, n: nat)
    requires Legal(b)
    ensures Rebuild(Header(b[..HDR], FRAG, n), NH_OFFSET, b[NH_OFFSET], b[HDR..]) == b
  {
    var h := Header(b[..HDR], FRAG, n);
    var len := |b| - HDR;
    var r := h[NH_OFFSET := b[NH_OFFSET]][4 := Hi(len)][5 := Lo(len)];
    assert r == b[..HDR];
  }

  /** How many fragments there are. */
  lemma {:induction false} CutCount(payload: seq<Byte>, size: nat, off: nat)
    requires size > 0 && off < |payload|
    ensures var n := |Cut(payload, size, off)|;
            n >= 1 && (n - 1) * size < |payload| - off <= n * size
    decreases |payload| - off
  {
    if |payload| - off > size { CutCount(payload, size, off + size); }
  }

  // ---------------------------------------------------------------- the table of queues over any run

  type Table = map<Key, Queue>

  /** What can happen to the table: a packet in some buffer comes in, or a queue is given up. */
  datatype Event = Received(octets: seq<Byte>, buf: Buf) | Expired(key: Key)

  function Lookup(t: Table, key: Key): Option<Queue> {
    if key in t then Some(t[key]) else None
  }

  function Moved(t: Table, key: Key, r: Result): Table {
    if r.Kept? then t[key := r.q] else t - {key}
  }

  /** What the table's queue says to a fragment. */
  function Verdict(t: Table, key: Key, a: Arrival): Result { Arrive(Lookup(t, key), a) }

  function After(t: Table, e: Event): Table {
    match e
    case Expired(key) => t - {key}
    case Received(b, buf) =>
      match Parse(b, buf)
      case Fragment(key, a) => Moved(t, key, Verdict(t, key, a))
      case NoFragment => t
      case Unfragmented => t
  }

  /** The table after any events. */
  function TableAfter(events: seq<Event>): Table {
    if events == [] then map[] else After(TableAfter(events[..|events| - 1]), events[|events| - 1])
  }

  /** The piece was received, in a fragment with this key and with the headers the queue has. */
  predicate CameAt(e: Event, key: Key, p: Piece, q: Queue) {
    && e.Received? && Parse(e.octets, e.buf).Fragment? && Parse(e.octets, e.buf).key == key
    && Parse(e.octets, e.buf).arrival.piece == p && SameHeaders(q, Parse(e.octets, e.buf).arrival)
  }

  predicate Came(events: seq<Event>, key: Key, p: Piece, q: Queue) {
    exists j :: 0 <= j < |events| && CameAt(events[j], key, p, q)
  }

  /** A queue that a run may leave in the table. */
  predicate Sound(events: seq<Event>, key: Key, q: Queue) {
    && Inv(q) && HDR <= q.unfrag && q.prev < q.unfrag
    && forall p :: p in q.frags ==> Came(events, key, p, q)
  }

  lemma {:induction false} CameLater(events: seq<Event>, e: Event, key: Key, p: Piece, q: Queue, t: Queue)
    requires q.unfrag == t.unfrag && q.prev == t.prev && q.nh == t.nh
    ensures Came(events, key, p, q) ==> Came(events + [e], key, p, t)
    ensures CameAt(e, key, p, t) ==> Came(events + [e], key, p, t)
  {
    if Came(events, key, p, q) {
      var j :| 0 <= j < |events| && CameAt(events[j], key, p, q);
      assert CameAt((events + [e])[j], key, p, t);
    }
    assert (events + [e])[|events|] == e;
  }

  lemma {:induction false} InsertFrom(list: seq<Piece>, x: Piece, p: Piece)
    requires Insert(list, x).Some? && p in Insert(list, x).value
    ensures p == x || p in list
    decreases |list|
  {
    if list != [] && list[0].off < x.off {
      if p != list[0] { InsertFrom(list[1..], x, p); }
    }
  }

  /** One more event leaves sound queues sound. */
  lemma {:induction false} SoundLater(events: seq<Event>, e: Event, key: Key, q: Queue)
    requires Sound(events, key, q)
    ensures Sound(events + [e], key, q)
  {
    forall p | p in q.frags ensures Came(events + [e], key, p, q) { CameLater(events, e, key, p, q, q); }
  }

  /** An arrival at a sound queue leaves a sound queue, or completes one. */
  lemma {:induction false} ArriveSound(events: seq<Event>, b: seq<Byte>, buf: Buf, q0: Option<Queue>)
    requires Parse(b, buf).Fragment? && (q0.Some? ==> Sound(events, Parse(b, buf).key, q0.value))
    ensures var key, r := Parse(b, buf).key, Arrive(q0, Parse(b, buf).arrival);
            !r.Destroyed? ==> Sound(events + [Received(b, buf)], key, r.q)
  {
    var e, key, a := Received(b, buf), Parse(b, buf).key, Parse(b, buf).arrival;
    ParseSized(b, buf);
    ArriveKeeps(q0, a);
    var q, r := QueueFor(q0, a), Arrive(q0, a);
    if !r.Destroyed? {
      forall p | p in r.q.frags ensures Came(events + [e], key, p, r.q) { ArriveFrom(events, b, buf, q0, p); }
    }
  }

  lemma {:induction false} ArriveFrom(events: seq<Event>, b: seq<Byte>, buf: Buf, q0: Option<Queue>, p: Piece)
    requires Parse(b, buf).Fragment? && (q0.Some? ==> Sound(events, Parse(b, buf).key, q0.value))
    requires var r := Arrive(q0, Parse(b, buf).arrival); !r.Destroyed? && p in r.q.frags
    ensures Came(events + [Received(b, buf)], Parse(b, buf).key, p, Arrive(q0, Parse(b, buf).arrival).q)
  {
    var e, key, a := Received(b, buf), Parse(b, buf).key, Parse(b, buf).arrival;
    var q, r := QueueFor(q0, a), Arrive(q0, a);
    if r.q != q { InsertFrom(q.frags, a.piece, p); }
    CameLater(events, e, key, p, q, r.q);
  }

  /** Whatever packets arrive in whatever order, and whatever queues time out: every queue in the table
      is sorted, disjoint and counted right, and holds only fragments that were received with its own
      key and headers. */
  lemma {:induction false} EveryRun(events: seq<Event>, key: Key)
    requires key in TableAfter(events)
    ensures Sound(events, key, TableAfter(events)[key])
    decreases |events|
  {
    var before, e := events[..|events| - 1], events[|events| - 1];
    var t := TableAfter(before);
    assert before + [e] == events;
    if key in t {
      EveryRun(before, key);
      SoundLater(before, e, key, t[key]);
    }
    if e.Received? && Parse(e.octets, e.buf).Fragment? && Parse(e.octets, e.buf).key == key {
      ArriveSound(before, e.octets, e.buf, Lookup(t, key));
    }
  }

  /** And every packet that is ever handed over is made of received fragments with one key and the same
      headers, each at its own offset, without a gap, and within the limits; its headers are those of
      the received fragment at offset 0. */
  lemma {:induction false} EveryCompletion(events: seq<Event>, b: seq<Byte>, buf: Buf, p: Piece)
    requires Parse(b, buf).Fragment? && Verdict(TableAfter(events), Parse(b, buf).key, Parse(b, buf).arrival).Complete?
    ensures var key, c := Parse(b, buf).key, Verdict(TableAfter(events), Parse(b, buf).key, Parse(b, buf).arrival);
            && HDR <= |c.head| && c.q.prev < |c.head| && Tiles(c.q.frags, 0) && Fits(c.q.unfrag, c.q.frags)
            && |c.payload| == c.q.total && c.head == c.q.frags[0].head
            && (p in c.q.frags ==> && Came(events + [Received(b, buf)], key, p, c.q)
                                   && End(p) <= |c.payload| && c.payload[p.off..End(p)] == p.data)
  {
    var t, key, a := TableAfter(events), Parse(b, buf).key, Parse(b, buf).arrival;
    if key in t { EveryRun(events, key); }
    ArriveSound(events, b, buf, Lookup(t, key));
    ParseSized(b, buf);
    CompleteIs(Lookup(t, key), a, p);
    var c := Arrive(Lookup(t, key), a);
    assert c.q.frags[0] in c.q.frags;
    ReadyHeads(c.q);
  }

  lemma {:induction false} ReadyHeads(q: Queue)
    requires Inv(q) && q.frags != []
    ensures |q.frags[0].head| == q.unfrag
  {
  }

  // ---------------------------------------------------------------- the round trip

  /** Among the events, those that concern the packet's key are its fragments as listed in `gots`, since
      its queue was last given up; all other traffic is arbitrary. */
  predicate Feeds(b: seq<Byte>, mtu: nat, id: seq<Byte>, events: seq<Event>, gots: seq<Got>)
    requires Splits(b, mtu, id)
    decreases |events|
  {
    if events == [] then gots == []
    else
      var before, e := events[..|events| - 1], events[|events| - 1];
      if e == Expired(KeyOf(b, id)) then gots == []
      else if e.Expired? || !Parse(e.octets, e.buf).Fragment? || Parse(e.octets, e.buf).key != KeyOf(b, id)
      then Feeds(b, mtu, id, before, gots)
      else && gots != [] && gots[|gots| - 1].i < |Fragments(b, mtu, id)|
           && e == Received(Fragments(b, mtu, id)[gots[|gots| - 1].i], gots[|gots| - 1].buf)
           && Feeds(b, mtu, id, before, gots[..|gots| - 1])
  }

  /** The table's queue for the packet is the one its fragments alone would have made. */
  lemma {:induction false} KeyRun(b: seq<Byte>, mtu: nat, id: seq<Byte>, events: seq<Event>, gots: seq<Got>)
    requires Splits(b, mtu, id) && Feeds(b, mtu, id, events, gots)
    ensures Indices(DatagramOf(b, mtu), gots)
    ensures Lookup(TableAfter(events), KeyOf(b, id)) == Run(DatagramOf(b, mtu), gots)
    decreases |events|
  {
    if events != [] {
      var before, e, key := events[..|events| - 1], events[|events| - 1], KeyOf(b, id);
      if e == Expired(key) {
      } else if e.Expired? || !Parse(e.octets, e.buf).Fragment? || Parse(e.octets, e.buf).key != key {
        KeyRun(b, mtu, id, before, gots);
      } else {
        var g, first := gots[|gots| - 1], gots[..|gots| - 1];
        KeyRun(b, mtu, id, before, first);
        FragmentIs(b, mtu, id, g);
        assert gots == first + [g];
      }
    }
  }

  /** The buffers the fragments came in can be joined, with the fixed header in front. */
  predicate NodesFit(d: Datagram, m: map<nat, Buf>)
    requires Whole(d) && AllIn(d, m)
  {
    var n := Nodes(Held(d, m, 0));
    n < Skbuff.MAX_NODES || (n == Skbuff.MAX_NODES && HDR <= m[0].room)
  }

  /** Fragmenting a packet and receiving its fragments in any order, with any repeats, in any buffers,
      among any other traffic: the packet comes back exactly when the last missing fragment arrives,
      octet for octet, if and only if the buffers joined stay within 32 nodes.  Otherwise all of it is
      thrown away.  Fragments that are repeated after that start over. */
  lemma {:induction false} RoundTrip(b: seq<Byte>, mtu: nat, id: seq<Byte>, events: seq<Event>, gots: seq<Got>, g: Got)
    requires Splits(b, mtu, id) && Feeds(b, mtu, id, events, gots) && g.i < |Fragments(b, mtu, id)|
    ensures Whole(DatagramOf(b, mtu)) && Parse(Fragments(b, mtu, id)[g.i], g.buf).Fragment?
    ensures var d, m := DatagramOf(b, mtu), Noted(Seen(DatagramOf(b, mtu), gots), g);
            var r := Verdict(TableAfter(events), KeyOf(b, id), Parse(Fragments(b, mtu, id)[g.i], g.buf).arrival);
            && Parse(Fragments(b, mtu, id)[g.i], g.buf).key == KeyOf(b, id)
            && (r.Complete? <==> AllIn(d, m) && NodesFit(d, m))
            && (r.Destroyed? <==> AllIn(d, m) && !NodesFit(d, m))
            && (r.Complete? ==> |r.head| == HDR && Rebuild(r.head, NH_OFFSET, b[NH_OFFSET], r.payload) == b)
  {
    var d, m := DatagramOf(b, mtu), Noted(Seen(DatagramOf(b, mtu), gots), g);
    DatagramIs(b, mtu);
    KeyRun(b, mtu, id, events, gots);
    FragmentIs(b, mtu, id, g);
    CompletesExactlyThen(d, gots, g);
    if AllIn(d, m) { NodesFitIs(b, mtu, m); }
    var n: nat :| d.frags[0].head == Header(b[..HDR], FRAG, n);
    RebuildIs(b, n);
  }

  /** For a packet that can be split the other limits hold. */
  lemma {:induction false} NodesFitIs(b: seq<Byte>, mtu: nat, m: map<nat, Buf>)
    requires mtu >= 1280 && Legal(b) && |b| > mtu && Whole(DatagramOf(b, mtu)) && AllIn(DatagramOf(b, mtu), m)
    ensures Fits(HDR, Held(DatagramOf(b, mtu), m, 0)) <==> NodesFit(DatagramOf(b, mtu), m)
  {
    var d := DatagramOf(b, mtu);
    DatagramIs(b, mtu);
    FragPayloadIs(mtu);
    LastNotFirst(b[HDR..], FragPayload(mtu));
    assert AllFrom(d, m, 0) && d.frags[0..] == d.frags;
    HeldConcat(d, m, 0);
    HeldSum(d, m, 0);
    HeldTail(d, m, 0);
  }

  /** In the sender's terms, for fragments that each arrive in one node with their headers in front of
      the payload: the packet gets through if and only if its payload is at most 32 fragments long. */
  lemma {:induction false} NodesFitIff(b: seq<Byte>, mtu: nat, m: map<nat, Buf>)
    requires mtu >= 1280 && Legal(b) && |b| > mtu && Whole(DatagramOf(b, mtu)) && AllIn(DatagramOf(b, mtu), m)
    requires OneNodeEach(m) && m[0].room >= HDR
    ensures NodesFit(DatagramOf(b, mtu), m) <==> |b| - HDR <= Skbuff.MAX_NODES * FragPayload(mtu)
  {
    DatagramIs(b, mtu);
    assert AllFrom(DatagramOf(b, mtu), m, 0);
    NodesCount(DatagramOf(b, mtu), m, 0);
    CountIff(b, mtu);
  }

  lemma {:induction false} CountIff(b: seq<Byte>, mtu: nat)
    requires mtu >= 1280 && |b| > HDR && Whole(DatagramOf(b, mtu))
    ensures |DatagramOf(b, mtu).frags| <= Skbuff.MAX_NODES <==> |b| - HDR <= Skbuff.MAX_NODES * FragPayload(mtu)
  {
    DatagramIs(b, mtu);
    FragPayloadIs(mtu);
    CutCount(b[HDR..], FragPayload(mtu), 0);
    Ceiling(|DatagramOf(b, mtu).frags|, FragPayload(mtu), |b| - HDR, Skbuff.MAX_NODES);
  }

  lemma {:induction false} Ceiling(n: nat, size: nat, len: nat, k: nat)
    requires (n - 1) * size < len <= n * size
    ensures n <= k <==> len <= k * size
  {
    if n <= k { assert n * size <= k * size; }
    if n > k { assert k * size <= (n - 1) * size; }
  }

  /** The packet, arriving after the events, completes a queue. */
  predicate ComesThrough(b: seq<Byte>, buf: Buf, events: seq<Event>) {
    Parse(b, buf).Fragment? && Verdict(TableAfter(events), Parse(b, buf).key, Parse(b, buf).arrival).Complete?
  }

  /** A packet of more than 32 fragments never gets through, however its fragments arrive. */
  lemma {:induction false} TooManyFragments(b: seq<Byte>, mtu: nat, id: seq<Byte>,
                                            events: seq<Event>, gots: seq<Got>, g: Got)
    requires Splits(b, mtu, id) && Feeds(b, mtu, id, events, gots) && g.i < |Fragments(b, mtu, id)|
    requires |b| - HDR > Skbuff.MAX_NODES * FragPayload(mtu) && AtLeastOne(Noted(Seen(DatagramOf(b, mtu), gots), g))
    ensures !ComesThrough(Fragments(b, mtu, id)[g.i], g.buf, events)
  {
    var d, m := DatagramOf(b, mtu), Noted(Seen(DatagramOf(b, mtu), gots), g);
    RoundTrip(b, mtu, id, events, gots, g);
    CountIff(b, mtu);
    if AllIn(d, m) {
      assert AllFrom(d, m, 0);
      NodesCount(d, m, 0);
    }
  }

  /** So the greatest packet, sent with the least MTU or a few octets more, is lost: it takes 54 fragments. */
  lemma {:induction false} GreatestPacket(b: seq<Byte>, mtu: nat, id: seq<Byte>,
                                          events: seq<Event>, gots: seq<Got>, g: Got)
    requires Legal(b) && |b| == HDR + MAX_PAYLOAD && 1280 <= mtu < 1288 && |id| == 4
    requires Feeds(b, mtu, id, events, gots) && g.i < |Fragments(b, mtu, id)|
    requires AtLeastOne(Noted(Seen(DatagramOf(b, mtu), gots), g))
    ensures |Fragments(b, mtu, id)| == 54 && !ComesThrough(Fragments(b, mtu, id)[g.i], g.buf, events)
  {
    LeastPayload(mtu);
    GreatestCount(b[HDR..], FragPayload(mtu));
    TooManyFragments(b, mtu, id, events, gots, g);
  }

  lemma {:induction false} LeastPayload(mtu: nat)
    requires 1280 <= mtu < 1288
    ensures FragPayload(mtu) == 1232
  {
  }

  lemma {:induction false} GreatestCount(payload: seq<Byte>, size: nat)
    requires |payload| == MAX_PAYLOAD && size == 1232
    ensures |Cut(payload, size, 0)| == 54
  {
    CutCount(payload, size, 0);
    Ceiling(|Cut(payload, size, 0)|, size, MAX_PAYLOAD, 54);
    Ceiling(|Cut(payload, size, 0)|, size, MAX_PAYLOAD, 53);
  }

  /** A packet whose only extension header has the greatest length: its fragment header is found at octet
      2088, beyond what the reassembly can copy. */
  lemma {:induction false} LongestHeader(b: seq<Byte>)
    requires |b| >= HDR + 256 * 8 + FRAG_HDR && b[NH_OFFSET] == HOPOPT && b[HDR] == FRAG && b[HDR + 1] == 255
    ensures FindFragHeader(b) == Some(Info(HDR + 256 * 8, HDR)) && HDR + 256 * 8 > MAX_UNFRAG
  {
    FoundNext(b, HDR + 256 * 8, HDR, ROUNDS - 1);
    assert FindFrom(b, HOPOPT, HDR, NH_OFFSET, ROUNDS) == FindFrom(b, FRAG, HDR + 256 * 8, HDR, ROUNDS - 1);
  }

  lemma {:induction false} FoundNext(b: seq<Byte>, offset: nat, prev: nat, rounds: nat)
    requires offset + FRAG_HDR <= |b| && rounds > 0
    ensures FindFrom(b, FRAG, offset, prev, rounds) == Some(Info(offset, prev))
  {
  }
}
