/** The Internet checksum (RFC 1071) of lib/base.c and main/skbuff.c, on a little-endian machine: over
    flat octets, over buffer chains cut anywhere, with pseudo headers, stored, verified, and left to
    the network card. */
module Checksum {
  import opened Common
  import opened Skbuff

  const WORD: nat := 0x1_0000
  const MOD: nat := 0x1_0000_0000

  /** Reference: the sum of the 16-bit words, an odd last octet padded with zero. */
  function WordSum(b: seq<Byte>): nat {
    if b == [] then 0
    else if |b| == 1 then b[0] as nat
    else b[0] as nat + 256 * b[1] as nat + WordSum(b[2..])
  }

  /** Reference: one's-complement folding to 16 bits in closed form. */
  function Fold(x: nat): (r: nat)
    ensures r < WORD
  {
    if x == 0 then 0 else (x - 1) % 65535 + 1
  }

  function Complement(x: nat): nat
    requires x < WORD
  {
    65535 - x
  }

  // ---------------------------------------------------------------- arithmetic of the sum

  lemma {:induction false} WordSumSplit(a: seq<Byte>, b: seq<Byte>)
    requires |a| % 2 == 0
    ensures WordSum(a + b) == WordSum(a) + WordSum(b)
    decreases |a|
  {
    if a == [] {
      assert a + b == b;
    } else {
      WordSumSplit(a[2..], b);
      assert (a + b)[2..] == a[2..] + b;
    }
  }

  /** No 32-bit overflow at packet lengths: a sum over n octets stays below 65535 * (n + 1) / 2. */
  lemma {:induction false} WordSumBound(b: seq<Byte>)
    ensures WordSum(b) <= 65535 * ((|b| + 1) / 2)
    decreases |b|
  {
    if |b| > 1 { WordSumBound(b[2..]); }
  }

  lemma {:induction false} FoldStep(x: nat)
    requires x >= WORD
    ensures 0 < x % WORD + x / WORD < x && Fold(x % WORD + x / WORD) == Fold(x)
  {
    var q, r := x / WORD, x % WORD;
    assert x == 65535 * q + (q + r);
    FoldCongruent(q + r, q);
  }

  lemma {:induction false} FoldCongruent(y: nat, k: nat)
    requires y > 0
    ensures Fold(y + 65535 * k) == Fold(y)
  {
    assert (y - 1 + 65535 * k) % 65535 == (y - 1) % 65535;
  }

  lemma {:induction false} FoldIs(x: nat)
    ensures exists k: nat :: x == Fold(x) + 65535 * k && (x > 0 ==> Fold(x) > 0)
  {
    if x == 0 {
      assert 0 == Fold(0) + 65535 * 0;
    } else {
      assert x == Fold(x) + 65535 * ((x - 1) / 65535);
    }
  }

  /** Folding part of a sum early changes nothing. */
  lemma {:induction false} FoldEarly(x: nat, y: nat)
    ensures Fold(x + Fold(y)) == Fold(x + y)
  {
    FoldIs(y);
    var k: nat :| y == Fold(y) + 65535 * k && (y > 0 ==> Fold(y) > 0);
    if y > 0 { FoldCongruent(x + Fold(y), k); }
  }

  /** A sum plus the complement of its fold folds to all ones. */
  lemma {:induction false} FoldComplement(x: nat)
    ensures Fold(x + Complement(Fold(x))) == 65535
  {
    FoldIs(x);
    var k: nat :| x == Fold(x) + 65535 * k && (x > 0 ==> Fold(x) > 0);
    FoldCongruent(65535, k);
  }

  // ---------------------------------------------------------------- lib/base.c

  /** checksum_partial, with its 32-bit additions. */
  method Partial(data: seq<Byte>, start: nat) returns (sum: nat)
    requires start < MOD
    ensures sum == (start + WordSum(data)) % MOD
  {
    sum := start;
    var i := 0;
    assert data[0..] == data;
    while |data| - i > 1
      invariant 0 <= i <= |data| && sum < MOD && (sum + WordSum(data[i..])) % MOD == (start + WordSum(data)) % MOD
    {
      var word := data[i] as nat + 256 * data[i + 1] as nat;
      assert data[i..][2..] == data[i + 2..];
      ModAdd(sum + word, WordSum(data[i + 2..]));
      sum := (sum + word) % MOD;
      i := i + 2;
    }
    if |data| - i == 1 { sum := (sum + data[i] as nat) % MOD; }
  }

  lemma {:induction false} ModAdd(x: nat, y: nat)
    ensures (x % MOD + y) % MOD == (x + y) % MOD
  {
    var q := x / MOD;
    assert x == x % MOD + MOD * q;
    assert x + y == (x % MOD + y) + MOD * q;
  }

  /** Where nothing overflows, the plain sum. */
  method PartialSmall(data: seq<Byte>, start: nat) returns (sum: nat)
    requires start + 65535 * ((|data| + 1) / 2) < MOD
    ensures sum == start + WordSum(data)
  {
    WordSumBound(data);
    sum := Partial(data, start);
  }

  /** The folding loop and complement. */
  method FoldSum(sum: nat) returns (r: nat)
    ensures r == Complement(Fold(sum))
  {
    var s: nat := sum;
    while s >= WORD
      invariant Fold(s) == Fold(sum)
      decreases s
    {
      FoldStep(s);
      s := s % WORD + s / WORD;
    }
    assert Fold(s) == s;
    r := Complement(s);
  }

  /** checksum. */
  method Flat(data: seq<Byte>, start: nat) returns (r: nat)
    requires start < MOD
    ensures r == Complement(Fold((start + WordSum(data)) % MOD))
  {
    var sum := Partial(data, start);
    r := FoldSum(sum);
  }

  // ---------------------------------------------------------------- main/skbuff.c

  /** The even part of what is left of a node; an odd last octet is carried over. */
  method AbsorbEven(d: seq<Byte>, sum: nat) returns (carried: seq<Byte>, r: nat, ghost even: seq<Byte>)
    requires sum < MOD
    ensures |carried| <= 1 && |even| % 2 == 0 && d == even + carried && r == (sum + WordSum(even)) % MOD
  {
    var n := |d| - |d| % 2;
    even := d[..n];
    r := sum;
    if n > 0 { r := Partial(d[..n], sum); } else { Unwrapped(sum); }
    carried := if n < |d| then [d[n]] else [];
  }

  /** One node of skb_checksum: `pending` is the odd octet carried over, if any. */
  method Absorb(pending: seq<Byte>, data: seq<Byte>, sum: nat)
      returns (carried: seq<Byte>, r: nat, ghost even: seq<Byte>)
    requires |pending| <= 1 && sum < MOD
    ensures |carried| <= 1 && |even| % 2 == 0 && pending + data == even + carried
    ensures r == (sum + WordSum(even)) % MOD
  {
    if pending == [] {
      carried, r, even := AbsorbEven(data, sum);
      assert pending + data == data;
    } else if data == [] {
      carried, r, even := pending, sum, [];
      Unwrapped(sum);
    } else {
      var pair := [pending[0], data[0]];
      var s := Partial(pair, sum);
      ghost var rest;
      carried, r, rest := AbsorbEven(data[1..], s);
      even := pair + rest;
      WordSumSplit(pair, rest);
      ModAdd(sum + WordSum(pair), WordSum(rest));
      assert pending + data == pair + data[1..];
      assert pair + (rest + carried) == (pair + rest) + carried;
    }
  }

  /** What is still to be added to `sum`. */
  predicate Remaining(sum: nat, b: seq<Byte>, total: nat) { (sum + WordSum(b)) % MOD == total }

  /** The first `left` octets of the nodes from i on. */
  function Front(chain: seq<Node>, i: nat, left: nat): seq<Byte>
    requires i <= |chain|
  {
    var b := Bytes(chain[i..]);
    if left <= |b| then b[..left] else b
  }

  /** skb_checksum: the sum over the first `len` octets of the chain, however they are cut into nodes. */
  method OverChain(chain: seq<Node>, len: nat, start: nat) returns (r: nat)
    requires start < MOD
    ensures r == Complement(Fold((start + WordSum(Front(chain, 0, len))) % MOD))
  {
    ghost var total := (start + WordSum(Front(chain, 0, len))) % MOD;
    var i, left: nat, sum: nat, pending := 0, len, start, [];
    assert [] + Front(chain, 0, len) == Front(chain, 0, len);
    while i < |chain| && left > 0
      invariant 0 <= i <= |chain| && |pending| <= 1 && sum < MOD
      invariant Remaining(sum, pending + Front(chain, i, left), total)
    {
      pending, sum, left := AbsorbNode(chain, i, left, pending, sum, total);
      i := i + 1;
    }
    AtEnd(chain, i, left);
    assert pending + [] == pending;
    r := Conclude(pending, sum);
  }

  /** One node of the chain, or as much of it as is still wanted. */
  method AbsorbNode(chain: seq<Node>, i: nat, left: nat, pending: seq<Byte>, sum: nat, ghost total: nat)
      returns (carried: seq<Byte>, s: nat, more: nat)
    requires i < |chain| && |pending| <= 1 && sum < MOD && Remaining(sum, pending + Front(chain, i, left), total)
    ensures |carried| <= 1 && s < MOD && Remaining(s, carried + Front(chain, i + 1, more), total)
    ensures more == left - Min(|chain[i].data|, left)
  {
    var n := if |chain[i].data| > left then left else |chain[i].data|;
    ghost var even;
    carried, s, even := Absorb(pending, chain[i].data[..n], sum);
    StepRemains(chain, i, left, n, pending, even, carried, sum, total);
    more := left - n;
  }

  /** The odd last octet, and the folding. */
  method Conclude(pending: seq<Byte>, sum: nat) returns (r: nat)
    requires |pending| <= 1 && sum < MOD
    ensures r == Complement(Fold((sum + WordSum(pending)) % MOD))
  {
    var s := sum;
    if pending != [] { s := Partial(pending, sum); } else { Unwrapped(sum); }
    r := FoldSum(s);
  }

  lemma {:induction false} AtEnd(chain: seq<Node>, i: nat, left: nat)
    requires i <= |chain| && (i == |chain| || left == 0)
    ensures Front(chain, i, left) == []
  {
    assert i == |chain| ==> chain[i..] == [];
  }

  lemma {:induction false} StepRemains(chain: seq<Node>, i: nat, left: nat, n: nat, was: seq<Byte>, even: seq<Byte>,
                                       carried: seq<Byte>, sum: nat, total: nat)
    requires i < |chain| && n == Min(|chain[i].data|, left)
    requires was + chain[i].data[..n] == even + carried && |even| % 2 == 0
    requires Remaining(sum, was + Front(chain, i, left), total)
    ensures Remaining((sum + WordSum(even)) % MOD, carried + Front(chain, i + 1, left - n), total)
  {
    ChainStep(chain, i, left, n);
    var rest := Front(chain, i + 1, left - n);
    SumStep(was, chain[i].data[..n], rest, even, carried);
    ModAdd(sum + WordSum(even), WordSum(carried + rest));
  }

  lemma {:induction false} ChainStep(chain: seq<Node>, i: nat, left: nat, n: nat)
    requires i < |chain| && n == Min(|chain[i].data|, left)
    ensures Front(chain, i, left) == chain[i].data[..n] + Front(chain, i + 1, left - n)
  {
    assert chain[i..][1..] == chain[i + 1..];
  }

  lemma {:induction false} SumStep(was: seq<Byte>, data: seq<Byte>, rest: seq<Byte>, even: seq<Byte>,
                                   carried: seq<Byte>)
    requires was + data == even + carried && |even| % 2 == 0
    ensures WordSum(was + (data + rest)) == WordSum(even) + WordSum(carried + rest)
  {
    assert was + (data + rest) == (was + data) + rest;
    assert (even + carried) + rest == even + (carried + rest);
    WordSumSplit(even, carried + rest);
  }

  /** The checksum does not depend on the cuts: chains with the same octets have the same front. */
  lemma {:induction false} CutsDoNotMatter(a: seq<Node>, b: seq<Node>, len: nat)
    requires Bytes(a) == Bytes(b)
    ensures Front(a, 0, len) == Front(b, 0, len) == Bytes(a)[..Min(len, |Bytes(a)|)]
  {
    assert a[0..] == a && b[0..] == b;
  }

  // ---------------------------------------------------------------- pseudo headers

  function Be(v: nat): seq<Byte> { [v / 256 % 256, v % 256] }

  /** The IPv4 pseudo header (section 3.1 of RFC 9293). */
  function Pseudo4(saddr: seq<Byte>, daddr: seq<Byte>, protocol: Byte, len: nat): seq<Byte> {
    saddr + daddr + [0, protocol] + Be(len)
  }

  /** The IPv6 pseudo header (section 8.1 of RFC 8200). */
  function Pseudo6(saddr: seq<Byte>, daddr: seq<Byte>, protocol: Byte, len: nat): seq<Byte> {
    saddr + daddr + (Be(len / WORD) + Be(len)) + [0, 0, 0, protocol]
  }

  /** What the checksum of a segment should be: the complement of the folded sum over pseudo header
      and segment. */
  function Expected(pseudo: seq<Byte>, segment: seq<Byte>): nat {
    Complement(Fold(WordSum(pseudo) + WordSum(segment)))
  }

  /** Lengths at which no 32-bit sum overflows: all packet lengths, and far more. */
  predicate Short(pseudo: seq<Byte>, segment: seq<Byte>) { |pseudo| + |segment| <= 131000 }

  lemma {:induction false} NoOverflow(pseudo: seq<Byte>, segment: seq<Byte>)
    requires Short(pseudo, segment)
    ensures WordSum(pseudo) + WordSum(segment) < MOD
  {
    WordSumBound(pseudo);
    WordSumBound(segment);
  }

  lemma {:induction false} Unwrapped(x: nat)
    requires x < MOD
    ensures x % MOD == x
  {
  }

  /** checksum_protocol on a flat segment. */
  method FlatProtocol(data: seq<Byte>, saddr: seq<Byte>, daddr: seq<Byte>, protocol: Byte) returns (r: nat)
    requires |saddr| == |daddr| == 4 && |data| < WORD
    ensures r == Expected(Pseudo4(saddr, daddr, protocol, |data|), data)
  {
    var head := saddr + daddr + [0, protocol] + Be(|data|);
    var sum := PartialSmall(head, 0);
    NoOverflow(head, data);
    r := Flat(data, sum);
    Unwrapped(sum + WordSum(data));
  }

  lemma {:induction false} FourParts(a: seq<Byte>, b: seq<Byte>, c: seq<Byte>, d: seq<Byte>)
    requires |a| % 2 == 0 && |b| % 2 == 0 && |c| % 2 == 0
    ensures WordSum(a + b + c + d) == WordSum(a) + WordSum(b) + WordSum(c) + WordSum(d)
  {
    WordSumSplit(a + b + c, d);
    WordSumSplit(a + b, c);
    WordSumSplit(a, b);
  }

  /** The four partial sums of skb_checksum_protocol and skb_checksum_protocol6. */
  method PseudoSum(a: seq<Byte>, b: seq<Byte>, c: seq<Byte>, d: seq<Byte>) returns (sum: nat)
    requires |a| % 2 == 0 && |b| % 2 == 0 && |c| % 2 == 0 && |a| + |b| + |c| + |d| <= 100
    ensures sum == WordSum(a + b + c + d) <= 100 * 65535
  {
    FourParts(a, b, c, d);
    WordSumBound(a);
    WordSumBound(b);
    WordSumBound(c);
    WordSumBound(d);
    sum := PartialSmall(a, 0);
    sum := PartialSmall(b, sum);
    sum := PartialSmall(c, sum);
    sum := PartialSmall(d, sum);
  }

  /** The end of both: with a buffer its checksum; without one the folded pseudo header, the seed the
      card starts from. */
  method Complete(chain: Option<seq<Node>>, len: nat, ghost pseudo: seq<Byte>, sum: nat) returns (r: nat)
    requires sum == WordSum(pseudo) <= 100 * 65535 && |pseudo| <= 100 && len <= 70000
    ensures chain.Some? ==> r == Expected(pseudo, Front(chain.value, 0, len))
    ensures chain.None? ==> r == Fold(WordSum(pseudo))
  {
    if chain == None {
      var c := FoldSum(sum);
      return Complement(c);
    }
    NoOverflow(pseudo, Front(chain.value, 0, len));
    r := OverChain(chain.value, len, sum);
    Unwrapped(sum + WordSum(Front(chain.value, 0, len)));
  }

  method Protocol4(chain: Option<seq<Node>>, len: nat, saddr: seq<Byte>, daddr: seq<Byte>, protocol: Byte)
      returns (r: nat)
    requires |saddr| == |daddr| == 4 && len < WORD
    ensures chain.Some? ==> r == Expected(Pseudo4(saddr, daddr, protocol, len), Front(chain.value, 0, len))
    ensures chain.None? ==> r == Fold(WordSum(Pseudo4(saddr, daddr, protocol, len)))
  {
    var sum := PseudoSum(saddr, daddr, [0, protocol], Be(len));
    r := Complete(chain, len, Pseudo4(saddr, daddr, protocol, len), sum);
  }

  method Protocol6(chain: Option<seq<Node>>, len: nat, saddr: seq<Byte>, daddr: seq<Byte>, protocol: Byte)
      returns (r: nat)
    requires |saddr| == |daddr| == 16 && len <= 70000
    ensures chain.Some? ==> r == Expected(Pseudo6(saddr, daddr, protocol, len), Front(chain.value, 0, len))
    ensures chain.None? ==> r == Fold(WordSum(Pseudo6(saddr, daddr, protocol, len)))
  {
    var sum := PseudoSum(saddr, daddr, Be(len / WORD) + Be(len), [0, 0, 0, protocol]);
    r := Complete(chain, len, Pseudo6(saddr, daddr, protocol, len), sum);
  }

  // ---------------------------------------------------------------- storing, verifying, offloading

  /** The segment with `c` stored in its checksum field at octet `o`. */
  function Store(segment: seq<Byte>, o: nat, c: nat): seq<Byte>
    requires o + 1 < |segment| && c < WORD
  {
    segment[o := c % 256][o + 1 := c / 256]
  }

  lemma {:induction false} StoreSum(segment: seq<Byte>, o: nat, c: nat)
    requires o + 1 < |segment| && o % 2 == 0 && c < WORD
    ensures WordSum(Store(segment, o, c)) == WordSum(Store(segment, o, 0)) + c
  {
    var pre, post := segment[..o], segment[o + 2..];
    assert Store(segment, o, c) == pre + ([c % 256, c / 256] + post);
    assert Store(segment, o, 0) == pre + ([0, 0] + post);
    WordSumSplit(pre, [c % 256, c / 256] + post);
    WordSumSplit(pre, [0, 0] + post);
    WordSumSplit([c % 256, c / 256], post);
    WordSumSplit([0, 0], post);
    Pair(c % 256, c / 256);
    Pair(0, 0);
  }

  lemma {:induction false} Pair(a: Byte, b: Byte)
    ensures WordSum([a, b]) == a as nat + 256 * b as nat
  {
    assert [a, b][2..] == [];
  }

  /** A segment with its checksum stored verifies to zero. */
  lemma {:induction false} StoredVerifies(pseudo: seq<Byte>, segment: seq<Byte>, o: nat)
    requires o + 1 < |segment| && o % 2 == 0
    ensures var c := Expected(pseudo, Store(segment, o, 0)); Expected(pseudo, Store(segment, o, c)) == 0
  {
    var x := WordSum(pseudo) + WordSum(Store(segment, o, 0));
    StoreSum(segment, o, Complement(Fold(x)));
    FoldComplement(x);
  }

  /** And only one that sums the same modulo 65535 does: a single changed word is always noticed, except
      for 0x0000 against 0xffff. */
  lemma {:induction false} ChangeNoticed(pseudo: seq<Byte>, segment: seq<Byte>, o: nat, v: nat, w: nat)
    requires o + 1 < |segment| && o % 2 == 0 && v < WORD && w < WORD
    requires Expected(pseudo, Store(segment, o, v)) == 0 && Expected(pseudo, Store(segment, o, w)) == 0
    ensures v == w || (v == 0 && w == 65535) || (v == 65535 && w == 0)
  {
    StoreSum(segment, o, v);
    StoreSum(segment, o, w);
    var x := WordSum(pseudo) + WordSum(Store(segment, o, 0));
    AllOnes(x + v);
    AllOnes(x + w);
    var j: nat :| x + v == 65535 * j;
    var k: nat :| x + w == 65535 * k;
    MultipleWithin(v - w, j - k);
  }

  lemma {:induction false} MultipleWithin(d: int, m: int)
    requires d == 65535 * m && d < WORD && 0 < d + WORD
    ensures d == 0 || d == 65535 || d == -65535
  {
    assert -2 < m < 2;
  }

  lemma {:induction false} AllOnes(x: nat)
    requires Fold(x) == 65535
    ensures exists k: nat :: x == 65535 * k
  {
    FoldIs(x);
    var k: nat :| x == Fold(x) + 65535 * k;
    assert x == 65535 * (k + 1);
  }

  /** What the card computes over the segment with the seed in its checksum field is the checksum the
      software would have stored. */
  lemma {:induction false} OffloadAgrees(pseudo: seq<Byte>, segment: seq<Byte>, o: nat)
    requires o + 1 < |segment| && o % 2 == 0
    ensures var seed := Fold(WordSum(pseudo));
            Complement(Fold(WordSum(Store(segment, o, seed)))) == Expected(pseudo, Store(segment, o, 0))
  {
    var seed := Fold(WordSum(pseudo));
    StoreSum(segment, o, seed);
    FoldEarly(WordSum(Store(segment, o, 0)), WordSum(pseudo));
  }
}
