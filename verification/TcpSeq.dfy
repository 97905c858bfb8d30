/** 32-bit modular sequence numbers and the comparison macros of main/tcp.h
    (section 3.4 of RFC 9293). */
module TcpSeq {

  const MOD: int := 0x1_0000_0000
  const HALF: int := 0x8000_0000

  /** uint32_t subtraction. */
  function Sub(a: int, b: int): int {
    (a - b) % MOD
  }

  /** uint32_t addition. */
  function Add(a: int, b: int): int {
    (a + b) % MOD
  }

  /** The (int32_t) reading of a uint32_t. */
  function Signed(d: int): int {
    if d < HALF then d else d - MOD
  }

  predicate Lt(a: int, b: int) { Signed(Sub(a, b)) < 0 }
  predicate Leq(a: int, b: int) { Signed(Sub(a, b)) <= 0 }
  predicate Gt(a: int, b: int) { Signed(Sub(a, b)) > 0 }
  predicate Geq(a: int, b: int) { Signed(Sub(a, b)) >= 0 }

  /** The sequence number at absolute position `at`. */
  function Wrap(at: int): (r: int)
    ensures 0 <= r < MOD
  {
    at % MOD
  }

  lemma {:induction false} WrapSub(a: int, b: int)
    ensures Sub(Wrap(a), Wrap(b)) == Wrap(a - b)
    ensures 0 <= a - b < MOD ==> Sub(Wrap(a), Wrap(b)) == a - b
  {
    assert a == MOD * (a / MOD) + Wrap(a);
    assert b == MOD * (b / MOD) + Wrap(b);
    var d := Wrap(a) - Wrap(b);
    assert a - b == d + MOD * (a / MOD - b / MOD);
  }

  lemma {:induction false} WrapAdd(a: int, n: int)
    ensures Add(Wrap(a), n) == Wrap(a + n)
  {
    assert a == MOD * (a / MOD) + Wrap(a);
    assert a + n == Wrap(a) + n + MOD * (a / MOD);
  }

  /** Across any number of wraps the macros order two positions as the positions themselves are
      ordered, as long as they are less than 2^31 apart. */
  lemma {:induction false} Compare(a: int, b: int)
    requires -HALF < a - b < HALF
    ensures Lt(Wrap(a), Wrap(b)) <==> a < b
    ensures Leq(Wrap(a), Wrap(b)) <==> a <= b
    ensures Gt(Wrap(a), Wrap(b)) <==> a > b
    ensures Geq(Wrap(a), Wrap(b)) <==> a >= b
  {
    WrapSub(a, b);
    if a < b { assert Wrap(a - b) == a - b + MOD; }
  }

  /** The tests of tcp_input on an acknowledgment number. */
  predicate AckPasses(ack: int, una: int, nxt: int, wnd: nat) {
    !Lt(ack, Sub(una, wnd)) && !Gt(ack, nxt) && Lt(una, ack)
  }

  /** An acknowledgment that passes names a number that was sent: with f numbers outstanding after
      position u, it is the number of a position in (u, u + f], however the numbers wrap. */
  lemma {:induction false} AckNamesSentNumber(u: int, f: int, ack: int, wnd: nat)
    requires 0 <= f < HALF && 0 <= ack < MOD && wnd < HALF && AckPasses(ack, Wrap(u), Wrap(u + f), wnd)
    ensures var d := Sub(ack, Wrap(u)); 0 < d <= f && ack == Wrap(u + d)
  {
    var d := Sub(ack, Wrap(u));
    AddBack(ack, Wrap(u));
    WrapAdd(u, d);
    assert ack == Wrap(u + d);
    WrapSub(u, u + d);
    NegWrap(d);
    assert 0 < d <= HALF;
    if d == HALF {
      TooOld(u, wnd);
    } else {
      Compare(u + d, u + f);
    }
  }

  lemma {:induction false} AddBack(a: int, b: int)
    requires 0 <= a < MOD && 0 <= b < MOD
    ensures Add(b, Sub(a, b)) == a
  {
  }

  lemma {:induction false} NegWrap(d: int)
    requires 0 <= d < MOD
    ensures Wrap(-d) == if d == 0 then 0 else MOD - d
  {
  }

  /** A number exactly 2^31 ahead is rejected as too old. */
  lemma {:induction false} TooOld(u: int, wnd: nat)
    requires wnd < HALF
    ensures Lt(Wrap(u + HALF), Sub(Wrap(u), wnd))
  {
    WrapSub(u, wnd);
    assert Wrap(wnd) == wnd;
    WrapSub(u + HALF, u - wnd);
  }
}
