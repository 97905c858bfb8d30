/** The congestion state machine of main/tcp_congestion.c at a fixed MSS.  History variables count the
    growth and the acknowledged packets of congestion avoidance, and how often ssthresh was changed in
    the current recovery episode. */
module Congestion {
  import opened Common
  import opened Cubic
  import TcpSeq

  const BETA: nat := 717
  const BETA_SCALE: nat := 1024

  datatype State = Open | Recovery | Loss

  /** Packets in a window of `bytes`. */
  lemma {:induction false} Packets(bytes: nat, mss: nat)
    requires mss > 0
    ensures bytes / mss * mss <= bytes < (bytes / mss + 1) * mss
  {
    DivCompare(bytes, mss, bytes / mss);
    DivCompare(bytes, mss, bytes / mss + 1);
  }

  /** Products of packet counts and MSS stay within 64 bits. */
  lemma {:induction false} ProductFits(packets: nat, mss: nat)
    requires packets <= 2 * U32 && mss <= 65535
    ensures packets * mss <= U64
  {
    MulMono(packets, 2 * U32, mss);
    MulMono(mss, 65535, 2 * U32);
  }

  /** Division with remainder by a count of at least 2: twice the quotient plus the rest fits. */
  lemma {:induction false} Amortised(credits: nat, cnt: nat)
    requires cnt >= 2
    ensures cnt * (credits / cnt) + credits % cnt == credits && credits % cnt < cnt
    ensures 2 * (credits / cnt) + credits % cnt <= credits
    ensures credits <= 2 * U32 ==> credits / cnt <= U32
  {
    assert credits == credits / cnt * cnt + credits % cnt;
    MulMono(2, cnt, credits / cnt);
  }

  /** The threshold of the Reno-friendly estimate. */
  function FriendThreshold(cwnd: nat): nat {
    if cwnd * 15 / 8 > U32 then U32 else Max(cwnd * 15 / 8, 1)
  }

  class Congestion {
    const mss: nat
    var cwnd: nat
    var ssthresh: nat
    var state: State
    var recoverySeq: int
    var priorCwnd: nat
    var ackedBytes: nat
    var ackCnt: nat
    var epochStart: nat
    var tcpCwnd: nat
    var lastMax: nat
    var k: nat
    var origin: nat
    var cnt: nat
    var cwndCnt: nat
    ghost var epochCwnd: nat
    ghost var grown: nat
    ghost var credited: nat
    ghost var lowered: nat

    predicate Windows()
      reads this
    {
      && 1 <= mss <= 65535 && mss <= cwnd <= U32
      && (ssthresh == U32 || 2 * mss <= ssthresh < U32)
    }

    predicate CubicOk()
      reads this
    {
      && ackedBytes < mss && ackCnt <= U32 && tcpCwnd <= U32 && lastMax <= U32 && cwndCnt <= U32
    }

    ghost predicate EpochOk()
      reads this
    {
      epochStart != 0 ==> EpochAt(epochCwnd, origin, k)
    }

    /** Twice the growth plus what is left over never exceeds what was acknowledged, and ssthresh moves
        at most once between leaving OPEN and coming back. */
    ghost predicate Accounts()
      reads this
    {
      2 * grown + cwndCnt <= credited && lowered <= 1 && (state == Open ==> lowered == 0)
    }

    ghost predicate Valid()
      reads this
    {
      Windows() && CubicOk() && EpochOk() && Accounts()
    }

    /** tcp_congestion_init. */
    constructor (sndMss: nat)
      requires sndMss <= 65535
      ensures Valid() && state == Open && cwnd == 10 * mss && ssthresh == U32
    {
      var m := if sndMss == 0 then 1 else sndMss;
      mss := m;
      cwnd := Min(10 * m, U32);
      ssthresh, state, recoverySeq, priorCwnd := U32, Open, 0, 0;
      ackedBytes, ackCnt, epochStart, tcpCwnd, lastMax, k, origin, cnt, cwndCnt := 0, 0, 0, 0, 0, 0, 0, 0, 0;
      epochCwnd, grown, credited, lowered := 0, 0, 0, 0;
    }

    /** tcp_ca_set_cwnd; what the change sends is not part of this model. */
    method SetCwnd(value: nat)
      modifies this`cwnd
      ensures cwnd == Max(value, mss)
    {
      cwnd := Max(value, mss);
    }

    /** tcp_cubic_set_cwnd_packets. */
    method SetPackets(packets: nat)
      requires packets <= 2 * U32 && mss <= 65535
      modifies this`cwnd
      ensures cwnd == Max(Min(packets * mss, U32), mss)
    {
      ProductFits(packets, mss);
      SetCwnd(Min(packets * mss, U32));
    }

    function WindowPackets(): nat
      requires mss > 0
      reads this
    {
      Max(cwnd / mss, 1)
    }

    /** tcp_cubic_take_acked_packets: no acknowledged octet is lost or counted twice, and the 32-bit clamp
        is never taken. */
    method TakeAcked(bytes: nat) returns (packets: nat)
      requires mss > 0 && ackedBytes < mss && bytes <= U32
      modifies this`ackedBytes
      ensures packets * mss + ackedBytes == old(ackedBytes) + bytes && ackedBytes < mss && packets <= U32
    {
      var total := ackedBytes + bytes;
      Packets(total, mss);
      ClampUnused(ackedBytes, bytes, mss);
      ackedBytes := total % mss;
      packets := Min(total / mss, U32);
    }

    /** tcp_cubic_slow_start: returns what is left for congestion avoidance. */
    method SlowStart(acked: nat) returns (rest: nat)
      requires Windows() && 1 <= acked <= U32
      modifies this`cwnd
      ensures (cwnd, rest) == SlowStarted(old(cwnd), ssthresh, mss, acked)
      ensures Windows() && cwnd >= old(cwnd) && rest <= acked
    {
      SlowStartedIs(cwnd, ssthresh, mss, acked);
      var packets := WindowPackets();
      var limit := Max(ssthresh / mss, 2);
      if packets >= limit { return acked; }
      var increase := Min(acked, limit - packets);
      SetPackets(packets + increase);
      rest := acked - increase;
    }

    /** The start of an epoch in tcp_cubic_update. */
    method StartEpoch(packets: nat, acked: nat, now: nat)
      requires 1 <= packets <= U32 && lastMax <= U32
      modifies this`epochStart, this`ackCnt, this`tcpCwnd, this`k, this`origin, this`epochCwnd
      ensures epochStart == (if now != 0 then now else 1) && EpochOk() && epochCwnd == packets
      ensures ackCnt == acked && tcpCwnd == packets && origin == Max(lastMax, packets)
    {
      epochStart := if now != 0 then now else 1;
      ackCnt, tcpCwnd, epochCwnd := acked, packets, packets;
      if lastMax <= packets {
        k, origin := 0, packets;
      } else {
        k := KMs(lastMax - packets);
        origin := lastMax;
      }
    }

    /** The Reno-friendly part of tcp_cubic_update: the same as stepping in a loop. */
    method Friendly(packets: nat)
      requires packets >= 1 && ackCnt >= 1 && ackCnt <= U32 && tcpCwnd <= U32
      modifies this`ackCnt, this`tcpCwnd
      ensures var r := Steps(old(ackCnt), FriendThreshold(packets));
              ackCnt == r.0 && tcpCwnd == SatAdd(old(tcpCwnd), r.1)
      ensures 1 <= ackCnt <= old(ackCnt) && tcpCwnd <= U32
    {
      var threshold := FriendThreshold(packets);
      StepsClosed(ackCnt, threshold);
      if ackCnt > threshold {
        var steps := (ackCnt - 1) / threshold;
        ackCnt, tcpCwnd := ackCnt - steps * threshold, SatAdd(tcpCwnd, steps);
      }
    }

    /** The curve part of tcp_cubic_update: the window to aim for now. */
    method Aim(packets: nat, acked: nat, now: nat) returns (target: nat)
      requires CubicOk() && EpochOk() && 1 <= packets <= U32 && 1 <= acked <= U32
      modifies this`epochStart, this`ackCnt, this`tcpCwnd, this`k, this`origin, this`epochCwnd
      ensures CubicOk() && EpochOk() && epochStart != 0 && ackCnt >= 1
      ensures old(epochStart) != 0 ==> epochStart == old(epochStart) && epochCwnd == old(epochCwnd)
      ensures target == Target(if now >= epochStart then now - epochStart else 0, k, origin)
      ensures epochCwnd <= target <= U32
    {
      ackCnt := SatAdd(ackCnt, acked);
      if epochStart == 0 { StartEpoch(packets, acked, now); }
      var elapsed := if now >= epochStart then now - epochStart else 0;
      TargetAboveStart(epochCwnd, origin, k, elapsed);
      target := Target(elapsed, k, origin);
    }

    /** tcp_cubic_update: acknowledged packets needed per packet of growth. */
    method Update(packets: nat, acked: nat, now: nat) returns (ghost target: nat)
      requires Valid() && 1 <= packets <= U32 && 1 <= acked <= U32
      modifies this`epochStart, this`ackCnt, this`tcpCwnd, this`k, this`origin, this`epochCwnd, this`cnt
      ensures Valid() && epochStart != 0 && 2 <= cnt <= U32
      ensures old(epochStart) != 0 ==> epochStart == old(epochStart) && epochCwnd == old(epochCwnd)
      ensures epochCwnd <= target <= U32 && cnt == CntFor(target, packets, lastMax, tcpCwnd)
      ensures target == Target(if now >= epochStart then now - epochStart else 0, k, origin)
    {
      var t := Aim(packets, acked, now);
      target := t;
      var c := CurveCnt(t, packets, lastMax);
      Friendly(packets);
      if tcpCwnd > packets { c := Min(c, Max(Ratio(packets, tcpCwnd - packets), 1)); }
      CntBounds(target, packets, lastMax, tcpCwnd);
      cnt := Max(c, 2);
    }

    /** The count in use is the one for the curve at this moment. */
    predicate CountNow(packets: nat, now: nat)
      reads this
    {
      && epochStart != 0
      && cnt == CntFor(Target(if now >= epochStart then now - epochStart else 0, k, origin), packets, lastMax, tcpCwnd)
    }

    /** tcp_cubic_cong_avoid: slow start below ssthresh, then growth by the CUBIC count.  The cast of the
        quotient to 32 bits loses nothing. */
    method CongAvoid(acked0: nat, now: nat)
      requires Valid() && 1 <= acked0 <= U32
      modifies this
      ensures Valid() && cwnd >= old(cwnd) && ssthresh == old(ssthresh)
              && state == old(state) && lowered == old(lowered)
      ensures ackedBytes == old(ackedBytes) && recoverySeq == old(recoverySeq) && grown >= old(grown)
      ensures var r := AfterSlow(old(cwnd), ssthresh, mss, acked0);
              && cwnd == Widened(r.0, mss, grown - old(grown)) && credited == old(credited) + r.1
              && if r.1 == 0 then grown == old(grown) && cwndCnt == old(cwndCnt)
                 else cnt >= 2 && cnt * (grown - old(grown)) + cwndCnt == old(cwndCnt) + r.1 && cwndCnt < cnt
      ensures var r := AfterSlow(old(cwnd), ssthresh, mss, acked0); r.1 > 0 ==> CountNow(Max(Ratio(r.0, mss), 1), now)
    {
      var acked := acked0;
      if cwnd < ssthresh {
        acked := SlowStart(acked);
        if acked == 0 { return; }
      }
      Avoid(acked, now);
    }

    /** Congestion avoidance proper: growth by the count for the curve at this moment. */
    method Avoid(acked: nat, now: nat)
      requires Valid() && 1 <= acked <= U32
      modifies this`epochStart, this`ackCnt, this`tcpCwnd, this`k, this`origin, this`epochCwnd, this`cnt,
               this`cwnd, this`cwndCnt, this`grown, this`credited
      ensures Valid() && cwnd >= old(cwnd) && grown >= old(grown) && cwnd == Widened(old(cwnd), mss, grown - old(grown))
      ensures credited == old(credited) + acked && cnt >= 2 && cwndCnt < cnt
      ensures cnt * (grown - old(grown)) + cwndCnt == old(cwndCnt) + acked
      ensures CountNow(old(WindowPackets()), now)
    {
      var packets := WindowPackets();
      WindowBound(cwnd, mss);
      ghost var target := Update(packets, acked, now);
      Grow(packets, acked);
    }

    /** Its second half: spend the credit. */
    method Grow(packets: nat, acked: nat)
      requires Valid() && packets == WindowPackets() <= U32 && acked <= U32 && 2 <= cnt <= U32
      modifies this`cwnd, this`cwndCnt, this`grown, this`credited
      ensures Valid() && cwnd >= old(cwnd)
      ensures grown >= old(grown) && cwnd == Widened(old(cwnd), mss, grown - old(grown))
      ensures credited == old(credited) + acked && cwndCnt < cnt
      ensures cnt * (grown - old(grown)) + cwndCnt == old(cwndCnt) + acked
    {
      var credits := cwndCnt + acked;
      Amortised(credits, cnt);
      var increase := Ratio(credits, cnt);
      cwndCnt := credits % cnt;
      grown, credited := grown + increase, credited + acked;
      if increase > 0 { GrowBy(packets, increase); }
    }

    method GrowBy(packets: nat, increase: nat)
      requires Windows() && packets == WindowPackets() <= U32 && 1 <= increase <= U32
      modifies this`cwnd
      ensures Windows() && cwnd >= old(cwnd) && cwnd == Widened(old(cwnd), mss, increase)
    {
      WindowBound(cwnd, mss);
      GrowIs(cwnd, mss, packets, increase);
      SetPackets(packets + increase);
    }

    /** tcp_cubic_recalc_ssthresh. */
    method RecalcSsthresh() returns (threshold: nat)
      requires Windows() && CubicOk()
      modifies this`epochStart, this`cwndCnt, this`lastMax
      ensures threshold == U32 || 2 * mss <= threshold < U32
      ensures threshold == Min(Max(WindowPackets() * BETA / BETA_SCALE, 2) * mss, U32)
      ensures epochStart == 0 && cwndCnt == 0 && lastMax == Remembered(WindowPackets(), old(lastMax)) <= WindowPackets()
    {
      var packets := WindowPackets();
      WindowBound(cwnd, mss);
      epochStart, cwndCnt := 0, 0;
      if packets < lastMax {
        lastMax := packets * (BETA_SCALE + BETA) / (2 * BETA_SCALE);
        RememberedLess(packets);
      } else {
        lastMax := packets;
      }
      var t := Max(packets * BETA / BETA_SCALE, 2);
      MulMono(2, t, mss);
      threshold := Min(t * mss, U32);
    }

    /** What an acknowledgment does to the window in OPEN. */
    method TakeAck(bytes: nat, now: nat)
      requires Valid() && 0 < bytes <= U32
      modifies this
      ensures Valid() && cwnd >= old(cwnd) && ssthresh == old(ssthresh) && state == old(state)
      ensures recoverySeq == old(recoverySeq)
      ensures var p := Ratio(old(ackedBytes) + bytes, mss);
              && p * mss + ackedBytes == old(ackedBytes) + bytes && ackedBytes < mss && grown >= old(grown)
              && Grew(old(cwnd), ssthresh, mss, p, cwnd, grown - old(grown), cnt, old(cwndCnt), cwndCnt)
              && (p > SlowPart(old(cwnd), ssthresh, mss, p) ==>
                    CountNow(Max(Widened(old(cwnd), mss, SlowPart(old(cwnd), ssthresh, mss, p)) / mss, 1), now))
    {
      var acked := TakeAcked(bytes);
      QuotientIs(old(ackedBytes) + bytes, mss, acked);
      if acked > 0 { CongAvoid(acked, now); }
      GrewIs(old(cwnd), ssthresh, mss, acked, cwnd, grown - old(grown), cnt, old(cwndCnt), cwndCnt);
    }

    /** tcp_congestion_on_ack; true when the next segment should be retransmitted. */
    method OnAck(bytes: nat, limited: bool, sndUna: int, now: nat) returns (again: bool)
      requires Valid() && bytes <= U32
      modifies this
      ensures Valid() && ssthresh == old(ssthresh)
      ensures old(state) == Open ==> state == Open && cwnd >= old(cwnd) && !again
      ensures old(state) != Open ==> (state == Open <==> TcpSeq.Geq(sndUna, recoverySeq)) && again == (state != Open)
      ensures old(state) != Open && state == Open ==> cwnd == Max(ssthresh, mss)
      ensures state == Recovery ==> cwnd == Max(SatAdd(ssthresh, mss), mss)
      ensures state == Loss ==> cwnd == old(cwnd)
      ensures recoverySeq == old(recoverySeq)
              && (!limited || bytes == 0 ==> grown == old(grown) && credited == old(credited))
      ensures old(state) == Open && (!limited || bytes == 0) ==>
                cwnd == old(cwnd) && ackedBytes == old(ackedBytes) && cwndCnt == old(cwndCnt)
      ensures old(state) != Open && state == Open ==> cwndCnt == 0
      ensures old(state) == Open && limited && bytes > 0 ==>
                var p := Ratio(old(ackedBytes) + bytes, mss);
                && p * mss + ackedBytes == old(ackedBytes) + bytes && ackedBytes < mss && grown >= old(grown)
                && Grew(old(cwnd), ssthresh, mss, p, cwnd, grown - old(grown), cnt, old(cwndCnt), cwndCnt)
                && (p > SlowPart(old(cwnd), ssthresh, mss, p) ==>
                      CountNow(Max(Widened(old(cwnd), mss, SlowPart(old(cwnd), ssthresh, mss, p)) / mss, 1), now))
    {
      if state != Open {
        if TcpSeq.Geq(sndUna, recoverySeq) {
          SetCwnd(ssthresh);
          state, cwndCnt, lowered := Open, 0, 0;
          return false;
        }
        if state == Recovery { SetCwnd(SatAdd(ssthresh, mss)); }
        return true;
      }
      if limited && bytes > 0 {
        TakeAck(bytes, now);
      }
      again := false;
    }

    /** What OPEN does on a loss signal: remember the window, lower the threshold, mark the episode. */
    method EnterEpisode(sndNxt: int)
      requires Valid() && state == Open
      modifies this
      ensures Windows() && CubicOk() && EpochOk() && 2 * grown + cwndCnt <= credited && lowered == 1
      ensures cwnd == old(cwnd) && recoverySeq == sndNxt && priorCwnd == cwnd && state == Open
      ensures ssthresh == Min(Max(WindowPackets() * BETA / BETA_SCALE, 2) * mss, U32)
      ensures epochStart == 0 && cwndCnt == 0 && lastMax == Remembered(WindowPackets(), old(lastMax))
      ensures ackedBytes == old(ackedBytes)
    {
      priorCwnd := cwnd;
      var t := RecalcSsthresh();
      ssthresh, recoverySeq, lowered := t, sndNxt, lowered + 1;
      WindowBound(cwnd, mss);
    }

    /** tcp_congestion_on_duplicate_ack; true on the third in OPEN. */
    method OnDuplicateAck(duplicates: nat, sndNxt: int) returns (again: bool)
      requires Valid()
      modifies this
      ensures Valid() && again == (duplicates == 3 && old(state) == Open)
      ensures again ==> state == Recovery && cwnd == SatAdd(ssthresh, 3 * mss) && recoverySeq == sndNxt
      ensures again ==> ssthresh == old(Min(Max(WindowPackets() * BETA / BETA_SCALE, 2) * mss, U32))
      ensures again ==> epochStart == 0 && cwndCnt == 0 && lastMax == old(Remembered(WindowPackets(), lastMax))
      ensures again ==> priorCwnd == old(cwnd)
      ensures !again ==> ssthresh == old(ssthresh) && state == old(state) && recoverySeq == old(recoverySeq)
      ensures !again ==> cwnd == if duplicates > 3 && state == Recovery then SatAdd(old(cwnd), mss) else old(cwnd)
    {
      if duplicates == 3 && state == Open {
        EnterEpisode(sndNxt);
        state := Recovery;
        SetCwnd(SatAdd(ssthresh, 3 * mss));
        return true;
      }
      if duplicates > 3 && state == Recovery { SetCwnd(SatAdd(cwnd, mss)); }
      again := false;
    }

    /** tcp_congestion_on_timeout. */
    method OnTimeout(sndNxt: int)
      requires Valid()
      modifies this
      ensures Valid() && state == Loss && cwnd == mss && cwndCnt == 0 && lastMax == 0 && epochStart == 0
      ensures old(state) != Open ==> ssthresh == old(ssthresh) && recoverySeq == old(recoverySeq)
      ensures old(state) == Open ==> ssthresh == old(Min(Max(WindowPackets() * BETA / BETA_SCALE, 2) * mss, U32))
      ensures old(state) == Open ==> recoverySeq == sndNxt
    {
      if state == Open { EnterEpisode(sndNxt); }
      state := Loss;
      SetCwnd(mss);
      ResetCubic();
    }

    /** tcp_cubic_reset. */
    method ResetCubic()
      requires mss >= 1
      modifies this`ackedBytes, this`ackCnt, this`epochStart, this`tcpCwnd, this`lastMax,
               this`k, this`origin, this`cnt, this`cwndCnt
      ensures CubicOk() && ackedBytes == ackCnt == epochStart == tcpCwnd == lastMax
                                   == k == origin == cnt == cwndCnt == 0
    {
      ackedBytes, ackCnt, epochStart := 0, 0, 0;
      tcpCwnd, lastMax, k := 0, 0, 0;
      origin, cnt, cwndCnt := 0, 0, 0;
    }
  }

  /** The maximum remembered at a loss: the window, or 1741/2048 of it if it has not come back to the last
      maximum (fast convergence, section 4.7 of RFC 9438). */
  function Remembered(packets: nat, lastMax: nat): nat {
    if packets < lastMax then packets * (BETA_SCALE + BETA) / (2 * BETA_SCALE) else packets
  }

  lemma {:induction false} RememberedLess(packets: nat)
    ensures packets * (BETA_SCALE + BETA) / (2 * BETA_SCALE) <= packets
  {
  }

  lemma {:induction false} WindowBound(cwnd: nat, mss: nat)
    requires 1 <= mss <= cwnd <= U32
    ensures var p := Max(cwnd / mss, 1); 1 <= p <= U32 && p * mss <= cwnd < (p + 1) * mss
  {
    DivSelf(cwnd, mss);
    DivCompare(cwnd, mss, 1);
    Packets(cwnd, mss);
  }

  /** The window with some packets added to the packets it holds. */
  function Widened(cwnd: nat, mss: nat, increase: nat): nat
    requires mss > 0
  {
    if increase == 0 then cwnd else Max(Min((Max(cwnd / mss, 1) + increase) * mss, U32), mss)
  }

  /** The window and what is left of the acknowledged packets after slow start. */
  function SlowStarted(cwnd: nat, ssthresh: nat, mss: nat, acked: nat): (nat, nat)
    requires mss > 0
  {
    var packets, limit := Max(cwnd / mss, 1), Max(ssthresh / mss, 2);
    if packets >= limit then (cwnd, acked)
    else
      var increase := Min(acked, limit - packets);
      (Max(Min((packets + increase) * mss, U32), mss), acked - increase)
  }

  /** How many of p acknowledged packets slow start takes: all, up to ssthresh. */
  function SlowPart(cwnd: nat, ssthresh: nat, mss: nat, p: nat): nat
    requires mss > 0
  {
    var packets, limit := Max(Ratio(cwnd, mss), 1), Max(Ratio(ssthresh, mss), 2);
    if cwnd < ssthresh && packets < limit then Min(p, limit - packets) else 0
  }

  /** What p acknowledged packets do to the window: one packet of growth each in slow start; of the rest,
      one for each `cnt`, with the remainder kept for later. */
  predicate Grew(cwnd: nat, ssthresh: nat, mss: nat, p: nat, wider: nat, growth: nat, cnt: nat, before: nat, after: nat)
    requires mss > 0
  {
    var slow := SlowPart(cwnd, ssthresh, mss, p);
    && wider == (if slow + growth == 0 then cwnd else Min((Max(Ratio(cwnd, mss), 1) + slow + growth) * mss, U32))
    && if slow == p then growth == 0 && after == before
       else cnt >= 2 && after < cnt && cnt * growth + after == before + (p - slow)
  }

  /** The two steps of the code, taken together. */
  lemma {:induction false} GrewIs(cwnd: nat, ssthresh: nat, mss: nat, p: nat, wider: nat, growth: nat,
                                  cnt: nat, before: nat, after: nat)
    requires 1 <= mss <= 65535 && mss <= cwnd <= U32
    requires if p == 0 then wider == cwnd && growth == 0 && after == before
             else
               var r := AfterSlow(cwnd, ssthresh, mss, p);
               && wider == Widened(r.0, mss, growth)
               && if r.1 == 0 then growth == 0 && after == before
                  else cnt >= 2 && cnt * growth + after == before + r.1 && after < cnt
    ensures Grew(cwnd, ssthresh, mss, p, wider, growth, cnt, before, after)
    ensures p > 0 && cwnd < ssthresh ==>
              SlowStarted(cwnd, ssthresh, mss, p).0 == Widened(cwnd, mss, SlowPart(cwnd, ssthresh, mss, p))
    ensures p > 0 && cwnd < ssthresh ==> SlowStarted(cwnd, ssthresh, mss, p).1 == p - SlowPart(cwnd, ssthresh, mss, p)
  {
    var packets, slow := Max(Ratio(cwnd, mss), 1), SlowPart(cwnd, ssthresh, mss, p);
    WindowBound(cwnd, mss);
    AtLeastMss(packets + slow, mss);
    WidenTwice(cwnd, mss, packets, slow, growth);
  }

  lemma {:induction false} AtLeastMss(n: nat, mss: nat)
    requires n >= 1 && mss <= U32
    ensures Max(Min(n * mss, U32), mss) == Min(n * mss, U32)
  {
    MulMono(1, n, mss);
  }

  lemma {:induction false} WidenTwice(cwnd: nat, mss: nat, packets: nat, slow: nat, growth: nat)
    requires 1 <= mss <= cwnd <= U32 && packets == Max(Ratio(cwnd, mss), 1)
    ensures Widened(Widened(cwnd, mss, slow), mss, growth)
         == if slow + growth == 0 then cwnd else Min((packets + slow + growth) * mss, U32)
  {
    AtLeastMss(packets + slow, mss);
    AtLeastMss(packets + slow + growth, mss);
    if slow > 0 && growth > 0 {
      var w := Widened(cwnd, mss, slow);
      if (packets + slow) * mss <= U32 {
        QuotientIs(w, mss, packets + slow);
      } else {
        SaturatedStays(w, mss, growth);
        MulMono(packets + slow, packets + slow + growth, mss);
      }
    }
  }

  lemma {:induction false} SaturatedStays(w: nat, mss: nat, growth: nat)
    requires w == U32 && 1 <= mss <= U32 && growth > 0
    ensures Widened(w, mss, growth) == U32
  {
    Packets(w, mss);
    MulMono(w / mss + 1, Max(w / mss, 1) + growth, mss);
  }

  /** The same, with slow start left out at or above ssthresh. */
  function AfterSlow(cwnd: nat, ssthresh: nat, mss: nat, acked: nat): (nat, nat)
    requires mss > 0
  {
    if cwnd < ssthresh then SlowStarted(cwnd, ssthresh, mss, acked) else (cwnd, acked)
  }

  /** Slow start grows the window by at least a packet or not at all, by at most what was acknowledged,
      and stops at ssthresh. */
  lemma {:induction false} SlowStartedIs(cwnd: nat, ssthresh: nat, mss: nat, acked: nat)
    requires 1 <= mss <= 65535 && mss <= cwnd <= U32 && ssthresh <= U32 && 1 <= acked <= U32
    ensures var r := SlowStarted(cwnd, ssthresh, mss, acked);
            && cwnd <= r.0 <= U32 && r.1 <= acked && (r.1 == acked ==> r.0 == cwnd)
            && r.0 <= cwnd + (acked - r.1) * mss
            && (r.1 > 0 ==> Max(cwnd / mss, 1) + (acked - r.1) >= Max(ssthresh / mss, 2))
    ensures Max(cwnd / mss, 1) <= U32 && Max(ssthresh / mss, 2) <= U32
  {
    DivSelf(cwnd, mss);
    DivSelf(ssthresh, mss);
    DivCompare(cwnd, mss, 1);
    Packets(cwnd, mss);
    var packets, limit := Max(cwnd / mss, 1), Max(ssthresh / mss, 2);
    if packets < limit { GrowIs(cwnd, mss, packets, Min(acked, limit - packets)); }
  }

  lemma {:induction false} GrowIs(cwnd: nat, mss: nat, packets: nat, increase: nat)
    requires 1 <= mss <= cwnd <= U32 && packets * mss <= cwnd < (packets + 1) * mss && increase >= 1
    ensures cwnd <= Max(Min((packets + increase) * mss, U32), mss) <= U32
    ensures Max(Min((packets + increase) * mss, U32), mss) <= cwnd + increase * mss
  {
    assert (packets + increase) * mss == packets * mss + increase * mss;
    MulMono(packets + 1, packets + increase, mss);
  }

  function Ratio(a: nat, b: nat): nat
    requires b > 0
  {
    a / b
  }

  /** The count the curve asks for. */
  function CurveCnt(target: nat, packets: nat, lastMax: nat): nat {
    var c := if target > packets then Max(Ratio(packets, target - packets), 1) else SatAdd(0, 100 * packets);
    if lastMax == 0 && c > 20 then 20 else c
  }

  /** What that count means while the curve is above the window: it is the largest `c` at which a window's
      worth of acknowledgments, one packet of growth for each `c`, reaches the target. */
  lemma {:induction false} CurveCntIs(target: nat, packets: nat, lastMax: nat)
    requires target > packets
    ensures var c, gap := CurveCnt(target, packets, lastMax), target - packets;
            && c >= 1 && (c > 1 ==> c * gap <= packets)
            && (lastMax > 0 || c < 20 ==> packets < (c + 1) * gap)
    ensures lastMax == 0 ==> CurveCnt(target, packets, lastMax) <= 20
  {
    var gap := target - packets;
    Packets(packets, gap);
    var c := CurveCnt(target, packets, lastMax);
    if 1 < c { MulMono(c, packets / gap, gap); }
    if packets / gap == 0 { assert (1 + 1) * gap == 2 * gap && (0 + 1) * gap == gap; }
  }

  /** The count used: no slower than the Reno-friendly estimate asks, no faster than one packet of growth
      for two acknowledged. */
  function CntFor(target: nat, packets: nat, lastMax: nat, tcpCwnd: nat): nat {
    var c := CurveCnt(target, packets, lastMax);
    Max(if tcpCwnd > packets then Min(c, Max(Ratio(packets, tcpCwnd - packets), 1)) else c, 2)
  }

  lemma {:induction false} CntBounds(target: nat, packets: nat, lastMax: nat, tcpCwnd: nat)
    requires 1 <= packets <= U32
    ensures 2 <= CntFor(target, packets, lastMax, tcpCwnd) <= U32
    ensures tcpCwnd > packets ==> CntFor(target, packets, lastMax, tcpCwnd) <= Max(Ratio(packets, tcpCwnd - packets), 2)
  {
    if target > packets { DivSelf(packets, target - packets); }
  }

  lemma {:induction false} DivSelf(x: nat, y: nat)
    requires y > 0
    ensures x / y <= x
  {
    DivCompare(x, y, x / y);
    MulMono(1, y, x / y);
  }

  lemma {:induction false} ClampUnused(rest: nat, bytes: nat, mss: nat)
    requires 1 <= mss && rest < mss && bytes <= U32
    ensures (rest + bytes) / mss <= U32
    ensures (rest + bytes) / mss * mss + (rest + bytes) % mss == rest + bytes
  {
    DivCompare(rest + bytes, mss, U32 + 1);
    assert (U32 + 1) * mss == U32 * mss + mss;
    MulMono(1, mss, U32);
  }
}
