/**
 * The per-client token bucket of internal/proxy/limiter.go. Time is in nanoseconds and
 * tokens in billionths, so refilling is exact: a bucket gains `rate` billionths a nanosecond.
 */
module Limiter {
  import opened Text

  const SECOND: nat := 1_000_000_000
  const MINUTE: nat := 60 * SECOND
  const CROWD: nat := 16384

  /** A bucket; tokens can run below zero when clock readings come out of order. */
  datatype Bucket = Bucket(tokens: int, last: nat)

  function Burst(rate: nat): nat {
    2 * rate * SECOND
  }

  function Min(a: int, b: int): int {
    if a < b then a else b
  }

  /** The tokens of a bucket at a time: refilled since its last use, up to the burst. */
  function Refilled(rate: nat, b: Bucket, now: nat): int {
    Min(b.tokens + (now - b.last) * rate, Burst(rate))
  }

  // ----- The reference: a bucket per key that is never forgotten -----

  type Buckets = map<string, Bucket>

  /** No bucket was used after `now`, and none has run below zero. */
  predicate Fresh(m: Buckets, now: nat) {
    forall k :: k in m ==> m[k].last <= now && m[k].tokens >= 0
  }

  function Available(rate: nat, m: Buckets, key: string, now: nat): int {
    if key in m then Refilled(rate, m[key], now) else Burst(rate)
  }

  function Grants(rate: nat, m: Buckets, key: string, now: nat): bool {
    Available(rate, m, key, now) >= SECOND
  }

  function Spend(rate: nat, m: Buckets, key: string, now: nat): Buckets {
    var t := Available(rate, m, key, now);
    m[key := Bucket(if t >= SECOND then t - SECOND else t, now)]
  }

  // ----- The program: the same, with idle buckets swept away -----

  /** Which buckets a sweep deletes. */
  predicate Idle(b: Bucket, now: nat, limit: nat) {
    b.last + limit < now
  }

  function SweepLimit(n: nat): nat {
    if n > CROWD then MINUTE else 10 * MINUTE
  }

  predicate SweepDue(n: nat, sweep: nat, now: nat) {
    sweep + MINUTE < now && (n > CROWD || sweep + 10 * MINUTE < now)
  }

  function Swept(m: Buckets, now: nat, limit: nat): Buckets {
    map k | k in m && !Idle(m[k], now, limit) :: m[k]
  }

  /** The state after `allow`; the bucket just used is never idle. */
  function AfterAllow(rate: nat, m: Buckets, sweep: nat, key: string, now: nat): (Buckets, nat) {
    var spent := Spend(rate, m, key, now);
    if SweepDue(|spent|, sweep, now) then (Swept(spent, now, SweepLimit(|spent|)), now) else (spent, sweep)
  }

  class TokenLimiter {
    const rate: nat
    var buckets: Buckets
    var sweep: nat

    constructor (rate: nat, now: nat)
      ensures this.rate == rate && buckets == map[] && sweep == now
    {
      this.rate := rate;
      buckets := map[];
      sweep := now;
    }

    /** `allow`, whatever the clock reads: refill, sweep when due, then take one token if there is one. */
    method Allow(key: string, now: nat) returns (ok: bool)
      modifies this`buckets, this`sweep
      ensures ok == Grants(rate, old(buckets), key, now)
      ensures (buckets, sweep) == AfterAllow(rate, old(buckets), old(sweep), key, now)
    {
      ghost var before := buckets;
      var tokens := TokensNow(rate, buckets, key, now);
      buckets := buckets[key := Bucket(tokens, now)];
      ghost var filled := buckets;
      ghost var spent := Spend(rate, before, key, now);
      assert spent == filled[key := spent[key]];
      SameSize(filled, spent);
      var n := |buckets|;
      SweepKeepsUsed(filled, key, spent[key], now, SweepLimit(n));
      if SweepDue(n, sweep, now) {
        buckets := DeleteIdle(buckets, now, SweepLimit(n));
        sweep := now;
      }
      if tokens < SECOND {
        ok := false;
        assert buckets[key := spent[key]] == buckets;
      } else {
        buckets := buckets[key := Bucket(tokens - SECOND, now)];
        ok := true;
      }
    }
  }

  /** Looking up or creating the bucket, and refilling it. */
  method TokensNow(rate: nat, m: Buckets, key: string, now: nat) returns (tokens: int)
    ensures tokens == Available(rate, m, key, now)
  {
    var b := if key in m then m[key] else Bucket(Burst(rate), now);
    tokens := b.tokens + (now - b.last) * rate;
    if tokens > Burst(rate) {
      tokens := Burst(rate);
    }
  }

  /** A bucket used now survives the sweep, whatever its tokens. */
  lemma SweepKeepsUsed(m: Buckets, key: string, b: Bucket, now: nat, limit: nat)
    requires key in m && m[key].last == now && b.last == now
    ensures key in Swept(m, now, limit)
    ensures Swept(m[key := b], now, limit) == Swept(m, now, limit)[key := b]
  {
  }

  lemma SameSize(a: Buckets, b: Buckets)
    requires a.Keys == b.Keys
    ensures |a| == |b|
  {
    assert |a| == |a.Keys| && |b| == |b.Keys|;
  }

  /** The sweeping loop of `allow`. */
  method DeleteIdle(m: Buckets, now: nat, limit: nat) returns (left: Buckets)
    ensures left == Swept(m, now, limit)
  {
    left := m;
    var todo := m.Keys;
    while todo != {}
      invariant todo <= m.Keys
      invariant left == map k | k in m && (k in todo || !Idle(m[k], now, limit)) :: m[k]
      decreases |todo|
    {
      var k :| k in todo;
      if Idle(left[k], now, limit) {
        left := left - {k};
      }
      todo := todo - {k};
    }
  }

  // ----- The sweep is unobservable -----

  /** The swept table agrees with the full one, and what it forgot has been full again since the sweep. */
  ghost predicate Agrees(m: Buckets, sweep: nat, full: Buckets) {
    && (forall k :: k in m ==> k in full && full[k] == m[k])
    && (forall k :: k in full && k !in m ==> full[k].last + MINUTE < sweep)
  }

  lemma RefilledBounds(rate: nat, b: Bucket, now: nat)
    requires b.last <= now && b.tokens >= 0
    ensures 0 <= Refilled(rate, b, now) <= Burst(rate)
    ensures b.last == now ==> Refilled(rate, b, now) == Min(b.tokens, Burst(rate))
  {
    Inflow(now - b.last, rate);
  }

  lemma Inflow(d: nat, rate: nat)
    ensures d * rate >= 0 && (d == 0 ==> d * rate == 0)
  {
  }

  /** A call in order of time keeps the buckets fresh. */
  lemma SpendFresh(rate: nat, m: Buckets, key: string, now: nat)
    requires Fresh(m, now)
    ensures Fresh(Spend(rate, m, key, now), now)
    ensures 0 <= Available(rate, m, key, now) <= Burst(rate)
  {
    if key in m {
      RefilledBounds(rate, m[key], now);
    }
  }

  /** Over one idle minute always refills the burst of two seconds. */
  lemma MinuteRefills(rate: nat, b: Bucket, now: nat)
    requires b.last + MINUTE <= now && b.tokens >= 0
    ensures Refilled(rate, b, now) == Burst(rate)
  {
    var d := now - b.last;
    assert d * rate >= MINUTE * rate;
  }

  lemma AgreeAvailable(rate: nat, m: Buckets, sweep: nat, full: Buckets, key: string, now: nat)
    requires Agrees(m, sweep, full) && sweep <= now && Fresh(full, now)
    ensures Fresh(m, now) && Available(rate, m, key, now) == Available(rate, full, key, now)
  {
    if key in full && key !in m {
      MinuteRefills(rate, full[key], now);
    }
  }

  lemma AllowAgrees(rate: nat, m: Buckets, sweep: nat, full: Buckets, key: string, now: nat)
    requires Agrees(m, sweep, full) && sweep <= now && Fresh(full, now)
    ensures Fresh(m, now) && Grants(rate, m, key, now) == Grants(rate, full, key, now)
    ensures var (m', sweep') := AfterAllow(rate, m, sweep, key, now);
            var full' := Spend(rate, full, key, now);
            Agrees(m', sweep', full') && sweep' <= now && Fresh(full', now)
  {
    AgreeAvailable(rate, m, sweep, full, key, now);
    SpendFresh(rate, full, key, now);
  }

  datatype Call = Call(key: string, now: nat)

  predicate InOrder(calls: seq<Call>, from: nat) {
    && (forall i :: 0 <= i < |calls| ==> from <= calls[i].now)
    && (forall i, j :: 0 <= i < j < |calls| ==> calls[i].now <= calls[j].now)
  }

  /** The answers of the program. */
  function Answers(rate: nat, m: Buckets, sweep: nat, calls: seq<Call>): seq<bool>
    decreases |calls|
  {
    if calls == [] then []
    else
      var c := calls[0];
      var after := AfterAllow(rate, m, sweep, c.key, c.now);
      [Grants(rate, m, c.key, c.now)] + Answers(rate, after.0, after.1, calls[1..])
  }

  /** The answers of buckets that are never forgotten. */
  function Ideal(rate: nat, m: Buckets, calls: seq<Call>): (r: seq<bool>)
    ensures |r| == |calls|
    decreases |calls|
  {
    if calls == [] then []
    else
      var c := calls[0];
      [Grants(rate, m, c.key, c.now)] + Ideal(rate, Spend(rate, m, c.key, c.now), calls[1..])
  }

  /** For every sequence of calls in order of time, the sweep changes no answer. */
  lemma {:induction false} SweepUnobservable(rate: nat, m: Buckets, sweep: nat, full: Buckets, from: nat,
                                             calls: seq<Call>)
    requires Agrees(m, sweep, full) && sweep <= from && Fresh(full, from) && InOrder(calls, from)
    ensures Fresh(m, from) && Answers(rate, m, sweep, calls) == Ideal(rate, full, calls)
    decreases |calls|
  {
    AgreeAvailable(rate, m, sweep, full, "", from);
    if calls != [] {
      var c := calls[0];
      AllowAgrees(rate, m, sweep, full, c.key, c.now);
      var after := AfterAllow(rate, m, sweep, c.key, c.now);
      SweepUnobservable(rate, after.0, after.1, Spend(rate, full, c.key, c.now), c.now, calls[1..]);
    }
  }

  // ----- The bound -----

  /** How many of a key's calls were granted. */
  function Granted(key: string, calls: seq<Call>, answers: seq<bool>): nat
    requires |calls| == |answers|
  {
    if calls == [] then 0
    else (if calls[0].key == key && answers[0] then 1 else 0) + Granted(key, calls[1..], answers[1..])
  }

  lemma Distribute(a: nat, b: nat, rate: nat)
    ensures (a + b) * rate == a * rate + b * rate
  {
  }

  lemma RefilledLater(rate: nat, b: Bucket, t: nat, now: nat)
    requires b.last <= t <= now
    ensures Refilled(rate, b, now) <= Refilled(rate, b, t) + (now - t) * rate
  {
    Distribute(t - b.last, now - t, rate);
    assert (t - b.last) + (now - t) == now - b.last;
  }

  lemma AvailableLater(rate: nat, m: Buckets, key: string, t: nat, now: nat)
    requires Fresh(m, t) && t <= now
    ensures Fresh(m, now) && Available(rate, m, key, now) <= Available(rate, m, key, t) + (now - t) * rate
    ensures Available(rate, m, key, t) <= Burst(rate)
  {
    if key in m {
      RefilledLater(rate, m[key], t, now);
    }
  }

  /** After a call, the key's tokens are what was available, less one if it was granted. */
  lemma AvailableAfter(rate: nat, m: Buckets, key: string, c: Call)
    requires Fresh(m, c.now)
    ensures var m' := Spend(rate, m, c.key, c.now);
            && Fresh(m', c.now)
            && Available(rate, m', key, c.now) ==
               Available(rate, m, key, c.now) - (if c.key == key && Grants(rate, m, key, c.now) then SECOND else 0)
  {
    var m' := Spend(rate, m, c.key, c.now);
    SpendFresh(rate, m, c.key, c.now);
    if c.key == key {
      RefilledBounds(rate, m'[key], c.now);
    }
  }

  /** One call's share of the account: what flows in before and after it is what flows in throughout. */
  lemma PaidStep(granted: nat, spent: nat, start: int, at: int, left: int, before: int, after: int, flow: int)
    requires granted * SECOND <= left + after && left == at - spent * SECOND
    requires at <= start + before && before + after == flow
    ensures (granted + spent) * SECOND <= start + flow
  {
  }

  /** From any state, granted calls are paid for by what was available and what flowed in since. */
  lemma {:induction false} GrantsPaid(rate: nat, m: Buckets, key: string, from: nat, until: nat, calls: seq<Call>)
    requires Fresh(m, from) && from <= until && InOrder(calls, from)
    requires forall i :: 0 <= i < |calls| ==> calls[i].now <= until
    ensures Granted(key, calls, Ideal(rate, m, calls)) * SECOND
            <= Available(rate, m, key, from) + (until - from) * rate
    decreases |calls|
  {
    if calls == [] {
      SpendFresh(rate, m, key, from);
      assert (until - from) * rate >= 0;
    } else {
      var c := calls[0];
      var m' := Spend(rate, m, c.key, c.now);
      AvailableLater(rate, m, key, from, c.now);
      AvailableAfter(rate, m, key, c);
      GrantedStep(rate, m, key, from, calls);
      GrantsPaid(rate, m', key, c.now, until, calls[1..]);
      InflowSplits(from, c.now, until, rate);
      PaidStep(Granted(key, calls[1..], Ideal(rate, m', calls[1..])),
               if c.key == key && Grants(rate, m, key, c.now) then 1 else 0,
               Available(rate, m, key, from), Available(rate, m, key, c.now), Available(rate, m', key, c.now),
               (c.now - from) * rate, (until - c.now) * rate, (until - from) * rate);
    }
  }

  lemma InflowSplits(from: nat, mid: nat, until: nat, rate: nat)
    requires from <= mid <= until
    ensures (mid - from) * rate + (until - mid) * rate == (until - from) * rate
  {
    Distribute(mid - from, until - mid, rate);
    assert (mid - from) + (until - mid) == until - from;
  }

  lemma GrantedStep(rate: nat, m: Buckets, key: string, from: nat, calls: seq<Call>)
    requires Fresh(m, from) && InOrder(calls, from) && calls != []
    ensures var c := calls[0];
            var m' := Spend(rate, m, c.key, c.now);
            && Fresh(m', c.now) && InOrder(calls[1..], c.now)
            && Granted(key, calls, Ideal(rate, m, calls)) ==
               Granted(key, calls[1..], Ideal(rate, m', calls[1..]))
               + (if c.key == key && Grants(rate, m, key, c.now) then 1 else 0)
  {
    var c := calls[0];
    SpendFresh(rate, m, c.key, c.now);
    var r := Ideal(rate, m, calls);
    assert r[1..] == Ideal(rate, Spend(rate, m, c.key, c.now), calls[1..]);
  }

  /** The answers of the program from a new limiter, and the windows of a run. */
  lemma {:induction false} IdealFrom(rate: nat, m: Buckets, from: nat, calls: seq<Call>, i: nat)
    returns (mid: Buckets, t: nat)
    requires Fresh(m, from) && InOrder(calls, from) && i <= |calls|
    ensures Fresh(mid, t) && from <= t && InOrder(calls[i..], t) && (i < |calls| ==> t <= calls[i].now)
    ensures Ideal(rate, m, calls)[i..] == Ideal(rate, mid, calls[i..])
    decreases i
  {
    if i == 0 {
      mid, t := m, from;
      assert calls[0..] == calls && Ideal(rate, m, calls)[0..] == Ideal(rate, m, calls);
    } else {
      var c := calls[0];
      var m' := Spend(rate, m, c.key, c.now);
      SpendFresh(rate, m, c.key, c.now);
      mid, t := IdealFrom(rate, m', c.now, calls[1..], i - 1);
      assert calls[1..][i - 1..] == calls[i..];
      assert Ideal(rate, m, calls)[i..] == Ideal(rate, m', calls[1..])[i - 1..];
    }
  }

  lemma {:induction false} IdealPrefix(rate: nat, m: Buckets, from: nat, calls: seq<Call>, n: nat)
    requires Fresh(m, from) && InOrder(calls, from) && n <= |calls|
    ensures InOrder(calls[..n], from) && Ideal(rate, m, calls[..n]) == Ideal(rate, m, calls)[..n]
    decreases n
  {
    if n > 0 {
      var c := calls[0];
      SpendFresh(rate, m, c.key, c.now);
      IdealPrefix(rate, Spend(rate, m, c.key, c.now), c.now, calls[1..], n - 1);
      assert calls[..n][1..] == calls[1..][..n - 1];
    }
  }

  /** A stretch of calls whose times differ by at most `span`, from any state. */
  lemma WindowLimit(rate: nat, m: Buckets, from: nat, window: seq<Call>, span: nat, key: string)
    requires Fresh(m, from) && InOrder(window, from) && window != []
    requires window[|window| - 1].now - window[0].now <= span
    ensures Granted(key, window, Ideal(rate, m, window)) * SECOND <= Burst(rate) + span * rate
  {
    var t0, t1 := window[0].now, window[|window| - 1].now;
    GrantsPaid(rate, m, key, t0, t1, window);
    AvailableLater(rate, m, key, t0, t0);
    Distribute(t1 - t0, span - (t1 - t0), rate);
    assert (t1 - t0) + (span - (t1 - t0)) == span;
  }

  /**
   * The limit: in any window of any run of a limiter, from its creation, in which times differ
   * by at most `span`, a key is granted at most `2 * rate + rate * span` calls, sweeps or not.
   */
  lemma LimitHolds(rate: nat, born: nat, calls: seq<Call>, i: nat, j: nat, span: nat, key: string)
    requires InOrder(calls, born) && i < j <= |calls| && calls[j - 1].now - calls[i].now <= span
    ensures |Answers(rate, map[], born, calls)| == |calls|
    ensures Granted(key, calls[i..j], Answers(rate, map[], born, calls)[i..j]) * SECOND
            <= 2 * rate * SECOND + span * rate
  {
    SweepUnobservable(rate, map[], born, map[], born, calls);
    var all := Ideal(rate, map[], calls);
    var mid, t := IdealFrom(rate, map[], born, calls, i);
    IdealPrefix(rate, mid, t, calls[i..], j - i);
    var window := calls[i..][..j - i];
    assert window == calls[i..j] && all[i..][..j - i] == all[i..j];
    WindowLimit(rate, mid, t, window, span, key);
  }

  // ----- Nothing is refused without need -----

  /** How many of a key's calls were granted from call `j` on, before call `i`. */
  function GrantedIn(key: string, calls: seq<Call>, answers: seq<bool>, j: nat, i: nat): nat
    requires j <= i <= |calls| == |answers|
  {
    Granted(key, calls[j..i], answers[j..i])
  }

  lemma {:induction false} GrantedSnoc(key: string, calls: seq<Call>, answers: seq<bool>, c: Call, a: bool)
    requires |calls| == |answers|
    ensures Granted(key, calls + [c], answers + [a])
            == Granted(key, calls, answers) + (if c.key == key && a then 1 else 0)
  {
    if calls == [] {
      assert calls + [c] == [c] && answers + [a] == [a];
      assert Granted(key, [], []) == 0;
    } else {
      assert (calls + [c])[1..] == calls[1..] + [c] && (answers + [a])[1..] == answers[1..] + [a];
      GrantedSnoc(key, calls[1..], answers[1..], c, a);
    }
  }

  lemma GrantedInStep(key: string, calls: seq<Call>, answers: seq<bool>, j: nat, i: nat)
    requires j <= i < |calls| == |answers|
    ensures GrantedIn(key, calls, answers, j, i + 1)
            == GrantedIn(key, calls, answers, j, i) + (if calls[i].key == key && answers[i] then 1 else 0)
  {
    assert calls[j..i + 1] == calls[j..i] + [calls[i]] && answers[j..i + 1] == answers[j..i] + [answers[i]];
    GrantedSnoc(key, calls[j..i], answers[j..i], calls[i], answers[i]);
  }

  /** The buckets after the first `i` calls, none forgotten. */
  function After(rate: nat, m: Buckets, calls: seq<Call>, i: nat): Buckets
    requires i <= |calls|
  {
    if i == 0 then m else Spend(rate, After(rate, m, calls, i - 1), calls[i - 1].key, calls[i - 1].now)
  }

  lemma {:induction false} AfterTail(rate: nat, m: Buckets, calls: seq<Call>, i: nat)
    requires 0 < i <= |calls|
    ensures After(rate, m, calls, i) == After(rate, Spend(rate, m, calls[0].key, calls[0].now), calls[1..], i - 1)
    decreases i
  {
    if i > 1 {
      AfterTail(rate, m, calls, i - 1);
    }
  }

  lemma {:induction false} AnswerAt(rate: nat, m: Buckets, calls: seq<Call>, i: nat)
    requires i < |calls|
    ensures Ideal(rate, m, calls)[i] == Grants(rate, After(rate, m, calls, i), calls[i].key, calls[i].now)
    decreases i
  {
    if i > 0 {
      AfterTail(rate, m, calls, i);
      AnswerAt(rate, Spend(rate, m, calls[0].key, calls[0].now), calls[1..], i - 1);
    }
  }

  /** Tokens are what a window's allowance, over `span`, leaves after the calls granted in it. */
  predicate Accounts(rate: nat, tokens: int, span: nat, granted: nat) {
    tokens == 2 * rate * SECOND + span * rate - granted * SECOND
  }

  lemma AccountsLater(rate: nat, tokens: int, span: nat, more: nat, granted: nat)
    requires Accounts(rate, tokens, span, granted)
    ensures Accounts(rate, tokens + more * rate, span + more, granted)
  {
    Distribute(span, more, rate);
  }

  /** A call that finds a token takes it, and is one more granted. */
  lemma SpentAccount(rate: nat, t: int, span: nat, granted: nat)
    requires Accounts(rate, t, span, granted)
    ensures if t >= SECOND then Accounts(rate, t - SECOND, span, granted + 1) else Accounts(rate, t, span, granted)
  {
  }

  /** The whole burst is what an empty window leaves. */
  lemma AccountsNone(rate: nat, tokens: int)
    requires tokens == Burst(rate)
    ensures Accounts(rate, tokens, 0, 0)
  {
  }

  lemma AfterFresh(rate: nat, calls: seq<Call>, born: nat, i: nat)
    requires InOrder(calls, born) && i <= |calls|
    ensures Fresh(After(rate, map[], calls, i), if i == 0 then born else calls[i - 1].now)
  {
    if i > 0 {
      AfterFresh(rate, calls, born, i - 1);
      SpendFresh(rate, After(rate, map[], calls, i - 1), calls[i - 1].key, calls[i - 1].now);
    }
  }

  /**
   * A key that has been used: its bucket holds what is left of the allowance of some window that
   * began with a call and ended at its last use.
   */
  lemma {:induction false} BucketAccount(rate: nat, born: nat, calls: seq<Call>, key: string, i: nat) returns (j: nat)
    requires InOrder(calls, born) && i <= |calls| && key in After(rate, map[], calls, i)
    ensures var b := After(rate, map[], calls, i)[key];
            && j < i && calls[j].now <= b.last <= calls[i - 1].now
            && Accounts(rate, b.tokens, b.last - calls[j].now, GrantedIn(key, calls, Ideal(rate, map[], calls), j, i))
    decreases i, 0
  {
    if calls[i - 1].key == key {
      j := Allowance(rate, born, calls, i - 1);
      UsedAccount(rate, calls, i - 1, j);
    } else {
      j := BucketAccount(rate, born, calls, key, i - 1);
      GrantedInStep(key, calls, Ideal(rate, map[], calls), j, i - 1);
    }
  }

  /** What is left after call `i`, when it found what a window left before it. */
  lemma UsedAccount(rate: nat, calls: seq<Call>, i: nat, j: nat)
    requires j <= i < |calls| && calls[j].now <= calls[i].now
    requires Accounts(rate, Available(rate, After(rate, map[], calls, i), calls[i].key, calls[i].now),
                      calls[i].now - calls[j].now, GrantedIn(calls[i].key, calls, Ideal(rate, map[], calls), j, i))
    ensures var c, m := calls[i], After(rate, map[], calls, i + 1);
            && c.key in m && m[c.key].last == c.now
            && Accounts(rate, m[c.key].tokens, c.now - calls[j].now,
                        GrantedIn(c.key, calls, Ideal(rate, map[], calls), j, i + 1))
  {
    var c := calls[i];
    AnswerAt(rate, map[], calls, i);
    GrantedInStep(c.key, calls, Ideal(rate, map[], calls), j, i);
    SpentAccount(rate, Available(rate, After(rate, map[], calls, i), c.key, c.now), c.now - calls[j].now,
                 GrantedIn(c.key, calls, Ideal(rate, map[], calls), j, i));
  }

  /** The tokens a call finds are what is left of the allowance of some window that ends with it. */
  lemma {:induction false} Allowance(rate: nat, born: nat, calls: seq<Call>, i: nat) returns (j: nat)
    requires InOrder(calls, born) && i < |calls|
    ensures j <= i && calls[j].now <= calls[i].now
    ensures Accounts(rate, Available(rate, After(rate, map[], calls, i), calls[i].key, calls[i].now),
                     calls[i].now - calls[j].now, GrantedIn(calls[i].key, calls, Ideal(rate, map[], calls), j, i))
    decreases i, 1
  {
    var m, c := After(rate, map[], calls, i), calls[i];
    if Available(rate, m, c.key, c.now) == Burst(rate) {
      j := i;
      AccountsNone(rate, Burst(rate));
    } else {
      j := BucketAccount(rate, born, calls, c.key, i);
      var b := m[c.key];
      AccountsLater(rate, b.tokens, b.last - calls[j].now, c.now - b.last,
                    GrantedIn(c.key, calls, Ideal(rate, map[], calls), j, i));
    }
  }

  /** One more call would fit into the allowance of every window that ends at call `i`. */
  ghost predicate RoomFor(rate: nat, calls: seq<Call>, answers: seq<bool>, i: nat)
    requires i < |calls| == |answers|
  {
    forall j :: 0 <= j <= i && calls[j].now <= calls[i].now ==>
      (GrantedIn(calls[i].key, calls, answers, j, i) + 1) * SECOND
      <= 2 * rate * SECOND + (calls[i].now - calls[j].now) * rate
  }

  /**
   * The limiter is exact: in every run from its creation, sweeps or not, a call is granted if and
   * only if it fits every window of `2 * rate` calls and `rate` more a second that ends with it.
   */
  lemma GrantedExactly(rate: nat, born: nat, calls: seq<Call>, i: nat)
    requires InOrder(calls, born) && i < |calls|
    ensures |Answers(rate, map[], born, calls)| == |calls|
    ensures Answers(rate, map[], born, calls)[i] <==> RoomFor(rate, calls, Answers(rate, map[], born, calls), i)
  {
    SweepUnobservable(rate, map[], born, map[], born, calls);
    var answers, key := Answers(rate, map[], born, calls), calls[i].key;
    AnswerAt(rate, map[], calls, i);
    if answers[i] {
      forall j | 0 <= j <= i && calls[j].now <= calls[i].now
        ensures (GrantedIn(key, calls, answers, j, i) + 1) * SECOND
                <= 2 * rate * SECOND + (calls[i].now - calls[j].now) * rate
      {
        LimitHolds(rate, born, calls, j, i + 1, calls[i].now - calls[j].now, key);
        GrantedInStep(key, calls, answers, j, i);
      }
    } else {
      var j := Allowance(rate, born, calls, i);
    }
  }

  lemma {:induction false} GrantedSplits(key: string, calls: seq<Call>, answers: seq<bool>, j: nat, k: nat, i: nat)
    requires j <= k <= i <= |calls| == |answers|
    ensures GrantedIn(key, calls, answers, j, i)
            == GrantedIn(key, calls, answers, j, k) + GrantedIn(key, calls, answers, k, i)
    decreases i
  {
    if i > k {
      GrantedSplits(key, calls, answers, j, k, i - 1);
      GrantedInStep(key, calls, answers, j, i - 1);
      GrantedInStep(key, calls, answers, k, i - 1);
    }
  }

  /** The key was not used before call `k`, or two seconds ago at the latest. */
  predicate Rested(calls: seq<Call>, key: string, k: nat)
    requires k < |calls|
  {
    forall q :: 0 <= q < k && calls[q].key == key ==> calls[q].now + 2 * SECOND <= calls[k].now
  }

  lemma {:induction false} NoneGranted(key: string, calls: seq<Call>, answers: seq<bool>, j: nat, i: nat)
    requires j <= i <= |calls| == |answers| && forall q :: j <= q < i ==> calls[q].key != key
    ensures GrantedIn(key, calls, answers, j, i) == 0
    decreases i
  {
    if j < i {
      NoneGranted(key, calls, answers, j, i - 1);
      GrantedInStep(key, calls, answers, j, i - 1);
    }
  }

  /** The last call of a key in a stretch, if there is one. */
  lemma {:induction false} LastCall(calls: seq<Call>, key: string, j: nat, i: nat) returns (last: Option<nat>)
    requires j <= i <= |calls|
    ensures last.None? ==> forall q :: j <= q < i ==> calls[q].key != key
    ensures last.Some? ==> j <= last.value < i && calls[last.value].key == key
    ensures last.Some? ==> forall q :: last.value < q < i ==> calls[q].key != key
    decreases i
  {
    if j == i {
      last := None;
    } else if calls[i - 1].key == key {
      last := Some(i - 1);
    } else {
      last := LastCall(calls, key, j, i - 1);
    }
  }

  lemma WindowBound(rate: nat, born: nat, calls: seq<Call>, key: string, j: nat, l: nat)
    requires InOrder(calls, born) && j <= l < |calls|
    ensures calls[j].now <= calls[l].now && |Answers(rate, map[], born, calls)| == |calls|
    ensures GrantedIn(key, calls, Answers(rate, map[], born, calls), j, l + 1) * SECOND
            <= 2 * rate * SECOND + (calls[l].now - calls[j].now) * rate
  {
    LimitHolds(rate, born, calls, j, l + 1, calls[l].now - calls[j].now, key);
  }

  lemma RestRefills(rate: nat, granted: nat, span: nat, rest: nat)
    requires granted * SECOND <= 2 * rate * SECOND + span * rate && rest >= 2 * SECOND
    ensures granted * SECOND <= (span + rest) * rate
  {
    Distribute(span, rest, rate);
    Distribute(2 * SECOND, rest - 2 * SECOND, rate);
    assert 2 * SECOND + (rest - 2 * SECOND) == rest;
    Inflow(rest - 2 * SECOND, rate);
  }

  /** Before a rested key's call, a window that began earlier has used up what flowed in, and no more. */
  lemma RestedWindow(rate: nat, born: nat, calls: seq<Call>, key: string, j: nat, k: nat)
    requires InOrder(calls, born) && j <= k < |calls| && Rested(calls, key, k)
    ensures |Answers(rate, map[], born, calls)| == |calls|
    ensures GrantedIn(key, calls, Answers(rate, map[], born, calls), j, k) * SECOND
            <= (calls[k].now - calls[j].now) * rate
  {
    SweepUnobservable(rate, map[], born, map[], born, calls);
    var answers := Answers(rate, map[], born, calls);
    var last := LastCall(calls, key, j, k);
    if last.None? {
      NoneGranted(key, calls, answers, j, k);
      Inflow(calls[k].now - calls[j].now, rate);
    } else {
      var l := last.value;
      NoneGranted(key, calls, answers, l + 1, k);
      GrantedSplits(key, calls, answers, j, l + 1, k);
      var span := calls[l].now - calls[j].now;
      WindowBound(rate, born, calls, key, j, l);
      RestRefills(rate, GrantedIn(key, calls, answers, j, l + 1), span, calls[k].now - calls[l].now);
    }
  }

  lemma OneMore(rate: nat, before: nat, span: nat, since: nat, more: nat)
    requires before * SECOND <= span * rate && since < 2 * rate
    ensures (before + since + 1) * SECOND <= 2 * rate * SECOND + (span + more) * rate
  {
    Distribute(span, more, rate);
    Inflow(more, rate);
  }

  /**
   * The burst: from a call on before which its key was new or idle for two seconds, the key's calls
   * are granted for as long as fewer than `2 * rate` of them have been.
   */
  lemma BurstGranted(rate: nat, born: nat, calls: seq<Call>, k: nat, i: nat)
    requires InOrder(calls, born) && k <= i < |calls| && calls[i].key == calls[k].key && Rested(calls, calls[k].key, k)
    ensures |Answers(rate, map[], born, calls)| == |calls|
    ensures GrantedIn(calls[k].key, calls, Answers(rate, map[], born, calls), k, i) < 2 * rate
            ==> Answers(rate, map[], born, calls)[i]
  {
    GrantedExactly(rate, born, calls, i);
    var answers, key := Answers(rate, map[], born, calls), calls[k].key;
    if GrantedIn(key, calls, answers, k, i) < 2 * rate {
      forall j | 0 <= j <= i && calls[j].now <= calls[i].now
        ensures (GrantedIn(key, calls, answers, j, i) + 1) * SECOND
                <= 2 * rate * SECOND + (calls[i].now - calls[j].now) * rate
      {
        if j >= k {
          GrantedSplits(key, calls, answers, k, j, i);
          OneMore(rate, 0, 0, GrantedIn(key, calls, answers, j, i), calls[i].now - calls[j].now);
        } else {
          RestedWindow(rate, born, calls, key, j, k);
          GrantedSplits(key, calls, answers, j, k, i);
          OneMore(rate, GrantedIn(key, calls, answers, j, k), calls[k].now - calls[j].now,
                  GrantedIn(key, calls, answers, k, i), calls[i].now - calls[k].now);
        }
      }
    }
  }

  /** A limiter of one call a second: two calls at once, then one more a whole second later. */
  lemma TwoAtOnce(born: nat)
    ensures Ideal(1, map[], [Call("k", born), Call("k", born), Call("k", born),
                             Call("k", born + 999_999_999), Call("k", born + 1_000_000_000)])
            == [true, true, false, false, true]
  {
    var m0: Buckets := map[];
    var m1 := Spend(1, m0, "k", born);
    var m2 := Spend(1, m1, "k", born);
    var m3 := Spend(1, m2, "k", born);
    var m4 := Spend(1, m3, "k", born + 999_999_999);
    var c0, c1, c2 := Call("k", born), Call("k", born + 999_999_999), Call("k", born + 1_000_000_000);
    assert Ideal(1, m4, [c2]) == [true];
    assert Ideal(1, m3, [c1, c2]) == [false] + Ideal(1, m4, [c2]);
    assert Ideal(1, m2, [c0, c1, c2]) == [false] + Ideal(1, m3, [c1, c2]);
    assert Ideal(1, m1, [c0, c0, c1, c2]) == [true] + Ideal(1, m2, [c0, c1, c2]);
    assert Ideal(1, m0, [c0, c0, c0, c1, c2]) == [true] + Ideal(1, m1, [c0, c0, c1, c2]);
  }

  // ----- Memory -----

  /** The table and sweep time after a run of the program. */
  function Tables(rate: nat, m: Buckets, sweep: nat, calls: seq<Call>): (Buckets, nat)
    decreases |calls|
  {
    if calls == [] then (m, sweep)
    else
      var after := AfterAllow(rate, m, sweep, calls[0].key, calls[0].now);
      Tables(rate, after.0, after.1, calls[1..])
  }

  /**
   * The last sweep was at most ten minutes ago, or one with more than 16384 buckets, and left none
   * that had not been used for ten minutes.
   */
  predicate Recent(m: Buckets, sweep: nat, now: nat) {
    && sweep <= now && now <= sweep + 600_000_000_000
    && (|m| > 16384 ==> now <= sweep + 60_000_000_000)
    && (forall k :: k in m ==> sweep <= m[k].last + 600_000_000_000)
  }

  lemma AllowRecent(rate: nat, m: Buckets, sweep: nat, key: string, now: nat)
    requires sweep <= now && forall k :: k in m ==> sweep <= m[k].last + 600_000_000_000
    ensures var after := AfterAllow(rate, m, sweep, key, now); Recent(after.0, after.1, now)
  {
  }

  lemma {:induction false} RunRecent(rate: nat, m: Buckets, sweep: nat, from: nat, calls: seq<Call>)
    requires InOrder(calls, from) && sweep <= from && calls != []
    requires forall k :: k in m ==> sweep <= m[k].last + 600_000_000_000
    ensures var t := Tables(rate, m, sweep, calls); Recent(t.0, t.1, calls[|calls| - 1].now)
    decreases |calls|
  {
    var c := calls[0];
    AllowRecent(rate, m, sweep, c.key, c.now);
    var after := AfterAllow(rate, m, sweep, c.key, c.now);
    if |calls| > 1 {
      RunRecent(rate, after.0, after.1, c.now, calls[1..]);
    }
  }

  /** With at most 16384 buckets a call forgets none that was used in the last ten minutes. */
  lemma KeepsRecent(rate: nat, m: Buckets, sweep: nat, key: string, now: nat, k: string)
    requires |Spend(rate, m, key, now)| <= 16384 && k in m && now <= m[k].last + 600_000_000_000
    ensures k in AfterAllow(rate, m, sweep, key, now).0
  {
  }

  /** In every run, after each call, no client that has been silent for twenty minutes has a bucket. */
  lemma MemoryBounded(rate: nat, born: nat, calls: seq<Call>, k: string)
    requires InOrder(calls, born) && calls != []
    ensures var t := Tables(rate, map[], born, calls);
            k in t.0 ==> calls[|calls| - 1].now <= t.0[k].last + 1_200_000_000_000
    ensures var t := Tables(rate, map[], born, calls); Recent(t.0, t.1, calls[|calls| - 1].now)
  {
    RunRecent(rate, map[], born, born, calls);
  }
}
