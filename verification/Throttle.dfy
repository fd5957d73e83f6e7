/** The login throttle of internal/admin/throttle.go, as the login handler of admin.go uses it. */
module Throttle {

  const MINUTE: nat := 60_000_000_000
  const WINDOW: nat := 15 * MINUTE
  const THRESHOLD: nat := 8
  const CROWD: nat := 4096
  const MAX_DURATION: nat := 0x7FFF_FFFF_FFFF_FFFF

  /** A key's failures; `until` is 0 while no lock was ever set. Times are in nanoseconds. */
  datatype FailRec = FailRec(n: nat, until: nat, seen: nat)

  type Fails = map<string, FailRec>

  function Pow2(k: nat): nat {
    if k == 0 then 1 else 2 * Pow2(k - 1)
  }

  /** The shift, clamped before the duration is computed. */
  function Shift(n: nat): nat
    requires n >= THRESHOLD
  {
    if n - THRESHOLD > 20 then 20 else n - THRESHOLD
  }

  /** The lock the `n`-th failure sets: 1m, 2m, 4m, ... capped at the window. */
  function Delay(n: nat): nat {
    if n < THRESHOLD then 0
    else
      var d := MINUTE * Pow2(Shift(n));
      if d > WINDOW then WINDOW else d
  }

  lemma {:induction false} Pow2Grows(a: nat, b: nat)
    requires a <= b
    ensures Pow2(a) <= Pow2(b)
  {
    if a < b {
      Pow2Grows(a, b - 1);
    }
  }

  /** The shifted duration fits a signed 64-bit integer for every count of failures. */
  lemma ShiftFits(n: nat)
    requires n >= THRESHOLD
    ensures MINUTE * Pow2(Shift(n)) <= MAX_DURATION
  {
    Pow2Grows(Shift(n), 20);
    assert Pow2(5) == 32;
    assert Pow2(10) == 32 * 32;
    assert Pow2(15) == 32 * 1024;
    assert Pow2(20) == 32 * 32768;
  }

  lemma DelayGrows(a: nat, b: nat)
    requires a <= b
    ensures Delay(a) <= Delay(b) <= WINDOW
  {
    if a >= THRESHOLD {
      Pow2Grows(Shift(a), Shift(b));
    }
  }

  // ----- The operations -----

  predicate Stale(r: FailRec, now: nat) {
    r.seen + WINDOW < now
  }

  function LockOf(m: Fails, key: string, now: nat): nat {
    if key in m && now < m[key].until then m[key].until else 0
  }

  function Bumped(r: FailRec, now: nat): FailRec {
    FailRec(r.n + 1, if r.n + 1 >= THRESHOLD then now + Delay(r.n + 1) else r.until, now)
  }

  /** One key of `fail`: a missing or stale record starts over. */
  function FailOne(m: Fails, key: string, now: nat): Fails {
    var r := if key in m && !Stale(m[key], now) then m[key] else FailRec(0, 0, 0);
    m[key := Bumped(r, now)]
  }

  function Swept(m: Fails, now: nat): Fails {
    if |m| > CROWD then map k | k in m && !Stale(m[k], now) :: m[k] else m
  }

  function FailAll(m: Fails, keys: seq<string>, now: nat): Fails {
    if keys == [] then m else FailOne(FailAll(m, keys[..|keys| - 1], now), keys[|keys| - 1], now)
  }

  class LoginThrottle {
    var fails: Fails

    constructor ()
      ensures fails == map[]
    {
      fails := map[];
    }

    /** `blockedUntil`: the latest lock expiry across keys, 0 if open. */
    method Blocked(keys: seq<string>, now: nat) returns (until: nat)
      ensures forall i :: 0 <= i < |keys| ==> LockOf(fails, keys[i], now) <= until
      ensures until == 0 || exists i :: 0 <= i < |keys| && until == LockOf(fails, keys[i], now)
    {
      until := 0;
      for i := 0 to |keys|
        invariant forall j :: 0 <= j < i ==> LockOf(fails, keys[j], now) <= until
        invariant until == 0 || exists j :: 0 <= j < i && until == LockOf(fails, keys[j], now)
      {
        if keys[i] in fails && now < fails[keys[i]].until && fails[keys[i]].until > until {
          until := fails[keys[i]].until;
          assert until == LockOf(fails, keys[i], now);
        }
      }
    }

    /** `fail`: sweep if the map has grown, then count one failure for each key. */
    method Fail(keys: seq<string>, now: nat)
      modifies this
      ensures fails == FailAll(Swept(old(fails), now), keys, now)
    {
      if |fails| > CROWD {
        fails := DropStale(fails, now);
      }
      ghost var start := fails;
      for i := 0 to |keys|
        invariant fails == FailAll(start, keys[..i], now)
      {
        assert keys[..i + 1][..i] == keys[..i];
        var k := keys[i];
        var r := FailRec(0, 0, 0);
        if k in fails && !Stale(fails[k], now) {
          r := fails[k];
        }
        var n := r.n + 1;
        var until := r.until;
        if n >= THRESHOLD {
          var d := MINUTE * Pow2(Shift(n));
          if d > WINDOW {
            d := WINDOW;
          }
          until := now + d;
        }
        fails := fails[k := FailRec(n, until, now)];
      }
      assert keys[..|keys|] == keys;
    }

    /** `ok`: forget the keys. */
    method Ok(keys: seq<string>)
      modifies this
      ensures fails == old(fails) - (set k | k in keys)
    {
      for i := 0 to |keys|
        invariant fails == old(fails) - (set k | k in keys[..i])
      {
        assert keys[..i + 1] == keys[..i] + [keys[i]];
        fails := fails - {keys[i]};
      }
      assert keys[..|keys|] == keys;
    }
  }

  method DropStale(m: Fails, now: nat) returns (left: Fails)
    ensures left == map k | k in m && !Stale(m[k], now) :: m[k]
  {
    left := m;
    var todo := m.Keys;
    while todo != {}
      invariant todo <= m.Keys
      invariant left == map k | k in m && (k in todo || !Stale(m[k], now)) :: m[k]
      decreases |todo|
    {
      var k :| k in todo;
      if Stale(left[k], now) {
        left := left - {k};
      }
      todo := todo - {k};
    }
  }

  // ----- Locks -----

  /** A lock never outlasts the window after the last failure. */
  ghost predicate Bounded(m: Fails) {
    forall k :: k in m ==> m[k].until <= m[k].seen + WINDOW
  }

  lemma FailKeepsBounded(m: Fails, key: string, now: nat)
    requires Bounded(m) && (forall k :: k in m ==> m[k].seen <= now)
    ensures Bounded(FailOne(m, key, now))
    ensures forall k :: k in FailOne(m, key, now) ==> FailOne(m, key, now)[k].seen <= now
  {
    DelayGrows(0, if key in m then m[key].n + 1 else 1);
    DelayGrows(0, 1);
  }

  /** Each lock was set by the failure that was last seen, and none was seen after `now`. */
  ghost predicate LocksBy(m: Fails, now: nat) {
    forall k :: k in m ==> m[k].until <= m[k].seen + Delay(m[k].n) && m[k].seen <= now
  }

  lemma FailKeepsLocksBy(m: Fails, key: string, now: nat)
    requires LocksBy(m, now)
    ensures LocksBy(FailOne(m, key, now), now)
  {
    if key in m {
      DelayGrows(m[key].n, m[key].n + 1);
    }
  }

  lemma OneNeverShortens(m: Fails, failed: string, now: nat, key: string, t: nat)
    requires LocksBy(m, now) && now <= t
    ensures LockOf(FailOne(m, failed, now), key, t) >= LockOf(m, key, t)
  {
    if failed in m {
      DelayGrows(m[failed].n, m[failed].n + 1);
    }
  }

  lemma {:induction false} AllNeverShorten(m: Fails, keys: seq<string>, now: nat, key: string, t: nat)
    requires LocksBy(m, now) && now <= t
    ensures LocksBy(FailAll(m, keys, now), now)
    ensures LockOf(FailAll(m, keys, now), key, t) >= LockOf(m, key, t)
  {
    if keys != [] {
      var front, last := keys[..|keys| - 1], keys[|keys| - 1];
      AllNeverShorten(m, front, now, key, t);
      FailKeepsLocksBy(FailAll(m, front, now), last, now);
      OneNeverShortens(FailAll(m, front, now), last, now, key, t);
    }
  }

  /** A sweep forgets no running lock. */
  lemma SweepKeepsLocks(m: Fails, now: nat, key: string, t: nat)
    requires LocksBy(m, now) && now <= t
    ensures LocksBy(Swept(m, now), now) && LockOf(Swept(m, now), key, t) == LockOf(m, key, t)
  {
  }

  /** A call of `fail`, locked or not, or of `ok`. */
  datatype Act = Failed(keys: seq<string>, now: nat) | Succeeded(keys: seq<string>)

  function Perform(m: Fails, a: Act): Fails {
    match a
    case Failed(keys, now) => FailAll(Swept(m, now), keys, now)
    case Succeeded(keys) => m - (set k | k in keys)
  }

  function Performed(m: Fails, acts: seq<Act>): Fails
    decreases |acts|
  {
    if acts == [] then m else Performed(Perform(m, acts[0]), acts[1..])
  }

  /** Failures come in order of time, from `from` to `until`. */
  predicate ActsInOrder(acts: seq<Act>, from: nat, until: nat)
    decreases |acts|
  {
    if acts == [] then from <= until
    else if acts[0].Failed? then from <= acts[0].now && ActsInOrder(acts[1..], acts[0].now, until)
    else ActsInOrder(acts[1..], from, until)
  }

  lemma {:induction false} PerformedLocksBy(m: Fails, acts: seq<Act>, from: nat, until: nat)
    requires LocksBy(m, from) && ActsInOrder(acts, from, until)
    ensures from <= until && LocksBy(Performed(m, acts), until)
    decreases |acts|
  {
    if acts != [] {
      var a := acts[0];
      if a.Failed? {
        SweepKeepsLocks(m, a.now, "", a.now);
        AllNeverShorten(Swept(m, a.now), a.keys, a.now, "", a.now);
        PerformedLocksBy(Perform(m, a), acts[1..], a.now, until);
      } else {
        PerformedLocksBy(Perform(m, a), acts[1..], from, until);
      }
    }
  }

  /**
   * In every run of failures (of any keys, locked or not, each sweeping when due) and successes,
   * in order of time, a further failure of any keys shortens no lock: each key is locked at
   * every later moment at least as long as it would have been.
   */
  lemma FailNeverShortens(acts: seq<Act>, keys: seq<string>, now: nat, key: string, t: nat)
    requires ActsInOrder(acts, 0, now) && now <= t
    ensures var m := Performed(map[], acts);
            LockOf(Perform(m, Failed(keys, now)), key, t) >= LockOf(m, key, t)
  {
    var m := Performed(map[], acts);
    PerformedLocksBy(map[], acts, 0, now);
    SweepKeepsLocks(m, now, key, t);
    AllNeverShorten(Swept(m, now), keys, now, key, t);
  }

  // ----- The sweep is unobservable -----

  datatype Event = Attempt(key: string, now: nat, good: bool)

  /** The login handler: throttled, failed, or let in. */
  function Handle(m: Fails, e: Event): Fails {
    if LockOf(m, e.key, e.now) != 0 then m
    else if e.good then m - {e.key}
    else FailAll(Swept(m, e.now), [e.key], e.now)
  }

  /** The same without the sweep. */
  function HandleIdeal(m: Fails, e: Event): Fails {
    if LockOf(m, e.key, e.now) != 0 then m
    else if e.good then m - {e.key}
    else FailOne(m, e.key, e.now)
  }

  predicate InOrder(events: seq<Event>, from: nat) {
    && (forall i :: 0 <= i < |events| ==> from <= events[i].now)
    && (forall i, j :: 0 <= i < j < |events| ==> events[i].now <= events[j].now)
  }

  function Answers(m: Fails, events: seq<Event>): seq<nat>
    decreases |events|
  {
    if events == [] then []
    else [LockOf(m, events[0].key, events[0].now)] + Answers(Handle(m, events[0]), events[1..])
  }

  function IdealAnswers(m: Fails, events: seq<Event>): seq<nat>
    decreases |events|
  {
    if events == [] then []
    else [LockOf(m, events[0].key, events[0].now)] + IdealAnswers(HandleIdeal(m, events[0]), events[1..])
  }

  /** The program's records are the full ones, minus some that are stale by now. */
  ghost predicate Agrees(m: Fails, full: Fails, now: nat) {
    && (forall k :: k in m ==> k in full && full[k] == m[k])
    && (forall k :: k in full && k !in m ==> Stale(full[k], now))
    && Bounded(full) && (forall k :: k in full ==> full[k].seen <= now)
  }

  lemma AgreeBlocked(m: Fails, full: Fails, now: nat, key: string)
    requires Agrees(m, full, now)
    ensures LockOf(m, key, now) == LockOf(full, key, now)
  {
  }

  lemma FailOnly(m: Fails, key: string, now: nat)
    ensures FailAll(m, [key], now) == FailOne(m, key, now)
  {
    assert [key][..0] == [];
    assert FailAll(m, [], now) == m;
  }

  lemma HandleAgrees(m: Fails, full: Fails, from: nat, e: Event)
    requires Agrees(m, full, from) && from <= e.now
    ensures Agrees(m, full, e.now) && Agrees(Handle(m, e), HandleIdeal(full, e), e.now)
  {
    assert Agrees(m, full, e.now);
    AgreeBlocked(m, full, e.now, e.key);
    if LockOf(m, e.key, e.now) == 0 && !e.good {
      FailOnly(Swept(m, e.now), e.key, e.now);
      FailKeepsBounded(full, e.key, e.now);
    }
  }

  /** For every sequence of attempts in order of time, sweeping memory changes no answer. */
  lemma {:induction false} SweepUnobservable(m: Fails, full: Fails, from: nat, events: seq<Event>)
    requires Agrees(m, full, from) && InOrder(events, from)
    ensures Answers(m, events) == IdealAnswers(full, events)
    decreases |events|
  {
    if events != [] {
      HandleAgrees(m, full, from, events[0]);
      AgreeBlocked(m, full, events[0].now, events[0].key);
      SweepUnobservable(Handle(m, events[0]), HandleIdeal(full, events[0]), events[0].now, events[1..]);
    }
  }

  // ----- How many failures fit in a window -----

  /** A recorded failure: when, and the count it reached. */
  datatype Entry = Entry(at: nat, n: nat)

  /** The failures recorded for a key in a run with no success for it. */
  function Recorded(m: Fails, events: seq<Event>, key: string): seq<Entry>
    decreases |events|
  {
    if events == [] then []
    else
      var e := events[0];
      var rest := Recorded(Handle(m, e), events[1..], key);
      if e.key == key && !e.good && LockOf(m, key, e.now) == 0 && key in Handle(m, e)
      then [Entry(e.now, Handle(m, e)[key].n)] + rest
      else rest
  }

  /** `b` may follow `a`: the next count after the lock, or a fresh start after an idle window. */
  predicate Follows(a: Entry, b: Entry) {
    (b.n == a.n + 1 && b.at >= a.at + Delay(a.n)) || b.at > a.at + WINDOW
  }

  ghost predicate Chain(log: seq<Entry>) {
    && (forall i :: 0 <= i < |log| ==> log[i].n >= 1)
    && (forall i :: 0 <= i < |log| - 1 ==> Follows(log[i], log[i + 1]))
  }

  /** The map's record of the key is the last entry, or that entry is stale and swept. */
  ghost predicate Remembers(m: Fails, key: string, last: Entry, now: nat) {
    if key in m then
      m[key].n == last.n && m[key].seen == last.at && (last.n >= THRESHOLD ==> m[key].until == last.at + Delay(last.n))
    else last.at + WINDOW < now
  }

  lemma HandleOther(m: Fails, e: Event, key: string)
    requires e.key != key
    ensures key in Handle(m, e) ==> key in m && Handle(m, e)[key] == m[key]
    ensures key in m && key !in Handle(m, e) ==> Stale(m[key], e.now)
  {
    FailOnly(Swept(m, e.now), e.key, e.now);
  }

  lemma HandleFail(m: Fails, e: Event)
    requires !e.good && LockOf(m, e.key, e.now) == 0
    ensures e.key in Handle(m, e)
    ensures var r := Handle(m, e)[e.key];
            && r.seen == e.now && r.n >= 1 && (r.n >= THRESHOLD ==> r.until == e.now + Delay(r.n))
            && (if e.key in m && !Stale(m[e.key], e.now) then r.n == m[e.key].n + 1 else r.n == 1)
  {
    FailOnly(Swept(m, e.now), e.key, e.now);
  }

  lemma {:induction false} RecordedChains(m: Fails, events: seq<Event>, key: string, from: nat, last: Entry)
    requires InOrder(events, from) && Remembers(m, key, last, from) && last.n >= 1 && last.at <= from
    requires forall i :: 0 <= i < |events| && events[i].key == key ==> !events[i].good
    ensures Chain([last] + Recorded(m, events, key))
    decreases |events|
  {
    if events != [] {
      var e := events[0];
      var m' := Handle(m, e);
      if e.key == key && LockOf(m, key, e.now) == 0 {
        HandleFail(m, e);
        var entry := Entry(e.now, m'[key].n);
        assert Follows(last, entry);
        RecordedChains(m', events[1..], key, e.now, entry);
        var log := [entry] + Recorded(m', events[1..], key);
        assert Recorded(m, events, key) == log;
        forall i | 0 <= i < |log| ensures Follows(([last] + log)[i], log[i]) {
          if i > 0 {
            assert Follows(log[i - 1], log[i]);
          }
        }
      } else {
        if e.key != key {
          HandleOther(m, e, key);
        }
        RecordedChains(m', events[1..], key, e.now, last);
      }
    } else {
      assert [last] + Recorded(m, events, key) == [last];
    }
  }

  /** The delays of `k` consecutive counts from `n`. */
  function Delays(n: nat, k: nat): nat {
    if k == 0 then 0 else Delays(n, k - 1) + Delay(n + k - 1)
  }

  lemma {:induction false} DelaysGrow(n: nat, k: nat)
    requires n >= 1
    ensures Delays(1, k) <= Delays(n, k)
  {
    if k > 0 {
      DelaysGrow(n, k - 1);
      DelayGrows(k, n + k - 1);
    }
  }

  /** Eleven delays in a row make up at least the window: 1 + 2 + 4 + 8 = 15 minutes. */
  lemma ElevenDelays(n: nat)
    requires n >= 1
    ensures Delays(n, 11) >= WINDOW
  {
    DelaysGrow(n, 11);
    assert Pow2(0) == 1 && Pow2(1) == 2 && Pow2(2) == 4 && Pow2(3) == 8;
    assert Delay(8) == MINUTE && Delay(9) == 2 * MINUTE && Delay(10) == 4 * MINUTE && Delay(11) == 8 * MINUTE;
    assert Delays(1, 8) >= Delay(8);
    assert Delays(1, 9) == Delays(1, 8) + Delay(9);
    assert Delays(1, 10) == Delays(1, 9) + Delay(10);
    assert Delays(1, 11) == Delays(1, 10) + Delay(11);
  }

  lemma {:induction false} ChainSpan(log: seq<Entry>, i: nat, k: nat)
    requires Chain(log) && i + k < |log|
    ensures log[i + k].at > log[i].at + WINDOW
            || (log[i + k].n == log[i].n + k && log[i + k].at >= log[i].at + Delays(log[i].n, k))
    ensures log[i + k].at >= log[i].at
  {
    if k > 0 {
      ChainSpan(log, i, k - 1);
      assert Follows(log[i + k - 1], log[i + k - 1 + 1]);
    }
  }

  /**
   * The throttle's bound: for attempts from one key with no success, in order of time, any twelve
   * consecutive recorded failures span at least 15 minutes; so no half-open window of 15 minutes
   * holds more than eleven.
   */
  lemma ElevenFailuresAWindow(events: seq<Event>, key: string, from: nat, i: nat, j: nat)
    requires InOrder(events, from)
    requires forall k :: 0 <= k < |events| && events[k].key == key ==> !events[k].good
    requires i <= j < |Recorded(map[], events, key)|
    requires var log := Recorded(map[], events, key); log[j].at < log[i].at + WINDOW
    ensures j - i < 11
  {
    var log := Recorded(map[], events, key);
    RecordedFromNothing(map[], events, key, from);
    if j - i >= 11 {
      ChainSpan(log, i, 11);
      ElevenDelays(log[i].n);
      ChainSpan(log, i + 11, j - i - 11);
    }
  }

  lemma {:induction false} RecordedFromNothing(m: Fails, events: seq<Event>, key: string, from: nat)
    requires InOrder(events, from) && key !in m
    requires forall i :: 0 <= i < |events| && events[i].key == key ==> !events[i].good
    ensures Chain(Recorded(m, events, key))
    decreases |events|
  {
    if events != [] {
      var e := events[0];
      if e.key == key {
        HandleFail(m, e);
        RecordedChains(Handle(m, e), events[1..], key, e.now, Entry(e.now, Handle(m, e)[key].n));
      } else {
        HandleOther(m, e, key);
        RecordedFromNothing(Handle(m, e), events[1..], key, e.now);
      }
    }
  }

  // ----- The locks in minutes -----

  /** How long the `n`-th failure in a row locks, in minutes. */
  function Minutes(n: nat): nat {
    if n < 8 then 0 else if n == 8 then 1 else if n == 9 then 2 else if n == 10 then 4 else if n == 11 then 8 else 15
  }

  lemma DelayMinutes(n: nat)
    ensures Delay(n) == Minutes(n) * 60_000_000_000
  {
    assert Pow2(0) == 1 && Pow2(1) == 2 && Pow2(2) == 4 && Pow2(3) == 8 && Pow2(4) == 16;
    if n >= 12 {
      Pow2Grows(4, Shift(n));
    }
  }

  /** Failures of one key, each at most 15 minutes after the one before. */
  predicate InARow(times: seq<nat>) {
    forall i :: 0 <= i < |times| - 1 ==> times[i] <= times[i + 1] <= times[i] + 900_000_000_000
  }

  function FailTimes(m: Fails, key: string, times: seq<nat>): Fails {
    if times == [] then m else FailOne(FailTimes(m, key, times[..|times| - 1]), key, times[|times| - 1])
  }

  lemma {:induction false} RowCounts(m: Fails, key: string, times: seq<nat>)
    requires key !in m && InARow(times) && times != []
    ensures var r, last := FailTimes(m, key, times), times[|times| - 1];
            && key in r && r[key].n == |times| && r[key].seen == last
            && r[key].until == if |times| < 8 then 0 else last + Minutes(|times|) * 60_000_000_000
  {
    var n := |times| - 1;
    DelayMinutes(n + 1);
    if n > 0 {
      RowCounts(m, key, times[..n]);
      assert times[n - 1] <= times[n] <= times[n - 1] + 900_000_000_000;
    }
  }

  /**
   * The lock of a key that has no record, after failures in a row, each at most 15 minutes after the
   * one before: seven are free, the 8th locks for 1 minute, then 2, 4 and 8, and from the 12th on
   * 15 minutes, counted from the last failure.
   */
  lemma RowLocks(m: Fails, key: string, times: seq<nat>, now: nat)
    requires key !in m && InARow(times) && times != [] && times[|times| - 1] <= now
    ensures var until := times[|times| - 1] + Minutes(|times|) * 60_000_000_000;
            LockOf(FailTimes(m, key, times), key, now) == if now < until then until else 0
  {
    RowCounts(m, key, times);
  }

  /** A failure more than 15 minutes after the last one, or after a success, starts over. */
  lemma StartsOver(m: Fails, key: string, now: nat)
    requires key in m ==> m[key].seen + 900_000_000_000 < now
    ensures FailOne(m, key, now) == m[key := FailRec(1, 0, now)]
    ensures FailOne(m - {key}, key, now) == (m - {key})[key := FailRec(1, 0, now)]
  {
  }

  /** Memory: with more than 4096 records, a failure leaves only those of the last 15 minutes and its own keys. */
  lemma MemoryBounded(m: Fails, keys: seq<string>, now: nat, k: string)
    requires |m| > 4096 && k in Perform(m, Failed(keys, now)) && k !in keys
    ensures k in m && now <= m[k].seen + 900_000_000_000
  {
    FailAllKeys(Swept(m, now), keys, now, k);
  }

  lemma {:induction false} FailAllKeys(m: Fails, keys: seq<string>, now: nat, k: string)
    requires k in FailAll(m, keys, now) && k !in keys
    ensures k in m
  {
    if keys != [] {
      var n := |keys| - 1;
      assert keys[n] in keys;
      FailAllKeys(m, keys[..n], now, k);
    }
  }
}
