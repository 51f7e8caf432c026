/** The restart limiter of the watchdog, on values: a ring of five times against the full log of attempts
    (gateway_watchdog/main.cpp:33-40, 53-90). Module Watchdog runs it in place. */
module RestartLimit {

  const MAX_RESTARTS: nat := 5
  const WINDOW: nat := 30
  const COOLDOWN: nat := 60

  /** Whether time t counts at now; now - t may be negative in the source only if the clock steps back. */
  predicate Recent(t: nat, now: nat) {
    now - t <= WINDOW
  }

  /** The number of recent times. */
  function Count(times: seq<nat>, now: nat): (n: nat)
    ensures n <= |times|
  {
    if times == [] then 0
    else Count(times[..|times| - 1], now) + if Recent(times[|times| - 1], now) then 1 else 0
  }

  /** The number of recent times, not counting slots that hold 0. */
  function CountWritten(times: seq<nat>, now: nat): (n: nat)
    ensures n <= |times|
  {
    if times == [] then 0
    else
      var last := times[|times| - 1];
      CountWritten(times[..|times| - 1], now) + if last > 0 && Recent(last, now) then 1 else 0
  }

  /** Once the clock has passed 30, 0 is not recent anyway. */
  lemma {:induction false} WrittenOrRecent(times: seq<nat>, now: nat)
    ensures CountWritten(times, now) <= Count(times, now)
    ensures now > WINDOW ==> CountWritten(times, now) == Count(times, now)
    decreases |times|
  {
    if times != [] {
      WrittenOrRecent(times[..|times| - 1], now);
    }
  }

  predicate Monotone(log: seq<nat>) {
    forall i, j | 0 <= i < j < |log| :: log[i] <= log[j]
  }

  /** What the five slots hold after these attempts; a slot never written holds 0. */
  function Ring(log: seq<nat>): (slots: seq<nat>)
    ensures |slots| == MAX_RESTARTS
  {
    if log == [] then [0, 0, 0, 0, 0]
    else var n := |log| - 1; Ring(log[..n])[n % MAX_RESTARTS := log[n]]
  }

  // ---------------------------------------------------------------- the ring decides like the log

  /** The last index below n that is s modulo 5, or -1. */
  function LastAt(n: nat, s: nat): (k: int)
    requires s < MAX_RESTARTS
    ensures s >= n ==> k == -1
    ensures s < n ==> 0 <= k < n && n - k <= MAX_RESTARTS && k % MAX_RESTARTS == s
    ensures n >= MAX_RESTARTS && s == n % MAX_RESTARTS ==> k == n - MAX_RESTARTS
  {
    if s >= n then -1 else n - 1 - (n - 1 - s) % MAX_RESTARTS
  }

  lemma LastAtNext(n: nat, s: nat)
    requires s < MAX_RESTARTS
    ensures LastAt(n + 1, s) == if n % MAX_RESTARTS == s then n else LastAt(n, s)
  {
    if s < n {
      Behind(n, s);
    }
  }

  lemma Behind(n: nat, s: nat)
    requires s < MAX_RESTARTS && s < n
    ensures (n - s) % MAX_RESTARTS == if n % MAX_RESTARTS == s then 0 else (n - 1 - s) % MAX_RESTARTS + 1
  {
  }

  lemma {:induction false} RingSlot(log: seq<nat>, s: nat, k: int)
    requires s < MAX_RESTARTS && k == LastAt(|log|, s)
    ensures Ring(log)[s] == if k < 0 then 0 else log[k]
    decreases |log|
  {
    if log != [] {
      var n := |log| - 1;
      LastAtNext(n, s);
      if n % MAX_RESTARTS != s {
        RingSlot(log[..n], s, LastAt(n, s));
      }
    }
  }

  function One(t: nat, now: nat): nat {
    if Recent(t, now) then 1 else 0
  }

  function Five(slots: seq<nat>, now: nat): nat
    requires |slots| == MAX_RESTARTS
  {
    One(slots[0], now) + One(slots[1], now) + One(slots[2], now) + One(slots[3], now) + One(slots[4], now)
  }

  /** The last m times, one by one. */
  function Last(log: seq<nat>, now: nat, m: nat): nat
    requires m <= |log|
  {
    if m == 0 then 0 else One(log[|log| - m], now) + Last(log, now, m - 1)
  }

  lemma LastUnfolds(log: seq<nat>, now: nat)
    ensures Last(log, now, 0) == 0
    ensures |log| >= 1 ==> Last(log, now, 1) == One(log[|log| - 1], now)
    ensures |log| >= 2 ==> Last(log, now, 2) == One(log[|log| - 2], now) + Last(log, now, 1)
    ensures |log| >= 3 ==> Last(log, now, 3) == One(log[|log| - 3], now) + Last(log, now, 2)
    ensures |log| >= 4 ==> Last(log, now, 4) == One(log[|log| - 4], now) + Last(log, now, 3)
    ensures |log| >= 5 ==> Last(log, now, 5) == One(log[|log| - 5], now) + Last(log, now, 4)
  {
  }

  lemma {:induction false} CountSplits(log: seq<nat>, now: nat, m: nat)
    requires m <= |log|
    ensures Count(log, now) == Count(log[..|log| - m], now) + Last(log, now, m)
    decreases m
  {
    if m == 0 {
      assert log[..|log|] == log;
    } else {
      CountSplits(log, now, m - 1);
      assert log[..|log| - m + 1][..|log| - m] == log[..|log| - m];
    }
  }

  lemma CountFive(slots: seq<nat>, now: nat)
    requires |slots| == MAX_RESTARTS
    ensures Count(slots, now) == Five(slots, now)
  {
    CountSplits(slots, now, 5);
    LastUnfolds(slots, now);
    assert slots[..0] == [];
  }

  lemma LastAtSelf(n: nat, k: nat)
    requires k < n <= k + MAX_RESTARTS
    ensures LastAt(n, k % MAX_RESTARTS) == k
  {
    var s, d := k % MAX_RESTARTS, n - 1 - k;
    assert n - 1 - s == MAX_RESTARTS * (k / MAX_RESTARTS) + d;
    Remainder(k / MAX_RESTARTS, d);
  }

  lemma Remainder(q: nat, d: nat)
    requires d < MAX_RESTARTS
    ensures (MAX_RESTARTS * q + d) % MAX_RESTARTS == d
  {
  }

  /** Attempt k is in slot k modulo 5 until five more are made. */
  lemma InItsSlot(log: seq<nat>, k: nat)
    requires k < |log| <= k + MAX_RESTARTS
    ensures Ring(log)[k % MAX_RESTARTS] == log[k]
  {
    LastAtSelf(|log|, k);
    RingSlot(log, k % MAX_RESTARTS, k);
  }

  /** Five slots in any rotation. */
  lemma Rotated(slots: seq<nat>, r: nat, v: seq<nat>, now: nat)
    requires |slots| == |v| == MAX_RESTARTS && r < MAX_RESTARTS
    requires slots[r] == v[0] && slots[if r < 4 then r + 1 else 0] == v[1] && slots[if r < 3 then r + 2 else r - 3] == v[2]
    requires slots[if r < 2 then r + 3 else r - 2] == v[3] && slots[if r < 1 then r + 4 else r - 1] == v[4]
    ensures Five(slots, now) == Five(v, now)
  {
  }

  /** The slots are the last five attempts, turned around. */
  lemma RingIsLastFive(log: seq<nat>, now: nat)
    requires |log| >= MAX_RESTARTS
    ensures Five(Ring(log), now) == Last(log, now, 5)
  {
    var n := |log|;
    InItsSlot(log, n - 5);
    InItsSlot(log, n - 4);
    InItsSlot(log, n - 3);
    InItsSlot(log, n - 2);
    InItsSlot(log, n - 1);
    Turned(n);
    Rotated(Ring(log), n % MAX_RESTARTS, log[n - 5..], now);
    LastUnfolds(log, now);
  }

  lemma Turned(n: nat)
    requires n >= MAX_RESTARTS
    ensures var r := n % MAX_RESTARTS;
            && (n - 5) % MAX_RESTARTS == r
            && (n - 4) % MAX_RESTARTS == (if r < 4 then r + 1 else r - 4)
            && (n - 3) % MAX_RESTARTS == (if r < 3 then r + 2 else r - 3)
            && (n - 2) % MAX_RESTARTS == (if r < 2 then r + 3 else r - 2)
            && (n - 1) % MAX_RESTARTS == (if r < 1 then r + 4 else r - 1)
  {
  }

  /** Fewer attempts than slots: the rest of the slots still hold 0. */
  lemma RingIsShort(log: seq<nat>, now: nat)
    requires |log| < MAX_RESTARTS && now > WINDOW
    ensures Five(Ring(log), now) == Last(log, now, |log|)
  {
    var n := |log|;
    forall s | 0 <= s < MAX_RESTARTS ensures Ring(log)[s] == if s < n then log[s] else 0 {
      RingSlot(log, s, if s < n then s else -1);
    }
    LastUnfolds(log, now);
  }

  /** In a monotone log the recent attempts are the last ones. */
  lemma {:induction false} CountIsSuffix(log: seq<nat>, now: nat, m: nat)
    requires Monotone(log) && m <= |log|
    ensures 0 < m && Recent(log[|log| - m], now) ==> Count(log, now) >= m
    ensures m < |log| && !Recent(log[|log| - m - 1], now) ==> Count(log, now) <= m
    decreases |log|
  {
    if log != [] {
      var n := |log| - 1;
      if m > 0 {
        CountIsSuffix(log[..n], now, m - 1);
      } else {
        NoneRecent(log, now);
      }
    }
  }

  lemma {:induction false} NoneRecent(log: seq<nat>, now: nat)
    requires Monotone(log)
    ensures log != [] && !Recent(log[|log| - 1], now) ==> Count(log, now) == 0
    decreases |log|
  {
    if |log| > 1 {
      NoneRecent(log[..|log| - 1], now);
    }
  }

  /** Once the clock has passed 30, the ring counts the log's recent attempts, up to five. */
  lemma RingCountsLog(log: seq<nat>, now: nat)
    requires Monotone(log) && now > WINDOW
    ensures Count(Ring(log), now) == if Count(log, now) < MAX_RESTARTS then Count(log, now) else MAX_RESTARTS
  {
    CountFive(Ring(log), now);
    if |log| < MAX_RESTARTS {
      RingIsShort(log, now);
      CountSplits(log, now, |log|);
      assert log[..0] == [];
    } else {
      RingIsLastFive(log, now);
      CountSplits(log, now, MAX_RESTARTS);
      CountIsSuffix(log, now, MAX_RESTARTS);
      CountFive(Ring(log), now);
      var before := log[..|log| - MAX_RESTARTS];
      if Last(log, now, 5) < 5 {
        OldestNotRecent(log, now);
        NoneRecent(before, now);
      }
    }
  }

  lemma OldestNotRecent(log: seq<nat>, now: nat)
    requires Monotone(log) && |log| >= MAX_RESTARTS && Last(log, now, 5) < 5
    ensures !Recent(log[|log| - MAX_RESTARTS], now)
  {
    var n := |log|;
    LastUnfolds(log, now);
  }

  /** Five recent slots mean five recent attempts, or a clock that has not passed 30: then every slot counts,
      written or not. */
  lemma RingDecides(log: seq<nat>, now: nat)
    requires Monotone(log)
    ensures Count(Ring(log), now) >= MAX_RESTARTS <==> now <= WINDOW || Count(log, now) >= MAX_RESTARTS
  {
    if now <= WINDOW {
      CountFive(Ring(log), now);
    } else {
      RingCountsLog(log, now);
    }
  }

  lemma {:induction false} CountFalls(log: seq<nat>, now: nat, after: nat)
    requires now <= after
    ensures Count(log, after) <= Count(log, now)
    decreases |log|
  {
    if log != [] {
      CountFalls(log[..|log| - 1], now, after);
    }
  }

  // ---------------------------------------------------------------- one child's history

  /** Attempts since the last reset (the last of them refused, if cooling), the times of all approved
      restarts, and the time of the last reset. */
  datatype History = History(log: seq<nat>, approvals: seq<nat>, since: nat, cooling: bool)

  function Approved(h: History): (times: seq<nat>)
    ensures |times| <= |h.log|
  {
    if h.cooling && h.log != [] then h.log[..|h.log| - 1] else h.log
  }

  /** Five approvals take more than 30 s. */
  predicate RateLimited(times: seq<nat>) {
    forall k | 0 <= k < |times| - 4 :: Apart(times, k)
  }

  predicate Apart(times: seq<nat>, k: nat)
    requires k + 4 < |times|
  {
    times[k + 4] - times[k] > WINDOW
  }

  ghost predicate Inv(h: History, retryAt: nat, clock: nat) {
    var earlier := |h.approvals| - |Approved(h)|;
    && Monotone(h.log)
    && (forall t | t in h.log :: h.since <= t <= clock)
    && h.since <= clock
    && (h.cooling ==> h.log != [] && retryAt >= h.log[|h.log| - 1] + COOLDOWN)
    && earlier >= 0
    && h.approvals[earlier..] == Approved(h)
    && (forall k | 0 <= k < earlier :: h.approvals[k] + COOLDOWN <= h.since)
    && Monotone(h.approvals)
    && RateLimited(h.approvals)
  }

  const BLANK: History := History([], [], 0, false)

  lemma BlankInv()
    ensures Inv(BLANK, 0, 0) && Ring(BLANK.log) == [0, 0, 0, 0, 0]
  {
  }

  lemma InvLater(h: History, retryAt: nat, clock: nat, later: nat)
    requires Inv(h, retryAt, clock) && clock <= later
    ensures Inv(h, retryAt, later)
  {
  }

  /** The verdict on an attempt, from the full log. */
  predicate Allowed(h: History, now: nat) {
    now > WINDOW && Count(h.log + [now], now) < MAX_RESTARTS
  }

  function Attempt(h: History, now: nat): History {
    if Allowed(h, now)
    then h.(log := h.log + [now], approvals := h.approvals + [now])
    else h.(log := h.log + [now], cooling := true)
  }

  function Reset(h: History, now: nat): History {
    h.(log := [], since := now, cooling := false)
  }

  /** Approval means the fifth last attempt is more than 30 s old. */
  lemma AllowedIsSpaced(log: seq<nat>, now: nat)
    requires Monotone(log) && |log| >= MAX_RESTARTS && Count(log, now) < MAX_RESTARTS
    ensures now - log[|log| - MAX_RESTARTS] > WINDOW
  {
    CountIsSuffix(log, now, MAX_RESTARTS);
  }

  lemma MonotoneAppend(times: seq<nat>, now: nat)
    requires Monotone(times) && forall t | t in times :: t <= now
    ensures Monotone(times + [now])
  {
    var all := times + [now];
    forall i, j | 0 <= i < j < |all| ensures all[i] <= all[j] {
      assert all[i] == times[i] && times[i] in times;
    }
  }

  lemma Append(times: seq<nat>, now: nat)
    requires Monotone(times) && RateLimited(times) && forall t | t in times :: t <= now
    requires |times| >= 4 ==> now - times[|times| - 4] > WINDOW
    ensures Monotone(times + [now]) && RateLimited(times + [now])
  {
    var all := times + [now];
    MonotoneAppend(times, now);
    forall k | 0 <= k < |all| - 4 ensures Apart(all, k) {
      if k + 4 < |times| { assert Apart(times, k); }
    }
  }

  lemma ApprovalKeepsInv(h: History, retryAt: nat, clock: nat, now: nat, retryThen: nat)
    requires Inv(h, retryAt, clock) && clock <= now && !h.cooling && Allowed(h, now)
    ensures Inv(Attempt(h, now), retryThen, now)
  {
    MonotoneAppend(h.log, now);
    ApprovalsPast(h, retryAt, clock);
    FourthLast(h, retryAt, clock, now);
    assert Attempt(h, now) == History(h.log + [now], h.approvals + [now], h.since, false);
    Append(h.approvals, now);
    AppendSuffix(h.approvals, |h.approvals| - |h.log|, now);
  }

  lemma AppendSuffix(s: seq<nat>, from: nat, x: nat)
    requires from <= |s|
    ensures (s + [x])[from..] == s[from..] + [x]
  {
  }

  lemma FourthLast(h: History, retryAt: nat, clock: nat, now: nat)
    requires Inv(h, retryAt, clock) && clock <= now && !h.cooling && Allowed(h, now)
    ensures |h.approvals| >= 4 ==> now - h.approvals[|h.approvals| - 4] > WINDOW
  {
    var earlier, n := |h.approvals| - |h.log|, |h.approvals|;
    if n >= 4 && n - 4 >= earlier {
      var log := h.log + [now];
      MonotoneAppend(h.log, now);
      AllowedIsSpaced(log, now);
      assert h.approvals[n - 4] == h.approvals[earlier..][n - 4 - earlier] == log[|log| - MAX_RESTARTS];
    }
  }

  lemma ApprovalsPast(h: History, retryAt: nat, clock: nat)
    requires Inv(h, retryAt, clock)
    ensures forall t | t in h.approvals :: t <= clock
  {
    var earlier := |h.approvals| - |Approved(h)|;
    forall k | 0 <= k < |h.approvals| ensures h.approvals[k] <= clock {
      if k >= earlier {
        assert h.approvals[k] == h.approvals[earlier..][k - earlier] == h.log[k - earlier];
        assert h.log[k - earlier] in h.log;
      }
    }
  }

  lemma RefusalKeepsInv(h: History, retryAt: nat, clock: nat, now: nat, retryThen: nat)
    requires Inv(h, retryAt, clock) && clock <= now && !h.cooling && !Allowed(h, now)
    requires retryThen >= now + COOLDOWN
    ensures Inv(Attempt(h, now), retryThen, now)
  {
    MonotoneAppend(h.log, now);
    assert (h.log + [now])[..|h.log|] == h.log;
  }

  lemma AttemptKeepsInv(h: History, retryAt: nat, clock: nat, now: nat, retryThen: nat)
    requires Inv(h, retryAt, clock) && clock <= now && !h.cooling
    requires Allowed(h, now) || retryThen >= now + COOLDOWN
    ensures Inv(Attempt(h, now), retryThen, now)
  {
    if Allowed(h, now) {
      ApprovalKeepsInv(h, retryAt, clock, now, retryThen);
    } else {
      RefusalKeepsInv(h, retryAt, clock, now, retryThen);
    }
  }

  lemma ResetKeepsInv(h: History, retryAt: nat, clock: nat, now: nat)
    requires Inv(h, retryAt, clock) && h.cooling && clock <= now && retryAt <= now
    ensures Inv(Reset(h, now), 0, now)
  {
    var last := h.log[|h.log| - 1];
    var earlier := |h.approvals| - |Approved(h)|;
    forall k | 0 <= k < |h.approvals| ensures h.approvals[k] + COOLDOWN <= now {
      if k >= earlier {
        assert h.approvals[k] == h.approvals[earlier..][k - earlier] == h.log[k - earlier];
        assert h.log[k - earlier] <= last;
      }
    }
    assert h.approvals[|h.approvals|..] == [];
  }

  // ---------------------------------------------------------------- over any run

  datatype Event = Died(at: nat) | Expired(at: nat)

  /** Events of one child: it dies while running, or its cooldown expires. The clock never steps back. */
  ghost predicate Run(events: seq<Event>, h: History, retryAt: nat, clock: nat)
    decreases |events|
  {
    if events == [] then h == BLANK && retryAt == 0 && clock == 0
    else
      var n := |events| - 1;
      match events[n]
      case Died(at) =>
        exists g: History, r: nat, c: nat :: Run(events[..n], g, r, c) && !g.cooling && c <= at == clock
                          && h == Attempt(g, at) && (Allowed(g, at) || retryAt >= at + COOLDOWN)
      case Expired(at) =>
        exists g: History, r: nat, c: nat :: Run(events[..n], g, r, c) && g.cooling && c <= at == clock && r <= at
                          && h == Reset(g, at) && retryAt == 0
  }

  lemma {:induction false} RunKeepsInv(events: seq<Event>, h: History, retryAt: nat, clock: nat)
    requires Run(events, h, retryAt, clock)
    ensures Inv(h, retryAt, clock)
    decreases |events|
  {
    if events != [] {
      var n := |events| - 1;
      match events[n]
      case Died(at) =>
        var g: History, r: nat, c: nat :| Run(events[..n], g, r, c) && !g.cooling && c <= at == clock
                       && h == Attempt(g, at) && (Allowed(g, at) || retryAt >= at + COOLDOWN);
        RunKeepsInv(events[..n], g, r, c);
        AttemptKeepsInv(g, r, c, at, retryAt);
      case Expired(at) =>
        var g: History, r: nat, c: nat :| Run(events[..n], g, r, c) && g.cooling && c <= at == clock && r <= at
                       && h == Reset(g, at) && retryAt == 0;
        RunKeepsInv(events[..n], g, r, c);
        ResetKeepsInv(g, r, c, at);
    }
  }

  /** The approvals within [from, from + 30]. */
  function Within(times: seq<nat>, from: nat): nat {
    if times == [] then 0
    else Within(times[..|times| - 1], from) + if from <= times[|times| - 1] <= from + WINDOW then 1 else 0
  }

  lemma {:induction false} WithinAtMostFour(times: seq<nat>, from: nat)
    requires Monotone(times) && RateLimited(times)
    ensures Within(times, from) <= 4
    decreases |times|
  {
    var n := |times|;
    if n <= 4 {
      FewWithin(times, from);
    } else if from <= times[n - 1] <= from + WINDOW {
      assert Apart(times, n - 5);
      NoneWithin(times[..n - 4], from);
      LastFour(times, from);
    } else {
      var before := times[..n - 1];
      forall k | 0 <= k < |before| - 4 ensures Apart(before, k) {
        assert Apart(times, k);
      }
      WithinAtMostFour(before, from);
    }
  }

  lemma LastFour(times: seq<nat>, from: nat)
    requires |times| >= 4
    ensures Within(times, from) <= Within(times[..|times| - 4], from) + 4
  {
    var n := |times|;
    var a, b, c := times[..n - 1], times[..n - 2], times[..n - 3];
    assert a[..n - 2] == b && b[..n - 3] == c && c[..n - 4] == times[..n - 4];
    assert Within(b, from) <= Within(c, from) + 1 && Within(c, from) <= Within(times[..n - 4], from) + 1;
  }

  lemma {:induction false} FewWithin(times: seq<nat>, from: nat)
    ensures Within(times, from) <= |times|
    decreases |times|
  {
    if times != [] {
      FewWithin(times[..|times| - 1], from);
    }
  }

  lemma {:induction false} NoneWithin(times: seq<nat>, from: nat)
    requires Monotone(times) && (times != [] ==> times[|times| - 1] < from)
    ensures Within(times, from) == 0
    decreases |times|
  {
    if times != [] {
      NoneWithin(times[..|times| - 1], from);
    }
  }

  /** Over any run, across cooldowns too, no 30 s hold more than four approved restarts of one child. */
  lemma AtMostFourPerWindow(events: seq<Event>, h: History, retryAt: nat, clock: nat, from: nat)
    requires Run(events, h, retryAt, clock)
    ensures Within(h.approvals, from) <= 4
  {
    RunKeepsInv(events, h, retryAt, clock);
    WithinAtMostFour(h.approvals, from);
  }

  /** Four is reached: one approval a second from second 31 on, and the fifth attempt is refused. */
  lemma FourAreApproved()
    ensures var h := Attempt(Attempt(Attempt(Attempt(BLANK, 31), 32), 33), 34);
            h.approvals == [31, 32, 33, 34] && !Allowed(h, 35) && Allowed(h, 62)
  {
    assert Count([31], 31) == 1;
    var a, b, c := [31], [31, 32], [31, 32, 33];
    var d, e, f := [31, 32, 33, 34], [31, 32, 33, 34, 35], [31, 32, 33, 34, 62];
    assert b[..1] == a && c[..2] == b && d[..3] == c && e[..4] == d && f[..4] == d;
    assert a + [32] == b && b + [33] == c && c + [34] == d && d + [35] == e && d + [62] == f;
    assert Count(a, 32) == 1 && Count(a, 33) == 1 && Count(a, 34) == 1 && Count(a, 35) == 1 && Count(a, 62) == 0;
    assert Count(b, 32) == 2 && Count(b, 33) == 2 && Count(b, 34) == 2 && Count(b, 35) == 2 && Count(b, 62) == 1;
  }
}
