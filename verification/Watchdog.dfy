/** The monitor loop of the watchdog (gateway_watchdog/main.cpp:53-90, 180-268), with its tables updated in
    place. Clock readings, reaped pids and the pids of new processes are parameters; forks succeed. */
module Watchdog {
  import opened RestartLimit

  const CHILDREN: nat := 4

  function Power(n: int): int {
    if n <= 0 then 1 else 2 * Power(n - 1)
  }

  /** What the two bounds make of a number. */
  function Clamp(n: int): int {
    if n < 1 then 1 else if n > 16 then 16 else n
  }

  /** The pause before an approved restart, by the two clock readings: a power of two if the second is at most
      30 s after the first; if it is later, no attempt counts any more and the shift is by -1. */
  predicate Paced(log: seq<nat>, t1: nat, t2: nat, shifted: int, backoff: int) {
    if t2 <= t1 + WINDOW
    then 1 <= Count(log, t2) <= 4 && backoff == Power(Count(log, t2) - 1) == [1, 2, 4, 8][Count(log, t2) - 1]
    else Count(log, t2) == 0 && backoff == Clamp(shifted)
  }

  class Monitor {
    var children: array<int>       // pid, or 0
    var alive: array<bool>
    var times: array<seq<nat>>     // g_restart_times, five slots each
    var index: array<nat>          // g_restart_idx
    var retryAt: array<nat>
    ghost var history: seq<History>
    ghost var clock: nat

    ghost function Repr(): set<object>
      reads this
    {
      {this, children, alive, times, index, retryAt}
    }

    ghost predicate Shape()
      reads this
    {
      && children.Length == alive.Length == times.Length == index.Length == retryAt.Length == CHILDREN
      && index != retryAt
      && |history| == CHILDREN
    }

    /** The five slots and the index stand for the whole log of attempts. */
    ghost predicate ChildValid(i: nat)
      requires Shape() && i < CHILDREN
      reads this, Repr()
    {
      && times[i] == Ring(history[i].log)
      && index[i] == |history[i].log|
      && Inv(history[i], retryAt[i], clock)
      && (history[i].cooling <==> children[i] == 0)
    }

    ghost predicate Valid()
      reads this, Repr()
    {
      Shape() && forall i | 0 <= i < CHILDREN :: ChildValid(i)
    }

    /** Running with a pid and nothing scheduled, or down with a retry scheduled. */
    ghost predicate Settled(i: nat)
      requires Shape() && i < CHILDREN
      reads this, Repr()
    {
      if alive[i] then children[i] > 0 && retryAt[i] == 0 else children[i] == 0 && retryAt[i] > 0
    }

    /** The loop head. */
    ghost predicate Healthy()
      reads this, Repr()
    {
      Valid() && forall i | 0 <= i < CHILDREN :: Settled(i)
    }

    /** Whatever the monitor has been through, no 30 s hold more than four approved restarts of a child. */
    lemma RateHolds(i: nat, from: nat)
      requires Valid() && i < CHILDREN
      ensures Within(history[i].approvals, from) <= 4
    {
      assert ChildValid(i);
      WithinAtMostFour(history[i].approvals, from);
    }

    /** The start-up of all four children. */
    constructor (pids: seq<int>)
      requires |pids| == CHILDREN && forall i | 0 <= i < CHILDREN :: pids[i] > 0
      ensures Healthy() && fresh(Repr())
      ensures children[..] == pids
      ensures forall i | 0 <= i < CHILDREN :: history[i] == BLANK
    {
      children := new int[4][pids[0], pids[1], pids[2], pids[3]];
      alive := new bool[4][true, true, true, true];
      var unset: seq<nat> := [0, 0, 0, 0, 0];
      times := new seq<nat>[4][unset, unset, unset, unset];
      index := new nat[4][0, 0, 0, 0];
      retryAt := new nat[4][0, 0, 0, 0];
      history := [BLANK, BLANK, BLANK, BLANK];
      clock := 0;
      new;
      assert children[..] == pids;
      StartsHealthy();
    }

    lemma StartsHealthy()
      requires Shape() && clock == 0
      requires forall i | 0 <= i < CHILDREN :: Started(i)
      ensures Healthy()
    {
      BlankInv();
      forall i | 0 <= i < CHILDREN ensures ChildValid(i) && Settled(i) {
        assert Started(i);
      }
    }

    ghost predicate Started(i: nat)
      requires Shape() && i < CHILDREN
      reads this, Repr()
    {
      && children[i] > 0 && alive[i] && retryAt[i] == 0 && index[i] == 0
      && times[i] == [0, 0, 0, 0, 0] && history[i] == BLANK
    }

    /** should_restart. */
    method ShouldRestart(i: nat, now: nat) returns (ok: bool)
      requires Shape() && i < CHILDREN && ChildValid(i) && children[i] != 0 && clock <= now
      modifies times, index
      ensures ok <==> Allowed(history[i], now)
      ensures times[i] == Ring(Attempt(history[i], now).log)
      ensures index[i] == |Attempt(history[i], now).log|
      ensures forall j | 0 <= j < CHILDREN && j != i :: times[j] == old(times[j]) && index[j] == old(index[j])
    {
      var slot := index[i] % MAX_RESTARTS;
      times[i] := times[i][slot := now];
      index[i] := index[i] + 1;
      ghost var log := history[i].log + [now];
      assert log[..|history[i].log|] == history[i].log;
      assert times[i] == Ring(log);
      var count := 0;
      for k := 0 to MAX_RESTARTS
        invariant count == Count(times[i][..k], now)
      {
        assert times[i][..k + 1][..k] == times[i][..k];
        if now - times[i][k] <= WINDOW {
          count := count + 1;
        }
      }
      assert times[i][..MAX_RESTARTS] == times[i];
      MonotoneAppend(history[i].log, now);
      RingDecides(log, now);
      ok := count < MAX_RESTARTS;
    }

    /** restart_count_in_window: unlike should_restart, it skips slots that hold 0. */
    method RestartCountInWindow(i: nat, now: nat) returns (count: nat)
      requires Shape() && i < CHILDREN && |times[i]| == MAX_RESTARTS
      ensures count == CountWritten(times[i], now)
      ensures now > WINDOW ==> count == Count(times[i], now)
    {
      count := 0;
      for k := 0 to MAX_RESTARTS
        invariant count == CountWritten(times[i][..k], now)
      {
        assert times[i][..k + 1][..k] == times[i][..k];
        if times[i][k] > 0 && now - times[i][k] <= WINDOW {
          count := count + 1;
        }
      }
      assert times[i][..MAX_RESTARTS] == times[i];
      WrittenOrRecent(times[i], now);
    }

    /** The first loop of a pass: children whose cooldown has expired start again with a clean history. */
    method RetryExpired(now: nat, pids: seq<int>)
      requires Healthy() && clock <= now
      requires |pids| == CHILDREN && forall i | 0 <= i < CHILDREN :: pids[i] > 0
      modifies Repr()
      ensures Repr() == old(Repr()) && Healthy() && clock == now
      ensures forall i | 0 <= i < CHILDREN && old(retryAt[i] > 0 && now >= retryAt[i]) ::
                children[i] == pids[i] && history[i] == Reset(old(history[i]), now)
      ensures forall i | 0 <= i < CHILDREN && !old(retryAt[i] > 0 && now >= retryAt[i]) ::
                children[i] == old(children[i]) && history[i] == old(history[i]) && retryAt[i] == old(retryAt[i])
    {
      Advance(now);
      for i := 0 to CHILDREN
        invariant Repr() == old(Repr()) && Healthy() && clock == now
        invariant forall j | 0 <= j < i && old(retryAt[j] > 0 && now >= retryAt[j]) ::
                    children[j] == pids[j] && history[j] == Reset(old(history[j]), now)
        invariant forall j | 0 <= j < CHILDREN && (j >= i || !old(retryAt[j] > 0 && now >= retryAt[j])) ::
                    children[j] == old(children[j]) && history[j] == old(history[j]) && retryAt[j] == old(retryAt[j])
      {
        assert ChildValid(i) && Settled(i);
        if retryAt[i] > 0 && now >= retryAt[i] && children[i] == 0 {
          Restart(i, now, pids[i]);
        }
      }
    }

    ghost method Advance(now: nat)
      requires Healthy() && clock <= now
      modifies this`clock
      ensures Healthy() && clock == now
    {
      clock := now;
      forall i | 0 <= i < CHILDREN ensures ChildValid(i) && Settled(i) {
        assert old(ChildValid(i)) && old(Settled(i));
      }
    }

    /** reset_restart_history, then start_child. */
    method Restart(i: nat, now: nat, pid: int)
      requires Healthy() && clock == now && i < CHILDREN && pid > 0
      requires retryAt[i] > 0 && now >= retryAt[i] && children[i] == 0
      modifies Repr()
      ensures Repr() == old(Repr()) && Healthy() && clock == now
      ensures children[..] == old(children[..])[i := pid]
      ensures history == old(history)[i := Reset(old(history[i]), now)]
      ensures retryAt[..] == old(retryAt[..])[i := 0]
    {
      assert ChildValid(i);
      ResetKeepsInv(history[i], retryAt[i], clock, now);
      index[i] := 0;
      times[i] := [0, 0, 0, 0, 0];
      retryAt[i] := 0;
      children[i] := pid;
      alive[i] := true;
      history := history[i := Reset(history[i], now)];
      forall j | 0 <= j < CHILDREN ensures ChildValid(j) && Settled(j) {
        assert old(ChildValid(j)) && old(Settled(j));
      }
    }

    /** The slots count the attempts: one to four of them if the second reading is at most 30 s late, none
        otherwise. */
    lemma BackoffCount(h: History, retry: nat, now: nat, t1: nat, t2: nat)
      requires Inv(h, retry, now) && !h.cooling && Allowed(h, t1) && now <= t1 <= t2
      ensures Count(Ring(h.log + [t1]), t2) == Count(h.log + [t1], t2) <= 4
      ensures t2 <= t1 + WINDOW <==> Count(h.log + [t1], t2) >= 1
    {
      var log := h.log + [t1];
      MonotoneAppend(h.log, t1);
      CountFalls(log, t1, t2);
      RingCountsLog(log, t2);
      assert log[..|log| - 1] == h.log;
      if t2 > t1 + WINDOW { NoneRecent(log, t2); }
    }

    /** One reaped pid. The clock is read when the attempt is recorded (t1) and again for the backoff or the
        cooldown (t2); shifted is what a shift by a negative count would yield, which the language leaves
        undefined. */
    method Reap(pid: int, t1: nat, t2: nat, shifted: int, newPid: int, corePid: int)
      returns (which: int, backoff: int, coreFirst: bool)
      requires Valid() && pid > 0 && newPid > 0 && corePid > 0 && clock <= t1 <= t2
      modifies Repr()
      ensures Repr() == old(Repr()) && Valid()
      ensures -1 <= which < CHILDREN
      ensures which < 0 ==> pid !in old(children[..])
      ensures which < 0 ==> children[..] == old(children[..]) && history == old(history) && retryAt[..] == old(retryAt[..])
      ensures which >= 0 ==> old(children[which]) == pid && history == old(history)[which := Attempt(old(history[which]), t1)]
      ensures which >= 0 && Allowed(old(history[which]), t1) ==>
                && children[which] == newPid && alive[which] && retryAt[..] == old(retryAt[..])
                && Paced(history[which].log, t1, t2, shifted, backoff)
      ensures which >= 0 && !Allowed(old(history[which]), t1) ==>
                children[which] == 0 && !alive[which] && retryAt[..] == old(retryAt[..])[which := t2 + COOLDOWN]
      ensures forall j | 0 <= j < CHILDREN && j != which && !(coreFirst && j == 0) ::
                children[j] == old(children[j]) && alive[j] == old(alive[j])
      ensures old(Healthy()) ==> Healthy() && !coreFirst
    {
      which, backoff, coreFirst := -1, 0, false;
      for i := 0 to CHILDREN
        invariant Repr() == old(Repr()) && Valid() && which == -1 && !coreFirst
        invariant unchanged(Repr())
        invariant pid !in children[..i]
      {
        if children[i] == pid {
          which := i;
          backoff, coreFirst := Died(i, t1, t2, shifted, newPid, corePid);
          if old(Healthy()) {
            assert old(Settled(0));
            forall j | 0 <= j < CHILDREN ensures Settled(j) { assert old(Settled(j)); }
          }
          return;
        }
      }
      assert children[..CHILDREN] == children[..];
      clock := t2;
      forall j | 0 <= j < CHILDREN ensures ChildValid(j) { assert old(ChildValid(j)); }
      if old(Healthy()) {
        forall j | 0 <= j < CHILDREN ensures Settled(j) { assert old(Settled(j)); }
      }
    }

    /** The body of the branch for child i. */
    method Died(i: nat, t1: nat, t2: nat, shifted: int, newPid: int, corePid: int)
      returns (backoff: int, coreFirst: bool)
      requires Valid() && i < CHILDREN && children[i] > 0 && newPid > 0 && corePid > 0 && clock <= t1 <= t2
      modifies Repr()
      ensures Repr() == old(Repr()) && Valid()
      ensures history == old(history)[i := Attempt(old(history[i]), t1)]
      ensures Allowed(old(history[i]), t1) ==>
                && children[i] == newPid && alive[i] && retryAt[..] == old(retryAt[..])
                && Paced(history[i].log, t1, t2, shifted, backoff)
      ensures !Allowed(old(history[i]), t1) ==>
                children[i] == 0 && !alive[i] && retryAt[..] == old(retryAt[..])[i := t2 + COOLDOWN]
      ensures forall j | 0 <= j < CHILDREN && j != i && !(coreFirst && j == 0) ::
                children[j] == old(children[j]) && alive[j] == old(alive[j])
      ensures coreFirst ==> i != 0 && !old(alive[0]) && old(children[0]) > 0
    {
      coreFirst, backoff := false, 0;
      assert ChildValid(i);
      alive[i] := false;
      assert ChildValid(i);
      var ok := ShouldRestart(i, t1);
      forall j | 0 <= j < CHILDREN && j != i ensures ChildValid(j) { assert old(ChildValid(j)); }
      if ok {
        backoff, coreFirst := StartAgain(i, t1, t2, shifted, newPid, corePid);
      } else {
        Refuse(i, t1, t2);
      }
    }

    /** The attempt of child i is in the slots but not yet in its history. */
    ghost predicate Attempted(i: nat, t1: nat)
      requires Shape() && i < CHILDREN
      reads this, Repr()
    {
      && (forall j | 0 <= j < CHILDREN && j != i :: ChildValid(j))
      && times[i] == Ring(history[i].log + [t1]) && index[i] == |history[i].log| + 1
      && Inv(history[i], retryAt[i], clock) && !history[i].cooling && clock <= t1
    }

    /** An approved restart, after the core process if that one is down. */
    method StartAgain(i: nat, ghost t1: nat, t2: nat, shifted: int, newPid: int, corePid: int)
      returns (backoff: int, coreFirst: bool)
      requires Shape() && i < CHILDREN && Attempted(i, t1) && Allowed(history[i], t1) && t1 <= t2
      requires newPid > 0 && corePid > 0
      modifies this`history, this`clock, children, alive
      ensures Valid() && history == old(history)[i := Attempt(old(history[i]), t1)]
      ensures coreFirst ==> i != 0 && !old(alive[0]) && old(children[0]) > 0
      ensures children[i] == newPid && alive[i]
      ensures forall j | 0 <= j < CHILDREN && j != i && !(coreFirst && j == 0) ::
                children[j] == old(children[j]) && alive[j] == old(alive[j])
      ensures Paced(history[i].log, t1, t2, shifted, backoff)
    {
      coreFirst := StartCore(i, t1, corePid);
      backoff := Backoff(i, t1, t2, shifted);
      assert Attempt(history[i], t1).log == history[i].log + [t1];
      Launch(i, t1, t2, newPid);
    }

    /** start_child for the child that died. */
    method Launch(i: nat, ghost t1: nat, ghost t2: nat, newPid: int)
      requires Shape() && i < CHILDREN && Attempted(i, t1) && Allowed(history[i], t1) && t1 <= t2 && newPid > 0
      modifies this`history, this`clock, children, alive
      ensures Valid() && history == old(history)[i := Attempt(old(history[i]), t1)]
      ensures children[i] == newPid && alive[i]
      ensures forall j | 0 <= j < CHILDREN && j != i :: children[j] == old(children[j]) && alive[j] == old(alive[j])
    {
      children[i] := newPid;
      alive[i] := true;
      forall j | 0 <= j < CHILDREN && j != i ensures ChildValid(j) { assert old(ChildValid(j)); }
      AttemptKeepsInv(history[i], retryAt[i], clock, t1, retryAt[i]);
      Record(i, Attempt(history[i], t1), t1, t2);
    }

    /** The dependency check. */
    method StartCore(i: nat, ghost t1: nat, corePid: int) returns (coreFirst: bool)
      requires Shape() && i < CHILDREN && Attempted(i, t1) && corePid > 0
      modifies children, alive
      ensures Attempted(i, t1)
      ensures coreFirst <==> i != 0 && !old(alive[0]) && old(children[0]) > 0
      ensures coreFirst ==> children[0] == corePid && alive[0]
      ensures forall j | 0 <= j < CHILDREN && !(coreFirst && j == 0) ::
                children[j] == old(children[j]) && alive[j] == old(alive[j])
    {
      coreFirst := false;
      if i != 0 && !alive[0] && children[0] > 0 {
        coreFirst := true;
        children[0] := corePid;
        alive[0] := true;
        forall j | 0 <= j < CHILDREN && j != i ensures ChildValid(j) { assert old(ChildValid(j)); }
      }
    }

    /** The cooldown. */
    method Refuse(i: nat, ghost t1: nat, t2: nat)
      requires Shape() && i < CHILDREN && Attempted(i, t1) && !Allowed(history[i], t1) && t1 <= t2
      modifies this`history, this`clock, children, retryAt
      ensures Valid() && history == old(history)[i := Attempt(old(history[i]), t1)]
      ensures children[..] == old(children[..])[i := 0]
      ensures retryAt[..] == old(retryAt[..])[i := t2 + COOLDOWN]
    {
      retryAt[i] := t2 + COOLDOWN;
      children[i] := 0;
      forall j | 0 <= j < CHILDREN && j != i ensures ChildValid(j) { assert old(ChildValid(j)); }
      AttemptKeepsInv(history[i], old(retryAt[i]), clock, t1, retryAt[i]);
      Record(i, Attempt(history[i], t1), t1, t2);
    }

    /** The exponent is the number of attempts in the window, less one. */
    method Backoff(i: nat, ghost t1: nat, t2: nat, shifted: int) returns (backoff: int)
      requires Shape() && i < CHILDREN && Attempted(i, t1) && Allowed(history[i], t1) && t1 <= t2
      ensures Attempted(i, t1)
      ensures Paced(history[i].log + [t1], t1, t2, shifted, backoff)
    {
      BackoffCount(history[i], retryAt[i], clock, t1, t2);
      var count := RestartCountInWindow(i, t2);
      var shift: int := if count as int - 1 < 4 then count as int - 1 else 4;
      backoff := if shift >= 0 then Power(shift) else shifted;
      assert Power(0) == 1 && Power(1) == 2 && Power(2) == 4 && Power(3) == 8;
      if backoff < 1 { backoff := 1; }
      if backoff > 16 { backoff := 16; }
      forall j | 0 <= j < CHILDREN && j != i ensures ChildValid(j) { assert old(ChildValid(j)); }
    }

    ghost method Record(i: nat, h: History, t1: nat, t2: nat)
      requires Shape() && i < CHILDREN && clock <= t1 <= t2
      requires forall j | 0 <= j < CHILDREN && j != i :: ChildValid(j)
      requires times[i] == Ring(h.log) && index[i] == |h.log| && Inv(h, retryAt[i], t1)
      requires h.cooling <==> children[i] == 0
      modifies this`history, this`clock
      ensures Valid() && history == old(history)[i := h]
    {
      forall j | 0 <= j < CHILDREN && j != i ensures Inv(history[j], retryAt[j], t2) {
        assert ChildValid(j);
        InvLater(history[j], retryAt[j], clock, t2);
      }
      InvLater(h, retryAt[i], t1, t2);
      history := history[i := h];
      clock := t2;
      forall j | 0 <= j < CHILDREN ensures ChildValid(j) {
        if j != i {
          assert old(ChildValid(j)) && history[j] == old(history[j]);
        }
      }
    }
  }
}
