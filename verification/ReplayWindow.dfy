/** The window of request ids that refuses replays (gateway_core/RpcHandler.cpp:18-53). What the scanner finds
    in the payload is a parameter. */
module ReplayWindow {
  import opened Options

  const MAX_SEEN: nat := 10000

  // ---------------------------------------------------------------- specification: the log of accepted ids

  /** The last 10000 accepted ids. */
  function Window(log: seq<string>): seq<string> {
    if |log| <= MAX_SEEN then log else log[|log| - MAX_SEEN..]
  }

  predicate Refused(log: seq<string>, id: string) {
    id != "" && id in Window(log)
  }

  function Logged(log: seq<string>, id: string): seq<string> {
    if id == "" || Refused(log, id) then log else log + [id]
  }

  function History(ids: seq<string>): seq<string> {
    if ids == [] then [] else Logged(History(ids[..|ids| - 1]), ids[|ids| - 1])
  }

  /** Equal ids are more than 10000 acceptances apart. */
  ghost predicate Spread(log: seq<string>) {
    && (forall i, j | 0 <= i < j < |log| :: log[i] == log[j] ==> j - i > MAX_SEEN)
    && "" !in log
  }

  lemma InWindow(log: seq<string>, i: nat)
    requires i < |log| && |log| - i <= MAX_SEEN
    ensures log[i] in Window(log)
  {
    assert log[i] == Window(log)[if |log| <= MAX_SEEN then i else i - (|log| - MAX_SEEN)];
  }

  lemma LoggedKeepsSpread(log: seq<string>, id: string)
    requires Spread(log)
    ensures Spread(Logged(log, id))
  {
    var next := Logged(log, id);
    if next != log {
      forall i | 0 <= i < |log| && log[i] == id ensures |log| - i > MAX_SEEN {
        if |log| - i <= MAX_SEEN { InWindow(log, i); }
      }
    }
  }

  /** Over any history of requests, an id is accepted a second time only after 10000 others. */
  lemma {:induction false} ReplaysAreFarApart(ids: seq<string>)
    ensures Spread(History(ids))
    decreases |ids|
  {
    if ids != [] {
      ReplaysAreFarApart(ids[..|ids| - 1]);
      LoggedKeepsSpread(History(ids[..|ids| - 1]), ids[|ids| - 1]);
    }
  }

  /** And after 10000 others it is: the window forgets exactly then. */
  lemma ForgottenAfterTenThousand(log: seq<string>, id: string, others: seq<string>)
    requires id != "" && id !in others
    ensures Refused(log + [id] + others, id) <==> |others| < MAX_SEEN
  {
    var all := log + [id] + others;
    var at := |log|;
    if |others| < MAX_SEEN {
      var from := if |all| <= MAX_SEEN then 0 else |all| - MAX_SEEN;
      assert Window(all)[at - from] == id;
    } else {
      assert Window(all) == others[|others| - MAX_SEEN..];
    }
  }

  // ---------------------------------------------------------------- the same, told from the requests alone

  /** Request k is a replay: its id was accepted before, and fewer than 10000 requests have been since. */
  ghost predicate Replays(ids: seq<string>, k: nat)
    requires k < |ids|
    decreases k, 1
  {
    ids[k] != "" && exists j | 0 <= j < k :: ids[j] == ids[k] && Accepts(ids, j) && Between(ids, j + 1, k) < MAX_SEEN
  }

  ghost predicate Accepts(ids: seq<string>, k: nat)
    requires k < |ids|
    decreases k, 2
  {
    ids[k] != "" && !Replays(ids, k)
  }

  /** How many requests from a up to b were accepted with an id. */
  ghost function Between(ids: seq<string>, a: nat, b: nat): nat
    requires b <= |ids|
    decreases b, 0
  {
    if b <= a then 0 else Between(ids, a, b - 1) + if Accepts(ids, b - 1) then 1 else 0
  }

  lemma {:induction false} BetweenSplits(ids: seq<string>, j: nat, k: nat)
    requires j < k <= |ids|
    ensures Between(ids, 0, k) == Between(ids, 0, j + 1) + Between(ids, j + 1, k)
    decreases k
  {
    if k > j + 1 {
      BetweenSplits(ids, j, k - 1);
    }
  }

  /** Entry p of the log is that of an accepted request before k. */
  ghost predicate Earned(ids: seq<string>, k: nat, p: nat)
    requires k <= |ids|
  {
    exists j | 0 <= j < k :: Accepts(ids, j) && Between(ids, 0, j) == p
  }

  /** The log holds exactly the accepted ids, in order. */
  ghost predicate Holds(ids: seq<string>, k: nat, log: seq<string>)
    requires k <= |ids|
  {
    && |log| == Between(ids, 0, k)
    && (forall j | 0 <= j < k && Accepts(ids, j) :: Between(ids, 0, j) < |log| && log[Between(ids, 0, j)] == ids[j])
    && (forall p | 0 <= p < |log| :: Earned(ids, k, p))
  }

  lemma RefusedFromLog(ids: seq<string>, k: nat, log: seq<string>)
    requires k < |ids| && Holds(ids, k, log)
    ensures Refused(log, ids[k]) <==> Replays(ids, k)
  {
    var id := ids[k];
    var from := if |log| <= MAX_SEEN then 0 else |log| - MAX_SEEN;
    if Refused(log, id) {
      var q :| 0 <= q < |Window(log)| && Window(log)[q] == id;
      assert Earned(ids, k, from + q);
      var j :| 0 <= j < k && Accepts(ids, j) && Between(ids, 0, j) == from + q;
      BetweenSplits(ids, j, k);
    }
    if Replays(ids, k) {
      var j :| 0 <= j < k && ids[j] == id && Accepts(ids, j) && Between(ids, j + 1, k) < MAX_SEEN;
      BetweenSplits(ids, j, k);
      InWindow(log, Between(ids, 0, j));
    }
  }

  lemma {:induction false} HistoryHolds(ids: seq<string>, k: nat)
    requires k <= |ids|
    ensures Holds(ids, k, History(ids[..k]))
    decreases k
  {
    if k > 0 {
      HistoryHolds(ids, k - 1);
      assert ids[..k][..k - 1] == ids[..k - 1];
      RefusedFromLog(ids, k - 1, History(ids[..k - 1]));
      HoldsNext(ids, k - 1, History(ids[..k - 1]), History(ids[..k]));
    }
  }

  lemma HoldsNext(ids: seq<string>, k: nat, log: seq<string>, next: seq<string>)
    requires k < |ids| && Holds(ids, k, log) && next == if Accepts(ids, k) then log + [ids[k]] else log
    ensures Holds(ids, k + 1, next)
  {
    var n := k + 1;
    forall p | 0 <= p < |next| ensures Earned(ids, n, p) {
      if p == |log| {
        assert Accepts(ids, k) && Between(ids, 0, k) == p;
      } else {
        assert Earned(ids, k, p);
      }
    }
  }

  /** Over any history a request is refused exactly if its id was accepted before and fewer than 10000 others
      have been accepted since; an accepted one is the one new entry of the log, and no other adds any. */
  lemma RefusedIffReplayed(ids: seq<string>, id: string)
    ensures Refused(History(ids), id) <==> Replays(ids + [id], |ids|)
    ensures History(ids + [id]) == History(ids) + if Accepts(ids + [id], |ids|) then [id] else []
  {
    var all := ids + [id];
    assert all[..|ids|] == ids && all[..|all|] == all;
    HistoryHolds(all, |ids|);
    RefusedFromLog(all, |ids|, History(ids));
  }

  /** An id that has just been asked for is refused at once. */
  lemma AskedTwiceIsRefused(ids: seq<string>, id: string)
    requires id != ""
    ensures Refused(History(ids + [id]), id)
  {
    var log := History(ids);
    assert (ids + [id])[..|ids|] == ids;
    if !Refused(log, id) {
      InWindow(log + [id], |log|);
    }
  }

  ghost predicate Distinct(s: seq<string>) {
    forall i, j | 0 <= i < j < |s| :: s[i] != s[j]
  }

  lemma WindowDistinct(log: seq<string>)
    requires Spread(log)
    ensures Distinct(Window(log))
  {
    var w := Window(log);
    var from := |log| - |w|;
    forall i, j | 0 <= i < j < |w| ensures w[i] != w[j] {
      assert w[i] == log[from + i] && w[j] == log[from + j];
    }
  }

  function Elements(s: seq<string>): set<string> {
    set x | x in s
  }

  lemma {:induction false} DistinctSize(s: seq<string>)
    requires Distinct(s)
    ensures |Elements(s)| == |s|
    decreases |s|
  {
    if s != [] {
      var n := |s| - 1;
      DistinctSize(s[..n]);
      assert s == s[..n] + [s[n]];
      assert Elements(s) == Elements(s[..n]) + {s[n]};
      assert s[n] !in s[..n];
    }
  }

  /** The window after one more id: the oldest goes if it is full. */
  function Slid(w: seq<string>, id: string): seq<string> {
    (if |w| >= MAX_SEEN then w[1..] else w) + [id]
  }

  lemma WindowSlides(log: seq<string>, id: string)
    ensures Window(log + [id]) == Slid(Window(log), id)
  {
  }

  lemma ElementsSlide(w: seq<string>, id: string)
    requires Distinct(w)
    ensures Elements(Slid(w, id)) == (if |w| >= MAX_SEEN then Elements(w) - {w[0]} else Elements(w)) + {id}
  {
    if |w| >= MAX_SEEN {
      assert w == [w[0]] + w[1..];
      assert w[0] !in w[1..];
    }
  }

  // ---------------------------------------------------------------- the handler

  /** What the scanner finds: no method, a method without a value, or a method and an id, empty if absent. */
  datatype Payload = NoMethod | BadMethod | Call(name: string, id: string)

  datatype Reply = MissingMethod | MalformedMethod | DuplicateId | Handled(name: string) | UnknownMethod(name: string)

  class RpcHandler {
    const handlers: set<string>
    var seenIds: set<string>
    var idOrder: seq<string>
    ghost var asked: seq<string>      // the ids of all calls so far, "" for none
    ghost var accepted: seq<string>

    ghost predicate Valid()
      reads this
    {
      && accepted == History(asked)
      && Spread(accepted)
      && idOrder == Window(accepted)
      && seenIds == Elements(idOrder)
      && |seenIds| == |idOrder| <= MAX_SEEN
    }

    constructor (names: set<string>)
      ensures Valid() && asked == [] && handlers == names
    {
      handlers, seenIds, idOrder, asked, accepted := names, {}, [], [], [];
    }

    /** dispatch: an id is used up even when the method turns out to be unknown. */
    method Dispatch(p: Payload) returns (r: Reply)
      requires Valid()
      modifies this
      ensures Valid()
      ensures asked == if p.Call? then old(asked) + [p.id] else old(asked)
      ensures r.DuplicateId? <==> p.Call? && Replays(asked, |old(asked)|)
      ensures accepted == old(accepted) + if p.Call? && Accepts(asked, |old(asked)|) then [p.id] else []
      ensures r == match p
                   case NoMethod => MissingMethod
                   case BadMethod => MalformedMethod
                   case Call(name, id) =>
                     if Refused(old(accepted), id) then DuplicateId
                     else if name in handlers then Handled(name) else UnknownMethod(name)
    {
      if p.NoMethod? {
        return MissingMethod;
      }
      if p.BadMethod? {
        return MalformedMethod;
      }
      RefusedIffReplayed(asked, p.id);
      asked := asked + [p.id];
      if p.id != "" {
        if p.id in seenIds {
          return DuplicateId;
        }
        LoggedKeepsSpread(accepted, p.id);
        WindowSlides(accepted, p.id);
        WindowDistinct(accepted);
        ElementsSlide(idOrder, p.id);
        if |seenIds| >= MAX_SEEN {
          seenIds := seenIds - {idOrder[0]};
          idOrder := idOrder[1..];
        }
        seenIds := seenIds + {p.id};
        idOrder := idOrder + [p.id];
        accepted := accepted + [p.id];
        WindowDistinct(accepted);
        DistinctSize(idOrder);
      }
      if p.name in handlers {
        return Handled(p.name);
      }
      return UnknownMethod(p.name);
    }
  }
}
