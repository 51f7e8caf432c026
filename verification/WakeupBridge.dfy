/** The bridge from driver threads to the epoll loop: a locked queue and an eventfd counter
    (gateway_access/main.cpp:104-118, 221-242). One step is one lock, unlock, queue operation, eventfd
    operation or socket write, by any thread; driver threads are numbered, and there may be any number. */
module WakeupBridge {

  const MAX_COUNT: nat := 0xFFFF_FFFF_FFFF_FFFE   // what an eventfd counter can hold

  datatype Producer<T> =
    | Idle
    | Wants(msg: T)       // about to lock
    | Holds(msg: T)       // locked, about to push
    | Pushed              // still locked
    | Unlocked            // about to write the eventfd

  datatype Consumer<T> =
    | Waiting                     // in epoll_wait
    | Woken                       // about to read the eventfd
    | HasRead                     // about to lock
    | Draining(batch: seq<T>)     // locked
    | Sending(batch: seq<T>)

  datatype Owner = Nobody | MainLoop | Driver(id: nat)

  /** History: what was pushed, and by whom; what was sent; what the callback of each driver was called with. */
  datatype State<T> = State(
    queue: seq<T>, counter: nat, owner: Owner,
    drivers: map<nat, Producer<T>>, main: Consumer<T>,
    pushed: seq<T>, pushers: seq<nat>, forwarded: seq<T>, given: map<nat, seq<T>>)

  function Init<T>(ids: set<nat>): State<T> {
    State([], 0, Nobody, map id | id in ids :: Idle, Waiting, [], [], [], map id | id in ids :: [])
  }

  // ---------------------------------------------------------------- steps

  /** The data callback, one step of driver id. */
  ghost predicate DriverStep<T(!new)>(s: State<T>, t: State<T>, id: nat)
    requires id in s.drivers && id in s.given
  {
    match s.drivers[id]
    case Idle => exists m :: t == s.(drivers := s.drivers[id := Wants(m)], given := s.given[id := s.given[id] + [m]])
    case Wants(m) => s.owner == Nobody && t == s.(owner := Driver(id), drivers := s.drivers[id := Holds(m)])
    case Holds(m) => t == s.(queue := s.queue + [m], pushed := s.pushed + [m], pushers := s.pushers + [id], drivers := s.drivers[id := Pushed])
    case Pushed => t == s.(owner := Nobody, drivers := s.drivers[id := Unlocked])
    case Unlocked => t == s.(counter := Written(s.counter), drivers := s.drivers[id := Idle])
  }

  /** Writing 1 to the eventfd; a full counter refuses, which is only logged. */
  function Written(counter: nat): nat {
    if counter + 1 <= MAX_COUNT then counter + 1 else counter
  }

  /** Whether the main loop can move: epoll_wait returns while the counter is positive, and a lock must be free. */
  predicate MainAble<T>(s: State<T>) {
    match s.main
    case Waiting => s.counter > 0
    case HasRead => s.owner == Nobody
    case _ => true
  }

  /** The wake-up branch, one step of the main loop. */
  function MainNext<T>(s: State<T>): State<T> {
    match s.main
    case Waiting => s.(main := Woken)
    case Woken => s.(counter := 0, main := HasRead)
    case HasRead => s.(owner := MainLoop, main := Draining([]))
    case Draining(batch) =>
      if s.queue != [] then s.(queue := s.queue[1..], main := Draining(batch + [s.queue[0]]))
      else s.(owner := Nobody, main := Sending(batch))
    case Sending(batch) =>
      if batch != [] then s.(forwarded := s.forwarded + [batch[0]], main := Sending(batch[1..]))
      else s.(main := Waiting)
  }

  ghost predicate Step<T(!new)>(s: State<T>, t: State<T>) {
    (MainAble(s) && t == MainNext(s)) || exists id | id in s.drivers && id in s.given :: DriverStep(s, t, id)
  }

  ghost predicate Run<T(!new)>(states: seq<State<T>>, ids: set<nat>) {
    && states != [] && states[0] == Init(ids)
    && forall i | 0 <= i < |states| - 1 :: Step(states[i], states[i + 1])
  }

  // ---------------------------------------------------------------- invariant

  /** What the main loop has taken out but not sent. */
  function InHand<T>(s: State<T>): seq<T> {
    match s.main
    case Draining(batch) => batch
    case Sending(batch) => batch
    case _ => []
  }

  /** Someone is bound to look at the queue, or to make someone look. */
  ghost predicate Announced<T>(s: State<T>) {
    || s.counter > 0
    || s.main == HasRead || s.main.Draining?
    || exists id :: id in s.drivers && (s.drivers[id].Pushed? || s.drivers[id].Unlocked?)
  }

  ghost predicate Locked<T>(s: State<T>) {
    && (s.owner == MainLoop <==> s.main.Draining?)
    && (forall id | id in s.drivers :: s.owner == Driver(id) <==> s.drivers[id].Holds? || s.drivers[id].Pushed?)
    && (s.owner.Driver? ==> s.owner.id in s.drivers)
  }

  /** The messages of one driver, in the order of the lock. */
  function By<T>(pushed: seq<T>, pushers: seq<nat>, id: nat): seq<T>
    requires |pushed| == |pushers|
  {
    if pushed == [] then [] else
      var n := |pushed| - 1;
      By(pushed[..n], pushers[..n], id) + if pushers[n] == id then [pushed[n]] else []
  }

  /** What the callback of a driver still has to push. */
  function Unpushed<T>(p: Producer<T>): seq<T> {
    match p
    case Wants(m) => [m]
    case Holds(m) => [m]
    case _ => []
  }

  /** Every message a driver was given is pushed, once and in order, but for the one its callback holds. */
  ghost predicate Kept<T>(s: State<T>) {
    && s.given.Keys == s.drivers.Keys && |s.pushed| == |s.pushers|
    && (forall k | 0 <= k < |s.pushers| :: s.pushers[k] in s.drivers)
    && forall id | id in s.drivers :: s.given[id] == By(s.pushed, s.pushers, id) + Unpushed(s.drivers[id])
  }

  lemma ByGrows<T>(pushed: seq<T>, pushers: seq<nat>, m: T, who: nat, id: nat)
    requires |pushed| == |pushers|
    ensures By(pushed + [m], pushers + [who], id) == By(pushed, pushers, id) + if who == id then [m] else []
  {
    assert (pushed + [m])[..|pushed|] == pushed && (pushers + [who])[..|pushed|] == pushers;
  }

  lemma PushKeepsKept<T>(s: State<T>, t: State<T>, id: nat, m: T)
    requires Kept(s) && id in s.drivers && s.drivers[id] == Holds(m)
    requires t.drivers == s.drivers[id := Pushed] && t.given == s.given
    requires t.pushed == s.pushed + [m] && t.pushers == s.pushers + [id]
    ensures Kept(t)
  {
    forall other | other in t.drivers
      ensures t.given[other] == By(t.pushed, t.pushers, other) + Unpushed(t.drivers[other])
    {
      ByGrows(s.pushed, s.pushers, m, id, other);
      assert By(s.pushed, s.pushers, id) + [m] + [] == By(s.pushed, s.pushers, id) + [m];
    }
  }

  lemma DriverKeepsKept<T(!new)>(s: State<T>, t: State<T>, id: nat)
    requires Kept(s) && id in s.drivers && DriverStep(s, t, id)
    ensures Kept(t)
  {
    if s.drivers[id].Holds? {
      PushKeepsKept(s, t, id, s.drivers[id].msg);
    }
  }

  ghost predicate Inv<T>(s: State<T>) {
    && Locked(s)
    && s.pushed == s.forwarded + InHand(s) + s.queue
    && (s.queue != [] ==> Announced(s))
    && (s.main.Woken? ==> s.counter > 0)
  }

  lemma DriverKeepsInv<T(!new)>(s: State<T>, t: State<T>, id: nat)
    requires Inv(s) && id in s.drivers && id in s.given && DriverStep(s, t, id)
    ensures Inv(t)
  {
    assert t.drivers.Keys == s.drivers.Keys && InHand(t) == InHand(s);
    match s.drivers[id]
    case Holds(m) =>
      assert s.forwarded + InHand(s) + (s.queue + [m]) == s.forwarded + InHand(s) + s.queue + [m];
      assert t.drivers[id].Pushed?;
    case Pushed =>
      assert t.drivers[id].Unlocked?;
    case Unlocked =>
      assert t.counter > 0;
    case _ =>
      if s.queue != [] && s.counter == 0 && s.main != HasRead && !s.main.Draining? {
        var other :| other in s.drivers && (s.drivers[other].Pushed? || s.drivers[other].Unlocked?);
        assert t.drivers[other] == s.drivers[other];
      }
  }

  lemma TakenOut<T>(f: seq<T>, batch: seq<T>, queue: seq<T>)
    requires queue != []
    ensures f + batch + queue == f + (batch + [queue[0]]) + queue[1..]
  {
    assert queue == [queue[0]] + queue[1..];
  }

  lemma SentOut<T>(f: seq<T>, batch: seq<T>, queue: seq<T>)
    requires batch != []
    ensures f + batch + queue == (f + [batch[0]]) + batch[1..] + queue
  {
    assert batch == [batch[0]] + batch[1..];
  }

  /** The flags of the drivers announce as much as before. */
  lemma StillAnnounced<T>(s: State<T>, t: State<T>)
    requires Announced(s) && t.drivers == s.drivers && t.counter == s.counter && !s.main.HasRead? && !s.main.Draining?
    ensures Announced(t)
  {
    if s.counter == 0 {
      var id :| id in s.drivers && (s.drivers[id].Pushed? || s.drivers[id].Unlocked?);
      assert t.drivers[id] == s.drivers[id];
    }
  }

  lemma MainKeepsInv<T>(s: State<T>)
    requires Inv(s) && MainAble(s)
    ensures Inv(MainNext(s))
  {
    var t := MainNext(s);
    match s.main
    case Draining(batch) =>
      if s.queue != [] { TakenOut(s.forwarded, batch, s.queue); }
    case Sending(batch) =>
      if batch != [] { SentOut(s.forwarded, batch, s.queue); }
      if s.queue != [] { StillAnnounced(s, t); }
    case _ =>
  }

  lemma {:induction false} RunKeepsInv<T(!new)>(states: seq<State<T>>, ids: set<nat>, i: nat)
    requires Run(states, ids) && i < |states|
    ensures Inv(states[i]) && Kept(states[i])
  {
    if i > 0 {
      RunKeepsInv(states, ids, i - 1);
      var s, t := states[i - 1], states[i];
      assert Step(s, t);
      if MainAble(s) && t == MainNext(s) {
        MainKeepsInv(s);
      } else {
        var id :| id in s.drivers && id in s.given && DriverStep(s, t, id);
        DriverKeepsInv(s, t, id);
        DriverKeepsKept(s, t, id);
      }
    }
  }

  // ---------------------------------------------------------------- what follows

  /** No wake-up is lost: messages in the queue are announced by the counter, by a driver that has pushed and
      not yet written, or by a main loop that has read and not yet drained. */
  lemma NoLostWakeup<T(!new)>(states: seq<State<T>>, ids: set<nat>, i: nat)
    requires Run(states, ids) && i < |states|
    ensures states[i].queue != [] ==> Announced(states[i])
  {
    RunKeepsInv(states, ids, i);
  }

  /** What was pushed is an interleaving of what the callbacks were called with, each driver's messages in
      order, none lost, none twice and none made up; only the message a callback is busy with is missing. */
  lemma NothingGivenIsLost<T(!new)>(states: seq<State<T>>, ids: set<nat>, i: nat)
    requires Run(states, ids) && i < |states|
    ensures var s := states[i];
            && s.given.Keys == s.drivers.Keys && |s.pushed| == |s.pushers|
            && (forall k | 0 <= k < |s.pushers| :: s.pushers[k] in s.drivers)
            && (forall id | id in s.drivers ::
                  && s.given[id] == By(s.pushed, s.pushers, id) + Unpushed(s.drivers[id])
                  && (s.drivers[id].Idle? ==> s.given[id] == By(s.pushed, s.pushers, id)))
  {
    RunKeepsInv(states, ids, i);
  }

  /** What has been sent is always a prefix of what was pushed, in the order of the lock. */
  lemma ForwardsInOrder<T(!new)>(states: seq<State<T>>, ids: set<nat>, i: nat)
    requires Run(states, ids) && i < |states|
    ensures states[i].forwarded <= states[i].pushed
    ensures states[i].pushed == states[i].forwarded + InHand(states[i]) + states[i].queue
  {
    RunKeepsInv(states, ids, i);
    assert states[i].pushed[..|states[i].forwarded|] == states[i].forwarded;
  }

  /** No two threads are inside the lock. */
  lemma MutualExclusion<T(!new)>(states: seq<State<T>>, ids: set<nat>, i: nat, a: nat, b: nat)
    requires Run(states, ids) && i < |states| && a in states[i].drivers && b in states[i].drivers
    requires states[i].drivers[a].Holds? || states[i].drivers[a].Pushed?
    ensures !states[i].main.Draining?
    ensures states[i].drivers[b].Holds? || states[i].drivers[b].Pushed? ==> a == b
  {
    RunKeepsInv(states, ids, i);
  }

  ghost predicate DriversIdle<T>(s: State<T>) {
    forall id | id in s.drivers :: s.drivers[id].Idle?
  }

  predicate Quiet<T>(s: State<T>) {
    s.main.Waiting? && s.counter == 0
  }

  /** At quiescence everything the drivers were given has been forwarded, each driver's messages in order. */
  lemma QuietMeansForwarded<T(!new)>(states: seq<State<T>>, ids: set<nat>, i: nat)
    requires Run(states, ids) && i < |states| && DriversIdle(states[i]) && Quiet(states[i])
    ensures states[i].forwarded == states[i].pushed && states[i].queue == []
    ensures |states[i].forwarded| == |states[i].pushers|
    ensures forall id | id in states[i].drivers ::
              id in states[i].given && states[i].given[id] == By(states[i].forwarded, states[i].pushers, id)
  {
    RunKeepsInv(states, ids, i);
  }

  // ---------------------------------------------------------------- progress

  /** Steps the main loop still has to take when the drivers are idle. */
  function Left<T>(s: State<T>): nat {
    2 * |s.queue| + |InHand(s)| +
    match s.main
    case Waiting => if s.counter > 0 then 5 else 0
    case Woken => 4
    case HasRead => 3 + if s.counter > 0 then 5 else 0
    case Draining(_) => 2 + if s.counter > 0 then 5 else 0
    case Sending(_) => 1 + if s.counter > 0 then 5 else 0
  }

  /** With idle drivers the main loop is never stuck before quiescence, and its every step brings it closer. */
  lemma MainAdvances<T>(s: State<T>)
    requires Inv(s) && DriversIdle(s) && !Quiet(s)
    ensures MainAble(s) && Left(MainNext(s)) < Left(s)
    ensures DriversIdle(MainNext(s)) && MainNext(s).pushed == s.pushed
  {
  }

  /** The main loop alone, n steps or until it waits. */
  function MainRun<T>(s: State<T>, n: nat): State<T>
    decreases n
  {
    if n == 0 || !MainAble(s) then s else MainRun(MainNext(s), n - 1)
  }

  /** Once the drivers go idle, the main loop alone forwards everything within Left(s) steps, in order. */
  lemma {:induction false} BridgeEmpties<T>(s: State<T>, n: nat)
    requires Inv(s) && DriversIdle(s) && n >= Left(s)
    ensures Quiet(MainRun(s, n)) && MainRun(s, n).forwarded == s.pushed
    decreases n
  {
    if Quiet(s) {
      assert s.forwarded + [] + [] == s.forwarded;
    } else {
      MainAdvances(s);
      MainKeepsInv(s);
      BridgeEmpties(MainNext(s), n - 1);
    }
  }

  // ---------------------------------------------------------------- a callback left alone

  /** The first k + 1 states of a callback that nobody disturbs. */
  ghost predicate Callback<T(!new)>(states: seq<State<T>>, id: nat, m: T) {
    && |states| == 6 && id in states[0].drivers && states[0].drivers[id].Idle?
    && (forall k | 0 <= k < 5 :: id in states[k].drivers && id in states[k].given && DriverStep(states[k], states[k + 1], id))
    && id in states[1].drivers && states[1].drivers[id] == Wants(m)
  }

  /** What `Bridge.OnData` promises. */
  function AfterCallback<T>(s: State<T>, id: nat, m: T): State<T>
    requires id in s.given
  {
    s.(queue := s.queue + [m], counter := Written(s.counter), pushed := s.pushed + [m], pushers := s.pushers + [id],
       given := s.given[id := s.given[id] + [m]])
  }

  /** With the lock free the five steps of a callback can be taken, and they have exactly that effect. */
  lemma UndisturbedCallback<T(!new)>(s: State<T>, id: nat, m: T) returns (states: seq<State<T>>)
    requires Locked(s) && id in s.drivers && id in s.given && s.drivers[id].Idle? && s.owner == Nobody
    ensures Callback(states, id, m) && states[0] == s
    ensures forall other | Callback(other, id, m) && other[0] == s :: other[5] == AfterCallback(s, id, m)
  {
    var a := s.(drivers := s.drivers[id := Wants(m)], given := s.given[id := s.given[id] + [m]]);
    var b := a.(owner := Driver(id), drivers := a.drivers[id := Holds(m)]);
    var c := b.(queue := b.queue + [m], pushed := b.pushed + [m], pushers := b.pushers + [id], drivers := b.drivers[id := Pushed]);
    var d := c.(owner := Nobody, drivers := c.drivers[id := Unlocked]);
    states := [s, a, b, c, d, d.(counter := Written(d.counter), drivers := d.drivers[id := Idle])];
    forall other | Callback(other, id, m) && other[0] == s ensures other[5] == AfterCallback(s, id, m) {
      CallbackEffect(other, id, m);
    }
  }

  lemma CallbackEffect<T(!new)>(states: seq<State<T>>, id: nat, m: T)
    requires Callback(states, id, m) && states[0].owner == Nobody && id in states[0].given
    ensures states[5] == AfterCallback(states[0], id, m)
  {
    assert DriverStep(states[0], states[0 + 1], id) && DriverStep(states[1], states[1 + 1], id);
    assert DriverStep(states[2], states[2 + 1], id) && DriverStep(states[3], states[3 + 1], id);
    assert DriverStep(states[4], states[4 + 1], id);
    assert states[5].drivers == states[0].drivers;
  }

  // ---------------------------------------------------------------- the code, one call at a time

  class Bridge<T> {
    var queue: seq<T>
    var counter: nat
    var sent: seq<T>     // written to the socket

    constructor ()
      ensures queue == [] && counter == 0 && sent == []
    {
      queue, counter, sent := [], 0, [];
    }

    /** The data callback. */
    method OnData(msg: T)
      modifies this
      ensures queue == old(queue) + [msg] && sent == old(sent)
      ensures counter == Written(old(counter)) == (if old(counter) < MAX_COUNT then old(counter) + 1 else old(counter)) > 0
    {
      queue := queue + [msg];
      counter := Written(counter);
    }

    /** The wake-up branch. */
    method OnWakeup()
      modifies this
      ensures queue == [] && counter == 0 && sent == old(sent) + old(queue)
    {
      counter := 0;
      var batch := [];
      while queue != []
        invariant batch + queue == old(queue)
        invariant counter == 0 && sent == old(sent)
        decreases |queue|
      {
        batch := batch + [queue[0]];
        queue := queue[1..];
      }
      for i := 0 to |batch|
        invariant queue == [] && counter == 0 && sent == old(sent) + batch[..i]
      {
        sent := sent + [batch[i]];
      }
      assert batch[..|batch|] == batch;
    }
  }
}
