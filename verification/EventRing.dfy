/**
 The event stream of the HTTP API: a ring of the last 256 events under one lock, one thread per
 connected client with its own cursor, and the count of those threads that `asb_api_stop` drains.

 Each critical section is one step. Event numbers are unbounded here.
 */
module EventRing {
  import opened Common

  /** The JSON text of an event. */
  type Event = seq<byte>

  const EV_CAP: nat := 256
  const BATCH: nat := 64

  /** Where a client that has read up to `mine` goes on: the oldest event still in the ring at worst. */
  function From(total: nat, mine: nat): nat {
    if total - mine > EV_CAP then total - EV_CAP else mine
  }

  /** Events a client takes in one turn. */
  function Taken(total: nat, mine: nat): (n: nat)
    requires mine <= total
    ensures n <= BATCH && From(total, mine) + n <= total
  {
    Min(BATCH, total - From(total, mine))
  }

  // ---- The ring ----

  function Slot(k: nat): (i: nat)
    ensures i < EV_CAP
  {
    k % EV_CAP
  }

  class Ring {
    const slots: array<Option<Event>>
    var total: nat
    /** Every event broadcast so far. */
    ghost var history: seq<Event>

    ghost predicate Valid()
      reads this, slots
    {
      && slots.Length == EV_CAP && total == |history|
      && forall k :: Max(0, total - EV_CAP) <= k < total ==> slots[Slot(k)] == Some(history[k])
    }

    constructor ()
      ensures Valid() && history == [] && fresh(slots)
    {
      slots := new Option<Event>[EV_CAP](i => None);
      total, history := 0, [];
    }

    method Broadcast(e: Event)
      requires Valid()
      modifies this, slots
      ensures Valid() && history == old(history) + [e]
    {
      hide Slot;
      slots[Slot(total)] := Some(e);
      total := total + 1;
      history := history + [e];
      OneSlotEach(total - 1);
    }

    /** What `sse_thread` does under the lock: skip what the ring no longer holds, then take a batch. */
    method Drain(mine: nat) returns (frames: seq<Event>, next: nat)
      requires Valid() && mine <= total
      ensures next == From(total, mine) + Taken(total, mine)
      ensures frames == history[From(total, mine)..next]
      ensures var start := Max(mine, total - EV_CAP);
              next == Min(total, start + BATCH) && frames == history[start..next]
      ensures mine < total ==> next > mine && frames != []
    {
      hide Slot;
      next := mine;
      if total - next > EV_CAP { next := total - EV_CAP; }
      frames := [];
      while next < total && |frames| < BATCH
        invariant From(total, mine) <= next <= total && |frames| == next - From(total, mine) <= BATCH
        invariant frames == history[From(total, mine)..next]
      {
        frames := frames + [slots[Slot(next)].value];
        next := next + 1;
      }
    }
  }

  /** Of 256 consecutive numbers, no two share a slot. */
  lemma OneSlotEach(last: nat)
    ensures forall k :: Max(0, last - EV_CAP + 1) <= k < last ==> Slot(k) != Slot(last)
  {
  }

  // ---- Clients ----

  datatype Phase = Starting | Streaming | Finishing | Gone

  /** Events `lo .. hi` were skipped when `total` had been broadcast. */
  datatype Gap = Gap(lo: nat, hi: nat, total: nat)

  /** `got` lists the numbers of the events written to the client; `upTo` is its cursor. */
  datatype Client = Client(phase: Phase, connect: nat, upTo: nat, got: seq<nat>, gaps: seq<Gap>)

  /**
   `count` is `g_sse_count`; `spawning` is a request between its increment and `CreateThread`; `serving` is the
   server thread; `stopped` is `asb_api_stop` past its drain.
   */
  datatype State = State(history: seq<Event>, clients: seq<Client>, count: int, spawning: bool, stop: bool,
                         serving: bool, stopped: bool)

  datatype Action =
    | Broadcast(e: Event)
    | Request
    | Spawn(ok: bool)
    | Connect(c: nat, ok: bool)
    /** One turn of a stream thread; `written` frames (or the heartbeat) go out before a write fails. */
    | Turn(c: nat, written: nat, alive: bool)
    | SeeStop(c: nat)
    | Finish(c: nat)
    | Stop
    | ServerExit
    | StopReturn

  const INIT: State := State([], [], 0, false, false, true, false)

  predicate In(s: State, c: nat, phase: Phase) {
    c < |s.clients| && s.clients[c].phase == phase && s.clients[c].upTo <= |s.history|
  }

  predicate Enabled(s: State, a: Action) {
    match a
    case Broadcast(_) => true
    case Request => s.serving && !s.spawning
    case Spawn(_) => s.spawning
    case Connect(c, _) => In(s, c, Starting)
    case Turn(c, written, alive) =>
      && In(s, c, Streaming)
      && written <= Taken(|s.history|, s.clients[c].upTo)
      && (alive ==> written == Taken(|s.history|, s.clients[c].upTo))
    case SeeStop(c) => In(s, c, Streaming) && s.stop
    case Finish(c) => In(s, c, Finishing)
    case Stop => true
    case ServerExit => !s.spawning
    case StopReturn => s.stop && !s.serving && s.count == 0
  }

  function Numbers(lo: nat, n: nat): (r: seq<nat>)
    ensures |r| == n && forall i :: 0 <= i < n ==> r[i] == lo + i
  {
    seq(n, i requires i >= 0 => lo + i)
  }

  function AfterTurn(x: Client, total: nat, written: nat, alive: bool): Client {
    var start := From(total, x.upTo);
    Client(if alive then Streaming else Finishing, x.connect, start + written, x.got + Numbers(start, written),
           if start > x.upTo then x.gaps + [Gap(x.upTo, start, total)] else x.gaps)
  }

  function ClientAfter(s: State, a: Action): Client
    requires Enabled(s, a) && (a.Connect? || a.Turn? || a.SeeStop? || a.Finish?)
  {
    var x := s.clients[a.c];
    match a
    case Connect(_, ok) => if ok then Client(Streaming, |s.history|, |s.history|, [], []) else x.(phase := Finishing)
    case Turn(_, written, alive) => AfterTurn(x, |s.history|, written, alive)
    case SeeStop(_) => x.(phase := Finishing)
    case Finish(_) => x.(phase := Gone)
  }

  function Step(s: State, a: Action): State {
    if !Enabled(s, a) then s
    else match a
      case Broadcast(e) => s.(history := s.history + [e])
      case Request => s.(spawning := true, count := s.count + 1)
      case Spawn(ok) =>
        if ok then s.(spawning := false, clients := s.clients + [Client(Starting, 0, 0, [], [])])
        else s.(spawning := false, count := s.count - 1)
      case Stop => s.(stop := true)
      case ServerExit => s.(serving := false)
      case StopReturn => s.(stopped := true)
      case _ =>
        s.(clients := s.clients[a.c := ClientAfter(s, a)], count := if a.Finish? then s.count - 1 else s.count)
  }

  function Run(actions: seq<Action>): State {
    if actions == [] then INIT else Step(Run(actions[..|actions| - 1]), actions[|actions| - 1])
  }

  // ---- Delivery ----

  predicate Increasing(s: seq<nat>) {
    forall i, j :: 0 <= i < j < |s| ==> s[i] < s[j]
  }

  /** Event `k` was skipped when the client was more than 256 events behind it. */
  predicate FellBehind(x: Client, k: nat) {
    exists i :: 0 <= i < |x.gaps| && x.gaps[i].lo <= k < x.gaps[i].hi && x.gaps[i].total - k > EV_CAP
  }

  /** In order, once each, from the connect point on, and complete but for events the client fell too far behind. */
  predicate Delivered(x: Client, total: nat) {
    && x.connect <= x.upTo <= total
    && Increasing(x.got)
    && (forall i :: 0 <= i < |x.got| ==> x.connect <= x.got[i] < x.upTo)
    && (forall i :: 0 <= i < |x.gaps| ==> x.gaps[i].total <= total)
    && forall k | x.connect <= k < x.upTo :: k in x.got || FellBehind(x, k)
  }

  lemma TurnDelivers(x: Client, total: nat, written: nat, alive: bool)
    requires Delivered(x, total) && written <= Taken(total, x.upTo)
    ensures Delivered(AfterTurn(x, total, written, alive), total)
  {
    var y := AfterTurn(x, total, written, alive);
    var start := From(total, x.upTo);
    forall k | x.connect <= k < y.upTo
      ensures k in y.got || FellBehind(y, k)
    {
      if k >= start {
        assert y.got[|x.got| + k - start] == k;
      } else if k >= x.upTo {
        assert y.gaps[|x.gaps|] == Gap(x.upTo, start, total);
      } else if k in x.got {
        var i :| 0 <= i < |x.got| && x.got[i] == k;
        assert y.got[i] == k;
      } else {
        var i :| 0 <= i < |x.gaps| && x.gaps[i].lo <= k < x.gaps[i].hi && x.gaps[i].total - k > EV_CAP;
        assert y.gaps[i] == x.gaps[i];
      }
    }
  }

  ghost predicate AllDelivered(s: State) {
    forall c :: 0 <= c < |s.clients| ==> Delivered(s.clients[c], |s.history|)
  }

  lemma DeliveredLater(x: Client, total: nat)
    requires Delivered(x, total)
    ensures Delivered(x, total + 1)
  {
  }

  lemma StepDelivers(s: State, a: Action)
    requires AllDelivered(s)
    ensures AllDelivered(Step(s, a))
  {
    hide Delivered, AfterTurn, Taken;
    if Enabled(s, a) && !a.Broadcast? {
      StepDeliversTo(s, a);
    } else if Enabled(s, a) {
      forall c | 0 <= c < |s.clients|
        ensures Delivered(s.clients[c], |s.history| + 1)
      {
        DeliveredLater(s.clients[c], |s.history|);
      }
    }
  }

  lemma StepDeliversTo(s: State, a: Action)
    requires AllDelivered(s) && Enabled(s, a) && !a.Broadcast?
    ensures AllDelivered(Step(s, a))
  {
    hide AfterTurn, Taken;
    if a.Turn? {
      TurnDelivers(s.clients[a.c], |s.history|, a.written, a.alive);
    }
  }

  /** Every client of every run has received what it should. */
  lemma {:induction false} EveryClientServed(actions: seq<Action>)
    ensures AllDelivered(Run(actions))
  {
    if actions != [] {
      EveryClientServed(actions[..|actions| - 1]);
      StepDelivers(Run(actions[..|actions| - 1]), actions[|actions| - 1]);
    }
  }

  lemma RunSnoc(actions: seq<Action>, a: Action)
    ensures Run(actions + [a]) == Step(Run(actions), a)
  {
    assert (actions + [a])[..|actions|] == actions;
  }

  /** A client that has connected stays, and its connect point with it. */
  lemma ConnectedStays(s: State, a: Action, c: nat)
    requires c < |s.clients| && s.clients[c].phase != Starting
    ensures var t := Step(s, a);
            c < |t.clients| && t.clients[c].phase != Starting && t.clients[c].connect == s.clients[c].connect
  {
    hide Taken, From, Numbers;
  }

  lemma ConnectsNow(s: State, c: nat)
    requires In(s, c, Starting)
    ensures var t := Step(s, Connect(c, true));
            t.clients[c].phase != Starting && t.clients[c].connect == |s.history| && t.clients[c].got == []
  {
  }

  /** On every run the events a client gets are those broadcast after it connected, none from before. */
  lemma {:induction false} StreamsFromConnect(before: seq<Action>, c: nat, more: seq<Action>)
    requires In(Run(before), c, Starting)
    ensures var t := Run(before + [Connect(c, true)] + more);
            && c < |t.clients| && t.clients[c].phase != Starting
            && t.clients[c].connect == |Run(before).history|
            && forall i :: 0 <= i < |t.clients[c].got| ==> t.clients[c].got[i] >= |Run(before).history|
  {
    var all := before + [Connect(c, true)] + more;
    if more == [] {
      assert all == before + [Connect(c, true)];
      RunSnoc(before, Connect(c, true));
      hide Run, Step;
      ConnectsNow(Run(before), c);
    } else {
      var n := |more| - 1;
      StreamsFromConnect(before, c, more[..n]);
      assert all == before + [Connect(c, true)] + more[..n] + [more[n]];
      RunSnoc(before + [Connect(c, true)] + more[..n], more[n]);
      EveryClientServed(all);
      hide Run, Step, Increasing, FellBehind;
      ConnectedStays(Run(before + [Connect(c, true)] + more[..n]), more[n], c);
      assert Delivered(Run(all).clients[c], |Run(all).history|);
    }
  }

  // ---- Progress of a client ----

  /** Client `c` takes `n` turns and every write succeeds. */
  function Turns(s: State, c: nat, n: nat): State {
    if n == 0 then s
    else
      var t := Turns(s, c, n - 1);
      if c < |t.clients| && t.clients[c].upTo <= |t.history| then
        Step(t, Turn(c, Taken(|t.history|, t.clients[c].upTo), true))
      else t
  }

  /** How far a client has got after `n` turns, counted from the oldest event it can still have. */
  function Reached(total: nat, mine: nat, n: nat): int {
    if n == 0 then mine else Min(total, Max(mine, total - EV_CAP) + n * BATCH)
  }

  lemma ReachedNext(total: nat, mine: nat, n: nat)
    requires mine <= total
    ensures var at := Reached(total, mine, n);
            mine <= at <= total && From(total, at) + Taken(total, at) == Reached(total, mine, n + 1)
  {
  }

  lemma OneTurn(s: State, c: nat)
    requires In(s, c, Streaming)
    ensures var total, mine := |s.history|, s.clients[c].upTo;
            var t := Step(s, Turn(c, Taken(total, mine), true));
            && t.history == s.history && In(t, c, Streaming)
            && t.clients[c].upTo == From(total, mine) + Taken(total, mine)
            && t.clients[c].got == s.clients[c].got + Numbers(From(total, mine), Taken(total, mine))
  {
    hide Numbers, Taken, From;
    TakenInside(|s.history|, s.clients[c].upTo);
  }

  lemma TakenInside(total: nat, mine: nat)
    requires mine <= total
    ensures mine <= From(total, mine) && From(total, mine) + Taken(total, mine) <= total
  {
  }

  lemma {:induction false} TurnsReach(s: State, c: nat, n: nat)
    requires In(s, c, Streaming)
    ensures var t := Turns(s, c, n);
            && t.history == s.history && In(t, c, Streaming)
            && t.clients[c].upTo == Reached(|s.history|, s.clients[c].upTo, n)
  {
    if n > 0 {
      TurnsReach(s, c, n - 1);
      hide Step, Taken, Reached, From;
      OneTurn(Turns(s, c, n - 1), c);
      ReachedNext(|s.history|, s.clients[c].upTo, n - 1);
    }
  }

  /** How far client `c` has got. */
  function Cursor(s: State, c: nat): nat {
    if c < |s.clients| then s.clients[c].upTo else 0
  }

  lemma CursorReaches(s: State, c: nat, n: nat)
    requires In(s, c, Streaming)
    ensures Cursor(Turns(s, c, n), c) == Reached(|s.history|, Cursor(s, c), n)
  {
    TurnsReach(s, c, n);
    hide Turns, Reached;
  }

  lemma Onward(total: nat, mine: nat, n: nat)
    requires mine <= total
    ensures Reached(total, mine, n) < total ==> Reached(total, mine, n + 1) > Reached(total, mine, n)
    ensures Reached(total, mine, 4) == total
  {
  }

  /**
   From every reachable state four turns without new broadcasts, of a client that can be written to, bring it up to
   the newest event, and each turn on the way takes it further.
   */
  lemma ClientCatchesUp(actions: seq<Action>, c: nat)
    requires c < |Run(actions).clients| && Run(actions).clients[c].phase == Streaming
    ensures var s := Run(actions);
            && Cursor(Turns(s, c, 4), c) == |s.history|
            && forall n: nat :: Cursor(Turns(s, c, n), c) < |s.history| ==>
                 Cursor(Turns(s, c, n + 1), c) > Cursor(Turns(s, c, n), c)
  {
    var s := Run(actions);
    EveryClientServed(actions);
    assert Delivered(s.clients[c], |s.history|);
    hide Run, Turns, Delivered, Reached, Cursor;
    CursorIs(s, c);
    CursorReaches(s, c, 4);
    Onward(|s.history|, Cursor(s, c), 0);
    forall n: nat | Cursor(Turns(s, c, n), c) < |s.history|
      ensures Cursor(Turns(s, c, n + 1), c) > Cursor(Turns(s, c, n), c)
    {
      CursorReaches(s, c, n);
      CursorReaches(s, c, n + 1);
      Onward(|s.history|, Cursor(s, c), n);
    }
  }

  lemma CursorIs(s: State, c: nat)
    requires c < |s.clients| && Delivered(s.clients[c], |s.history|)
    ensures Cursor(s, c) <= |s.history| && s.clients[c].upTo == Cursor(s, c)
  {
    hide Increasing, FellBehind;
  }

  // ---- Stopping ----

  /** Stream threads that have not finished. */
  function Active(clients: seq<Client>): nat {
    if clients == [] then 0
    else Active(clients[..|clients| - 1]) + if clients[|clients| - 1].phase == Gone then 0 else 1
  }

  predicate Counted(s: State) {
    && s.count == Active(s.clients) + (if s.spawning then 1 else 0)
    && (s.spawning ==> s.serving)
    && (s.stopped ==> s.stop && !s.serving && s.count == 0)
  }

  lemma {:induction false} ActiveUpdate(clients: seq<Client>, c: nat, x: Client)
    requires c < |clients|
    ensures Active(clients[c := x])
            == Active(clients) - (if clients[c].phase == Gone then 0 else 1) + if x.phase == Gone then 0 else 1
  {
    var n := |clients| - 1;
    if c < n {
      ActiveUpdate(clients[..n], c, x);
      assert clients[c := x][..n] == clients[..n][c := x];
    } else {
      assert clients[c := x][..n] == clients[..n];
    }
  }

  lemma {:induction false} NobodyActive(clients: seq<Client>)
    requires Active(clients) == 0
    ensures forall c :: 0 <= c < |clients| ==> clients[c].phase == Gone
  {
    if clients != [] {
      NobodyActive(clients[..|clients| - 1]);
    }
  }

  predicate OfClient(a: Action) {
    a.Connect? || a.Turn? || a.SeeStop? || a.Finish?
  }

  lemma ClientStepKeepsCount(s: State, a: Action)
    requires Counted(s) && Enabled(s, a) && OfClient(a)
    ensures Counted(Step(s, a))
  {
    ActiveUpdate(s.clients, a.c, ClientAfter(s, a));
    ClientPhases(s, a);
    hide AfterTurn, ClientAfter, Taken, Active;
  }

  /** Only the last step of a client makes it gone. */
  lemma ClientPhases(s: State, a: Action)
    requires Enabled(s, a) && OfClient(a)
    ensures s.clients[a.c].phase != Gone && (ClientAfter(s, a).phase == Gone <==> a.Finish?)
  {
    hide Taken, Numbers;
  }

  lemma SpawnKeepsCount(s: State)
    requires Counted(s) && s.spawning
    ensures Counted(Step(s, Spawn(true)))
  {
    hide ClientAfter;
    var x := Client(Starting, 0, 0, [], []);
    assert (s.clients + [x])[..|s.clients|] == s.clients;
  }

  lemma OtherStepKeepsCount(s: State, a: Action)
    requires Counted(s) && Enabled(s, a) && !OfClient(a) && a != Spawn(true)
    ensures Counted(Step(s, a))
  {
    hide ClientAfter, Active, Taken;
  }

  lemma StepKeepsCount(s: State, a: Action)
    requires Counted(s)
    ensures Counted(Step(s, a))
  {
    hide Step, Counted, ClientAfter, Active;
    if !Enabled(s, a) {
      StepIdle(s, a);
    } else if OfClient(a) {
      ClientStepKeepsCount(s, a);
    } else if a == Spawn(true) {
      SpawnKeepsCount(s);
    } else {
      OtherStepKeepsCount(s, a);
    }
  }

  lemma StepIdle(s: State, a: Action)
    requires !Enabled(s, a)
    ensures Step(s, a) == s
  {
  }

  lemma {:induction false} CountIsExact(actions: seq<Action>)
    ensures Counted(Run(actions))
  {
    if actions != [] {
      CountIsExact(actions[..|actions| - 1]);
      StepKeepsCount(Run(actions[..|actions| - 1]), actions[|actions| - 1]);
    }
  }

  lemma {:induction false} AllGoneIsZero(clients: seq<Client>)
    requires forall x :: x in clients ==> x.phase == Gone
    ensures Active(clients) == 0
  {
    if clients != [] {
      AllGoneIsZero(clients[..|clients| - 1]);
    }
  }

  /** The drain of `asb_api_stop` ends exactly when no stream thread remains. */
  lemma StopPassesIff(actions: seq<Action>)
    requires Run(actions).stop && !Run(actions).serving
    ensures Enabled(Run(actions), StopReturn) <==> forall x :: x in Run(actions).clients ==> x.phase == Gone
  {
    CountIsExact(actions);
    if Enabled(Run(actions), StopReturn) {
      NobodyActive(Run(actions).clients);
    } else if forall x :: x in Run(actions).clients ==> x.phase == Gone {
      AllGoneIsZero(Run(actions).clients);
    }
  }

  // ---- The drain ends ----

  /** A stream thread that has not finished. */
  function Unfinished(clients: seq<Client>): (r: Option<nat>)
    ensures r.Some? ==> r.value < |clients| && clients[r.value].phase != Gone
    ensures r == None ==> forall c :: 0 <= c < |clients| ==> clients[c].phase == Gone
  {
    if clients == [] then None
    else if clients[|clients| - 1].phase != Gone then Some(|clients| - 1)
    else Unfinished(clients[..|clients| - 1])
  }

  /** What it does next once it sees the stop flag; `connects` is whether the reply to the client can be sent. */
  function Leaves(s: State, c: nat, connects: bool): Action
    requires c < |s.clients|
  {
    match s.clients[c].phase
    case Starting => Connect(c, connects)
    case Streaming => SeeStop(c)
    case _ => Finish(c)
  }

  function StepsLeft(x: Client): nat {
    match x.phase case Starting => 3 case Streaming => 2 case Finishing => 1 case Gone => 0
  }

  function AllStepsLeft(clients: seq<Client>): nat {
    if clients == [] then 0 else AllStepsLeft(clients[..|clients| - 1]) + StepsLeft(clients[|clients| - 1])
  }

  lemma {:induction false} StepsLeftUpdate(clients: seq<Client>, c: nat, x: Client)
    requires c < |clients|
    ensures AllStepsLeft(clients[c := x]) == AllStepsLeft(clients) - StepsLeft(clients[c]) + StepsLeft(x)
  {
    var n := |clients| - 1;
    if c < n {
      StepsLeftUpdate(clients[..n], c, x);
      assert clients[c := x][..n] == clients[..n][c := x];
    } else {
      assert clients[c := x][..n] == clients[..n];
    }
  }

  /** The stream threads go on alone, `connects(k)` being how the k-th reply from the end fares. */
  function Drained(s: State, connects: nat -> bool, n: nat): State
    decreases n
  {
    var c := Unfinished(s.clients);
    if n == 0 || c == None then s else Drained(Step(s, Leaves(s, c.value, connects(n))), connects, n - 1)
  }

  /** The server thread has gone, and `asb_api_stop` waits. */
  predicate Draining(s: State) {
    && s.stop && !s.serving && !s.stopped && Counted(s)
    && forall c :: 0 <= c < |s.clients| ==> s.clients[c].upTo <= |s.history|
  }

  lemma LeavesDescends(s: State, c: nat, connects: bool)
    requires Draining(s) && c < |s.clients| && s.clients[c].phase != Gone
    ensures var t := Step(s, Leaves(s, c, connects));
            Draining(t) && AllStepsLeft(t.clients) < AllStepsLeft(s.clients)
  {
    var a := Leaves(s, c, connects);
    StepKeepsCount(s, a);
    StepsLeftUpdate(s.clients, c, ClientAfter(s, a));
    hide Counted, AllStepsLeft;
  }

  lemma {:induction false} DrainedEnds(s: State, connects: nat -> bool, n: nat)
    requires Draining(s) && n >= AllStepsLeft(s.clients)
    ensures Enabled(Drained(s, connects, n), StopReturn)
    decreases n
  {
    hide Step, Leaves;
    var c := Unfinished(s.clients);
    if c.Some? {
      LeavesDescends(s, c.value, connects(n));
      DrainedEnds(Step(s, Leaves(s, c.value, connects(n))), connects, n - 1);
    } else {
      AllGoneIsZero(s.clients);
    }
  }

  /** From every reachable state in which `asb_api_stop` waits, boundedly many steps of the threads let it pass. */
  lemma StopCompletes(actions: seq<Action>, connects: nat -> bool)
    requires Run(actions).stop && !Run(actions).serving && !Run(actions).stopped
    ensures var s := Run(actions);
            Enabled(Drained(s, connects, AllStepsLeft(s.clients)), StopReturn)
  {
    var s := Run(actions);
    CountIsExact(actions);
    EveryClientServed(actions);
    forall c | 0 <= c < |s.clients|
      ensures s.clients[c].upTo <= |s.history|
    {
      assert Delivered(s.clients[c], |s.history|);
    }
    DrainedEnds(s, connects, AllStepsLeft(s.clients));
  }

  /** Once `asb_api_stop` is past its drain no stream thread is left, and none appears. */
  lemma StopLeavesNobody(actions: seq<Action>, more: seq<Action>)
    requires Run(actions).stopped
    ensures forall x :: x in Run(actions).clients ==> x.phase == Gone
    ensures Run(actions + more).clients == Run(actions).clients
    decreases |more|
  {
    CountIsExact(actions);
    NobodyActive(Run(actions).clients);
    StoppedForGood(actions, more);
  }

  lemma {:induction false} StoppedForGood(actions: seq<Action>, more: seq<Action>)
    requires Run(actions).stopped
    ensures Run(actions + more).stopped && Run(actions + more).clients == Run(actions).clients
  {
    if more == [] {
      assert actions + more == actions;
    } else {
      var fewer := more[..|more| - 1];
      StoppedForGood(actions, fewer);
      var all := actions + more;
      assert all[..|all| - 1] == actions + fewer;
      CountIsExact(actions + fewer);
      NobodyActive(Run(actions + fewer).clients);
    }
  }
}
