/**
 What the life cycle of the host networks comes to: which network a VM records, who takes a network down and when one
 is left over, and how a whole start or build ends.
 */
module NetworkUse {
  import opened Common
  import opened SharedNetwork

  // ---- The network joined is the network recorded ----

  /** The record of a VM names the network it is on; a build carries it in its arguments until it is done. */
  predicate RecordedVm(x: Vm) {
    && !(x.starting && x.building) && !(x.running && x.building)
    && (x.joined.Some? && !x.building ==> x.networkId == x.joined)
    && (x.joined.Some? && x.building ==> x.argsNetwork == x.joined)
    && (x.building && x.phase == NetworkUp ==> x.argsNetwork == Some(x.argsMode))
    && (x.building && (x.phase == Requested || x.phase == NetworkUp || x.phase == Failed) ==> x.joined == None)
  }

  predicate Recorded(s: State) {
    forall v :: v in s.vms ==> RecordedVm(s.vms[v])
  }

  lemma WrittenKeepsRecorded(s: State, e: Event)
    requires Enabled(s, e) && !e.BuildRequest? && !e.BuildImageFailed? && !e.Leave? && !e.LeaveLate?
    requires RecordedVm(s.vms[e.v])
    ensures RecordedVm(Written(s, e))
  {
    hide AnotherUses;
  }

  lemma GoneKeepsRecorded(s: State, v: VmId, drop: bool, remove: bool)
    requires v in s.vms && Recorded(s)
    ensures Recorded(Gone(Committed(s, v, drop), v, remove))
  {
    hide DeleteNetwork;
    assert RecordedVm(s.vms[v]);
  }

  lemma StepKeepsRecorded(s: State, e: Event)
    requires Recorded(s)
    ensures Recorded(Step(s, e))
  {
    if Enabled(s, e) {
      if e.Leave? {
        GoneKeepsRecorded(s, e.v, !AnotherUses(s.vms, e.v, s.vms[e.v].mode), e.remove);
        hide Gone, Committed, AnotherUses, RecordedVm;
      } else if e.LeaveLate? {
        GoneKeepsRecorded(s, e.v, s.vms[e.v].verdict.value, e.remove);
        hide Gone, Committed, AnotherUses, RecordedVm;
      } else if !e.BuildRequest? && !e.BuildImageFailed? {
        WrittenKeepsRecorded(s, e);
        hide Written, Enabled, RecordedVm;
      }
    }
  }

  lemma {:induction false} RunKeepsRecorded(s: State, events: seq<Event>)
    requires Initial(s)
    ensures Recorded(Run(s, events))
  {
    if events != [] {
      RunKeepsRecorded(s, events[..|events| - 1]);
      hide Step, Initial, Recorded;
      StepKeepsRecorded(Run(s, events[..|events| - 1]), events[|events| - 1]);
    }
  }

  /** On every run whatsoever, started or built, a running VM that has joined a network has that one in its record. */
  lemma JoinedIsRecorded(s: State, events: seq<Event>, v: VmId)
    requires Initial(s) && v in Run(s, events).vms
    requires Run(s, events).vms[v].running && Run(s, events).vms[v].joined.Some?
    ensures Run(s, events).vms[v].networkId == Run(s, events).vms[v].joined
  {
    RunKeepsRecorded(s, events);
    hide Run;
    assert RecordedVm(Run(s, events).vms[v]);
  }

  /** So the handler that cleans up such a VM takes its network down exactly when no other VM uses its mode. */
  lemma LastLeaverFrees(s: State, events: seq<Event>, v: VmId, remove: bool)
    requires Initial(s) && forall e :: e in events ==> Undisturbed(e)
    requires v in Run(s, events).vms && Run(s, events).vms[v].joined.Some?
    requires Run(s, events).vms[v].leaving > 0 && !Run(s, events).vms[v].cleaned && !Run(s, events).vms[v].building
    ensures var t, m := Run(s, events), Run(s, events).vms[v].joined.value;
            && t.vms[v].mode == m
            && Step(t, Leave(v, remove)).networks == if AnotherUses(t.vms, v, m) then t.networks else t.networks - {m}
  {
    var t := Run(s, events);
    RunKeepsRecorded(s, events);
    InitialIsSafe(s);
    RunKeepsInv(s, events);
    hide Run, AnotherUses;
    assert RecordedVm(t.vms[v]) && VmInv(t.vms[v]);
  }

  // ---- No network is left over ----

  /** The VM keeps network `m` in being: it is live with that mode, or leaving with that network recorded. */
  predicate Holds(x: Vm, m: int) {
    !x.cleaned && x.mode == m && (Live(x) || (x.leaving > 0 && x.networkId == Some(m)))
  }

  predicate SomeoneHolds(vms: map<VmId, Vm>, m: int) {
    exists v :: v in vms && Holds(vms[v], m)
  }

  predicate OtherHolds(vms: map<VmId, Vm>, self: VmId, m: int) {
    exists v :: v in vms && v != self && Holds(vms[v], m)
  }

  /** No network exists without a holder. */
  predicate Held(s: State) {
    forall m :: m in s.networks ==> SomeoneHolds(s.vms, m)
  }

  /** After `asb_init`, nothing running. */
  predicate Stopped(s: State) {
    Initial(s) && forall v :: v in s.vms ==> !s.vms[v].running
  }

  predicate TidyVm(x: Vm) {
    && VmInv(x) && QuietVm(x) && RecordedVm(x)
    && (x.running && x.mode != 0 ==> x.joined == Some(x.mode))
    && (x.starting && x.mode != 0 && !x.cleaned && (x.phase == Ready || x.phase == Created || x.phase == Started) ==>
          x.joined == Some(x.mode))
    && (x.building && (x.phase == Ready || x.phase == Created) ==> x.argsMode == 0 || x.joined == Some(x.argsMode))
    && (x.starting && x.phase == Started && !x.cleaned && x.mode != 0 ==> x.running || x.leaving > 0)
  }

  predicate Tidy(s: State) {
    && (forall v :: v in s.vms ==> TidyVm(s.vms[v]))
    && forall m :: m in s.networks ==> Shared(m)
  }

  lemma WrittenKeepsTidy(s: State, e: Event)
    requires Enabled(s, e) && Regular(e) && QuietStart(s, e)
    requires !e.BuildRequest? && !e.BuildImageFailed? && !e.Leave?
    requires TidyVm(s.vms[e.v])
    ensures TidyVm(Written(s, e))
  {
    WrittenKeepsInv(s, e);
    WrittenKeepsQuiet(s, e);
    WrittenKeepsRecorded(s, e);
    hide AnotherUses, RecordedVm;
  }

  lemma LeaveKeepsTidy(s: State, v: VmId, remove: bool)
    requires v in s.vms && s.vms[v].leaving > 0 && Tidy(s)
    ensures Tidy(Left(s, v, remove))
  {
    hide AnotherUses;
    assert TidyVm(s.vms[v]);
  }

  lemma StepKeepsTidy(s: State, e: Event)
    requires Tidy(s) && Regular(e) && QuietStart(s, e)
    ensures Tidy(Step(s, e))
  {
    if Enabled(s, e) {
      if e.Leave? {
        LeaveKeepsTidy(s, e.v, e.remove);
        hide Left, TidyVm;
      } else if !e.BuildRequest? && !e.BuildImageFailed? {
        WrittenKeepsTidy(s, e);
        hide Written, TidyVm, Enabled;
      }
    }
  }

  /**
   A step after which its VM no longer keeps the network of its mode, although no cleanup has taken that down: a start
   that gives up, or a build that fails or ends without its network.
   */
  predicate GivesUp(s: State, e: Event) {
    Enabled(s, e) &&
    match e
    case StartAborted(_) => true
    case StartNetwork(v, ok) => s.vms[v].argsMode != 0 && !(Shared(s.vms[v].argsMode) && ok)
    case StartEndpoint(_, ok) => !ok
    case StartCreate(_, ok) => !ok
    case StartBoot(_, ok) => !ok
    case BuildImageFailed(_) => true
    case BuildDone(v) => s.vms[v].phase == Failed || s.vms[v].argsMode != s.vms[v].mode
    case _ => false
  }

  /** Such a step while the network is there and nobody else holds it. */
  predicate Abandons(s: State, e: Event) {
    GivesUp(s, e) && s.vms[e.v].mode in s.networks && !OtherHolds(s.vms, e.v, s.vms[e.v].mode)
  }

  /** What a step of its record, other than giving up, means for the networks the VM holds. */
  lemma WrittenHolds(s: State, e: Event, m: int)
    requires Enabled(s, e) && Regular(e) && !e.BuildRequest? && !e.BuildImageFailed? && !e.Leave?
    requires TidyVm(s.vms[e.v]) && Shared(m)
    ensures !GivesUp(s, e) && Holds(s.vms[e.v], m) ==> Holds(Written(s, e), m)
    ensures GivesUp(s, e) ==> !Holds(Written(s, e), m)
  {
    hide AnotherUses;
  }

  lemma WrittenNetworks(s: State, e: Event)
    requires Enabled(s, e) && Regular(e) && !e.BuildRequest? && !e.BuildImageFailed? && !e.Leave?
    requires TidyVm(s.vms[e.v])
    ensures s.networks <= NetworksAfter(s, e)
    ensures GivesUp(s, e) ==> NetworksAfter(s, e) == s.networks
    ensures forall m :: m in NetworksAfter(s, e) && m !in s.networks ==> Shared(m) && Holds(Written(s, e), m)
  {
    hide AnotherUses;
  }

  /** A record replaced by one that holds at least as much, and what it brings. */
  lemma MoreHeld(s: State, v: VmId, y: Vm, networks: set<int>)
    requires Held(s) && v in s.vms
    requires forall m :: m in s.networks && Holds(s.vms[v], m) ==> Holds(y, m)
    requires forall m :: m in networks && m !in s.networks ==> Holds(y, m)
    ensures Held(State(s.vms[v := y], networks))
  {
    hide Holds;
    var t := State(s.vms[v := y], networks);
    forall m | m in networks
      ensures SomeoneHolds(t.vms, m)
    {
      assert t.vms[v] == y;
      if m in s.networks && !Holds(y, m) {
        var w :| w in s.vms && Holds(s.vms[w], m);
        assert w in t.vms && t.vms[w] == s.vms[w];
      }
    }
  }

  /** A VM that holds nothing any more, its record there or not. */
  lemma LessHeldIff(s: State, v: VmId, vms: map<VmId, Vm>)
    requires Held(s) && v in s.vms
    requires forall w :: w != v ==> (w in vms <==> w in s.vms) && (w in vms ==> vms[w] == s.vms[w])
    requires v in vms ==> forall m :: m in s.networks ==> !Holds(vms[v], m)
    ensures Held(State(vms, s.networks))
            <==> !(s.vms[v].mode in s.networks && !OtherHolds(s.vms, v, s.vms[v].mode))
  {
    var t := State(vms, s.networks);
    forall m | m in s.networks
      ensures SomeoneHolds(vms, m) <==> OtherHolds(s.vms, v, m)
      ensures m != s.vms[v].mode ==> OtherHolds(s.vms, v, m)
    {
      if OtherHolds(s.vms, v, m) {
        var w :| w in s.vms && w != v && Holds(s.vms[w], m);
        assert w in vms && Holds(vms[w], m);
      }
      if m != s.vms[v].mode {
        var w :| w in s.vms && Holds(s.vms[w], m);
        assert w != v;
      }
    }
  }

  lemma LeaveHeld(s: State, v: VmId, remove: bool)
    requires Held(s) && Tidy(s) && v in s.vms && s.vms[v].leaving > 0
    ensures Held(Left(s, v, remove))
  {
    var x, t := s.vms[v], Left(s, v, remove);
    LeftNetworks(s, v, remove);
    forall m | m in t.networks
      ensures SomeoneHolds(t.vms, m)
    {
      var w :| w in s.vms && Holds(s.vms[w], m);
      if w == v {
        assert TidyVm(x) && Shared(m);
        assert x.mode == m && !x.cleaned && x.networkId == Some(m);
        var u :| u in s.vms && u != v && UsesMode(s.vms[u], m);
        assert u in t.vms && Holds(t.vms[u], m);
      } else {
        assert w in t.vms && Holds(t.vms[w], m);
      }
    }
  }

  lemma LeftNetworks(s: State, v: VmId, remove: bool)
    requires v in s.vms
    ensures var t, x := Left(s, v, remove), s.vms[v];
            && t.networks <= s.networks
            && (x.mode != 0 && !x.cleaned && x.networkId.Some? && x.networkId.value in t.networks ==>
                  AnotherUses(s.vms, v, x.mode))
            && forall w :: w != v ==> (w in t.vms <==> w in s.vms) && (w in t.vms ==> t.vms[w] == s.vms[w])
  {
    hide AnotherUses;
  }

  lemma StepHeldIff(s: State, e: Event)
    requires Held(s) && Tidy(s) && Regular(e) && QuietStart(s, e)
    ensures Held(Step(s, e)) <==> !Abandons(s, e)
  {
    if !Enabled(s, e) {
    } else if e.Leave? {
      LeaveHeld(s, e.v, e.remove);
      hide Left, Tidy;
    } else if e.BuildRequest? {
      NewHeld(s, e.v, NewVm(e.mode));
    } else if e.BuildImageFailed? {
      LessHeldIff(s, e.v, s.vms - {e.v});
      hide Held, OtherHolds;
    } else {
      assert TidyVm(s.vms[e.v]);
      WrittenNetworks(s, e);
      forall m | Shared(m)
        ensures !GivesUp(s, e) && Holds(s.vms[e.v], m) ==> Holds(Written(s, e), m)
        ensures GivesUp(s, e) ==> !Holds(Written(s, e), m)
      {
        WrittenHolds(s, e, m);
      }
      hide Written, Enabled, Held, OtherHolds, Holds, NetworksAfter, TidyVm, Shared;
      if GivesUp(s, e) {
        LessHeldIff(s, e.v, s.vms[e.v := Written(s, e)]);
      } else {
        MoreHeld(s, e.v, Written(s, e), NetworksAfter(s, e));
      }
      hide GivesUp;
    }
  }

  lemma NewHeld(s: State, v: VmId, y: Vm)
    requires Held(s) && v !in s.vms
    ensures Held(State(s.vms[v := y], s.networks))
  {
    hide Holds;
    var vms := s.vms[v := y];
    forall m | m in s.networks
      ensures SomeoneHolds(vms, m)
    {
      var w :| w in s.vms && Holds(s.vms[w], m);
      assert w in vms && vms[w] == s.vms[w];
    }
  }

  // ---- Run by run ----

  predicate HeldThroughout(s: State, events: seq<Event>) {
    Held(Run(s, events)) && (events == [] || HeldThroughout(s, events[..|events| - 1]))
  }

  predicate NeverAbandons(s: State, events: seq<Event>) {
    events == []
    || (NeverAbandons(s, events[..|events| - 1])
        && !Abandons(Run(s, events[..|events| - 1]), events[|events| - 1]))
  }

  lemma QuietFront(s: State, events: seq<Event>)
    requires events != [] && QuietStarts(s, events)
    ensures QuietStarts(s, events[..|events| - 1])
    ensures QuietStart(Run(s, events[..|events| - 1]), events[|events| - 1])
  {
    var n := |events| - 1;
    assert forall k :: 0 <= k < n ==> events[..n][..k] == events[..k] && events[..n][k] == events[k];
    hide QuietStart, Run;
  }

  lemma {:induction false} RunIsTidy(s: State, events: seq<Event>)
    requires Stopped(s) && (forall e :: e in events ==> Regular(e)) && QuietStarts(s, events)
    ensures Tidy(Run(s, events))
  {
    if events != [] {
      var n := |events| - 1;
      QuietFront(s, events);
      RunIsTidy(s, events[..n]);
      hide QuietStarts, QuietStart, Step, Tidy;
      StepKeepsTidy(Run(s, events[..n]), events[n]);
    }
  }

  /**
   On every regular run whose starts find no handler leaving, no network is ever without a VM that keeps it exactly when
   no start or build gives up as the only one to hold its network.
   */
  lemma {:induction false} HeldIffNeverAbandons(s: State, events: seq<Event>)
    requires Stopped(s) && (forall e :: e in events ==> Regular(e)) && QuietStarts(s, events)
    ensures HeldThroughout(s, events) <==> NeverAbandons(s, events)
  {
    if events == [] {
      assert Held(s);
    } else {
      var n := |events| - 1;
      QuietFront(s, events);
      RunIsTidy(s, events[..n]);
      HeldIffNeverAbandons(s, events[..n]);
      hide QuietStarts, QuietStart, Step, Tidy, Held, Abandons;
      if HeldThroughout(s, events[..n]) {
        StepHeldIff(Run(s, events[..n]), events[n]);
      }
    }
  }

  /** Then, once no VM is live and every handler is through, no network is left. */
  lemma NothingLeftOver(s: State, events: seq<Event>)
    requires Stopped(s) && (forall e :: e in events ==> Regular(e)) && QuietStarts(s, events)
    requires NeverAbandons(s, events)
    requires AllThrough(Run(s, events))
    ensures Run(s, events).networks == {}
  {
    HeldIffNeverAbandons(s, events);
    hide Run, NeverAbandons, QuietStarts, Stopped, Held, AllThrough;
    HeldByNobody(Run(s, events));
  }

  /** No VM is live, and no handler is under way. */
  predicate AllThrough(s: State) {
    forall v :: v in s.vms ==> !Live(s.vms[v]) && s.vms[v].leaving == 0
  }

  lemma HeldByNobody(t: State)
    requires Held(t) && AllThrough(t)
    ensures t.networks == {}
  {
    forall m
      ensures !SomeoneHolds(t.vms, m)
    {
    }
    assert forall m :: m !in t.networks;
  }

  // ---- A whole start, a whole build ----

  /** A VM by itself and the networks, which is all that most of its steps look at. */
  datatype Alone = Alone(x: Vm, networks: set<int>)

  function Next(a: Alone, e: Event): Alone {
    var s := State(map[e.v := a.x], a.networks);
    if Enabled(s, e) then Alone(Written(s, e), NetworksAfter(s, e)) else a
  }

  function Within(vms: map<VmId, Vm>, v: VmId, a: Alone): State {
    State(vms[v := a.x], a.networks)
  }

  lemma OneStep(vms: map<VmId, Vm>, v: VmId, a: Alone, e: Event)
    requires e.v == v && SharedNetwork.Writes(e) && !e.CheckUse?
    ensures Step(Within(vms, v, a), e) == Within(vms, v, Next(a, e))
  {
    var s, t := Within(vms, v, a), State(map[v := a.x], a.networks);
    assert Enabled(s, e) <==> Enabled(t, e);
    hide Enabled, NetworksAfter;
    if Enabled(s, e) {
      SameWritten(s, t, e);
      hide Written;
      assert vms[v := a.x][v := Written(s, e)] == vms[v := Written(s, e)];
    }
  }

  lemma SameWritten(s: State, t: State, e: Event)
    requires e.v in s.vms && e.v in t.vms && s.vms[e.v] == t.vms[e.v] && s.networks == t.networks && !e.CheckUse?
    ensures Written(s, e) == Written(t, e) && NetworksAfter(s, e) == NetworksAfter(t, e)
  {
    hide AnotherUses;
  }

  /** The steps of a start thread; those that come after a failure are not enabled and change nothing. */
  function StartOf(v: VmId, network: bool, endpoint: bool, created: bool, booted: bool): seq<Event> {
    [StartRequest(v), StartNetwork(v, network), StartEndpoint(v, endpoint), StartCreate(v, created),
     StartBoot(v, booted), StartFinish(v)]
  }

  lemma RunSix(s: State, a: Event, b: Event, c: Event, d: Event, e: Event, f: Event)
    ensures Run(s, [a, b, c, d, e, f]) == Step(Step(Step(Step(Step(Step(s, a), b), c), d), e), f)
  {
    hide Step;
    RunSnoc(s, [], a);
    RunSnoc(s, [a], b);
    RunSnoc(s, [a, b], c);
    RunSnoc(s, [a, b, c], d);
    RunSnoc(s, [a, b, c, d], e);
    RunSnoc(s, [a, b, c, d, e], f);
    RunNothing(s);
    hide Run;
    assert [] + [a] == [a] && [a] + [b] == [a, b] && [a, b] + [c] == [a, b, c] && [a, b, c] + [d] == [a, b, c, d];
    assert [a, b, c, d] + [e] == [a, b, c, d, e] && [a, b, c, d, e] + [f] == [a, b, c, d, e, f];
  }

  /** Its network is available: it asks for none, or gets it and an endpoint on it. */
  predicate Connects(mode: int, network: bool, endpoint: bool) {
    mode == 0 || (Shared(mode) && network && endpoint)
  }

  /** What the record of a stopped VM is after a start. */
  function AfterStart(x: Vm, network: bool, endpoint: bool, created: bool, booted: bool): Vm {
    var on := Connects(x.mode, network, endpoint);
    var id: Option<int> := Some(x.mode);
    x.(starting := false, cleaned := false, phase := Idle, argsMode := x.mode,
       networkId := if on && x.mode != 0 then id else x.networkId,
       joined := if on && x.mode != 0 && created then id else None,
       handle := on && created,
       running := on && created && booted)
  }

  function Requesting(x: Vm): Vm {
    x.(cleaned := false, starting := true, phase := Requested, argsMode := x.mode, joined := None)
  }

  /** The start thread on its record: the network, the endpoint ... */
  lemma StartConnects(x: Vm, v: VmId, networks: set<int>, network: bool, endpoint: bool)
    ensures var mode := x.mode;
            var id: Option<int> := Some(mode);
            var a := Alone(Requesting(x), networks);
            var b := Next(Next(a, StartNetwork(v, network)), StartEndpoint(v, endpoint));
            && b.networks == (if Shared(mode) && network then networks + {mode} else networks)
            && b.x == if !Connects(mode, network, endpoint) then GaveUp(Requesting(x))
                      else if mode == 0 then Requesting(x).(phase := Ready)
                      else Requesting(x).(phase := Ready, networkId := id, joined := id)
  {
  }

  /** ... the system. */
  lemma StartBoots(x: Vm, v: VmId, networks: set<int>, created: bool, booted: bool)
    ensures var a := Alone(x, networks);
            var b := Next(Next(Next(a, StartCreate(v, created)), StartBoot(v, booted)), StartFinish(v));
            && b.networks == networks
            && (!x.starting ==> b.x == x)
            && (x.starting && x.phase == Ready && !x.running && !x.handle && x.mode == x.argsMode ==>
                  b.x == if !created then GaveUp(x).(joined := None)
                         else GaveUp(x).(handle := true, running := booted))
  {
  }

  lemma StartSteps(vms: map<VmId, Vm>, v: VmId, a: Alone, network: bool, endpoint: bool, created: bool, booted: bool)
    ensures var s2 := Step(Within(vms, v, a), StartNetwork(v, network));
            var s3 := Step(s2, StartEndpoint(v, endpoint));
            var a3 := Next(Next(a, StartNetwork(v, network)), StartEndpoint(v, endpoint));
            Step(Step(Step(s3, StartCreate(v, created)), StartBoot(v, booted)), StartFinish(v))
            == Within(vms, v, Next(Next(Next(a3, StartCreate(v, created)), StartBoot(v, booted)), StartFinish(v)))
  {
    hide Step, Next, Within;
    var a2 := Next(a, StartNetwork(v, network));
    var a3 := Next(a2, StartEndpoint(v, endpoint));
    var a4 := Next(a3, StartCreate(v, created));
    OneStep(vms, v, a, StartNetwork(v, network));
    OneStep(vms, v, a2, StartEndpoint(v, endpoint));
    OneStep(vms, v, a3, StartCreate(v, created));
    OneStep(vms, v, a4, StartBoot(v, booted));
    OneStep(vms, v, Next(a4, StartBoot(v, booted)), StartFinish(v));
  }

  lemma StartBegins(s: State, v: VmId)
    requires Enabled(s, StartRequest(v))
    ensures Step(s, StartRequest(v)) == Within(s.vms, v, Alone(Requesting(s.vms[v]), s.networks))
    ensures !s.vms[v].running && !s.vms[v].handle
  {
  }

  /** How a start ends, whatever fails and whatever else is in the table. */
  lemma StartEnds(s: State, v: VmId, network: bool, endpoint: bool, created: bool, booted: bool)
    requires Enabled(s, StartRequest(v))
    ensures var x := s.vms[v];
            Run(s, StartOf(v, network, endpoint, created, booted))
            == State(s.vms[v := AfterStart(x, network, endpoint, created, booted)],
                     if Shared(x.mode) && network then s.networks + {x.mode} else s.networks)
  {
    var x := s.vms[v];
    hide Run, Step, Next, Enabled;
    var a := Alone(Requesting(x), s.networks);
    var a3 := Next(Next(a, StartNetwork(v, network)), StartEndpoint(v, endpoint));
    RunSix(s, StartRequest(v), StartNetwork(v, network), StartEndpoint(v, endpoint), StartCreate(v, created),
           StartBoot(v, booted), StartFinish(v));
    StartBegins(s, v);
    StartSteps(s.vms, v, a, network, endpoint, created, booted);
    StartConnects(x, v, s.networks, network, endpoint);
    StartBoots(a3.x, v, a3.networks, created, booted);
  }

  /** The steps of a build thread. */
  function BuildOf(v: VmId, mode: int, network: bool, endpoint: bool, created: bool): seq<Event> {
    [BuildRequest(v, mode), BuildNetwork(v, network), BuildEndpoint(v, endpoint), BuildSystem(v, created),
     BuildDone(v)]
  }

  lemma RunFive(s: State, a: Event, b: Event, c: Event, d: Event, e: Event)
    ensures Run(s, [a, b, c, d, e]) == Step(Step(Step(Step(Step(s, a), b), c), d), e)
  {
    hide Step;
    RunSnoc(s, [], a);
    RunSnoc(s, [a], b);
    RunSnoc(s, [a, b], c);
    RunSnoc(s, [a, b, c], d);
    RunSnoc(s, [a, b, c, d], e);
    RunNothing(s);
    hide Run;
    assert [] + [a] == [a] && [a] + [b] == [a, b] && [a, b] + [c] == [a, b, c] && [a, b, c] + [d] == [a, b, c, d];
    assert [a, b, c, d] + [e] == [a, b, c, d, e];
  }

  /** A new VM after its build; `argsMode` and `argsNetwork` are what the thread worked with. */
  function AfterBuild(mode: int, network: bool, endpoint: bool, created: bool): Vm {
    var on := Connects(mode, network, endpoint);
    var id: Option<int> := if Shared(mode) && network then Some(mode) else None;
    var argsMode := if on then mode else 0;
    if created then
      Vm(argsMode, true, false, false, false, true, 0, None, id, Idle, argsMode, id, if on then id else None)
    else
      Vm(mode, false, false, false, false, false, 0, None, None, Idle, argsMode, id, None)
  }

  lemma BuildAlone(v: VmId, mode: int, networks: set<int>, network: bool, endpoint: bool, created: bool)
    ensures var a := Alone(NewVm(mode), networks);
            var b := Next(Next(a, BuildNetwork(v, network)), BuildEndpoint(v, endpoint));
            Next(Next(b, BuildSystem(v, created)), BuildDone(v))
            == Alone(AfterBuild(mode, network, endpoint, created),
                     if Shared(mode) && network then networks + {mode} else networks)
  {
  }

  /** How a build ends once its disk is there: without its network the VM runs in mode 0. */
  lemma BuildEnds(s: State, v: VmId, mode: int, network: bool, endpoint: bool, created: bool)
    requires v !in s.vms
    ensures Run(s, BuildOf(v, mode, network, endpoint, created))
            == State(s.vms[v := AfterBuild(mode, network, endpoint, created)],
                     if Shared(mode) && network then s.networks + {mode} else s.networks)
  {
    hide Run, Step, Next, NewVm, AfterBuild, Shared;
    RunFive(s, BuildRequest(v, mode), BuildNetwork(v, network), BuildEndpoint(v, endpoint), BuildSystem(v, created),
            BuildDone(v));
    BuildBegins(s, v, mode);
    BuildSteps(s.vms[v := NewVm(mode)], v, Alone(NewVm(mode), s.networks), network, endpoint, created);
    BuildAlone(v, mode, s.networks, network, endpoint, created);
    assert s.vms[v := NewVm(mode)][v := AfterBuild(mode, network, endpoint, created)]
        == s.vms[v := AfterBuild(mode, network, endpoint, created)];
  }

  lemma BuildSteps(vms: map<VmId, Vm>, v: VmId, a: Alone, network: bool, endpoint: bool, created: bool)
    ensures var s := Step(Step(Within(vms, v, a), BuildNetwork(v, network)), BuildEndpoint(v, endpoint));
            var b := Next(Next(a, BuildNetwork(v, network)), BuildEndpoint(v, endpoint));
            Step(Step(s, BuildSystem(v, created)), BuildDone(v))
            == Within(vms, v, Next(Next(b, BuildSystem(v, created)), BuildDone(v)))
  {
    hide Step, Next, Within;
    var a2 := Next(a, BuildNetwork(v, network));
    var a3 := Next(a2, BuildEndpoint(v, endpoint));
    OneStep(vms, v, a, BuildNetwork(v, network));
    OneStep(vms, v, a2, BuildEndpoint(v, endpoint));
    OneStep(vms, v, a3, BuildSystem(v, created));
    OneStep(vms, v, Next(a3, BuildSystem(v, created)), BuildDone(v));
  }

  lemma BuildBegins(s: State, v: VmId, mode: int)
    requires v !in s.vms
    ensures Step(s, BuildRequest(v, mode)) == Within(s.vms[v := NewVm(mode)], v, Alone(NewVm(mode), s.networks))
  {
  }

  /** How an exit, a stop or a delete ends: nobody else's record changes, and the VM is down, closed and cleaned up. */
  lemma LeavingEnds(s: State, v: VmId, e: Event, remove: bool)
    requires e == ExitSignal(v) || e == StopRequest(v) || e == DeleteRequest(v)
    requires Enabled(s, e) && (e.ExitSignal? ==> s.vms[v].running)
    ensures var x, t := s.vms[v], Step(Step(s, e), Leave(v, remove));
            && (forall w :: w != v ==> (w in t.vms <==> w in s.vms) && (w in t.vms ==> t.vms[w] == s.vms[w]))
            && (v in t.vms <==> !remove)
            && (!remove ==>
                  && !t.vms[v].running && !t.vms[v].handle && t.vms[v].leaving == x.leaving
                  && (x.mode != 0 ==> t.vms[v].cleaned && (!x.cleaned ==> t.vms[v].joined == None))
                  && t.vms[v].mode == x.mode && t.vms[v].networkId == x.networkId)
            && t.networks == if x.mode == 0 || x.cleaned || x.networkId == None || AnotherUses(s.vms, v, x.mode)
                             then s.networks else s.networks - {x.networkId.value}
  {
    LeavingBegins(s, v, e);
    var s1 := Step(s, e);
    OthersUse(s, v, s1.vms[v], s.vms[v].mode);
    hide Step, AnotherUses, Enabled;
    CleanupEnds(s1, v, remove);
  }

  lemma LeavingBegins(s: State, v: VmId, e: Event)
    requires e == ExitSignal(v) || e == StopRequest(v) || e == DeleteRequest(v)
    requires Enabled(s, e) && (e.ExitSignal? ==> s.vms[v].running)
    ensures var x, s1 := s.vms[v], Step(s, e);
            && v in s1.vms && s1 == State(s.vms[v := s1.vms[v]], s.networks)
            && s1.vms[v] == x.(running := false, leaving := x.leaving + 1, handle := s1.vms[v].handle)
  {
    hide AnotherUses;
    assert Step(s, e).vms == s.vms[v := Written(s, e)];
  }

  lemma CleanupEnds(s: State, v: VmId, remove: bool)
    requires v in s.vms && s.vms[v].leaving > 0
    ensures var x, t := s.vms[v], Step(s, Leave(v, remove));
            && (forall w :: w != v ==> (w in t.vms <==> w in s.vms) && (w in t.vms ==> t.vms[w] == s.vms[w]))
            && (v in t.vms <==> !remove)
            && (!remove ==>
                  && t.vms[v].running == x.running && !t.vms[v].handle && t.vms[v].leaving == x.leaving - 1
                  && (x.mode != 0 ==> t.vms[v].cleaned && (!x.cleaned ==> t.vms[v].joined == None))
                  && t.vms[v].mode == x.mode && t.vms[v].networkId == x.networkId)
            && t.networks == if x.mode == 0 || x.cleaned || x.networkId == None || AnotherUses(s.vms, v, x.mode)
                             then s.networks else s.networks - {x.networkId.value}
  {
    hide AnotherUses;
  }

  lemma OthersUse(s: State, v: VmId, y: Vm, mode: int)
    ensures AnotherUses(s.vms[v := y], v, mode) <==> AnotherUses(s.vms, v, mode)
  {
    hide UsesMode;
    var vms := s.vms[v := y];
    assert forall w :: w != v ==> (w in vms <==> w in s.vms) && (w in vms ==> vms[w] == s.vms[w]);
  }

  /** A start that gets its network but no endpoint leaves the network without a holder. */
  lemma RefusedStartLeavesNetwork(v: VmId, mode: int)
    requires Shared(mode)
    ensures var x := Vm(mode, false, false, false, false, false, 0, None, None, Idle, 0, None, None);
            var s := State(map[v := x], {});
            var t := Run(s, StartOf(v, true, false, true, true));
            Stopped(s) && AllThrough(t) && t.networks == {mode} && !Held(t)
  {
    var x := Vm(mode, false, false, false, false, false, 0, None, None, Idle, 0, None, None);
    var s := State(map[v := x], {});
    StartEnds(s, v, true, false, true, true);
    var t := Run(s, StartOf(v, true, false, true, true));
    hide Run;
    assert t.networks == {mode};
    assert AllThrough(t);
    if Held(t) {
      HeldByNobody(t);
    }
  }
}
