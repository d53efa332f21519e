/**
 Life cycle of the host networks that the VMs of one mode share: one HCN network per
 mode, created by whoever starts first and deleted by whoever leaves last.

 A state is the VM table and the set of networks that exist; an event is one step of the
 UI thread, of a start or build thread, or of an exit observer. Threads interleave
 arbitrarily. `asb_vm_cleanup_network` is one step (`Leave`) or two (`CheckUse`, `LeaveLate`).
 */
module SharedNetwork {
  import opened Common

  type VmId = nat

  /** How far the start or build thread has got. */
  datatype Phase = Idle | Requested | NetworkUp | Ready | Created | Started | Failed

  /**
   One record. `joined` is the network that the endpoint of the current run is on; `leaving` counts the handlers between
   clearing `running` and their end, and `verdict` is what one of them that is inside the cleanup has decided.
   */
  datatype Vm = Vm(mode: int, running: bool, starting: bool, building: bool, cleaned: bool,
                   handle: bool, leaving: nat, verdict: Option<bool>, networkId: Option<int>,
                   phase: Phase, argsMode: int, argsNetwork: Option<int>, joined: Option<int>)

  datatype State = State(vms: map<VmId, Vm>, networks: set<int>)

  datatype Event =
    | StartRequest(v: VmId)
    | StartAborted(v: VmId)
    | StartNetwork(v: VmId, ok: bool)
    | StartEndpoint(v: VmId, ok: bool)
    | StartCreate(v: VmId, ok: bool)
    | StartBoot(v: VmId, ok: bool)
    | StartFinish(v: VmId)
    | BuildRequest(v: VmId, mode: int)
    | BuildImageFailed(v: VmId)
    | BuildNetwork(v: VmId, ok: bool)
    | BuildEndpoint(v: VmId, ok: bool)
    | BuildSystem(v: VmId, ok: bool)
    | BuildDone(v: VmId)
    | ExitSignal(v: VmId)
    | StopRequest(v: VmId)
    | DeleteRequest(v: VmId)
    | Leave(v: VmId, remove: bool)
    | CheckUse(v: VmId)
    | LeaveLate(v: VmId, remove: bool)
    | DropHandle(v: VmId)
    | RestartLive(v: VmId, ok: bool)
    | EditMode(v: VmId, mode: int)

  /** NAT, external and internal; mode 0 is no network and anything else is refused. */
  predicate Shared(mode: int) {
    1 <= mode <= 3
  }

  predicate Live(x: Vm) {
    x.running || x.starting || x.building
  }

  // ---- Cleanup ----

  predicate UsesMode(x: Vm, mode: int) {
    Live(x) && !x.cleaned && x.mode == mode
  }

  /** `another_vm_uses_network_mode`. */
  predicate AnotherUses(vms: map<VmId, Vm>, self: VmId, mode: int) {
    mode != 0 && exists w :: w in vms && w != self && UsesMode(vms[w], mode)
  }

  function DeleteNetwork(networks: set<int>, id: Option<int>): set<int> {
    match id
    case None => networks
    case Some(m) => networks - {m}
  }

  /** The end of the cleanup, `drop` being what the check decided. */
  function Committed(s: State, v: VmId, drop: bool): State
    requires v in s.vms
  {
    var x := s.vms[v];
    if x.mode == 0 || x.cleaned then s
    else State(s.vms[v := x.(cleaned := true, joined := None)],
               if drop then DeleteNetwork(s.networks, x.networkId) else s.networks)
  }

  /** `asb_vm_cleanup_network`, undisturbed. */
  function CleanedUp(s: State, v: VmId): State
    requires v in s.vms
  {
    Committed(s, v, !AnotherUses(s.vms, v, s.vms[v].mode))
  }

  // ---- Steps ----

  function GaveUp(x: Vm): Vm {
    x.(starting := false, phase := Idle)
  }

  function NewVm(mode: int): Vm {
    Vm(mode, false, false, true, false, false, 0, None, None, Requested, mode, None, None)
  }

  predicate Enabled(s: State, e: Event) {
    if e.BuildRequest? then e.v !in s.vms
    else
      e.v in s.vms &&
      var x := s.vms[e.v];
      match e
      case StartRequest(_) => !Live(x) && !x.handle
      case StartAborted(_) => x.starting && x.phase == Requested
      case StartNetwork(_, _) => x.starting && x.phase == Requested
      case StartEndpoint(_, ok) => x.starting && x.phase == NetworkUp && (ok ==> x.argsMode in s.networks)
      case StartCreate(_, _) => x.starting && x.phase == Ready
      case StartBoot(_, _) => x.starting && x.phase == Created
      case StartFinish(_) => x.starting && x.phase == Started
      case BuildRequest(_, _) => true
      case BuildImageFailed(_) => x.building && x.phase == Requested
      case BuildNetwork(_, _) => x.building && x.phase == Requested
      case BuildEndpoint(_, ok) => x.building && x.phase == NetworkUp && (ok ==> x.argsMode in s.networks)
      case BuildSystem(_, _) => x.building && x.phase == Ready
      case BuildDone(_) => x.building && (x.phase == Created || x.phase == Failed)
      case ExitSignal(_) => true
      case StopRequest(_) => x.running && !x.starting && !x.building
      case DeleteRequest(_) => !x.starting && !x.building
      case Leave(_, _) => x.leaving > 0
      case CheckUse(_) => x.leaving > 0 && x.verdict == None
      case LeaveLate(_, _) => x.leaving > 0 && x.verdict.Some?
      case DropHandle(_) => !Live(x)
      case RestartLive(_, _) => !Live(x) && x.handle
      case EditMode(_, m) => !Live(x) && 0 <= m <= 3
  }

  /** The record a step writes; leaving, and a build that fails early, are not of this kind. */
  function Written(s: State, e: Event): Vm
    requires e.v in s.vms
  {
    var x := s.vms[e.v];
    match e
    case StartRequest(_) =>
      x.(cleaned := false, starting := true, phase := Requested, argsMode := x.mode, joined := None)
    case StartAborted(_) => GaveUp(x)
    case StartNetwork(_, ok) =>
      if x.argsMode == 0 then x.(phase := Ready)
      else if Shared(x.argsMode) && ok then x.(phase := NetworkUp)
      else GaveUp(x)
    case StartEndpoint(_, ok) =>
      if ok then x.(phase := Ready, networkId := Some(x.argsMode), joined := Some(x.argsMode)) else GaveUp(x)
    case StartCreate(_, ok) =>
      if ok then x.(phase := Created, handle := true, mode := x.argsMode, running := false)
      else GaveUp(x).(joined := None)
    case StartBoot(_, ok) => if ok then x.(phase := Started, running := true) else GaveUp(x)
    case StartFinish(_) => GaveUp(x)
    case BuildNetwork(_, ok) =>
      if x.argsMode == 0 then x.(phase := Ready)
      else if Shared(x.argsMode) && ok then x.(phase := NetworkUp, argsNetwork := Some(x.argsMode))
      else x.(phase := Ready, argsMode := 0)
    case BuildEndpoint(_, ok) =>
      if ok then x.(phase := Ready, joined := Some(x.argsMode)) else x.(phase := Ready, argsMode := 0)
    case BuildSystem(_, ok) =>
      if ok then x.(phase := Created) else x.(phase := Failed, joined := None)
    case BuildDone(_) =>
      if x.phase == Created then
        x.(building := false, phase := Idle, running := true, handle := true, mode := x.argsMode,
           networkId := x.argsNetwork)
      else x.(building := false, phase := Idle)
    case ExitSignal(_) => if x.running then x.(running := false, leaving := x.leaving + 1) else x
    case StopRequest(_) => x.(running := false, leaving := x.leaving + 1, handle := false)
    case DeleteRequest(_) => x.(running := false, leaving := x.leaving + 1)
    case CheckUse(_) => x.(verdict := Some(!AnotherUses(s.vms, e.v, x.mode)))
    case DropHandle(_) => x.(handle := false)
    case RestartLive(_, ok) => if ok then x.(running := true) else x
    case EditMode(_, m) => x.(mode := m)
    case BuildRequest(_, _) => x
    case BuildImageFailed(_) => x
    case Leave(_, _) => x
    case LeaveLate(_, _) => x
  }

  /** Only creating a network adds one; an existing one is reused. */
  function NetworksAfter(s: State, e: Event): set<int>
    requires e.v in s.vms
  {
    var x := s.vms[e.v];
    if (e.StartNetwork? || e.BuildNetwork?) && e.ok && Shared(x.argsMode) then s.networks + {x.argsMode}
    else s.networks
  }

  /** The end of stop, exit and delete after a cleanup: close the handle, perhaps drop the record. */
  function Gone(c: State, v: VmId, remove: bool): State
    requires v in c.vms
  {
    if remove then State(c.vms - {v}, c.networks)
    else
      var x := c.vms[v];
      State(c.vms[v := x.(leaving := Max(0, x.leaving - 1), verdict := None, handle := false)], c.networks)
  }

  function Left(s: State, v: VmId, remove: bool): State
    requires v in s.vms
  {
    Gone(CleanedUp(s, v), v, remove)
  }

  function Step(s: State, e: Event): State {
    if !Enabled(s, e) then s
    else match e
      case BuildRequest(v, mode) => State(s.vms[v := NewVm(mode)], s.networks)
      case BuildImageFailed(v) => State(s.vms - {v}, s.networks)
      case Leave(v, remove) => Left(s, v, remove)
      case LeaveLate(v, remove) => Gone(Committed(s, v, s.vms[v].verdict.value), v, remove)
      case _ => State(s.vms[e.v := Written(s, e)], NetworksAfter(s, e))
  }

  function Run(s: State, events: seq<Event>): State {
    if events == [] then s else Step(Run(s, events[..|events| - 1]), events[|events| - 1])
  }

  /** After `asb_init`: no networks, nobody starting; VMs may have been found running. */
  predicate Initial(s: State) {
    && s.networks == {}
    && forall v :: v in s.vms ==> InitialVm(s.vms[v])
  }

  predicate InitialVm(x: Vm) {
    && !x.starting && !x.building && !x.cleaned && x.leaving == 0 && x.verdict == None && x.phase == Idle
    && x.joined == None && x.networkId == None
  }

  // ---- Safety, step by step ----

  predicate HasItsNetwork(x: Vm, networks: set<int>) {
    Live(x) && !x.cleaned && x.joined.Some? ==> x.joined.value in networks
  }

  /** Every uncleaned live VM that has joined a network still has it. */
  predicate Safe(s: State) {
    forall v :: v in s.vms ==> HasItsNetwork(s.vms[v], s.networks)
  }

  /** A live VM other than `self` is on network `m`. */
  predicate OthersOn(s: State, self: VmId, m: int) {
    exists w :: w in s.vms && w != self && On(s.vms[w], m)
  }

  predicate On(x: Vm, m: int) {
    Live(x) && !x.cleaned && x.joined == Some(m)
  }

  /** The cleanup of `v` would delete a network: it was not done yet, and `drop` says that nobody uses the mode. */
  predicate Deletes(s: State, v: VmId, drop: bool)
    requires v in s.vms
  {
    s.vms[v].mode != 0 && !s.vms[v].cleaned && drop && s.vms[v].networkId.Some?
  }

  /**
   The steps that take a network from a VM: a cleanup whose recorded network others are on although the scan by mode
   found no user, or found none earlier; and a restart on a live handle whose network is gone.
   */
  predicate Harmful(s: State, e: Event) {
    Enabled(s, e) &&
    match e
    case Leave(v, _) =>
      Deletes(s, v, !AnotherUses(s.vms, v, s.vms[v].mode)) && OthersOn(s, v, s.vms[v].networkId.value)
    case LeaveLate(v, _) =>
      Deletes(s, v, s.vms[v].verdict.value) && OthersOn(s, v, s.vms[v].networkId.value)
    case RestartLive(v, ok) =>
      ok && !s.vms[v].cleaned && s.vms[v].joined.Some? && s.vms[v].joined.value !in s.networks
    case _ => false
  }

  lemma WrittenSafeIff(s: State, e: Event)
    requires Enabled(s, e) && !e.BuildRequest? && !e.BuildImageFailed? && !e.Leave? && !e.LeaveLate?
    requires HasItsNetwork(s.vms[e.v], s.networks)
    ensures HasItsNetwork(Written(s, e), NetworksAfter(s, e)) <==> !Harmful(s, e)
  {
    hide AnotherUses;
  }

  lemma GoneSafeIff(s: State, v: VmId, drop: bool, remove: bool)
    requires v in s.vms && Safe(s)
    ensures Safe(Gone(Committed(s, v, drop), v, remove))
            <==> !(Deletes(s, v, drop) && OthersOn(s, v, s.vms[v].networkId.value))
  {
    var x, t := s.vms[v], Gone(Committed(s, v, drop), v, remove);
    assert forall w :: w in s.vms && w != v ==> w in t.vms && t.vms[w] == s.vms[w];
    if Deletes(s, v, drop) && OthersOn(s, v, x.networkId.value) {
      var w :| w in s.vms && w != v && On(s.vms[w], x.networkId.value);
      assert !HasItsNetwork(t.vms[w], t.networks);
    } else {
      forall w | w in t.vms
        ensures HasItsNetwork(t.vms[w], t.networks)
      {
        assert w in s.vms && HasItsNetwork(s.vms[w], s.networks);
        assert w != v && s.vms[w].joined.Some? ==>
            On(s.vms[w], s.vms[w].joined.value) || !Live(s.vms[w]) || s.vms[w].cleaned;
      }
    }
  }

  /** In every safe state, whatever led to it, a step is safe exactly when it is not one of the harmful ones. */
  lemma StepSafeIff(s: State, e: Event)
    requires Safe(s)
    ensures Safe(Step(s, e)) <==> !Harmful(s, e)
  {
    if Enabled(s, e) {
      if e.Leave? {
        GoneSafeIff(s, e.v, !AnotherUses(s.vms, e.v, s.vms[e.v].mode), e.remove);
      } else if e.LeaveLate? {
        GoneSafeIff(s, e.v, s.vms[e.v].verdict.value, e.remove);
      } else if !e.BuildRequest? && !e.BuildImageFailed? {
        WrittenSafeIff(s, e);
        OneRecordSafe(s, e.v, Written(s, e), NetworksAfter(s, e));
      }
    }
  }

  lemma OneRecordSafe(s: State, v: VmId, x: Vm, networks: set<int>)
    requires Safe(s) && v in s.vms && s.networks <= networks
    ensures Safe(State(s.vms[v := x], networks)) <==> HasItsNetwork(x, networks)
  {
    var t := State(s.vms[v := x], networks);
    assert t.vms[v] == x;
  }

  // ---- Safety, run by run ----

  predicate SafeThroughout(s: State, events: seq<Event>) {
    forall k :: 0 <= k <= |events| ==> Safe(Run(s, events[..k]))
  }

  predicate NoHarm(s: State, events: seq<Event>) {
    forall k :: 0 <= k < |events| ==> !Harmful(Run(s, events[..k]), events[k])
  }

  lemma RunPrefix(s: State, events: seq<Event>, k: nat)
    requires k < |events|
    ensures Run(s, events[..k + 1]) == Step(Run(s, events[..k]), events[k])
  {
    assert events[..k + 1][..k] == events[..k];
  }

  /** On every run whatsoever nobody loses a network in use exactly when no step of it is a harmful one. */
  lemma {:induction false} SafeIffNoHarm(s: State, events: seq<Event>)
    requires Safe(s)
    ensures SafeThroughout(s, events) <==> NoHarm(s, events)
  {
    hide Safe, Harmful, Run;
    assert events[..0] == [] && Run(s, []) == s by { RunNothing(s); }
    if SafeThroughout(s, events) {
      forall k | 0 <= k < |events|
        ensures !Harmful(Run(s, events[..k]), events[k])
      {
        RunPrefix(s, events, k);
        StepSafeIff(Run(s, events[..k]), events[k]);
      }
    }
    if NoHarm(s, events) {
      for k := 0 to |events|
        invariant forall j :: 0 <= j <= k ==> Safe(Run(s, events[..j]))
      {
        RunPrefix(s, events, k);
        StepSafeIff(Run(s, events[..k]), events[k]);
      }
    }
  }

  lemma RunNothing(s: State)
    ensures Run(s, []) == s
  {
  }

  // ---- Regular runs ----

  /** Nobody edits the network mode, and a cleanup is not interrupted. Restarts on live handles are allowed. */
  predicate Undisturbed(e: Event) {
    !e.EditMode? && !e.CheckUse? && !e.LeaveLate?
  }

  /** Besides, starts re-create the system. */
  predicate Regular(e: Event) {
    Undisturbed(e) && !e.RestartLive?
  }

  /** What every undisturbed step keeps of one record: a network joined is recorded, and is that of its mode. */
  predicate VmInv(x: Vm) {
    && (x.joined.Some? ==> x.joined.value == x.mode && Shared(x.mode))
    && (x.networkId.Some? ==> x.networkId.value == x.mode || x.mode == 0)
    && (x.building && x.argsNetwork.Some? ==> x.argsNetwork.value == x.mode)
    && (x.joined.Some? ==> x.joined == if x.building then x.argsNetwork else x.networkId)
    && (x.building && x.phase == NetworkUp ==> x.argsNetwork == Some(x.argsMode))
    && (x.starting ==> x.argsMode == x.mode && !x.building && x.phase != Idle && x.phase != Failed)
    && (x.building ==> x.argsMode == x.mode || (x.argsMode == 0 && x.joined == None))
    && (x.building ==> x.phase != Idle && x.phase != Started && !x.starting)
    && (x.building && x.phase == NetworkUp ==> x.argsMode == x.mode)
    && (x.phase == NetworkUp ==> Shared(x.argsMode))
    && (x.phase == Requested || x.phase == NetworkUp || x.phase == Failed ==> x.joined == None)
    && (!x.starting && !x.building ==> x.phase == Idle)
  }

  predicate Inv(s: State) {
    forall v :: v in s.vms ==> VmInv(s.vms[v])
  }

  predicate OfStart(e: Event) {
    || e.StartRequest? || e.StartAborted? || e.StartNetwork? || e.StartEndpoint? || e.StartCreate?
    || e.StartBoot? || e.StartFinish?
  }

  predicate OfBuild(e: Event) {
    e.BuildNetwork? || e.BuildEndpoint? || e.BuildSystem? || e.BuildDone?
  }

  lemma StartKeepsInv(s: State, e: Event)
    requires OfStart(e) && Enabled(s, e) && VmInv(s.vms[e.v])
    ensures VmInv(Written(s, e))
  {
  }

  lemma BuildKeepsInv(s: State, e: Event)
    requires OfBuild(e) && Enabled(s, e) && VmInv(s.vms[e.v])
    ensures VmInv(Written(s, e))
  {
  }

  lemma OtherKeepsInv(s: State, e: Event)
    requires !OfStart(e) && !OfBuild(e) && Enabled(s, e) && Undisturbed(e)
    requires !e.BuildRequest? && !e.BuildImageFailed? && !e.Leave?
    requires VmInv(s.vms[e.v])
    ensures VmInv(Written(s, e))
  {
  }

  lemma WrittenKeepsInv(s: State, e: Event)
    requires Enabled(s, e) && Undisturbed(e)
    requires !e.BuildRequest? && !e.BuildImageFailed? && !e.Leave?
    requires VmInv(s.vms[e.v])
    ensures VmInv(Written(s, e))
  {
    hide Enabled, Written, VmInv;
    if OfStart(e) {
      StartKeepsInv(s, e);
    } else if OfBuild(e) {
      BuildKeepsInv(s, e);
    } else {
      OtherKeepsInv(s, e);
    }
  }

  lemma CleanupKeepsInv(s: State, v: VmId, remove: bool)
    requires v in s.vms && Inv(s)
    ensures Inv(Left(s, v, remove))
  {
    hide AnotherUses;
    var c := CleanedUp(s, v);
    assert VmInv(s.vms[v]) && VmInv(c.vms[v]);
  }

  lemma StepKeepsInv(s: State, e: Event)
    requires Inv(s) && Undisturbed(e)
    ensures Inv(Step(s, e))
  {
    if Enabled(s, e) {
      if e.Leave? {
        CleanupKeepsInv(s, e.v, e.remove);
        hide Left;
      } else if e.BuildRequest? || e.BuildImageFailed? {
        hide Left;
      } else {
        WrittenKeepsInv(s, e);
        hide Written, Enabled, Left, VmInv;
        assert Step(s, e) == State(s.vms[e.v := Written(s, e)], NetworksAfter(s, e));
      }
    }
  }

  lemma {:induction false} RunKeepsInv(s: State, events: seq<Event>)
    requires Inv(s) && forall e :: e in events ==> Undisturbed(e)
    ensures Inv(Run(s, events))
  {
    if events != [] {
      RunKeepsInv(s, events[..|events| - 1]);
      StepKeepsInv(Run(s, events[..|events| - 1]), events[|events| - 1]);
    }
  }

  /** The last to leave takes the network with it only when nobody live is on it: the scan by mode finds every user. */
  lemma LeaveIsHarmless(s: State, v: VmId, remove: bool)
    requires Inv(s)
    ensures !Harmful(s, Leave(v, remove))
  {
    forall w, m | w in s.vms && On(s.vms[w], m)
      ensures UsesMode(s.vms[w], m)
    {
      assert VmInv(s.vms[w]);
    }
  }

  /** Every restart on a live handle finds the network that its VM is on. */
  predicate RestartsChecked(s: State, events: seq<Event>) {
    forall k :: 0 <= k < |events| && events[k].RestartLive? ==> !Harmful(Run(s, events[..k]), events[k])
  }

  lemma InitialIsSafe(s: State)
    requires Initial(s)
    ensures Safe(s) && Inv(s)
  {
  }

  /** Undisturbed runs are safe exactly when every restart on a live handle finds its network still there. */
  lemma {:induction false} LiveRestartsSafeIff(s: State, events: seq<Event>)
    requires Initial(s) && forall e :: e in events ==> Undisturbed(e)
    ensures SafeThroughout(s, events) <==> RestartsChecked(s, events)
  {
    InitialIsSafe(s);
    SafeIffNoHarm(s, events);
    forall k | 0 <= k < |events| && !events[k].RestartLive?
      ensures !Harmful(Run(s, events[..k]), events[k])
    {
      assert Undisturbed(events[k]) by { assert events[k] in events; }
      if events[k].Leave? {
        RunKeepsInv(s, events[..k]);
        LeaveIsHarmless(Run(s, events[..k]), events[k].v, events[k].remove);
      }
    }
    hide Harmful, SafeThroughout, Run;
  }

  /** Main result: on every regular run, in every interleaving, nobody loses a network in use. */
  lemma {:induction false} RunIsSafe(s: State, events: seq<Event>)
    requires Initial(s) && forall e :: e in events ==> Regular(e)
    ensures Safe(Run(s, events))
  {
    LiveRestartsSafeIff(s, events);
    forall k | 0 <= k < |events|
      ensures !events[k].RestartLive?
    {
      assert Regular(events[k]) by { assert events[k] in events; }
    }
    assert events[..|events|] == events;
  }

  // ---- One exit per run ----

  /** The exit observer that clears `running`: callback and monitor may both report, only this one goes on. */
  predicate WinsExit(s: State, e: Event, v: VmId) {
    e == ExitSignal(v) && v in s.vms && s.vms[v].running
  }

  /** A step that sets `running`. */
  predicate BeginsRun(s: State, e: Event, v: VmId) {
    Enabled(s, e) && e.v == v
    && ((e.StartBoot? && e.ok) || (e.RestartLive? && e.ok) || (e.BuildDone? && s.vms[v].phase == Created))
  }

  /** A user request that ends with a cleanup of its own. */
  predicate AsksToLeave(s: State, e: Event, v: VmId) {
    Enabled(s, e) && (e == StopRequest(v) || e == DeleteRequest(v))
  }

  predicate CleansUp(s: State, e: Event, v: VmId) {
    Enabled(s, e) && e.v == v && (e.Leave? || e.LeaveLate?)
  }

  function One(b: bool): nat {
    if b then 1 else 0
  }

  function Running(s: State, v: VmId): nat {
    One(v in s.vms && s.vms[v].running)
  }

  function Leaving(s: State, v: VmId): nat {
    if v in s.vms then s.vms[v].leaving else 0
  }

  function ExitsIn(s: State, events: seq<Event>, v: VmId): nat {
    if events == [] then 0
    else
      var n := |events| - 1;
      ExitsIn(s, events[..n], v) + One(WinsExit(Run(s, events[..n]), events[n], v))
  }

  function RunsIn(s: State, events: seq<Event>, v: VmId): nat {
    if events == [] then 0
    else
      var n := |events| - 1;
      RunsIn(s, events[..n], v) + One(BeginsRun(Run(s, events[..n]), events[n], v))
  }

  function RequestsIn(s: State, events: seq<Event>, v: VmId): nat {
    if events == [] then 0
    else
      var n := |events| - 1;
      RequestsIn(s, events[..n], v) + One(AsksToLeave(Run(s, events[..n]), events[n], v))
  }

  function CleanupsIn(s: State, events: seq<Event>, v: VmId): nat {
    if events == [] then 0
    else
      var n := |events| - 1;
      CleanupsIn(s, events[..n], v) + One(CleansUp(Run(s, events[..n]), events[n], v))
  }

  /** The record of `v` after a cleanup that keeps it. */
  lemma GoneRecord(s: State, v: VmId, drop: bool)
    requires v in s.vms
    ensures var t := Gone(Committed(s, v, drop), v, false);
            v in t.vms && t.vms[v].running == s.vms[v].running && t.vms[v].leaving == Max(0, s.vms[v].leaving - 1)
  {
    hide AnotherUses, DeleteNetwork;
  }

  lemma GoneOthers(s: State, v: VmId, drop: bool, remove: bool, w: VmId)
    requires v in s.vms && w != v
    ensures var t := Gone(Committed(s, v, drop), v, remove);
            (w in t.vms <==> w in s.vms) && (w in t.vms ==> t.vms[w] == s.vms[w])
  {
    hide AnotherUses, DeleteNetwork;
  }

  lemma WrittenCounts(s: State, e: Event)
    requires Enabled(s, e) && !e.BuildRequest? && !e.BuildImageFailed? && !e.Leave? && !e.LeaveLate?
    ensures One(WinsExit(s, e, e.v)) + One(Written(s, e).running) <= One(BeginsRun(s, e, e.v)) + One(s.vms[e.v].running)
    ensures Written(s, e).leaving <= One(WinsExit(s, e, e.v)) + One(AsksToLeave(s, e, e.v)) + s.vms[e.v].leaving
  {
    hide AnotherUses;
  }

  lemma StepCounts(s: State, e: Event, v: VmId)
    ensures One(WinsExit(s, e, v)) + Running(Step(s, e), v) <= One(BeginsRun(s, e, v)) + Running(s, v)
    ensures One(CleansUp(s, e, v)) + Leaving(Step(s, e), v)
            <= One(WinsExit(s, e, v)) + One(AsksToLeave(s, e, v)) + Leaving(s, v)
  {
    hide AnotherUses, DeleteNetwork, NetworksAfter;
    if Enabled(s, e) && (e.Leave? || e.LeaveLate?) {
      var drop := if e.Leave? then !AnotherUses(s.vms, e.v, s.vms[e.v].mode) else s.vms[e.v].verdict.value;
      if e.v == v { GoneRecord(s, v, drop); } else { GoneOthers(s, e.v, drop, e.remove, v); }
      hide Committed, Written;
    } else if Enabled(s, e) && !e.BuildRequest? && !e.BuildImageFailed? {
      WrittenCounts(s, e);
      hide Written, Gone, Committed;
    } else {
      hide Written, Gone, Committed;
    }
  }

  /** From any state on, exits are paid for by runs, and cleanups by exits and requests. */
  lemma {:induction false} WindowCounts(s: State, events: seq<Event>, v: VmId)
    ensures ExitsIn(s, events, v) + Running(Run(s, events), v) <= RunsIn(s, events, v) + Running(s, v)
    ensures CleanupsIn(s, events, v) + Leaving(Run(s, events), v)
            <= ExitsIn(s, events, v) + RequestsIn(s, events, v) + Leaving(s, v)
  {
    if events != [] {
      var n := |events| - 1;
      WindowCounts(s, events[..n], v);
      StepCounts(Run(s, events[..n]), events[n], v);
      hide Step, WinsExit, BeginsRun, CleansUp, AsksToLeave, Running, Leaving;
    }
  }

  /**
   Between any two moments of any run at which no new run of the VM begins, at most one exit observer gets through to
   the cleanup; none if the VM does not run at the first moment, and if one does, the VM does not run at the second.
   Without a request of the user, and with nobody leaving at first, that is one cleanup at most.
   */
  lemma {:induction false} ExitOncePerRun(s: State, before: seq<Event>, window: seq<Event>, v: VmId)
    requires RunsIn(Run(s, before), window, v) == 0
    ensures var from := Run(s, before);
            && ExitsIn(from, window, v) + Running(Run(from, window), v) <= Running(from, v) <= 1
            && CleanupsIn(from, window, v) <= 1 + RequestsIn(from, window, v) + Leaving(from, v)
  {
    WindowCounts(Run(s, before), window, v);
  }

  // ---- A late cleanup and a new run ----

  /** A running VM counts as a user of its network: the cleanup of an earlier run has not marked it. */
  predicate RunningUncleaned(s: State) {
    forall v :: v in s.vms && s.vms[v].running ==> !s.vms[v].cleaned
  }

  /** A handler of an earlier run cleans up a VM that runs again, or did so while it was starting. */
  predicate Tarnishes(s: State, e: Event) {
    Enabled(s, e) &&
    match e
    case Leave(v, remove) => !remove && s.vms[v].running && s.vms[v].mode != 0
    case LeaveLate(v, remove) => !remove && s.vms[v].running && s.vms[v].mode != 0
    case StartBoot(v, ok) => ok && s.vms[v].cleaned
    case RestartLive(v, ok) => ok && s.vms[v].cleaned
    case BuildDone(v) => s.vms[v].phase == Created && s.vms[v].cleaned
    case _ => false
  }

  lemma GoneUncleanedIff(s: State, v: VmId, drop: bool, remove: bool)
    requires v in s.vms && RunningUncleaned(s)
    ensures RunningUncleaned(Gone(Committed(s, v, drop), v, remove))
            <==> !(!remove && s.vms[v].running && s.vms[v].mode != 0)
  {
    var t := Gone(Committed(s, v, drop), v, remove);
    assert remove || (v in t.vms && t.vms[v].running == s.vms[v].running);
  }

  lemma WrittenUncleanedIff(s: State, e: Event)
    requires Enabled(s, e) && !e.BuildRequest? && !e.BuildImageFailed? && !e.Leave? && !e.LeaveLate?
    requires s.vms[e.v].running ==> !s.vms[e.v].cleaned
    ensures (Written(s, e).running ==> !Written(s, e).cleaned) <==> !Tarnishes(s, e)
  {
    hide AnotherUses;
  }

  /** Whatever led to a state in which running VMs count, a step keeps it so exactly when it is no such late cleanup. */
  lemma StepUncleanedIff(s: State, e: Event)
    requires RunningUncleaned(s)
    ensures RunningUncleaned(Step(s, e)) <==> !Tarnishes(s, e)
  {
    if Enabled(s, e) {
      if e.Leave? {
        GoneUncleanedIff(s, e.v, !AnotherUses(s.vms, e.v, s.vms[e.v].mode), e.remove);
      } else if e.LeaveLate? {
        GoneUncleanedIff(s, e.v, s.vms[e.v].verdict.value, e.remove);
      } else if !e.BuildRequest? && !e.BuildImageFailed? {
        WrittenUncleanedIff(s, e);
        hide Written, Enabled, Tarnishes;
        var t := Step(s, e);
        assert t.vms[e.v] == Written(s, e);
      }
    }
  }

  /** On every run whatsoever running VMs count at every moment exactly when no step of it is such a late cleanup. */
  lemma {:induction false} UncleanedIffNoTarnish(s: State, events: seq<Event>)
    requires RunningUncleaned(s)
    ensures (forall k :: 0 <= k <= |events| ==> RunningUncleaned(Run(s, events[..k])))
            <==> forall k :: 0 <= k < |events| ==> !Tarnishes(Run(s, events[..k]), events[k])
  {
    hide RunningUncleaned, Tarnishes, Run;
    assert events[..0] == [] && Run(s, []) == s by { RunNothing(s); }
    if forall k :: 0 <= k <= |events| ==> RunningUncleaned(Run(s, events[..k])) {
      forall k | 0 <= k < |events|
        ensures !Tarnishes(Run(s, events[..k]), events[k])
      {
        RunPrefix(s, events, k);
        StepUncleanedIff(Run(s, events[..k]), events[k]);
      }
    }
    if forall k :: 0 <= k < |events| ==> !Tarnishes(Run(s, events[..k]), events[k]) {
      for k := 0 to |events|
        invariant forall j :: 0 <= j <= k ==> RunningUncleaned(Run(s, events[..j]))
      {
        RunPrefix(s, events, k);
        StepUncleanedIff(Run(s, events[..k]), events[k]);
      }
    }
  }

  /** No VM that is live, or could be restarted on its handle, is marked as cleaned up. */
  predicate Unmarked(s: State) {
    forall v :: v in s.vms ==> UnmarkedVm(s.vms[v])
  }

  predicate UnmarkedVm(x: Vm) {
    Live(x) || x.handle ==> !x.cleaned
  }

  /** A handler reaches its cleanup while the VM runs again, or is being started. */
  predicate CleansLive(s: State, e: Event) {
    (e.Leave? || e.LeaveLate?) && Enabled(s, e) && !e.remove && Live(s.vms[e.v]) && s.vms[e.v].mode != 0
  }

  lemma WrittenUnmarked(s: State, e: Event)
    requires Enabled(s, e) && !e.BuildRequest? && !e.BuildImageFailed? && !e.Leave? && !e.LeaveLate?
    requires UnmarkedVm(s.vms[e.v])
    ensures UnmarkedVm(Written(s, e))
  {
    hide AnotherUses;
  }

  lemma GoneUnmarkedIff(s: State, v: VmId, drop: bool, remove: bool)
    requires v in s.vms && Unmarked(s)
    ensures Unmarked(Gone(Committed(s, v, drop), v, remove)) <==> !(!remove && Live(s.vms[v]) && s.vms[v].mode != 0)
  {
    var t := Gone(Committed(s, v, drop), v, remove);
    assert remove || (v in t.vms && Live(t.vms[v]) == Live(s.vms[v]));
  }

  lemma StepUnmarkedIff(s: State, e: Event)
    requires Unmarked(s)
    ensures Unmarked(Step(s, e)) <==> !CleansLive(s, e)
  {
    if Enabled(s, e) {
      if e.Leave? {
        GoneUnmarkedIff(s, e.v, !AnotherUses(s.vms, e.v, s.vms[e.v].mode), e.remove);
      } else if e.LeaveLate? {
        GoneUnmarkedIff(s, e.v, s.vms[e.v].verdict.value, e.remove);
      } else if !e.BuildRequest? && !e.BuildImageFailed? {
        WrittenUnmarked(s, e);
        hide Written, Enabled;
      }
    }
  }

  /** No VM that is live or restartable is marked, after the events and after every beginning of them. */
  predicate UnmarkedThroughout(s: State, events: seq<Event>) {
    Unmarked(Run(s, events)) && (events == [] || UnmarkedThroughout(s, events[..|events| - 1]))
  }

  predicate NeverCleansLive(s: State, events: seq<Event>) {
    events == []
    || (NeverCleansLive(s, events[..|events| - 1])
        && !CleansLive(Run(s, events[..|events| - 1]), events[|events| - 1]))
  }

  /** In terms of handlers alone: nothing is marked at any moment exactly when no handler cleans up a live VM. */
  lemma {:induction false} UnmarkedIffNeverCleansLive(s: State, events: seq<Event>)
    requires Unmarked(s)
    ensures UnmarkedThroughout(s, events) <==> NeverCleansLive(s, events)
  {
    hide Unmarked, CleansLive, Step;
    if events != [] {
      var front := events[..|events| - 1];
      UnmarkedIffNeverCleansLive(s, front);
      if UnmarkedThroughout(s, front) {
        StepUnmarkedIff(Run(s, front), events[|events| - 1]);
      }
    }
  }

  /** A start finds nobody still leaving. */
  predicate QuietStart(s: State, e: Event) {
    (e.StartRequest? || e.RestartLive?) && Enabled(s, e) ==> s.vms[e.v].leaving == 0
  }

  predicate QuietStarts(s: State, events: seq<Event>) {
    forall k :: 0 <= k < |events| ==> QuietStart(Run(s, events[..k]), events[k])
  }

  predicate QuietVm(x: Vm) {
    && (x.running ==> x.leaving == 0) && !(x.starting && x.building)
    && (x.running || x.handle ==> !x.cleaned)
    && ((x.starting && x.phase != Started) || x.building ==> x.leaving == 0 && !x.cleaned && !x.running)
  }

  predicate AllQuiet(s: State) {
    forall v :: v in s.vms ==> QuietVm(s.vms[v])
  }

  lemma WrittenKeepsQuiet(s: State, e: Event)
    requires Enabled(s, e) && !e.BuildRequest? && !e.BuildImageFailed? && !e.Leave? && !e.LeaveLate?
    requires QuietVm(s.vms[e.v]) && QuietStart(s, e)
    ensures QuietVm(Written(s, e))
  {
    hide AnotherUses;
  }

  lemma StepKeepsQuiet(s: State, e: Event)
    requires AllQuiet(s) && QuietStart(s, e)
    ensures AllQuiet(Step(s, e))
  {
    if Enabled(s, e) {
      if e.Leave? || e.LeaveLate? {
        hide AnotherUses, DeleteNetwork;
        assert QuietVm(s.vms[e.v]);
      } else if !e.BuildRequest? && !e.BuildImageFailed? {
        WrittenKeepsQuiet(s, e);
        hide Written, Enabled, QuietVm, QuietStart;
      }
    }
  }

  /** If no start overlaps the exit handler of an earlier run, running VMs always count, two-step cleanups included. */
  lemma {:induction false} QuietStartsStayUncleaned(s: State, events: seq<Event>)
    requires Initial(s) && QuietStarts(s, events)
    ensures AllQuiet(Run(s, events)) && RunningUncleaned(Run(s, events))
  {
    if events != [] {
      var n := |events| - 1;
      assert forall k :: 0 <= k < n ==> events[..n][..k] == events[..k] && events[..n][k] == events[k];
      QuietStartsStayUncleaned(s, events[..n]);
      assert QuietStart(Run(s, events[..n]), events[n]);
      StepKeepsQuiet(Run(s, events[..n]), events[n]);
    }
  }

  /** For the user: if starts are regular and find nobody leaving, every running VM that has joined a network has it. */
  lemma RunningKeepsNetwork(s: State, events: seq<Event>)
    requires Initial(s) && (forall e :: e in events ==> Regular(e)) && QuietStarts(s, events)
    ensures var t := Run(s, events);
            forall v :: v in t.vms && t.vms[v].running && t.vms[v].joined.Some? ==>
                          !t.vms[v].cleaned && t.vms[v].joined.value in t.networks
  {
    RunIsSafe(s, events);
    QuietStartsStayUncleaned(s, events);
    hide Run, QuietStarts, AllQuiet;
    var t := Run(s, events);
    forall v | v in t.vms && t.vms[v].running && t.vms[v].joined.Some?
      ensures !t.vms[v].cleaned && t.vms[v].joined.value in t.networks
    {
      assert HasItsNetwork(t.vms[v], t.networks);
    }
  }

  // ---- Runs that go wrong ----

  lemma RunSnoc(s: State, events: seq<Event>, e: Event)
    ensures Run(s, events + [e]) == Step(Run(s, events), e)
  {
    assert (events + [e])[..|events|] == events;
  }

  function Two(one: Vm, two: Vm, networks: set<int>): State {
    State(map[1 := one, 2 := two], networks)
  }

  /** A VM of mode 1 on its way, and what is left of it when the system is refused or does not boot. */
  const FRESH := Vm(1, false, false, false, false, false, 0, None, None, Idle, 0, None, None)
  const REQUESTED := Vm(1, false, true, false, false, false, 0, None, None, Requested, 1, None, None)
  const UP := Vm(1, false, true, false, false, false, 0, None, None, NetworkUp, 1, None, None)
  const JOINED := Vm(1, false, true, false, false, false, 0, None, Some(1), Ready, 1, None, Some(1))
  const CREATED := Vm(1, false, true, false, false, true, 0, None, Some(1), Created, 1, None, Some(1))
  const BOOTED := Vm(1, true, true, false, false, true, 0, None, Some(1), Started, 1, None, Some(1))
  const EXITED := Vm(1, false, false, false, false, true, 1, None, Some(1), Idle, 1, None, Some(1))
  const UNBOOTED := Vm(1, false, false, false, false, true, 0, None, Some(1), Idle, 1, None, Some(1))
  const REFUSED := Vm(1, false, false, false, false, false, 0, None, Some(1), Idle, 1, None, None)

  const TWO_STOPPED := Two(FRESH, FRESH, {})

  /** Which of the irregular steps a run may contain. */
  datatype Kinds = Kinds(edits: bool, restarts: bool, split: bool)

  predicate Fits(e: Event, k: Kinds) {
    && (e.EditMode? ==> k.edits) && (e.RestartLive? ==> k.restarts) && (e.CheckUse? || e.LeaveLate? ==> k.split)
  }

  ghost predicate Reached(events: seq<Event>, k: Kinds, s: State) {
    Run(TWO_STOPPED, events) == s && forall e :: e in events ==> Fits(e, k)
  }

  lemma Begin(k: Kinds)
    ensures Initial(TWO_STOPPED) && Reached([], k, TWO_STOPPED)
  {
  }

  lemma Act(before: seq<Event>, k: Kinds, s: State, e: Event, t: State) returns (events: seq<Event>)
    requires Reached(before, k, s) && Step(s, e) == t && Fits(e, k)
    ensures Reached(events, k, t)
  {
    RunSnoc(TWO_STOPPED, before, e);
    events := before + [e];
  }

  predicate Writes(e: Event) {
    !e.BuildRequest? && !e.BuildImageFailed? && !e.Leave? && !e.LeaveLate?
  }

  /** A step of VM 1 writes its record. */
  lemma One1(one: Vm, two: Vm, n: set<int>, e: Event)
    requires e.v == 1 && Writes(e) && Enabled(Two(one, two, n), e)
    ensures Step(Two(one, two, n), e) == Two(Written(Two(one, two, n), e), two, NetworksAfter(Two(one, two, n), e))
  {
    var x := Written(Two(one, two, n), e);
    hide Enabled, Written, NetworksAfter;
    assert map[1 := one, 2 := two][1 := x] == map[1 := x, 2 := two];
  }

  lemma One2(one: Vm, two: Vm, n: set<int>, e: Event)
    requires e.v == 2 && Writes(e) && Enabled(Two(one, two, n), e)
    ensures Step(Two(one, two, n), e) == Two(one, Written(Two(one, two, n), e), NetworksAfter(Two(one, two, n), e))
  {
    var x := Written(Two(one, two, n), e);
    hide Enabled, Written, NetworksAfter;
    assert map[1 := one, 2 := two][2 := x] == map[1 := one, 2 := x];
  }

  lemma ActOne(before: seq<Event>, k: Kinds, one: Vm, two: Vm, n: set<int>, e: Event, x: Vm)
    returns (events: seq<Event>)
    requires Reached(before, k, Two(one, two, n)) && Fits(e, k)
    requires e.v == 1 && Writes(e) && Enabled(Two(one, two, n), e) && Written(Two(one, two, n), e) == x
    ensures Reached(events, k, Two(x, two, NetworksAfter(Two(one, two, n), e)))
  {
    One1(one, two, n, e);
    hide *;
    events := Act(before, k, Two(one, two, n), e, Two(x, two, NetworksAfter(Two(one, two, n), e)));
  }

  lemma ActTwo(before: seq<Event>, k: Kinds, one: Vm, two: Vm, n: set<int>, e: Event, x: Vm)
    returns (events: seq<Event>)
    requires Reached(before, k, Two(one, two, n)) && Fits(e, k)
    requires e.v == 2 && Writes(e) && Enabled(Two(one, two, n), e) && Written(Two(one, two, n), e) == x
    ensures Reached(events, k, Two(one, x, NetworksAfter(Two(one, two, n), e)))
  {
    One2(one, two, n, e);
    hide *;
    events := Act(before, k, Two(one, two, n), e, Two(one, x, NetworksAfter(Two(one, two, n), e)));
  }

  /** VM 1 starts up to its endpoint ... */
  lemma OneJoins(before: seq<Event>, k: Kinds, two: Vm, n: set<int>) returns (events: seq<Event>)
    requires Reached(before, k, Two(FRESH, two, n))
    ensures Reached(events, k, Two(JOINED, two, n + {1}))
  {
    hide Reached, Step;
    events := ActOne(before, k, FRESH, two, n, StartRequest(1), REQUESTED);
    events := ActOne(events, k, REQUESTED, two, n, StartNetwork(1, true), UP);
    events := ActOne(events, k, UP, two, n + {1}, StartEndpoint(1, true), JOINED);
  }

  /** ... boots ... */
  lemma OneBoots(before: seq<Event>, k: Kinds, two: Vm, n: set<int>) returns (events: seq<Event>)
    requires Reached(before, k, Two(JOINED, two, n))
    ensures Reached(events, k, Two(BOOTED, two, n))
  {
    hide Reached, Step;
    events := ActOne(before, k, JOINED, two, n, StartCreate(1, true), CREATED);
    events := ActOne(events, k, CREATED, two, n, StartBoot(1, true), BOOTED);
  }

  /** ... and exits; its exit handler has not cleaned up yet. */
  lemma OneExits(before: seq<Event>, k: Kinds, two: Vm, n: set<int>) returns (events: seq<Event>)
    requires Reached(before, k, Two(BOOTED, two, n))
    ensures Reached(events, k, Two(EXITED, two, n))
  {
    hide Reached, Step;
    var running := BOOTED.(starting := false, phase := Idle);
    events := ActOne(before, k, BOOTED, two, n, StartFinish(1), running);
    events := ActOne(events, k, running, two, n, ExitSignal(1), EXITED);
  }

  lemma TwoJoins(before: seq<Event>, k: Kinds, one: Vm, n: set<int>) returns (events: seq<Event>)
    requires Reached(before, k, Two(one, FRESH, n))
    ensures Reached(events, k, Two(one, JOINED, n + {1}))
  {
    hide Reached, Step;
    events := ActTwo(before, k, one, FRESH, n, StartRequest(2), REQUESTED);
    events := ActTwo(events, k, one, REQUESTED, n, StartNetwork(2, true), UP);
    events := ActTwo(events, k, one, UP, n + {1}, StartEndpoint(2, true), JOINED);
  }

  lemma TwoBoots(before: seq<Event>, k: Kinds, one: Vm, n: set<int>) returns (events: seq<Event>)
    requires Reached(before, k, Two(one, JOINED, n))
    ensures Reached(events, k, Two(one, BOOTED, n))
  {
    hide Reached, Step;
    events := ActTwo(before, k, one, JOINED, n, StartCreate(2, true), CREATED);
    events := ActTwo(events, k, one, CREATED, n, StartBoot(2, true), BOOTED);
  }

  lemma TwoExits(before: seq<Event>, k: Kinds, one: Vm, n: set<int>) returns (events: seq<Event>)
    requires Reached(before, k, Two(one, BOOTED, n))
    ensures Reached(events, k, Two(one, EXITED, n))
  {
    hide Reached, Step;
    var running := BOOTED.(starting := false, phase := Idle);
    events := ActTwo(before, k, one, BOOTED, n, StartFinish(2), running);
    events := ActTwo(events, k, one, running, n, ExitSignal(2), EXITED);
  }

  /** VM 2 goes, and its recorded network with it, since VM 1 does not use its mode. */
  lemma LastOfItsMode(one: Vm, two: Vm, n: set<int>)
    requires two.leaving > 0 && !two.cleaned && two.mode != 0 && two.networkId == Some(1) && !UsesMode(one, two.mode)
    ensures Step(Two(one, two, n), Leave(2, true)) == State(map[1 := one], n - {1})
  {
    var s := Two(one, two, n);
    assert !AnotherUses(s.vms, 2, two.mode);
    assert Left(s, 2, true).vms == map[1 := one];
  }

  lemma TwoDeleted(before: seq<Event>, k: Kinds, one: Vm, two: Vm, n: set<int>) returns (events: seq<Event>)
    requires Reached(before, k, Two(one, two, n))
    requires !Live(two) && !two.cleaned && two.mode != 0 && two.networkId == Some(1) && !UsesMode(one, two.mode)
    ensures Reached(events, k, State(map[1 := one], n - {1}))
  {
    var x := two.(leaving := two.leaving + 1);
    events := ActTwo(before, k, one, two, n, DeleteRequest(2), x);
    LastOfItsMode(one, x, n);
    hide Reached, Step, Two;
    events := Act(events, k, Two(one, x, n), Leave(2, true), State(map[1 := one], n - {1}));
  }

  /** VM 1 is created but does not boot: its handle stays open, and it is no longer live. */
  lemma OneUnboots(before: seq<Event>, k: Kinds, two: Vm, n: set<int>) returns (events: seq<Event>)
    requires Reached(before, k, Two(JOINED, two, n))
    ensures Reached(events, k, Two(UNBOOTED, two, n))
  {
    hide Reached, Step;
    events := ActOne(before, k, JOINED, two, n, StartCreate(1, true), CREATED);
    events := ActOne(events, k, CREATED, two, n, StartBoot(1, false), UNBOOTED);
  }

  lemma StrandedRestart()
    ensures Step(State(map[1 := UNBOOTED], {}), RestartLive(1, true)) == State(map[1 := UNBOOTED.(running := true)], {})
    ensures !Safe(State(map[1 := UNBOOTED.(running := true)], {}))
  {
    var t := State(map[1 := UNBOOTED.(running := true)], {});
    assert !HasItsNetwork(t.vms[1], t.networks);
  }

  /** A restart on a live handle can run a VM whose network has been deleted meanwhile. */
  lemma LiveRestartLosesNetwork() returns (events: seq<Event>)
    ensures Initial(TWO_STOPPED) && forall e :: e in events ==> Fits(e, Kinds(false, true, false))
    ensures !Safe(Run(TWO_STOPPED, events))
  {
    var k := Kinds(false, true, false);
    Begin(k);
    StrandedRestart();
    hide Run, Step, Safe;
    events := OneJoins([], k, FRESH, {});
    events := OneUnboots(events, k, FRESH, {1});
    events := TwoJoins(events, k, UNBOOTED, {1});
    events := ActTwo(events, k, UNBOOTED, JOINED, {1}, StartCreate(2, false), REFUSED);
    events := TwoDeleted(events, k, UNBOOTED, REFUSED, {1});
    var t := State(map[1 := UNBOOTED.(running := true)], {});
    events := Act(events, k, State(map[1 := UNBOOTED], {}), RestartLive(1, true), t);
  }

  lemma OneStranded(n: set<int>)
    requires 1 !in n
    ensures !Safe(State(map[1 := JOINED], n))
  {
    assert !HasItsNetwork(State(map[1 := JOINED], n).vms[1], n);
  }

  lemma TwoRefusedAndEdited(before: seq<Event>, k: Kinds) returns (events: seq<Event>)
    requires Reached(before, k, Two(JOINED, JOINED, {1})) && k.edits
    ensures Reached(events, k, Two(JOINED, REFUSED.(mode := 2), {1}))
  {
    hide Reached, Step;
    events := ActTwo(before, k, JOINED, JOINED, {1}, StartCreate(2, false), REFUSED);
    events := ActTwo(events, k, JOINED, REFUSED, {1}, EditMode(2, 2), REFUSED.(mode := 2));
  }

  /** Deleting a VM whose mode was edited after a failed start can delete the network of another ... */
  lemma ModeEditLosesNetwork() returns (events: seq<Event>)
    ensures Initial(TWO_STOPPED) && forall e :: e in events ==> Fits(e, Kinds(true, false, false))
    ensures !Safe(Run(TWO_STOPPED, events))
  {
    var k := Kinds(true, false, false);
    Begin(k);
    OneStranded({});
    hide Run, Step, Safe;
    events := OneJoins([], k, FRESH, {});
    events := TwoJoins(events, k, JOINED, {1});
    events := TwoRefusedAndEdited(events, k);
    events := TwoDeleted(events, k, JOINED, REFUSED.(mode := 2), {1});
  }

  /** ... and so can deleting one that was edited after it had exited properly, when its next start fails. */
  lemma CleanExitEditLosesNetwork() returns (events: seq<Event>)
    ensures Initial(TWO_STOPPED) && forall e :: e in events ==> Fits(e, Kinds(true, false, false))
    ensures !Safe(Run(TWO_STOPPED, events))
  {
    var k := Kinds(true, false, false);
    Begin(k);
    OneStranded({});
    hide Run, Step, Safe;
    events := OneJoins([], k, FRESH, {});
    events := TwoJoins(events, k, JOINED, {1});
    events := TwoBoots(events, k, JOINED, {1});
    events := TwoExits(events, k, JOINED, {1});
    TwoLeaves(JOINED, {1});
    events := Act(events, k, Two(JOINED, EXITED, {1}), Leave(2, false), Two(JOINED, LEFT, {1}));
    events := EditedStartFails(events, k);
    events := TwoDeleted(events, k, JOINED, LEFT.(mode := 2, cleaned := false, argsMode := 2), {1});
  }

  /** A VM of mode 1 that has been running and has been cleaned up. */
  const LEFT := Vm(1, false, false, false, true, false, 0, None, Some(1), Idle, 1, None, None)

  /** VM 2 leaves while VM 1 uses its mode: the network stays. */
  lemma TwoLeaves(one: Vm, n: set<int>)
    requires UsesMode(one, 1)
    ensures Step(Two(one, EXITED, n), Leave(2, false)) == Two(one, LEFT, n)
  {
    var s := Two(one, EXITED, n);
    assert s.vms[1] == one && AnotherUses(s.vms, 2, 1);
  }

  lemma EditedStartFails(before: seq<Event>, k: Kinds) returns (events: seq<Event>)
    requires Reached(before, k, Two(JOINED, LEFT, {1})) && k.edits
    ensures Reached(events, k, Two(JOINED, LEFT.(mode := 2, cleaned := false, argsMode := 2), {1}))
  {
    hide Reached, Step;
    var edited := LEFT.(mode := 2);
    var asked := edited.(cleaned := false, starting := true, phase := Requested, argsMode := 2);
    events := ActTwo(before, k, JOINED, LEFT, {1}, EditMode(2, 2), edited);
    events := ActTwo(events, k, JOINED, edited, {1}, StartRequest(2), asked);
    events := ActTwo(events, k, JOINED, asked, {1}, StartNetwork(2, false), GaveUp(asked));
  }

  lemma LateDrop()
    ensures !Safe(Step(Two(EXITED.(verdict := Some(true)), JOINED, {1}), LeaveLate(1, false)))
  {
    var s, e := Two(EXITED.(verdict := Some(true)), JOINED, {1}), LeaveLate(1, false);
    assert s.vms[2] == JOINED && On(s.vms[2], 1) && OthersOn(s, 1, 1);
    assert Safe(s);
    StepSafeIff(s, e);
  }

  /** A VM that joins between the check and the delete loses its network: VM 1 decides, VM 2 joins, VM 1 deletes. */
  lemma SplitCleanupRace() returns (events: seq<Event>)
    ensures Initial(TWO_STOPPED) && forall e :: e in events ==> Fits(e, Kinds(false, false, true))
    ensures !Safe(Run(TWO_STOPPED, events))
  {
    var k := Kinds(false, false, true);
    Begin(k);
    LateDrop();
    hide Run, Step, Safe;
    events := OneJoins([], k, FRESH, {});
    events := OneBoots(events, k, FRESH, {1});
    events := OneExits(events, k, FRESH, {1});
    var decided := EXITED.(verdict := Some(true));
    assert !AnotherUses(Two(EXITED, FRESH, {1}).vms, 1, 1);
    events := ActOne(events, k, EXITED, FRESH, {1}, CheckUse(1), decided);
    events := TwoJoins(events, k, decided, {1});
    var s := Two(decided, JOINED, {1});
    events := Act(events, k, s, LeaveLate(1, false), Step(s, LeaveLate(1, false)));
  }

  lemma LateCleanup()
    ensures !RunningUncleaned(Step(Two(BOOTED.(leaving := 1), FRESH, {1}), Leave(1, false)))
  {
    var s := Two(BOOTED.(leaving := 1), FRESH, {1});
    assert RunningUncleaned(s);
    StepUncleanedIff(s, Leave(1, false));
  }

  /** The exit handler of one run can clean up the next: VM 1 exits and is started again before its handler goes on. */
  lemma LateCleanupTarnishes() returns (events: seq<Event>)
    ensures Initial(TWO_STOPPED) && forall e :: e in events ==> Fits(e, Kinds(false, false, false))
    ensures !RunningUncleaned(Run(TWO_STOPPED, events))
  {
    var k := Kinds(false, false, false);
    Begin(k);
    LateCleanup();
    hide Run, Step, RunningUncleaned;
    events := OneJoins([], k, FRESH, {});
    events := OneBoots(events, k, FRESH, {1});
    events := OneExits(events, k, FRESH, {1});
    events := ActOne(events, k, EXITED, FRESH, {1}, DropHandle(1), EXITED.(handle := false));
    events := OneJoinsAgain(events, k);
    var joined := JOINED.(leaving := 1);
    events := ActOne(events, k, joined, FRESH, {1}, StartCreate(1, true), CREATED.(leaving := 1));
    events := ActOne(events, k, CREATED.(leaving := 1), FRESH, {1}, StartBoot(1, true), BOOTED.(leaving := 1));
    var s := Two(BOOTED.(leaving := 1), FRESH, {1});
    events := Act(events, k, s, Leave(1, false), Step(s, Leave(1, false)));
  }

  lemma OneJoinsAgain(before: seq<Event>, k: Kinds) returns (events: seq<Event>)
    requires Reached(before, k, Two(EXITED.(handle := false), FRESH, {1}))
    ensures Reached(events, k, Two(JOINED.(leaving := 1), FRESH, {1}))
  {
    hide Reached, Step;
    var asked := REQUESTED.(leaving := 1, networkId := Some(1));
    var up := UP.(leaving := 1, networkId := Some(1));
    events := ActOne(before, k, EXITED.(handle := false), FRESH, {1}, StartRequest(1), asked);
    events := ActOne(events, k, asked, FRESH, {1}, StartNetwork(1, true), up);
    assert {1} + {1} == {1};
    events := ActOne(events, k, up, FRESH, {1}, StartEndpoint(1, true), JOINED.(leaving := 1));
  }

  // ---- The handlers ----

  datatype Answer = Done | AlreadySo | Refused

  datatype Boot = Booted | NoBoot | SystemGone

  predicate NoRepeats(order: seq<VmId>) {
    forall i, j :: 0 <= i < j < |order| ==> order[i] != order[j]
  }

  /** The table and the host networks, as the handlers update them between two interleaving points. */
  class Host {
    var vms: map<VmId, Vm>
    var order: seq<VmId>
    var networks: set<int>

    ghost predicate Valid()
      reads this
    {
      NoRepeats(order) && forall v :: v in order <==> v in vms
    }

    ghost function Abs(): State
      reads this
    {
      State(vms, networks)
    }

    method AnotherVmUsesNetworkMode(self: VmId, mode: int) returns (uses: bool)
      requires Valid()
      ensures uses == AnotherUses(vms, self, mode)
    {
      if mode == 0 {
        return false;
      }
      var i := 0;
      while i < |order|
        invariant 0 <= i <= |order|
        invariant forall j :: 0 <= j < i ==> order[j] == self || !UsesMode(vms[order[j]], mode)
      {
        var w := order[i];
        if w != self && (vms[w].running || vms[w].starting || vms[w].building)
           && !vms[w].cleaned && vms[w].mode == mode {
          return true;
        }
        i := i + 1;
      }
      return false;
    }

    method CleanupNetwork(v: VmId)
      requires Valid() && v in vms
      modifies this
      ensures Valid() && order == old(order) && vms.Keys == old(vms.Keys)
      ensures Abs() == CleanedUp(old(Abs()), v)
    {
      var x := vms[v];
      if x.mode == 0 { return; }
      if x.cleaned { return; }
      var uses := AnotherVmUsesNetworkMode(v, x.mode);
      if !uses && x.networkId.Some? {
        networks := networks - {x.networkId.value};
      }
      vms := vms[v := x.(cleaned := true, joined := None)];
    }

    /** The exit event: only the observer that clears `running` goes on. */
    method VmExited(v: VmId, isTemplate: bool)
      requires Valid() && v in vms
      modifies this
      ensures Valid()
      ensures Abs() == if old(vms[v].running)
                       then Step(Step(old(Abs()), ExitSignal(v)), Leave(v, isTemplate))
                       else old(Abs())
    {
      hide Left, AnotherUses;
      if !vms[v].running { return; }
      vms := vms[v := vms[v].(running := false, leaving := vms[v].leaving + 1)];
      assert Abs() == Step(old(Abs()), ExitSignal(v));
      FinishLeaving(v, isTemplate);
    }

    method FinishLeaving(v: VmId, remove: bool)
      requires Valid() && v in vms
      modifies this
      ensures Valid()
      ensures Abs() == Left(old(Abs()), v, remove)
    {
      CleanupNetwork(v);
      if remove {
        RemoveRecord(v);
      } else {
        vms := vms[v := vms[v].(leaving := Max(0, vms[v].leaving - 1), verdict := None, handle := false)];
      }
    }

    method RemoveRecord(v: VmId)
      requires Valid() && v in vms
      modifies this
      ensures Valid() && vms == old(vms) - {v} && networks == old(networks)
    {
      var i := 0;
      while order[i] != v
        invariant 0 <= i < |order| && v in order[i..]
        decreases |order| - i
      {
        i := i + 1;
      }
      order := order[..i] + order[i + 1..];
      vms := vms - {v};
    }

    method VmStop(v: VmId) returns (answer: Answer)
      requires Valid()
      modifies this
      ensures Valid()
      ensures v !in old(vms) || old(vms[v].starting || vms[v].building || !vms[v].running) ==>
                answer != Done && Abs() == old(Abs())
      ensures v in old(vms) && old(!vms[v].starting && !vms[v].building && vms[v].running) ==>
                answer == Done && Abs() == Step(Step(old(Abs()), StopRequest(v)), Leave(v, false))
    {
      hide Left, AnotherUses;
      if v !in vms || vms[v].starting || vms[v].building { return Refused; }
      if !vms[v].running { return AlreadySo; }
      vms := vms[v := vms[v].(running := false, leaving := vms[v].leaving + 1, handle := false)];
      assert Abs() == Step(old(Abs()), StopRequest(v));
      FinishLeaving(v, false);
      answer := Done;
    }

    /** `available` is whether the disk folder is usable at all, `removed` whether it could be removed. */
    method VmDelete(v: VmId, available: bool, removed: bool) returns (answer: Answer)
      requires Valid()
      modifies this
      ensures Valid()
      ensures v !in old(vms) || old(vms[v].starting || vms[v].building) || !available ==>
                answer == Refused && Abs() == old(Abs())
      ensures v in old(vms) && old(!vms[v].starting && !vms[v].building) && available ==>
                answer == Done && Abs() == Step(Step(old(Abs()), DeleteRequest(v)), Leave(v, removed))
    {
      hide Left, AnotherUses;
      if v !in vms || vms[v].building || vms[v].starting || !available { return Refused; }
      vms := vms[v := vms[v].(running := false, leaving := vms[v].leaving + 1)];
      assert Abs() == Step(old(Abs()), DeleteRequest(v));
      FinishLeaving(v, removed);
      answer := Done;
    }

    /**
     `asb_vm_start`. `prepared` is whether address, branch and writable disk could be made ready, `closes` whether that
     closed the handle, `boot` what `hcs_start_vm` says of a handle that is still open, and `thread` whether the start
     thread could be created. A start on a closed handle goes on on that thread.
     */
    method VmStart(v: VmId, prepared: bool, closes: bool, boot: Boot, thread: bool) returns (answer: Answer)
      requires Valid()
      modifies this
      ensures Valid()
      ensures v !in old(vms) || old(vms[v].starting || vms[v].building) ==> answer == Refused && Abs() == old(Abs())
      ensures v in old(vms) && old(!vms[v].starting && !vms[v].building && vms[v].running) ==>
                answer == AlreadySo && Abs() == old(Abs())
      ensures v in old(vms) && !Live(old(vms)[v]) && !prepared ==> answer == Refused && Abs() == old(Abs())
      ensures vms.Keys == old(vms.Keys) && forall w :: w in vms && w != v ==> vms[w] == old(vms[w])
      ensures answer == Done ==> v in vms && !old(Live(vms[v])) && Live(vms[v])
      ensures answer == Refused && v in vms && !old(Live(vms[v])) ==> !Live(vms[v])
      ensures v in old(vms) && !Live(old(vms)[v]) && prepared ==>
                var s := if closes then Step(old(Abs()), DropHandle(v)) else old(Abs());
                if !old(vms[v].handle) || closes then StartsOn(s, v, thread, answer, Abs())
                else match boot
                  case Booted => answer == Done && Abs() == Step(s, RestartLive(v, true))
                  case NoBoot => answer == Refused && Abs() == s
                  case SystemGone => StartsOn(Step(s, DropHandle(v)), v, thread, answer, Abs())
    {
      if v !in vms || vms[v].starting || vms[v].building { return Refused; }
      if vms[v].running { return AlreadySo; }
      if !prepared { return Refused; }
      ghost var s0 := Abs();
      hide Step, StartsOn;
      HandleSteps(s0, v);
      assert !vms[v].handle ==> vms[v := vms[v].(handle := false)] == vms;
      if closes && vms[v].handle {
        vms := vms[v := vms[v].(handle := false)];
      }
      ghost var s1 := if closes then Step(s0, DropHandle(v)) else s0;
      assert Abs() == s1;
      HandleSteps(s1, v);
      if vms[v].handle {
        match boot
        case Booted =>
          vms := vms[v := vms[v].(running := true)];
          assert Abs() == Step(s1, RestartLive(v, true));
          return Done;
        case NoBoot => return Refused;
        case SystemGone =>
          vms := vms[v := vms[v].(handle := false)];
          assert Abs() == Step(s1, DropHandle(v));
      }
      answer := StartThread(v, thread);
    }

    /** The branch for a closed handle. A thread that cannot be created leaves the record as it was, but not cleaned. */
    method StartThread(v: VmId, thread: bool) returns (answer: Answer)
      requires Valid() && v in vms && !Live(vms[v]) && !vms[v].handle
      modifies this
      ensures Valid() && StartsOn(old(Abs()), v, thread, answer, Abs())
      ensures vms.Keys == old(vms.Keys) && forall w :: w in vms && w != v ==> vms[w] == old(vms[w])
      ensures answer == (if thread then Done else Refused) && Live(vms[v]) == thread
    {
      vms := vms[v := vms[v].(cleaned := false, starting := true, phase := Requested,
                              argsMode := vms[v].mode, joined := None)];
      ghost var s := Abs();
      assert s == Step(old(Abs()), StartRequest(v));
      if !thread {
        vms := vms[v := vms[v].(starting := false, phase := Idle)];
        assert Abs() == Step(s, StartAborted(v));
        return Refused;
      }
      return Done;
    }
  }

  lemma HandleSteps(s: State, v: VmId)
    requires v in s.vms && !Live(s.vms[v])
    ensures var x := s.vms[v];
            && Step(s, DropHandle(v)) == State(s.vms[v := x.(handle := false)], s.networks)
            && (x.handle ==> Step(s, RestartLive(v, true)) == State(s.vms[v := x.(running := true)], s.networks))
  {
  }

  ghost predicate StartsOn(s: State, v: VmId, thread: bool, answer: Answer, t: State) {
    if thread then answer == Done && t == Step(s, StartRequest(v))
    else answer == Refused && t == Step(Step(s, StartRequest(v)), StartAborted(v))
  }
}
