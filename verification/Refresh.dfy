/**
 Refresh coalescing between the core and the window: any thread asks for a refresh by setting
 `g_refresh_pending` and posting one message; the UI thread clears the flag, and unless a command
 or an API call is active it reads the core and sends the lists.

 Each interlocked operation, post, and read of the core is one step; steps of all threads interleave
 freely. The core state is a version number, and a list is the version it was made from.
 */
module Refresh {
  import opened Common

  /** Where the UI thread is inside the WM_CORE_CHANGED handler. */
  datatype Phase = Outside | Dequeued | Cleared | VmsSent

  /**
   `pending` is `g_refresh_pending`; `posting` counts threads between its exchange and `PostMessage`, `queued` the
   messages in the queue; `emits` counts changes whose event is still to be emitted; `depth` is `g_command_depth`,
   `call` is `g_gui_call`; `ending` is a finished command or call about to ask for its refresh.
   */
  datatype State = State(version: nat, vmsSent: nat, templatesSent: nat, pending: bool, posting: nat, queued: nat,
                         emits: nat, phase: Phase, depth: nat, call: bool, ending: bool)

  datatype Action =
    /** A change of the core; one made by the running command or call may come without an event. */
    | Change(emits: bool)
    | Emit
    /** An event that no change of the lists stands behind. */
    | Nudge
    | Post(ok: bool)
    | Dequeue
    | Clear
    | Check
    | SendVms
    | SendTemplates
    /** The handlers that send the VM list on their own. */
    | Resend
    | BeginCommand
    | EndCommand
    | BeginCall
    | EndCall
    | AskAtEnd

  predicate Busy(s: State) {
    s.depth != 0 || s.call
  }

  predicate UiFree(s: State) {
    s.phase == Outside && !s.ending
  }

  predicate Enabled(s: State, a: Action) {
    match a
    case Change(emits) => emits || Busy(s)
    case Emit => s.emits > 0
    case Nudge => true
    case Post(_) => s.posting > 0
    case Dequeue => UiFree(s) && s.queued > 0
    case Clear => s.phase == Dequeued
    case Check => s.phase == Cleared && Busy(s)
    case SendVms => s.phase == Cleared && !Busy(s)
    case SendTemplates => s.phase == VmsSent
    case Resend => UiFree(s)
    case BeginCommand => UiFree(s)
    case EndCommand => UiFree(s) && s.depth != 0
    case BeginCall => UiFree(s)
    case EndCall => UiFree(s) && s.call
    case AskAtEnd => s.ending
  }

  /** `ui_refresh_from_core` up to its post: the exchange succeeds only if the flag was clear. */
  function Ask(s: State): State {
    if s.pending then s else s.(pending := true, posting := s.posting + 1)
  }

  function Step(s: State, a: Action): State {
    if !Enabled(s, a) then s
    else match a
      case Change(emits) => s.(version := s.version + 1, emits := s.emits + if emits then 1 else 0)
      case Emit => Ask(s.(emits := s.emits - 1))
      case Nudge => Ask(s)
      case Post(ok) => if ok then s.(posting := s.posting - 1, queued := s.queued + 1)
                       else s.(posting := s.posting - 1, pending := false)
      case Dequeue => s.(queued := s.queued - 1, phase := Dequeued)
      case Clear => s.(pending := false, phase := Cleared)
      case Check => s.(phase := Outside)
      case SendVms => s.(vmsSent := s.version, phase := VmsSent)
      case SendTemplates => s.(templatesSent := s.version, phase := Outside)
      case Resend => s.(vmsSent := s.version)
      case BeginCommand => if Busy(s) then s else s.(depth := s.depth + 1)
      case EndCommand => s.(depth := s.depth - 1, ending := true)
      case BeginCall => if Busy(s) then s else s.(call := true)
      case EndCall => s.(call := false, ending := true)
      case AskAtEnd => Ask(s.(ending := false))
  }

  function Run(s: State, actions: seq<Action>): State {
    if actions == [] then s else Step(Run(s, actions[..|actions| - 1]), actions[|actions| - 1])
  }

  /** The window has just sent its full state. */
  predicate Initial(s: State) {
    && s.vmsSent == s.templatesSent == s.version
    && !s.pending && s.posting == s.queued == 0 && s.phase == Outside && s.depth == 0 && !s.call && !s.ending
  }

  // ---- Safety ----

  /** Something will still ask for, or has asked for, a refresh. */
  predicate Due(s: State) {
    s.pending || s.emits > 0 || s.ending || Busy(s)
  }

  /** A list older than the core is going to be replaced. */
  predicate NothingLost(s: State) {
    && (s.vmsSent < s.version ==> Due(s) || s.phase == Cleared)
    && (s.templatesSent < s.version ==> Due(s) || s.phase == Cleared || s.phase == VmsSent)
  }

  /** At most one message is under way, and the flag says so; commands and calls exclude one another. */
  predicate Coalesced(s: State) {
    && s.posting + s.queued + (if s.phase == Dequeued then 1 else 0) == (if s.pending then 1 else 0)
    && s.depth + (if s.call then 1 else 0) + (if s.ending then 1 else 0) <= 1
    && (s.ending ==> s.phase == Outside)
  }

  ghost predicate Inv(s: State) {
    Coalesced(s) && NothingLost(s) && s.vmsSent <= s.version && s.templatesSent <= s.version
  }

  /** `PostMessageW` succeeds. */
  predicate Regular(a: Action) {
    a != Post(false)
  }

  lemma StepKeepsInv(s: State, a: Action)
    requires Inv(s) && Regular(a)
    ensures Inv(Step(s, a))
  {
  }

  lemma {:induction false} RunKeepsInv(s: State, actions: seq<Action>)
    requires Initial(s) && forall a :: a in actions ==> Regular(a)
    ensures Inv(Run(s, actions))
  {
    if actions != [] {
      RunKeepsInv(s, actions[..|actions| - 1]);
      StepKeepsInv(Run(s, actions[..|actions| - 1]), actions[|actions| - 1]);
    }
  }

  /** Nothing is under way: no message, no event, no command, no call, no handler. */
  predicate Quiet(s: State) {
    !s.pending && s.emits == 0 && s.phase == Outside && !Busy(s) && !s.ending
  }

  /** No refresh is lost: in every interleaving, when everything has come to rest the lists are those of the core. */
  lemma {:induction false} NoRefreshLost(s: State, actions: seq<Action>)
    requires Initial(s) && forall a :: a in actions ==> Regular(a)
    ensures NothingLost(Run(s, actions)) && Coalesced(Run(s, actions))
    ensures Quiet(Run(s, actions)) ==>
              Run(s, actions).vmsSent == Run(s, actions).templatesSent == Run(s, actions).version
  {
    RunKeepsInv(s, actions);
  }

  /** At every moment from `s` on, a command or call is active. */
  predicate BusyThroughout(s: State, actions: seq<Action>) {
    Busy(Run(s, actions)) && (actions == [] || BusyThroughout(s, actions[..|actions| - 1]))
  }

  /** While one is, the message handler sends nothing: only a handler of the window's own can replace the VM list. */
  lemma {:induction false} NothingSentWhileBusy(s: State, actions: seq<Action>)
    requires s.phase != VmsSent && BusyThroughout(s, actions) && forall a :: a in actions ==> a != Resend
    ensures var t := Run(s, actions);
            t.vmsSent == s.vmsSent && t.templatesSent == s.templatesSent && t.phase != VmsSent
  {
    if actions != [] {
      var front, a := actions[..|actions| - 1], actions[|actions| - 1];
      assert BusyThroughout(s, front) && Busy(Run(s, front)) && a in actions;
      assert forall b :: b in front ==> b in actions;
      hide Step, Busy;
      NothingSentWhileBusy(s, front);
      BusySendsNothing(Run(s, front), a);
    }
  }

  lemma BusySendsNothing(s: State, a: Action)
    requires Busy(s) && s.phase != VmsSent && a != Resend
    ensures var t := Step(s, a);
            t.vmsSent == s.vmsSent && t.templatesSent == s.templatesSent && t.phase != VmsSent
  {
  }

  // ---- Progress ----

  /** The next step of the machinery itself: no new change, command or call. */
  function Next(s: State): Option<Action> {
    if s.posting > 0 then Some(Post(true))
    else if s.phase == Dequeued then Some(Clear)
    else if s.phase == Cleared then Some(if Busy(s) then Check else SendVms)
    else if s.phase == VmsSent then Some(SendTemplates)
    else if s.ending then Some(AskAtEnd)
    else if s.depth != 0 then Some(EndCommand)
    else if s.call then Some(EndCall)
    else if s.emits > 0 then Some(Emit)
    else if s.queued > 0 then Some(Dequeue)
    else None
  }

  /** Steps still to go, at most. */
  function Rank(s: State): nat {
    5 * s.posting + 4 * s.queued
    + (match s.phase case Outside => 0 case Dequeued => 3 case Cleared => 2 case VmsSent => 1)
    + 6 * s.emits + (if s.ending then 6 else 0) + 7 * s.depth + (if s.call then 7 else 0)
  }

  function Settle(s: State, n: nat): State
    decreases n
  {
    if n == 0 || Next(s).None? then s else Settle(Step(s, Next(s).value), n - 1)
  }

  lemma NextDescends(s: State)
    requires Inv(s) && Next(s).Some?
    ensures Enabled(s, Next(s).value) && Rank(Step(s, Next(s).value)) < Rank(s)
    ensures Regular(Next(s).value) && Step(s, Next(s).value).version == s.version
  {
  }

  lemma {:induction false} SettleEnds(s: State, n: nat)
    requires Inv(s) && n >= Rank(s)
    ensures var e := Settle(s, n); Quiet(e) && e.vmsSent == e.templatesSent == e.version == s.version
    decreases n
  {
    if Next(s).Some? {
      NextDescends(s);
      StepKeepsInv(s, Next(s).value);
      SettleEnds(Step(s, Next(s).value), n - 1);
    }
  }

  /** From every reachable state the lists catch up with the core once commands end and threads go on. */
  lemma CatchesUp(s: State, actions: seq<Action>)
    requires Initial(s) && forall a :: a in actions ==> Regular(a)
    ensures var now := Run(s, actions);
            var e := Settle(now, Rank(now));
            e.vmsSent == e.templatesSent == e.version == now.version
  {
    RunKeepsInv(s, actions);
    SettleEnds(Run(s, actions), Rank(Run(s, actions)));
  }

  // ---- Posts that fail ----

  /** Without the message that could not be posted, something else still brings the lists up to date, or they are. */
  predicate Excused(s: State) {
    || s.emits > 0 || s.ending || Busy(s)
    || (&& (s.vmsSent == s.version || s.phase == Cleared)
        && (s.templatesSent == s.version || s.phase == Cleared || s.phase == VmsSent))
  }

  /** A step keeps every refresh exactly when it is no failing post without an excuse. */
  lemma StepKeepsInvIff(s: State, a: Action)
    requires Inv(s)
    ensures Inv(Step(s, a)) <==> !(a == Post(false) && Enabled(s, a) && !Excused(s))
  {
    if Regular(a) {
      StepKeepsInv(s, a);
    }
  }

  /** Every refresh was kept, after the actions and after every beginning of them. */
  ghost predicate KeptThroughout(s: State, actions: seq<Action>) {
    Inv(Run(s, actions)) && (actions == [] || KeptThroughout(s, actions[..|actions| - 1]))
  }

  predicate PostsExcused(s: State, actions: seq<Action>) {
    actions == []
    || var front, a := actions[..|actions| - 1], actions[|actions| - 1];
       PostsExcused(s, front) && !(a == Post(false) && Enabled(Run(s, front), a) && !Excused(Run(s, front)))
  }

  /** On every run, failing posts included, no refresh is ever lost exactly when each failing post has its excuse. */
  lemma {:induction false} KeptIffPostsExcused(s: State, actions: seq<Action>)
    requires Initial(s)
    ensures KeptThroughout(s, actions) <==> PostsExcused(s, actions)
  {
    if actions != [] {
      var front, a := actions[..|actions| - 1], actions[|actions| - 1];
      KeptIffPostsExcused(s, front);
      hide Step, Excused, Enabled, Inv;
      if KeptThroughout(s, front) {
        assert Inv(Run(s, front));
        StepKeepsInvIff(Run(s, front), a);
      }
    }
  }

  /** What even a failing post keeps. */
  predicate Sound(s: State) {
    Coalesced(s) && s.vmsSent <= s.version && s.templatesSent <= s.version
  }

  lemma StepKeepsSound(s: State, a: Action)
    requires Sound(s)
    ensures Sound(Step(s, a))
  {
  }

  lemma {:induction false} RunKeepsSound(s: State, actions: seq<Action>)
    requires Initial(s)
    ensures Sound(Run(s, actions))
  {
    if actions != [] {
      RunKeepsSound(s, actions[..|actions| - 1]);
      StepKeepsSound(Run(s, actions[..|actions| - 1]), actions[|actions| - 1]);
    }
  }

  /** An event, a change, or a command or call that begins or asks at its end. */
  predicate Recovers(s: State, a: Action) {
    Enabled(s, a) && (a.Emit? || a.Nudge? || a == Change(true) || a.BeginCommand? || a.BeginCall? || a.AskAtEnd?)
  }

  /** A refresh lost on any run whatsoever is made good by the next event, command or call. */
  lemma {:induction false} NextEventRestores(s: State, actions: seq<Action>, a: Action)
    requires Initial(s) && Recovers(Run(s, actions), a)
    ensures Inv(Step(Run(s, actions), a))
  {
    RunKeepsSound(s, actions);
    StepKeepsSound(Run(s, actions), a);
  }

  /** Until then the window can come to rest with an old list. */
  lemma FailedPostLoses(s: State)
    requires Initial(s) && s.emits == 0
    ensures var e := Run(s, [Change(true), Emit, Post(false)]);
            Quiet(e) && e.vmsSent < e.version
  {
    RunSnoc(s, [], Change(true));
    RunSnoc(s, [Change(true)], Emit);
    RunSnoc(s, [Change(true), Emit], Post(false));
    assert Run(s, []) == s && [] + [Change(true)] == [Change(true)];
    assert [Change(true)] + [Emit] == [Change(true), Emit];
    assert [Change(true), Emit] + [Post(false)] == [Change(true), Emit, Post(false)];
    hide Run;
  }

  lemma RunSnoc(s: State, actions: seq<Action>, a: Action)
    ensures Run(s, actions + [a]) == Step(Run(s, actions), a)
  {
    assert (actions + [a])[..|actions|] == actions;
  }
}
