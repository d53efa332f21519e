/**
 The windows of `ui.c`: three parallel arrays hold, per slot, an RDP window, an IDD window and
 the id of the VM they show. `reconcile_displays` moves every window to the slot of its VM's
 current index and destroys the windows of VMs that are gone or stopped.

 A window is a number, 0 for none. The UI thread reads one state of the VM table in a call.
 */
module DisplayWindows {
  import opened Common

  const SLOTS: nat := MAX_VMS

  datatype Vm = Vm(id: nat, running: bool)

  /** What the table guarantees: at most 32 live VMs, with distinct non-zero ids. */
  predicate IsTable(t: seq<Vm>) {
    && |t| <= SLOTS
    && (forall i :: 0 <= i < |t| ==> t[i].id != 0)
    && forall i, j :: 0 <= i < j < |t| ==> t[i].id != t[j].id
  }

  /** A slot with this id belongs at index `idx`. */
  predicate Home(t: seq<Vm>, id: nat, idx: int) {
    0 <= idx < |t| && t[idx].id == id && t[idx].running
  }

  predicate Homeless(t: seq<Vm>, id: nat) {
    forall idx | 0 <= idx < |t| :: !Home(t, id, idx)
  }

  predicate DistinctSlots(ids: seq<nat>) {
    forall i, j :: 0 <= i < j < |ids| && ids[i] != 0 ==> ids[i] != ids[j]
  }

  /** Every used slot is the one of its running VM. */
  predicate Aligned(t: seq<Vm>, ids: seq<nat>) {
    forall i :: 0 <= i < |ids| && ids[i] != 0 ==> Home(t, ids[i], i)
  }

  lemma AlignedIsDistinct(t: seq<Vm>, ids: seq<nat>)
    requires IsTable(t) && Aligned(t, ids)
    ensures DistinctSlots(ids)
  {
    forall i, j | 0 <= i < j < |ids| && ids[i] != 0
      ensures ids[i] != ids[j]
    {
      assert Home(t, ids[i], i);
    }
  }

  /** The windows in some slots. */
  function Live(windows: seq<nat>): multiset<nat> {
    multiset(windows)[0 := 0]
  }

  function One(window: nat): multiset<nat> {
    if window == 0 then multiset{} else multiset{window}
  }

  /** The windows in slots whose VM has no home. */
  function Lost(t: seq<Vm>, windows: seq<nat>, ids: seq<nat>): multiset<nat>
    requires |windows| == |ids|
  {
    if windows == [] then multiset{}
    else
      var n := |windows| - 1;
      Lost(t, windows[..n], ids[..n]) + if Homeless(t, ids[n]) then One(windows[n]) else multiset{}
  }

  /**
   Where the windows of the first `n` slots are: in the home of their slot's id; and a slot that is the home of none
   of them is empty.
   */
  ghost predicate Moved(t: seq<Vm>, was: seq<nat>, ids: seq<nat>, n: nat, now: seq<nat>) {
    && n <= |was| == |ids| == |now| == SLOTS
    && (forall i, idx {:trigger Home(t, ids[i], idx)} | 0 <= i < n && Home(t, ids[i], idx) ::
          idx < |now| && now[idx] == was[i])
    && forall idx | 0 <= idx < |now| && NobodysHome(t, ids, n, idx) :: now[idx] == 0
  }

  predicate NobodysHome(t: seq<Vm>, ids: seq<nat>, n: nat, idx: int)
    requires n <= |ids|
  {
    forall i :: 0 <= i < n ==> !Home(t, ids[i], idx)
  }

  /** A home is free until its window comes: no slot is overwritten. */
  lemma HomeIsFree(t: seq<Vm>, was: seq<nat>, ids: seq<nat>, n: nat, now: seq<nat>, idx: nat)
    requires IsTable(t) && DistinctSlots(ids) && Moved(t, was, ids, n, now) && n < SLOTS && Home(t, ids[n], idx)
    ensures idx < |now| && now[idx] == 0 && NobodysHome(t, ids, n, idx)
  {
  }

  /** Besides, every window of those slots is accounted for, once: it has moved or it is lost. */
  ghost predicate Placed(t: seq<Vm>, was: seq<nat>, ids: seq<nat>, n: nat, now: seq<nat>) {
    && Moved(t, was, ids, n, now)
    && Live(was[..n]) == Live(now) + Lost(t, was[..n], ids[..n])
  }

  lemma PlacedOneMore(t: seq<Vm>, was: seq<nat>, ids: seq<nat>, n: nat, now: seq<nat>, idx: nat)
    requires IsTable(t) && DistinctSlots(ids) && Placed(t, was, ids, n, now) && n < SLOTS && Home(t, ids[n], idx)
    ensures idx < |now| && Placed(t, was, ids, n + 1, now[idx := was[n]])
  {
    MovedOneMore(t, was, ids, n, now, idx);
    HomeIsFree(t, was, ids, n, now, idx);
    assert was[..n + 1] == was[..n] + [was[n]];
    hide Moved, Home;
    LostStep(t, was, ids, n);
    LiveSet(now, idx, was[n]);
    LiveAppend(was[..n], was[n]);
  }

  lemma LostOneMore(t: seq<Vm>, was: seq<nat>, ids: seq<nat>, n: nat, now: seq<nat>)
    requires Placed(t, was, ids, n, now) && n < SLOTS && Homeless(t, ids[n])
    ensures Placed(t, was, ids, n + 1, now)
  {
    NotMovedOneMore(t, was, ids, n, now);
    assert was[..n + 1] == was[..n] + [was[n]];
    hide Moved, Home;
    LostStep(t, was, ids, n);
    LiveAppend(was[..n], was[n]);
  }

  lemma MovedOneMore(t: seq<Vm>, was: seq<nat>, ids: seq<nat>, n: nat, now: seq<nat>, idx: nat)
    requires IsTable(t) && DistinctSlots(ids) && Moved(t, was, ids, n, now) && n < SLOTS && Home(t, ids[n], idx)
    ensures idx < |now| && Moved(t, was, ids, n + 1, now[idx := was[n]])
  {
    HomeIsFree(t, was, ids, n, now, idx);
    var after := now[idx := was[n]];
    forall k | 0 <= k < |after| && NobodysHome(t, ids, n + 1, k)
      ensures after[k] == 0
    {
      assert NobodysHome(t, ids, n, k);
    }
    forall i, k {:trigger Home(t, ids[i], k)} | 0 <= i < n + 1 && Home(t, ids[i], k)
      ensures k < |after| && after[k] == was[i]
    {
    }
  }

  lemma NotMovedOneMore(t: seq<Vm>, was: seq<nat>, ids: seq<nat>, n: nat, now: seq<nat>)
    requires Moved(t, was, ids, n, now) && n < SLOTS && Homeless(t, ids[n])
    ensures Moved(t, was, ids, n + 1, now)
  {
    forall k | 0 <= k < |now| && NobodysHome(t, ids, n + 1, k)
      ensures now[k] == 0
    {
      assert NobodysHome(t, ids, n, k);
    }
  }

  lemma LostStep(t: seq<Vm>, windows: seq<nat>, ids: seq<nat>, n: nat)
    requires n < |windows| == |ids|
    ensures Lost(t, windows[..n + 1], ids[..n + 1])
            == Lost(t, windows[..n], ids[..n]) + if Homeless(t, ids[n]) then One(windows[n]) else multiset{}
  {
    assert windows[..n + 1][..n] == windows[..n] && ids[..n + 1][..n] == ids[..n];
  }

  lemma LiveSet(windows: seq<nat>, idx: nat, window: nat)
    requires idx < |windows| && windows[idx] == 0
    ensures Live(windows[idx := window]) == Live(windows) + One(window)
  {
  }

  lemma LiveAppend(windows: seq<nat>, window: nat)
    ensures Live(windows + [window]) == Live(windows) + One(window)
  {
  }

  // ---- All three arrays ----

  datatype Slots = Slots(rdp: seq<nat>, idd: seq<nat>, ids: seq<nat>)

  /** What the loop does with one slot: its windows and id move to the VM's index, or its windows are destroyed. */
  ghost predicate Turn(t: seq<Vm>, rdp: nat, idd: nat, id: nat, now: Slots, gone: multiset<nat>, after: Slots,
        goneAfter: multiset<nat>) {
    && (Homeless(t, id) ==> after == now && goneAfter == gone + One(rdp) + One(idd))
    && (!Homeless(t, id) ==>
          && goneAfter == gone
          && exists idx ::
               && Home(t, id, idx) && idx < |now.rdp| == |now.idd| == |now.ids|
               && after == Slots(now.rdp[idx := rdp], now.idd[idx := idd], now.ids[idx := id]))
  }

  ghost predicate Progress(t: seq<Vm>, was: Slots, before: multiset<nat>, n: nat, now: Slots, gone: multiset<nat>) {
    && n <= SLOTS && IsTable(t) && DistinctSlots(was.ids)
    && Placed(t, was.rdp, was.ids, n, now.rdp) && Placed(t, was.idd, was.ids, n, now.idd)
    && Placed(t, was.ids, was.ids, n, now.ids)
    && gone == before + Lost(t, was.rdp[..n], was.ids[..n]) + Lost(t, was.idd[..n], was.ids[..n])
  }

  lemma NothingMoved(t: seq<Vm>, was: Slots, now: Slots, gone: multiset<nat>)
    requires IsTable(t) && DistinctSlots(was.ids)
    requires |was.rdp| == |was.idd| == |was.ids| == SLOTS
    requires |now.rdp| == |now.idd| == |now.ids| == SLOTS
    requires forall k :: 0 <= k < SLOTS ==> now.rdp[k] == 0 && now.idd[k] == 0 && now.ids[k] == 0
    ensures Progress(t, was, gone, 0, now, gone)
  {
    EmptyPlaced(t, was.rdp, was.ids, now.rdp);
    EmptyPlaced(t, was.idd, was.ids, now.idd);
    EmptyPlaced(t, was.ids, was.ids, now.ids);
    hide Placed, Lost, DistinctSlots, IsTable;
  }

  lemma EmptyPlaced(t: seq<Vm>, was: seq<nat>, ids: seq<nat>, now: seq<nat>)
    requires |was| == |ids| == |now| == SLOTS && forall k :: 0 <= k < SLOTS ==> now[k] == 0
    ensures Placed(t, was, ids, 0, now) && Lost(t, was[..0], ids[..0]) == multiset{}
  {
    assert forall x :: x in now ==> x == 0;
    hide Home, Homeless;
  }

  lemma ProgressStep(t: seq<Vm>, was: Slots, before: multiset<nat>, n: nat, now: Slots, gone: multiset<nat>,
                     after: Slots, goneAfter: multiset<nat>)
    requires n < SLOTS && Progress(t, was, before, n, now, gone)
    requires |was.rdp| == |was.idd| == |was.ids| == SLOTS
    requires Turn(t, was.rdp[n], was.idd[n], was.ids[n], now, gone, after, goneAfter)
    ensures Progress(t, was, before, n + 1, after, goneAfter)
  {
    hide Placed, Lost, DistinctSlots, Homeless, IsTable;
    LostStep(t, was.rdp, was.ids, n);
    LostStep(t, was.idd, was.ids, n);
    if Homeless(t, was.ids[n]) {
      LostOneMore(t, was.rdp, was.ids, n, now.rdp);
      LostOneMore(t, was.idd, was.ids, n, now.idd);
      LostOneMore(t, was.ids, was.ids, n, now.ids);
    } else {
      var idx :| && Home(t, was.ids[n], idx) && idx < |now.rdp| == |now.idd| == |now.ids|
                 && after == Slots(now.rdp[idx := was.rdp[n]], now.idd[idx := was.idd[n]], now.ids[idx := was.ids[n]]);
      PlacedOneMore(t, was.rdp, was.ids, n, now.rdp, idx);
      PlacedOneMore(t, was.idd, was.ids, n, now.idd, idx);
      PlacedOneMore(t, was.ids, was.ids, n, now.ids, idx);
    }
  }

  lemma ProgressDone(t: seq<Vm>, was: Slots, before: multiset<nat>, now: Slots, gone: multiset<nat>)
    requires Progress(t, was, before, SLOTS, now, gone)
    ensures Placed(t, was.rdp, was.ids, SLOTS, now.rdp) && Placed(t, was.idd, was.ids, SLOTS, now.idd)
    ensures |was.rdp| == |was.idd| == |was.ids|
    ensures gone == before + Lost(t, was.rdp, was.ids) + Lost(t, was.idd, was.ids)
    ensures Placed(t, was.ids, was.ids, SLOTS, now.ids) && Aligned(t, now.ids) && DistinctSlots(now.ids)
  {
    assert was.rdp[..SLOTS] == was.rdp && was.idd[..SLOTS] == was.idd && was.ids[..SLOTS] == was.ids;
    hide Lost, Live;
    PlacedIsAligned(t, was.ids, now.ids);
    AlignedIsDistinct(t, now.ids);
  }

  class Windows {
    const rdp: array<nat>
    const idd: array<nat>
    const ids: array<nat>
    /** Every window destroyed so far. */
    ghost var destroyed: multiset<nat>

    ghost predicate Valid()
      reads this, rdp, idd, ids
    {
      && rdp.Length == idd.Length == ids.Length == SLOTS && rdp != idd && idd != ids && ids != rdp
      && DistinctSlots(ids[..])
    }

    constructor ()
      ensures Valid() && fresh(rdp) && fresh(idd) && fresh(ids)
    {
      rdp := new nat[SLOTS](i => 0);
      idd := new nat[SLOTS](i => 0);
      ids := new nat[SLOTS](i => 0);
      destroyed := multiset{};
      new;
    }

    /** `safe_destroy_rdp`. */
    method DestroyRdp(i: nat)
      requires Valid() && i < SLOTS
      modifies rdp, `destroyed
      ensures Valid() && rdp[..] == old(rdp[..])[i := 0] && destroyed == old(destroyed) + One(old(rdp[i]))
    {
      if rdp[i] != 0 {
        destroyed := destroyed + multiset{rdp[i]};
        rdp[i] := 0;
      }
    }

    /** `safe_destroy_idd`. */
    method DestroyIdd(i: nat)
      requires Valid() && i < SLOTS
      modifies idd, `destroyed
      ensures Valid() && idd[..] == old(idd[..])[i := 0] && destroyed == old(destroyed) + One(old(idd[i]))
    {
      if idd[i] != 0 {
        destroyed := destroyed + multiset{idd[i]};
        idd[i] := 0;
      }
    }

    /** `asb_find_vm_by_id` and the running test. */
    method FindRunning(t: seq<Vm>, id: nat) returns (idx: int)
      requires IsTable(t)
      ensures idx < 0 ==> Homeless(t, id)
      ensures idx >= 0 ==> Home(t, id, idx)
    {
      if id == 0 { return -1; }
      var i := 0;
      while i < |t|
        invariant 0 <= i <= |t| && forall k :: 0 <= k < i ==> t[k].id != id
      {
        if t[i].id == id { return if t[i].running then i else -1; }
        i := i + 1;
      }
      return -1;
    }

    /** Slot `i` of the loop. */
    method Place(t: seq<Vm>, i: nat, newRdp: array<nat>, newIdd: array<nat>, newIds: array<nat>)
      requires IsTable(t) && Valid() && i < SLOTS
      requires newRdp.Length == newIdd.Length == newIds.Length == SLOTS
      requires newRdp != newIdd && newIdd != newIds && newIds != newRdp
      requires {newRdp, newIdd, newIds} !! {rdp, idd, ids}
      modifies rdp, idd, newRdp, newIdd, newIds, `destroyed
      ensures Valid()
      ensures forall k :: i < k < SLOTS ==> rdp[k] == old(rdp[k]) && idd[k] == old(idd[k])
      ensures Turn(t, old(rdp[i]), old(idd[i]), ids[i], old(Slots(newRdp[..], newIdd[..], newIds[..])), old(destroyed),
                   Slots(newRdp[..], newIdd[..], newIds[..]), destroyed)
    {
      var idx := FindRunning(t, ids[i]);
      if idx < 0 {
        DestroyRdp(i);
        DestroyIdd(i);
      } else {
        assert Home(t, ids[i], idx);
        newRdp[idx], newIdd[idx], newIds[idx] := rdp[i], idd[i], t[idx].id;
      }
    }

    method Reconcile(t: seq<Vm>)
      requires IsTable(t) && Valid()
      modifies rdp, idd, ids, `destroyed
      ensures Valid() && Aligned(t, ids[..])
      ensures Placed(t, old(rdp[..]), old(ids[..]), SLOTS, rdp[..])
      ensures Placed(t, old(idd[..]), old(ids[..]), SLOTS, idd[..])
      ensures Placed(t, old(ids[..]), old(ids[..]), SLOTS, ids[..])
      ensures destroyed == old(destroyed) + Lost(t, old(rdp[..]), old(ids[..])) + Lost(t, old(idd[..]), old(ids[..]))
    {
      hide Progress, Turn, Placed, Lost, DistinctSlots, IsTable, Aligned;
      ghost var was := Slots(rdp[..], idd[..], ids[..]);
      var newRdp, newIdd, newIds := new nat[SLOTS](i => 0), new nat[SLOTS](i => 0), new nat[SLOTS](i => 0);
      NothingMoved(t, was, Slots(newRdp[..], newIdd[..], newIds[..]), destroyed);
      var i := 0;
      while i < SLOTS
        invariant 0 <= i <= SLOTS
        invariant Valid() && ids[..] == was.ids
        invariant forall k :: i <= k < SLOTS ==> rdp[k] == was.rdp[k] && idd[k] == was.idd[k]
        invariant Progress(t, was, old(destroyed), i, Slots(newRdp[..], newIdd[..], newIds[..]), destroyed)
      {
        ghost var now, gone := Slots(newRdp[..], newIdd[..], newIds[..]), destroyed;
        Place(t, i, newRdp, newIdd, newIds);
        ProgressStep(t, was, old(destroyed), i, now, gone, Slots(newRdp[..], newIdd[..], newIds[..]), destroyed);
        i := i + 1;
      }
      ProgressDone(t, was, old(destroyed), Slots(newRdp[..], newIdd[..], newIds[..]), destroyed);
      Store(newRdp, rdp);
      Store(newIdd, idd);
      Store(newIds, ids);
    }

    /** `do_connect_idd` with the window it creates, after a `Reconcile` on the same table. */
    method ConnectIdd(t: seq<Vm>, idx: int, active: bool, created: nat)
      requires IsTable(t) && Valid() && Aligned(t, ids[..])
      modifies idd, ids, `destroyed
      ensures Valid() && Aligned(t, ids[..])
      ensures 0 <= idx < |t| && t[idx].running && !(old(idd[idx]) != 0 && active) ==>
                && ids[..] == old(ids[..])[idx := t[idx].id] && idd[..] == old(idd[..])[idx := created]
                && destroyed == old(destroyed) + One(old(idd[idx]))
      ensures !(0 <= idx < |t| && t[idx].running && !(old(idd[idx]) != 0 && active)) ==>
                ids[..] == old(ids[..]) && idd[..] == old(idd[..]) && destroyed == old(destroyed)
    {
      if idx < 0 || idx >= |t| || !t[idx].running { return; }
      if idd[idx] != 0 && active { return; }
      DestroyIdd(idx);
      ids[idx] := t[idx].id;
      idd[idx] := created;
      AlignedIsDistinct(t, ids[..]);
    }
  }

  /** `memcpy` back. */
  method Store(src: array<nat>, dst: array<nat>)
    requires src != dst && src.Length == dst.Length
    modifies dst
    ensures dst[..] == src[..]
  {
    forall k | 0 <= k < src.Length { dst[k] := src[k]; }
  }

  lemma PlacedIsAligned(t: seq<Vm>, was: seq<nat>, now: seq<nat>)
    requires IsTable(t) && Placed(t, was, was, SLOTS, now)
    ensures Aligned(t, now)
  {
    forall idx | 0 <= idx < |now| && now[idx] != 0
      ensures Home(t, now[idx], idx)
    {
      assert !NobodysHome(t, was, SLOTS, idx);
    }
  }
}
