/** When convergence survives a runtime update that falls into a refresh, and a deletion without an id. */
module DispatcherRaces {
  import opened Collections
  import opened DispatcherModel
  import opened DispatcherProofs

  // ---------------------------------------------------------------------------------------
  // A refresh that is interrupted between its diff and the enqueueing of what it owes
  // ---------------------------------------------------------------------------------------

  /** The state after the diff of a refresh: the new records are known, nothing is enqueued yet. */
  function Diffed(s: State, snapshot: seq<Option<Auth>>): State {
    s.(current := Some(ByID(snapshot) + s.runtime))
  }

  lemma DiffedSound(s: State, snapshot: seq<Option<Auth>>)
    requires Sound(s) && KeysKnown(s)
    ensures Sound(Diffed(s, snapshot)) && KeysKnown(Diffed(s, snapshot))
    ensures forall id :: Future(Diffed(s, snapshot), id) == Future(s, id)
  {
  }

  /** States that follow each other by moving and applying updates only. */
  ghost predicate Moves(run: seq<State>) {
    run != [] && forall i :: 0 <= i < |run| - 1 ==> Internal(run[i], run[i + 1])
  }

  lemma {:induction false} MovesKeep(run: seq<State>, n: nat)
    requires Moves(run) && n < |run| && Sound(run[0])
    ensures Sound(run[n]) && run[n].current == run[0].current && run[n].runtime == run[0].runtime
    ensures forall id :: Future(run[n], id) == Future(run[0], id)
  {
    if n > 0 {
      MovesKeep(run, n - 1);
      assert Internal(run[n - 1], run[n - 1 + 1]);
      InternalKeeps(run[n - 1], run[n]);
    }
  }

  /** What the manager will hold once the updates on their way, but not the pending one, are applied. */
  function OnItsWay(s: State, id: string): Option<Auth>
    requires (forall i :: 0 <= i < |s.queue| ==> WellFormed(s.queue[i]))
    requires (forall i :: 0 <= i < |s.inFlight| ==> WellFormed(s.inFlight[i]))
  {
    Entry(Entry(Look(s.manager, id), s.queue, id), s.inFlight, id)
  }

  /** The late update of the refresh leaves what the newer runtime update asked for. */
  predicate Harmless(e: Option<Auth>, owed: Update, u: Update)
    requires WellFormed(owed) && WellFormed(u)
  {
    match Wanted(u)
    case None => owed.action.Delete? || owed.auth.value.disabled
    case Some(b) =>
      if owed.action.Delete? then e.Some? && AuthEqual(Retire(e.value), b) else AuthEqual(owed.auth.value, b)
  }

  lemma HarmlessIff(e: Option<Auth>, owed: Update, u: Update)
    requires WellFormed(owed) && WellFormed(u) && owed.id == u.id
    ensures Meets(Effect(e, owed, u.id), Wanted(u)) <==> Harmless(e, owed, u)
  {
  }

  /** A refresh owes the others what it owes them anyway; the id of the interrupting update it may owe a
      record that the watcher has replaced since. */
  lemma InterruptedAt(s: State, snapshot: seq<Option<Auth>>, force: bool, us: seq<Update>, u: Update, stamp: int,
                      run: seq<State>, later: int, id: string)
    requires Invariant(s) && KeysKnown(s) && WellFormed(u)
    requires Diff(us, Known(s.current), ByID(snapshot) + s.runtime, force)
    requires Moves(run) && run[0] == Runtime(Diffed(s, snapshot), u, stamp)
    ensures var m := run[|run| - 1];
      var t := EnqueueAll(m, us, later);
      var owed := Owed(Known(s.current), ByID(snapshot) + s.runtime, force, u.id);
      && Sound(t) && Sound(m) && Look(Known(t.current), u.id) == Wanted(u)
      && (owed.Some? ==> WellFormed(owed.value))
      && (id != u.id ==> Meets(Future(t, id), Look(Known(t.current), id)))
      && (id == u.id ==>
          (Meets(Future(t, id), Wanted(u)) <==> (owed.Some? ==> Harmless(OnItsWay(m, id), owed.value, u))))
  {
    var before, after := Known(s.current), ByID(snapshot) + s.runtime;
    var d := Diffed(s, snapshot);
    var m := run[|run| - 1];
    hide Diff, Runtime, Converging, Coalesced, AllWellFormed, Future, Moves, Meets, Internal;
    ConvergingIsFuture(s);
    DiffedSound(s, snapshot);
    RuntimeEnqueued(d, u, stamp);
    MovesKeep(run, |run| - 1);
    DiffWellFormed(before, after, force, us);
    EnqueueAllFrame(m, us, later);
    if id != u.id {
      assert Future(m, id) == Future(s, id) && Look(Known(m.current), id) == Look(after, id);
      RefreshMeets(before, after, force, us, later, m, id);
    } else {
      InterruptedOwn(before, after, force, us, u, m, later);
    }
  }

  lemma InterruptedOwn(before: Auths, after: Auths, force: bool, us: seq<Update>, u: Update, m: State, later: int)
    requires Sound(m) && AllWellFormed(us) && Diff(us, before, after, force) && WellFormed(u)
    requires "" !in before && "" !in after && forall k :: k in after ==> after[k].id == k
    requires Meets(Future(m, u.id), Wanted(u))
    ensures var t, owed := EnqueueAll(m, us, later), Owed(before, after, force, u.id);
      && Sound(t) && (owed.Some? ==> WellFormed(owed.value))
      && (Meets(Future(t, u.id), Wanted(u)) <==> (owed.Some? ==> Harmless(OnItsWay(m, u.id), owed.value, u)))
  {
    var owed := Owed(before, after, force, u.id);
    OwedWellFormed(before, after, force, u.id);
    EnqueueAllSound(m, us, later);
    EnqueueAllFrame(m, us, later);
    if owed.Some? {
      assert owed.value in us;
      var i :| 0 <= i < |us| && us[i] == owed.value;
      PendingAfter(m, us, later, i);
      HarmlessIff(OnItsWay(m, u.id), owed.value, u);
    } else {
      assert forall i :: 0 <= i < |us| ==> us[i].id != u.id;
    }
  }

  /** Of updates with different ids each becomes the pending one of its id. */
  lemma {:induction false} PendingAfter(s: State, us: seq<Update>, stamp: int, i: nat)
    requires i < |us| && AllWellFormed(us)
    requires forall i, j :: 0 <= i < j < |us| ==> us[i].id != us[j].id
    ensures us[i].id in EnqueueAll(s, us, stamp).pending && EnqueueAll(s, us, stamp).pending[us[i].id] == us[i]
  {
    var n := |us| - 1;
    if i < n {
      PendingAfter(s, us[..n], stamp, i);
    }
  }

  /** A refresh that is interrupted by a runtime update between its diff and the enqueueing, with any updates
      moved and applied meanwhile, converges exactly when it owes the id of that update nothing, or what it
      owes agrees with it. A deletion is undone by an addition or change that is not disabled. */
  lemma InterruptedRefreshConvergesIff(s: State, snapshot: seq<Option<Auth>>, force: bool, us: seq<Update>, u: Update,
                                       stamp: int, run: seq<State>, later: int)
    requires Invariant(s) && KeysKnown(s) && WellFormed(u)
    requires Diff(us, Known(s.current), ByID(snapshot) + s.runtime, force)
    requires Moves(run) && run[0] == Runtime(Diffed(s, snapshot), u, stamp)
    ensures var m := run[|run| - 1];
      var t := EnqueueAll(m, us, later);
      var owed := Owed(Known(s.current), ByID(snapshot) + s.runtime, force, u.id);
      && Sound(t) && Sound(m) && (owed.Some? ==> WellFormed(owed.value))
      && (Converging(t) <==> (owed.Some? ==> Harmless(OnItsWay(m, u.id), owed.value, u)))
      && (u.action.Delete? ==>
          (Converging(t) <==> (owed.Some? && !owed.value.action.Delete? ==> owed.value.auth.value.disabled)))
  {
    var t := EnqueueAll(run[|run| - 1], us, later);
    forall id
      ensures id != u.id ==> Sound(t) && Meets(Future(t, id), Look(Known(t.current), id))
    {
      InterruptedAt(s, snapshot, force, us, u, stamp, run, later, id);
    }
    InterruptedAt(s, snapshot, force, us, u, stamp, run, later, u.id);
    ConvergingIsFuture(t);
  }

  // ---------------------------------------------------------------------------------------
  // What an undone deletion leads to
  // ---------------------------------------------------------------------------------------

  /** The watcher does not know the id any more, and the manager will hold an enabled record of it. */
  ghost predicate Stuck(s: State, id: string) {
    && Sound(s) && KeysKnown(s)
    && id !in Known(s.current) && id !in s.runtime
    && Future(s, id).Some? && !Future(s, id).value.disabled
  }

  /** A step in which the id occurs neither in a snapshot nor in a runtime update. */
  ghost predicate NextWithout(s: State, t: State, id: string) {
    || (exists snapshot, force, us, stamp ::
          && id !in ByID(snapshot)
          && Diff(us, Known(s.current), ByID(snapshot) + s.runtime, force)
          && t == Refresh(s, snapshot, us, stamp))
    || (exists u, stamp :: WellFormed(u) && u.id != id && t == Runtime(s, u, stamp))
    || Internal(s, t)
  }

  lemma RefreshStaysStuck(s: State, id: string, snapshot: seq<Option<Auth>>, force: bool, us: seq<Update>, stamp: int)
    requires Stuck(s, id) && id !in ByID(snapshot)
    requires Diff(us, Known(s.current), ByID(snapshot) + s.runtime, force)
    ensures Stuck(Refresh(s, snapshot, us, stamp), id)
    ensures Future(Refresh(s, snapshot, us, stamp), id) == Future(s, id)
  {
    var before, after := Known(s.current), ByID(snapshot) + s.runtime;
    var d := Diffed(s, snapshot);
    hide Coalesced, AllWellFormed, Future;
    DiffedSound(s, snapshot);
    DiffWellFormed(before, after, force, us);
    EnqueueAllSound(d, us, stamp);
    EnqueueAllFrame(d, us, stamp);
    assert forall i :: 0 <= i < |us| ==> us[i].id != id;
  }

  lemma StaysStuck(s: State, t: State, id: string)
    requires Stuck(s, id) && NextWithout(s, t, id)
    ensures Stuck(t, id) && Future(t, id) == Future(s, id)
  {
    if snapshot, force, us, stamp :|
         id !in ByID(snapshot) && Diff(us, Known(s.current), ByID(snapshot) + s.runtime, force)
         && t == Refresh(s, snapshot, us, stamp) {
      RefreshStaysStuck(s, id, snapshot, force, us, stamp);
    } else if u, stamp :| WellFormed(u) && u.id != id && t == Runtime(s, u, stamp) {
      RuntimeEnqueued(s, u, stamp);
    } else {
      InternalKeeps(s, t);
    }
  }

  ghost predicate RunWithout(run: seq<State>, id: string) {
    run != [] && forall i :: 0 <= i < |run| - 1 ==> NextWithout(run[i], run[i + 1], id)
  }

  /** A stuck record stays enabled, and the pipeline away from convergence, until its id occurs again; when
      nothing is outstanding the manager holds the enabled record. */
  lemma {:induction false} StuckForGood(run: seq<State>, id: string, n: nat)
    requires RunWithout(run, id) && n < |run| && Stuck(run[0], id)
    ensures Stuck(run[n], id) && Future(run[n], id) == Future(run[0], id)
    ensures !Converging(run[n])
    ensures Quiet(run[n]) ==> Look(run[n].manager, id) == Future(run[0], id)
  {
    if n > 0 {
      StuckForGood(run, id, n - 1);
      assert NextWithout(run[n - 1], run[n - 1 + 1], id);
      StaysStuck(run[n - 1], run[n], id);
    }
    ConvergingIsFuture(run[n]);
    if Quiet(run[n]) {
      assert id !in run[n].pending;
    }
  }

  /** A forced refresh brings back for good an enabled runtime record that is deleted between its diff and
      the enqueueing. */
  lemma DeletionUndone(s: State, snapshot: seq<Option<Auth>>, us: seq<Update>, id: string, stamp: int, later: int)
    requires Invariant(s) && KeysKnown(s)
    requires id in s.runtime && !s.runtime[id].disabled && id !in ByID(snapshot)
    requires Diff(us, Known(s.current), ByID(snapshot) + s.runtime, true)
    ensures Stuck(EnqueueAll(Runtime(Diffed(s, snapshot), Update(Delete, id, None), stamp), us, later), id)
  {
    var before, after := Known(s.current), ByID(snapshot) + s.runtime;
    var d, del := Diffed(s, snapshot), Update(Delete, id, None);
    var m := Runtime(d, del, stamp);
    hide Runtime, Converging, Future, Entry;
    DiffedSound(s, snapshot);
    RuntimeEnqueued(d, del, stamp);
    DiffWellFormed(before, after, true, us);
    EnqueueAllSound(m, us, later);
    EnqueueAllFrame(m, us, later);
    assert Owed(before, after, true, id).value in us;
    var i :| 0 <= i < |us| && us[i] == Owed(before, after, true, id).value;
    assert Meets(Future(EnqueueAll(m, us, later), us[i].id), Wanted(us[i]));
  }

  /** A refresh that finds a forgotten id again sets it right. */
  lemma RefreshHeals(s: State, snapshot: seq<Option<Auth>>, force: bool, us: seq<Update>, stamp: int, id: string)
    requires Sound(s) && KeysKnown(s) && id !in Known(s.current)
    requires id in ByID(snapshot) + s.runtime
    requires Diff(us, Known(s.current), ByID(snapshot) + s.runtime, force)
    ensures Sound(Refresh(s, snapshot, us, stamp))
    ensures Meets(Future(Refresh(s, snapshot, us, stamp), id), Look(ByID(snapshot) + s.runtime, id))
  {
    var before, after := Known(s.current), ByID(snapshot) + s.runtime;
    DiffWellFormed(before, after, force, us);
    EnqueueAllSound(Diffed(s, snapshot), us, stamp);
    assert Owed(before, after, force, id).value in us;
    var i :| 0 <= i < |us| && us[i] == Owed(before, after, force, id).value;
    assert Meets(Future(Refresh(s, snapshot, us, stamp), us[i].id), Wanted(us[i]));
  }

  // ---------------------------------------------------------------------------------------
  // A deletion without an id
  // ---------------------------------------------------------------------------------------

  lemma {:induction false} HandleAllConcat(m: Auths, us: seq<Update>, vs: seq<Update>)
    ensures HandleAll(m, us + vs) == HandleAll(HandleAll(m, us), vs)
    decreases us
  {
    if us == [] {
      assert us + vs == vs;
    } else {
      assert (us + vs)[1..] == us[1..] + vs;
      HandleAllConcat(Handle(m, us[0]), us[1..], vs);
    }
  }

  /** The state after a deletion of x without an id, and an addition of the record a. */
  function Overtaking(s: State, x: Auth, a: Auth, stamp: int, later: int): State {
    Runtime(Runtime(s, Update(Delete, "", Some(x)), stamp), Update(Add, a.id, Some(a)), later)
  }

  predicate OwnKey(s: State, x: Auth, a: Auth, stamp: int) {
    var key := KeyOf(Update(Delete, "", Some(x)), stamp);
    key != a.id && key !in s.pending
  }

  /** The addition takes the place of what is pending, and the deletion comes behind it. */
  lemma OvertakingPending(s: State, x: Auth, a: Auth, stamp: int, later: int)
    requires Sound(s) && a.id != "" && x.id != "" && OwnKey(s, x, a, stamp) && a.id in s.pending
    ensures var t, add := Overtaking(s, x, a, stamp, later), Update(Add, a.id, Some(a));
      && (forall k :: k in t.order ==> k in t.pending)
      && (forall k :: k in Enqueue(s, a.id, add).order ==> k in Enqueue(s, a.id, add).pending)
      && Outstanding(t) == Outstanding(Enqueue(s, a.id, add)) + [Update(Delete, "", Some(x))]
  {
    var del, add := Update(Delete, "", Some(x)), Update(Add, a.id, Some(a));
    var s1, t := Enqueue(s, a.id, add), Overtaking(s, x, a, stamp, later);
    assert s1.order == s.order && t.order == s.order + [KeyOf(del, stamp)];
    assert PendingBatch(t.pending, t.order) == PendingBatch(s1.pending, s1.order) + [del];
  }

  /** With nothing pending for the record, the updates keep their order. */
  lemma OvertakingNone(s: State, x: Auth, a: Auth, stamp: int, later: int)
    requires Sound(s) && a.id != "" && x.id != "" && OwnKey(s, x, a, stamp) && a.id !in s.pending
    ensures var t := Overtaking(s, x, a, stamp, later);
      && (forall k :: k in t.order ==> k in t.pending)
      && Outstanding(t) == Outstanding(s) + [Update(Delete, "", Some(x)), Update(Add, a.id, Some(a))]
  {
    var del, add := Update(Delete, "", Some(x)), Update(Add, a.id, Some(a));
    var t := Overtaking(s, x, a, stamp, later);
    assert t.order == s.order + [KeyOf(del, stamp), a.id];
    assert PendingBatch(t.pending, t.order) == PendingBatch(s.pending, s.order) + [del, add];
  }

  /** A deletion that names its record only inside the update waits under a key of its own, behind what is
      pending. A later addition of the record takes the place of an earlier pending update, and is then
      overtaken by the deletion: the two converge exactly when nothing was pending for the record, or the
      added one is disabled anyway. */
  lemma UnkeyedDeletionIff(s: State, x: Auth, a: Auth, stamp: int, later: int)
    requires Sound(s) && x.id == a.id != "" && OwnKey(s, x, a, stamp)
    ensures var t := Overtaking(s, x, a, stamp, later);
      && (forall k :: k in t.order ==> k in t.pending)
      && Look(Known(t.current), a.id) == Some(a)
      && (Meets(Look(HandleAll(t.manager, Outstanding(t)), a.id), Some(a)) <==>
          a.id !in s.pending || (a.disabled && a.status == "disabled"))
  {
    hide Outstanding, Enqueue, Future;
    var id, del, add := a.id, Update(Delete, "", Some(x)), Update(Add, a.id, Some(a));
    assert Overtaking(s, x, a, stamp, later).manager == s.manager
           && Look(Known(Overtaking(s, x, a, stamp, later).current), id) == Some(a) by {
      OvertakingKnown(s, x, a, stamp, later);
    }
    if id in s.pending {
      var s1 := Enqueue(s, id, add);
      EnqueueSound(s, add);
      OvertakingPending(s, x, a, stamp, later);
      HandleAllConcat(s.manager, Outstanding(s1), [del]);
      FutureIsOutstanding(s1, id);
      HandleOne(HandleAll(s.manager, Outstanding(s1)), del);
      RetiredMeets(s, a);
    } else {
      OvertakingNone(s, x, a, stamp, later);
      HandleAllConcat(s.manager, Outstanding(s), [del, add]);
      HandleTwo(HandleAll(s.manager, Outstanding(s)), del, add);
    }
  }

  lemma OvertakingKnown(s: State, x: Auth, a: Auth, stamp: int, later: int)
    requires x.id == a.id != ""
    ensures var t := Overtaking(s, x, a, stamp, later);
      t.manager == s.manager && Look(Known(t.current), a.id) == Some(a)
  {
  }

  lemma RetiredMeets(s: State, a: Auth)
    requires Sound(s) && a.id != ""
    ensures var s1 := Enqueue(s, a.id, Update(Add, a.id, Some(a)));
      && Sound(s1) && s1.manager == s.manager && Future(s1, a.id).Some?
      && (Meets(Some(Retire(Future(s1, a.id).value)), Some(a)) <==> a.disabled && a.status == "disabled")
  {
    EnqueueSound(s, Update(Add, a.id, Some(a)));
  }

  lemma HandleTwo(m: Auths, u: Update, v: Update)
    ensures HandleAll(m, [u, v]) == Handle(Handle(m, u), v)
  {
    HandleOne(Handle(m, u), v);
    assert [u, v][1..] == [v];
  }

  lemma HandleOne(m: Auths, u: Update)
    ensures HandleAll(m, [u]) == Handle(m, u)
  {
    assert HandleAll(Handle(m, u), [u][1..]) == Handle(m, u);
  }
}
