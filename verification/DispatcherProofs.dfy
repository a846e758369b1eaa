/** Convergence of the auth-update pipeline in every reachable state. */
module DispatcherProofs {
  import opened Collections
  import opened DispatcherModel

  // ---------------------------------------------------------------------------------------
  // One id at a time
  // ---------------------------------------------------------------------------------------

  /** The effect of a well-formed update on the entry of an id. */
  function Effect(e: Option<Auth>, u: Update, id: string): Option<Auth>
    requires WellFormed(u)
  {
    if u.id != id then e
    else
      match Wanted(u)
      case Some(a) => Some(Admit(e, a))
      case None => if e.Some? then Some(Retire(e.value)) else None
  }

  /** The entry of an id after a list of updates. */
  function Entry(e: Option<Auth>, us: seq<Update>, id: string): Option<Auth>
    requires forall i :: 0 <= i < |us| ==> WellFormed(us[i])
    decreases us
  {
    if us == [] then e else Entry(Effect(e, us[0], id), us[1..], id)
  }

  /** An applied update leaves an entry that meets what it asks for, whatever stood there before. */
  lemma EffectMeets(e: Option<Auth>, u: Update)
    requires WellFormed(u)
    ensures Meets(Effect(e, u, u.id), Wanted(u))
  {
  }

  lemma {:induction false} HandleAllIsEntry(m: Auths, us: seq<Update>, id: string)
    requires AllWellFormed(us)
    ensures Look(HandleAll(m, us), id) == Entry(Look(m, id), us, id)
    decreases us
  {
    if us != [] {
      assert Look(Handle(m, us[0]), id) == Effect(Look(m, id), us[0], id);
      HandleAllIsEntry(Handle(m, us[0]), us[1..], id);
    }
  }

  lemma {:induction false} EntryConcat(e: Option<Auth>, a: seq<Update>, b: seq<Update>, id: string)
    requires AllWellFormed(a) && AllWellFormed(b) && AllWellFormed(a + b)
    ensures Entry(e, a + b, id) == Entry(Entry(e, a, id), b, id)
    decreases a
  {
    if a == [] {
      assert a + b == b;
    } else {
      assert (a + b)[0] == a[0] && (a + b)[1..] == a[1..] + b;
      EntryConcat(Effect(e, a[0], id), a[1..], b, id);
    }
  }

  lemma {:induction false} EntryUntouched(e: Option<Auth>, us: seq<Update>, id: string)
    requires AllWellFormed(us)
    requires forall i :: 0 <= i < |us| ==> us[i].id != id
    ensures Entry(e, us, id) == e
  {
    if us != [] {
      EntryUntouched(e, us[1..], id);
    }
  }

  /** Among updates with different ids at most one matters for an id. */
  lemma EntryOfDistinct(e: Option<Auth>, us: seq<Update>, i: nat)
    requires AllWellFormed(us) && i < |us|
    requires forall j :: 0 <= j < |us| && j != i ==> us[j].id != us[i].id
    ensures Entry(e, us, us[i].id) == Effect(e, us[i], us[i].id)
  {
    var id := us[i].id;
    assert us == us[..i] + us[i..];
    EntryConcat(e, us[..i], us[i..], id);
    EntryUntouched(e, us[..i], id);
    EntryUntouched(Effect(e, us[i], id), us[i..][1..], id);
  }

  /** The pending batch acts on an id as its one pending update, wherever that stands in the order. */
  lemma PendingEntry(s: State, e: Option<Auth>, id: string)
    requires Coalesced(s)
    ensures AllWellFormed(PendingBatch(s.pending, s.order))
    ensures Entry(e, PendingBatch(s.pending, s.order), id) ==
            if id in s.pending then Effect(e, s.pending[id], id) else e
  {
    var us := PendingBatch(s.pending, s.order);
    assert forall i :: 0 <= i < |us| ==> us[i].id == s.order[i];
    if id in s.pending {
      assert id in s.order;
      var i :| 0 <= i < |s.order| && s.order[i] == id;
      EntryOfDistinct(e, us, i);
    } else {
      EntryUntouched(e, us, id);
    }
  }

  /** The entry an id will have in the manager once everything outstanding is applied. */
  function Future(s: State, id: string): Option<Auth>
    requires (forall i :: 0 <= i < |s.queue| ==> WellFormed(s.queue[i]))
    requires (forall i :: 0 <= i < |s.inFlight| ==> WellFormed(s.inFlight[i]))
    requires id in s.pending ==> WellFormed(s.pending[id])
  {
    var e := Entry(Entry(Look(s.manager, id), s.queue, id), s.inFlight, id);
    if id in s.pending then Effect(e, s.pending[id], id) else e
  }

  ghost predicate Sound(s: State) {
    Coalesced(s) && AllWellFormed(s.queue) && AllWellFormed(s.inFlight)
  }

  lemma FutureIsOutstanding(s: State, id: string)
    requires Sound(s)
    ensures AllWellFormed(Outstanding(s))
    ensures Look(HandleAll(s.manager, Outstanding(s)), id) == Future(s, id)
  {
    var e, b := Look(s.manager, id), PendingBatch(s.pending, s.order);
    PendingEntry(s, Entry(Entry(e, s.queue, id), s.inFlight, id), id);
    HandleAllIsEntry(s.manager, Outstanding(s), id);
    EntryConcat(e, s.queue, s.inFlight, id);
    EntryConcat(e, s.queue + s.inFlight, b, id);
  }

  // ---------------------------------------------------------------------------------------
  // Enqueueing
  // ---------------------------------------------------------------------------------------

  lemma EnqueueSound(s: State, u: Update)
    requires Sound(s) && WellFormed(u)
    ensures Sound(Enqueue(s, u.id, u))
    ensures forall id :: id != u.id ==> Future(Enqueue(s, u.id, u), id) == Future(s, id)
    ensures Meets(Future(Enqueue(s, u.id, u), u.id), Wanted(u))
  {
    var t := Enqueue(s, u.id, u);
    EffectMeets(Entry(Entry(Look(s.manager, u.id), s.queue, u.id), s.inFlight, u.id), u);
    assert forall k :: k in t.order <==> k in s.order || k == u.id;
  }

  lemma {:induction false} EnqueueAllSound(s: State, us: seq<Update>, stamp: int)
    requires Sound(s) && AllWellFormed(us)
    requires forall i, j :: 0 <= i < j < |us| ==> us[i].id != us[j].id
    ensures Sound(EnqueueAll(s, us, stamp)) && EnqueueAll(s, us, stamp).current == s.current
    ensures forall id :: (forall i :: 0 <= i < |us| ==> us[i].id != id) ==>
            Future(EnqueueAll(s, us, stamp), id) == Future(s, id)
    ensures forall i :: 0 <= i < |us| ==> Meets(Future(EnqueueAll(s, us, stamp), us[i].id), Wanted(us[i]))
  {
    hide Meets, Wanted;
    if us != [] {
      var n := |us| - 1;
      EnqueueAllSound(s, us[..n], stamp);
      var t := EnqueueAll(s, us[..n], stamp);
      EnqueueSound(t, us[n]);
      forall i | 0 <= i < |us|
        ensures Meets(Future(EnqueueAll(s, us, stamp), us[i].id), Wanted(us[i]))
      {
        if i < n {
          assert us[..n][i] == us[i];
        }
      }
      forall id | forall i :: 0 <= i < |us| ==> us[i].id != id
        ensures Future(EnqueueAll(s, us, stamp), id) == Future(s, id)
      {
        assert forall i :: 0 <= i < n ==> us[..n][i].id != id;
      }
    }
  }

  // ---------------------------------------------------------------------------------------
  // Every step keeps convergence
  // ---------------------------------------------------------------------------------------

  lemma ConvergingIsFuture(s: State)
    requires Sound(s)
    ensures Converging(s) <==> forall id :: Meets(Future(s, id), Look(Known(s.current), id))
  {
    forall id
      ensures Look(HandleAll(s.manager, Outstanding(s)), id) == Future(s, id)
    {
      FutureIsOutstanding(s, id);
    }
  }

  lemma MeetsTransfers(e: Option<Auth>, a: Option<Auth>, b: Option<Auth>)
    requires Meets(e, a)
    requires a == b || (a.Some? && b.Some? && AuthEqual(a.value, b.value))
    ensures Meets(e, b)
  {
  }

  lemma OwedWellFormed(before: Auths, after: Auths, force: bool, id: string)
    requires "" !in before && "" !in after
    requires forall k :: k in after ==> after[k].id == k
    ensures Owed(before, after, force, id).Some? ==>
              var u := Owed(before, after, force, id).value;
              WellFormed(u) && u.id == id && Wanted(u) == Look(after, id)
  {
  }

  /** What a refresh guarantees for one id. */
  lemma RefreshMeets(before: Auths, after: Auths, force: bool, us: seq<Update>, stamp: int, s1: State, id: string)
    requires Sound(s1) && AllWellFormed(us) && Diff(us, before, after, force)
    requires "" !in before && "" !in after && forall k :: k in after ==> after[k].id == k
    requires Meets(Future(s1, id), Look(before, id))
    ensures Sound(EnqueueAll(s1, us, stamp)) && Meets(Future(EnqueueAll(s1, us, stamp), id), Look(after, id))
  {
    EnqueueAllSound(s1, us, stamp);
    var owed := Owed(before, after, force, id);
    OwedWellFormed(before, after, force, id);
    if owed.Some? {
      assert owed.value in us;
      var i :| 0 <= i < |us| && us[i] == owed.value;
      assert Meets(Future(EnqueueAll(s1, us, stamp), us[i].id), Wanted(us[i]));
    } else {
      assert forall i :: 0 <= i < |us| ==> us[i].id != id;
      MeetsTransfers(Future(s1, id), Look(before, id), Look(after, id));
    }
  }

  lemma DiffWellFormed(before: Auths, after: Auths, force: bool, us: seq<Update>)
    requires Diff(us, before, after, force)
    requires "" !in before && "" !in after && forall k :: k in after ==> after[k].id == k
    ensures AllWellFormed(us)
  {
    forall i | 0 <= i < |us|
      ensures WellFormed(us[i])
    {
      OwedWellFormed(before, after, force, us[i].id);
    }
  }

  lemma RefreshKeeps(s: State, snapshot: seq<Option<Auth>>, force: bool, us: seq<Update>, stamp: int)
    requires Invariant(s) && KeysKnown(s)
    requires Diff(us, Known(s.current), ByID(snapshot) + s.runtime, force)
    ensures Invariant(Refresh(s, snapshot, us, stamp))
  {
    var before, after := Known(s.current), ByID(snapshot) + s.runtime;
    var s1 := s.(current := Some(after));
    DiffWellFormed(before, after, force, us);
    EnqueueAllSound(s1, us, stamp);
    EnqueueAllFrame(s1, us, stamp);
    ConvergingIsFuture(s);
    forall id
      ensures Meets(Future(EnqueueAll(s1, us, stamp), id), Look(after, id))
    {
      assert Future(s1, id) == Future(s, id);
      RefreshMeets(before, after, force, us, stamp, s1, id);
    }
    ConvergingIsFuture(EnqueueAll(s1, us, stamp));
  }

  /** Records are kept under their own, non-empty ids. */
  ghost predicate KeysKnown(s: State) {
    && "" !in Known(s.current) && "" !in s.runtime
    && (forall id :: id in s.runtime ==> s.runtime[id].id == id)
  }

  lemma RuntimeRecorded(s: State, u: Update)
    requires Sound(s) && KeysKnown(s) && WellFormed(u)
    ensures var s1 := RecordRuntime(s, u);
      && Sound(s1) && KeysKnown(s1)
      && (forall id :: Future(s1, id) == Future(s, id))
      && (forall id :: Look(Known(s1.current), id) == if id == u.id then Wanted(u) else Look(Known(s.current), id))
  {
  }

  /** After a runtime update the manager will hold what it asks for, and everything else as before. */
  lemma RuntimeEnqueued(s: State, u: Update, stamp: int)
    requires Sound(s) && KeysKnown(s) && WellFormed(u)
    ensures var t := Runtime(s, u, stamp);
      && Sound(t) && KeysKnown(t)
      && Meets(Future(t, u.id), Wanted(u)) && Look(Known(t.current), u.id) == Wanted(u)
      && Look(t.runtime, u.id) == Wanted(u)
      && (forall id :: id != u.id ==>
            && Future(t, id) == Future(s, id)
            && Look(Known(t.current), id) == Look(Known(s.current), id)
            && Look(t.runtime, id) == Look(s.runtime, id))
  {
    RuntimeRecorded(s, u);
    EnqueueSound(RecordRuntime(s, u), u);
  }

  lemma RuntimeKeeps(s: State, u: Update, stamp: int)
    requires Invariant(s) && KeysKnown(s) && WellFormed(u)
    ensures Invariant(Runtime(s, u, stamp)) && KeysKnown(Runtime(s, u, stamp))
  {
    RuntimeEnqueued(s, u, stamp);
    ConvergingIsFuture(s);
    ConvergingIsFuture(Runtime(s, u, stamp));
  }

  lemma DrainKeeps(s: State)
    requires Sound(s) && s.inFlight == []
    ensures Sound(Drain(s)) && Outstanding(Drain(s)) == Outstanding(s)
    ensures Invariant(s) ==> Invariant(Drain(s))
  {
    var t := Drain(s);
    FutureIsOutstanding(s, "");
    assert t.pending == map[];
    assert PendingBatch(t.pending, t.order) == [];
    assert Outstanding(t) == Outstanding(s);
    assert AllWellFormed(t.inFlight) by {
      PendingEntry(s, None, "");
    }
  }

  lemma DeliverKeeps(s: State)
    requires Sound(s) && s.inFlight != []
    ensures Sound(Deliver(s)) && Outstanding(Deliver(s)) == Outstanding(s)
    ensures Invariant(s) ==> Invariant(Deliver(s))
  {
    var t := Deliver(s);
    assert t.queue + t.inFlight == s.queue + s.inFlight;
  }

  lemma ConsumeKeeps(s: State)
    requires Sound(s) && s.queue != []
    ensures Sound(Consume(s)) && Outstanding(s) == [s.queue[0]] + Outstanding(Consume(s))
    ensures HandleAll(s.manager, Outstanding(s)) == HandleAll(Consume(s).manager, Outstanding(Consume(s)))
    ensures Invariant(s) ==> Invariant(Consume(s))
  {
    var t := Consume(s);
    assert s.queue == [s.queue[0]] + t.queue;
    assert Outstanding(s) == [s.queue[0]] + Outstanding(t);
    assert Outstanding(s)[1..] == Outstanding(t);
  }

  /** Moving and applying updates changes neither what is known nor what the manager will hold in the end. */
  lemma InternalKeeps(s: State, t: State)
    requires Sound(s) && Internal(s, t)
    ensures Sound(t) && t.current == s.current && t.runtime == s.runtime
    ensures Invariant(s) ==> Invariant(t)
    ensures forall id :: Future(t, id) == Future(s, id)
  {
    if s.inFlight == [] && s.order != [] && t == Drain(s) {
      DrainKeeps(s);
    } else if s.inFlight != [] && |s.queue| < Capacity && t == Deliver(s) {
      DeliverKeeps(s);
    } else {
      ConsumeKeeps(s);
    }
    forall id
      ensures Future(t, id) == Future(s, id)
    {
      FutureIsOutstanding(s, id);
      FutureIsOutstanding(t, id);
    }
  }

  lemma NextKeeps(s: State, t: State)
    requires Invariant(s) && KeysKnown(s) && Next(s, t)
    ensures Invariant(t) && KeysKnown(t)
  {
    if snapshot, force, us, stamp :|
         Diff(us, Known(s.current), ByID(snapshot) + s.runtime, force) && t == Refresh(s, snapshot, us, stamp) {
      RefreshKeeps(s, snapshot, force, us, stamp);
      EnqueueAllFrame(s.(current := Some(ByID(snapshot) + s.runtime)), us, stamp);
    } else if u, stamp :| WellFormed(u) && t == Runtime(s, u, stamp) {
      RuntimeKeeps(s, u, stamp);
    } else {
      InternalKeeps(s, t);
    }
  }

  lemma {:induction false} EnqueueAllFrame(s: State, us: seq<Update>, stamp: int)
    ensures EnqueueAll(s, us, stamp) ==
            s.(pending := EnqueueAll(s, us, stamp).pending, order := EnqueueAll(s, us, stamp).order)
  {
    if us != [] {
      EnqueueAllFrame(s, us[..|us| - 1], stamp);
    }
  }

  ghost predicate IsRun(run: seq<State>) {
    && run != []
    && if |run| == 1 then run[0] == Start
       else IsRun(run[..|run| - 1]) && Next(run[|run| - 2], run[|run| - 1])
  }

  /** In every reachable state the outstanding updates bring the manager to what the watcher knows. */
  lemma {:induction false} ReachableConverges(run: seq<State>)
    requires IsRun(run)
    ensures Invariant(run[|run| - 1]) && KeysKnown(run[|run| - 1])
  {
    if |run| == 1 {
      assert PendingBatch(Start.pending, Start.order) == [];
      assert Outstanding(Start) == [];
    } else {
      ReachableConverges(run[..|run| - 1]);
      NextKeeps(run[|run| - 2], run[|run| - 1]);
    }
  }

  ghost predicate Quiet(s: State) {
    s.queue == [] && s.inFlight == [] && s.order == []
  }

  /** The fields that a comparison looks at: all but the times and the runtime handle. */
  predicate SameContents(a: Auth, b: Auth) {
    a.id == b.id && a.disabled == b.disabled && a.status == b.status && a.details == b.details
  }

  lemma AuthEqualIff(a: Auth, b: Auth)
    ensures AuthEqual(a, b) <==> SameContents(a, b)
  {
  }

  /** With nothing outstanding the manager itself agrees with the watcher: it has every record the watcher knows,
      with its id, disabled flag, status and details, and any other record it has is disabled. */
  lemma QuietAgrees(s: State, id: string)
    requires Invariant(s) && Quiet(s)
    ensures id in Known(s.current) ==> id in s.manager && SameContents(s.manager[id], Known(s.current)[id])
    ensures id !in Known(s.current) && id in s.manager ==> s.manager[id].disabled
  {
    assert PendingBatch(s.pending, s.order) == [];
    assert Outstanding(s) == [];
    assert Look(HandleAll(s.manager, Outstanding(s)), id) == Look(s.manager, id);
    assert Meets(Look(s.manager, id), Look(Known(s.current), id));
  }

  /** Moving and applying updates cannot block before everything is applied... */
  lemma NeverStuck(s: State)
    requires Invariant(s) && !Quiet(s)
    ensures exists t :: Internal(s, t)
  {
    if s.queue != [] {
      assert Internal(s, Consume(s));
    } else if s.inFlight != [] {
      assert Internal(s, Deliver(s));
    } else {
      assert Internal(s, Drain(s));
    }
  }

  function Work(s: State): nat {
    3 * |s.order| + 2 * |s.inFlight| + |s.queue|
  }

  /** ...and finishes when no new updates arrive. */
  lemma InternalFinishes(s: State, t: State)
    requires Internal(s, t)
    ensures Work(t) < Work(s)
  {
  }
}
