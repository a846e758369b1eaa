/** The diff of a refresh is exact and minimal; when a reload that forgets records converges. */
module DispatcherDiff {
  import opened Collections
  import opened DispatcherModel
  import opened DispatcherProofs

  // ---------------------------------------------------------------------------------------
  // Exactness and minimality
  // ---------------------------------------------------------------------------------------

  /** An update as an edit of a plain map. */
  function Edit(m: Auths, u: Update): Auths
    requires WellFormed(u)
  {
    match Wanted(u)
    case Some(a) => m[u.id := a]
    case None => m - {u.id}
  }

  function EditAll(m: Auths, us: seq<Update>): Auths
    requires forall i :: 0 <= i < |us| ==> WellFormed(us[i])
    decreases us
  {
    if us == [] then m else EditAll(Edit(m, us[0]), us[1..])
  }

  predicate SameRecord(a: Option<Auth>, b: Option<Auth>) {
    if a.Some? && b.Some? then AuthEqual(a.value, b.value) else a == b
  }

  /** The maps hold the same records up to the projection. */
  ghost predicate SameRecords(a: Auths, b: Auths) {
    forall id :: SameRecord(Look(a, id), Look(b, id))
  }

  ghost predicate Records(m: Auths) {
    "" !in m && forall id :: id in m ==> m[id].id == id
  }

  lemma {:induction false} EditAllAt(m: Auths, us: seq<Update>, id: string)
    requires AllWellFormed(us)
    requires forall i, j :: 0 <= i < j < |us| ==> us[i].id != us[j].id
    ensures (forall i :: 0 <= i < |us| ==> us[i].id != id) ==> Look(EditAll(m, us), id) == Look(m, id)
    ensures forall i :: 0 <= i < |us| && us[i].id == id ==> Look(EditAll(m, us), id) == Wanted(us[i])
    decreases us
  {
    if us != [] {
      EditAllAt(Edit(m, us[0]), us[1..], id);
      forall i | 0 <= i < |us| && us[i].id == id
        ensures Look(EditAll(m, us), id) == Wanted(us[i])
      {
        if i == 0 {
          assert forall j :: 0 <= j < |us[1..]| ==> us[1..][j].id != id;
        } else {
          assert us[1..][i - 1] == us[i];
        }
      }
    }
  }

  /** Applying the diff, in whatever order it was emitted, turns the old records into the new ones:
      up to the projection, and exactly when the refresh is forced. */
  lemma DiffIsExact(us: seq<Update>, before: Auths, after: Auths, force: bool)
    requires Records(before) && Records(after) && Diff(us, before, after, force)
    ensures AllWellFormed(us)
    ensures SameRecords(EditAll(before, us), after)
    ensures force ==> EditAll(before, us) == after
  {
    DiffWellFormed(before, after, force, us);
    forall id
      ensures SameRecord(Look(EditAll(before, us), id), Look(after, id))
      ensures force ==> Look(EditAll(before, us), id) == Look(after, id)
    {
      EditAllAt(before, us, id);
      OwedWellFormed(before, after, force, id);
      var owed := Owed(before, after, force, id);
      if owed.Some? {
        assert owed.value in us;
        var i :| 0 <= i < |us| && us[i] == owed.value;
      }
    }
    if force {
      SameMaps(EditAll(before, us), after);
    }
  }

  /** The same ids, and the same contents under each. */
  ghost predicate Unchanged(a: Auths, b: Auths) {
    a.Keys == b.Keys && forall id :: id in a ==> SameContents(a[id], b[id])
  }

  lemma UnchangedIff(a: Auths, b: Auths)
    ensures SameRecords(a, b) <==> Unchanged(a, b)
  {
    forall id
      ensures SameRecord(Look(a, id), Look(b, id)) <==>
              (id in a <==> id in b) && (id in a && id in b ==> SameContents(a[id], b[id]))
    {
      if id in a && id in b {
        AuthEqualIff(a[id], b[id]);
      }
    }
    if SameRecords(a, b) {
      forall id
        ensures id in a <==> id in b
        ensures id in a && id in b ==> SameContents(a[id], b[id])
      {
        assert SameRecord(Look(a, id), Look(b, id));
      }
    }
  }

  /** An unforced refresh is silent exactly when the ids are the same, and under each the id, the disabled flag,
      the status and the details. */
  lemma SilentIffUnchanged(us: seq<Update>, before: Auths, after: Auths)
    requires Diff(us, before, after, false)
    ensures us == [] <==> Unchanged(before, after)
  {
    UnchangedIff(before, after);
    if us == [] {
      forall id
        ensures SameRecord(Look(before, id), Look(after, id))
      {
        assert Owed(before, after, false, id).None?;
      }
    } else {
      assert Owed(before, after, false, us[0].id).Some?;
      assert !SameRecord(Look(before, us[0].id), Look(after, us[0].id));
    }
  }

  /** No list of edits that reaches the new records can leave out an id of the unforced diff. */
  lemma DiffIsMinimal(us: seq<Update>, vs: seq<Update>, before: Auths, after: Auths, i: nat)
    requires Diff(us, before, after, false) && i < |us|
    requires AllWellFormed(vs) && SameRecords(EditAll(before, vs), after)
    ensures exists j :: 0 <= j < |vs| && vs[j].id == us[i].id
  {
    assert Owed(before, after, false, us[i].id) == Some(us[i]);
    assert SameRecord(Look(EditAll(before, vs), us[i].id), Look(after, us[i].id));
    if forall j :: 0 <= j < |vs| ==> vs[j].id != us[i].id {
      EditsElsewhere(before, vs, us[i].id);
    }
  }

  lemma {:induction false} EditsElsewhere(m: Auths, vs: seq<Update>, id: string)
    requires AllWellFormed(vs) && forall j :: 0 <= j < |vs| ==> vs[j].id != id
    ensures Look(EditAll(m, vs), id) == Look(m, id)
    decreases vs
  {
    if vs != [] {
      EditsElsewhere(Edit(m, vs[0]), vs[1..], id);
    }
  }

  // ---------------------------------------------------------------------------------------
  // Reloading after provider exclusions
  // ---------------------------------------------------------------------------------------

  /** The reload that first forgets the records of some providers and then refreshes. */
  function Reload(s: State, dropped: set<string>, snapshot: seq<Option<Auth>>, us: seq<Update>, stamp: int): State {
    Refresh(Forget(s, dropped), snapshot, us, stamp)
  }

  function Forget(s: State, dropped: set<string>): State {
    s.(current := if s.current.Some? then Some(s.current.value - dropped) else None)
  }

  /** Forgetting emits no deletions, so a reload converges exactly when every forgotten record is
      either in the new snapshot or was disabled anyway. */
  lemma ReloadConvergesIff(s: State, dropped: set<string>, snapshot: seq<Option<Auth>>, force: bool, us: seq<Update>,
                           stamp: int)
    requires Invariant(s) && KeysKnown(s)
    requires Diff(us, Known(Forget(s, dropped).current), ByID(snapshot) + s.runtime, force)
    ensures Sound(Reload(s, dropped, snapshot, us, stamp))
    ensures Converging(Reload(s, dropped, snapshot, us, stamp)) <==>
            forall id :: id in dropped && id in Known(s.current) && id !in ByID(snapshot) + s.runtime ==>
                Known(s.current)[id].disabled
  {
    var before, after := Known(Forget(s, dropped).current), ByID(snapshot) + s.runtime;
    var s1 := Forget(s, dropped).(current := Some(after));
    var t := Reload(s, dropped, snapshot, us, stamp);
    hide Future, Meets;
    ForgottenState(s, dropped, after);
    DiffWellFormed(before, after, force, us);
    EnqueueAllSound(s1, us, stamp);
    EnqueueAllFrame(s1, us, stamp);
    ConvergingIsFuture(s);
    ConvergingIsFuture(t);
    forall id
      ensures Meets(Future(t, id), Look(after, id)) <==>
              (id in dropped && id in Known(s.current) && id !in after ==> Known(s.current)[id].disabled)
    {
      ReloadedAt(Known(s.current), dropped, after, force, us, stamp, s1, id);
    }
  }

  lemma ForgottenState(s: State, dropped: set<string>, after: Auths)
    requires Sound(s)
    ensures var s1 := Forget(s, dropped).(current := Some(after));
      Sound(s1) && forall id :: Future(s1, id) == Future(s, id)
    ensures Known(Forget(s, dropped).current) == Known(s.current) - dropped
  {
  }

  lemma ReloadedAt(known: Auths, dropped: set<string>, after: Auths, force: bool, us: seq<Update>, stamp: int,
                   s1: State, id: string)
    requires Sound(s1) && AllWellFormed(us) && Diff(us, known - dropped, after, force)
    requires "" !in known && "" !in after && forall k :: k in after ==> after[k].id == k
    requires Meets(Future(s1, id), Look(known, id))
    ensures Sound(EnqueueAll(s1, us, stamp))
    ensures Meets(Future(EnqueueAll(s1, us, stamp), id), Look(after, id)) <==>
            (id in dropped && id in known && id !in after ==> known[id].disabled)
  {
    hide Entry, Effect, Meets, Diff, EnqueueAll;
    if id in dropped && id in known {
      ForgottenMeets(known - dropped, after, force, us, stamp, s1, id, known[id]);
    } else {
      assert Look(known - dropped, id) == Look(known, id);
      RefreshMeets(known - dropped, after, force, us, stamp, s1, id);
    }
  }

  lemma ForgottenMeets(before: Auths, after: Auths, force: bool, us: seq<Update>, stamp: int, s1: State, id: string,
                       a: Auth)
    requires Sound(s1) && AllWellFormed(us) && Diff(us, before, after, force)
    requires "" !in after && forall k :: k in after ==> after[k].id == k
    requires id !in before && Meets(Future(s1, id), Some(a))
    ensures Sound(EnqueueAll(s1, us, stamp))
    ensures Meets(Future(EnqueueAll(s1, us, stamp), id), Look(after, id)) <==> (id !in after ==> a.disabled)
  {
    EnqueueAllSound(s1, us, stamp);
    if id in after {
      assert Owed(before, after, force, id).Some?;
      assert Owed(before, after, force, id).value in us;
      var i :| 0 <= i < |us| && us[i] == Owed(before, after, force, id).value;
      assert Meets(Future(EnqueueAll(s1, us, stamp), us[i].id), Wanted(us[i]));
    } else {
      assert forall i :: 0 <= i < |us| ==> us[i].id != id;
    }
  }
}
