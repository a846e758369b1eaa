/** What the watcher reads, reports and the service stores, told without the functions that specify them. */
module DispatcherEffects {
  import opened Collections
  import opened DispatcherModel
  import opened DispatcherProofs
  import Text

  // ---------------------------------------------------------------------------------------
  // Reading a snapshot
  // ---------------------------------------------------------------------------------------

  /** The last record of an id in a snapshot. */
  ghost predicate LastWith(auths: seq<Option<Auth>>, j: nat, id: string) {
    && j < |auths| && auths[j].Some? && auths[j].value.id == id != ""
    && forall i :: j < i < |auths| && auths[i].Some? ==> auths[i].value.id != id
  }

  /** The records of a snapshot: for each id the last one. */
  ghost predicate HoldsLast(m: Auths, auths: seq<Option<Auth>>) {
    && (forall id :: id in m ==> exists j: nat :: LastWith(auths, j, id))
    && (forall j: nat, id :: LastWith(auths, j, id) ==> id in m && m[id] == auths[j].value)
  }

  lemma LastMore(auths: seq<Option<Auth>>, j: nat, id: string)
    requires auths != []
    ensures var n := |auths| - 1;
      LastWith(auths, j, id) <==>
      if auths[n].Some? && auths[n].value.id == id then j == n && id != "" else LastWith(auths[..n], j, id)
  {
    var n := |auths| - 1;
    assert forall i :: 0 <= i < n ==> auths[..n][i] == auths[i];
    if LastWith(auths[..n], j, id) && !(auths[n].Some? && auths[n].value.id == id) {
      assert forall i :: j < i < n && auths[i].Some? ==> auths[..n][i].value.id != id;
    }
  }

  lemma {:induction false} ByIDHoldsLast(auths: seq<Option<Auth>>)
    ensures HoldsLast(ByID(auths), auths)
  {
    if auths != [] {
      var n := |auths| - 1;
      ByIDHoldsLast(auths[..n]);
      forall j: nat, id: string
        ensures LastWith(auths, j, id) <==>
                if auths[n].Some? && auths[n].value.id == id then j == n && id != "" else LastWith(auths[..n], j, id)
      {
        LastMore(auths, j, id);
      }
      forall id | id in ByID(auths)
        ensures exists j: nat :: LastWith(auths, j, id)
      {
        if auths[n].Some? && auths[n].value.id == id {
          assert LastWith(auths, n, id);
        } else {
          var j :| LastWith(auths[..n], j, id);
          assert LastWith(auths, j, id);
        }
      }
    }
  }

  // ---------------------------------------------------------------------------------------
  // Reporting what changed
  // ---------------------------------------------------------------------------------------

  /** New records are reported as additions, changed or forced ones as changes, missing ones as deletions; no id
      is reported twice, and nothing else is reported. */
  ghost predicate Reports(us: seq<Update>, before: Auths, after: Auths, force: bool) {
    && (forall i, j :: 0 <= i < j < |us| ==> us[i].id != us[j].id)
    && (forall id :: id in after && id !in before ==> Update(Add, id, Some(after[id])) in us)
    && (forall id :: id in after && id in before && (force || !SameContents(before[id], after[id])) ==>
          Update(Modify, id, Some(after[id])) in us)
    && (forall id :: id in before && id !in after ==> Update(Delete, id, None) in us)
    && (forall u :: u in us ==> Reported(u, before, after, force))
  }

  predicate Reported(u: Update, before: Auths, after: Auths, force: bool) {
    || (u.id in after && u.id !in before && u == Update(Add, u.id, Some(after[u.id])))
    || (u.id in after && u.id in before && (force || !SameContents(before[u.id], after[u.id]))
        && u == Update(Modify, u.id, Some(after[u.id])))
    || (u.id in before && u.id !in after && u == Update(Delete, u.id, None))
  }

  lemma DiffReports(us: seq<Update>, before: Auths, after: Auths, force: bool)
    requires Diff(us, before, after, force)
    ensures Reports(us, before, after, force)
  {
    forall id
      ensures id in after && id !in before ==> Update(Add, id, Some(after[id])) in us
      ensures id in after && id in before && (force || !SameContents(before[id], after[id])) ==>
                Update(Modify, id, Some(after[id])) in us
      ensures id in before && id !in after ==> Update(Delete, id, None) in us
    {
      if id in before && id in after {
        AuthEqualIff(before[id], after[id]);
      }
      assert Owed(before, after, force, id).Some? ==> Owed(before, after, force, id).value in us;
    }
    forall u | u in us
      ensures Reported(u, before, after, force)
    {
      var i :| 0 <= i < |us| && us[i] == u;
      assert Owed(before, after, force, us[i].id) == Some(us[i]);
      if u.id in before && u.id in after {
        AuthEqualIff(before[u.id], after[u.id]);
      }
    }
  }

  // ---------------------------------------------------------------------------------------
  // Storing an update
  // ---------------------------------------------------------------------------------------

  /** The record an update stores over an older one: its own fields with the older creation and refresh times. */
  predicate Replaces(stored: Auth, a: Auth, older: Auth) {
    && SameContents(stored, a)
    && stored.updatedAt == a.updatedAt && stored.nextRecoverAt == a.nextRecoverAt && stored.runtime == a.runtime
    && stored.createdAt == older.createdAt && stored.lastRefreshedAt == older.lastRefreshedAt
    && stored.nextRefreshAfter == older.nextRefreshAfter
  }

  /** The record after a deletion: the older one, disabled. */
  predicate Disables(stored: Auth, older: Auth) {
    && stored.id == older.id && stored.disabled && stored.status == "disabled" && stored.details == older.details
    && stored.createdAt == older.createdAt && stored.updatedAt == older.updatedAt
    && stored.lastRefreshedAt == older.lastRefreshedAt && stored.nextRefreshAfter == older.nextRefreshAfter
    && stored.nextRecoverAt == older.nextRecoverAt && stored.runtime == older.runtime
  }

  /** What an update does to the stored records. An addition or change stores its record, whatever id it carries
      itself; a deletion disables the record of its id, or of the record it carries if it has none. */
  ghost predicate Stores(m: Auths, m': Auths, u: Update) {
    match u.action
    case Delete =>
      var id := if u.id != "" then u.id else if u.auth.Some? then u.auth.value.id else "";
      && m'.Keys == m.Keys
      && (forall k :: k in m && (k != id || id == "") ==> m'[k] == m[k])
      && (id in m && id != "" ==> Disables(m'[id], m[id]))
    case Unknown(_) => m' == m
    case _ =>
      if u.auth.None? || u.auth.value.id == "" then m' == m
      else
        var a := u.auth.value;
        && m'.Keys == m.Keys + {a.id}
        && (forall k :: k in m && k != a.id ==> m'[k] == m[k])
        && (if a.id in m then Replaces(m'[a.id], a, m[a.id]) else m'[a.id] == a)
  }

  lemma HandleStores(m: Auths, u: Update)
    ensures Stores(m, Handle(m, u), u)
  {
  }

  /** However many updates arrive, the creation and refresh times of a stored record stay. */
  lemma {:induction false} HistoryStays(m: Auths, us: seq<Update>, id: string)
    requires id in m
    ensures var m' := HandleAll(m, us);
      && id in m'
      && m'[id].createdAt == m[id].createdAt && m'[id].lastRefreshedAt == m[id].lastRefreshedAt
      && m'[id].nextRefreshAfter == m[id].nextRefreshAfter
    decreases us
  {
    if us != [] {
      HandleStores(m, us[0]);
      HistoryStays(Handle(m, us[0]), us[1..], id);
    }
  }

  // ---------------------------------------------------------------------------------------
  // Runtime updates without a record, keys, and the size of the queue
  // ---------------------------------------------------------------------------------------

  /** A runtime update that names no record changes nothing that is known. */
  lemma NamelessIgnored(s: State, u: Update)
    requires u.action.Unknown?
          || (u.action.Delete? && u.id == "" && (u.auth.None? || u.auth.value.id == ""))
          || (!u.action.Delete? && (u.auth.None? || u.auth.value.id == ""))
    ensures RecordRuntime(s, u) == s
  {
  }

  /** An update waits under its id, or under its action and the clock. */
  lemma KeyTable(u: Update, stamp: int)
    ensures u.id != "" ==> KeyOf(u, stamp) == u.id
    ensures u.id == "" && u.action == Add ==> KeyOf(u, stamp) == "add:" + Text.Decimal(stamp)
    ensures u.id == "" && u.action == Modify ==> KeyOf(u, stamp) == "modify:" + Text.Decimal(stamp)
    ensures u.id == "" && u.action == Delete ==> KeyOf(u, stamp) == "delete:" + Text.Decimal(stamp)
  {
    assert "add" + ":" == "add:" && "modify" + ":" == "modify:" && "delete" + ":" == "delete:";
  }

  lemma NextBounded(s: State, t: State)
    requires Next(s, t) && |s.queue| <= 256
    ensures |t.queue| <= 256
  {
    if snapshot, force, us, stamp :|
         Diff(us, Known(s.current), ByID(snapshot) + s.runtime, force) && t == Refresh(s, snapshot, us, stamp) {
      EnqueueAllFrame(s.(current := Some(ByID(snapshot) + s.runtime)), us, stamp);
    } else if u, stamp :| WellFormed(u) && t == Runtime(s, u, stamp) {
    } else {
      InternalBounded(s, t);
    }
  }

  lemma InternalBounded(s: State, t: State)
    requires Internal(s, t) && |s.queue| <= 256
    ensures |t.queue| <= 256
  {
  }

  /** The queue never holds more than 256 updates. */
  lemma {:induction false} QueueBounded(run: seq<State>)
    requires IsRun(run)
    ensures |run[|run| - 1].queue| <= 256
  {
    if |run| > 1 {
      QueueBounded(run[..|run| - 1]);
      NextBounded(run[|run| - 2], run[|run| - 1]);
    }
  }

  /** While a batch is being delivered, its next update enters the queue exactly if the queue holds fewer than 256. */
  lemma DeliveryIff(s: State)
    requires Coalesced(s) && s.inFlight != []
    ensures |s.queue| < 256 <==>
            exists t :: Internal(s, t) && t.queue == s.queue + [s.inFlight[0]] && t.inFlight == s.inFlight[1..]
  {
    if |s.queue| < 256 {
      assert Internal(s, Deliver(s));
    }
    forall t | Internal(s, t) && t.queue == s.queue + [s.inFlight[0]]
      ensures |s.queue| < 256
    {
      assert |t.queue| == |s.queue| + 1;
    }
  }
}
