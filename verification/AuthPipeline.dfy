/** The watcher, its dispatch loop, the update channel and the consuming service as one object whose
    methods are proved to take the steps of DispatcherModel. */
module AuthPipelineClass {
  import opened Collections
  import opened DispatcherModel
  import opened DispatcherProofs
  import opened DispatcherEffects

  class AuthPipeline {
    var currentAuths: Option<Auths>
    var runtimeAuths: Auths
    var pendingUpdates: map<string, Update>
    var pendingOrder: seq<string>
    var batch: seq<Update>
    var authUpdates: seq<Update>
    var managed: Auths
    var hasQueue: bool

    ghost function View(): State
      reads this
    {
      State(currentAuths, runtimeAuths, pendingUpdates, pendingOrder, batch, authUpdates, managed)
    }

    /** Every state the pipeline can be in while its queue is set and its callers keep the rules. */
    ghost predicate Valid()
      reads this
    {
      hasQueue && Invariant(View()) && KeysKnown(View())
    }

    constructor ()
      ensures Valid() && View() == Start
    {
      currentAuths, runtimeAuths, pendingUpdates, pendingOrder := None, map[], map[], [];
      batch, authUpdates, managed, hasQueue := [], [], map[], true;
      new;
      ReachableConverges([Start]);
    }

    // -------------------------------------------------------------------------------------
    // Watcher
    // -------------------------------------------------------------------------------------

    /** Replaces the known records and returns what changed. Without a queue nothing is returned. */
    method PrepareAuthUpdates(auths: seq<Option<Auth>>, force: bool) returns (updates: seq<Update>)
      modifies this`currentAuths
      ensures currentAuths == Some(ByID(auths))
      ensures HoldsLast(Known(currentAuths), auths)
      ensures if hasQueue then Diff(updates, Known(old(currentAuths)), ByID(auths), force) else updates == []
      ensures hasQueue ==> Reports(updates, Known(old(currentAuths)), Known(currentAuths), force)
    {
      ByIDHoldsLast(auths);
      var newState: Auths := map[];
      for i := 0 to |auths|
        invariant newState == ByID(auths[..i])
        invariant currentAuths == old(currentAuths)
      {
        assert auths[..i + 1][..i] == auths[..i];
        if auths[i].Some? && auths[i].value.id != "" {
          newState := newState[auths[i].value.id := auths[i].value];
        }
      }
      assert auths[..|auths|] == auths;
      var before: Auths := if currentAuths.Some? then currentAuths.value else map[];
      currentAuths := Some(newState);
      updates := [];
      if !hasQueue {
        return;
      }
      updates := Changed(before, newState, force);
      var gone := Removed(before, newState);
      updates := updates + gone;
      DiffReports(updates, before, newState, force);
    }

    /** The additions and changes, in some order. */
    method Changed(before: Auths, after: Auths, force: bool) returns (updates: seq<Update>)
      ensures forall i :: 0 <= i < |updates| ==>
              updates[i].id in after && Owed(before, after, force, updates[i].id) == Some(updates[i])
      ensures forall id :: id in after && Owed(before, after, force, id).Some? ==>
              Owed(before, after, force, id).value in updates
      ensures forall i, j :: 0 <= i < j < |updates| ==> updates[i].id != updates[j].id
    {
      updates := [];
      var todo := after.Keys;
      while todo != {}
        invariant todo <= after.Keys
        invariant forall i :: 0 <= i < |updates| ==>
                    updates[i].id in after && updates[i].id !in todo &&
                        Owed(before, after, force, updates[i].id) == Some(updates[i])
        invariant forall id :: id in after && id !in todo && Owed(before, after, force, id).Some? ==>
                  Owed(before, after, force, id).value in updates
        invariant forall i, j :: 0 <= i < j < |updates| ==> updates[i].id != updates[j].id
        decreases todo
      {
        var id :| id in todo;
        if id !in before {
          updates := updates + [Update(Add, id, Some(after[id]))];
        } else if force || !AuthEqual(before[id], after[id]) {
          updates := updates + [Update(Modify, id, Some(after[id]))];
        }
        todo := todo - {id};
      }
    }

    /** The deletions, in some order. */
    method Removed(before: Auths, after: Auths) returns (updates: seq<Update>)
      ensures forall i :: 0 <= i < |updates| ==>
                updates[i].id in before && updates[i].id !in after && updates[i] == Update(Delete, updates[i].id, None)
      ensures forall id :: id in before && id !in after ==> Update(Delete, id, None) in updates
      ensures forall i, j :: 0 <= i < j < |updates| ==> updates[i].id != updates[j].id
    {
      updates := [];
      var todo := before.Keys;
      while todo != {}
        invariant todo <= before.Keys
        invariant forall i :: 0 <= i < |updates| ==>
                    updates[i].id in before && updates[i].id !in todo && updates[i].id !in after &&
                        updates[i] == Update(Delete, updates[i].id, None)
        invariant forall id :: id in before && id !in todo && id !in after ==> Update(Delete, id, None) in updates
        invariant forall i, j :: 0 <= i < j < |updates| ==> updates[i].id != updates[j].id
        decreases todo
      {
        var id :| id in todo;
        if id !in after {
          updates := updates + [Update(Delete, id, None)];
        }
        todo := todo - {id};
      }
    }

    /** Coalesces updates into the pending ones. */
    method DispatchAuthUpdates(updates: seq<Update>, stamp: int)
      modifies this`pendingUpdates, this`pendingOrder
      ensures View() == if hasQueue then EnqueueAll(old(View()), updates, stamp) else old(View())
    {
      if |updates| == 0 || !hasQueue {
        return;
      }
      for i := 0 to |updates|
        invariant View() == EnqueueAll(old(View()), updates[..i], stamp)
      {
        assert updates[..i + 1][..i] == updates[..i];
        EnqueueAllFrame(old(View()), updates[..i], stamp);
        var key := KeyOf(updates[i], stamp + i);
        if key !in pendingUpdates {
          pendingOrder := pendingOrder + [key];
        }
        pendingUpdates := pendingUpdates[key := updates[i]];
      }
      assert updates[..|updates|] == updates;
    }

    /** Takes the snapshot and the runtime records as the new state and enqueues the difference. */
    method RefreshAuthState(snapshot: seq<Option<Auth>>, force: bool, stamp: int)
      requires Valid()
      modifies this
      ensures Valid()
      ensures exists us :: Diff(us, Known(old(View()).current), ByID(snapshot) + old(View()).runtime, force)
                           && View() == Refresh(old(View()), snapshot, us, stamp)
                           && Reports(us, Known(old(currentAuths)), Known(currentAuths), force)
      ensures exists listed :: HoldsLast(listed, snapshot) && Known(currentAuths) == listed + old(runtimeAuths)
    {
      ByIDHoldsLast(snapshot);
      var auths := snapshot;
      var todo := runtimeAuths.Keys;
      while todo != {}
        invariant todo <= runtimeAuths.Keys
        invariant View() == old(View()) && hasQueue
        invariant ByID(auths) == ByID(snapshot) + (runtimeAuths - todo)
        decreases todo
      {
        var id :| id in todo;
        assert (auths + [Some(runtimeAuths[id])])[..|auths|] == auths;
        assert runtimeAuths - (todo - {id}) == (runtimeAuths - todo)[id := runtimeAuths[id]];
        auths := auths + [Some(runtimeAuths[id])];
        todo := todo - {id};
      }
      assert runtimeAuths - todo == runtimeAuths;
      var updates := PrepareAuthUpdates(auths, force);
      DispatchAuthUpdates(updates, stamp);
      RefreshKeeps(old(View()), snapshot, force, updates, stamp);
      EnqueueAllFrame(old(View()).(current := currentAuths), updates, stamp);
      assert View() == Refresh(old(View()), snapshot, updates, stamp);
    }

    /** Records a runtime update in both maps and enqueues it. */
    method DispatchRuntimeAuthUpdate(u: Update, stamp: int) returns (dispatched: bool)
      modifies this
      ensures dispatched == hasQueue == old(hasQueue)
      ensures View() == if hasQueue then Runtime(old(View()), u, stamp) else RecordRuntime(old(View()), u)
      ensures old(Valid()) && WellFormed(u) ==> Valid()
    {
      match u.action {
        case Delete =>
          var id := if u.id == "" && u.auth.Some? then u.auth.value.id else u.id;
          if id != "" {
            runtimeAuths := runtimeAuths - {id};
            if currentAuths.Some? {
              currentAuths := Some(currentAuths.value - {id});
            }
          }
        case Unknown(_) =>
        case _ =>
          if u.auth.Some? && u.auth.value.id != "" {
            runtimeAuths := runtimeAuths[u.auth.value.id := u.auth.value];
            if currentAuths.None? {
              currentAuths := Some(map[]);
            }
            currentAuths := Some(currentAuths.value[u.auth.value.id := u.auth.value]);
          }
      }
      assert View() == RecordRuntime(old(View()), u);
      if !hasQueue {
        return false;
      }
      assert [u][..0] == [] && stamp + 0 == stamp;
      DispatchAuthUpdates([u], stamp);
      assert View() == Runtime(old(View()), u, stamp);
      if old(Valid()) && WellFormed(u) {
        RuntimeKeeps(old(View()), u, stamp);
      }
      return true;
    }

    // -------------------------------------------------------------------------------------
    // Dispatch loop
    // -------------------------------------------------------------------------------------

    /** Removes all pending updates and returns them in order. */
    method TakePending() returns (taken: seq<Update>)
      requires forall k :: k in pendingOrder ==> k in pendingUpdates
      requires forall i, j :: 0 <= i < j < |pendingOrder| ==> pendingOrder[i] != pendingOrder[j]
      modifies this`pendingUpdates, this`pendingOrder
      ensures taken == PendingBatch(old(pendingUpdates), old(pendingOrder))
      ensures pendingUpdates == old(pendingUpdates) - ElementSet(old(pendingOrder)) && pendingOrder == []
    {
      taken := [];
      ghost var order, pending := pendingOrder, pendingUpdates;
      for i := 0 to |pendingOrder|
        invariant pendingOrder == order
        invariant pendingUpdates == pending - ElementSet(order[..i])
        invariant taken == PendingBatch(pending, order)[..i]
      {
        assert order[..i + 1] == order[..i] + [order[i]];
        assert order[i] in pending && order[i] !in order[..i];
        taken := taken + [pendingUpdates[pendingOrder[i]]];
        pendingUpdates := pendingUpdates - {pendingOrder[i]};
        assert ElementSet(order[..i + 1]) == ElementSet(order[..i]) + {order[i]};
      }
      assert order[..|order|] == order;
      pendingOrder := [];
    }

    /** Takes the pending updates as the batch to deliver. */
    method NextPendingBatch()
      requires Valid() && batch == [] && pendingOrder != []
      modifies this
      ensures Valid() && View() == Drain(old(View()))
    {
      batch := TakePending();
      DrainKeeps(old(View()));
      assert View() == Drain(old(View()));
    }

    /** Sends the next update of the batch into the channel. */
    method DeliverOne()
      requires Valid() && batch != [] && |authUpdates| < Capacity
      modifies this
      ensures Valid() && View() == Deliver(old(View()))
    {
      authUpdates := authUpdates + [batch[0]];
      batch := batch[1..];
      DeliverKeeps(old(View()));
    }

    // -------------------------------------------------------------------------------------
    // Service
    // -------------------------------------------------------------------------------------

    method HandleAuthUpdate(u: Update)
      modifies this`managed
      ensures managed == Handle(old(managed), u) && Stores(old(managed), managed, u)
    {
      HandleStores(managed, u);
      match u.action {
        case Delete =>
          var id := if u.id == "" && u.auth.Some? then u.auth.value.id else u.id;
          if id != "" && id in managed {
            managed := managed[id := managed[id].(disabled := true, status := "disabled")];
          }
        case Unknown(_) =>
        case _ =>
          if u.auth.None? || u.auth.value.id == "" {
            return;
          }
          var auth := u.auth.value;
          if auth.id in managed {
            var existing := managed[auth.id];
            auth := auth.(createdAt := existing.createdAt, lastRefreshedAt := existing.lastRefreshedAt,
                          nextRefreshAfter := existing.nextRefreshAfter);
          }
          managed := managed[auth.id := auth];
      }
    }

    method ConsumeAuthUpdate()
      requires Valid() && authUpdates != []
      modifies this
      ensures Valid() && View() == Consume(old(View()))
    {
      var u := authUpdates[0];
      authUpdates := authUpdates[1..];
      HandleAuthUpdate(u);
      ConsumeKeeps(old(View()));
    }
  }
}
