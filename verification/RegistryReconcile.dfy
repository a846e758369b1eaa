/** Re-registering a client incrementally against unregistering it and registering it afresh. */
module RegistryReconcile {
  import opened Collections
  import opened RegistryModel
  import opened RegistryIndex
  import Text

  // ---------------------------------------------------------------------------------------
  // One id
  // ---------------------------------------------------------------------------------------

  /** The two slots agree on everything clients and providers are counted by. */
  ghost predicate SameCounters(a: Option<Registration>, b: Option<Registration>) {
    && (a.Some? <==> b.Some?)
    && (a.Some? ==>
          && a.value.count == b.value.count
          && a.value.providers == b.value.providers
          && a.value.info == b.value.info
          && a.value.infoByProvider == b.value.infoByProvider)
  }

  /** The closed form determines the counters. */
  lemma MovedDetermines(r: Option<Registration>, a: Option<Registration>, b: Option<Registration>, ch: Change)
    requires Covers(r, ch) && Moved(r, a, ch) && Moved(r, b, ch)
    requires r.None? ==> ch.n > 0 || a.None?
    ensures SameCounters(a, b)
  {
    if a.Some? {
      forall p
        ensures p in a.value.providers <==> p in b.value.providers
        ensures p in a.value.providers ==> a.value.providers[p] == b.value.providers[p]
        ensures p in a.value.infoByProvider <==> p in b.value.infoByProvider
        ensures p in a.value.infoByProvider ==> a.value.infoByProvider[p] == b.value.infoByProvider[p]
      {
        assert ProviderMoved(r, a, ch, p) && ProviderMoved(r, b, ch, p);
      }
      assert a.value.providers == b.value.providers;
      assert a.value.infoByProvider == b.value.infoByProvider;
    }
  }

  /** When the incremental path and the fresh one leave the same marks on an id. */
  ghost predicate SlotSettled(r: Option<Registration>, ch: Change) {
    r.Some? && ch.n > 0 ==>
      && (ch.o == 0 ==> ch.client !in r.value.quota && ch.client !in r.value.suspended)
      && (ch.o > 0 && r.value.count == ch.o ==>
          r.value.quota.Keys <= {ch.client} && r.value.suspended.Keys <= {ch.client})
  }

  ghost predicate SameMarks(a: Option<Registration>, b: Option<Registration>) {
    a.Some? && b.Some? ==> a.value.quota == b.value.quota && a.value.suspended == b.value.suspended
  }

  /** The incremental path unmarks the client on every offered id. */
  lemma ReconcileUnmarks(r: Option<Registration>, ch: Change)
    requires Covers(r, ch) && r.Some? && ch.n > 0
    ensures var a := Reconcile(r, ch);
      a.Some? && a.value.quota == r.value.quota - {ch.client} && a.value.suspended == r.value.suspended - {ch.client}
  {
    var x := r.value;
    var r1 := MoveAway(r, ch);
    assert r1.Some? && r1.value.quota == x.quota && r1.value.suspended == x.suspended && r1.value.count == x.count;
    var r4 := Extend(Reduce(Remove(r1, ch), ch), ch);
    assert r4.Some?;
    assert r4.value.quota - {ch.client} == x.quota - {ch.client};
    assert r4.value.suspended - {ch.client} == x.suspended - {ch.client};
  }

  /** The fresh path forgets all marks of a dying registration, else unmarks the client if it was listed. */
  lemma ReplaceUnmarks(r: Option<Registration>, ch: Change)
    requires Covers(r, ch) && r.Some? && ch.n > 0
    ensures var b := Replace(r, ch);
      && b.Some?
      && (r.value.count == ch.o ==> b.value.quota == map[] && b.value.suspended == map[])
      && (r.value.count > ch.o && ch.o > 0 ==>
          b.value.quota == r.value.quota - {ch.client} && b.value.suspended == r.value.suspended - {ch.client})
      && (ch.o == 0 ==> b.value.quota == r.value.quota && b.value.suspended == r.value.suspended)
  {
  }

  lemma EmptiedBy<V>(m: map<string, V>, c: string)
    ensures m - {c} == map[] <==> m.Keys <= {c}
    ensures m - {c} == m <==> c !in m
  {
    assert (m - {c}).Keys == m.Keys - {c};
    if m.Keys <= {c} {
      assert (m - {c}).Keys == {};
    } else {
      var k :| k in m && k != c;
      assert k in m - {c};
    }
  }

  lemma ReconcileMarks(r: Option<Registration>, ch: Change)
    requires Covers(r, ch)
    ensures SameMarks(Reconcile(r, ch), Replace(r, ch)) <==> SlotSettled(r, ch)
  {
    if r.Some? && ch.n > 0 {
      ReconcileUnmarks(r, ch);
      ReplaceUnmarks(r, ch);
      EmptiedBy(r.value.quota, ch.client);
      EmptiedBy(r.value.suspended, ch.client);
    }
  }

  lemma ReconcileStamp(r: Option<Registration>, ch: Change)
    requires Covers(r, ch)
    ensures Reconcile(r, ch).Some? && Replace(r, ch).Some? ==>
            Reconcile(r, ch).value.lastUpdated == Replace(r, ch).value.lastUpdated
  {
  }

  /** The incremental edits of one id equal removal followed by addition, exactly when its marks are settled. */
  lemma ReconcileEqualsReplace(r: Option<Registration>, ch: Change)
    requires Covers(r, ch)
    requires Count(r) == ch.o ==> forall p :: ProviderCount(r, p) == Share(p, ch.from, ch.o)
    ensures SameCounters(Reconcile(r, ch), Replace(r, ch))
    ensures Reconcile(r, ch) == Replace(r, ch) <==> SlotSettled(r, ch)
  {
    ReconcileMoves(r, ch);
    ReplaceMoves(r, ch);
    MovedDetermines(r, Reconcile(r, ch), Replace(r, ch), ch);
    ReconcileMarks(r, ch);
    ReconcileStamp(r, ch);
  }

  // ---------------------------------------------------------------------------------------
  // The whole registry
  // ---------------------------------------------------------------------------------------

  /** What the caller can check beforehand: an offered id the client does not list yet carries no
      mark of the client, and an offered id that only the client lists carries no mark of another. */
  ghost predicate MarksSettled(s: State, client: string, offered: seq<Option<ModelInfo>>) {
    client in s.clientModels ==>
      forall id :: id in s.models && id in Ids(offered) ==>
        IdSettled(s, client, id)
  }

  ghost predicate IdSettled(s: State, client: string, id: string)
    requires id in s.models && client in s.clientModels
  {
    var x := s.models[id];
    && (id !in s.clientModels[client] ==> client !in x.quota && client !in x.suspended)
    && (OnlyLister(s, client, id) ==> x.quota.Keys <= {client} && x.suspended.Keys <= {client})
  }

  ghost predicate OnlyLister(s: State, client: string, id: string) {
    forall c :: c in s.clientModels && id in s.clientModels[c] ==> c == client
  }

  /** The state without one client. */
  function Without(s: State, client: string): State {
    s.(clientModels := s.clientModels - {client}, clientProviders := s.clientProviders - {client})
  }

  lemma OnlyListerHoldsCount(s: State, client: string, id: string)
    ensures OnlyLister(s, client, id) <==> Recount(s, id) == Mult(ListedBy(s, client), id)
  {
    var s0 := Without(s, client);
    RecountMoves(s, s0, client, id);
    ListedIffRecounted(s0, id);
    if !OnlyLister(s, client, id) {
      var c :| c in s.clientModels && id in s.clientModels[c] && c != client;
      assert c in s0.clientModels && id in s0.clientModels[c];
    }
  }

  lemma OnlyListerHoldsProviders(s: State, client: string, id: string, p: string)
    requires Recount(s, id) == Mult(ListedBy(s, client), id)
    ensures ProviderRecount(s, id, p) == Share(p, ProviderOf(s, client), Mult(ListedBy(s, client), id))
  {
    var s0 := Without(s, client);
    RecountMoves(s, s0, client, id);
    ProviderRecountMoves(s, s0, client, id, p);
    ProviderWithinListing(s0, id, p);
  }

  lemma SlotCovers(s: State, client: string, to: string, offered: seq<Option<ModelInfo>>, now: Time, id: string)
    requires Indexed(s) && client in s.clientModels
    ensures Covers(Look(s.models, id), ChangeFor(s, client, to, offered, now, id))
  {
    hide Indexed, Covers;
    var ch := ChangeFor(s, client, to, offered, now, id);
    var s' := s.(clientModels := s.clientModels[client := Ids(offered)],
                 clientProviders := SetProvider(s.clientProviders, client, to));
    assert DifferAt(s, s', client) by {
      assert s'.clientModels - {client} == s.clientModels - {client};
      assert s'.clientProviders - {client} == s.clientProviders - {client};
    }
    if to == "" {
      assert ProviderOf(s', client) == to;
    }
    ExactCovers(s, s', ch, id);
  }

  lemma SlotMeetsReplace(s: State, client: string, to: string, offered: seq<Option<ModelInfo>>, now: Time, id: string)
    requires Indexed(s) && client in s.clientModels
    ensures var ch := ChangeFor(s, client, to, offered, now, id);
      && Covers(Look(s.models, id), ch)
      && (Count(Look(s.models, id)) == ch.o ==> forall p ::
          ProviderCount(Look(s.models, id), p) == Share(p, ch.from, ch.o))
  {
    hide Indexed, Covers;
    SlotCovers(s, client, to, offered, now, id);
    var ch := ChangeFor(s, client, to, offered, now, id);
    ExactSlot(s, id, "");
    if Count(Look(s.models, id)) == ch.o {
      forall p
        ensures ProviderCount(Look(s.models, id), p) == Share(p, ch.from, ch.o)
      {
        ExactSlot(s, id, p);
        OnlyListerHoldsProviders(s, client, id, p);
        if id !in s.models {
          ListedIffRecounted(s, id);
        }
      }
    }
  }

  /** The slot of an id after unregistering and registering afresh. */
  lemma FreshSlot(s: State, client: string, clientProvider: string, offered: seq<Option<ModelInfo>>, now: Time,
                  id: string)
    requires Indexed(s) && client in s.clientModels && Ids(offered) != []
    ensures Look(RegisterClient(UnregisterClient(s, client, now), client, clientProvider, offered, now).models, id)
         == Replace(Look(s.models, id), ChangeFor(s, client, Text.ToLower(clientProvider), offered, now, id))
  {
    var u := UnregisterClient(s, client, now);
    UnregisterClientAt(s, client, now, id);
    RegisterClientAt(u, client, clientProvider, offered, now, id);
    assert client !in u.clientModels;
  }

  /** Re-registering a client, with any mix of removed, reduced, increased and overlapping ids and
      any provider change, counts exactly as unregistering it and registering it afresh. */
  lemma ReRegisterCountsAsFresh(s: State, client: string, clientProvider: string, offered: seq<Option<ModelInfo>>,
                                now: Time, id: string)
    requires Indexed(s)
    ensures SameCounters(
              Look(RegisterClient(s, client, clientProvider, offered, now).models, id),
              Look(RegisterClient(UnregisterClient(s, client, now), client, clientProvider, offered, now).models, id))
  {
    if client !in s.clientModels {
      assert UnregisterClient(s, client, now) == s;
    } else if Ids(offered) == [] {
      UnregisterTwice(s, client, now);
    } else {
      RegisterClientAt(s, client, clientProvider, offered, now, id);
      FreshSlot(s, client, clientProvider, offered, now, id);
      SlotMeetsReplace(s, client, Text.ToLower(clientProvider), offered, now, id);
      ReconcileEqualsReplace(Look(s.models, id), ChangeFor(s, client, Text.ToLower(clientProvider), offered, now, id));
    }
  }

  lemma UnregisterTwice(s: State, client: string, now: Time)
    ensures UnregisterClient(UnregisterClient(s, client, now), client, now) == UnregisterClient(s, client, now)
  {
  }

  lemma SettledSlot(s: State, client: string, to: string, offered: seq<Option<ModelInfo>>, now: Time, id: string)
    requires Indexed(s) && client in s.clientModels
    ensures SlotSettled(Look(s.models, id), ChangeFor(s, client, to, offered, now, id)) <==>
            (id in s.models && id in Ids(offered) ==> IdSettled(s, client, id))
  {
    OnlyListerHoldsCount(s, client, id);
    ExactSlot(s, id, "");
    ListedIffRecounted(s, id);
    assert SlotExact(s, id, Look(s.models, id));
  }

  lemma NonEmptyEqualsFresh(s: State, client: string, clientProvider: string, offered: seq<Option<ModelInfo>>,
                            now: Time)
    requires Indexed(s) && client in s.clientModels && Ids(offered) != []
    ensures RegisterClient(s, client, clientProvider, offered, now)
         == RegisterClient(UnregisterClient(s, client, now), client, clientProvider, offered, now)
       <==> MarksSettled(s, client, offered)
  {
    hide RegisterClient, UnregisterClient, SlotSettled, IdSettled, Indexed;
    var a := RegisterClient(s, client, clientProvider, offered, now);
    var b := RegisterClient(UnregisterClient(s, client, now), client, clientProvider, offered, now);
    FreshClients(s, client, clientProvider, offered, now);
    forall id
      ensures Look(a.models, id) == Look(b.models, id) <==>
              (id in s.models && id in Ids(offered) ==> IdSettled(s, client, id))
    {
      SlotDecided(s, client, clientProvider, offered, now, id);
      SettledSlot(s, client, Text.ToLower(clientProvider), offered, now, id);
    }
    if MarksSettled(s, client, offered) {
      SameMaps(a.models, b.models);
    }
  }

  /** The two ways also leave the same marks, hence the same registry, exactly when the marks are settled. */
  lemma ReRegisterEqualsFresh(s: State, client: string, clientProvider: string, offered: seq<Option<ModelInfo>>,
                              now: Time)
    requires Indexed(s)
    ensures RegisterClient(s, client, clientProvider, offered, now)
         == RegisterClient(UnregisterClient(s, client, now), client, clientProvider, offered, now)
       <==> MarksSettled(s, client, offered)
  {
    if client !in s.clientModels {
      assert UnregisterClient(s, client, now) == s;
    } else if Ids(offered) == [] {
      UnregisterTwice(s, client, now);
    } else {
      NonEmptyEqualsFresh(s, client, clientProvider, offered, now);
    }
  }

  lemma SlotDecided(s: State, client: string, clientProvider: string, offered: seq<Option<ModelInfo>>, now: Time,
                    id: string)
    requires Indexed(s) && client in s.clientModels && Ids(offered) != []
    ensures Look(RegisterClient(s, client, clientProvider, offered, now).models, id)
         == Look(RegisterClient(UnregisterClient(s, client, now), client, clientProvider, offered, now).models, id)
       <==> SlotSettled(Look(s.models, id), ChangeFor(s, client, Text.ToLower(clientProvider), offered, now, id))
  {
    RegisterClientAt(s, client, clientProvider, offered, now, id);
    FreshSlot(s, client, clientProvider, offered, now, id);
    SlotMeetsReplace(s, client, Text.ToLower(clientProvider), offered, now, id);
    ReconcileEqualsReplace(Look(s.models, id), ChangeFor(s, client, Text.ToLower(clientProvider), offered, now, id));
  }

  lemma FreshClients(s: State, client: string, clientProvider: string, offered: seq<Option<ModelInfo>>, now: Time)
    requires client in s.clientModels && Ids(offered) != []
    ensures var a := RegisterClient(s, client, clientProvider, offered, now);
      var b := RegisterClient(UnregisterClient(s, client, now), client, clientProvider, offered, now);
      a == b.(models := a.models)
  {
  }

  /** Marks only name clients that list the model: what the callers of SetModelQuotaExceeded and
      SuspendClientModel are expected to respect, and the code does not check. */
  ghost predicate MarksListed(s: State) {
    forall id, c :: id in s.models && (c in s.models[id].quota || c in s.models[id].suspended) ==>
      c in s.clientModels && id in s.clientModels[c]
  }

  lemma ListedMarksAreSettled(s: State, client: string, offered: seq<Option<ModelInfo>>)
    requires MarksListed(s)
    ensures MarksSettled(s, client, offered)
  {
    forall id | client in s.clientModels && id in s.models
      ensures IdSettled(s, client, id)
    {
      if OnlyLister(s, client, id) {
        forall c | c in s.models[id].quota || c in s.models[id].suspended
          ensures c == client
        {
          assert c in s.clientModels && id in s.clientModels[c];
        }
      }
    }
  }

  /** Unlisted marks break the equality: a mark of a client that never registered survives the
      incremental path and is lost by the fresh one. */
  lemma UnsettledMarksExample()
    ensures var offer := [Some(ModelInfo("m", "", 0, ""))];
      var s := Run(Empty, [(Register("c", "p", offer), 1), (SetQuota("stranger", "m"), 2)]);
      RegisterClient(s, "c", "p", offer, 3) != RegisterClient(UnregisterClient(s, "c", 3), "c", "p", offer, 3)
  {
    var offer := [Some(ModelInfo("m", "", 0, ""))];
    var r1, r2 := [(Register("c", "p", offer), 1)], [(Register("c", "p", offer), 1), (SetQuota("stranger", "m"), 2)];
    var s1, s := Run(Empty, r1), Run(Empty, r2);
    assert r2[..1] == r1 && r1[..0] == [];
    assert Run(Empty, r1[..0]) == Empty;
    assert s1 == RegisterClient(Empty, "c", "p", offer, 1);
    assert s == SetModelQuotaExceeded(s1, "stranger", "m", 2);
    assert Ids(offer) == ["m"] by {
      assert offer[..0] == [];
    }
    RegisterClientAt(Empty, "c", "p", offer, 1, "m");
    assert "stranger" in s.models["m"].quota;
    ReachableIsIndexed(r2);
    assert OnlyLister(s, "c", "m");
    assert !MarksSettled(s, "c", offer);
    ReRegisterEqualsFresh(s, "c", "p", offer, 3);
  }
}
