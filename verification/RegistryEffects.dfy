/** What a client observes of the operations of the registry, told without the functions that specify them. */
module RegistryEffects {
  import opened Collections
  import opened RegistryModel
  import opened RegistryIndex
  import opened RegistryAvailability
  import Text

  // ---------------------------------------------------------------------------------------
  // Registering: what is read from an offer
  // ---------------------------------------------------------------------------------------

  /** The positions of the models that are present and have an id. */
  function UsablePositions(offered: seq<Option<ModelInfo>>): set<nat> {
    set j: nat | j < |offered| && offered[j].Some? && offered[j].value.id != "" :: j
  }

  /** A list of ids is that of the usable models, in order and with repetitions. */
  ghost predicate ListsOffer(ids: seq<string>, offered: seq<Option<ModelInfo>>, ps: seq<nat>) {
    && Enumerates(ps, UsablePositions(offered)) && |ids| == |ps|
    && forall k :: 0 <= k < |ids| ==> ps[k] in UsablePositions(offered) && ids[k] == offered[ps[k]].value.id
  }

  /** The first usable model with an id. */
  ghost predicate FirstWith(offered: seq<Option<ModelInfo>>, j: nat, id: string) {
    && j in UsablePositions(offered) && offered[j].value.id == id
    && forall i :: i in UsablePositions(offered) && i < j ==> offered[i].value.id != id
  }

  ghost predicate Offers(offered: seq<Option<ModelInfo>>, id: string) {
    exists j: nat :: FirstWith(offered, j, id)
  }

  /** A map of infos holds the first usable model of each id. */
  ghost predicate HoldsFirst(infos: map<string, ModelInfo>, offered: seq<Option<ModelInfo>>) {
    && (forall id :: id in infos <==> Offers(offered, id))
    && (forall j: nat, id :: FirstWith(offered, j, id) && id in infos ==> infos[id] == offered[j].value)
  }

  lemma PositionsMore(offered: seq<Option<ModelInfo>>)
    requires offered != []
    ensures var n := |offered| - 1;
      UsablePositions(offered) ==
      UsablePositions(offered[..n]) + if offered[n].Some? && offered[n].value.id != "" then {n} else {}
  {
  }

  lemma ListedMore(ids: seq<string>, offered: seq<Option<ModelInfo>>, ps: seq<nat>)
    requires offered != [] && ListsOffer(ids, offered[..|offered| - 1], ps)
    ensures var n := |offered| - 1;
      if offered[n].Some? && offered[n].value.id != "" then ListsOffer(ids + [offered[n].value.id], offered, ps + [n])
      else ListsOffer(ids, offered, ps)
  {
    var n := |offered| - 1;
    PositionsMore(offered);
    EnumeratesMore(ps, UsablePositions(offered[..n]), n);
  }

  lemma {:induction false} IdsListOffer(offered: seq<Option<ModelInfo>>) returns (ps: seq<nat>)
    ensures ListsOffer(Ids(offered), offered, ps)
  {
    ps := [];
    if offered != [] {
      var n := |offered| - 1;
      ps := IdsListOffer(offered[..n]);
      ListedMore(Ids(offered[..n]), offered, ps);
      ps := if offered[n].Some? && offered[n].value.id != "" then ps + [n] else ps;
    }
  }

  lemma FirstMore(offered: seq<Option<ModelInfo>>, j: nat, id: string)
    requires offered != []
    ensures var n := |offered| - 1;
      FirstWith(offered, j, id) <==>
      || FirstWith(offered[..n], j, id)
      || (j == n && offered[n].Some? && offered[n].value.id == id != "" && !Offers(offered[..n], id))
  {
    var n := |offered| - 1;
    PositionsMore(offered);
    if j == n && offered[n].Some? && offered[n].value.id == id != "" && !FirstWith(offered, n, id) {
      var i :| i in UsablePositions(offered) && i < n && offered[i].value.id == id;
      var k := LeastWith(offered[..n], i, id);
      assert FirstWith(offered[..n], k, id);
    }
  }

  /** Among the usable models with an id there is a first one. */
  lemma {:induction false} LeastWith(offered: seq<Option<ModelInfo>>, i: nat, id: string) returns (k: nat)
    requires i in UsablePositions(offered) && offered[i].value.id == id
    ensures FirstWith(offered, k, id)
    decreases i
  {
    if FirstWith(offered, i, id) {
      k := i;
    } else {
      var j :| j in UsablePositions(offered) && j < i && offered[j].value.id == id;
      k := LeastWith(offered, j, id);
    }
  }

  lemma {:induction false} InfosHoldFirst(offered: seq<Option<ModelInfo>>)
    ensures HoldsFirst(Infos(offered), offered)
  {
    if offered != [] {
      var n := |offered| - 1;
      InfosHoldFirst(offered[..n]);
      forall j: nat, id: string
        ensures FirstWith(offered, j, id) <==>
                || FirstWith(offered[..n], j, id)
                || (j == n && offered[n].Some? && offered[n].value.id == id != "" && !Offers(offered[..n], id))
      {
        FirstMore(offered, j, id);
      }
      forall id
        ensures id in Infos(offered) <==> Offers(offered, id)
      {
        if Offers(offered[..n], id) {
          var j :| FirstWith(offered[..n], j, id);
          assert FirstWith(offered, j, id);
        } else if offered[n].Some? && offered[n].value.id == id != "" {
          assert FirstWith(offered, n, id);
        }
      }
    }
  }

  /** Nothing but one client is touched in the lists, infos and providers. */
  ghost predicate OnlyClient(s: State, s': State, client: string) {
    && s'.clientModels - {client} == s.clientModels - {client}
    && s'.clientInfos - {client} == s.clientInfos - {client}
    && s'.clientProviders - {client} == s.clientProviders - {client}
  }

  /** The client lists what it offers, under the lower-cased name of its provider. An offer without usable models
      forgets it. The other clients are as before. */
  ghost predicate Enrols(s: State, s': State, client: string, provider: string, offered: seq<Option<ModelInfo>>) {
    && OnlyClient(s, s', client)
    && if UsablePositions(offered) == {} then
         client !in s'.clientModels && client !in s'.clientInfos && client !in s'.clientProviders
       else
         && client in s'.clientModels && (exists ps :: ListsOffer(s'.clientModels[client], offered, ps))
         && client in s'.clientInfos && HoldsFirst(s'.clientInfos[client], offered)
         && Look(s'.clientProviders, client) ==
            if provider == "" then None else Some(Text.ToLower(provider))
  }

  lemma RegisterTouchesOne(s: State, client: string, provider: string, offered: seq<Option<ModelInfo>>, now: Time)
    ensures OnlyClient(s, RegisterClient(s, client, provider, offered, now), client)
  {
    hide Registered, Unregistered, Ids, Infos;
    Elsewhere(s.clientModels, client, Ids(offered));
    Elsewhere(s.clientInfos, client, Infos(offered));
    Elsewhere(s.clientProviders, client, Text.ToLower(provider));
  }

  lemma Elsewhere<V>(m: map<string, V>, k: string, v: V)
    ensures m[k := v] - {k} == m - {k} && m - {k} - {k} == m - {k}
  {
  }

  lemma LowerEmpty(s: string)
    ensures Text.ToLower(s) == "" <==> s == ""
  {
  }

  lemma OfferEmptyIff(offered: seq<Option<ModelInfo>>)
    ensures Ids(offered) == [] <==> UsablePositions(offered) == {}
  {
    var ps := IdsListOffer(offered);
    NothingEnumerated(ps, UsablePositions(offered));
  }

  /** Registering enrols the client with everything it offers, or forgets a client that offers nothing. */
  lemma RegisterEnrols(s: State, client: string, provider: string, offered: seq<Option<ModelInfo>>, now: Time)
    ensures Enrols(s, RegisterClient(s, client, provider, offered, now), client, provider, offered)
  {
    hide Registered, HoldsFirst, ListsOffer, OnlyClient;
    OfferEmptyIff(offered);
    LowerEmpty(provider);
    RegisterTouchesOne(s, client, provider, offered, now);
    var s' := RegisterClient(s, client, provider, offered, now);
    if UsablePositions(offered) != {} {
      var ps := IdsListOffer(offered);
      InfosHoldFirst(offered);
      assert ListsOffer(s'.clientModels[client], offered, ps);
    }
  }

  // ---------------------------------------------------------------------------------------
  // Registering: what becomes of the registrations
  // ---------------------------------------------------------------------------------------

  /** The registration of an offered id carries the first info that was offered for it. */
  ghost predicate Announces(s': State, provider: string, offered: seq<Option<ModelInfo>>, now: Time, id: string) {
    forall j: nat :: FirstWith(offered, j, id) ==>
      && id in s'.models
      && s'.models[id].info == offered[j].value && s'.models[id].lastUpdated == now
      && (provider != "" ==> Look(s'.models[id].infoByProvider, Text.ToLower(provider)) == Some(offered[j].value))
  }

  lemma ReconciledInfo(r: Option<Registration>, ch: Change)
    requires ch.Valid() && ch.n > 0
    ensures var y := Reconcile(r, ch);
      y.Some? ==>
        && y.value.info == ch.info.value && y.value.lastUpdated == ch.now
        && (ch.to != "" ==> Look(y.value.infoByProvider, ch.to) == ch.info)
  {
  }

  /** The registrations of all offered ids exist and carry the first info offered. */
  lemma RegisterAnnounces(s: State, client: string, provider: string, offered: seq<Option<ModelInfo>>, now: Time,
                          id: string)
    requires Indexed(s)
    ensures Announces(RegisterClient(s, client, provider, offered, now), provider, offered, now, id)
  {
    var s' := RegisterClient(s, client, provider, offered, now);
    InfosHoldFirst(offered);
    forall j: nat | FirstWith(offered, j, id)
      ensures id in s'.models
      ensures s'.models[id].info == offered[j].value && s'.models[id].lastUpdated == now
      ensures provider != "" ==>
                Look(s'.models[id].infoByProvider, Text.ToLower(provider)) == Some(offered[j].value)
    {
      assert id in Infos(offered);
      OfferedIsStored(s, client, provider, offered, now, id);
      OfferedInfo(s, client, Text.ToLower(provider), offered, now, id);
      RegisterClientAt(s, client, provider, offered, now, id);
      LowerEmpty(provider);
    }
  }

  lemma OfferedIsStored(s: State, client: string, provider: string, offered: seq<Option<ModelInfo>>, now: Time,
                        id: string)
    requires Indexed(s) && id in Infos(offered)
    ensures Ids(offered) != [] && id in RegisterClient(s, client, provider, offered, now).models
  {
    var s' := RegisterClient(s, client, provider, offered, now);
    assert id in ElementSet(Ids(offered));
    RegisterKeepsIndex(s, client, provider, offered, now);
    assert SlotExact(s', id, Look(s'.models, id));
    assert id in s'.clientModels[client];
    ListedIffRecounted(s', id);
  }

  lemma OfferedInfo(s: State, client: string, to: string, offered: seq<Option<ModelInfo>>, now: Time, id: string)
    requires id in Infos(offered)
    ensures var y := Registered(s, client, to, offered, now, id);
      y.Some? ==>
        && y.value.info == Infos(offered)[id] && y.value.lastUpdated == now
        && (to != "" ==> Look(y.value.infoByProvider, to) == Some(Infos(offered)[id]))
  {
    var ch := ChangeFor(s, client, to, offered, now, id);
    assert id in ElementSet(Ids(offered));
    assert ch.n > 0;
    ReconciledInfo(Look(s.models, id), ch);
  }

  /** Who keeps its marks: everybody but a known client on the ids that it lists or offers. */
  ghost predicate KeepsMarks(s: State, s': State, client: string, offered: seq<Option<ModelInfo>>, id: string) {
    id in s.models && id in s'.models ==>
      var booked := client in s.clientModels && (id in s.clientModels[client] || Offers(offered, id));
      var gone := if booked then {client} else {};
      s'.models[id].quota == s.models[id].quota - gone && s'.models[id].suspended == s.models[id].suspended - gone
  }

  lemma LoseMarks(r: Option<Registration>, client: string, provider: string, k: nat, now: Time)
    ensures var y := Lose(r, client, provider, k, now);
      var gone := if k > 0 then {client} else {};
      y.Some? ==> r.Some? && y.value.quota == r.value.quota - gone && y.value.suspended == r.value.suspended - gone
  {
  }

  predicate SameMarks(r: Option<Registration>, y: Option<Registration>) {
    y.Some? ==> r.Some? && y.value.quota == r.value.quota && y.value.suspended == r.value.suspended
  }

  predicate MarksWithout(r: Option<Registration>, y: Option<Registration>, client: string) {
    y.Some? ==>
      && r.Some? && y.value.quota == r.value.quota - {client} && y.value.suspended == r.value.suspended - {client}
  }

  lemma ReconcileMarks(r: Option<Registration>, ch: Change)
    requires ch.Valid() && r.Some? && r.value.count >= ch.o && (ch.n > 0 || ch.o > 0)
    ensures MarksWithout(r, Reconcile(r, ch), ch.client)
  {
    var r1 := MoveAway(r, ch);
    MoveAwayMarks(r, ch);
    var r2 := Reduce(Remove(r1, ch), ch);
    ReduceMarks(r1, ch);
    var r3 := Extend(r2, ch);
    ExtendMarks(r2, ch);
    RefreshMarks(r3, ch);
  }

  lemma MoveAwayMarks(r: Option<Registration>, ch: Change)
    ensures SameMarks(r, MoveAway(r, ch)) && (r.Some? ==> MoveAway(r, ch).Some?)
    ensures r.Some? ==> MoveAway(r, ch).value.count == r.value.count
  {
  }

  lemma ReduceMarks(r: Option<Registration>, ch: Change)
    requires r.Some? && r.value.count >= ch.o
    ensures var y := Reduce(Remove(r, ch), ch);
      && (ch.n > 0 ==> y.Some?) && (ch.n >= ch.o ==> SameMarks(r, y)) && (ch.n < ch.o ==> MarksWithout(r, y, ch.client))
      && (ch.n == 0 && ch.o == 0 ==> SameMarks(r, y))
  {
    LoseMarks(r, ch.client, ch.from, ch.o, ch.now);
    if 0 < ch.n < ch.o {
      LoseMarks(r, ch.client, ch.from, ch.o - ch.n, ch.now);
    }
  }

  lemma ExtendMarks(r: Option<Registration>, ch: Change)
    requires ch.Valid() && (ch.n > 0 ==> r.Some?)
    ensures SameMarks(r, Extend(r, ch)) && (r.Some? ==> Extend(r, ch).Some?)
  {
  }

  lemma RefreshMarks(r: Option<Registration>, ch: Change)
    requires ch.Valid()
    ensures if ch.n > 0 then MarksWithout(r, Refresh(r, ch), ch.client) else Refresh(r, ch) == r
  {
  }

  lemma NoMarksLost(q: map<string, Time>, u: map<string, string>)
    ensures q - {} == q && u - {} == u
  {
  }

  lemma OfferedIffListed(offered: seq<Option<ModelInfo>>, id: string)
    ensures Offers(offered, id) <==> Mult(Ids(offered), id) > 0
  {
    InfosHoldFirst(offered);
    assert id in Infos(offered) <==> id in ElementSet(Ids(offered));
  }

  /** Registering removes the marks of the client and of nobody else. */
  lemma RegisterKeepsMarks(s: State, client: string, provider: string, offered: seq<Option<ModelInfo>>, now: Time,
                           id: string)
    requires Indexed(s)
    ensures KeepsMarks(s, RegisterClient(s, client, provider, offered, now), client, offered, id)
  {
    var s' := RegisterClient(s, client, provider, offered, now);
    OfferedIffListed(offered, id);
    if id in s.models && id in s'.models {
      NoMarksLost(s.models[id].quota, s.models[id].suspended);
      if Ids(offered) == [] {
        UnregisterClientAt(s, client, now, id);
        LoseMarks(Look(s.models, id), client, ProviderOf(s, client), Mult(ListedBy(s, client), id), now);
      } else {
        RegisterClientAt(s, client, provider, offered, now, id);
        if client in s.clientModels {
          ListedWithinCount(s, client, id);
          var ch := ChangeFor(s, client, Text.ToLower(provider), offered, now, id);
          if ch.n > 0 || ch.o > 0 {
            ReconcileMarks(Look(s.models, id), ch);
          }
        }
      }
    }
  }

  lemma ListedWithinCount(s: State, client: string, id: string)
    requires Indexed(s) && id in s.models
    ensures s.models[id].count >= Mult(ListedBy(s, client), id)
  {
    assert SlotExact(s, id, Look(s.models, id));
    var w := ListWeights(s, id);
    SumNonNegative(w);
    if client in s.clientModels {
      assert w[client] <= Sum(w);
    }
  }

  lemma LoseStamps(r: Option<Registration>, client: string, provider: string, k: nat, now: Time)
    requires k > 0 && Lose(r, client, provider, k, now).Some?
    ensures Lose(r, client, provider, k, now).value.lastUpdated == now
  {
  }

  /** An id that the client lists no more is stamped with the time of the change, if anyone still lists it. */
  lemma DroppedIsStamped(s: State, client: string, provider: string, offered: seq<Option<ModelInfo>>, now: Time,
                         id: string)
    requires client in s.clientModels && id in s.clientModels[client] && !Offers(offered, id)
    ensures var s' := RegisterClient(s, client, provider, offered, now);
      id in s'.models ==> s'.models[id].lastUpdated == now
  {
    hide RegisterClient, UnregisterClient, Lose, Ids, Infos;
    OfferedIffListed(offered, id);
    var k := Mult(ListedBy(s, client), id);
    assert k > 0;
    if id in RegisterClient(s, client, provider, offered, now).models {
      if Ids(offered) == [] {
        EmptyUnregisters(s, client, provider, offered, now);
        UnregisterClientAt(s, client, now, id);
      } else {
        RegisterClientAt(s, client, provider, offered, now, id);
      }
      LoseStamps(Look(s.models, id), client, ProviderOf(s, client), k, now);
    }
  }

  lemma EmptyUnregisters(s: State, client: string, provider: string, offered: seq<Option<ModelInfo>>, now: Time)
    requires Ids(offered) == []
    ensures RegisterClient(s, client, provider, offered, now).models == UnregisterClient(s, client, now).models
  {
  }

  /** An id that a client neither lists nor offers is left alone. */
  lemma RegisterLeavesOthers(s: State, client: string, provider: string, offered: seq<Option<ModelInfo>>, now: Time,
                             id: string)
    requires !Offers(offered, id) && (client in s.clientModels ==> id !in s.clientModels[client])
    ensures Look(RegisterClient(s, client, provider, offered, now).models, id) == Look(s.models, id)
  {
    OfferedIffListed(offered, id);
    if Ids(offered) == [] {
      UnregisterClientAt(s, client, now, id);
    } else {
      RegisterClientAt(s, client, provider, offered, now, id);
    }
  }

  // ---------------------------------------------------------------------------------------
  // Marks: when a client is ready for a model
  // ---------------------------------------------------------------------------------------

  /** The client lists the stored model. */
  predicate Serves(s: State, client: string, id: string) {
    id in s.models && client in s.clientModels && id in s.clientModels[client]
  }

  /** A quota mark that is less than five minutes old, counted in nanoseconds. */
  predicate Exhausted(s: State, client: string, id: string, now: Time) {
    id in s.models && client in s.models[id].quota && now - s.models[id].quota[client] < 300_000_000_000
  }

  predicate Suspended(s: State, client: string, id: string) {
    id in s.models && client in s.models[id].suspended
  }

  predicate ReadyFor(s: State, client: string, id: string, now: Time) {
    Serves(s, client, id) && !Exhausted(s, client, id, now) && !Suspended(s, client, id)
  }

  lemma ReadyIff(s: State, client: string, id: string, now: Time)
    requires id in s.models
    ensures client in Ready(s, id, now) <==> ReadyFor(s, client, id, now)
  {
  }

  /** Everything but the marks of one client on one model. */
  ghost predicate OnlyMarksOf(s: State, s': State, client: string, id: string) {
    && s'.clientModels == s.clientModels && s'.clientInfos == s.clientInfos && s'.clientProviders == s.clientProviders
    && s'.models.Keys == s.models.Keys
    && (forall j :: j in s.models && j != id ==> s'.models[j] == s.models[j])
    && (id in s.models ==>
          var x, y := s.models[id], s'.models[id];
          && y == x.(quota := y.quota, suspended := y.suspended, lastUpdated := y.lastUpdated)
          && y.quota - {client} == x.quota - {client} && y.suspended - {client} == x.suspended - {client})
  }

  lemma OthersStayReady(s: State, s': State, client: string, id: string, c: string, j: string, now: Time)
    requires OnlyMarksOf(s, s', client, id) && (c != client || j != id)
    ensures ReadyFor(s', c, j, now) <==> ReadyFor(s, c, j, now)
  {
    if j == id && id in s.models {
      assert Look(s'.models[id].quota - {client}, c) == Look(s.models[id].quota - {client}, c);
      assert Look(s'.models[id].suspended - {client}, c) == Look(s.models[id].suspended - {client}, c);
    }
  }

  /** After a quota failure the client is not ready for five minutes, and then ready again unless it is suspended. */
  lemma QuotaHidesForFiveMinutes(s: State, client: string, id: string, at: Time, now: Time)
    ensures var s' := SetModelQuotaExceeded(s, client, id, at);
      && OnlyMarksOf(s, s', client, id)
      && (ReadyFor(s', client, id, now) <==>
          Serves(s, client, id) && !Suspended(s, client, id) && now - at >= 300_000_000_000)
  {
  }

  /** After a success the client is ready unless it is suspended. */
  lemma ClearedIsReady(s: State, client: string, id: string, now: Time)
    ensures var s' := ClearModelQuotaExceeded(s, client, id);
      && OnlyMarksOf(s, s', client, id)
      && (ReadyFor(s', client, id, now) <==> Serves(s, client, id) && !Suspended(s, client, id))
  {
  }

  /** A suspended client is not ready at any time; an earlier reason stays. Blank names do nothing. */
  lemma SuspendedNeverReady(s: State, client: string, id: string, reason: string, at: Time, now: Time)
    ensures var s' := SuspendClientModel(s, client, id, reason, at);
      && OnlyMarksOf(s, s', client, id)
      && (client == "" || id == "" ==> s' == s)
      && (client != "" && id != "" ==>
          && !ReadyFor(s', client, id, now)
          && (id in s.models ==>
                && s'.models[id].quota == s.models[id].quota
                && Look(s'.models[id].suspended, client) ==
                   if Suspended(s, client, id) then Look(s.models[id].suspended, client) else Some(reason)))
  {
  }

  /** A resumed client is ready unless its quota is exhausted. */
  lemma ResumedIsReady(s: State, client: string, id: string, at: Time, now: Time)
    ensures var s' := ResumeClientModel(s, client, id, at);
      && OnlyMarksOf(s, s', client, id)
      && (client == "" || id == "" ==> s' == s)
      && (client != "" && id != "" ==>
          (ReadyFor(s', client, id, now) <==> Serves(s, client, id) && !Exhausted(s, client, id, now)))
    ensures id in s.models ==>
              ResumeClientModel(s, client, id, at).models[id].lastUpdated ==
              if client != "" && id != "" && client in s.models[id].suspended then at else s.models[id].lastUpdated
  {
  }

  /** The cleanup forgets exactly the quota marks that are five minutes old, and makes nobody ready or unready
      from then on. */
  lemma CleanupForgetsExpired(s: State, at: Time, now: Time, client: string, id: string)
    ensures var s' := CleanupExpiredQuotas(s, at);
      && s'.clientModels == s.clientModels && s'.clientInfos == s.clientInfos
      && s'.clientProviders == s.clientProviders && s'.models.Keys == s.models.Keys
      && (id in s.models ==>
            && s'.models[id] == s.models[id].(quota := s'.models[id].quota)
            && Look(s'.models[id].quota, client) ==
               if Exhausted(s, client, id, at) then Look(s.models[id].quota, client) else None)
      && (at <= now ==> (ReadyFor(s', client, id, now) <==> ReadyFor(s, client, id, now)))
  {
  }

  // ---------------------------------------------------------------------------------------
  // Which marks hide a model
  // ---------------------------------------------------------------------------------------

  /** The clients with a quota mark on the model that is less than five minutes old. */
  function ExhaustedClients(x: Registration, now: Time): set<string> {
    set c | c in x.quota && now - x.quota[c] < 300_000_000_000
  }

  /** The clients that are suspended for another reason than the quota, whatever its case. */
  function BlockedClients(x: Registration): set<string> {
    set c | c in x.suspended && Text.ToLower(x.suspended[c]) != "quota"
  }

  lemma SameMarkSets(x: Registration, now: Time)
    ensures CoolingClients(x, now) == ExhaustedClients(x, now)
    ensures OtherSuspended(x) == BlockedClients(x)
    ensures QuotaSuspended(x) == x.suspended.Keys - BlockedClients(x)
  {
    assert Text.ToLower("quota") == "quota";
  }

  /** A model is hidden from the list exactly when some client is suspended for another reason than the quota and
      no unit is left once these and the exhausted clients are taken away; cooling down alone never hides it. */
  lemma HiddenIff(s: State, id: string, now: Time)
    requires Indexed(s) && id in s.models
    ensures var x := s.models[id];
      !Offered(x, now) <==>
      BlockedClients(x) != {} && x.count <= |ExhaustedClients(x, now)| + |BlockedClients(x)|
  {
    SameMarkSets(s.models[id], now);
    assert SlotExact(s, id, Look(s.models, id));
  }

  /** In terms of clients: with each client listing the model once and marks on listed pairs only. */
  lemma HiddenFromClients(s: State, id: string, now: Time)
    requires Indexed(s) && id in s.models && ListedOnce(s, id)
    ensures var x := s.models[id];
      !Offered(x, now) <==>
      BlockedClients(x) != {} && |Listers(s, id)| <= |ExhaustedClients(x, now)| + |BlockedClients(x)|
  {
    HiddenIff(s, id, now);
    CountIsListers(s, id);
  }
}
