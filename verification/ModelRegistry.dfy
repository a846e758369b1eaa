/** The model registry itself: registration objects updated in place, proved against the functions
    of RegistryModel and the index invariant of RegistryIndex. */
module ModelRegistryClass {
  import opened Collections
  import opened RegistryModel
  import opened RegistryIndex
  import opened RegistryEffects
  import Text

  class ModelRegistration {
    var info: ModelInfo
    var infoByProvider: map<string, ModelInfo>
    var count: int
    var lastUpdated: Time
    var quota: map<string, Time>
    var providers: map<string, int>
    var suspended: map<string, string>

    constructor (info: ModelInfo, provider: string, now: Time)
      ensures Some(Value()) == Gain(None, provider, info, 1, now)
    {
      this.info, count, lastUpdated := info, 1, now;
      quota, suspended := map[], map[];
      providers := if provider != "" then map[provider := 1] else map[];
      infoByProvider := if provider != "" then map[provider := info] else map[];
    }

    ghost function Value(): Registration
      reads this
    {
      Registration(info, infoByProvider, count, lastUpdated, quota, providers, suspended)
    }

    /** Takes k units away from a provider that has an entry. */
    method TakeFrom(provider: string, k: nat)
      requires k > 0
      modifies this
      ensures Value() == old(DropProvider(Value(), provider, k))
    {
      if provider != "" && provider in providers {
        if providers[provider] <= k {
          providers := providers - {provider};
          infoByProvider := infoByProvider - {provider};
        } else {
          providers := providers[provider := providers[provider] - k];
        }
      }
    }

    method GainOne(provider: string, info: ModelInfo, now: Time)
      modifies this
      ensures Some(Value()) == old(Gain(Some(Value()), provider, info, 1, now))
    {
      count := count + 1;
      lastUpdated := now;
      this.info := info;
      if provider != "" {
        providers := providers[provider := (if provider in providers then providers[provider] else 0) + 1];
        infoByProvider := infoByProvider[provider := info];
      }
    }

    /** Removes one unit; the caller deletes a registration whose count reached zero. */
    method LoseOne(client: string, provider: string, now: Time)
      modifies this
      ensures old(Lose(Some(Value()), client, provider, 1, now)) == if count > 0 then Some(Value()) else None
    {
      count := count - 1;
      lastUpdated := now;
      quota := quota - {client};
      suspended := suspended - {client};
      if count < 0 {
        count := 0;
      }
      TakeFrom(provider, 1);
    }

    /** Deletes the quota marks that are older than the cooldown. */
    method DropExpired(now: Time)
      modifies this
      ensures Value() == RegistryModel.DropExpired(old(Value()), now)
    {
      var todo := quota.Keys;
      while todo != {}
        invariant todo <= old(quota).Keys
        invariant quota == map c | c in old(quota) && (c in todo || Cooling(old(quota)[c], now)) :: old(quota)[c]
        invariant Value() == old(Value()).(quota := quota)
        decreases todo
      {
        var c :| c in todo;
        if now - quota[c] >= QuotaExpired {
          quota := quota - {c};
        }
        todo := todo - {c};
      }
    }

    /** Refreshes the metadata for an offer and books the overlapping units for the new provider. */
    method RefreshFor(ch: Change)
      requires ch.Valid() && ch.n > 0
      modifies this
      ensures Some(Value()) == old(Refresh(Some(Value()), ch))
    {
      info := ch.info.value;
      if ch.to != "" {
        infoByProvider := infoByProvider[ch.to := ch.info.value];
      }
      lastUpdated := ch.now;
      quota := quota - {ch.client};
      suspended := suspended - {ch.client};
      if ch.from != ch.to && ch.to != "" && ch.o > 0 {
        var overlap := if ch.o < ch.n then ch.o else ch.n;
        providers := providers[ch.to := (if ch.to in providers then providers[ch.to] else 0) + overlap];
      }
    }
  }

  /** What one incremental re-registration knows: the old and the new multiplicities. */
  datatype Batch = Batch(client: string, from: string, to: string,
                         oldCounts: map<string, nat>, newCounts: map<string, nat>,
                         infos: map<string, ModelInfo>, now: Time) {

    ghost predicate Valid() {
      && infos.Keys == newCounts.Keys
      && (forall id :: id in oldCounts ==> oldCounts[id] > 0)
      && (forall id :: id in newCounts ==> newCounts[id] > 0)
    }

    function At(id: string): (ch: Change)
      requires Valid()
      ensures ch.Valid()
    {
      Change(client, from, to, if id in oldCounts then oldCounts[id] else 0,
             if id in newCounts then newCounts[id] else 0, Look(infos, id), now)
    }
  }

  predicate Distinct(s: seq<string>) {
    forall i, j :: 0 <= i < j < |s| ==> s[i] != s[j]
  }

  /** The map holds the multiplicity of every listed id and nothing else. */
  ghost predicate CountsUnits(counts: map<string, nat>, ids: seq<string>) {
    && counts.Keys == ElementSet(ids)
    && (forall id :: id in counts ==> counts[id] == Mult(ids, id) && counts[id] > 0)
  }

  lemma ElementPushed(ids: seq<string>, id: string)
    ensures ElementSet(ids + [id]) == ElementSet(ids) + {id}
    ensures id in ids <==> id in ElementSet(ids)
  {
  }

  lemma UnitCounted(counts: map<string, nat>, ids: seq<string>, id: string)
    requires CountsUnits(counts, ids)
    ensures CountsUnits(counts[id := (if id in counts then counts[id] else 0) + 1], ids + [id])
  {
    ElementPushed(ids, id);
    if id !in counts {
      assert Mult(ids, id) == 0;
    }
  }

  lemma CountsAt(counts: map<string, nat>, ids: seq<string>, id: string)
    requires CountsUnits(counts, ids)
    ensures Mult(ids, id) == if id in counts then counts[id] else 0
  {
    if id !in counts {
      assert id !in ElementSet(ids);
    }
  }

  lemma UnregisteredState(s: State, s': State, client: string, now: Time)
    requires client in s.clientModels
    requires s'.models == RegistryModel.UnregisterClient(s, client, now).models
    requires s'.clientModels == s.clientModels - {client}
    requires s'.clientInfos == s.clientInfos - {client}
    requires s'.clientProviders == s.clientProviders - {client}
    ensures s' == RegistryModel.UnregisterClient(s, client, now)
  {
  }

  lemma ForgottenClient(s: State, client: string, now: Time)
    ensures var u := RegistryModel.UnregisterClient(s, client, now);
      && u.clientModels - {client} == s.clientModels - {client}
      && u.clientInfos - {client} == s.clientInfos - {client}
      && u.clientProviders - {client} == s.clientProviders - {client}
  {
  }

  lemma SameEmptiness(a: seq<string>, b: seq<string>)
    requires ElementSet(a) == ElementSet(b)
    ensures a == [] <==> b == []
  {
    if a != [] {
      assert a[0] in ElementSet(a);
    }
    if b != [] {
      assert b[0] in ElementSet(b);
    }
  }

  lemma RegisteredSlots(s: State, slots: map<string, Registration>, client: string, clientProvider: string,
                        offered: seq<Option<ModelInfo>>, now: Time)
    requires Ids(offered) != []
    requires forall id :: Look(slots, id) == Registered(s, client, Text.ToLower(clientProvider), offered, now, id)
    ensures slots == RegistryModel.RegisterClient(s, client, clientProvider, offered, now).models
  {
    forall id
      ensures Look(slots, id) == Look(RegistryModel.RegisterClient(s, client, clientProvider, offered, now).models, id)
    {
      RegisterClientAt(s, client, clientProvider, offered, now, id);
    }
    SameMaps(slots, RegistryModel.RegisterClient(s, client, clientProvider, offered, now).models);
  }

  lemma RegisterNothingAs(s: State, s': State, client: string, clientProvider: string, offered: seq<Option<ModelInfo>>,
                          now: Time)
    requires Ids(offered) == []
    requires s'.models == RegistryModel.UnregisterClient(s, client, now).models
    requires s'.clientModels == s.clientModels - {client}
    requires s'.clientInfos == s.clientInfos - {client}
    requires s'.clientProviders == s.clientProviders - {client}
    ensures s' == RegistryModel.RegisterClient(s, client, clientProvider, offered, now)
  {
  }

  lemma RegisteredState(s: State, s': State, client: string, clientProvider: string, offered: seq<Option<ModelInfo>>,
                        now: Time)
    requires Ids(offered) != []
    requires s'.models == RegistryModel.RegisterClient(s, client, clientProvider, offered, now).models
    requires s'.clientModels == s.clientModels[client := Ids(offered)]
    requires s'.clientInfos == s.clientInfos[client := Infos(offered)]
    requires s'.clientProviders == SetProvider(s.clientProviders, client, Text.ToLower(clientProvider))
    ensures s' == RegistryModel.RegisterClient(s, client, clientProvider, offered, now)
  {
  }

  /** The effect on one id of adding the first units of an offer. */
  function GainListed(r: Option<Registration>, provider: string, infos: map<string, ModelInfo>, ids: seq<string>,
                      id: string, now: Time): Option<Registration> {
    if id in infos then Gain(r, provider, infos[id], Mult(ids, id), now) else r
  }

  lemma GainListedMore(r: Option<Registration>, provider: string, infos: map<string, ModelInfo>, ids: seq<string>,
                       next: string, id: string, now: Time)
    requires next in infos
    ensures GainListed(r, provider, infos, ids + [next], id, now)
         == if id == next then Gain(GainListed(r, provider, infos, ids, id, now), provider, infos[id], 1, now)
            else GainListed(r, provider, infos, ids, id, now)
  {
    if id == next {
      GainOneMore(r, provider, infos[id], Mult(ids, id), now);
    }
  }

  lemma LoseListedMore(r: Option<Registration>, client: string, provider: string, ids: seq<string>, next: string,
                       id: string, now: Time)
    ensures Lose(r, client, provider, Mult(ids + [next], id), now)
         == if id == next then Lose(Lose(r, client, provider, Mult(ids, id), now), client, provider, 1, now)
            else Lose(r, client, provider, Mult(ids, id), now)
  {
    if id == next {
      LoseOneMore(r, client, provider, Mult(ids, id), now);
    }
  }

  lemma UnregisteredSlots(s: State, slots: map<string, Registration>, client: string, now: Time)
    requires client in s.clientModels
    requires forall id :: Look(slots, id) == Unregistered(s, client, now, id)
    ensures slots == RegistryModel.UnregisterClient(s, client, now).models
  {
    forall id
      ensures Look(slots, id) == Look(RegistryModel.UnregisterClient(s, client, now).models, id)
    {
      UnregisterClientAt(s, client, now, id);
    }
    SameMaps(slots, RegistryModel.UnregisterClient(s, client, now).models);
  }

  class ModelRegistry {
    var models: map<string, ModelRegistration>
    var clientModels: map<string, seq<string>>
    var clientInfos: map<string, map<string, ModelInfo>>
    var clientProviders: map<string, string>
    ghost var repr: set<ModelRegistration>

    /** The registration objects are the registry's own and no two ids share one. */
    ghost predicate Separate()
      reads this`models, this`repr
    {
      && (forall id :: id in models ==> models[id] in repr)
      && (forall a, b :: a in models && b in models && a != b ==> models[a] != models[b])
    }

    ghost function Slots(): map<string, Registration>
      reads this`models, this`repr, repr
    {
      map id | id in models && models[id] in repr :: models[id].Value()
    }

    ghost function View(): State
      reads this, repr
    {
      State(Slots(), clientModels, clientInfos, clientProviders)
    }

    ghost predicate Valid()
      reads this, repr
    {
      Separate() && Indexed(View())
    }

    constructor ()
      ensures Valid() && View() == Empty
    {
      models, clientModels, clientInfos, clientProviders, repr := map[], map[], map[], map[], {};
      new;
      ReachableIsIndexed([]);
      assert Run(Empty, []) == Empty;
    }

    // -------------------------------------------------------------------------------------
    // Single units
    // -------------------------------------------------------------------------------------

    method AddModelRegistration(id: string, provider: string, info: ModelInfo, now: Time)
      requires Separate() && id != ""
      modifies this`models, this`repr, repr
      ensures Separate() && fresh(repr - old(repr))
      ensures forall j ::
                Look(Slots(), j) ==
                if j == id then Gain(Look(old(Slots()), j), provider, info, 1, now) else Look(old(Slots()), j)
    {
      if id in models {
        var existing := models[id];
        existing.GainOne(provider, info, now);
        assert forall j :: j in models && j != id ==> models[j].Value() == old(models[j].Value());
      } else {
        var registration := new ModelRegistration(info, provider, now);
        models, repr := models[id := registration], repr + {registration};
      }
    }

    method RemoveModelRegistration(client: string, id: string, provider: string, now: Time)
      requires Separate()
      modifies this`models, this`repr, repr
      ensures Separate() && repr == old(repr)
      ensures forall j ::
                Look(Slots(), j) ==
                if j == id then Lose(Look(old(Slots()), j), client, provider, 1, now) else Look(old(Slots()), j)
    {
      if id !in models {
        return;
      }
      var registration := models[id];
      registration.LoseOne(client, provider, now);
      assert forall j :: j in models && j != id ==> models[j].Value() == old(models[j].Value());
      if registration.count <= 0 {
        models := models - {id};
      }
    }

    // -------------------------------------------------------------------------------------
    // The phases of an incremental re-registration
    // -------------------------------------------------------------------------------------

    method MoveOverlapOf(id: string, ch: Change)
      requires Separate() && ch.n > 0
      modifies repr
      ensures forall j ::
                Look(Slots(), j) ==
                if j == id then MoveAway(Look(old(Slots()), j), ch) else Look(old(Slots()), j)
    {
      if ch.from != ch.to && ch.from != "" && ch.o > 0 && id in models {
        var reg := models[id];
        reg.TakeFrom(ch.from, if ch.o < ch.n then ch.o else ch.n);
        assert forall j :: j in models && j != id ==> models[j].Value() == old(models[j].Value());
      }
    }

    /** Takes the overlapping units away from the old provider. */
    method MoveOverlap(b: Batch)
      requires Separate() && b.Valid()
      modifies repr
      ensures forall id :: Look(Slots(), id) == MoveAway(Look(old(Slots()), id), b.At(id))
    {
      ghost var slots := Slots();
      var todo := b.newCounts.Keys;
      while todo != {}
        invariant todo <= b.newCounts.Keys
        invariant forall id ::
                    Look(Slots(), id) ==
                    if id in b.newCounts.Keys && id !in todo then MoveAway(Look(slots, id), b.At(id))
                    else Look(slots, id)
        decreases todo
      {
        var id :| id in todo;
        MoveOverlapOf(id, b.At(id));
        todo := todo - {id};
      }
      forall id | id !in b.newCounts.Keys
        ensures MoveAway(Look(slots, id), b.At(id)) == Look(slots, id)
      {
      }
    }

    /** Removes a number of units of one id, one by one. */
    method RemoveUnits(client: string, id: string, provider: string, k: nat, now: Time)
      requires Separate()
      modifies this`models, this`repr, repr
      ensures Separate() && repr == old(repr)
      ensures forall j ::
                Look(Slots(), j) ==
                if j == id then Lose(Look(old(Slots()), j), client, provider, k, now) else Look(old(Slots()), j)
    {
      for i := 0 to k
        invariant Separate() && repr == old(repr)
        invariant forall j ::
                    Look(Slots(), j) ==
                    if j == id then Lose(Look(old(Slots()), j), client, provider, i, now) else Look(old(Slots()), j)
      {
        LoseOneMore(Look(old(Slots()), id), client, provider, i, now);
        RemoveModelRegistration(client, id, provider, now);
      }
    }

    method AddUnits(id: string, provider: string, info: ModelInfo, k: nat, now: Time)
      requires Separate() && id != ""
      modifies this`models, this`repr, repr
      ensures Separate() && fresh(repr - old(repr))
      ensures forall j ::
                Look(Slots(), j) ==
                if j == id then Gain(Look(old(Slots()), j), provider, info, k, now) else Look(old(Slots()), j)
    {
      for i := 0 to k
        invariant Separate() && fresh(repr - old(repr))
        invariant forall j ::
                    Look(Slots(), j) ==
                    if j == id then Gain(Look(old(Slots()), j), provider, info, i, now) else Look(old(Slots()), j)
      {
        GainOneMore(Look(old(Slots()), id), provider, info, i, now);
        AddModelRegistration(id, provider, info, now);
      }
    }

    /** Removes the ids the client no longer lists. */
    method RemoveMissing(b: Batch)
      requires Separate() && b.Valid()
      modifies this`models, this`repr, repr
      ensures Separate() && repr == old(repr)
      ensures forall id :: Look(Slots(), id) == Remove(Look(old(Slots()), id), b.At(id))
    {
      ghost var slots := Slots();
      var todo := b.oldCounts.Keys - b.newCounts.Keys;
      while todo != {}
        invariant todo <= b.oldCounts.Keys - b.newCounts.Keys
        invariant Separate() && repr == old(repr)
        invariant forall id ::
                    Look(Slots(), id) ==
                    if id in b.oldCounts.Keys - b.newCounts.Keys && id !in todo then Remove(Look(slots, id), b.At(id))
                    else Look(slots, id)
        decreases todo
      {
        var id :| id in todo;
        RemoveUnits(b.client, id, b.from, b.oldCounts[id], b.now);
        todo := todo - {id};
      }
      forall id | id !in b.oldCounts.Keys - b.newCounts.Keys
        ensures Remove(Look(slots, id), b.At(id)) == Look(slots, id)
      {
      }
    }

    method RemoveOverageOf(id: string, ch: Change)
      requires Separate() && ch.n > 0
      modifies this`models, this`repr, repr
      ensures Separate() && repr == old(repr)
      ensures forall j ::
                Look(Slots(), j) ==
                if j == id then Reduce(Look(old(Slots()), j), ch) else Look(old(Slots()), j)
    {
      if ch.o > ch.n {
        RemoveUnits(ch.client, id, ch.from, ch.o - ch.n, ch.now);
      }
    }

    /** Removes the units by which a kept id shrank. */
    method RemoveOverage(b: Batch)
      requires Separate() && b.Valid()
      modifies this`models, this`repr, repr
      ensures Separate() && repr == old(repr)
      ensures forall id :: Look(Slots(), id) == Reduce(Look(old(Slots()), id), b.At(id))
    {
      ghost var slots := Slots();
      var todo := b.oldCounts.Keys;
      while todo != {}
        invariant todo <= b.oldCounts.Keys
        invariant Separate() && repr == old(repr)
        invariant forall id ::
                    Look(Slots(), id) ==
                    if id in b.oldCounts.Keys && id !in todo then Reduce(Look(slots, id), b.At(id)) else Look(slots, id)
        decreases todo
      {
        var id :| id in todo;
        if id in b.newCounts {
          RemoveOverageOf(id, b.At(id));
        }
        todo := todo - {id};
      }
      forall id | id !in b.oldCounts.Keys
        ensures Reduce(Look(slots, id), b.At(id)) == Look(slots, id)
      {
      }
    }

    method AddMissingOf(id: string, ch: Change)
      requires Separate() && ch.Valid() && id != ""
      modifies this`models, this`repr, repr
      ensures Separate() && fresh(repr - old(repr))
      ensures forall j ::
                Look(Slots(), j) ==
                if j == id then Extend(Look(old(Slots()), j), ch) else Look(old(Slots()), j)
    {
      if ch.n > ch.o {
        AddUnits(id, ch.to, ch.info.value, ch.n - ch.o, ch.now);
      }
    }

    /** Adds the new ids and the units by which a kept id grew. */
    method AddMissing(b: Batch)
      requires Separate() && b.Valid() && "" !in b.newCounts
      modifies this`models, this`repr, repr
      ensures Separate() && fresh(repr - old(repr))
      ensures forall id :: Look(Slots(), id) == Extend(Look(old(Slots()), id), b.At(id))
    {
      ghost var slots := Slots();
      var todo := b.newCounts.Keys;
      while todo != {}
        invariant todo <= b.newCounts.Keys
        invariant Separate() && fresh(repr - old(repr))
        invariant forall id ::
                    Look(Slots(), id) ==
                    if id in b.newCounts.Keys && id !in todo then Extend(Look(slots, id), b.At(id)) else Look(slots, id)
        decreases todo
      {
        var id :| id in todo;
        AddMissingOf(id, b.At(id));
        todo := todo - {id};
      }
      forall id | id !in b.newCounts.Keys
        ensures Extend(Look(slots, id), b.At(id)) == Look(slots, id)
      {
      }
    }

    method RefreshMetadataOf(id: string, ch: Change)
      requires Separate() && ch.Valid() && ch.n > 0
      modifies repr
      ensures forall j ::
                Look(Slots(), j) ==
                if j == id then Refresh(Look(old(Slots()), j), ch) else Look(old(Slots()), j)
    {
      if id in models {
        var reg := models[id];
        reg.RefreshFor(ch);
        assert forall j :: j in models && j != id ==> models[j].Value() == old(models[j].Value());
      }
    }

    /** Refreshes the metadata of every offered id. */
    method RefreshMetadata(b: Batch, unique: seq<string>)
      requires Separate() && b.Valid() && ElementSet(unique) == b.newCounts.Keys
      requires Distinct(unique)
      modifies repr
      ensures forall id :: Look(Slots(), id) == Refresh(Look(old(Slots()), id), b.At(id))
    {
      ghost var done: set<string> := {};
      for i := 0 to |unique|
        invariant done == ElementSet(unique[..i])
        invariant forall id ::
                    Look(Slots(), id) ==
                    if id in done then Refresh(Look(old(Slots()), id), b.At(id)) else Look(old(Slots()), id)
      {
        assert unique[i] in ElementSet(unique);
        assert unique[..i + 1] == unique[..i] + [unique[i]];
        ElementPushed(unique[..i], unique[i]);
        RefreshMetadataOf(unique[i], b.At(unique[i]));
        done := done + {unique[i]};
      }
      assert unique[..|unique|] == unique;
    }

    // -------------------------------------------------------------------------------------
    // Public operations
    // -------------------------------------------------------------------------------------

    /** Reads an offer: the ids with repetitions, each id once, its first info and its multiplicity. */
    method ReadOffer(offered: seq<Option<ModelInfo>>)
      returns (raw: seq<string>, unique: seq<string>, infos: map<string, ModelInfo>, counts: map<string, nat>)
      ensures raw == Ids(offered) && infos == Infos(offered)
      ensures ElementSet(unique) == ElementSet(raw) && Distinct(unique)
      ensures CountsUnits(counts, raw)
    {
      raw, unique, infos, counts := [], [], map[], map[];
      for i := 0 to |offered|
        invariant raw == Ids(offered[..i]) && infos == Infos(offered[..i])
        invariant ElementSet(unique) == ElementSet(raw) && Distinct(unique)
        invariant CountsUnits(counts, raw)
      {
        var m := offered[i];
        assert offered[..i + 1][..i] == offered[..i];
        if m.None? || m.value.id == "" {
          continue;
        }
        var id := m.value.id;
        ElementPushed(raw, id);
        ElementPushed(unique, id);
        UnitCounted(counts, raw, id);
        raw := raw + [id];
        counts := counts[id := (if id in counts then counts[id] else 0) + 1];
        if id in infos {
          continue;
        }
        infos := infos[id := m.value];
        unique := unique + [id];
      }
      assert offered[..|offered|] == offered;
    }

    method CountUnits(ids: seq<string>) returns (counts: map<string, nat>)
      ensures CountsUnits(counts, ids)
    {
      counts := map[];
      for i := 0 to |ids|
        invariant CountsUnits(counts, ids[..i])
      {
        assert ids[..i + 1] == ids[..i] + [ids[i]];
        UnitCounted(counts, ids[..i], ids[i]);
        counts := counts[ids[i] := (if ids[i] in counts then counts[ids[i]] else 0) + 1];
      }
      assert ids[..|ids|] == ids;
    }

    /** Adds every listed unit of a client that was not registered. */
    method AddAll(raw: seq<string>, provider: string, infos: map<string, ModelInfo>, now: Time)
      requires Separate() && "" !in raw && infos.Keys == ElementSet(raw)
      modifies this`models, this`repr, repr
      ensures Separate() && fresh(repr - old(repr))
      ensures forall id :: Look(Slots(), id) == GainListed(Look(old(Slots()), id), provider, infos, raw, id, now)
    {
      for i := 0 to |raw|
        invariant Separate() && fresh(repr - old(repr))
        invariant forall id ::
                    Look(Slots(), id) ==
                    GainListed(Look(old(Slots()), id), provider, infos, raw[..i], id, now)
      {
        assert raw[i] in ElementSet(raw);
        assert raw[..i + 1] == raw[..i] + [raw[i]];
        forall id
          ensures GainListed(Look(old(Slots()), id), provider, infos, raw[..i + 1], id, now)
               == if id == raw[i] then Gain(GainListed(Look(old(Slots()), id), provider, infos, raw[..i], id, now),
                                            provider, infos[id], 1, now)
                  else GainListed(Look(old(Slots()), id), provider, infos, raw[..i], id, now)
        {
          GainListedMore(Look(old(Slots()), id), provider, infos, raw[..i], raw[i], id, now);
        }
        AddModelRegistration(raw[i], provider, infos[raw[i]], now);
      }
      assert raw[..|raw|] == raw;
    }

    /** Books an offer of a client whose former list and provider are given. */
    method Reconciled(b: Batch, unique: seq<string>)
      requires Separate() && b.Valid() && "" !in b.newCounts && ElementSet(unique) == b.newCounts.Keys
      requires Distinct(unique)
      modifies this`models, this`repr, repr
      ensures Separate() && fresh(repr - old(repr))
      ensures forall id :: Look(Slots(), id) == Reconcile(Look(old(Slots()), id), b.At(id))
    {
      MoveOverlap(b);
      RemoveMissing(b);
      RemoveOverage(b);
      AddMissing(b);
      RefreshMetadata(b, unique);
    }

    /** Books the non-empty offer of a client, known or not, in the registrations. */
    method BookOffer(client: string, provider: string, raw: seq<string>, unique: seq<string>,
                     infos: map<string, ModelInfo>, counts: map<string, nat>, now: Time,
                     ghost clientProvider: string, ghost offered: seq<Option<ModelInfo>>)
      requires Separate() && raw != [] && provider == Text.ToLower(clientProvider)
      requires raw == Ids(offered) && infos == Infos(offered)
      requires ElementSet(unique) == ElementSet(raw) && Distinct(unique)
      requires CountsUnits(counts, raw)
      modifies this`models, this`repr, repr
      ensures Separate() && fresh(repr - old(repr))
      ensures Slots() == RegistryModel.RegisterClient(old(View()), client, clientProvider, offered, now).models
    {
      BookUnits(client, provider, raw, unique, infos, counts, now, offered);
      RegisteredSlots(old(View()), Slots(), client, clientProvider, offered, now);
    }

    method BookUnits(client: string, provider: string, raw: seq<string>, unique: seq<string>,
                     infos: map<string, ModelInfo>, counts: map<string, nat>, now: Time,
                         ghost offered: seq<Option<ModelInfo>>)
      requires Separate()
      requires raw == Ids(offered) && infos == Infos(offered)
      requires ElementSet(unique) == ElementSet(raw) && Distinct(unique)
      requires CountsUnits(counts, raw)
      modifies this`models, this`repr, repr
      ensures Separate() && fresh(repr - old(repr))
      ensures forall id :: Look(Slots(), id) == Registered(old(View()), client, provider, offered, now, id)
    {
      if client !in clientModels {
        AddAll(raw, provider, infos, now);
        forall id
          ensures id !in infos ==> Mult(raw, id) == 0
        {
          CountsAt(counts, raw, id);
        }
      } else {
        var oldCounts := CountUnits(clientModels[client]);
        var oldProvider := if client in clientProviders then clientProviders[client] else "";
        var b := Batch(client, oldProvider, provider, oldCounts, counts, infos, now);
        forall id
          ensures b.At(id) == ChangeFor(View(), client, provider, offered, now, id)
        {
          CountsAt(counts, raw, id);
          CountsAt(oldCounts, clientModels[client], id);
        }
        Reconciled(b, unique);
      }
    }

    /** An offer without models forgets the client. */
    method ForgetClient(client: string, now: Time)
      requires Separate()
      modifies this, repr
      ensures Separate() && repr == old(repr)
      ensures Slots() == RegistryModel.UnregisterClient(old(View()), client, now).models
      ensures clientModels == old(clientModels) - {client}
      ensures clientInfos == old(clientInfos) - {client}
      ensures clientProviders == old(clientProviders) - {client}
    {
      UnregisterClientInternal(client, now);
      ForgottenClient(old(View()), client, now);
      DropClient(client);
    }

    method RegisterClient(client: string, clientProvider: string, offered: seq<Option<ModelInfo>>, now: Time)
      requires Valid()
      modifies this, repr
      ensures Valid() && fresh(repr - old(repr))
      ensures View() == RegistryModel.RegisterClient(old(View()), client, clientProvider, offered, now)
      ensures Enrols(old(View()), View(), client, clientProvider, offered)
      ensures forall id :: Announces(View(), clientProvider, offered, now, id)
      ensures forall id :: KeepsMarks(old(View()), View(), client, offered, id)
    {
      RegisterOffer(client, clientProvider, offered, now);
      ghost var s := old(View());
      RegisterKeepsIndex(s, client, clientProvider, offered, now);
      RegisterEnrols(s, client, clientProvider, offered, now);
      forall id
        ensures Announces(View(), clientProvider, offered, now, id) && KeepsMarks(s, View(), client, offered, id)
      {
        RegisterAnnounces(s, client, clientProvider, offered, now, id);
        RegisterKeepsMarks(s, client, clientProvider, offered, now, id);
      }
    }

    method RegisterOffer(client: string, clientProvider: string, offered: seq<Option<ModelInfo>>, now: Time)
      requires Separate()
      modifies this, repr
      ensures Separate() && fresh(repr - old(repr))
      ensures View() == RegistryModel.RegisterClient(old(View()), client, clientProvider, offered, now)
    {
      var provider := Text.ToLower(clientProvider);
      var raw, unique, newModels, newCounts := ReadOffer(offered);
      SameEmptiness(raw, unique);
      if |unique| == 0 {
        ForgetClient(client, now);
        RegisterNothingAs(old(View()), View(), client, clientProvider, offered, now);
      } else {
        StoreOffer(client, provider, raw, unique, newModels, newCounts, now, clientProvider, offered);
        RegisteredState(old(View()), View(), client, clientProvider, offered, now);
      }
    }

    /** Books a non-empty offer and then stores the client's list, infos and provider. */
    method StoreOffer(client: string, provider: string, raw: seq<string>, unique: seq<string>,
                      infos: map<string, ModelInfo>, counts: map<string, nat>, now: Time,
                      ghost clientProvider: string, ghost offered: seq<Option<ModelInfo>>)
      requires Separate() && provider == Text.ToLower(clientProvider)
      requires raw == Ids(offered) && raw != [] && infos == Infos(offered)
      requires ElementSet(unique) == ElementSet(raw) && Distinct(unique)
      requires CountsUnits(counts, raw)
      modifies this, repr
      ensures Separate() && fresh(repr - old(repr))
      ensures Slots() == RegistryModel.RegisterClient(old(View()), client, clientProvider, offered, now).models
      ensures clientModels == old(clientModels)[client := raw]
      ensures clientInfos == old(clientInfos)[client := infos]
      ensures clientProviders == SetProvider(old(clientProviders), client, provider)
    {
      BookOffer(client, provider, raw, unique, infos, counts, now, clientProvider, offered);
      StoreClient(client, provider, raw, infos);
    }

    method StoreClient(client: string, provider: string, raw: seq<string>, infos: map<string, ModelInfo>)
      modifies this`clientModels, this`clientInfos, this`clientProviders
      ensures clientModels == old(clientModels)[client := raw]
      ensures clientInfos == old(clientInfos)[client := infos]
      ensures clientProviders == SetProvider(old(clientProviders), client, provider)
    {
      clientModels := clientModels[client := raw];
      clientInfos := clientInfos[client := infos];
      if provider != "" {
        clientProviders := clientProviders[client := provider];
      } else {
        clientProviders := clientProviders - {client};
      }
    }

    /** Removes every unit the client lists from the registrations. */
    method RemoveAll(client: string, provider: string, ids: seq<string>, now: Time)
      requires Separate()
      modifies this`models, this`repr, repr
      ensures Separate() && repr == old(repr)
      ensures forall id :: Look(Slots(), id) == Lose(Look(old(Slots()), id), client, provider, Mult(ids, id), now)
    {
      ghost var slots := Slots();
      for i := 0 to |ids|
        invariant Separate() && repr == old(repr)
        invariant forall id :: Look(Slots(), id) == Lose(Look(slots, id), client, provider, Mult(ids[..i], id), now)
      {
        assert ids[..i + 1] == ids[..i] + [ids[i]];
        forall id
          ensures Lose(Look(slots, id), client, provider, Mult(ids[..i + 1], id), now)
               == if id == ids[i] then Lose(Lose(Look(slots, id), client, provider, Mult(ids[..i], id), now), client,
                                            provider, 1, now)
                  else Lose(Look(slots, id), client, provider, Mult(ids[..i], id), now)
        {
          LoseListedMore(Look(slots, id), client, provider, ids[..i], ids[i], id, now);
        }
        RemoveModelRegistration(client, ids[i], provider, now);
      }
      assert ids[..|ids|] == ids;
    }

    method DropClient(client: string)
      modifies this`clientModels, this`clientInfos, this`clientProviders
      ensures clientModels == old(clientModels) - {client}
      ensures clientInfos == old(clientInfos) - {client}
      ensures clientProviders == old(clientProviders) - {client}
    {
      clientModels := clientModels - {client};
      clientInfos := clientInfos - {client};
      clientProviders := clientProviders - {client};
    }

    method UnregisterClientInternal(client: string, now: Time)
      requires Separate()
      modifies this, repr
      ensures Separate() && repr == old(repr)
      ensures View() == RegistryModel.UnregisterClient(old(View()), client, now)
    {
      if client !in clientModels {
        clientProviders := clientProviders - {client};
      } else {
        // The provider of a client without one is "", which no registration counts.
        RemoveAll(client, if client in clientProviders then clientProviders[client] else "", clientModels[client], now);
        UnregisteredSlots(old(View()), Slots(), client, now);
        DropClient(client);
        UnregisteredState(old(View()), View(), client, now);
      }
    }

    method UnregisterClient(client: string, now: Time)
      requires Valid()
      modifies this, repr
      ensures Valid() && repr == old(repr)
      ensures View() == RegistryModel.UnregisterClient(old(View()), client, now)
    {
      UnregisterClientInternal(client, now);
      UnregisterKeepsIndex(old(View()), client, now);
    }

    // -------------------------------------------------------------------------------------
    // Marks
    // -------------------------------------------------------------------------------------

    method SetModelQuotaExceeded(client: string, id: string, now: Time)
      requires Valid()
      modifies repr
      ensures Valid() && View() == RegistryModel.SetModelQuotaExceeded(old(View()), client, id, now)
    {
      if id in models {
        models[id].quota := models[id].quota[client := now];
      }
      SameMaps(Slots(), RegistryModel.SetModelQuotaExceeded(old(View()), client, id, now).models);
      MarksKeepIndex(old(View()), View());
    }

    method ClearModelQuotaExceeded(client: string, id: string)
      requires Valid()
      modifies repr
      ensures Valid() && View() == RegistryModel.ClearModelQuotaExceeded(old(View()), client, id)
    {
      if id in models {
        models[id].quota := models[id].quota - {client};
      }
      SameMaps(Slots(), RegistryModel.ClearModelQuotaExceeded(old(View()), client, id).models);
      MarksKeepIndex(old(View()), View());
    }

    method SuspendClientModel(client: string, id: string, reason: string, now: Time)
      requires Valid()
      modifies repr
      ensures Valid() && View() == RegistryModel.SuspendClientModel(old(View()), client, id, reason, now)
    {
      if client != "" && id != "" && id in models && client !in models[id].suspended {
        models[id].suspended := models[id].suspended[client := reason];
        models[id].lastUpdated := now;
      }
      SameMaps(Slots(), RegistryModel.SuspendClientModel(old(View()), client, id, reason, now).models);
      SuspendKeepsIndex(old(View()), client, id, reason, now);
    }

    method ResumeClientModel(client: string, id: string, now: Time)
      requires Valid()
      modifies repr
      ensures Valid() && View() == RegistryModel.ResumeClientModel(old(View()), client, id, now)
    {
      if client != "" && id != "" && id in models && client in models[id].suspended {
        models[id].suspended := models[id].suspended - {client};
        models[id].lastUpdated := now;
      }
      SameMaps(Slots(), RegistryModel.ResumeClientModel(old(View()), client, id, now).models);
      ResumeKeepsIndex(old(View()), client, id, now);
    }

    method CleanupOf(id: string, now: Time)
      requires Separate() && id in models
      modifies repr
      ensures forall j ::
                Look(Slots(), j) ==
                if j == id then Some(RegistryModel.DropExpired(old(Slots())[id], now)) else Look(old(Slots()), j)
    {
      models[id].DropExpired(now);
      assert forall j :: j in models && j != id ==> models[j].Value() == old(models[j].Value());
    }

    method CleanupSlots(now: Time)
      requires Separate()
      modifies repr
      ensures Slots() == RegistryModel.CleanupExpiredQuotas(old(View()), now).models
    {
      ghost var before, after := Slots(), RegistryModel.CleanupExpiredQuotas(View(), now).models;
      var todo := models.Keys;
      while todo != {}
        invariant todo <= models.Keys
        invariant forall id :: Look(Slots(), id) == if id in todo then Look(before, id) else Look(after, id)
        decreases todo
      {
        var id :| id in todo;
        assert Look(Slots(), id) == Look(before, id);
        CleanupOf(id, now);
        todo := todo - {id};
      }
      SameMaps(Slots(), after);
    }

    method CleanupExpiredQuotas(now: Time)
      requires Valid()
      modifies repr
      ensures Valid() && View() == RegistryModel.CleanupExpiredQuotas(old(View()), now)
    {
      CleanupSlots(now);
      CleanupKeepsIndex(old(View()), now);
    }
  }
}
