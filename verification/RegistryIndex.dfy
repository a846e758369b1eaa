/** The registry as an index: what every registry operation keeps, over every run. */
module RegistryIndex {
  import opened Collections
  import opened RegistryModel
  import Text

  // ---------------------------------------------------------------------------------------
  // The recomputation the incremental counters must agree with
  // ---------------------------------------------------------------------------------------

  ghost function ListWeights(s: State, id: string): map<string, int> {
    map c | c in s.clientModels :: Mult(s.clientModels[c], id)
  }

  ghost function ProviderWeights(s: State, id: string, provider: string): map<string, int> {
    map c | c in s.clientModels :: if provider != "" && ProviderOf(s, c) == provider then Mult(s.clientModels[c], id)
    else 0
  }

  /** How often clients list an id, with multiplicity. */
  ghost function Recount(s: State, id: string): int {
    Sum(ListWeights(s, id))
  }

  /** The same, for the clients of one provider. */
  ghost function ProviderRecount(s: State, id: string, provider: string): int {
    Sum(ProviderWeights(s, id, provider))
  }

  ghost predicate ClientsConsistent(s: State) {
    && (forall c :: c in s.clientModels ==> s.clientModels[c] != [] && "" !in s.clientModels[c])
    && s.clientInfos.Keys == s.clientModels.Keys
    && (forall c :: c in s.clientInfos ==> s.clientInfos[c].Keys == ElementSet(s.clientModels[c]))
    && s.clientProviders.Keys <= s.clientModels.Keys
    && (forall c :: c in s.clientProviders ==> s.clientProviders[c] != "")
  }

  /** What a stored registration of an id must look like. */
  ghost predicate RegistrationExact(s: State, id: string, x: Registration) {
    && x.count == Recount(s, id)
    && (forall p :: p in x.providers <==> ProviderRecount(s, id, p) > 0)
    && (forall p :: p in x.providers ==> x.providers[p] == ProviderRecount(s, id, p))
    && x.infoByProvider.Keys == x.providers.Keys
    && x.info.id == id
    && (forall p :: p in x.infoByProvider ==> x.infoByProvider[p].id == id)
  }

  ghost predicate SlotExact(s: State, id: string, r: Option<Registration>) {
    && (r.Some? <==> Recount(s, id) > 0)
    && (r.Some? ==> RegistrationExact(s, id, r.value))
  }

  /** The index invariant. */
  ghost predicate Indexed(s: State) {
    && ClientsConsistent(s)
    && forall id :: SlotExact(s, id, Look(s.models, id))
  }

  lemma ListedIffRecounted(s: State, id: string)
    ensures Recount(s, id) >= 0
    ensures Recount(s, id) > 0 <==> exists c :: c in s.clientModels && id in s.clientModels[c]
  {
    var w := ListWeights(s, id);
    SumNonNegative(w);
    SumPositive(w);
    if c :| c in s.clientModels && id in s.clientModels[c] {
      assert w[c] > 0;
    }
  }

  /** In an indexed state the registered ids are exactly the ids some client lists. */
  lemma RegisteredIffListed(s: State, id: string)
    requires Indexed(s)
    ensures id in s.models <==> exists c :: c in s.clientModels && id in s.clientModels[c]
  {
    ListedIffRecounted(s, id);
    assert SlotExact(s, id, Look(s.models, id));
  }

  lemma ProviderWithinRecount(s: State, id: string, provider: string, client: string)
    ensures ProviderRecount(s, id, provider) >= 0
    ensures Mult(ListedBy(s, client), id) <= Recount(s, id)
    ensures provider != "" && ProviderOf(s, client) == provider ==>
            Mult(ListedBy(s, client), id) <= ProviderRecount(s, id, provider)
    ensures provider == "" ==> ProviderRecount(s, id, provider) == 0
  {
    SumNonNegative(ListWeights(s, id));
    SumNonNegative(ProviderWeights(s, id, provider));
    SumPositive(ProviderWeights(s, id, provider));
    if client in s.clientModels {
      assert ListWeights(s, id)[client] == Mult(ListedBy(s, client), id);
      assert client in ProviderWeights(s, id, provider);
    }
  }

  // ---------------------------------------------------------------------------------------
  // How the recount moves when one client changes its list and its provider
  // ---------------------------------------------------------------------------------------

  /** Two states whose clients agree except for one. */
  ghost predicate DifferAt(s: State, s': State, client: string) {
    && s.clientModels - {client} == s'.clientModels - {client}
    && s.clientProviders - {client} == s'.clientProviders - {client}
  }

  function Share(provider: string, owner: string, k: int): int {
    if provider != "" && owner == provider then k else 0
  }

  lemma RecountMoves(s: State, s': State, client: string, id: string)
    requires DifferAt(s, s', client)
    ensures Recount(s', id) == Recount(s, id) - Mult(ListedBy(s, client), id) + Mult(ListedBy(s', client), id)
  {
    var w, w' := ListWeights(s, id), ListWeights(s', id);
    assert w - {client} == w' - {client} by {
      forall c | c in w - {client}
        ensures c in s'.clientModels && s.clientModels[c] == s'.clientModels[c]
      {
        assert c in s.clientModels - {client};
        assert (s.clientModels - {client})[c] == (s'.clientModels - {client})[c];
      }
      forall c | c in w' - {client}
        ensures c in s.clientModels
      {
        assert c in s'.clientModels - {client};
      }
    }
    SumDiffer(w, w', client);
  }

  lemma ProviderRecountMoves(s: State, s': State, client: string, id: string, p: string)
    requires DifferAt(s, s', client)
    ensures ProviderRecount(s', id, p) == ProviderRecount(s, id, p)
              - Share(p, ProviderOf(s, client), Mult(ListedBy(s, client), id))
              + Share(p, ProviderOf(s', client), Mult(ListedBy(s', client), id))
  {
    var w, w' := ProviderWeights(s, id, p), ProviderWeights(s', id, p);
    assert w - {client} == w' - {client} by {
      forall c | c in w - {client}
        ensures c in s'.clientModels && s.clientModels[c] == s'.clientModels[c] && ProviderOf(s, c) == ProviderOf(s', c)
      {
        assert c in s.clientModels - {client};
        assert (s.clientModels - {client})[c] == (s'.clientModels - {client})[c];
        assert c in s.clientProviders <==> c in s.clientProviders - {client};
        assert c in s'.clientProviders <==> c in s'.clientProviders - {client};
        if c in s.clientProviders {
          assert (s.clientProviders - {client})[c] == (s'.clientProviders - {client})[c];
        }
      }
      forall c | c in w' - {client}
        ensures c in s.clientModels
      {
        assert c in s'.clientModels - {client};
      }
    }
    SumDiffer(w, w', client);
  }

  // ---------------------------------------------------------------------------------------
  // Closed form of the per-id effects under exact counters
  // ---------------------------------------------------------------------------------------

  ghost function Count(r: Option<Registration>): int {
    if r.Some? then r.value.count else 0
  }

  ghost function ProviderCount(r: Option<Registration>, p: string): int {
    if r.Some? then WeightAt(r.value.providers, p) else 0
  }

  ghost function InfoAt(r: Option<Registration>, p: string): Option<ModelInfo> {
    if r.Some? then Look(r.value.infoByProvider, p) else None
  }

  /** Provider p has an entry exactly while its count is positive, and an info exactly then. */
  ghost predicate ProviderSound(r: Option<Registration>, p: string) {
    && ProviderCount(r, p) >= 0
    && (r.Some? ==>
          && (p in r.value.providers <==> ProviderCount(r, p) > 0)
          && (p in r.value.infoByProvider <==> p in r.value.providers))
  }

  /** The effect of one client's change on one provider of one id, whatever the order in which
      units are moved: o units of provider `from` go, n units of provider `to` come. */
  ghost predicate ProviderMoved(r: Option<Registration>, r': Option<Registration>, ch: Change, p: string)
    requires ch.Valid()
  {
    && ProviderCount(r', p) == ProviderCount(r, p) - Share(p, ch.from, ch.o) + Share(p, ch.to, ch.n)
    && ProviderSound(r', p)
    && (InfoAt(r', p).Some? ==> InfoAt(r', p) == if ch.n > 0 && p == ch.to then ch.info else InfoAt(r, p))
  }

  ghost predicate CountMoved(r: Option<Registration>, r': Option<Registration>, ch: Change)
    requires ch.Valid()
  {
    && Count(r') == Count(r) - ch.o + ch.n
    && (r'.Some? <==> Count(r') > 0)
    && (r'.Some? ==>
          r'.value.info ==
          if ch.n > 0 then ch.info.value else if r.Some? then r.value.info else r'.value.info)
  }

  ghost predicate Moved(r: Option<Registration>, r': Option<Registration>, ch: Change)
    requires ch.Valid()
  {
    CountMoved(r, r', ch) && (r'.Some? ==> forall p :: ProviderMoved(r, r', ch, p))
  }

  /** The counters of a slot cover what the client contributes to it. */
  ghost predicate Covers(r: Option<Registration>, ch: Change) {
    && ch.Valid()
    && Count(r) >= ch.o
    && (r.Some? <==> Count(r) > 0)
    && (forall p :: ProviderSound(r, p) && ProviderCount(r, p) >= Share(p, ch.from, ch.o))
    && ProviderCount(r, "") == 0
  }

  lemma DropProviderMoves(x: Registration, from: string, k: nat, p: string)
    requires ProviderSound(Some(x), p)
    requires ProviderCount(Some(x), p) >= Share(p, from, k)
    ensures ProviderSound(Some(DropProvider(x, from, k)), p)
    ensures ProviderCount(Some(DropProvider(x, from, k)), p) == ProviderCount(Some(x), p) - Share(p, from, k)
    ensures p in DropProvider(x, from, k).infoByProvider ==>
            InfoAt(Some(DropProvider(x, from, k)), p) == InfoAt(Some(x), p)
  {
  }

  lemma LoseMovesProvider(r: Option<Registration>, ch: Change, k: nat, p: string)
    requires r.Some? && r.value.count > k && ProviderSound(r, p)
    requires ProviderCount(r, p) >= Share(p, ch.from, k)
    ensures var r' := Lose(r, ch.client, ch.from, k, ch.now);
      && r'.Some? && r'.value.count == r.value.count - k && r'.value.info == r.value.info
      && ProviderSound(r', p)
      && ProviderCount(r', p) == ProviderCount(r, p) - Share(p, ch.from, k)
      && (InfoAt(r', p).Some? ==> InfoAt(r', p) == InfoAt(r, p))
  {
    if k > 0 {
      var x := Unmark(r.value.(count := r.value.count - k, lastUpdated := ch.now), ch.client);
      DropProviderMoves(x, ch.from, k, p);
    }
  }

  lemma GainMovesProvider(r: Option<Registration>, to: string, info: ModelInfo, k: nat, now: Time, p: string)
    requires ProviderSound(r, p) && ProviderCount(r, "") == 0 && k > 0
    ensures var r' := Gain(r, to, info, k, now);
      && r'.Some? && r'.value.count == Count(r) + k && r'.value.info == info
      && ProviderSound(r', p)
      && ProviderCount(r', p) == ProviderCount(r, p) + Share(p, to, k)
      && (InfoAt(r', p).Some? ==> InfoAt(r', p) == if p == to then Some(info) else InfoAt(r, p))
  {
  }

  /** The five edits of the incremental path add up to the closed form: count and info. */
  lemma ReconcileMovesCount(r: Option<Registration>, ch: Change)
    requires Covers(r, ch)
    ensures CountMoved(r, Reconcile(r, ch), ch)
  {
    var r1 := MoveAway(r, ch);
    assert Count(r1) == Count(r) && r1.Some? == r.Some?;
    var r2 := Remove(r1, ch);
    assert Count(r2) == if ch.n == 0 then Count(r) - ch.o else Count(r);
    assert r2.Some? <==> Count(r2) > 0;
    var r3 := Reduce(r2, ch);
    assert Count(r3) == if ch.n == 0 || ch.n < ch.o then Count(r) - ch.o + ch.n else Count(r);
    assert r3.Some? <==> Count(r3) > 0;
    var r4 := Extend(r3, ch);
    assert Count(r4) == Count(r) - ch.o + ch.n;
  }

  /** Units that the last edit books for the new provider. */
  function Rebooked(ch: Change): int {
    if ch.from != ch.to && ch.o > 0 then Min(ch.n, ch.o) else 0
  }

  lemma RefreshMovesProvider(r: Option<Registration>, ch: Change, p: string)
    requires ch.Valid() && r.Some? && ch.n > 0 && ProviderSound(r, p) && ProviderCount(r, "") == 0
    requires p == ch.to && p != "" && Rebooked(ch) == 0 ==> ProviderCount(r, p) > 0
    ensures var r' := Refresh(r, ch);
      && r'.Some? && ProviderSound(r', p)
      && ProviderCount(r', p) == ProviderCount(r, p) + Share(p, ch.to, Rebooked(ch))
      && (InfoAt(r', p).Some? ==> InfoAt(r', p) == if p == ch.to then ch.info else InfoAt(r, p))
  {
  }

  /** The five edits of the incremental path add up to the closed form: each provider. */
  lemma ReconcileMovesProvider(r: Option<Registration>, ch: Change, p: string)
    requires Covers(r, ch) && Reconcile(r, ch).Some?
    ensures ProviderMoved(r, Reconcile(r, ch), ch, p)
  {
    assert ProviderSound(r, p) && ProviderCount(r, p) >= Share(p, ch.from, ch.o);
    if ch.n == 0 {
      LoseMovesProvider(r, ch, ch.o, p);
    } else if ch.o == 0 {
      GainMovesProvider(r, ch.to, ch.info.value, ch.n, ch.now, p);
      RefreshMovesProvider(Gain(r, ch.to, ch.info.value, ch.n, ch.now), ch, p);
    } else {
      ReconcileKeptProvider(r, ch, p);
    }
  }

  /** The units that both lists share leave the old provider and reach the new one. */
  lemma MoveAwayProvider(r: Option<Registration>, ch: Change, p: string)
    requires Covers(r, ch) && ch.n > 0 && ch.o > 0
    ensures var r1 := MoveAway(r, ch);
      && r1.Some? && r1.value.count == Count(r) && r1.value.info == r.value.info
      && ProviderSound(r1, p) && ProviderCount(r1, "") == 0
      && ProviderCount(r1, p) == ProviderCount(r, p) - Share(p, ch.from, Rebooked(ch))
      && (InfoAt(r1, p).Some? ==> InfoAt(r1, p) == InfoAt(r, p))
  {
    assert ProviderSound(r, p) && ProviderCount(r, p) >= Share(p, ch.from, ch.o);
    DropProviderMoves(r.value, ch.from, Min(ch.n, ch.o), p);
  }

  /** The surplus units of one of the two lists are removed or added one provider at a time. */
  lemma AdjustProvider(r: Option<Registration>, ch: Change, p: string)
    requires ch.Valid() && r.Some? && ch.n > 0 && ch.o > 0 && r.value.count >= ch.o
    requires ProviderSound(r, p) && ProviderCount(r, "") == 0
    requires ProviderCount(r, p) >= Share(p, ch.from, ch.o - Rebooked(ch))
    ensures var r' := Extend(Reduce(r, ch), ch);
      && r'.Some?
      && ProviderSound(r', p) && ProviderCount(r', "") == 0
      && ProviderCount(r', p) == ProviderCount(r, p)
           - Share(p, ch.from, ch.o - Min(ch.n, ch.o)) + Share(p, ch.to, ch.n - Min(ch.n, ch.o))
      && (InfoAt(r', p).Some? ==> InfoAt(r', p) == if ch.n > ch.o && p == ch.to then ch.info else InfoAt(r, p))
  {
    if ch.n < ch.o {
      LoseMovesProvider(r, ch, ch.o - ch.n, p);
    } else if ch.n > ch.o {
      GainMovesProvider(r, ch.to, ch.info.value, ch.n - ch.o, ch.now, p);
    }
  }

  lemma ReconcileKeptProvider(r: Option<Registration>, ch: Change, p: string)
    requires Covers(r, ch) && ch.n > 0 && ch.o > 0
    ensures Reconcile(r, ch).Some? && ProviderMoved(r, Reconcile(r, ch), ch, p)
  {
    assert ProviderSound(r, p) && ProviderCount(r, p) >= Share(p, ch.from, ch.o);
    MoveAwayProvider(r, ch, p);
    var r1 := MoveAway(r, ch);
    assert Remove(r1, ch) == r1;
    AdjustProvider(r1, ch, p);
    RefreshMovesProvider(Extend(Reduce(r1, ch), ch), ch, p);
  }

  lemma ReconcileMoves(r: Option<Registration>, ch: Change)
    requires Covers(r, ch)
    ensures Moved(r, Reconcile(r, ch), ch)
  {
    ReconcileMovesCount(r, ch);
    if Reconcile(r, ch).Some? {
      forall p
        ensures ProviderMoved(r, Reconcile(r, ch), ch, p)
      {
        ReconcileMovesProvider(r, ch, p);
      }
    }
  }

  /** Removing the old list of a client and adding the new one, as a fresh registration does. */
  function Replace(r: Option<Registration>, ch: Change): Option<Registration>
    requires ch.Valid()
  {
    var gone := Lose(r, ch.client, ch.from, ch.o, ch.now);
    if ch.n == 0 then gone else Gain(gone, ch.to, ch.info.value, ch.n, ch.now)
  }

  lemma ReplaceMoves(r: Option<Registration>, ch: Change)
    requires Covers(r, ch)
    requires Count(r) == ch.o ==> forall p :: ProviderCount(r, p) == Share(p, ch.from, ch.o)
    ensures Moved(r, Replace(r, ch), ch)
  {
    var gone := Lose(r, ch.client, ch.from, ch.o, ch.now);
    assert gone.Some? <==> Count(r) > ch.o;
    assert Count(gone) == Count(r) - ch.o;
    if Replace(r, ch).Some? {
      forall p
        ensures ProviderMoved(r, Replace(r, ch), ch, p)
      {
        assert ProviderSound(r, p) && ProviderCount(r, p) >= Share(p, ch.from, ch.o);
        if gone.Some? {
          LoseMovesProvider(r, ch, ch.o, p);
          assert ProviderCount(gone, "") == 0;
        }
        if ch.n > 0 {
          GainMovesProvider(gone, ch.to, ch.info.value, ch.n, ch.now, p);
        }
      }
    }
  }

  // ---------------------------------------------------------------------------------------
  // Exact counters before a change give exact counters after it
  // ---------------------------------------------------------------------------------------

  /** The change describes what the client did between two states. */
  ghost predicate Describes(ch: Change, s: State, s': State, id: string) {
    && ch.Valid()
    && DifferAt(s, s', ch.client)
    && ch.from == ProviderOf(s, ch.client) && ch.o == Mult(ListedBy(s, ch.client), id)
    && ch.n == Mult(ListedBy(s', ch.client), id)
    && (ch.n > 0 ==> ch.to == ProviderOf(s', ch.client) && ch.info.value.id == id)
  }

  lemma ExactSlot(s: State, id: string, p: string)
    requires Indexed(s)
    ensures Count(Look(s.models, id)) == Recount(s, id)
    ensures ProviderSound(Look(s.models, id), p)
    ensures id in s.models ==> ProviderCount(Look(s.models, id), p) == ProviderRecount(s, id, p)
    ensures ProviderCount(Look(s.models, id), "") == 0
  {
    assert SlotExact(s, id, Look(s.models, id));
    ListedIffRecounted(s, id);
    ProviderWithinRecount(s, id, p, "");
    ProviderWithinRecount(s, id, "", "");
  }

  lemma ExactCovers(s: State, s': State, ch: Change, id: string)
    requires Indexed(s) && Describes(ch, s, s', id)
    ensures Covers(Look(s.models, id), ch)
  {
    var r := Look(s.models, id);
    assert SlotExact(s, id, r);
    ExactSlot(s, id, "");
    ProviderWithinRecount(s, id, "", ch.client);
    forall p
      ensures ProviderSound(r, p) && ProviderCount(r, p) >= Share(p, ch.from, ch.o)
    {
      ExactSlot(s, id, p);
      ProviderWithinRecount(s, id, p, ch.client);
    }
  }

  lemma MovedIsExact(s: State, s': State, ch: Change, id: string, r': Option<Registration>)
    requires Indexed(s) && Describes(ch, s, s', id)
    requires Moved(Look(s.models, id), r', ch)
    ensures SlotExact(s', id, r')
  {
    var r := Look(s.models, id);
    assert SlotExact(s, id, r);
    ExactSlot(s, id, "");
    RecountMoves(s, s', ch.client, id);
    if r'.Some? {
      forall p
        ensures p in r'.value.providers <==> ProviderRecount(s', id, p) > 0
        ensures p in r'.value.providers ==> r'.value.providers[p] == ProviderRecount(s', id, p)
        ensures p in r'.value.infoByProvider <==> p in r'.value.providers
        ensures p in r'.value.infoByProvider ==> r'.value.infoByProvider[p].id == id
      {
        MovedProviderIsExact(s, s', ch, id, r', p);
      }
    }
  }

  lemma MovedProviderIsExact(s: State, s': State, ch: Change, id: string, r': Option<Registration>, p: string)
    requires Indexed(s) && Describes(ch, s, s', id) && r'.Some?
    requires ProviderMoved(Look(s.models, id), r', ch, p)
    ensures p in r'.value.providers <==> ProviderRecount(s', id, p) > 0
    ensures p in r'.value.providers ==> r'.value.providers[p] == ProviderRecount(s', id, p)
    ensures p in r'.value.infoByProvider <==> p in r'.value.providers
    ensures p in r'.value.infoByProvider ==> r'.value.infoByProvider[p].id == id
  {
    var r := Look(s.models, id);
    assert SlotExact(s, id, r);
    ExactSlot(s, id, p);
    ProviderRecountMoves(s, s', ch.client, id, p);
    ProviderWithinRecount(s', id, p, ch.client);
    if r.None? {
      ListedIffRecounted(s, id);
      ProviderWithinListing(s, id, p);
    }
  }

  /** No provider recount without a recount. */
  lemma ProviderWithinListing(s: State, id: string, p: string)
    requires Recount(s, id) == 0
    ensures ProviderRecount(s, id, p) == 0
  {
    var w := ProviderWeights(s, id, p);
    SumNonNegative(w);
    SumPositive(w);
    ListedIffRecounted(s, id);
    assert forall c :: c in w ==> w[c] <= Mult(s.clientModels[c], id);
  }

  // ---------------------------------------------------------------------------------------
  // Every operation keeps the index
  // ---------------------------------------------------------------------------------------

  lemma UnregisterKeepsIndex(s: State, client: string, now: Time)
    requires Indexed(s)
    ensures Indexed(UnregisterClient(s, client, now))
  {
    var s' := UnregisterClient(s, client, now);
    if client !in s.clientModels {
      assert s' == s;
    } else {
      forall id
        ensures SlotExact(s', id, Look(s'.models, id))
      {
        var ch := Change(client, ProviderOf(s, client), "", Mult(ListedBy(s, client), id), 0, None, now);
        UnregisterClientAt(s, client, now, id);
        ExactCovers(s, s', ch, id);
        ReconcileMoves(Look(s.models, id), ch);
        assert Reconcile(Look(s.models, id), ch) == Look(s'.models, id);
        MovedIsExact(s, s', ch, id, Look(s'.models, id));
      }
    }
  }

  lemma RegisterKeepsIndex(s: State, client: string, clientProvider: string, offered: seq<Option<ModelInfo>>, now: Time)
    requires Indexed(s)
    ensures Indexed(RegisterClient(s, client, clientProvider, offered, now))
  {
    var s' := RegisterClient(s, client, clientProvider, offered, now);
    if Ids(offered) == [] {
      UnregisterKeepsIndex(s, client, now);
      assert s' == UnregisterClient(s, client, now);
    } else {
      forall id
        ensures SlotExact(s', id, Look(s'.models, id))
      {
        RegisterKeepsSlot(s, client, clientProvider, offered, now, id);
      }
      RegisterKeepsClients(s, client, clientProvider, offered, now);
    }
  }

  lemma RegisterKeepsClients(s: State, client: string, clientProvider: string, offered: seq<Option<ModelInfo>>,
                             now: Time)
    requires ClientsConsistent(s) && Ids(offered) != []
    ensures ClientsConsistent(RegisterClient(s, client, clientProvider, offered, now))
  {
  }

  lemma RegisterChangesOneClient(s: State, client: string, clientProvider: string, offered: seq<Option<ModelInfo>>,
                                 now: Time)
    requires Ids(offered) != []
    ensures var s' := RegisterClient(s, client, clientProvider, offered, now);
      DifferAt(s, s', client) && ListedBy(s', client) == Ids(offered) &&
          ProviderOf(s', client) == Text.ToLower(clientProvider)
  {
    var s' := RegisterClient(s, client, clientProvider, offered, now);
    assert s'.clientModels - {client} == s.clientModels - {client};
    assert s'.clientProviders - {client} == s.clientProviders - {client};
  }

  lemma RegisterKeepsSlot(s: State, client: string, clientProvider: string, offered: seq<Option<ModelInfo>>, now: Time,
                          id: string)
    requires Indexed(s) && Ids(offered) != []
    ensures var s' := RegisterClient(s, client, clientProvider, offered, now);
      SlotExact(s', id, Look(s'.models, id))
  {
    RegisterClientAt(s, client, clientProvider, offered, now, id);
    RegisterChangesOneClient(s, client, clientProvider, offered, now);
    RegisteredIsExact(s, RegisterClient(s, client, clientProvider, offered, now), client, Text.ToLower(clientProvider),
                      offered, now, id);
  }

  lemma RegisteredIsExact(s: State, s': State, client: string, to: string, offered: seq<Option<ModelInfo>>, now: Time,
                          id: string)
    requires Indexed(s) && DifferAt(s, s', client)
    requires ListedBy(s', client) == Ids(offered) && ProviderOf(s', client) == to
    ensures SlotExact(s', id, Registered(s, client, to, offered, now, id))
  {
    RegisteredMoves(s, s', client, to, offered, now, id);
    MovedIsExact(s, s', ChangeFor(s, client, to, offered, now, id), id, Registered(s, client, to, offered, now, id));
  }

  lemma RegisteredMoves(s: State, s': State, client: string, to: string, offered: seq<Option<ModelInfo>>, now: Time,
                        id: string)
    requires Indexed(s) && DifferAt(s, s', client)
    requires ListedBy(s', client) == Ids(offered) && ProviderOf(s', client) == to
    ensures Describes(ChangeFor(s, client, to, offered, now, id), s, s', id)
    ensures Covers(Look(s.models, id), ChangeFor(s, client, to, offered, now, id))
    ensures Moved(Look(s.models, id), Registered(s, client, to, offered, now, id),
                  ChangeFor(s, client, to, offered, now, id))
  {
    var ch := ChangeFor(s, client, to, offered, now, id);
    var r := Look(s.models, id);
    ExactCovers(s, s', ch, id);
    if client in s.clientModels {
      ReconcileMoves(r, ch);
    } else {
      if Count(r) == ch.o {
        forall p
          ensures ProviderCount(r, p) == Share(p, ch.from, ch.o)
        {
        }
      }
      ReplaceMoves(r, ch);
    }
  }

  /** Only the marks and the time stamp of a registration differ. */
  predicate OnlyMarks(x: Registration, y: Registration) {
    y == x.(quota := y.quota, suspended := y.suspended, lastUpdated := y.lastUpdated)
  }

  lemma MarksKeepIndex(s: State, s': State)
    requires Indexed(s)
    requires s' == s.(models := s'.models) && s'.models.Keys == s.models.Keys
    requires forall id :: id in s.models ==> OnlyMarks(s.models[id], s'.models[id])
    ensures Indexed(s')
  {
    forall id
      ensures SlotExact(s', id, Look(s'.models, id))
    {
      SameRecounts(s, s', id);
      assert SlotExact(s, id, Look(s.models, id));
    }
  }

  lemma SameRecounts(s: State, s': State, id: string)
    requires s' == s.(models := s'.models)
    ensures Recount(s', id) == Recount(s, id)
    ensures forall p :: ProviderRecount(s', id, p) == ProviderRecount(s, id, p)
  {
    assert ListWeights(s', id) == ListWeights(s, id);
    forall p
      ensures ProviderRecount(s', id, p) == ProviderRecount(s, id, p)
    {
      assert ProviderWeights(s', id, p) == ProviderWeights(s, id, p);
    }
  }

  lemma UpdateKeepsIndex(s: State, id: string, f: Registration -> Registration)
    requires Indexed(s)
    requires id in s.models ==> OnlyMarks(s.models[id], f(s.models[id]))
    ensures Indexed(Update(s, id, f))
  {
    MarksKeepIndex(s, Update(s, id, f));
  }

  lemma SuspendKeepsIndex(s: State, client: string, id: string, reason: string, now: Time)
    requires Indexed(s)
    ensures Indexed(SuspendClientModel(s, client, id, reason, now))
  {
    MarksKeepIndex(s, SuspendClientModel(s, client, id, reason, now));
  }

  lemma ResumeKeepsIndex(s: State, client: string, id: string, now: Time)
    requires Indexed(s)
    ensures Indexed(ResumeClientModel(s, client, id, now))
  {
    MarksKeepIndex(s, ResumeClientModel(s, client, id, now));
  }

  lemma CleanupKeepsIndex(s: State, now: Time)
    requires Indexed(s)
    ensures Indexed(CleanupExpiredQuotas(s, now))
  {
    MarksKeepIndex(s, CleanupExpiredQuotas(s, now));
  }

  datatype Op =
    | Register(client: string, provider: string, offered: seq<Option<ModelInfo>>)
    | Unregister(client: string)
    | SetQuota(client: string, id: string)
    | ClearQuota(client: string, id: string)
    | Suspend(client: string, id: string, reason: string)
    | Resume(client: string, id: string)
    | Cleanup

  function Apply(s: State, op: Op, now: Time): State {
    match op
    case Register(c, p, offered) => RegisterClient(s, c, p, offered, now)
    case Unregister(c) => UnregisterClient(s, c, now)
    case SetQuota(c, id) => SetModelQuotaExceeded(s, c, id, now)
    case ClearQuota(c, id) => ClearModelQuotaExceeded(s, c, id)
    case Suspend(c, id, reason) => SuspendClientModel(s, c, id, reason, now)
    case Resume(c, id) => ResumeClientModel(s, c, id, now)
    case Cleanup => CleanupExpiredQuotas(s, now)
  }

  /** A run of public operations, each at its own instant. */
  function Run(s: State, run: seq<(Op, Time)>): State {
    if run == [] then s else Apply(Run(s, run[..|run| - 1]), run[|run| - 1].0, run[|run| - 1].1)
  }

  lemma ApplyKeepsIndex(s: State, op: Op, now: Time)
    requires Indexed(s)
    ensures Indexed(Apply(s, op, now))
  {
    match op
    case Register(c, p, offered) => RegisterKeepsIndex(s, c, p, offered, now);
    case Unregister(c) => UnregisterKeepsIndex(s, c, now);
    case SetQuota(c, id) => UpdateKeepsIndex(s, id, (x: Registration) => x.(quota := x.quota[c := now]));
    case ClearQuota(c, id) => UpdateKeepsIndex(s, id, (x: Registration) => x.(quota := x.quota - {c}));
    case Suspend(c, id, reason) => SuspendKeepsIndex(s, c, id, reason, now);
    case Resume(c, id) => ResumeKeepsIndex(s, c, id, now);
    case Cleanup => CleanupKeepsIndex(s, now);
  }

  /** Every reachable registry state is exactly the recomputation from its clients. */
  lemma {:induction false} ReachableIsIndexed(run: seq<(Op, Time)>)
    ensures Indexed(Run(Empty, run))
  {
    if run == [] {
      forall id
        ensures SlotExact(Empty, id, Look(Empty.models, id))
      {
        ListedIffRecounted(Empty, id);
      }
    } else {
      ReachableIsIndexed(run[..|run| - 1]);
      ApplyKeepsIndex(Run(Empty, run[..|run| - 1]), run[|run| - 1].0, run[|run| - 1].1);
    }
  }
}
