/** Values of the model registry and the meaning of each registry operation, one model id at a
    time. The class in ModelRegistry.dfy is proved to compute exactly these functions. */
module RegistryModel {
  import opened Collections
  import Text

  type Time = int

  /** Model metadata. The registry itself looks only at the id, the name and the creation time. */
  datatype ModelInfo = ModelInfo(id: string, name: string, created: int, details: string)

  datatype Registration = Registration(
    info: ModelInfo,
    infoByProvider: map<string, ModelInfo>,
    count: int,
    lastUpdated: Time,
    quota: map<string, Time>,
    providers: map<string, int>,
    suspended: map<string, string>)

  datatype State = State(
    models: map<string, Registration>,
    clientModels: map<string, seq<string>>,
    clientInfos: map<string, map<string, ModelInfo>>,
    clientProviders: map<string, string>)

  const Empty := State(map[], map[], map[], map[])

  // ---------------------------------------------------------------------------------------
  // The offer of a client: the listed ids with their multiplicity, the first info of each id
  // ---------------------------------------------------------------------------------------

  predicate Counted(m: Option<ModelInfo>) {
    m.Some? && m.value.id != ""
  }

  function Ids(offered: seq<Option<ModelInfo>>): (ids: seq<string>)
    ensures "" !in ids
  {
    if offered == [] then []
    else
      var rest := Ids(offered[..|offered| - 1]);
      var m := offered[|offered| - 1];
      if Counted(m) then rest + [m.value.id] else rest
  }

  /** The info kept for each id: the first one offered. */
  function Infos(offered: seq<Option<ModelInfo>>): (infos: map<string, ModelInfo>)
    ensures infos.Keys == ElementSet(Ids(offered))
    ensures forall id :: id in infos ==> infos[id].id == id
  {
    if offered == [] then map[]
    else
      var rest := Infos(offered[..|offered| - 1]);
      var m := offered[|offered| - 1];
      if Counted(m) && m.value.id !in rest then rest[m.value.id := m.value] else rest
  }

  function Mult(ids: seq<string>, id: string): nat {
    multiset(ids)[id]
  }

  function Min(a: int, b: int): int {
    if a <= b then a else b
  }

  // ---------------------------------------------------------------------------------------
  // Effects on the registration of one id; None means that the id is not registered
  // ---------------------------------------------------------------------------------------

  /** Take k units of a provider away; the provider and its info go when nothing is left. */
  function DropProvider(x: Registration, provider: string, k: nat): Registration {
    if k == 0 || provider == "" || provider !in x.providers then x
    else if x.providers[provider] <= k then
      x.(providers := x.providers - {provider}, infoByProvider := x.infoByProvider - {provider})
    else
      x.(providers := x.providers[provider := x.providers[provider] - k])
  }

  function Unmark(x: Registration, client: string): Registration {
    x.(quota := x.quota - {client}, suspended := x.suspended - {client})
  }

  /** The effect of k units added for a provider. */
  function Gain(r: Option<Registration>, provider: string, info: ModelInfo, k: nat, now: Time): Option<Registration> {
    if k == 0 then r
    else
      match r
      case None =>
        Some(Registration(info, if provider != "" then map[provider := info] else map[], k, now, map[],
                          if provider != "" then map[provider := k] else map[], map[]))
      case Some(x) =>
        var y := x.(count := x.count + k, lastUpdated := now, info := info);
        Some(if provider == "" then y
             else y.(providers := y.providers[provider := WeightAt(y.providers, provider) + k],
                     infoByProvider := y.infoByProvider[provider := info]))
  }

  /** The effect of k units removed by a client of a provider. */
  function Lose(r: Option<Registration>, client: string, provider: string, k: nat, now: Time): Option<Registration> {
    if k == 0 || r.None? || r.value.count <= k then
      if k == 0 then r else None
    else
      var x := r.value;
      Some(DropProvider(Unmark(x.(count := x.count - k, lastUpdated := now), client), provider, k))
  }

  lemma GainOneMore(r: Option<Registration>, provider: string, info: ModelInfo, k: nat, now: Time)
    ensures Gain(Gain(r, provider, info, k, now), provider, info, 1, now) == Gain(r, provider, info, k + 1, now)
  {
    var a := Gain(Gain(r, provider, info, k, now), provider, info, 1, now).value;
    var b := Gain(r, provider, info, k + 1, now).value;
    assert a.providers == b.providers;
    assert a.infoByProvider == b.infoByProvider;
  }

  lemma DropProviderOneMore(x: Registration, provider: string, k: nat)
    ensures DropProvider(DropProvider(x, provider, k), provider, 1) == DropProvider(x, provider, k + 1)
  {
    if k > 0 && provider in x.providers && x.providers[provider] > k {
      var left := x.providers[provider] - k;
      assert x.providers[provider := left][provider := left - 1] == x.providers[provider := left - 1];
      assert x.providers[provider := left] - {provider} == x.providers - {provider};
    }
  }

  lemma LoseOneMore(r: Option<Registration>, client: string, provider: string, k: nat, now: Time)
    ensures Lose(Lose(r, client, provider, k, now), client, provider, 1, now) == Lose(r, client, provider, k + 1, now)
  {
    if k > 0 && r.Some? && r.value.count > k + 1 {
      var x := Unmark(r.value.(count := r.value.count - k, lastUpdated := now), client);
      assert Unmark(x, client) == x;
      DropProviderOneMore(x, provider, k);
    }
  }

  // ---------------------------------------------------------------------------------------
  // Re-registration of a known client, one id: the five edits of the incremental path
  // ---------------------------------------------------------------------------------------

  /** What one re-registration says about one id: o units listed before under provider `from`,
      n units listed now under provider `to`. */
  datatype Change = Change(client: string, from: string, to: string, o: nat, n: nat, info: Option<ModelInfo>,
                           now: Time) {
    ghost predicate Valid() {
      n > 0 ==> info.Some?
    }
  }

  function MoveAway(r: Option<Registration>, ch: Change): Option<Registration> {
    if r.Some? && ch.from != ch.to && ch.from != "" && ch.n > 0 && ch.o > 0
    then Some(DropProvider(r.value, ch.from, Min(ch.n, ch.o))) else r
  }

  function Remove(r: Option<Registration>, ch: Change): Option<Registration> {
    if ch.n == 0 then Lose(r, ch.client, ch.from, ch.o, ch.now) else r
  }

  function Reduce(r: Option<Registration>, ch: Change): Option<Registration> {
    if 0 < ch.n < ch.o then Lose(r, ch.client, ch.from, ch.o - ch.n, ch.now) else r
  }

  function Extend(r: Option<Registration>, ch: Change): Option<Registration>
    requires ch.Valid()
  {
    if ch.n > ch.o then Gain(r, ch.to, ch.info.value, ch.n - ch.o, ch.now) else r
  }

  function Refresh(r: Option<Registration>, ch: Change): Option<Registration>
    requires ch.Valid()
  {
    if ch.n == 0 || r.None? then r
    else
      var x := Unmark(r.value.(info := ch.info.value, lastUpdated := ch.now), ch.client);
      if ch.to == "" then Some(x)
      else
        var y := x.(infoByProvider := x.infoByProvider[ch.to := ch.info.value]);
        if ch.from != ch.to && ch.o > 0
        then Some(y.(providers := y.providers[ch.to := WeightAt(y.providers, ch.to) + Min(ch.n, ch.o)]))
        else Some(y)
  }

  function Reconcile(r: Option<Registration>, ch: Change): Option<Registration>
    requires ch.Valid()
  {
    Refresh(Extend(Reduce(Remove(MoveAway(r, ch), ch), ch), ch), ch)
  }

  // ---------------------------------------------------------------------------------------
  // Operations on the whole state
  // ---------------------------------------------------------------------------------------

  function ProviderOf(s: State, client: string): string {
    if client in s.clientProviders then s.clientProviders[client] else ""
  }

  function SetProvider(cp: map<string, string>, client: string, provider: string): map<string, string> {
    if provider != "" then cp[client := provider] else cp - {client}
  }

  function ListedBy(s: State, client: string): seq<string> {
    if client in s.clientModels then s.clientModels[client] else []
  }

  function ChangeFor(s: State, client: string, to: string, offered: seq<Option<ModelInfo>>, now: Time,
                     id: string): (ch: Change)
    ensures ch.Valid()
  {
    Change(client, ProviderOf(s, client), to, Mult(ListedBy(s, client), id), Mult(Ids(offered), id),
           Look(Infos(offered), id), now)
  }

  /** The registration of one id after RegisterClient, for a non-empty offer. */
  function Registered(s: State, client: string, to: string, offered: seq<Option<ModelInfo>>, now: Time,
                      id: string): Option<Registration> {
    var ch := ChangeFor(s, client, to, offered, now, id);
    if client in s.clientModels then Reconcile(Look(s.models, id), ch)
    else if ch.n == 0 then Look(s.models, id)
    else Gain(Look(s.models, id), to, ch.info.value, ch.n, now)
  }

  function Unregistered(s: State, client: string, now: Time, id: string): Option<Registration> {
    Lose(Look(s.models, id), client, ProviderOf(s, client), Mult(ListedBy(s, client), id), now)
  }

  function UnregisterClient(s: State, client: string, now: Time): State {
    if client !in s.clientModels then s.(clientProviders := s.clientProviders - {client})
    else
      State(map id | id in s.models && Unregistered(s, client, now, id).Some? :: Unregistered(s, client, now, id).value,
            s.clientModels - {client}, s.clientInfos - {client}, s.clientProviders - {client})
  }

  function RegisterClient(s: State, client: string, clientProvider: string, offered: seq<Option<ModelInfo>>,
                          now: Time): State {
    var to := Text.ToLower(clientProvider);
    if Ids(offered) == [] then
      var u := UnregisterClient(s, client, now);
      u.(clientInfos := u.clientInfos - {client})
    else
      State(map id | id in s.models.Keys + ElementSet(Ids(offered)) && Registered(s, client, to, offered, now, id).Some?
              :: Registered(s, client, to, offered, now, id).value,
            s.clientModels[client := Ids(offered)],
            s.clientInfos[client := Infos(offered)],
            SetProvider(s.clientProviders, client, to))
  }

  lemma RegisterClientAt(s: State, client: string, clientProvider: string, offered: seq<Option<ModelInfo>>, now: Time,
                         id: string)
    requires Ids(offered) != []
    ensures Look(RegisterClient(s, client, clientProvider, offered, now).models, id)
         == Registered(s, client, Text.ToLower(clientProvider), offered, now, id)
  {
    if id !in s.models.Keys + ElementSet(Ids(offered)) {
      assert Mult(Ids(offered), id) == 0;
    }
  }

  lemma UnregisterClientAt(s: State, client: string, now: Time, id: string)
    ensures Look(UnregisterClient(s, client, now).models, id)
         == if client in s.clientModels then Unregistered(s, client, now, id) else Look(s.models, id)
  {
  }

  function Update(s: State, id: string, f: Registration -> Registration): State {
    if id in s.models then s.(models := s.models[id := f(s.models[id])]) else s
  }

  function SetModelQuotaExceeded(s: State, client: string, id: string, now: Time): State {
    Update(s, id, (x: Registration) => x.(quota := x.quota[client := now]))
  }

  function ClearModelQuotaExceeded(s: State, client: string, id: string): State {
    Update(s, id, (x: Registration) => x.(quota := x.quota - {client}))
  }

  function SuspendClientModel(s: State, client: string, id: string, reason: string, now: Time): State {
    if client == "" || id == "" then s
    else Update(s, id, (x: Registration) =>
                  if client in x.suspended then x
                  else x.(suspended := x.suspended[client := reason], lastUpdated := now))
  }

  function ResumeClientModel(s: State, client: string, id: string, now: Time): State {
    if client == "" || id == "" then s
    else Update(s, id, (x: Registration) =>
                  if client in x.suspended then x.(suspended := x.suspended - {client}, lastUpdated := now) else x)
  }

  /** Five minutes, in nanoseconds. */
  const QuotaExpired: int := 300_000_000_000

  predicate Cooling(marked: Time, now: Time) {
    now - marked < QuotaExpired
  }

  function DropExpired(x: Registration, now: Time): Registration {
    x.(quota := map c | c in x.quota && Cooling(x.quota[c], now) :: x.quota[c])
  }

  function CleanupExpiredQuotas(s: State, now: Time): State {
    s.(models := map id | id in s.models :: DropExpired(s.models[id], now))
  }
}
