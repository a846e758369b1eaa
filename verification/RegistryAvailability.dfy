/** What the registry says about availability, against what is true of its clients. */
module RegistryAvailability {
  import opened Collections
  import opened RegistryModel
  import opened RegistryIndex
  import opened RegistryReconcile
  import Text

  // ---------------------------------------------------------------------------------------
  // The numbers the queries compute
  // ---------------------------------------------------------------------------------------

  function CoolingClients(x: Registration, now: Time): set<string> {
    set c | c in x.quota && Cooling(x.quota[c], now)
  }

  predicate IsQuota(reason: string) {
    Text.EqualFold(reason, "quota")
  }

  function QuotaSuspended(x: Registration): set<string> {
    set c | c in x.suspended && IsQuota(x.suspended[c])
  }

  /** Suspended for another reason than the quota. */
  function OtherSuspended(x: Registration): set<string> {
    set c | c in x.suspended && !IsQuota(x.suspended[c])
  }

  function Positive(n: int): nat {
    if n < 0 then 0 else n
  }

  function ModelCount(s: State, id: string, now: Time): nat {
    if id !in s.models then 0
    else
      var x := s.models[id];
      Positive(x.count - |CoolingClients(x, now)| - |x.suspended.Keys|)
  }

  predicate Enough(count: int, expired: nat, cooldown: nat, other: nat) {
    || Positive(count - expired - other) > 0
    || (count > 0 && (expired > 0 || cooldown > 0) && other == 0)
  }

  /** Whether GetAvailableModels lists a registration. */
  predicate Offered(x: Registration, now: Time) {
    Enough(x.count, |CoolingClients(x, now)|, |QuotaSuspended(x)|, |OtherSuspended(x)|)
  }

  // ---------------------------------------------------------------------------------------
  // What is true of the clients
  // ---------------------------------------------------------------------------------------

  function Listers(s: State, id: string): set<string> {
    set c | c in s.clientModels && id in s.clientModels[c]
  }

  /** The clients of a model that are neither cooling down nor suspended. */
  function Ready(s: State, id: string, now: Time): set<string>
    requires id in s.models
  {
    Listers(s, id) - CoolingClients(s.models[id], now) - s.models[id].suspended.Keys
  }

  ghost predicate ListedOnce(s: State, id: string) {
    forall c :: c in s.clientModels ==> Mult(s.clientModels[c], id) <= 1
  }

  lemma CountIsListers(s: State, id: string)
    requires Indexed(s) && id in s.models && ListedOnce(s, id)
    ensures s.models[id].count == |Listers(s, id)|
  {
    assert SlotExact(s, id, Look(s.models, id));
    SumCounts(ListWeights(s, id), Listers(s, id));
  }

  /** A positive count is never an overstatement: some client of the model really is ready. */
  lemma CountNeverOverstates(s: State, id: string, now: Time)
    requires Indexed(s) && ListedOnce(s, id)
    requires ModelCount(s, id, now) > 0
    ensures id in s.models && ModelCount(s, id, now) <= |Ready(s, id, now)|
    ensures exists c :: c in Ready(s, id, now)
  {
    var x := s.models[id];
    var cooling, suspended, listers := CoolingClients(x, now), x.suspended.Keys, Listers(s, id);
    CountIsListers(s, id);
    assert listers <= Ready(s, id, now) + (cooling + suspended);
    SubsetSize(listers, Ready(s, id, now) + (cooling + suspended));
    UnionSize(Ready(s, id, now), cooling + suspended);
    UnionSize(cooling, suspended);
    var c :| c in Ready(s, id, now);
  }

  lemma SplitSize(listers: set<string>, cooling: set<string>, suspended: set<string>)
    requires cooling <= listers && suspended <= listers
    ensures Positive(|listers| - |cooling| - |suspended|) == |listers - cooling - suspended|
       <==> cooling * suspended == {} || listers - cooling - suspended == {}
  {
    var ready, marked := listers - cooling - suspended, cooling + suspended;
    assert listers == ready + marked && ready * marked == {};
    UnionSize(ready, marked);
    UnionSize(cooling, suspended);
    if cooling * suspended != {} {
      assert |cooling * suspended| > 0;
    }
  }

  /** With marks on listed pairs only, the count is exact unless a client is both cooling down and
      suspended while another is ready. */
  lemma CountExactIff(s: State, id: string, now: Time)
    requires Indexed(s) && ListedOnce(s, id) && MarksListed(s) && id in s.models
    ensures ModelCount(s, id, now) == |Ready(s, id, now)|
       <==> CoolingClients(s.models[id], now) * s.models[id].suspended.Keys == {} || Ready(s, id, now) == {}
  {
    var x := s.models[id];
    CountIsListers(s, id);
    forall c | c in x.quota || c in x.suspended
      ensures c in Listers(s, id)
    {
    }
    SplitSize(Listers(s, id), CoolingClients(x, now), x.suspended.Keys);
  }

  /** A quota failure marks the client twice, so one exhausted client hides a healthy second one. */
  lemma QuotaFailureHidesHealthyClient(s: State, id: string, limited: string, healthy: string, now: Time)
    requires Indexed(s) && ListedOnce(s, id) && Listers(s, id) == {limited, healthy} && limited != healthy &&
             limited != "" && id != ""
    requires id in s.models && s.models[id].quota == map[] && s.models[id].suspended == map[]
    ensures var s' := SuspendClientModel(SetModelQuotaExceeded(s, limited, id, now), limited, id, "quota", now);
      ModelCount(s', id, now) == 0 && healthy in Ready(s', id, now) && Offered(s'.models[id], now)
  {
    var s' := SuspendClientModel(SetModelQuotaExceeded(s, limited, id, now), limited, id, "quota", now);
    CountIsListers(s, id);
    var x := s'.models[id];
    assert CoolingClients(x, now) == {limited};
    assert x.suspended.Keys == {limited};
    assert OtherSuspended(x) == {};
  }

  /** A count above the number of listing clients means that one of them lists the model twice. */
  lemma CountAboveListers(s: State, id: string)
    requires Indexed(s) && id in s.models
    ensures s.models[id].count >= |Listers(s, id)|
    ensures s.models[id].count > |Listers(s, id)| <==> !ListedOnce(s, id)
  {
    var w := ListWeights(s, id);
    var ones := map c | c in s.clientModels :: if c in Listers(s, id) then 1 else 0;
    assert SlotExact(s, id, Look(s.models, id));
    SumCounts(ones, Listers(s, id));
    SumCompare(ones, w);
    if ones == w {
      forall c | c in s.clientModels
        ensures Mult(s.clientModels[c], id) <= 1
      {
        assert ones[c] == w[c];
      }
    } else if ListedOnce(s, id) {
      CountIsListers(s, id);
      assert false;
    }
  }

  /** The registry with other marks on one model. */
  function Marked(s: State, id: string, quota: map<string, Time>, suspended: map<string, string>): State
    requires id in s.models
  {
    s.(models := s.models[id := s.models[id].(quota := quota, suspended := suspended)])
  }

  ghost predicate Trusted(s: State, id: string, now: Time, quota: map<string, Time>, suspended: map<string, string>)
    requires id in s.models
  {
    ModelCount(Marked(s, id, quota, suspended), id, now) > 0 ==> Ready(Marked(s, id, quota, suspended), id, now) != {}
  }

  lemma TrustedWhenListedOnce(s: State, id: string, now: Time, quota: map<string, Time>, suspended: map<string, string>)
    requires Indexed(s) && id in s.models && ListedOnce(s, id)
    ensures Trusted(s, id, now, quota, suspended)
  {
    hide Indexed;
    var t := Marked(s, id, quota, suspended);
    MarksKeepIndex(s, t);
    if ModelCount(t, id, now) > 0 {
      CountNeverOverstates(t, id, now);
    }
  }

  lemma AllMarkedUntrusted(s: State, id: string, now: Time, all: map<string, string>)
    requires Indexed(s) && id in s.models && !ListedOnce(s, id) && all.Keys == Listers(s, id)
    ensures !Trusted(s, id, now, map[], all)
  {
    CountAboveListers(s, id);
    assert CoolingClients(Marked(s, id, map[], all).models[id], now) == {};
  }

  /** Whatever the marks are, a positive count means that a client is ready, exactly when no client lists the
      model twice. */
  lemma CountTrustedIff(s: State, id: string, now: Time)
    requires Indexed(s) && id in s.models
    ensures ListedOnce(s, id) <==> forall quota, suspended :: Trusted(s, id, now, quota, suspended)
  {
    hide Indexed, Trusted;
    if ListedOnce(s, id) {
      forall quota, suspended
        ensures Trusted(s, id, now, quota, suspended)
      {
        TrustedWhenListedOnce(s, id, now, quota, suspended);
      }
    } else {
      AllMarkedUntrusted(s, id, now, map c | c in Listers(s, id) :: "unauthorized");
    }
  }

  /** Suspends some clients of a model one after the other. */
  function SuspendEach(s: State, clients: seq<string>, id: string, reason: string, now: Time): State {
    if clients == [] then s
    else SuspendClientModel(SuspendEach(s, clients[..|clients| - 1], id, reason, now), clients[|clients| - 1], id,
                            reason, now)
  }

  lemma SuspendedOne(s: State, client: string, id: string, reason: string, now: Time)
    requires id != "" && id in s.models && client != ""
    ensures var t := SuspendClientModel(s, client, id, reason, now);
      && t == s.(models := t.models) && id in t.models
      && t.models[id].suspended.Keys == s.models[id].suspended.Keys + {client}
      && t.models[id].count == s.models[id].count && t.models[id].quota == s.models[id].quota
  {
  }

  lemma {:induction false} SuspendedEach(s: State, clients: seq<string>, id: string, reason: string, now: Time)
    requires id != "" && id in s.models && "" !in clients
    ensures var t := SuspendEach(s, clients, id, reason, now);
      && t == s.(models := t.models) && id in t.models
      && t.models[id].suspended.Keys == s.models[id].suspended.Keys + ElementSet(clients)
      && t.models[id].count == s.models[id].count && t.models[id].quota == s.models[id].quota
  {
    if clients != [] {
      var n := |clients| - 1;
      hide SuspendClientModel;
      SuspendedEach(s, clients[..n], id, reason, now);
      SuspendedOne(SuspendEach(s, clients[..n], id, reason, now), clients[n], id, reason, now);
      assert clients == clients[..n] + [clients[n]];
      assert ElementSet(clients) == ElementSet(clients[..n]) + {clients[n]};
    }
  }

  /** With every client of a model suspended, and none of them ready, the count is still positive exactly
      when some client lists the model twice. */
  lemma AllSuspendedCountsIff(s: State, clients: seq<string>, id: string, reason: string, at: Time, now: Time)
    requires Indexed(s) && id != "" && id in s.models && s.models[id].quota == map[] && s.models[id].suspended == map[]
    requires ElementSet(clients) == Listers(s, id) && "" !in clients
    ensures var t := SuspendEach(s, clients, id, reason, at);
      && id in t.models && Ready(t, id, now) == {}
      && (ModelCount(t, id, now) > 0 <==> !ListedOnce(s, id))
  {
    var t := SuspendEach(s, clients, id, reason, at);
    SuspendedEach(s, clients, id, reason, at);
    CountAboveListers(s, id);
    assert Listers(t, id) == Listers(s, id);
    assert CoolingClients(t.models[id], now) == {};
  }

  /** A counted model is also listed. */
  lemma CountedIsOffered(s: State, id: string, now: Time)
    requires ModelCount(s, id, now) > 0
    ensures id in s.models && Offered(s.models[id], now)
  {
    SubsetSize(OtherSuspended(s.models[id]), s.models[id].suspended.Keys);
  }

  // ---------------------------------------------------------------------------------------
  // The recount per provider
  // ---------------------------------------------------------------------------------------

  /** The entries of a list that f sends to an id. */
  function CountVia(ids: seq<string>, id: string, f: string -> string): nat {
    if ids == [] then 0
    else CountVia(ids[..|ids| - 1], id, f) + if f(ids[|ids| - 1]) == id then 1 else 0
  }

  function ClientsOf(s: State, provider: string): set<string> {
    set c | c in s.clientProviders && s.clientProviders[c] == provider
  }

  ghost function WeightsVia(s: State, clients: set<string>, id: string, f: string -> string): map<string, int> {
    map c | c in clients :: CountVia(ListedBy(s, c), id, f)
  }

  ghost function RecountVia(s: State, id: string, provider: string, f: string -> string): int {
    Sum(WeightsVia(s, ClientsOf(s, provider), id, f))
  }

  /** No entry of the list becomes the id without being it. */
  ghost predicate OnlyExact(ids: seq<string>, id: string, f: string -> string) {
    forall x :: x in ids && f(x) == id ==> x == id
  }

  ghost predicate ListedExactly(s: State, id: string, provider: string, f: string -> string) {
    forall c :: c in ClientsOf(s, provider) ==> OnlyExact(ListedBy(s, c), id, f)
  }

  function Trim(s: string): string {
    Text.TrimSpace(s)
  }

  /** The count GetAvailableModelsByProvider builds for an id. */
  ghost function TrimmedRecount(s: State, id: string, provider: string): int {
    RecountVia(s, id, provider, Trim)
  }

  /** No client of the provider lists an untrimmed variant of the id. */
  ghost predicate ListedTrimmed(s: State, id: string, provider: string) {
    ListedExactly(s, id, provider, Trim)
  }

  lemma {:induction false} CountViaBound(ids: seq<string>, id: string, f: string -> string)
    requires f(id) == id
    ensures CountVia(ids, id, f) >= Mult(ids, id)
    ensures CountVia(ids, id, f) == Mult(ids, id) <==> OnlyExact(ids, id, f)
  {
    if ids != [] {
      var n := |ids| - 1;
      assert ids == ids[..n] + [ids[n]];
      CountViaBound(ids[..n], id, f);
      assert forall x :: x in ids <==> x in ids[..n] || x == ids[n];
    }
  }

  function Restrict(w: map<string, int>, clients: set<string>): map<string, int> {
    map c | c in w && c in clients :: w[c]
  }

  /** Weights of zero outside a set of clients may be left out of the sum. */
  lemma {:induction false} RestrictedSum(w: map<string, int>, clients: set<string>)
    requires forall c :: c in w && c !in clients ==> w[c] == 0
    ensures Sum(Restrict(w, clients)) == Sum(w)
    decreases |w|
  {
    if c :| c in w && c !in clients {
      SumRemove(w, c);
      RestrictedSum(w - {c}, clients);
      assert Restrict(w - {c}, clients) == Restrict(w, clients);
    } else {
      assert Restrict(w, clients) == w;
    }
  }

  lemma {:induction false} SumCompare(a: map<string, int>, b: map<string, int>)
    requires a.Keys == b.Keys
    requires forall c :: c in a ==> a[c] <= b[c]
    ensures Sum(a) <= Sum(b)
    ensures Sum(a) == Sum(b) <==> a == b
    decreases |a|
  {
    if a == map[] {
      assert b == map[];
    } else {
      var c :| c in a;
      SumRemove(a, c);
      SumRemove(b, c);
      SumCompare(a - {c}, b - {c});
      if a - {c} == b - {c} && a[c] == b[c] {
        assert a == (a - {c})[c := a[c]] && b == (b - {c})[c := b[c]];
      }
    }
  }

  lemma SumCompareOn(a: map<string, int>, b: map<string, int>, same: set<string>)
    requires a.Keys == b.Keys
    requires forall c :: c in a ==> a[c] <= b[c] && (a[c] == b[c] <==> c in same)
    ensures Sum(a) <= Sum(b)
    ensures Sum(a) == Sum(b) <==> forall c :: c in a ==> c in same
  {
    SumCompare(a, b);
    assert a == b <==> forall c :: c in a ==> a[c] == b[c];
  }

  lemma WeightsCompare(s: State, id: string, provider: string, f: string -> string)
    requires s.clientProviders.Keys <= s.clientModels.Keys && provider != "" && f(id) == id
    ensures var a := Restrict(ProviderWeights(s, id, provider), ClientsOf(s, provider));
      var b := WeightsVia(s, ClientsOf(s, provider), id, f);
      && a.Keys == b.Keys == ClientsOf(s, provider)
      && forall c :: c in a ==> a[c] <= b[c] && (a[c] == b[c] <==> OnlyExact(ListedBy(s, c), id, f))
  {
    forall c | c in ClientsOf(s, provider)
      ensures c in s.clientModels
      ensures CountVia(ListedBy(s, c), id, f) >= Mult(ListedBy(s, c), id)
      ensures CountVia(ListedBy(s, c), id, f) == Mult(ListedBy(s, c), id) <==> OnlyExact(ListedBy(s, c), id, f)
    {
      CountViaBound(ListedBy(s, c), id, f);
    }
  }

  lemma RecountViaMatches(s: State, id: string, provider: string, f: string -> string)
    requires s.clientProviders.Keys <= s.clientModels.Keys && provider != "" && f(id) == id
    ensures RecountVia(s, id, provider, f) >= ProviderRecount(s, id, provider)
    ensures RecountVia(s, id, provider, f) == ProviderRecount(s, id, provider) <==> ListedExactly(s, id, provider, f)
  {
    var clients := ClientsOf(s, provider);
    WeightsCompare(s, id, provider, f);
    SumCompareOn(Restrict(ProviderWeights(s, id, provider), clients), WeightsVia(s, clients, id, f),
                 set c | c in clients && OnlyExact(ListedBy(s, c), id, f));
    RestrictedSum(ProviderWeights(s, id, provider), clients);
  }

  /** For a trimmed id the recount over the provider's clients is never below the maintained index,
      and equals it exactly when no client of the provider lists an untrimmed variant. */
  lemma RecountMatchesIndex(s: State, id: string, provider: string)
    requires Indexed(s) && provider != "" && Trim(id) == id
    ensures TrimmedRecount(s, id, provider) >= ProviderRecount(s, id, provider)
    ensures TrimmedRecount(s, id, provider) == ProviderRecount(s, id, provider) <==> ListedTrimmed(s, id, provider)
  {
    RecountViaMatches(s, id, provider, Trim);
  }
}
