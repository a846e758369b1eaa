/** The listing of models by provider, which recounts the lists of the provider's clients. */
module RegistryListing {
  import opened Collections
  import opened RegistryModel
  import opened RegistryIndex
  import opened RegistryAvailability
  import opened RegistryEffects
  import opened ModelRegistryClass
  import Text

  // ---------------------------------------------------------------------------------------
  // The recount
  // ---------------------------------------------------------------------------------------

  /** What the walk over the clients has found of an id: its units, and the first info met. */
  datatype Found = Found(count: nat, info: Option<ModelInfo>)

  /** What a client that lists an id n times adds: its units and, if there is none yet, its own info or the
      stored one. */
  function Visit(e: Option<Found>, n: nat, own: Option<ModelInfo>, stored: Option<ModelInfo>): Option<Found> {
    if n == 0 then e
    else
      var b := if e.Some? then e.value else Found(0, None);
      Some(Found(b.count + n, if b.info.Some? then b.info else if own.Some? then own else stored))
  }

  lemma VisitMore(e: Option<Found>, n: nat, own: Option<ModelInfo>, stored: Option<ModelInfo>)
    ensures Visit(Visit(e, n, own, stored), 1, own, stored) == Visit(e, n + 1, own, stored)
  {
  }

  function OwnInfo(s: State, client: string, id: string): Option<ModelInfo> {
    if client in s.clientInfos then Look(s.clientInfos[client], id) else None
  }

  function StoredInfo(s: State, id: string): Option<ModelInfo> {
    if id in s.models then Some(s.models[id].info) else None
  }

  ghost predicate Lists(s: State, client: string, id: string, f: string -> string) {
    CountVia(ListedBy(s, client), id, f) > 0
  }

  ghost predicate OwnAmong(s: State, clients: set<string>, id: string, f: string -> string, own: Option<ModelInfo>) {
    exists c :: c in clients && Lists(s, c, id, f) && OwnInfo(s, c, id) == own
  }

  /** The info of one of the clients that list the id, or the stored one for a client that has none of its own. */
  ghost predicate InfoAmong(s: State, clients: set<string>, id: string, f: string -> string, info: Option<ModelInfo>) {
    if info.Some? then
      OwnAmong(s, clients, id, f, info) || (info == StoredInfo(s, id) && OwnAmong(s, clients, id, f, None))
    else
      StoredInfo(s, id) == None && forall c :: c in clients && Lists(s, c, id, f) ==> OwnInfo(s, c, id) == None
  }

  ghost predicate FoundAmong(s: State, clients: set<string>, id: string, f: string -> string, e: Option<Found>) {
    var n := Sum(WeightsVia(s, clients, id, f));
    (if e.Some? then e.value.count else 0) == n && (e.Some? ==> n > 0 && InfoAmong(s, clients, id, f, e.value.info))
  }

  lemma WeightsOneMore(s: State, done: set<string>, c: string, id: string, f: string -> string)
    requires c !in done
    ensures Sum(WeightsVia(s, done + {c}, id, f)) == Sum(WeightsVia(s, done, id, f)) + CountVia(ListedBy(s, c), id, f)
  {
    assert WeightsVia(s, done + {c}, id, f) == WeightsVia(s, done, id, f)[c := CountVia(ListedBy(s, c), id, f)];
    SumPut(WeightsVia(s, done, id, f), c, CountVia(ListedBy(s, c), id, f));
  }

  lemma OwnAmongMore(s: State, clients: set<string>, c: string, id: string, f: string -> string, own: Option<ModelInfo>)
    ensures OwnAmong(s, clients + {c}, id, f, own) <==>
            OwnAmong(s, clients, id, f, own) || (Lists(s, c, id, f) && OwnInfo(s, c, id) == own)
  {
    if OwnAmong(s, clients, id, f, own) {
      var d :| d in clients && Lists(s, d, id, f) && OwnInfo(s, d, id) == own;
      assert d in clients + {c};
    }
    if Lists(s, c, id, f) && OwnInfo(s, c, id) == own {
      assert c in clients + {c};
    }
  }

  lemma NotListed(s: State, clients: set<string>, id: string, f: string -> string)
    requires Sum(WeightsVia(s, clients, id, f)) == 0
    ensures forall c :: c in clients ==> !Lists(s, c, id, f)
  {
    var w := WeightsVia(s, clients, id, f);
    SumNonNegative(w);
    forall c | c in clients
      ensures !Lists(s, c, id, f)
    {
      assert w[c] == CountVia(ListedBy(s, c), id, f);
    }
  }

  /** Visiting one more client. */
  lemma FoundMore(s: State, done: set<string>, c: string, id: string, f: string -> string, e: Option<Found>)
    requires c !in done && FoundAmong(s, done, id, f, e)
    ensures FoundAmong(s, done + {c}, id, f,
              Visit(e, CountVia(ListedBy(s, c), id, f), OwnInfo(s, c, id), StoredInfo(s, id)))
  {
    WeightsOneMore(s, done, c, id, f);
    if e.None? {
      NotListed(s, done, id, f);
    } else {
      OwnAmongMore(s, done, c, id, f, e.value.info);
    }
    OwnAmongMore(s, done, c, id, f, OwnInfo(s, c, id));
    OwnAmongMore(s, done, c, id, f, None);
  }

  // ---------------------------------------------------------------------------------------
  // The walk
  // ---------------------------------------------------------------------------------------

  /** What the entries of one list, under their normalized ids, add to what was found; blank ids are skipped. */
  ghost predicate Visited(s: State, before: map<string, Found>, after: map<string, Found>, c: string,
                          ids: seq<string>, f: string -> string) {
    forall id :: id != "" ==>
      Look(after, id) == Visit(Look(before, id), CountVia(ids, id, f), OwnInfo(s, c, id), StoredInfo(s, id))
  }

  lemma VisitedMore(s: State, before: map<string, Found>, now: map<string, Found>, after: map<string, Found>, c: string,
                    ids: seq<string>, i: nat, f: string -> string)
    requires i < |ids| && Visited(s, before, now, c, ids[..i], f)
    requires f(ids[i]) == "" ==> after == now
    requires f(ids[i]) != "" ==>
               var id := f(ids[i]);
               var e := Visit(Look(now, id), 1, OwnInfo(s, c, id), StoredInfo(s, id));
               after == now[id := e.value]
    ensures Visited(s, before, after, c, ids[..i + 1], f)
  {
    assert ids[..i + 1][..i] == ids[..i];
    forall id | id != ""
      ensures Look(after, id) == Visit(Look(before, id), CountVia(ids[..i + 1], id, f), OwnInfo(s, c, id),
                                       StoredInfo(s, id))
    {
      assert CountVia(ids[..i + 1], id, f) == CountVia(ids[..i], id, f) + if f(ids[i]) == id then 1 else 0;
      VisitMore(Look(before, id), CountVia(ids[..i], id, f), OwnInfo(s, c, id), StoredInfo(s, id));
    }
  }

  method VisitClient(r: ModelRegistry, entries: map<string, Found>, c: string, ids: seq<string>, f: string -> string)
    returns (entries': map<string, Found>)
    requires r.Separate() && "" !in entries
    ensures "" !in entries' && Visited(r.View(), entries, entries', c, ids, f)
  {
    ghost var s := r.View();
    entries' := entries;
    for i := 0 to |ids|
      invariant "" !in entries' && Visited(s, entries, entries', c, ids[..i], f)
    {
      var id := f(ids[i]);
      ghost var now := entries';
      if id != "" {
        var entry := if id in entries' then entries'[id] else Found(0, None);
        entry := entry.(count := entry.count + 1);
        if entry.info.None? {
          if c in r.clientInfos && id in r.clientInfos[c] {
            entry := entry.(info := Some(r.clientInfos[c][id]));
          }
          if entry.info.None? && id in r.models {
            assert s.models[id] == r.models[id].Value();
            entry := entry.(info := Some(r.models[id].info));
          }
        }
        entries' := entries'[id := entry];
      }
      VisitedMore(s, entries, now, entries', c, ids, i, f);
    }
    assert ids[..|ids|] == ids;
  }

  ghost predicate AllFound(s: State, entries: map<string, Found>, clients: set<string>, f: string -> string) {
    "" !in entries && forall id :: id != "" ==> FoundAmong(s, clients, id, f, Look(entries, id))
  }

  lemma AllFoundMore(s: State, before: map<string, Found>, after: map<string, Found>, done: set<string>, c: string,
                     f: string -> string)
    requires AllFound(s, before, done, f) && c !in done && "" !in after
    requires Visited(s, before, after, c, ListedBy(s, c), f)
    ensures AllFound(s, after, done + {c}, f)
  {
    forall id | id != ""
      ensures FoundAmong(s, done + {c}, id, f, Look(after, id))
    {
      FoundMore(s, done, c, id, f, Look(before, id));
    }
  }

  lemma NothingFound(s: State, f: string -> string)
    ensures AllFound(s, map[], {}, f)
  {
    forall id | id != ""
      ensures FoundAmong(s, {}, id, f, None)
    {
      assert WeightsVia(s, {}, id, f) == map[];
    }
  }

  method VisitClients(r: ModelRegistry, provider: string, f: string -> string) returns (entries: map<string, Found>)
    requires r.Separate()
    ensures AllFound(r.View(), entries, ClientsOf(r.View(), provider), f)
  {
    ghost var s := r.View();
    ghost var done: set<string> := {};
    hide FoundAmong;
    entries := map[];
    var todo := r.clientProviders.Keys;
    NothingFound(s, f);
    while todo != {}
      invariant todo <= s.clientProviders.Keys
      invariant done == set c | c in s.clientProviders && c !in todo && s.clientProviders[c] == provider
      invariant AllFound(s, entries, done, f)
      decreases todo
    {
      var c :| c in todo;
      if r.clientProviders[c] == provider {
        ghost var before := entries;
        entries := VisitClient(r, entries, c, if c in r.clientModels then r.clientModels[c] else [], f);
        AllFoundMore(s, before, entries, done, c, f);
        done := done + {c};
      }
      todo := todo - {c};
    }
    assert done == ClientsOf(s, provider);
  }

  // ---------------------------------------------------------------------------------------
  // Which of them are offered
  // ---------------------------------------------------------------------------------------

  /** The clients of a provider among some others. */
  function OfProvider(s: State, clients: set<string>, provider: string): set<string> {
    set c | c in clients && c != "" && c in s.clientProviders && s.clientProviders[c] == provider
  }

  /** Whether the listing by provider offers an id that its clients list n times. */
  predicate OfferedWith(s: State, id: string, provider: string, n: nat, now: Time) {
    if id in s.models then
      var x := s.models[id];
      Enough(n, |OfProvider(s, CoolingClients(x, now), provider)|, |OfProvider(s, QuotaSuspended(x), provider)|,
             |OfProvider(s, OtherSuspended(x), provider)|)
    else Enough(n, 0, 0, 0)
  }

  /** Counts the clients of a provider whose mark satisfies a test. */
  method CountMarked<V>(r: ModelRegistry, marks: map<string, V>, provider: string, test: V -> bool,
                        ghost marked: set<string>)
    returns (n: nat)
    requires r.Separate() && marked <= marks.Keys && forall c :: c in marks ==> (c in marked <==> test(marks[c]))
    ensures n == |OfProvider(r.View(), marked, provider)|
  {
    n := 0;
    ghost var s := r.View();
    ghost var counted: set<string> := {};
    var todo := marks.Keys;
    while todo != {}
      invariant todo <= marks.Keys
      invariant counted == OfProvider(s, marked - todo, provider)
      invariant n == |counted|
      decreases todo
    {
      var c :| c in todo;
      if c != "" && c in r.clientProviders && r.clientProviders[c] == provider {
        if test(marks[c]) {
          n := n + 1;
          counted := counted + {c};
        }
      }
      todo := todo - {c};
    }
    assert marked - todo == marked;
  }

  method CountMarks(r: ModelRegistry, id: string, provider: string, now: Time)
    returns (expired: nat, cooldown: nat, other: nat)
    requires r.Separate() && id in r.models
    ensures id in r.View().models
    ensures var s, x := r.View(), r.View().models[id];
      && expired == |OfProvider(s, CoolingClients(x, now), provider)|
      && cooldown == |OfProvider(s, QuotaSuspended(x), provider)|
      && other == |OfProvider(s, OtherSuspended(x), provider)|
  {
    hide OfProvider;
    var registration := r.models[id];
    ghost var x := registration.Value();
    assert r.View().models[id] == x;
    expired := CountMarked(r, registration.quota, provider, t => Cooling(t, now), CoolingClients(x, now));
    cooldown := CountMarked(r, registration.suspended, provider, reason => IsQuota(reason), QuotaSuspended(x));
    other := CountMarked(r, registration.suspended, provider, reason => !IsQuota(reason), OtherSuspended(x));
  }

  method IsOfferedWith(r: ModelRegistry, id: string, provider: string, count: nat, now: Time) returns (b: bool)
    requires r.Separate()
    ensures b == OfferedWith(r.View(), id, provider, count, now)
  {
    var expired: nat, cooldown: nat, other: nat := 0, 0, 0;
    if id in r.models {
      expired, cooldown, other := CountMarks(r, id, provider, now);
    }
    b := Enough(count, expired, cooldown, other);
  }

  /** Whether the listing by provider contains an id: a stored model that is offered with the recounted units. */
  ghost predicate OfferedBy(s: State, id: string, provider: string, now: Time) {
    && id in s.models && TrimmedRecount(s, id, provider) > 0
    && OfferedWith(s, id, provider, TrimmedRecount(s, id, provider), now)
  }

  /** Every offered model among some ids once, in some order, with an info of a client that lists it or the
      stored one. */
  ghost predicate ListsByProvider(s: State, among: set<string>, ids: seq<string>, infos: seq<ModelInfo>,
                                  provider: string, now: Time) {
    && |infos| == |ids|
    && (forall i, j :: 0 <= i < j < |ids| ==> ids[i] != ids[j])
    && (forall id :: id in ids <==> id in among && OfferedBy(s, id, provider, now))
    && (forall i :: 0 <= i < |ids| ==> InfoAmong(s, ClientsOf(s, provider), ids[i], Trim, Some(infos[i])))
  }

  lemma OwnInfoStored(s: State, c: string, id: string)
    requires Indexed(s) && OwnInfo(s, c, id).Some?
    ensures id in s.models
  {
    assert id in s.clientModels[c];
    ListedIffRecounted(s, id);
    assert SlotExact(s, id, Look(s.models, id));
  }

  /** With an exact index, an info was found exactly for the stored models. */
  lemma InfoIffStored(s: State, provider: string, id: string, e: Found)
    requires Indexed(s) && id != "" && InfoAmong(s, ClientsOf(s, provider), id, Trim, e.info)
    ensures e.info.Some? <==> id in s.models
  {
    if OwnAmong(s, ClientsOf(s, provider), id, Trim, e.info) && e.info.Some? {
      var c :| c in ClientsOf(s, provider) && Lists(s, c, id, Trim) && OwnInfo(s, c, id) == e.info;
      OwnInfoStored(s, c, id);
    }
  }

  lemma ListsMore(s: State, among: set<string>, ids: seq<string>, infos: seq<ModelInfo>, provider: string, now: Time,
                  id: string, e: Found)
    requires Indexed(s) && id != "" && id !in among && ListsByProvider(s, among, ids, infos, provider, now)
    requires FoundAmong(s, ClientsOf(s, provider), id, Trim, Some(e))
    ensures var offered := OfferedWith(s, id, provider, e.count, now);
      && (OfferedBy(s, id, provider, now) <==> offered && e.info.Some?)
      && (offered && e.info.Some? ==>
          ListsByProvider(s, among + {id}, ids + [id], infos + [e.info.value], provider, now))
      && (!(offered && e.info.Some?) ==> ListsByProvider(s, among + {id}, ids, infos, provider, now))
  {
    hide Indexed, OfferedWith, FoundAmong, InfoAmong;
    ListsFound(s, provider, now, id, e);
  }

  lemma ListsFound(s: State, provider: string, now: Time, id: string, e: Found)
    requires Indexed(s) && id != "" && FoundAmong(s, ClientsOf(s, provider), id, Trim, Some(e))
    ensures InfoAmong(s, ClientsOf(s, provider), id, Trim, e.info)
    ensures OfferedBy(s, id, provider, now) <==> OfferedWith(s, id, provider, e.count, now) && e.info.Some?
  {
    InfoIffStored(s, provider, id, e);
  }

  // ---------------------------------------------------------------------------------------
  // The listing, in terms of the lists, infos and marks of the clients
  // ---------------------------------------------------------------------------------------

  /** The clients of the provider with a quota mark that is less than five minutes old. */
  function ExhaustedOf(s: State, x: Registration, provider: string, now: Time): set<string> {
    set c | c in ExhaustedClients(x, now) && c != "" && Look(s.clientProviders, c) == Some(provider)
  }

  /** The clients of the provider that are suspended for another reason than the quota. */
  function BlockedOf(s: State, x: Registration, provider: string): set<string> {
    set c | c in BlockedClients(x) && c != "" && Look(s.clientProviders, c) == Some(provider)
  }

  /** One of the provider's clients is suspended for another reason than the quota, and without these clients and the
      exhausted ones no unit is left. */
  ghost predicate HiddenFrom(s: State, id: string, provider: string, now: Time)
    requires id in s.models
  {
    var x := s.models[id];
    && BlockedOf(s, x, provider) != {}
    && TrimmedRecount(s, id, provider) <= |ExhaustedOf(s, x, provider, now)| + |BlockedOf(s, x, provider)|
  }

  /** The only way in which a stored model that clients of a provider list is hidden from the provider's listing. */
  lemma HiddenFromProviderIff(s: State, id: string, provider: string, now: Time)
    requires id in s.models && TrimmedRecount(s, id, provider) > 0
    ensures !OfferedBy(s, id, provider, now) <==> HiddenFrom(s, id, provider, now)
  {
    var x := s.models[id];
    SameMarkSets(x, now);
    assert OfProvider(s, CoolingClients(x, now), provider) == ExhaustedOf(s, x, provider, now);
    assert OfProvider(s, OtherSuspended(x), provider) == BlockedOf(s, x, provider);
  }

  /** The places of a list that hold an id, in any spelling with spaces around it. */
  function Places(ids: seq<string>, id: string): set<nat> {
    set j: nat | j < |ids| && Text.TrimSpace(ids[j]) == id :: j
  }

  function Spellings(s: State, client: string, id: string): set<nat> {
    if client in s.clientModels then Places(s.clientModels[client], id) else {}
  }

  lemma PlacesMore(ids: seq<string>, id: string)
    requires ids != []
    ensures var n := |ids| - 1;
      |Places(ids, id)| == |Places(ids[..n], id)| + if Text.TrimSpace(ids[n]) == id then 1 else 0
  {
    hide Text.TrimSpace;
    var n := |ids| - 1;
    var before := Places(ids[..n], id);
    assert n !in before;
    assert Places(ids, id) == if Text.TrimSpace(ids[n]) == id then before + {n} else before;
  }

  lemma {:induction false} CountIs(ids: seq<string>, id: string)
    ensures CountVia(ids, id, Trim) == |Places(ids, id)|
  {
    if ids == [] {
      assert Places(ids, id) == {};
    } else {
      hide Places;
      CountIs(ids[..|ids| - 1], id);
      PlacesMore(ids, id);
    }
  }

  /** The units counted for a provider are all the places at which its clients list the id. */
  lemma RecountIs(s: State, id: string, provider: string)
    ensures TrimmedRecount(s, id, provider) ==
            Sum(map c | c in s.clientProviders && s.clientProviders[c] == provider :: |Spellings(s, c, id)|)
  {
    forall c | c in ClientsOf(s, provider)
      ensures CountVia(ListedBy(s, c), id, Trim) == |Spellings(s, c, id)|
    {
      CountIs(ListedBy(s, c), id);
    }
    assert WeightsVia(s, ClientsOf(s, provider), id, Trim) ==
           map c | c in s.clientProviders && s.clientProviders[c] == provider :: |Spellings(s, c, id)|;
  }

  /** A client of the provider lists the id. */
  ghost predicate ListerOf(s: State, c: string, id: string, provider: string) {
    Look(s.clientProviders, c) == Some(provider) && Spellings(s, c, id) != {}
  }

  lemma ListsIff(s: State, c: string, id: string)
    ensures Lists(s, c, id, Trim) <==> Spellings(s, c, id) != {}
  {
    CountIs(ListedBy(s, c), id);
  }

  lemma SomeListerIff(s: State, id: string, provider: string)
    ensures TrimmedRecount(s, id, provider) > 0 <==> exists c :: ListerOf(s, c, id, provider)
  {
    var w := WeightsVia(s, ClientsOf(s, provider), id, Trim);
    SumPositive(w);
    forall c
      ensures ListerOf(s, c, id, provider) <==> c in w && w[c] > 0
    {
      ListsIff(s, c, id);
    }
  }

  /** An info that a client gave for the id, or the stored one if it gave none. */
  ghost predicate InfoOf(s: State, c: string, id: string, info: ModelInfo) {
    if c in s.clientInfos && id in s.clientInfos[c] then info == s.clientInfos[c][id]
    else id in s.models && info == s.models[id].info
  }

  ghost predicate InfoFrom(s: State, id: string, provider: string, info: ModelInfo) {
    exists c :: ListerOf(s, c, id, provider) && InfoOf(s, c, id, info)
  }

  lemma InfoIs(s: State, id: string, provider: string, info: ModelInfo)
    requires InfoAmong(s, ClientsOf(s, provider), id, Trim, Some(info))
    ensures InfoFrom(s, id, provider, info)
  {
    var own := if OwnAmong(s, ClientsOf(s, provider), id, Trim, Some(info)) then Some(info) else None;
    var c :| c in ClientsOf(s, provider) && Lists(s, c, id, Trim) && OwnInfo(s, c, id) == own;
    ListsIff(s, c, id);
    assert ListerOf(s, c, id, provider) && InfoOf(s, c, id, info);
  }

  /** The stored models that some client of the provider lists and that its marks do not hide, each once, with the info
      of a client that lists it. */
  ghost predicate ShownFor(s: State, ids: seq<string>, infos: seq<ModelInfo>, provider: string, now: Time) {
    && |infos| == |ids|
    && (forall i, j :: 0 <= i < j < |ids| ==> ids[i] != ids[j])
    && (forall id :: id in ids <==>
          id in s.models && (exists c :: ListerOf(s, c, id, provider)) && !HiddenFrom(s, id, provider, now))
    && (forall i :: 0 <= i < |ids| ==> InfoFrom(s, ids[i], provider, infos[i]))
  }

  lemma Shown(s: State, ids: seq<string>, infos: seq<ModelInfo>, provider: string, now: Time)
    requires ListsByProvider(s, s.models.Keys, ids, infos, provider, now)
    ensures ShownFor(s, ids, infos, provider, now)
  {
    hide OfferedBy, HiddenFrom, InfoAmong, InfoFrom;
    forall id
      ensures id in ids <==>
              id in s.models && (exists c :: ListerOf(s, c, id, provider)) && !HiddenFrom(s, id, provider, now)
    {
      SomeListerIff(s, id, provider);
      OfferedListed(s, id, provider, now);
      if id in s.models && TrimmedRecount(s, id, provider) > 0 {
        HiddenFromProviderIff(s, id, provider, now);
      }
    }
    forall i | 0 <= i < |ids|
      ensures InfoFrom(s, ids[i], provider, infos[i])
    {
      InfoIs(s, ids[i], provider, infos[i]);
    }
  }

  lemma OfferedListed(s: State, id: string, provider: string, now: Time)
    ensures OfferedBy(s, id, provider, now) ==> id in s.models && TrimmedRecount(s, id, provider) > 0
  {
  }

  /** The models of a provider that its clients list and that are offered, each once. */
  method GetAvailableModelsByProvider(r: ModelRegistry, rawProvider: string, now: Time)
    returns (infos: seq<ModelInfo>, ghost ids: seq<string>)
    requires r.Valid()
    ensures Text.TrimSpace(rawProvider) == "" ==> infos == []
    ensures Text.TrimSpace(rawProvider) != "" ==>
              ShownFor(r.View(), ids, infos, Text.ToLower(Text.TrimSpace(rawProvider)), now)
  {
    hide Indexed, ListsByProvider, ShownFor, AllFound;
    infos, ids := [], [];
    var provider := Text.ToLower(Text.TrimSpace(rawProvider));
    if provider == "" {
      return;
    }
    ghost var s := r.View();
    var entries := VisitClients(r, provider, Trim);
    infos, ids := ListEntries(r, entries, provider, now);
    AllStoredReached(s, entries, ids, infos, provider, now);
    Shown(s, ids, infos, provider, now);
  }

  method ListEntries(r: ModelRegistry, entries: map<string, Found>, provider: string, now: Time)
    returns (infos: seq<ModelInfo>, ghost ids: seq<string>)
    requires r.Valid() && AllFound(r.View(), entries, ClientsOf(r.View(), provider), Trim)
    ensures ListsByProvider(r.View(), entries.Keys, ids, infos, provider, now)
  {
    hide Indexed, OfferedBy, OfferedWith, InfoAmong;
    ghost var s := r.View();
    infos, ids := [], [];
    var todo := entries.Keys;
    while todo != {}
      invariant todo <= entries.Keys
      invariant ListsByProvider(s, entries.Keys - todo, ids, infos, provider, now)
      decreases todo
    {
      var id :| id in todo;
      assert FoundAmong(s, ClientsOf(s, provider), id, Trim, Look(entries, id));
      var offered := IsOfferedWith(r, id, provider, entries[id].count, now);
      ListsMore(s, entries.Keys - todo, ids, infos, provider, now, id, entries[id]);
      assert entries.Keys - todo + {id} == entries.Keys - (todo - {id});
      if offered && entries[id].info.Some? {
        infos, ids := infos + [entries[id].info.value], ids + [id];
      }
      todo := todo - {id};
    }
    assert entries.Keys - todo == entries.Keys;
  }

  lemma AllStoredReached(s: State, entries: map<string, Found>, ids: seq<string>, infos: seq<ModelInfo>,
                         provider: string, now: Time)
    requires Indexed(s) && AllFound(s, entries, ClientsOf(s, provider), Trim)
    requires ListsByProvider(s, entries.Keys, ids, infos, provider, now)
    ensures ListsByProvider(s, s.models.Keys, ids, infos, provider, now)
  {
    BlankUnlisted(s);
    forall id
      ensures id in entries && OfferedBy(s, id, provider, now) <==> id in s.models && OfferedBy(s, id, provider, now)
    {
      assert id != "" ==> FoundAmong(s, ClientsOf(s, provider), id, Trim, Look(entries, id));
    }
  }

  /** No stored model has a blank id. */
  lemma BlankUnlisted(s: State)
    requires Indexed(s)
    ensures "" !in s.models
  {
    assert SlotExact(s, "", Look(s.models, ""));
    ListedIffRecounted(s, "");
  }

  /** For a trimmed id the recount is the number of units that the registration books for the provider, exactly
      when no client of the provider lists an untrimmed variant; the recount is never smaller. */
  lemma RecountMeetsIndex(s: State, provider: string, id: string)
    requires Indexed(s) && id in s.models && provider != "" && Trim(id) == id
    ensures TrimmedRecount(s, id, provider) >= WeightAt(s.models[id].providers, provider)
    ensures TrimmedRecount(s, id, provider) == WeightAt(s.models[id].providers, provider) <==>
            ListedTrimmed(s, id, provider)
  {
    assert SlotExact(s, id, Look(s.models, id));
    ExactSlot(s, id, provider);
    RecountMatchesIndex(s, id, provider);
  }
}
