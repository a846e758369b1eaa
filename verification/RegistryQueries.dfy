/** The read-only queries of the registry, proved against the client-level meaning. */
module RegistryQueries {
  import opened Collections
  import opened RegistryModel
  import opened RegistryIndex
  import opened RegistryAvailability
  import opened ModelRegistryClass
  import Sorting
  import Text

  // ---------------------------------------------------------------------------------------
  // Counting clients
  // ---------------------------------------------------------------------------------------

  method CountCooling(quota: map<string, Time>, now: Time) returns (n: nat)
    ensures n == |set c | c in quota && Cooling(quota[c], now)|
  {
    n := 0;
    ghost var counted: set<string> := {};
    var todo := quota.Keys;
    while todo != {}
      invariant todo <= quota.Keys
      invariant counted == set c | c in quota && c !in todo && Cooling(quota[c], now)
      invariant n == |counted|
      decreases todo
    {
      var c :| c in todo;
      if now - quota[c] < QuotaExpired {
        n := n + 1;
        counted := counted + {c};
      }
      todo := todo - {c};
    }
    assert counted == set c | c in quota && Cooling(quota[c], now);
  }

  /** Counts the suspended clients whose reason satisfies a test. */
  method CountSuspended(suspended: map<string, string>, test: string -> bool) returns (n: nat)
    ensures n == |set c | c in suspended && test(suspended[c])|
  {
    n := 0;
    ghost var counted: set<string> := {};
    var todo := suspended.Keys;
    while todo != {}
      invariant todo <= suspended.Keys
      invariant counted == set c | c in suspended && c !in todo && test(suspended[c])
      invariant n == |counted|
      decreases todo
    {
      var c :| c in todo;
      if test(suspended[c]) {
        n := n + 1;
        counted := counted + {c};
      }
      todo := todo - {c};
    }
    assert counted == set c | c in suspended && test(suspended[c]);
  }

  method GetModelCount(r: ModelRegistry, id: string, now: Time) returns (n: nat)
    requires r.Valid()
    ensures n == ModelCount(r.View(), id, now)
    ensures n > 0 && ListedOnce(r.View(), id) ==> id in r.View().models && exists c :: c in Ready(r.View(), id, now)
  {
    n := CountReady(r, id, now);
    if n > 0 && ListedOnce(r.View(), id) {
      CountNeverOverstates(r.View(), id, now);
    }
  }

  method CountReady(r: ModelRegistry, id: string, now: Time) returns (n: nat)
    requires r.Separate()
    ensures n == ModelCount(r.View(), id, now)
  {
    if id !in r.models {
      return 0;
    }
    var registration := r.models[id];
    var expired := CountCooling(registration.quota, now);
    var result := registration.count - expired - |registration.suspended.Keys|;
    n := if result < 0 then 0 else result;
    assert r.View().models[id] == registration.Value();
  }

  // ---------------------------------------------------------------------------------------
  // Listing models
  // ---------------------------------------------------------------------------------------

  method IsOffered(registration: ModelRegistration, now: Time) returns (b: bool)
    ensures b == Offered(registration.Value(), now)
  {
    var expired := CountCooling(registration.quota, now);
    var isQuota := (reason: string) => IsQuota(reason);
    var notQuota := (reason: string) => !IsQuota(reason);
    var cooldown := CountSuspended(registration.suspended, isQuota);
    var other := CountSuspended(registration.suspended, notQuota);
    b := Enough(registration.count, expired, cooldown, other);
    ghost var x := registration.Value();
    assert QuotaSuspended(x) == set c | c in x.suspended && isQuota(x.suspended[c]);
    assert OtherSuspended(x) == set c | c in x.suspended && notQuota(x.suspended[c]);
  }

  /** The two keys of a listed model that GetFirstAvailableModel reads; the handler type decides
      whether they are present at all. */
  datatype Listed = Listed(id: Option<string>, created: Option<int>)

  function Format(info: ModelInfo, handlerType: string): Listed {
    if handlerType == "openai" then Listed(Some(info.id), if info.created > 0 then Some(info.created) else None)
    else if handlerType == "claude" then Listed(Some(info.id), None)
    else if handlerType == "gemini" then Listed(None, None)
    else Listed(Some(info.id), if info.created != 0 then Some(info.created) else None)
  }

  /** The keys of an entry by handler: a creation time is left out of Claude's and Gemini's formats, and elsewhere
      when it is missing; Gemini's format has no id. */
  lemma FormatTable(info: ModelInfo)
    ensures Format(info, "openai") == Listed(Some(info.id), if info.created > 0 then Some(info.created) else None)
    ensures Format(info, "claude") == Listed(Some(info.id), None)
    ensures Format(info, "gemini") == Listed(None, None)
    ensures forall handlerType :: handlerType !in {"openai", "claude", "gemini"} ==>
              Format(info, handlerType) == Listed(Some(info.id), if info.created != 0 then Some(info.created) else None)
  {
    assert "openai"[0] == 'o' && "claude"[0] == 'c' && "gemini"[0] == 'g';
  }

  ghost predicate IsOfferedIn(s: State, id: string, now: Time) {
    id in s.models && Offered(s.models[id], now)
  }

  /** Every offered model among some ids once, in some order, in the format of the handler. */
  ghost predicate ListsOffered(s: State, among: set<string>, ids: seq<string>, models: seq<Listed>, handlerType: string,
                               now: Time) {
    && |models| == |ids|
    && (forall i, j :: 0 <= i < j < |ids| ==> ids[i] != ids[j])
    && (forall id :: id in ids <==> id in among && IsOfferedIn(s, id, now))
    && (forall i :: 0 <= i < |ids| ==> ids[i] in s.models && models[i] == Format(s.models[ids[i]].info, handlerType))
  }

  lemma ListsOneMore(s: State, among: set<string>, ids: seq<string>, models: seq<Listed>, handlerType: string,
                     now: Time, id: string)
    requires ListsOffered(s, among, ids, models, handlerType, now) && id !in among && id in s.models
    ensures Offered(s.models[id], now) ==>
              ListsOffered(s, among + {id}, ids + [id], models + [Format(s.models[id].info, handlerType)], handlerType,
                           now)
    ensures !Offered(s.models[id], now) ==> ListsOffered(s, among + {id}, ids, models, handlerType, now)
  {
  }

  lemma DoneOneMore<T>(all: set<T>, todo: set<T>, x: T)
    requires todo <= all && x in todo
    ensures all - todo + {x} == all - (todo - {x})
  {
  }

  method ListModels(r: ModelRegistry, handlerType: string, now: Time)
    returns (models: seq<Listed>, ghost ids: seq<string>)
    requires r.Separate()
    ensures ListsOffered(r.View(), r.View().models.Keys, ids, models, handlerType, now)
  {
    models, ids := [], [];
    var todo := r.models.Keys;
    ghost var s := r.View();
    while todo != {}
      invariant todo <= s.models.Keys
      invariant ListsOffered(s, s.models.Keys - todo, ids, models, handlerType, now)
      decreases todo
    {
      var id :| id in todo;
      var registration := r.models[id];
      assert s.models[id] == registration.Value();
      ListsOneMore(s, s.models.Keys - todo, ids, models, handlerType, now, id);
      DoneOneMore(s.models.Keys, todo, id);
      var offered := IsOffered(registration, now);
      if offered {
        models, ids := models + [Format(registration.info, handlerType)], ids + [id];
      }
      todo := todo - {id};
    }
    assert s.models.Keys - todo == s.models.Keys;
  }

  // ---------------------------------------------------------------------------------------
  // Picking the first available model
  // ---------------------------------------------------------------------------------------

  /** Every offered model once, in some order, in the format of the handler. */
  ghost predicate ListsAllOffered(s: State, models: seq<Listed>, handlerType: string, now: Time) {
    exists ids :: ListsOffered(s, s.models.Keys, ids, models, handlerType, now)
  }

  method GetAvailableModels(r: ModelRegistry, handlerType: string, now: Time) returns (models: seq<Listed>)
    requires r.Valid()
    ensures ListsAllOffered(r.View(), models, handlerType, now)
  {
    ghost var ids;
    models, ids := ListModels(r, handlerType, now);
  }

  /** The comparison handed to the sort: only timestamps that are both present are compared. */
  predicate Newer(a: Listed, b: Listed) {
    a.created.Some? && b.created.Some? && a.created.value > b.created.value
  }

  ghost predicate AllDated(models: seq<Listed>) {
    forall i :: 0 <= i < |models| ==> models[i].created.Some?
  }

  lemma SortedNewestFirst(models: seq<Listed>)
    requires AllDated(models)
    ensures Sorting.Ordered(Newer, Sorting.Sort(models, Newer))
  {
    forall x | x in models
      ensures x.created.Some?
    {
    }
    Sorting.SortOrdered(models, Newer);
  }

  /** The stored infos carry the id they are stored under. */
  ghost predicate InfosNamed(s: State) {
    forall id :: id in s.models ==> s.models[id].info.id == id
  }

  lemma IndexedInfosNamed(s: State)
    requires Indexed(s)
    ensures InfosNamed(s)
  {
    forall id | id in s.models
      ensures s.models[id].info.id == id
    {
      assert SlotExact(s, id, Look(s.models, id));
    }
  }

  /** The entries of the offered models, in some order. */
  ghost predicate EntriesOffered(s: State, sorted: seq<Listed>, handlerType: string, now: Time) {
    && (forall id :: IsOfferedIn(s, id, now) ==> Format(s.models[id].info, handlerType) in sorted)
    && (forall j :: 0 <= j < |sorted| ==> EntryOffered(s, sorted[j], handlerType, now))
  }

  ghost predicate EntryOffered(s: State, entry: Listed, handlerType: string, now: Time) {
    exists id :: IsOfferedIn(s, id, now) && entry == Format(s.models[id].info, handlerType)
  }

  lemma PermutedEntries(s: State, ids: seq<string>, listed: seq<Listed>, sorted: seq<Listed>, handlerType: string,
                        now: Time)
    requires ListsOffered(s, s.models.Keys, ids, listed, handlerType, now)
    requires multiset(sorted) == multiset(listed)
    ensures EntriesOffered(s, sorted, handlerType, now)
  {
    Sorting.SameMembers(sorted, listed);
    forall id | IsOfferedIn(s, id, now)
      ensures Format(s.models[id].info, handlerType) in sorted
    {
      assert id in ids;
      var i :| 0 <= i < |ids| && ids[i] == id;
      assert listed[i] in listed;
    }
    forall j | 0 <= j < |sorted|
      ensures EntryOffered(s, sorted[j], handlerType, now)
    {
      assert sorted[j] in listed;
      var i :| 0 <= i < |listed| && listed[i] == sorted[j];
      assert ids[i] in ids;
      assert IsOfferedIn(s, ids[i], now);
    }
  }

  datatype Choice = Chosen(id: string) | NoneAvailable

  /** Every offered model carries a timestamp in the format of the handler. */
  ghost predicate Dated(s: State, handlerType: string, now: Time) {
    forall id :: IsOfferedIn(s, id, now) ==> Format(s.models[id].info, handlerType).created.Some?
  }

  ghost predicate CountedIn(s: State, id: string, now: Time) {
    ModelCount(s, id, now) > 0
  }

  /** The choice is a newest one among the models with a positive count. */
  ghost predicate Newest(s: State, chosen: string, now: Time) {
    chosen in s.models &&
    forall id :: CountedIn(s, id, now) ==> id in s.models && s.models[id].info.created <= s.models[chosen].info.created
  }

  /** The entries before a position name no model with a positive count. */
  ghost predicate UncountedBefore(s: State, sorted: seq<Listed>, i: nat, now: Time)
    requires i <= |sorted|
  {
    forall j :: 0 <= j < i && sorted[j].id.Some? ==> !CountedIn(s, sorted[j].id.value, now)
  }

  lemma CountedIsEntry(s: State, sorted: seq<Listed>, handlerType: string, now: Time, id: string) returns (j: nat)
    requires InfosNamed(s) && EntriesOffered(s, sorted, handlerType, now) && CountedIn(s, id, now)
    ensures IsOfferedIn(s, id, now)
    ensures j < |sorted| && sorted[j] == Format(s.models[id].info, handlerType)
    ensures handlerType != "gemini" ==> sorted[j].id == Some(id)
  {
    CountedIsOffered(s, id, now);
    j :| 0 <= j < |sorted| && sorted[j] == Format(s.models[id].info, handlerType);
  }

  lemma NothingCounted(s: State, sorted: seq<Listed>, handlerType: string, now: Time)
    requires InfosNamed(s) && EntriesOffered(s, sorted, handlerType, now) && handlerType != "gemini"
    requires UncountedBefore(s, sorted, |sorted|, now)
    ensures forall id :: !CountedIn(s, id, now)
  {
    forall id
      ensures !CountedIn(s, id, now)
    {
      if CountedIn(s, id, now) {
        var j := CountedIsEntry(s, sorted, handlerType, now, id);
      }
    }
  }

  lemma EntryAt(s: State, sorted: seq<Listed>, handlerType: string, now: Time, i: nat)
    requires InfosNamed(s) && EntriesOffered(s, sorted, handlerType, now) && i < |sorted|
    ensures sorted[i].id.Some? <==> handlerType != "gemini"
    ensures sorted[i].id.Some? ==>
              IsOfferedIn(s, sorted[i].id.value, now) &&
              sorted[i] == Format(s.models[sorted[i].id.value].info, handlerType)
  {
    assert EntryOffered(s, sorted[i], handlerType, now);
  }

  lemma FirstIsNewest(s: State, sorted: seq<Listed>, handlerType: string, now: Time, i: nat)
    requires InfosNamed(s) && EntriesOffered(s, sorted, handlerType, now) && Dated(s, handlerType, now)
    requires Sorting.Ordered(Newer, sorted)
    requires i < |sorted| && sorted[i].id.Some? && UncountedBefore(s, sorted, i, now)
    ensures Newest(s, sorted[i].id.value, now)
  {
    EntryAt(s, sorted, handlerType, now, i);
    forall id | CountedIn(s, id, now)
      ensures id in s.models && s.models[id].info.created <= s.models[sorted[i].id.value].info.created
    {
      var j := CountedIsEntry(s, sorted, handlerType, now, id);
      assert j >= i;
      assert !Newer(sorted[j], sorted[i]);
    }
  }

  lemma DatedEntries(s: State, ids: seq<string>, listed: seq<Listed>, handlerType: string, now: Time)
    requires ListsOffered(s, s.models.Keys, ids, listed, handlerType, now) && Dated(s, handlerType, now)
    ensures AllDated(listed)
  {
    forall k | 0 <= k < |listed|
      ensures listed[k].created.Some?
    {
      assert ids[k] in ids;
      assert IsOfferedIn(s, ids[k], now);
    }
  }

  /** The entries in the order in which they are tried. */
  method SortedModels(r: ModelRegistry, handlerType: string, now: Time) returns (models: seq<Listed>)
    requires r.Separate()
    ensures EntriesOffered(r.View(), models, handlerType, now)
    ensures Dated(r.View(), handlerType, now) ==> Sorting.Ordered(Newer, models)
  {
    var listed, ids := ListModels(r, handlerType, now);
    models := Sorting.Sort(listed, Newer);
    PermutedEntries(r.View(), ids, listed, models, handlerType, now);
    if Dated(r.View(), handlerType, now) {
      DatedEntries(r.View(), ids, listed, handlerType, now);
      SortedNewestFirst(listed);
    }
  }

  /** The position of the first entry that names a model with a positive count. */
  method FirstCounted(r: ModelRegistry, models: seq<Listed>, now: Time) returns (i: nat)
    requires r.Separate()
    ensures i <= |models| && UncountedBefore(r.View(), models, i, now)
    ensures i < |models| ==> models[i].id.Some? && CountedIn(r.View(), models[i].id.value, now)
  {
    i := 0;
    while i < |models|
      invariant i <= |models| && UncountedBefore(r.View(), models, i, now)
    {
      if models[i].id.Some? {
        var count := CountReady(r, models[i].id.value, now);
        if count > 0 {
          return;
        }
      }
      i := i + 1;
    }
  }

  /** Returns a listed id with a positive count if there is one; a handler whose format has no id
      never gets one. With all timestamps present the choice is a newest such model. */
  method GetFirstAvailableModel(r: ModelRegistry, handlerType: string, now: Time) returns (choice: Choice)
    requires r.Valid()
    ensures choice.Chosen? ==> IsOfferedIn(r.View(), choice.id, now) && CountedIn(r.View(), choice.id, now)
    ensures choice.NoneAvailable? <==> handlerType == "gemini" || forall id :: !CountedIn(r.View(), id, now)
    ensures choice.Chosen? && Dated(r.View(), handlerType, now) ==> Newest(r.View(), choice.id, now)
  {
    IndexedInfosNamed(r.View());
    choice := ChooseFirst(r, handlerType, now);
  }

  ghost predicate RightChoice(s: State, choice: Choice, handlerType: string, now: Time) {
    && (choice.Chosen? ==> IsOfferedIn(s, choice.id, now) && CountedIn(s, choice.id, now))
    && (choice.NoneAvailable? <==> handlerType == "gemini" || forall id :: !CountedIn(s, id, now))
    && (choice.Chosen? && Dated(s, handlerType, now) ==> Newest(s, choice.id, now))
  }

  lemma FoundIsRight(s: State, models: seq<Listed>, handlerType: string, now: Time, i: nat)
    requires InfosNamed(s) && EntriesOffered(s, models, handlerType, now)
    requires Dated(s, handlerType, now) ==> Sorting.Ordered(Newer, models)
    requires i < |models| && UncountedBefore(s, models, i, now)
    requires models[i].id.Some? && CountedIn(s, models[i].id.value, now)
    ensures RightChoice(s, Chosen(models[i].id.value), handlerType, now)
  {
    EntryAt(s, models, handlerType, now, i);
    if Dated(s, handlerType, now) {
      FirstIsNewest(s, models, handlerType, now, i);
    }
  }

  lemma NothingFound(s: State, models: seq<Listed>, handlerType: string, now: Time)
    requires InfosNamed(s) && EntriesOffered(s, models, handlerType, now) && UncountedBefore(s, models, |models|, now)
    ensures RightChoice(s, NoneAvailable, handlerType, now)
  {
    if handlerType != "gemini" {
      NothingCounted(s, models, handlerType, now);
    }
  }

  method ChooseFirst(r: ModelRegistry, handlerType: string, now: Time) returns (choice: Choice)
    requires r.Separate() && InfosNamed(r.View())
    ensures RightChoice(r.View(), choice, handlerType, now)
  {
    ghost var s := r.View();
    var models := SortedModels(r, handlerType, now);
    assert r.View() == s;
    var i := FirstCounted(r, models, now);
    assert r.View() == s;
    if i < |models| {
      FoundIsRight(s, models, handlerType, now, i);
      choice := Chosen(models[i].id.value);
    } else {
      NothingFound(s, models, handlerType, now);
      choice := NoneAvailable;
    }
  }

  // ---------------------------------------------------------------------------------------
  // Providers
  // ---------------------------------------------------------------------------------------

  datatype Ranked = Ranked(name: string, count: int)

  /** More units first, then by name. */
  predicate Ahead(a: Ranked, b: Ranked) {
    if a.count == b.count then Text.Less(a.name, b.name) else a.count > b.count
  }

  lemma AheadIsWeakOrder(s: seq<Ranked>)
    ensures Sorting.WeakOrder(Ahead, s)
  {
    forall a, b | a in s && b in s && Ahead(a, b)
      ensures !Ahead(b, a)
    {
      Text.LessTotal(a.name, b.name);
    }
    forall a, b, c | a in s && b in s && c in s && !Ahead(b, a) && !Ahead(c, b)
      ensures !Ahead(c, a)
    {
      Text.LessTotal(a.name, b.name);
      Text.LessTotal(b.name, c.name);
      Text.LessTotal(a.name, c.name);
      if Text.Less(a.name, b.name) && Text.Less(b.name, c.name) {
        Text.LessTransitive(a.name, b.name, c.name);
      }
    }
  }

  /** The entries of a provider map with a positive count, each once. */
  ghost predicate Positives(entries: seq<Ranked>, providers: map<string, int>, among: set<string>) {
    && (forall e :: e in entries <==>
        e.name in among && e.name in providers && e.count == providers[e.name] && e.count > 0)
    && (forall i, j :: 0 <= i < j < |entries| ==> entries[i] != entries[j])
  }

  method PositiveEntries(providers: map<string, int>) returns (entries: seq<Ranked>)
    ensures Positives(entries, providers, providers.Keys)
  {
    entries := [];
    var todo := providers.Keys;
    while todo != {}
      invariant todo <= providers.Keys
      invariant Positives(entries, providers, providers.Keys - todo)
      decreases todo
    {
      var p :| p in todo;
      if providers[p] > 0 {
        entries := entries + [Ranked(p, providers[p])];
      }
      todo := todo - {p};
    }
    assert providers.Keys - todo == providers.Keys;
  }

  /** The providers of a model with their recounts, in the promised order. */
  ghost predicate RankedProviders(s: State, id: string, names: seq<string>) {
    && (forall p :: p in names <==> ProviderRecount(s, id, p) > 0)
    && (forall i, j :: 0 <= i < j < |names| ==>
          || ProviderRecount(s, id, names[i]) > ProviderRecount(s, id, names[j])
          || (ProviderRecount(s, id, names[i]) == ProviderRecount(s, id, names[j]) && Text.Less(names[i], names[j])))
  }

  lemma RankedEntries(s: State, id: string, providers: map<string, int>, entries: seq<Ranked>)
    requires forall p :: p in providers <==> ProviderRecount(s, id, p) > 0
    requires forall p :: p in providers ==> providers[p] == ProviderRecount(s, id, p)
    requires Positives(entries, providers, providers.Keys) && Sorting.Ordered(Ahead, entries)
    ensures RankedProviders(s, id, seq(|entries|, i requires 0 <= i < |entries| => entries[i].name))
  {
    var names := seq(|entries|, i requires 0 <= i < |entries| => entries[i].name);
    forall p | p in providers
      ensures p in names
    {
      assert Ranked(p, providers[p]) in entries;
      var i :| 0 <= i < |entries| && entries[i] == Ranked(p, providers[p]);
      assert names[i] == p;
    }
    forall i | 0 <= i < |entries|
      ensures names[i] in providers && entries[i] == Ranked(names[i], ProviderRecount(s, id, names[i]))
    {
      assert entries[i] in entries;
    }
    forall i, j | 0 <= i < j < |entries|
      ensures Ahead(entries[i], entries[j])
    {
      Text.LessTotal(entries[i].name, entries[j].name);
    }
  }

  lemma DistinctKept(a: seq<Ranked>, b: seq<Ranked>)
    requires multiset(a) == multiset(b)
    requires forall i, j :: 0 <= i < j < |a| ==> a[i] != a[j]
    ensures forall i, j :: 0 <= i < j < |b| ==> b[i] != b[j]
  {
    forall i, j | 0 <= i < j < |b|
      ensures b[i] != b[j]
    {
      if b[i] == b[j] {
        Twice(b, i, j);
        Once(a, b[i]);
      }
    }
  }

  lemma Twice(b: seq<Ranked>, i: nat, j: nat)
    requires i < j < |b| && b[i] == b[j]
    ensures multiset(b)[b[i]] >= 2
  {
    assert b == b[..i] + [b[i]] + b[i + 1..j] + [b[j]] + b[j + 1..];
  }

  lemma {:induction false} Once(a: seq<Ranked>, x: Ranked)
    requires forall i, j :: 0 <= i < j < |a| ==> a[i] != a[j]
    ensures multiset(a)[x] <= 1
  {
    if a != [] {
      var n := |a| - 1;
      assert a == a[..n] + [a[n]];
      Once(a[..n], x);
      if x == a[n] {
        assert x !in a[..n];
      }
    }
  }

  method RankProviders(providers: map<string, int>) returns (sorted: seq<Ranked>)
    ensures Positives(sorted, providers, providers.Keys) && Sorting.Ordered(Ahead, sorted)
  {
    var entries := PositiveEntries(providers);
    sorted := Sorting.Sort(entries, Ahead);
    Sorting.SameMembers(sorted, entries);
    DistinctKept(entries, sorted);
    AheadIsWeakOrder(entries);
    Sorting.SortOrdered(entries, Ahead);
  }

  lemma UnregisteredHasNoProviders(s: State, id: string)
    requires Indexed(s) && id !in s.models
    ensures RankedProviders(s, id, [])
  {
    ListedIffRecounted(s, id);
    assert SlotExact(s, id, Look(s.models, id));
    forall p
      ensures ProviderRecount(s, id, p) == 0
    {
      ProviderWithinListing(s, id, p);
    }
  }

  /** Exactly the providers whose clients list the model, by count and then by name. */
  method GetModelProviders(r: ModelRegistry, id: string) returns (names: seq<string>)
    requires r.Valid()
    ensures RankedProviders(r.View(), id, names)
  {
    if id !in r.models {
      UnregisteredHasNoProviders(r.View(), id);
      return [];
    }
    var registration := r.models[id];
    var sorted := RankProviders(registration.providers);
    names := seq(|sorted|, i requires 0 <= i < |sorted| => sorted[i].name);
    assert SlotExact(r.View(), id, Look(r.View().models, id));
    assert r.View().models[id] == registration.Value();
    RankedEntries(r.View(), id, registration.providers, sorted);
  }
}
