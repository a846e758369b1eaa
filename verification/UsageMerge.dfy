/** Merging an exported snapshot: each detail is added once per key. */
module UsageMerge {
  import opened Collections
  import opened UsageModel
  import opened UsageKeys
  import Text

  // ---------------------------------------------------------------------------------------
  // Stored and incoming keys. What follows holds for any way of forming keys.
  // ---------------------------------------------------------------------------------------

  type Keying = (string, string, Detail) -> string

  /** The reading of the clock when an incoming detail is met. */
  type Clock = Place -> Stamp

  /** Where a detail sits in a log. */
  datatype Place = Place(api: string, model: string, index: nat)

  predicate At(apis: map<string, ApiUsage>, p: Place) {
    p.api in apis && p.model in apis[p.api].models && p.index < |apis[p.api].models[p.model].details|
  }

  function DetailAt(apis: map<string, ApiUsage>, p: Place): Detail
    requires At(apis, p)
  {
    apis[p.api].models[p.model].details[p.index]
  }

  ghost function Places(apis: map<string, ApiUsage>): (places: set<Place>)
    ensures forall p :: p in places <==> At(apis, p)
  {
    var places := set a, m, i | a in apis && m in apis[a].models && 0 <= i < |apis[a].models[m].details| ::
        Place(a, m, i);
    assert forall p: Place :: p in places <==> At(apis, p) by {
      forall p: Place
        ensures p in places <==> At(apis, p)
      {
        assert p == Place(p.api, p.model, p.index);
      }
    }
    places
  }

  ghost function KeysOf(f: Keying, apis: map<string, ApiUsage>, places: set<Place>): set<string>
    requires places <= Places(apis)
  {
    set p | p in places :: f(p.api, p.model, DetailAt(apis, p))
  }

  ghost function StoredKeys(f: Keying, apis: map<string, ApiUsage>): set<string> {
    KeysOf(f, apis, Places(apis))
  }

  function ModelName(model: string): string {
    if Text.TrimSpace(model) == "" then "unknown" else Text.TrimSpace(model)
  }

  function Filled(d: Detail): Detail {
    d.(tokens := Normalise(d.tokens))
  }

  /** An incoming detail as it would be stored: tokens filled in, a missing stamp replaced. */
  function Prepared(d: Detail, now: Stamp): Detail {
    Filled(d).(stamp := if d.stamp.instant == 0 then now else d.stamp)
  }

  function IncomingKey(f: Keying, apis: map<string, ApiUsage>, p: Place, clock: Clock): string
    requires At(apis, p)
  {
    f(Text.TrimSpace(p.api), ModelName(p.model), Prepared(DetailAt(apis, p), clock(p)))
  }

  /** Incoming details under a blank name are ignored. */
  ghost function Usable(apis: map<string, ApiUsage>): set<Place> {
    set p | p in Places(apis) && Text.TrimSpace(p.api) != ""
  }

  /** The keys of the incoming details at some places. */
  ghost function KeysAt(f: Keying, snapshot: map<string, ApiUsage>, clock: Clock, done: set<Place>): set<string>
    requires done <= Places(snapshot)
  {
    set p | p in done :: IncomingKey(f, snapshot, p, clock)
  }

  ghost function IncomingKeys(f: Keying, snapshot: map<string, ApiUsage>, clock: Clock): set<string> {
    KeysAt(f, snapshot, clock, Usable(snapshot))
  }

  lemma KeysOneMore(f: Keying, snapshot: map<string, ApiUsage>, clock: Clock, done: set<Place>, p: Place)
    requires done <= Places(snapshot) && At(snapshot, p)
    ensures KeysAt(f, snapshot, clock, done + {p}) == KeysAt(f, snapshot, clock, done) +
            {IncomingKey(f, snapshot, p, clock)}
  {
    forall key | key in KeysAt(f, snapshot, clock, done)
      ensures key in KeysAt(f, snapshot, clock, done + {p})
    {
      var q :| q in done && IncomingKey(f, snapshot, q, clock) == key;
      assert q in done + {p};
    }
    assert p in done + {p};
  }

  // ---------------------------------------------------------------------------------------
  // Adding one detail, and adding an empty entry for an api
  // ---------------------------------------------------------------------------------------

  /** Nothing stored is lost or moved. */
  ghost predicate Keeps(before: map<string, ApiUsage>, after: map<string, ApiUsage>) {
    forall p :: At(before, p) ==> At(after, p) && DetailAt(after, p) == DetailAt(before, p)
  }

  lemma KeepsKeys(f: Keying, before: map<string, ApiUsage>, after: map<string, ApiUsage>)
    requires Keeps(before, after)
    ensures StoredKeys(f, before) <= StoredKeys(f, after)
  {
    forall key | key in StoredKeys(f, before)
      ensures key in StoredKeys(f, after)
    {
      var p :| At(before, p) && f(p.api, p.model, DetailAt(before, p)) == key;
      assert p in Places(after);
    }
  }

  ghost function LastPlace(apis: map<string, ApiUsage>, api: string, model: string): Place {
    Place(api, model, |ModelAt(if api in apis then apis[api] else EmptyApi, model).details|)
  }

  lemma PlaceAdded(apis: map<string, ApiUsage>, api: string, model: string, d: Detail, p: Place)
    ensures var after := AddToApis(apis, api, model, d);
      && (At(after, p) <==> At(apis, p) || p == LastPlace(apis, api, model))
      && (At(apis, p) ==> DetailAt(after, p) == DetailAt(apis, p))
      && (p == LastPlace(apis, api, model) ==> DetailAt(after, p) == d)
  {
  }

  lemma DetailAdded(f: Keying, apis: map<string, ApiUsage>, api: string, model: string, d: Detail)
    ensures Keeps(apis, AddToApis(apis, api, model, d))
    ensures StoredKeys(f, AddToApis(apis, api, model, d)) == StoredKeys(f, apis) + {f(api, model, d)}
  {
    var after := AddToApis(apis, api, model, d);
    var last := LastPlace(apis, api, model);
    forall p
      ensures At(after, p) <==> At(apis, p) || p == last
      ensures At(apis, p) ==> DetailAt(after, p) == DetailAt(apis, p)
      ensures p == last ==> DetailAt(after, p) == d
    {
      PlaceAdded(apis, api, model, d, p);
    }
    KeepsKeys(f, apis, after);
    assert last in Places(after);
    forall key | key in StoredKeys(f, after)
      ensures key in StoredKeys(f, apis) + {f(api, model, d)}
    {
      var p :| At(after, p) && f(p.api, p.model, DetailAt(after, p)) == key;
      assert p != last ==> p in Places(apis);
    }
  }

  lemma OpenedKeys(f: Keying, apis: map<string, ApiUsage>, api: string)
    ensures Keeps(apis, Opened(apis, api))
    ensures StoredKeys(f, Opened(apis, api)) == StoredKeys(f, apis)
  {
    var after := Opened(apis, api);
    assert Keeps(after, apis);
    assert Keeps(apis, after);
    KeepsKeys(f, apis, after);
    KeepsKeys(f, after, apis);
  }

  /** Where a detail entered into the log stands, and that it is the one. */
  predicate Stores(e: Entry, p: Place, d: Detail) {
    !e.Opening? && e.api == p.api && e.model == p.model && e.detail == d
  }

  ghost predicate StoredBy(es: seq<Entry>, p: Place, d: Detail) {
    exists i :: 0 <= i < |es| && Stores(es[i], p, d)
  }

  lemma StoredByMore(es: seq<Entry>, e: Entry, p: Place, d: Detail)
    ensures StoredBy(es + [e], p, d) <==> StoredBy(es, p, d) || Stores(e, p, d)
  {
    var more := es + [e];
    if StoredBy(es, p, d) {
      var i :| 0 <= i < |es| && Stores(es[i], p, d);
      assert Stores(more[i], p, d);
    }
    if Stores(e, p, d) {
      assert Stores(more[|es|], p, d);
    }
    if StoredBy(more, p, d) {
      var i :| 0 <= i < |more| && Stores(more[i], p, d);
      assert i < |es| ==> Stores(es[i], p, d);
    }
  }

  lemma EnterAt(s: Store, e: Entry, p: Place)
    ensures var t := Enter(s, e);
      && (At(s.apis, p) ==> At(t.apis, p) && DetailAt(t.apis, p) == DetailAt(s.apis, p))
      && (At(t.apis, p) && !At(s.apis, p) ==> Stores(e, p, DetailAt(t.apis, p)))
  {
    match e
    case Opening(_) =>
    case _ => PlaceAdded(s.apis, e.api, e.model, e.detail, p);
  }

  /** A history loses and moves nothing, and stores nothing that was not entered. */
  lemma {:induction false} HistoryLog(s: Store, es: seq<Entry>, p: Place)
    ensures var t := EnterAll(s, es);
      && (At(s.apis, p) ==> At(t.apis, p) && DetailAt(t.apis, p) == DetailAt(s.apis, p))
      && (At(t.apis, p) && !At(s.apis, p) ==> StoredBy(es, p, DetailAt(t.apis, p)))
  {
    if es != [] {
      var n := |es| - 1;
      var u := EnterAll(s, es[..n]);
      HistoryLog(s, es[..n], p);
      EnterAt(u, es[n], p);
      assert es[..n] + [es[n]] == es;
      if At(EnterAll(s, es).apis, p) {
        StoredByMore(es[..n], es[n], p, DetailAt(EnterAll(s, es).apis, p));
      }
    }
  }

  // ---------------------------------------------------------------------------------------
  // The merge
  // ---------------------------------------------------------------------------------------

  /** The state of a merge, with what has been entered into the store so far. */
  datatype Progress = Progress(store: Store, seen: set<string>, added: nat, skipped: nat, entries: seq<Entry>)

  function ImportCount(es: seq<Entry>): nat {
    if es == [] then 0 else ImportCount(es[..|es| - 1]) + if es[|es| - 1].Importing? then 1 else 0
  }

  ghost function ImportKeys(f: Keying, es: seq<Entry>): set<string> {
    set i | 0 <= i < |es| && es[i].Importing? :: f(es[i].api, es[i].model, es[i].detail)
  }

  lemma ImportKeysMore(f: Keying, es: seq<Entry>, e: Entry)
    ensures ImportKeys(f, es + [e]) == ImportKeys(f, es) + if e.Importing? then {f(e.api, e.model, e.detail)} else {}
    ensures ImportCount(es + [e]) == ImportCount(es) + if e.Importing? then 1 else 0
  {
    var more := es + [e];
    assert more[..|es|] == es;
    forall key
      ensures key in ImportKeys(f, more) <==>
              key in ImportKeys(f, es) || (e.Importing? && key == f(e.api, e.model, e.detail))
    {
      if key in ImportKeys(f, es) {
        var i :| 0 <= i < |es| && es[i].Importing? && f(es[i].api, es[i].model, es[i].detail) == key;
        assert more[i] == es[i];
      }
      if e.Importing? && key == f(e.api, e.model, e.detail) {
        assert more[|es|] == e;
      }
      if key in ImportKeys(f, more) {
        var i :| 0 <= i < |more| && more[i].Importing? && f(more[i].api, more[i].model, more[i].detail) == key;
        assert i < |es| ==> es[i] == more[i];
      }
    }
  }

  /** The keys seen are the stored ones and those of the details merged so far, each new one added once. */
  ghost predicate Accounted(f: Keying, before: map<string, ApiUsage>, snapshot: map<string, ApiUsage>, clock: Clock,
                            done: set<Place>, pr: Progress) {
    && done <= Places(snapshot)
    && pr.seen == StoredKeys(f, before) + KeysAt(f, snapshot, clock, done)
    && |pr.seen| == |StoredKeys(f, before)| + pr.added
    && pr.added + pr.skipped == |done|
  }

  /** The store is the old one with the entries of the merge; their keys are the new ones. */
  ghost predicate Grown(f: Keying, s0: Store, pr: Progress) {
    && pr.store == EnterAll(s0, pr.entries)
    && pr.seen == StoredKeys(f, pr.store.apis)
    && pr.seen == StoredKeys(f, s0.apis) + ImportKeys(f, pr.entries)
    && ImportCount(pr.entries) == pr.added
  }

  /** An entry is the prepared form of an incoming detail, under its tidied names. */
  predicate Lands(snapshot: map<string, ApiUsage>, clock: Clock, q: Place, e: Entry)
    requires At(snapshot, q)
  {
    e == Importing(Text.TrimSpace(q.api), ModelName(q.model), Prepared(DetailAt(snapshot, q), clock(q)))
  }

  ghost predicate ComesFrom(snapshot: map<string, ApiUsage>, clock: Clock, done: set<Place>, e: Entry)
    requires done <= Places(snapshot)
  {
    exists q :: q in done && Lands(snapshot, clock, q, e)
  }

  /** A merge opens APIs, and imports incoming details whose key was not stored before. */
  ghost predicate Legal(f: Keying, before: map<string, ApiUsage>, snapshot: map<string, ApiUsage>, clock: Clock,
                        done: set<Place>, e: Entry)
    requires done <= Places(snapshot)
  {
    e.Opening? || (ComesFrom(snapshot, clock, done, e) && f(e.api, e.model, e.detail) !in StoredKeys(f, before))
  }

  ghost predicate Sourced(f: Keying, before: map<string, ApiUsage>, snapshot: map<string, ApiUsage>, clock: Clock,
                          done: set<Place>, es: seq<Entry>)
    requires done <= Places(snapshot)
  {
    forall i :: 0 <= i < |es| ==> Legal(f, before, snapshot, clock, done, es[i])
  }

  lemma LegalWithMore(f: Keying, before: map<string, ApiUsage>, snapshot: map<string, ApiUsage>, clock: Clock,
                      done: set<Place>, more: set<Place>, e: Entry)
    requires done <= more <= Places(snapshot) && Legal(f, before, snapshot, clock, done, e)
    ensures Legal(f, before, snapshot, clock, more, e)
  {
    if !e.Opening? {
      var q :| q in done && Lands(snapshot, clock, q, e);
      assert q in more;
    }
  }

  lemma SourcedMore(f: Keying, before: map<string, ApiUsage>, snapshot: map<string, ApiUsage>, clock: Clock,
                    done: set<Place>, more: set<Place>, es: seq<Entry>, e: Entry)
    requires done <= more <= Places(snapshot) && Sourced(f, before, snapshot, clock, done, es)
    ensures Sourced(f, before, snapshot, clock, more, es)
    ensures Legal(f, before, snapshot, clock, more, e) ==> Sourced(f, before, snapshot, clock, more, es + [e])
  {
    forall i | 0 <= i < |es|
      ensures Legal(f, before, snapshot, clock, more, es[i])
    {
      LegalWithMore(f, before, snapshot, clock, done, more, es[i]);
    }
  }

  /** What holds after the incoming details at some places have been merged. */
  ghost predicate Merging(f: Keying, s0: Store, snapshot: map<string, ApiUsage>, clock: Clock, done: set<Place>,
                          pr: Progress) {
    && Accounted(f, s0.apis, snapshot, clock, done, pr)
    && Grown(f, s0, pr)
    && Sourced(f, s0.apis, snapshot, clock, done, pr.entries)
  }

  lemma MergeStarts(f: Keying, s0: Store, snapshot: map<string, ApiUsage>, clock: Clock)
    ensures Merging(f, s0, snapshot, clock, {}, Progress(s0, StoredKeys(f, s0.apis), 0, 0, []))
  {
    assert KeysAt(f, snapshot, clock, {}) == {};
    assert ImportKeys(f, []) == {};
  }

  /** Merging one incoming detail. */
  function MergeOne(f: Keying, pr: Progress, api: string, model: string, d: Detail): Progress {
    var key := f(api, model, d);
    if key in pr.seen then pr.(skipped := pr.skipped + 1)
    else Progress(Imported(pr.store, api, model, d), pr.seen + {key}, pr.added + 1, pr.skipped,
                  pr.entries + [Importing(api, model, d)])
  }

  lemma MergeOneAccounts(f: Keying, before: map<string, ApiUsage>, snapshot: map<string, ApiUsage>, clock: Clock,
                         done: set<Place>, pr: Progress, p: Place, api: string, model: string, d: Detail)
    requires Accounted(f, before, snapshot, clock, done, pr) && At(snapshot, p) && p !in done
    requires IncomingKey(f, snapshot, p, clock) == f(api, model, d)
    ensures Accounted(f, before, snapshot, clock, done + {p}, MergeOne(f, pr, api, model, d))
  {
    var stored, keys, key := StoredKeys(f, before), KeysAt(f, snapshot, clock, done), f(api, model, d);
    var pr' := MergeOne(f, pr, api, model, d);
    assert pr'.seen == stored + (keys + {key}) && |pr'.seen| == |stored| + pr'.added by {
      KeysCounted(stored, keys, pr, key, pr');
    }
    assert KeysAt(f, snapshot, clock, done + {p}) == keys + {key} by {
      KeysOneMore(f, snapshot, clock, done, p);
    }
    assert pr'.added + pr'.skipped == |done + {p}| by {
      OneMoreSize(done, p);
    }
  }

  lemma KeysCounted(stored: set<string>, keys: set<string>, pr: Progress, key: string, pr': Progress)
    requires pr.seen == stored + keys && |pr.seen| == |stored| + pr.added
    requires pr'.seen == pr.seen + {key} && pr'.added == if key in pr.seen then pr.added else pr.added + 1
    ensures pr'.seen == stored + (keys + {key}) && |pr'.seen| == |stored| + pr'.added
  {
    UnionOneMore(stored, keys, key);
    assert key in pr.seen ==> pr.seen + {key} == pr.seen;
  }

  lemma MergeOneGrows(f: Keying, s0: Store, pr: Progress, api: string, model: string, d: Detail)
    requires Grown(f, s0, pr)
    ensures Grown(f, s0, MergeOne(f, pr, api, model, d))
  {
    if f(api, model, d) !in pr.seen {
      EnterOneMore(s0, pr.entries, Importing(api, model, d));
      ImportKeysMore(f, pr.entries, Importing(api, model, d));
      DetailAdded(f, pr.store.apis, api, model, d);
    }
  }

  /** Merging one incoming detail, wherever it stands in the snapshot, keeps the account. */
  lemma MergeOneKeeps(f: Keying, s0: Store, snapshot: map<string, ApiUsage>, clock: Clock, done: set<Place>,
                      pr: Progress,
                      p: Place)
    requires Merging(f, s0, snapshot, clock, done, pr) && At(snapshot, p) && p !in done
    ensures Merging(f, s0, snapshot, clock, done + {p},
              MergeOne(f, pr, Text.TrimSpace(p.api), ModelName(p.model), Prepared(DetailAt(snapshot, p), clock(p))))
  {
    var api, model, d := Text.TrimSpace(p.api), ModelName(p.model), Prepared(DetailAt(snapshot, p), clock(p));
    MergeOneAccounts(f, s0.apis, snapshot, clock, done, pr, p, api, model, d);
    MergeOneGrows(f, s0, pr, api, model, d);
    MergeOneSourced(f, s0, snapshot, clock, done, pr, p, Importing(api, model, d));
  }

  lemma MergeOneSourced(f: Keying, s0: Store, snapshot: map<string, ApiUsage>, clock: Clock, done: set<Place>,
                        pr: Progress,
                        p: Place, e: Entry)
    requires Merging(f, s0, snapshot, clock, done, pr) && At(snapshot, p) && Lands(snapshot, clock, p, e)
    ensures done + {p} <= Places(snapshot)
    ensures Sourced(f, s0.apis, snapshot, clock, done + {p}, MergeOne(f, pr, e.api, e.model, e.detail).entries)
  {
    if f(e.api, e.model, e.detail) !in pr.seen {
      assert p in done + {p};
      assert Legal(f, s0.apis, snapshot, clock, done + {p}, e);
    }
    SourcedMore(f, s0.apis, snapshot, clock, done, done + {p}, pr.entries, e);
  }

  function OpenOne(pr: Progress, api: string): Progress {
    pr.(store := Enter(pr.store, Opening(api)), entries := pr.entries + [Opening(api)])
  }

  lemma OpenGrows(f: Keying, s0: Store, pr: Progress, api: string)
    requires Grown(f, s0, pr)
    ensures Grown(f, s0, OpenOne(pr, api))
  {
    EnterOneMore(s0, pr.entries, Opening(api));
    ImportKeysMore(f, pr.entries, Opening(api));
    OpenedKeys(f, pr.store.apis, api);
  }

  /** Opening an empty entry for an API keeps the account. */
  lemma OpenKeeps(f: Keying, s0: Store, snapshot: map<string, ApiUsage>, clock: Clock, done: set<Place>, pr: Progress,
                  api: string)
    requires Merging(f, s0, snapshot, clock, done, pr)
    ensures Merging(f, s0, snapshot, clock, done, OpenOne(pr, api))
  {
    OpenGrows(f, s0, pr, api);
    SourcedMore(f, s0.apis, snapshot, clock, done, done, pr.entries, Opening(api));
  }

  // ---------------------------------------------------------------------------------------
  // What a finished merge means
  // ---------------------------------------------------------------------------------------

  /** All incoming details under a usable name have been merged. */
  ghost predicate Merged(f: Keying, s0: Store, snapshot: map<string, ApiUsage>, clock: Clock, pr: Progress) {
    Merging(f, s0, snapshot, clock, Usable(snapshot), pr)
  }

  /** The stored keys afterwards are the old and the incoming ones, one detail was imported for each key
      that is new, and every other incoming detail was skipped. */
  lemma MergeAddsNewKeys(f: Keying, s0: Store, snapshot: map<string, ApiUsage>, clock: Clock, pr: Progress)
    requires Merged(f, s0, snapshot, clock, pr)
    ensures StoredKeys(f, pr.store.apis) == StoredKeys(f, s0.apis) + IncomingKeys(f, snapshot, clock)
    ensures pr.added == ImportCount(pr.entries) == |IncomingKeys(f, snapshot, clock) - StoredKeys(f, s0.apis)|
    ensures pr.added + pr.skipped == |Usable(snapshot)|
  {
    NewMembers(StoredKeys(f, s0.apis), IncomingKeys(f, snapshot, clock));
  }

  /** Everything stored before is still in its place, and every other stored detail is the prepared form
      of an incoming one. */
  lemma MergedLog(f: Keying, s0: Store, snapshot: map<string, ApiUsage>, clock: Clock, pr: Progress, p: Place)
    requires Merged(f, s0, snapshot, clock, pr)
    ensures At(s0.apis, p) ==> At(pr.store.apis, p) && DetailAt(pr.store.apis, p) == DetailAt(s0.apis, p)
    ensures At(pr.store.apis, p) && !At(s0.apis, p) ==>
              ComesFrom(snapshot, clock, Usable(snapshot), Importing(p.api, p.model, DetailAt(pr.store.apis, p)))
  {
    HistoryLog(s0, pr.entries, p);
    if At(pr.store.apis, p) && !At(s0.apis, p) {
      var i :| 0 <= i < |pr.entries| && Stores(pr.entries[i], p, DetailAt(pr.store.apis, p));
      assert Legal(f, s0.apis, snapshot, clock, Usable(snapshot), pr.entries[i]);
      var q :| q in Usable(snapshot) && Lands(snapshot, clock, q, pr.entries[i]);
      assert pr.entries[i] == Importing(p.api, p.model, DetailAt(pr.store.apis, p));
    }
  }

  /** The request aggregates stay recounts through a merge. */
  lemma MergeKeepsRequests(f: Keying, s0: Store, snapshot: map<string, ApiUsage>, clock: Clock, pr: Progress)
    requires Merged(f, s0, snapshot, clock, pr) && RequestsBalanced(s0) && TokensSpread(s0)
    ensures RequestsBalanced(pr.store) && TokensSpread(pr.store)
  {
    HistoryKeepsRequests(s0, pr.entries);
  }

  // ---------------------------------------------------------------------------------------
  // Tokens
  // ---------------------------------------------------------------------------------------

  predicate NegativeAt(snapshot: map<string, ApiUsage>, clock: Clock, q: Place)
    requires At(snapshot, q)
  {
    Prepared(DetailAt(snapshot, q), clock(q)).tokens.total < 0
  }

  /** Every incoming detail with a negative total is stored already, so that it will be skipped. */
  ghost predicate NegativesStored(f: Keying, before: map<string, ApiUsage>, snapshot: map<string, ApiUsage>,
                                  clock: Clock) {
    forall q :: q in Usable(snapshot) && NegativeAt(snapshot, clock, q) ==>
      IncomingKey(f, snapshot, q, clock) in StoredKeys(f, before)
  }

  /** The key determines the token total. */
  ghost predicate TellsTotal(f: Keying) {
    forall a, m, d: Detail, b, n, e: Detail :: f(a, m, d) == f(b, n, e) ==>
        Normalise(d.tokens).total == Normalise(e.tokens).total
  }

  lemma SkippedNegatives(f: Keying, s0: Store, snapshot: map<string, ApiUsage>, clock: Clock, pr: Progress)
    requires Merged(f, s0, snapshot, clock, pr) && NegativesStored(f, s0.apis, snapshot, clock)
    ensures NoneClamped(pr.entries)
  {
    forall i | 0 <= i < |pr.entries|
      ensures !Clamped(pr.entries[i])
    {
      assert Legal(f, s0.apis, snapshot, clock, Usable(snapshot), pr.entries[i]);
      if Clamped(pr.entries[i]) {
        var q :| q in Usable(snapshot) && Lands(snapshot, clock, q, pr.entries[i]);
        assert NegativeAt(snapshot, clock, q);
      }
    }
  }

  /** An incoming key that was not stored before belongs to an import. */
  lemma ImportOf(f: Keying, s0: Store, snapshot: map<string, ApiUsage>, clock: Clock, pr: Progress, q: Place)
    returns (i: nat)
    requires Merged(f, s0, snapshot, clock, pr) && q in Usable(snapshot)
    requires IncomingKey(f, snapshot, q, clock) !in StoredKeys(f, s0.apis)
    ensures i < |pr.entries| && pr.entries[i].Importing?
    ensures f(pr.entries[i].api, pr.entries[i].model, pr.entries[i].detail) == IncomingKey(f, snapshot, q, clock)
  {
    var key := IncomingKey(f, snapshot, q, clock);
    assert key in KeysAt(f, snapshot, clock, Usable(snapshot));
    assert key in ImportKeys(f, pr.entries);
    i :| 0 <= i < |pr.entries| && pr.entries[i].Importing?
         && f(pr.entries[i].api, pr.entries[i].model, pr.entries[i].detail) == key;
  }

  lemma PreparedTokens(snapshot: map<string, ApiUsage>, clock: Clock, q: Place, e: Entry)
    requires At(snapshot, q) && Lands(snapshot, clock, q, e)
    ensures Normalise(e.detail.tokens) == e.detail.tokens
  {
    NormaliseIdempotent(DetailAt(snapshot, q).tokens);
  }

  lemma SameTotal(f: Keying, a: string, m: string, d: Detail, b: string, n: string, e: Detail)
    requires TellsTotal(f) && f(a, m, d) == f(b, n, e)
    ensures Normalise(d.tokens).total == Normalise(e.tokens).total
  {
  }

  lemma ImportedNegative(f: Keying, s0: Store, snapshot: map<string, ApiUsage>, clock: Clock, pr: Progress, q: Place)
    requires TellsTotal(f) && Merged(f, s0, snapshot, clock, pr)
    requires q in Usable(snapshot) && NegativeAt(snapshot, clock, q)
    requires IncomingKey(f, snapshot, q, clock) !in StoredKeys(f, s0.apis)
    ensures !NoneClamped(pr.entries)
  {
    var i := ImportOf(f, s0, snapshot, clock, pr, q);
    var e := pr.entries[i];
    var own := Importing(Text.TrimSpace(q.api), ModelName(q.model), Prepared(DetailAt(snapshot, q), clock(q)));
    PreparedTokens(snapshot, clock, q, own);
    SameTotal(f, e.api, e.model, e.detail, own.api, own.model, own.detail);
    assert Legal(f, s0.apis, snapshot, clock, Usable(snapshot), e);
    var r :| r in Usable(snapshot) && Lands(snapshot, clock, r, e);
    PreparedTokens(snapshot, clock, r, e);
    assert Clamped(e);
  }

  /** A merge keeps the token totals recounts of the log exactly when it adds no negative total, that is,
      when every incoming negative one is stored already. */
  lemma MergeKeepsTokensIff(f: Keying, s0: Store, snapshot: map<string, ApiUsage>, clock: Clock, pr: Progress)
    requires TellsTotal(f) && Merged(f, s0, snapshot, clock, pr)
    ensures NoneClamped(pr.entries) <==> NegativesStored(f, s0.apis, snapshot, clock)
    ensures Excess(pr.store) == Excess(s0) + Clamping(pr.entries)
    ensures TokensBalanced(s0) ==> (TokensBalanced(pr.store) <==> NegativesStored(f, s0.apis, snapshot, clock))
  {
    TokenExcess(s0, pr.entries);
    if NegativesStored(f, s0.apis, snapshot, clock) {
      SkippedNegatives(f, s0, snapshot, clock, pr);
    } else {
      var q :| q in Usable(snapshot) && NegativeAt(snapshot, clock, q)
               && IncomingKey(f, snapshot, q, clock) !in StoredKeys(f, s0.apis);
      ImportedNegative(f, s0, snapshot, clock, pr, q);
    }
    if TokensBalanced(s0) {
      TokensConservedIff(s0, pr.entries);
    }
  }

  /** A merge adds nothing exactly when every incoming key is stored already. */
  lemma AddsNothingIff(f: Keying, s0: Store, snapshot: map<string, ApiUsage>, clock: Clock, pr: Progress)
    requires Merged(f, s0, snapshot, clock, pr)
    ensures pr.added == 0 <==> IncomingKeys(f, snapshot, clock) <= StoredKeys(f, s0.apis)
  {
    MergeAddsNewKeys(f, s0, snapshot, clock, pr);
    NoneNewIff(StoredKeys(f, s0.apis), IncomingKeys(f, snapshot, clock));
  }

  /** Every detail carries a stamp. */
  ghost predicate Stamped(apis: map<string, ApiUsage>) {
    forall p :: At(apis, p) ==> DetailAt(apis, p).stamp.instant != 0
  }

  /** Names are trimmed and not blank. */
  predicate TidyName(name: string) {
    name != "" && Text.TrimSpace(name) == name
  }

  ghost predicate Tidy(apis: map<string, ApiUsage>) {
    forall p :: At(apis, p) ==> TidyName(p.api) && TidyName(p.model)
  }

  lemma StampedKeys(f: Keying, snapshot: map<string, ApiUsage>, clock: Clock, later: Clock)
    requires Stamped(snapshot)
    ensures IncomingKeys(f, snapshot, later) == IncomingKeys(f, snapshot, clock)
  {
    forall p | p in Usable(snapshot)
      ensures IncomingKey(f, snapshot, p, later) == IncomingKey(f, snapshot, p, clock)
    {
      assert Prepared(DetailAt(snapshot, p), later(p)) == Prepared(DetailAt(snapshot, p), clock(p));
    }
  }

  /** A second merge of the same snapshot adds exactly what the later clock makes new. */
  lemma SecondMergeAdds(f: Keying, s0: Store, snapshot: map<string, ApiUsage>, clock: Clock, first: Progress,
                        later: Clock, second: Progress)
    requires Merged(f, s0, snapshot, clock, first) && Merged(f, first.store, snapshot, later, second)
    ensures second.added == |IncomingKeys(f, snapshot,
                                          later) - (StoredKeys(f, s0.apis) + IncomingKeys(f, snapshot, clock))|
    ensures Stamped(snapshot) ==> second.added == 0
  {
    MergeAddsNewKeys(f, s0, snapshot, clock, first);
    MergeAddsNewKeys(f, first.store, snapshot, later, second);
    if Stamped(snapshot) {
      StampedKeys(f, snapshot, clock, later);
      AddsNothingIff(f, first.store, snapshot, later, second);
    }
  }

  /** Merging a store's own stamped log adds nothing when its names are tidy. */
  lemma OwnSnapshotAddsNothing(s: Store, clock: Clock, pr: Progress)
    requires Stamped(s.apis) && Tidy(s.apis) && Merged(DedupKey, s, s.apis, clock, pr)
    ensures pr.added == 0
  {
    forall api, model, d: Detail
      ensures DedupKey(api, model, Filled(d)) == DedupKey(api, model, d)
    {
      FilledKey(api, model, d);
    }
    OwnKeys(DedupKey, s.apis, clock);
    AddsNothingIff(DedupKey, s, s.apis, clock, pr);
  }

  ghost predicate IgnoresFilling(f: Keying) {
    forall api, model, d: Detail :: f(api, model, Filled(d)) == f(api, model, d)
  }

  lemma OwnKeys(f: Keying, apis: map<string, ApiUsage>, clock: Clock)
    requires Stamped(apis) && Tidy(apis) && IgnoresFilling(f)
    ensures IncomingKeys(f, apis, clock) <= StoredKeys(f, apis)
  {
    forall key | key in IncomingKeys(f, apis, clock)
      ensures key in StoredKeys(f, apis)
    {
      var p :| p in Usable(apis) && IncomingKey(f, apis, p, clock) == key;
      var d := DetailAt(apis, p);
      assert Prepared(d, clock(p)) == Filled(d);
      assert f(p.api, p.model, d) == key;
      assert p in Places(apis);
    }
  }

  lemma DedupKeyTellsTotal()
    ensures TellsTotal(DedupKey)
  {
    forall a, m, d: Detail, b, n, e: Detail | DedupKey(a, m, d) == DedupKey(b, n, e)
      ensures Normalise(d.tokens).total == Normalise(e.tokens).total
    {
      KeyTellsTotal(a, m, d, b, n, e);
    }
  }
}
