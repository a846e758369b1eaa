/** The request statistics kept in memory: objects that are updated in place, proved against the values
    of UsageModel. */
module UsageStatisticsClass {
  import opened Collections
  import opened UsageModel
  import opened UsageKeys
  import opened UsageMerge
  import opened UsageObjects
  import opened UsageRecords
  import opened UsageRuns
  import Text

  lemma OpenedThenAdded(apis: map<string, ApiUsage>, api: string, model: string, d: Detail)
    ensures AddToApis(Opened(apis, api), api, model, d) == AddToApis(apis, api, model, d)
  {
    if api !in apis {
      assert apis[api := EmptyApi][api := AddToApi(EmptyApi, model, d)] == apis[api := AddToApi(EmptyApi, model, d)];
    }
  }

  lemma RecordedKeeps(s: Store, api: string, model: string, d: Detail)
    requires RequestsBalanced(s) && TokensSpread(s)
    ensures RequestsBalanced(Recorded(s, api, model, d)) && TokensSpread(Recorded(s, api, model, d))
  {
    BookKeepsRequests(s, api, model, d, d.tokens.total);
    BookKeepsSpread(s, api, model, d, d.tokens.total);
  }

  // ---------------------------------------------------------------------------------------
  // Walking through a log, api by api, model by model
  // ---------------------------------------------------------------------------------------

  ghost function FirstPlaces(api: string, model: string, n: nat): set<Place> {
    set i: nat | i < n :: Place(api, model, i)
  }

  ghost function ModelPlaces(log: map<string, ApiUsage>, api: string, models: set<string>): set<Place> {
    set p | p in Places(log) && p.api == api && p.model in models
  }

  ghost function ApiPlaces(log: map<string, ApiUsage>, apis: set<string>): set<Place> {
    set p | p in Places(log) && p.api in apis
  }

  lemma FirstPlacesOneMore(api: string, model: string, i: nat)
    ensures FirstPlaces(api, model, i + 1) == FirstPlaces(api, model, i) + {Place(api, model, i)}
    ensures Place(api, model, i) !in FirstPlaces(api, model, i)
  {
  }

  lemma FirstPlacesAll(log: map<string, ApiUsage>, api: string, model: string)
    requires api in log && model in log[api].models
    ensures FirstPlaces(api, model, |log[api].models[model].details|) == ModelPlaces(log, api, {model})
    ensures FirstPlaces(api, model, 0) == {}
  {
    forall p: Place
      ensures p in FirstPlaces(api, model, |log[api].models[model].details|) <==> p in ModelPlaces(log, api, {model})
    {
      assert p == Place(p.api, p.model, p.index);
    }
  }

  lemma ModelPlacesOneMore(log: map<string, ApiUsage>, api: string, models: set<string>, model: string)
    ensures ModelPlaces(log, api, models + {model}) == ModelPlaces(log, api, models) + ModelPlaces(log, api, {model})
    ensures model !in models ==> ModelPlaces(log, api, models) !! ModelPlaces(log, api, {model})
    ensures ModelPlaces(log, api, {}) == {}
  {
  }

  lemma PlaceReached(log: map<string, ApiUsage>, done: set<Place>, api: string, model: string, i: nat)
    requires api in log && model in log[api].models && i < |log[api].models[model].details|
    requires done !! ModelPlaces(log, api, {model})
    ensures At(log, Place(api, model, i))
    ensures Place(api, model, i) !in done + FirstPlaces(api, model, i)
    ensures done + FirstPlaces(api, model, i) + {Place(api, model, i)} == done + FirstPlaces(api, model, i + 1)
  {
    FirstPlacesOneMore(api, model, i);
    assert Place(api, model, i) in ModelPlaces(log, api, {model});
  }

  /** What is done when all but some models of an api have been walked. */
  ghost function ModelsDone(log: map<string, ApiUsage>, api: string, done: set<Place>, todo: set<string>): set<Place>
    requires api in log
  {
    done + ModelPlaces(log, api, log[api].models.Keys - todo)
  }

  lemma ModelsStart(log: map<string, ApiUsage>, api: string, done: set<Place>)
    requires api in log
    ensures ModelsDone(log, api, done, log[api].models.Keys) == done
    ensures ModelsDone(log, api, done, {}) == done + ModelPlaces(log, api, log[api].models.Keys)
  {
    assert log[api].models.Keys - {} == log[api].models.Keys;
  }

  lemma ModelsStep(log: map<string, ApiUsage>, api: string, done: set<Place>, todo: set<string>, model: string)
    requires api in log && todo <= log[api].models.Keys && model in todo
    requires done !! ModelPlaces(log, api, log[api].models.Keys)
    ensures ModelsDone(log, api, done, todo) !! ModelPlaces(log, api, {model})
    ensures ModelsDone(log, api, done, todo - {model}) == ModelsDone(log, api, done, todo) +
            ModelPlaces(log, api, {model})
  {
    var keys := log[api].models.Keys;
    assert keys - (todo - {model}) == keys - todo + {model};
    ModelPlacesOneMore(log, api, keys - todo, model);
  }

  lemma ApiPlacesOneMore(log: map<string, ApiUsage>, apis: set<string>, api: string)
    requires api in log
    ensures ApiPlaces(log, apis + {api}) == ApiPlaces(log, apis) + ModelPlaces(log, api, log[api].models.Keys)
    ensures api !in apis ==> ApiPlaces(log, apis) !! ModelPlaces(log, api, log[api].models.Keys)
  {
  }

  /** What is done when all but some apis have been walked. */
  ghost function ApisDone(log: map<string, ApiUsage>, todo: set<string>): set<Place> {
    set p | p in Usable(log) && p.api !in todo
  }

  lemma ApisStart(log: map<string, ApiUsage>)
    ensures ApisDone(log, log.Keys) == {} && ApisDone(log, {}) == Usable(log)
  {
  }

  lemma ApisStep(log: map<string, ApiUsage>, todo: set<string>, api: string)
    requires todo <= log.Keys && api in todo
    ensures Text.TrimSpace(api) == "" ==> ApisDone(log, todo - {api}) == ApisDone(log, todo)
    ensures Text.TrimSpace(api) != "" ==>
      && ApisDone(log, todo) !! ModelPlaces(log, api, log[api].models.Keys)
      && ApisDone(log, todo - {api}) == ApisDone(log, todo) + ModelPlaces(log, api, log[api].models.Keys)
  {
    forall p
      ensures p in ApisDone(log, todo - {api}) <==> p in ApisDone(log, todo) || (p.api == api && p in Usable(log))
    {
    }
  }

  /** The trimmed names among incoming ones, without the blank ones. */
  function NamesIn(rawApis: set<string>): set<string> {
    set a | a in rawApis && Text.TrimSpace(a) != "" :: Text.TrimSpace(a)
  }

  lemma NamesStep(all: set<string>, todo: set<string>, api: string)
    requires todo <= all && api in todo
    ensures NamesIn(all - (todo - {api})) ==
            NamesIn(all - todo) + if Text.TrimSpace(api) != "" then {Text.TrimSpace(api)} else {}
  {
    assert all - (todo - {api}) == all - todo + {api};
    forall name
      ensures name in NamesIn(all - todo + {api}) <==>
              name in NamesIn(all - todo) || (name != "" && name == Text.TrimSpace(api))
    {
      if name in NamesIn(all - todo) {
        var a :| a in all - todo && Text.TrimSpace(a) == name && name != "";
        assert a in all - todo + {api};
      }
      if name != "" && name == Text.TrimSpace(api) {
        assert api in all - todo + {api};
      }
    }
  }

  lemma ApiPlacesAll(log: map<string, ApiUsage>)
    ensures ApiPlaces(log, {}) == {} && ApiPlaces(log, log.Keys) == Places(log)
  {
  }

  lemma StoredOneMore(f: Keying, log: map<string, ApiUsage>, done: set<Place>, p: Place)
    requires done <= Places(log) && p in Places(log)
    ensures KeysOf(f, log, done + {p}) == KeysOf(f, log, done) + {f(p.api, p.model, DetailAt(log, p))}
  {
    forall key | key in KeysOf(f, log, done)
      ensures key in KeysOf(f, log, done + {p})
    {
      var q :| q in done && f(q.api, q.model, DetailAt(log, q)) == key;
      assert q in done + {p};
    }
    assert p in done + {p};
  }

  method CollectModel(f: Keying, o: ModelStats, ghost log: map<string, ApiUsage>, api: string, model: string,
                      seen0: set<string>, ghost done: set<Place>)
    returns (seen: set<string>)
    requires api in log && model in log[api].models && o.View() == log[api].models[model]
    requires done <= Places(log) && seen0 == KeysOf(f, log, done)
    ensures seen == KeysOf(f, log, done + ModelPlaces(log, api, {model}))
  {
    var details := o.details;
    seen := seen0;
    FirstPlacesAll(log, api, model);
    assert done + {} == done;
    var i := 0;
    while i < |details|
      invariant 0 <= i <= |details|
      invariant done + FirstPlaces(api, model, i) <= Places(log)
      invariant seen == KeysOf(f, log, done + FirstPlaces(api, model, i))
    {
      FirstPlacesOneMore(api, model, i);
      StoredOneMore(f, log, done + FirstPlaces(api, model, i), Place(api, model, i));
      assert done + FirstPlaces(api, model, i) + {Place(api, model, i)} == done + FirstPlaces(api, model, i + 1);
      seen := seen + {f(api, model, details[i])};
      i := i + 1;
    }
  }

  method CollectApi(f: Keying, o: ApiStats, ghost log: map<string, ApiUsage>, api: string, seen0: set<string>,
                    ghost done: set<Place>)
    returns (seen: set<string>)
    requires api in log && o.Valid() && o.value == log[api]
    requires done <= Places(log) && seen0 == KeysOf(f, log, done)
    ensures seen == KeysOf(f, log, done + ModelPlaces(log, api, log[api].models.Keys))
  {
    var todo := o.models.Keys;
    seen := seen0;
    ModelsStart(log, api, done);
    while todo != {}
      invariant todo <= log[api].models.Keys
      invariant ModelsDone(log, api, done, todo) <= Places(log)
      invariant seen == KeysOf(f, log, ModelsDone(log, api, done, todo))
      decreases todo
    {
      var model :| model in todo;
      ModelsNext(log, api, done, todo, model);
      ModelApart(o.models, o.value.models, o.repr - {o}, model);
      seen := CollectModel(f, o.models[model], log, api, model, seen, ModelsDone(log, api, done, todo));
      todo := todo - {model};
    }
  }

  lemma ModelsNext(log: map<string, ApiUsage>, api: string, done: set<Place>, todo: set<string>, model: string)
    requires api in log && todo <= log[api].models.Keys && model in todo && done <= Places(log)
    ensures ModelsDone(log, api, done, todo - {model}) == ModelsDone(log, api, done, todo) +
            ModelPlaces(log, api, {model})
    ensures ModelsDone(log, api, done, todo) <= Places(log)
  {
    var keys := log[api].models.Keys;
    assert keys - (todo - {model}) == keys - todo + {model};
    ModelPlacesOneMore(log, api, keys - todo, model);
  }

  /** The keys of everything stored. */
  method CollectSeen(f: Keying, apis: map<string, ApiStats>, ghost log: map<string, ApiUsage>, ghost parts: set<object>)
    returns (seen: set<string>)
    requires HoldApis(apis, log, parts, {})
    ensures seen == StoredKeys(f, log)
  {
    var todo := apis.Keys;
    seen := {};
    ApiPlacesAll(log);
    assert log.Keys - todo == {};
    while todo != {}
      invariant todo <= log.Keys
      invariant seen == KeysOf(f, log, ApiPlaces(log, log.Keys - todo))
      decreases todo
    {
      var api :| api in todo;
      ApiApart(apis, log, parts, api);
      ApiPlacesOneMore(log, log.Keys - todo, api);
      assert log.Keys - (todo - {api}) == log.Keys - todo + {api};
      seen := CollectApi(f, apis[api], log, api, seen, ApiPlaces(log, log.Keys - todo));
      todo := todo - {api};
    }
    assert log.Keys - todo == log.Keys;
  }

  lemma ByTextMore(m: map<int, int>, e: map<string, int>, h: int, v: int)
    requires HourKeys(m) && ByText(m, e) && h !in m && 0 <= h < 24
    ensures ByText(m[h := v], e[FormatHour(h) := v])
  {
    forall k | k in m
      ensures FormatHour(k) != FormatHour(h)
    {
      if FormatHour(k) == FormatHour(h) {
        HoursTellApart(k, h);
      }
    }
    assert FormatHour(h) !in e by {
      assert FormatHour(h) in e ==> HasHour(m, FormatHour(h));
    }
    var m', e' := m[h := v], e[FormatHour(h) := v];
    SumPut(m, h, v);
    SumPut(e, FormatHour(h), v);
    forall t | t in e'
      ensures HasHour(m', t)
    {
      if t == FormatHour(h) {
        assert h in m';
      } else {
        var k :| k in m && FormatHour(k) == t;
        assert k in m';
      }
    }
  }

  lemma NoneByText()
    ensures ByText(map[], map[])
  {
  }

  lemma HourKeyAt(m: map<int, int>, todo: set<int>, hour: int)
    requires HourKeys(m) && hour in m
    ensures 0 <= hour < 24 && HourKeys(m - todo)
  {
  }

  method AnyOf<K>(s: set<K>) returns (k: K)
    requires s != {}
    ensures k in s
  {
    k :| k in s;
  }

  /** The numbers by hour, under the texts of the hours. */
  method ExportHours(byHour: map<int, int>) returns (exported: map<string, int>)
    requires HourKeys(byHour)
    ensures ByText(byHour, exported)
  {
    exported := map[];
    ghost var done: map<int, int> := map[];
    var todo := byHour.Keys;
    NoneByText();
    while todo != {}
      invariant todo <= byHour.Keys
      invariant done == byHour - todo
      invariant ByText(done, exported)
      decreases todo
    {
      var hour := AnyOf(todo);
      HourKeyAt(byHour, todo, hour);
      ByTextMore(done, exported, hour, byHour[hour]);
      RestOneMore(byHour, todo, hour);
      exported, done := exported[FormatHour(hour) := byHour[hour]], done[hour := byHour[hour]];
      todo := todo - {hour};
    }
    assert done == byHour;
  }

  /** The ghost log is what the objects under the APIs hold. */
  class RequestStatistics {
    var totalRequests: int
    var successCount: int
    var failureCount: int
    var totalTokens: int
    var apis: map<string, ApiStats>
    var requestsByDay: map<int, int>
    var requestsByHour: map<int, int>
    var tokensByDay: map<int, int>
    var tokensByHour: map<int, int>
    ghost var log: map<string, ApiUsage>
    ghost var parts: set<object>

    constructor ()
      ensures Valid() && View() == EmptyStore && fresh(parts)
    {
      totalRequests, successCount, failureCount, totalTokens := 0, 0, 0, 0;
      apis, requestsByDay, requestsByHour, tokensByDay, tokensByHour := map[], map[], map[], map[], map[];
      log, parts := map[], {};
      new;
      EmptyBalanced();
    }

    ghost predicate Holds()
      reads this`apis, this`log, this`parts, parts
    {
      this !in parts && HoldApis(apis, log, parts, {})
    }

    ghost function TotalsView(): Totals
      reads this`totalRequests, this`successCount, this`failureCount, this`totalTokens,
            this`requestsByDay, this`requestsByHour, this`tokensByDay, this`tokensByHour
    {
      Totals(totalRequests, successCount, failureCount, totalTokens, requestsByDay, requestsByHour, tokensByDay,
             tokensByHour)
    }

    ghost function View(): Store
      reads this
    {
      Store(TotalsView(), log)
    }

    /** The request aggregates recount the log, and the token totals agree with each other. */
    ghost predicate Valid()
      reads this, parts
    {
      Holds() && RequestsBalanced(View()) && TokensSpread(View())
    }

    /** The statistics of an API, created when it is first seen. */
    method Open(api: string)
      requires Holds()
      modifies this`apis, this`log, this`parts
      ensures Holds() && fresh(parts - old(parts))
      ensures apis.Keys == old(apis.Keys) + {api} && log == Opened(old(log), api)
    {
      if api !in apis {
        var stats := new ApiStats();
        ApiAdded(apis, log, parts, api, stats);
        apis, log, parts := apis[api := stats], log[api := EmptyApi], parts + stats.repr;
      }
    }

    /** One more detail under an API. */
    method Update(api: string, model: string, d: Detail)
      requires Holds() && api in apis
      modifies this`log, this`parts, parts
      ensures Holds() && fresh(parts - old(parts))
      ensures log == AddToApis(old(log), api, model, d)
    {
      var stats := apis[api];
      ApiApart(apis, log, parts, api);
      ghost var rest := parts - stats.repr;
      UpdateApiStats(stats, model, d);
      assert HoldApis(apis, log, rest, {api});
      PutBack(api, rest);
    }

    /** The ghost log takes over what the updated statistics of an API hold. */
    ghost method PutBack(api: string, rest: set<object>)
      requires api in apis && HoldApis(apis, log, rest, {api}) && rest <= parts && this !in parts
      requires apis[api].Valid() && apis[api].repr !! rest && this !in apis[api].repr
      modifies this`log, this`parts
      ensures Holds() && parts == old(parts) + apis[api].repr && log == old(log)[api := apis[api].value]
    {
      ApiBack(apis, log, rest, api, parts + apis[api].repr);
      parts, log := parts + apis[api].repr, log[api := apis[api].value];
    }

    method UpdateKnown(api: string, model: string, d: Detail)
      requires Holds() && api in apis
      modifies this`log, this`parts, parts
      ensures Holds() && fresh(parts - old(parts))
      ensures log == AddToApis(old(log), api, model, d) && TotalsView() == old(TotalsView())
    {
      Update(api, model, d);
    }

    /** Adds to the totals, overall, by day and by hour; the log itself is updated beside it. */
    method CountIn(d: Detail, tokens: int)
      modifies this`totalRequests, this`successCount, this`failureCount, this`totalTokens,
               this`requestsByDay, this`requestsByHour, this`tokensByDay, this`tokensByHour
      ensures TotalsView() == Count(old(TotalsView()), d, tokens)
    {
      totalRequests := totalRequests + 1;
      if d.failed {
        failureCount := failureCount + 1;
      } else {
        successCount := successCount + 1;
      }
      totalTokens := totalTokens + tokens;
      requestsByDay := Plus(requestsByDay, Day(d.stamp), 1);
      requestsByHour := Plus(requestsByHour, Hour(d.stamp), 1);
      tokensByDay := Plus(tokensByDay, Day(d.stamp), tokens);
      tokensByHour := Plus(tokensByHour, Hour(d.stamp), tokens);
    }

    method CountAndUpdate(api: string, model: string, d: Detail)
      requires Holds()
      modifies this, parts
      ensures Holds() && fresh(parts - old(parts))
      ensures TotalsView() == Count(old(TotalsView()), d, d.tokens.total)
      ensures log == AddToApis(old(log), api, model, d)
    {
      CountIn(d, d.tokens.total);
      OpenAndUpdate(api, model, d);
    }

    method OpenAndUpdate(api: string, model: string, d: Detail)
      requires Holds()
      modifies this`apis, this`log, this`parts, parts
      ensures Holds() && fresh(parts - old(parts))
      ensures log == AddToApis(old(log), api, model, d) && TotalsView() == old(TotalsView())
    {
      OpenedThenAdded(log, api, model, d);
      Open(api);
      UpdateKnown(api, model, d);
    }

    /** Records one finished request. */
    method Record(enabled: bool, r: Record, now: Stamp)
      requires Valid()
      modifies this, parts
      ensures Valid() && fresh(parts - old(parts))
      ensures View() == if enabled then Recorded(old(View()), ApiOf(r), ModelOf(r), DetailOf(r, now)) else old(View())
      ensures if enabled then Books(old(View()), View(), r, now) else View() == old(View())
      ensures Carries(old(View()), RecordOp(enabled, r, now), View())
    {
      RecordBooks(View(), r, now);
      RecordCarries(View(), enabled, r, now);
      if enabled {
        RecordedKeeps(View(), ApiOf(r), ModelOf(r), DetailOf(r, now));
        CountAndUpdate(ApiOf(r), ModelOf(r), DetailOf(r, now));
      }
    }

    /** Records one merged detail under an API that is known already. */
    method RecordImported(api: string, model: string, d: Detail)
      requires Holds() && api in apis
      modifies this, parts
      ensures Holds() && apis == old(apis) && fresh(parts - old(parts))
      ensures View() == Imported(old(View()), api, model, d)
    {
      hide HoldApis, Count, AddToApis;
      var tokens := if d.tokens.total < 0 then 0 else d.tokens.total;
      CountIn(d, tokens);
      UpdateKnown(api, model, d);
    }

    /** A copy of everything, for use outside. */
    method Snapshot() returns (x: Exported)
      requires Valid()
      ensures Exports(View(), x)
    {
      var copied := CopyApis(apis, log, parts);
      var requests := ExportHours(requestsByHour);
      var tokens := ExportHours(tokensByHour);
      x := Exported(totalRequests, successCount, failureCount, totalTokens, requestsByDay, requests, tokensByDay,
                    tokens,
                    copied);
    }

    // -------------------------------------------------------------------------------------
    // Merging
    // -------------------------------------------------------------------------------------

    /** The account of a merge in progress stands for the present state. */
    ghost predicate Stands(pr: Progress, seen: set<string>, added: nat, skipped: nat)
      reads this, parts
    {
      Holds() && pr.store == View() && pr.seen == seen && pr.added == added && pr.skipped == skipped
    }

    /** Merges one incoming detail. */
    method MergeDetail(f: Keying, ghost pr0: Progress, api: string, model: string, d: Detail, seen0: set<string>,
                       added0: nat, skipped0: nat)
      returns (seen: set<string>, added: nat, skipped: nat)
      requires Stands(pr0, seen0, added0, skipped0) && api in apis
      modifies this, parts
      ensures apis == old(apis) && fresh(parts - old(parts))
      ensures Stands(MergeOne(f, pr0, api, model, d), seen, added, skipped)
    {
      seen, added, skipped := seen0, added0, skipped0;
      var key := f(api, model, d);
      if key in seen {
        skipped := skipped + 1;
      } else {
        seen := seen + {key};
        RecordImported(api, model, d);
        added := added + 1;
      }
    }

    /** Merges the detail at one place. */
    method MergePlace(f: Keying, ghost s0: Store, snapshot: map<string, ApiUsage>, clock: Clock,
                      ghost done0: set<Place>, ghost pr0: Progress,
                      p: Place, api: string, model: string, seen0: set<string>, added0: nat, skipped0: nat)
      returns (seen: set<string>, added: nat, skipped: nat, ghost pr: Progress)
      requires At(snapshot, p) && p !in done0
      requires api == Text.TrimSpace(p.api) && api in apis && model == ModelName(p.model)
      requires Stands(pr0, seen0, added0, skipped0) && Merging(f, s0, snapshot, clock, done0, pr0)
      modifies this, parts
      ensures apis == old(apis) && fresh(parts - old(parts))
      ensures Stands(pr, seen, added, skipped) && Merging(f, s0, snapshot, clock, done0 + {p}, pr)
    {
      MergeOneKeeps(f, s0, snapshot, clock, done0, pr0, p);
      var d := Prepared(DetailAt(snapshot, p), clock(p));
      seen, added, skipped := MergeDetail(f, pr0, api, model, d, seen0, added0, skipped0);
      pr := MergeOne(f, pr0, api, model, d);
    }

    /** Merges the next detail of one incoming model. */
    method MergeNth(f: Keying, ghost s0: Store, snapshot: map<string, ApiUsage>, clock: Clock, ghost done0: set<Place>,
                    ghost done1: set<Place>, ghost pr0: Progress,
                    rawApi: string, rawModel: string, i: nat, api: string, model: string, seen0: set<string>,
                        added0: nat, skipped0: nat)
      returns (seen: set<string>, added: nat, skipped: nat, ghost done: set<Place>, ghost pr: Progress)
      requires rawApi in snapshot && rawModel in snapshot[rawApi].models &&
               i < |snapshot[rawApi].models[rawModel].details|
      requires done0 !! ModelPlaces(snapshot, rawApi, {rawModel}) && done1 == done0 + FirstPlaces(rawApi, rawModel, i)
      requires api == Text.TrimSpace(rawApi) && api in apis && model == ModelName(rawModel)
      requires Stands(pr0, seen0, added0, skipped0) && Merging(f, s0, snapshot, clock, done1, pr0)
      modifies this, parts
      ensures apis == old(apis) && fresh(parts - old(parts))
      ensures done == done0 + FirstPlaces(rawApi, rawModel, i + 1)
      ensures Stands(pr, seen, added, skipped) && Merging(f, s0, snapshot, clock, done, pr)
    {
      var p := Place(rawApi, rawModel, i);
      PlaceReached(snapshot, done0, rawApi, rawModel, i);
      seen, added, skipped, pr := MergePlace(f, s0, snapshot, clock, done1, pr0, p, api, model, seen0, added0,
                                             skipped0);
      done := done1 + {p};
    }

    /** Merges the details of one incoming model. */
    method MergeModel(f: Keying, ghost s0: Store, snapshot: map<string, ApiUsage>, clock: Clock,
                      ghost done0: set<Place>, ghost pr0: Progress,
                      rawApi: string, rawModel: string, seen0: set<string>, added0: nat, skipped0: nat)
      returns (seen: set<string>, added: nat, skipped: nat, ghost done: set<Place>, ghost pr: Progress)
      requires rawApi in snapshot && rawModel in snapshot[rawApi].models && Text.TrimSpace(rawApi) in apis
      requires done0 !! ModelPlaces(snapshot, rawApi, {rawModel})
      requires Stands(pr0, seen0, added0, skipped0) && Merging(f, s0, snapshot, clock, done0, pr0)
      modifies this, parts
      ensures apis == old(apis) && fresh(parts - old(parts))
      ensures done == done0 + ModelPlaces(snapshot, rawApi, {rawModel})
      ensures Stands(pr, seen, added, skipped) && Merging(f, s0, snapshot, clock, done, pr)
    {
      var api := Text.TrimSpace(rawApi);
      var model := Text.TrimSpace(rawModel);
      if model == "" {
        model := "unknown";
      }
      hide Merging, HoldApis;
      seen, added, skipped, done, pr := seen0, added0, skipped0, done0, pr0;
      FirstPlacesAll(snapshot, rawApi, rawModel);
      var i := 0;
      while i < |snapshot[rawApi].models[rawModel].details|
        invariant 0 <= i <= |snapshot[rawApi].models[rawModel].details|
        invariant apis == old(apis) && fresh(parts - old(parts))
        invariant done == done0 + FirstPlaces(rawApi, rawModel, i)
        invariant Stands(pr, seen, added, skipped)
        invariant Merging(f, s0, snapshot, clock, done, pr)
      {
        seen, added, skipped, done, pr :=
            MergeNth(f, s0, snapshot, clock, done0, done, pr, rawApi, rawModel, i, api, model, seen, added, skipped);
        i := i + 1;
      }
    }

    method MergeNextModel(f: Keying, ghost s0: Store, snapshot: map<string, ApiUsage>, clock: Clock,
                          ghost done0: set<Place>, ghost done1: set<Place>, ghost pr0: Progress,
                          rawApi: string, ghost todo: set<string>, rawModel: string, seen0: set<string>, added0: nat,
                              skipped0: nat)
      returns (seen: set<string>, added: nat, skipped: nat, ghost done: set<Place>, ghost pr: Progress)
      requires rawApi in snapshot && todo <= snapshot[rawApi].models.Keys && rawModel in todo &&
               Text.TrimSpace(rawApi) in apis
      requires done0 !! ModelPlaces(snapshot, rawApi, snapshot[rawApi].models.Keys) &&
               done1 == ModelsDone(snapshot, rawApi, done0, todo)
      requires Stands(pr0, seen0, added0, skipped0) && Merging(f, s0, snapshot, clock, done1, pr0)
      modifies this, parts
      ensures apis == old(apis) && fresh(parts - old(parts))
      ensures done == ModelsDone(snapshot, rawApi, done0, todo - {rawModel})
      ensures Stands(pr, seen, added, skipped) && Merging(f, s0, snapshot, clock, done, pr)
    {
      ModelsStep(snapshot, rawApi, done0, todo, rawModel);
      seen, added, skipped, done, pr :=
          MergeModel(f, s0, snapshot, clock, done1, pr0, rawApi, rawModel, seen0, added0, skipped0);
    }

    method OpenFor(f: Keying, ghost s0: Store, snapshot: map<string, ApiUsage>, clock: Clock, ghost done: set<Place>,
                   ghost pr0: Progress,
                   api: string, seen: set<string>, added: nat, skipped: nat)
      returns (ghost pr: Progress)
      requires Stands(pr0, seen, added, skipped) && Merging(f, s0, snapshot, clock, done, pr0)
      modifies this`apis, this`log, this`parts
      ensures apis.Keys == old(apis.Keys) + {api} && fresh(parts - old(parts))
      ensures Stands(pr, seen, added, skipped) && Merging(f, s0, snapshot, clock, done, pr)
    {
      hide HoldApis, Merging;
      OpenKeeps(f, s0, snapshot, clock, done, pr0, api);
      Open(api);
      pr := OpenOne(pr0, api);
    }

    /** Merges the models of one incoming API. */
    method MergeApi(f: Keying, ghost s0: Store, snapshot: map<string, ApiUsage>, clock: Clock, ghost done0: set<Place>,
                    ghost pr0: Progress,
                    rawApi: string, seen0: set<string>, added0: nat, skipped0: nat)
      returns (seen: set<string>, added: nat, skipped: nat, ghost done: set<Place>, ghost pr: Progress)
      requires rawApi in snapshot
      requires done0 !! ModelPlaces(snapshot, rawApi, snapshot[rawApi].models.Keys)
      requires Stands(pr0, seen0, added0, skipped0) && Merging(f, s0, snapshot, clock, done0, pr0)
      modifies this, parts
      ensures apis.Keys == old(apis.Keys) + {Text.TrimSpace(rawApi)} && fresh(parts - old(parts))
      ensures done == done0 + ModelPlaces(snapshot, rawApi, snapshot[rawApi].models.Keys)
      ensures Stands(pr, seen, added, skipped) && Merging(f, s0, snapshot, clock, done, pr)
    {
      hide Merging, HoldApis;
      seen, added, skipped, done := seen0, added0, skipped0, done0;
      pr := OpenFor(f, s0, snapshot, clock, done, pr0, Text.TrimSpace(rawApi), seen, added, skipped);
      var todo := snapshot[rawApi].models.Keys;
      ModelsStart(snapshot, rawApi, done0);
      while todo != {}
        invariant todo <= snapshot[rawApi].models.Keys
        invariant apis.Keys == old(apis.Keys) + {Text.TrimSpace(rawApi)} && fresh(parts - old(parts))
        invariant done == ModelsDone(snapshot, rawApi, done0, todo)
        invariant Stands(pr, seen, added, skipped)
        invariant Merging(f, s0, snapshot, clock, done, pr)
        decreases todo
      {
        var rawModel :| rawModel in todo;
        seen, added, skipped, done, pr :=
            MergeNextModel(f, s0, snapshot, clock, done0, done, pr, rawApi, todo, rawModel, seen, added, skipped);
        todo := todo - {rawModel};
      }
    }

    /** Merges the incoming APIs. */
    method MergeApis(f: Keying, ghost s0: Store, snapshot: map<string, ApiUsage>, clock: Clock, ghost pr0: Progress,
                     seen0: set<string>)
      returns (seen: set<string>, added: nat, skipped: nat, ghost pr: Progress)
      requires Stands(pr0, seen0, 0, 0) && Merging(f, s0, snapshot, clock, {}, pr0)
      modifies this, parts
      ensures apis.Keys == old(apis.Keys) + NamesIn(snapshot.Keys) && fresh(parts - old(parts))
      ensures Stands(pr, seen, added, skipped) && Merging(f, s0, snapshot, clock, Usable(snapshot), pr)
    {
      hide Merging, HoldApis;
      seen, added, skipped, pr := seen0, 0, 0, pr0;
      ghost var done: set<Place> := {};
      ApisStart(snapshot);
      assert snapshot.Keys - snapshot.Keys == {} && snapshot.Keys - {} == snapshot.Keys;
      var todo := snapshot.Keys;
      while todo != {}
        invariant todo <= snapshot.Keys && fresh(parts - old(parts))
        invariant apis.Keys == old(apis.Keys) + NamesIn(snapshot.Keys - todo)
        invariant done == ApisDone(snapshot, todo)
        invariant Stands(pr, seen, added, skipped)
        invariant Merging(f, s0, snapshot, clock, done, pr)
        decreases todo
      {
        var api :| api in todo;
        ApisStep(snapshot, todo, api);
        NamesStep(snapshot.Keys, todo, api);
        if Text.TrimSpace(api) != "" {
          seen, added, skipped, done, pr := MergeApi(f, s0, snapshot, clock, done, pr, api, seen, added, skipped);
        }
        todo := todo - {api};
      }
    }

    method MergeAll(f: Keying, snapshot: map<string, ApiUsage>, clock: Clock)
      returns (seen: set<string>, added: nat, skipped: nat, ghost pr: Progress)
      requires Holds()
      modifies this, parts
      ensures apis.Keys == old(apis.Keys) + NamesIn(snapshot.Keys) && fresh(parts - old(parts))
      ensures Stands(pr, seen, added, skipped) && Merged(f, old(View()), snapshot, clock, pr)
    {
      seen := CollectSeen(f, apis, log, parts);
      MergeStarts(f, View(), snapshot, clock);
      seen, added, skipped, pr := MergeApis(f, View(), snapshot, clock, Progress(View(), seen, 0, 0, []), seen);
    }

    /** Merges an exported log: details that are stored already are skipped. The token totals stay recounts
        exactly when no negative total is new. */
    method MergeSnapshot(snapshot: map<string, ApiUsage>, clock: Clock)
      returns (added: nat, skipped: nat, ghost entries: seq<Entry>)
      requires Valid()
      modifies this, parts
      ensures Valid() && fresh(parts - old(parts))
      ensures log.Keys == old(log.Keys) + NamesIn(snapshot.Keys)
      ensures Merged(DedupKey, old(View()), snapshot, clock,
                     Progress(View(), StoredKeys(DedupKey, log), added, skipped, entries))
      ensures Carries(old(View()), MergeOp(snapshot, clock), View())
      ensures Excess(View()) == old(Excess(View())) + Clamping(entries)
      ensures old(TokensBalanced(View())) ==>
                (TokensBalanced(View()) <==> NegativesStored(DedupKey, old(log), snapshot, clock))
    {
      var seen;
      ghost var pr;
      seen, added, skipped, pr := MergeAll(DedupKey, snapshot, clock);
      entries := pr.entries;
      assert MergesBy(old(View()), snapshot, clock, View(), pr);
      DedupKeyTellsTotal();
      MergeKeepsRequests(DedupKey, old(View()), snapshot, clock, pr);
      MergeKeepsTokensIff(DedupKey, old(View()), snapshot, clock, pr);
    }
  }
}
