/** The statistics of models and APIs as objects that are updated in place. */
module UsageObjects {
  import opened UsageModel

  class ModelStats {
    var totalRequests: int
    var totalTokens: int
    var details: seq<Detail>

    constructor ()
      ensures View() == EmptyModel
    {
      totalRequests, totalTokens, details := 0, 0, [];
    }

    ghost function View(): ModelUsage
      reads this
    {
      ModelUsage(totalRequests, totalTokens, details)
    }

    method Add(d: Detail)
      modifies this
      ensures View() == AddToModel(old(View()), d)
    {
      totalRequests := totalRequests + 1;
      totalTokens := totalTokens + d.tokens.total;
      details := details + [d];
    }
  }

  ghost predicate HoldsModel(o: ModelStats, u: ModelUsage, parts: set<object>)
    reads parts
  {
    o in parts && o.View() == u
  }

  /** Different objects with the given values, but for the one under a key that is left open. */
  ghost predicate HoldModels(models: map<string, ModelStats>, values: map<string, ModelUsage>, parts: set<object>,
                             open: set<string>)
    reads parts
  {
    && models.Keys == values.Keys
    && (forall m :: m in models && m !in open ==> HoldsModel(models[m], values[m], parts))
    && (forall m, n :: m in models && n in models && m != n ==> models[m] != models[n])
  }

  /** The ghost value is what the object and its models hold. */
  class ApiStats {
    var totalRequests: int
    var totalTokens: int
    var models: map<string, ModelStats>
    ghost var value: ApiUsage
    ghost var repr: set<object>

    constructor ()
      ensures Valid() && value == EmptyApi && fresh(repr)
    {
      totalRequests, totalTokens, models, value, repr := 0, 0, map[], EmptyApi, {this};
    }

    ghost predicate Valid()
      reads this, repr
    {
      && this in repr
      && value.requests == totalRequests && value.tokens == totalTokens
      && HoldModels(models, value.models, repr - {this}, {})
    }

    /** The statistics of a model, created when it is first seen. */
    method Open(model: string)
      requires Valid()
      modifies this
      ensures Valid() && fresh(repr - old(repr))
      ensures model in models && value == old(value).(models := old(value.models)[model := old(ModelAt(value, model))])
    {
      if model !in models {
        var m := new ModelStats();
        ModelAdded(models, value.models, repr - {this}, model, m);
        models := models[model := m];
        repr := repr + {m};
        value := value.(models := value.models[model := EmptyModel]);
      } else {
        assert value.models[model := value.models[model]] == value.models;
      }
    }
  }

  lemma ModelAdded(models: map<string, ModelStats>, values: map<string, ModelUsage>, parts: set<object>, model: string,
                   o: ModelStats)
    requires HoldModels(models, values, parts, {}) && model !in models && o !in parts && o.View() == EmptyModel
    ensures HoldModels(models[model := o], values[model := EmptyModel], parts + {o}, {})
  {
    forall m | m in models
      ensures HoldsModel(models[m], values[m], parts) && models[m] != o
    {
      assert HoldsModel(models[m], values[m], parts);
    }
  }

  /** Changing one object leaves the others as they are. */
  lemma ModelApart(models: map<string, ModelStats>, values: map<string, ModelUsage>, parts: set<object>, model: string)
    requires HoldModels(models, values, parts, {}) && model in models
    ensures HoldsModel(models[model], values[model], parts)
    ensures HoldModels(models, values, parts - {models[model]}, {model})
  {
    assert HoldsModel(models[model], values[model], parts);
    forall m | m in models && m != model
      ensures HoldsModel(models[m], values[m], parts - {models[model]})
    {
      assert HoldsModel(models[m], values[m], parts);
    }
  }

  lemma ModelBack(models: map<string, ModelStats>, values: map<string, ModelUsage>, rest: set<object>, model: string,
                  parts: set<object>)
    requires model in models && HoldModels(models, values, rest, {model})
    requires rest <= parts && models[model] in parts
    ensures HoldModels(models, values[model := models[model].View()], parts, {})
  {
    forall m | m in models && m != model
      ensures HoldsModel(models[m], values[m], parts)
    {
      assert HoldsModel(models[m], values[m], rest);
    }
  }

  lemma AddedToOpened(a: ApiUsage, model: string, d: Detail)
    ensures var o := a.(models := a.models[model := ModelAt(a, model)]);
      AddToApi(a, model, d) == ApiUsage(o.requests + 1, o.tokens + d.tokens.total,
                                        o.models[model := AddToModel(o.models[model], d)])
  {
    var m := ModelAt(a, model);
    assert a.models[model := m][model := AddToModel(m, d)] == a.models[model := AddToModel(m, d)];
  }

  /** One more detail under a model of an API. */
  method UpdateApiStats(stats: ApiStats, model: string, d: Detail)
    requires stats.Valid()
    modifies stats, stats.repr
    ensures stats.Valid() && fresh(stats.repr - old(stats.repr))
    ensures stats.value == AddToApi(old(stats.value), model, d)
  {
    AddedToOpened(stats.value, model, d);
    stats.totalRequests := stats.totalRequests + 1;
    stats.totalTokens := stats.totalTokens + d.tokens.total;
    stats.value := stats.value.(requests := stats.totalRequests, tokens := stats.totalTokens);
    stats.Open(model);
    UpdateModel(stats, model, d);
  }

  method UpdateModel(stats: ApiStats, model: string, d: Detail)
    requires stats.Valid() && model in stats.models
    modifies stats`value, stats.models[model]
    ensures stats.Valid() && model in old(stats.value.models)
    ensures stats.value == old(stats.value).(models :=
                                             old(stats.value.models)[model :=
                                                                     AddToModel(old(stats.value.models)[model], d)])
  {
    ghost var values, parts := stats.value.models, stats.repr - {stats};
    var m := stats.models[model];
    ModelApart(stats.models, values, parts, model);
    m.Add(d);
    assert HoldModels(stats.models, values, parts - {m}, {model});
    ModelBack(stats.models, values, parts - {m}, model, parts);
    stats.value := stats.value.(models := values[model := m.View()]);
  }

  // ---------------------------------------------------------------------------------------
  // APIs
  // ---------------------------------------------------------------------------------------

  ghost predicate HoldsApi(o: ApiStats, u: ApiUsage, parts: set<object>)
    reads parts
  {
    o in parts && o.repr <= parts && o.Valid() && o.value == u
  }

  /** Objects without common parts and with the given values, but for the ones that are left open. */
  ghost predicate HoldApis(apis: map<string, ApiStats>, log: map<string, ApiUsage>, parts: set<object>,
                           open: set<string>)
    reads parts
  {
    && apis.Keys == log.Keys
    && (forall a :: a in apis && a !in open ==> HoldsApi(apis[a], log[a], parts))
    && (forall a, b :: a in apis && b in apis && a != b && a !in open && b !in open ==> apis[a].repr !! apis[b].repr)
  }

  lemma ApiApart(apis: map<string, ApiStats>, log: map<string, ApiUsage>, parts: set<object>, api: string)
    requires HoldApis(apis, log, parts, {}) && api in apis
    ensures HoldsApi(apis[api], log[api], parts)
    ensures HoldApis(apis, log, parts - apis[api].repr, {api})
  {
    assert HoldsApi(apis[api], log[api], parts);
    forall a | a in apis && a != api
      ensures HoldsApi(apis[a], log[a], parts - apis[api].repr)
    {
      assert HoldsApi(apis[a], log[a], parts);
      assert apis[a].repr !! apis[api].repr;
    }
  }

  lemma ApiBack(apis: map<string, ApiStats>, log: map<string, ApiUsage>, rest: set<object>, api: string,
                parts: set<object>)
    requires api in apis && HoldApis(apis, log, rest, {api})
    requires apis[api].Valid() && apis[api].repr !! rest && rest + apis[api].repr <= parts
    ensures HoldApis(apis, log[api := apis[api].value], parts, {})
  {
    forall a | a in apis && a != api
      ensures HoldsApi(apis[a], log[a], parts) && apis[a].repr <= rest
    {
      assert HoldsApi(apis[a], log[a], rest);
    }
  }

  lemma ApiAdded(apis: map<string, ApiStats>, log: map<string, ApiUsage>, parts: set<object>, api: string, o: ApiStats)
    requires HoldApis(apis, log, parts, {}) && api !in apis
    requires o.Valid() && o.value == EmptyApi && o.repr !! parts
    ensures HoldApis(apis[api := o], log[api := EmptyApi], parts + o.repr, {})
  {
    forall a | a in apis
      ensures HoldsApi(apis[a], log[a], parts + o.repr) && apis[a].repr <= parts
    {
      assert HoldsApi(apis[a], log[a], parts);
    }
  }

  // ---------------------------------------------------------------------------------------
  // Copies
  // ---------------------------------------------------------------------------------------

  lemma RestOneMore<K, V>(all: map<K, V>, todo: set<K>, k: K)
    requires k in todo && k in all
    ensures (all - todo)[k := all[k]] == all - (todo - {k})
  {
  }

  /** A copy of the statistics of an API that shares nothing with it. */
  method CopyApi(o: ApiStats) returns (u: ApiUsage)
    requires o.Valid()
    ensures u == o.value
  {
    var copied: map<string, ModelUsage> := map[];
    var todo := o.models.Keys;
    assert o.value.models - todo == map[];
    while todo != {}
      invariant todo <= o.value.models.Keys && copied == o.value.models - todo
      decreases todo
    {
      var m :| m in todo;
      ModelApart(o.models, o.value.models, o.repr - {o}, m);
      RestOneMore(o.value.models, todo, m);
      copied := copied[m := ModelUsage(o.models[m].totalRequests, o.models[m].totalTokens, o.models[m].details)];
      todo := todo - {m};
    }
    assert o.value.models - todo == o.value.models;
    u := ApiUsage(o.totalRequests, o.totalTokens, copied);
  }

  method CopyApis(apis: map<string, ApiStats>, ghost log: map<string, ApiUsage>, ghost parts: set<object>)
    returns (copied: map<string, ApiUsage>)
    requires HoldApis(apis, log, parts, {})
    ensures copied == log
  {
    copied := map[];
    var todo := apis.Keys;
    assert log - todo == map[];
    while todo != {}
      invariant todo <= log.Keys && copied == log - todo
      decreases todo
    {
      var a :| a in todo;
      ApiApart(apis, log, parts, a);
      RestOneMore(log, todo, a);
      var u := CopyApi(apis[a]);
      copied := copied[a := u];
      todo := todo - {a};
    }
    assert log - todo == log;
  }
}
