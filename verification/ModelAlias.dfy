/** Renaming and forking of listed models by configured aliases. */
module ModelAlias {
  import opened Collections
  import opened RegistryModel
  import Text

  datatype Rule = Rule(name: string, alias: string, fork: bool)

  datatype Entry = Entry(alias: string, fork: bool)

  /** Model ids are compared trimmed and without regard to case. */
  function KeyOf(id: string): string {
    Text.ToLower(Text.TrimSpace(id))
  }

  function Entries(forward: map<string, seq<Entry>>, key: string): seq<Entry> {
    if key in forward then forward[key] else []
  }

  /** The usable rules by the key of the model they apply to. */
  function Forward(rules: seq<Rule>): (forward: map<string, seq<Entry>>)
    ensures forall k :: k in forward ==> forward[k] != []
    ensures forall k, e :: k in forward && e in forward[k] ==> UsableFor(e, k)
  {
    if rules == [] then map[]
    else
      var rest := Forward(rules[..|rules| - 1]);
      var rule := rules[|rules| - 1];
      var name, alias := Text.TrimSpace(rule.name), Text.TrimSpace(rule.alias);
      Text.TrimSpaceIdempotent(rule.alias);
      if name == "" || alias == "" || Text.EqualFold(name, alias) then rest
      else rest[Text.ToLower(name) := Entries(rest, Text.ToLower(name)) + [Entry(alias, rule.fork)]]
  }

  /** How the display name of a renamed model follows its id. */
  function RewriteName(name: string, oldID: string, newID: string): string {
    var trimmed, from, to := Text.TrimSpace(name), Text.TrimSpace(oldID), Text.TrimSpace(newID);
    if trimmed == "" || from == "" || to == "" || Text.EqualFold(from, to) then name
    else if Text.EqualFold(trimmed, from) then to
    else if |trimmed| > |from| && trimmed[|trimmed| - |from| - 1..] == "/" + from then
        trimmed[..|trimmed| - |from|] + to
    else name
  }

  function Clone(m: ModelInfo, alias: string): ModelInfo {
    m.(id := alias, name := if m.name != "" then RewriteName(m.name, Text.TrimSpace(m.id), alias) else m.name)
  }

  // ---------------------------------------------------------------------------------------
  // The rules, in terms of the configured texts
  // ---------------------------------------------------------------------------------------

  /** The positions of the rules for a model key: name and alias are not blank and differ in more than case, and the
      name, trimmed and in lower case, is the key. */
  function RulePositions(rules: seq<Rule>, key: string): set<nat> {
    set i: nat | i < |rules| && AppliesTo(rules[i], key) :: i
  }

  predicate AppliesTo(rule: Rule, key: string) {
    var name, alias := Text.TrimSpace(rule.name), Text.TrimSpace(rule.alias);
    name != "" && alias != "" && Text.ToLower(name) != Text.ToLower(alias) && Text.ToLower(name) == key
  }

  /** The entries of a key: the trimmed alias and the fork flag of each of its rules, in order. */
  ghost predicate EntriesOf(entries: seq<Entry>, rules: seq<Rule>, key: string, ps: seq<nat>) {
    && Enumerates(ps, RulePositions(rules, key)) && |entries| == |ps|
    && forall k :: 0 <= k < |ps| ==>
         ps[k] < |rules| && entries[k] == Entry(Text.TrimSpace(rules[ps[k]].alias), rules[ps[k]].fork)
  }

  lemma EntriesMore(entries: seq<Entry>, rules: seq<Rule>, key: string, ps: seq<nat>)
    requires rules != [] && EntriesOf(entries, rules[..|rules| - 1], key, ps)
    ensures var n := |rules| - 1;
      if AppliesTo(rules[n], key)
      then EntriesOf(entries + [Entry(Text.TrimSpace(rules[n].alias), rules[n].fork)], rules, key, ps + [n])
      else EntriesOf(entries, rules, key, ps)
  {
    hide AppliesTo;
    var n := |rules| - 1;
    var before, after := RulePositions(rules[..n], key), RulePositions(rules, key);
    assert forall k :: 0 <= k < n ==> rules[..n][k] == rules[k];
    if AppliesTo(rules[n], key) {
      assert after == before + {n};
      EnumeratesMore(ps, before, n);
    } else {
      assert after == before;
    }
  }

  lemma ForwardStep(rules: seq<Rule>, key: string)
    requires rules != []
    ensures var n := |rules| - 1;
      Entries(Forward(rules), key) == Entries(Forward(rules[..n]), key) +
        if AppliesTo(rules[n], key) then [Entry(Text.TrimSpace(rules[n].alias), rules[n].fork)] else []
  {
  }

  lemma {:induction false} ForwardIs(rules: seq<Rule>, key: string) returns (ps: seq<nat>)
    ensures EntriesOf(Entries(Forward(rules), key), rules, key, ps)
  {
    ps := [];
    if rules != [] {
      hide AppliesTo, EntriesOf, Entries, Forward;
      var n := |rules| - 1;
      ps := ForwardIs(rules[..n], key);
      ForwardStep(rules, key);
      var before := Entries(Forward(rules[..n]), key);
      EntriesMore(before, rules, key, ps);
      assert before + [] == before;
      ps := if AppliesTo(rules[n], key) then ps + [n] else ps;
    }
  }

  /** Without a rule for any key nothing is renamed. */
  lemma ForwardEmptyIff(rules: seq<Rule>)
    ensures Forward(rules) == map[] <==> forall i, key :: 0 <= i < |rules| ==> !AppliesTo(rules[i], key)
  {
    if Forward(rules) == map[] {
      forall i, key | 0 <= i < |rules|
        ensures !AppliesTo(rules[i], key)
      {
        var ps := ForwardIs(rules, key);
        assert i in RulePositions(rules, key) ==> i in ps;
      }
    } else {
      var key :| key in Forward(rules);
      var ps := ForwardIs(rules, key);
      assert ps[0] in ps;
      assert AppliesTo(rules[ps[0]], key);
    }
  }

  /** A renamed copy has the alias as its id and keeps its creation time and other details. The old id in its name,
      alone
      or after a slash, becomes the alias. */
  lemma CloneIs(m: ModelInfo, alias: string, prefix: string)
    requires var id := Text.TrimSpace(m.id); id != "" && Text.ToLower(id) != Text.ToLower(alias)
    requires Text.TrimSpace(alias) == alias != ""
    ensures var c := Clone(m, alias); c.id == alias && c.created == m.created && c.details == m.details
    ensures m.name == "" ==> Clone(m, alias).name == ""
    ensures Text.TrimSpace(m.name) == Text.TrimSpace(m.id) ==> Clone(m, alias).name == alias
    ensures Text.TrimSpace(m.name) == prefix + ("/" + Text.TrimSpace(m.id)) ==>
              Clone(m, alias).name == prefix + ("/" + alias)
  {
    hide RewriteName, Text.ToLower;
    var id := Text.TrimSpace(m.id);
    Text.TrimSpaceIdempotent(m.id);
    if Text.TrimSpace(m.name) == id {
      WholeNameRewritten(m.name, id, alias);
    } else if Text.TrimSpace(m.name) == prefix + ("/" + id) {
      EndOfNameRewritten(prefix, m.name, id, alias);
    }
  }

  /** A name that is the old id, whatever its case, becomes the new one. */
  lemma WholeNameRewritten(name: string, oldID: string, newID: string)
    requires Text.TrimSpace(oldID) == oldID != "" && Text.TrimSpace(newID) == newID != ""
    requires Text.ToLower(oldID) != Text.ToLower(newID)
    requires Text.TrimSpace(name) != "" && Text.ToLower(Text.TrimSpace(name)) == Text.ToLower(oldID)
    ensures RewriteName(name, oldID, newID) == newID
  {
  }

  /** One that ends in a slash and the old id gets the new one in its place. */
  lemma EndOfNameRewritten(prefix: string, name: string, oldID: string, newID: string)
    requires Text.TrimSpace(oldID) == oldID != "" && Text.TrimSpace(newID) == newID != ""
    requires Text.ToLower(oldID) != Text.ToLower(newID)
    requires Text.TrimSpace(name) == prefix + ("/" + oldID)
    ensures RewriteName(name, oldID, newID) == prefix + ("/" + newID)
  {
    hide Text.TrimSpace, Text.ToLower;
    var t := Text.TrimSpace(name);
    LongerFolds(t, oldID);
    EndCut(prefix, oldID, newID);
  }

  lemma EndCut(prefix: string, oldID: string, newID: string)
    ensures var t := prefix + ("/" + oldID);
            t[|t| - |oldID| - 1..] == "/" + oldID && t[..|t| - |oldID|] + newID == prefix + ("/" + newID)
  {
    var t := prefix + ("/" + oldID);
    assert t[..|t| - |oldID|] == prefix + "/";
  }

  lemma LongerFolds(a: string, b: string)
    requires |a| != |b|
    ensures !Text.EqualFold(a, b)
  {
    Text.ToLowerAt(a);
    Text.ToLowerAt(b);
  }

  /** Any other name stays. */
  lemma OtherNameStays(name: string, oldID: string, newID: string)
    requires Text.TrimSpace(oldID) == oldID != "" && Text.TrimSpace(newID) == newID != ""
    requires Text.ToLower(Text.TrimSpace(name)) != Text.ToLower(oldID)
    requires forall prefix: string :: Text.TrimSpace(name) != prefix + ("/" + oldID)
    ensures RewriteName(name, oldID, newID) == name
  {
    var t := Text.TrimSpace(name);
    if |t| > |oldID| {
      var prefix := t[..|t| - |oldID| - 1];
      assert t == prefix + t[|t| - |oldID| - 1..];
    }
  }

  predicate Named(m: Option<ModelInfo>) {
    m.Some? && Text.TrimSpace(m.value.id) != ""
  }

  /** The alias of a usable rule differs from the id it applies to and is already trimmed. */
  predicate UsableFor(e: Entry, key: string) {
    e.alias != "" && Text.TrimSpace(e.alias) == e.alias && Text.ToLower(e.alias) != key
  }

  predicate Forks(entries: seq<Entry>) {
    exists i :: 0 <= i < |entries| && entries[i].fork
  }

  // ---------------------------------------------------------------------------------------
  // What is listed
  // ---------------------------------------------------------------------------------------

  function Keys(out: seq<ModelInfo>): set<string> {
    set i | 0 <= i < |out| :: KeyOf(out[i].id)
  }

  /** A model, unless its key is taken. */
  function Fresh(m: ModelInfo, taken: set<string>): seq<ModelInfo> {
    if KeyOf(m.id) in taken then [] else [m]
  }

  /** The renamed copies of a model whose keys are not taken, in the order of its rules. */
  function NewAliases(m: ModelInfo, entries: seq<Entry>, taken: set<string>): seq<ModelInfo> {
    if entries == [] then []
    else
      var n := |entries| - 1;
      var before := NewAliases(m, entries[..n], taken);
      before + Fresh(Clone(m, entries[n].alias), taken + Keys(before))
  }

  /** What one model adds to the list: itself, if no rule applies or one forks it, and its new aliases; itself
      again when no alias is new. */
  function Added(m: ModelInfo, entries: seq<Entry>, taken: set<string>): seq<ModelInfo> {
    if entries == [] then Fresh(m, taken)
    else if Forks(entries) then Fresh(m, taken) + NewAliases(m, entries, taken + Keys(Fresh(m, taken)))
    else if NewAliases(m, entries, taken) == [] then Fresh(m, taken)
    else NewAliases(m, entries, taken)
  }

  /** What the first models add, one after the other. */
  function Output(models: seq<Option<ModelInfo>>, n: nat, forward: map<string, seq<Entry>>): seq<ModelInfo>
    requires n <= |models|
  {
    if n == 0 then []
    else
      var before := Output(models, n - 1, forward);
      if Named(models[n - 1]) then
        before + Added(models[n - 1].value, Entries(forward, KeyOf(models[n - 1].value.id)), Keys(before))
      else before
  }

  // ---------------------------------------------------------------------------------------
  // What the list satisfies
  // ---------------------------------------------------------------------------------------

  ghost predicate DistinctKeys(out: seq<ModelInfo>) {
    forall i, j :: 0 <= i < j < |out| ==> KeyOf(out[i].id) != KeyOf(out[j].id)
  }

  lemma KeysConcat(a: seq<ModelInfo>, b: seq<ModelInfo>)
    ensures Keys(a + b) == Keys(a) + Keys(b)
    ensures DistinctKeys(a) && DistinctKeys(b) && Keys(a) !! Keys(b) ==> DistinctKeys(a + b)
  {
    var c := a + b;
    forall k
      ensures k in Keys(c) <==> k in Keys(a) || k in Keys(b)
    {
      if k in Keys(a) {
        var i :| 0 <= i < |a| && KeyOf(a[i].id) == k;
        assert KeyOf(c[i].id) == k;
      }
      if k in Keys(b) {
        var i :| 0 <= i < |b| && KeyOf(b[i].id) == k;
        assert KeyOf(c[|a| + i].id) == k;
      }
      if k in Keys(c) {
        var i :| 0 <= i < |c| && KeyOf(c[i].id) == k;
        assert i < |a| ==> KeyOf(a[i].id) == k;
        assert i >= |a| ==> KeyOf(b[i - |a|].id) == k;
      }
    }
    if DistinctKeys(a) && DistinctKeys(b) && Keys(a) !! Keys(b) {
      forall i, j | 0 <= i < j < |c|
        ensures KeyOf(c[i].id) != KeyOf(c[j].id)
      {
        if i < |a| <= j {
          assert KeyOf(a[i].id) in Keys(a) && KeyOf(b[j - |a|].id) in Keys(b);
        }
      }
    }
  }

  lemma FreshKeys(m: ModelInfo, taken: set<string>)
    ensures Keys(Fresh(m, taken)) == {KeyOf(m.id)} - taken && DistinctKeys(Fresh(m, taken))
  {
    assert Fresh(m, taken) != [] ==> KeyOf(Fresh(m, taken)[0].id) in Keys(Fresh(m, taken));
  }

  function AliasKeys(entries: seq<Entry>): set<string> {
    set i | 0 <= i < |entries| :: KeyOf(entries[i].alias)
  }

  lemma {:induction false} NewAliasKeys(m: ModelInfo, entries: seq<Entry>, taken: set<string>)
    ensures Keys(NewAliases(m, entries, taken)) == AliasKeys(entries) - taken
    ensures DistinctKeys(NewAliases(m, entries, taken))
    ensures NewAliases(m, entries, taken) == [] <==> AliasKeys(entries) <= taken
  {
    hide Keys, KeyOf, RewriteName, Fresh, DistinctKeys;
    var out := NewAliases(m, entries, taken);
    NoKeys(out);
    if entries == [] {
      assert AliasKeys(entries) == {};
    } else {
      var n := |entries| - 1;
      var before := NewAliases(m, entries[..n], taken);
      var o := Clone(m, entries[n].alias);
      NewAliasKeys(m, entries[..n], taken);
      FreshKeys(o, taken + Keys(before));
      KeysConcat(before, Fresh(o, taken + Keys(before)));
      AliasKeysStep(entries);
    }
  }

  lemma NoKeys(out: seq<ModelInfo>)
    ensures out == [] <==> Keys(out) == {}
    ensures out == [] ==> DistinctKeys(out)
  {
    if out != [] {
      assert KeyOf(out[0].id) in Keys(out);
    }
  }

  lemma AliasKeysStep(entries: seq<Entry>)
    requires entries != []
    ensures AliasKeys(entries) == AliasKeys(entries[..|entries| - 1]) + {KeyOf(entries[|entries| - 1].alias)}
  {
    var n := |entries| - 1;
    forall k | k in AliasKeys(entries[..n]) + {KeyOf(entries[n].alias)}
      ensures k in AliasKeys(entries)
    {
      if k in AliasKeys(entries[..n]) {
        var i :| 0 <= i < n && KeyOf(entries[..n][i].alias) == k;
        assert KeyOf(entries[i].alias) == k;
      }
    }
    forall k | k in AliasKeys(entries)
      ensures k in AliasKeys(entries[..n]) + {KeyOf(entries[n].alias)}
    {
      var i :| 0 <= i < |entries| && KeyOf(entries[i].alias) == k;
      assert i < n ==> KeyOf(entries[..n][i].alias) == k;
    }
  }

  /** The model stays listed under its own id: no rule applies, one forks it, or every alias is taken. */
  predicate Stays(entries: seq<Entry>, taken: set<string>) {
    entries == [] || Forks(entries) || AliasKeys(entries) <= taken
  }

  /** A model adds its aliases, and its own key exactly when it stays listed. */
  lemma AddedKeys(m: ModelInfo, entries: seq<Entry>, taken: set<string>)
    ensures Keys(Added(m, entries, taken)) ==
            AliasKeys(entries) + (if Stays(entries, taken) then {KeyOf(m.id)} else {}) - taken
    ensures DistinctKeys(Added(m, entries, taken))
  {
    var own := Fresh(m, taken);
    FreshKeys(m, taken);
    if Forks(entries) {
      NewAliasKeys(m, entries, taken + Keys(own));
      KeysConcat(own, NewAliases(m, entries, taken + Keys(own)));
    } else {
      NewAliasKeys(m, entries, taken);
    }
  }

  lemma {:induction false} OutputDistinct(models: seq<Option<ModelInfo>>, n: nat, forward: map<string, seq<Entry>>)
    requires n <= |models|
    ensures DistinctKeys(Output(models, n, forward))
  {
    if n > 0 {
      OutputDistinct(models, n - 1, forward);
      OutputStep(models, n, forward);
    }
  }

  /** How the keys grow with one more model. */
  lemma OutputStep(models: seq<Option<ModelInfo>>, n: nat, forward: map<string, seq<Entry>>)
    requires 0 < n <= |models|
    ensures var before, after := Output(models, n - 1, forward), Output(models, n, forward);
      && before <= after && (DistinctKeys(before) ==> DistinctKeys(after))
      && Keys(after) == Keys(before) +
         if !Named(models[n - 1]) then {}
         else
           var m := models[n - 1].value;
           var entries := Entries(forward, KeyOf(m.id));
           AliasKeys(entries) + if Stays(entries, Keys(before)) then {KeyOf(m.id)} else {}
  {
    var before := Output(models, n - 1, forward);
    if Named(models[n - 1]) {
      var m := models[n - 1].value;
      var entries := Entries(forward, KeyOf(m.id));
      AddedKeys(m, entries, Keys(before));
      KeysConcat(before, Added(m, entries, Keys(before)));
    }
  }

  lemma {:induction false} OutputGrows(models: seq<Option<ModelInfo>>, n: nat, k: nat, forward: map<string, seq<Entry>>)
    requires n <= k <= |models|
    ensures Output(models, n, forward) <= Output(models, k, forward)
    ensures Keys(Output(models, n, forward)) <= Keys(Output(models, k, forward))
    decreases k
  {
    if n < k {
      OutputGrows(models, n, k - 1, forward);
      OutputStep(models, k, forward);
    }
  }

  /** After its turn a named model is listed under its id exactly when the id was taken by then, no rule
      applies to it, one of its rules forks it, or all its aliases were taken. Its aliases are listed always. */
  lemma ListedIff(models: seq<Option<ModelInfo>>, rules: seq<Rule>, n: nat)
    requires n < |models| && Named(models[n])
    ensures var forward, m := Forward(rules), models[n].value;
      var entries, taken := Entries(forward, KeyOf(m.id)), Keys(Output(models, n, forward));
      && (KeyOf(m.id) in Keys(Output(models, n + 1, forward)) <==> KeyOf(m.id) in taken || Stays(entries, taken))
      && AliasKeys(entries) <= Keys(Output(models, n + 1, forward))
  {
    var forward, m := Forward(rules), models[n].value;
    var entries := Entries(forward, KeyOf(m.id));
    OutputStep(models, n + 1, forward);
    forall i | 0 <= i < |entries|
      ensures KeyOf(entries[i].alias) != KeyOf(m.id)
    {
      assert entries[i] in entries && UsableFor(entries[i], KeyOf(m.id));
    }
  }

  /** An output model is an input model or a renamed copy of one under one of its aliases. */
  predicate From(o: ModelInfo, m: ModelInfo, entries: seq<Entry>) {
    o == m || exists i :: 0 <= i < |entries| && o == Clone(m, entries[i].alias)
  }

  lemma {:induction false} NewAliasesFrom(m: ModelInfo, entries: seq<Entry>, taken: set<string>, o: ModelInfo)
    requires o in NewAliases(m, entries, taken)
    ensures exists i :: 0 <= i < |entries| && o == Clone(m, entries[i].alias)
  {
    var n := |entries| - 1;
    if o in NewAliases(m, entries[..n], taken) {
      NewAliasesFrom(m, entries[..n], taken, o);
      var i :| 0 <= i < n && o == Clone(m, entries[..n][i].alias);
      assert o == Clone(m, entries[i].alias);
    }
  }

  lemma AddedFrom(m: ModelInfo, entries: seq<Entry>, taken: set<string>, o: ModelInfo)
    requires o in Added(m, entries, taken)
    ensures From(o, m, entries)
  {
    var more := taken + Keys(Fresh(m, taken));
    if o in NewAliases(m, entries, more) {
      NewAliasesFrom(m, entries, more, o);
    } else if o in NewAliases(m, entries, taken) {
      NewAliasesFrom(m, entries, taken, o);
    }
  }

  /** The input model that an output model comes from. */
  predicate ComesFrom(o: ModelInfo, models: seq<Option<ModelInfo>>, i: nat, forward: map<string, seq<Entry>>) {
    i < |models| && Named(models[i]) && From(o, models[i].value, Entries(forward, KeyOf(models[i].value.id)))
  }

  /** Each output model comes from the input at its source, and the sources follow the order of the input. */
  ghost predicate FollowsInput(out: seq<ModelInfo>, sources: seq<nat>, models: seq<Option<ModelInfo>>, n: nat,
                               forward: map<string, seq<Entry>>) {
    && |sources| == |out|
    && (forall j :: 0 <= j < |sources| ==> sources[j] < n && ComesFrom(out[j], models, sources[j], forward))
    && (forall j, k :: 0 <= j < k < |sources| ==> sources[j] <= sources[k])
  }

  lemma FollowsMore(out: seq<ModelInfo>, sources: seq<nat>, models: seq<Option<ModelInfo>>, n: nat,
                    forward: map<string, seq<Entry>>, added: seq<ModelInfo>)
    requires n > 0 && FollowsInput(out, sources, models, n - 1, forward)
    requires forall j :: 0 <= j < |added| ==> ComesFrom(added[j], models, n - 1, forward)
    ensures FollowsInput(out + added, sources + seq(|added|, j => n - 1), models, n, forward)
  {
    hide ComesFrom;
  }

  /** The list follows the order of the input. */
  lemma {:induction false} InOrder(models: seq<Option<ModelInfo>>, n: nat, forward: map<string, seq<Entry>>)
    returns (sources: seq<nat>)
    requires n <= |models|
    ensures FollowsInput(Output(models, n, forward), sources, models, n, forward)
  {
    hide FollowsInput, ComesFrom, Added;
    if n == 0 {
      sources := [];
      NothingFollows(models, forward);
    } else {
      sources := InOrder(models, n - 1, forward);
      var added := [];
      if Named(models[n - 1]) {
        added := AddedBy(models, n, forward);
      }
      FollowsMore(Output(models, n - 1, forward), sources, models, n, forward, added);
      assert Output(models, n, forward) == Output(models, n - 1, forward) + added;
      sources := sources + seq(|added|, j => n - 1);
    }
  }

  lemma NothingFollows(models: seq<Option<ModelInfo>>, forward: map<string, seq<Entry>>)
    ensures FollowsInput([], [], models, 0, forward)
  {
  }

  lemma AddedBy(models: seq<Option<ModelInfo>>, n: nat, forward: map<string, seq<Entry>>)
    returns (added: seq<ModelInfo>)
    requires 0 < n <= |models| && Named(models[n - 1])
    ensures added == Added(models[n - 1].value, Entries(forward, KeyOf(models[n - 1].value.id)),
                           Keys(Output(models, n - 1, forward)))
    ensures forall j :: 0 <= j < |added| ==> ComesFrom(added[j], models, n - 1, forward)
  {
    var m, taken := models[n - 1].value, Keys(Output(models, n - 1, forward));
    var entries := Entries(forward, KeyOf(m.id));
    added := Added(m, entries, taken);
    forall j | 0 <= j < |added|
      ensures ComesFrom(added[j], models, n - 1, forward)
    {
      AddedFrom(m, entries, taken, added[j]);
    }
  }

  /** Nothing without an id is listed, and a blank alias is never given. */
  lemma NoneNameless(models: seq<Option<ModelInfo>>, rules: seq<Rule>, o: ModelInfo)
    requires o in Output(models, |models|, Forward(rules))
    ensures Text.TrimSpace(o.id) != ""
  {
    hide Output, Forward, KeyOf;
    var forward := Forward(rules);
    var sources := InOrder(models, |models|, forward);
    var j :| 0 <= j < |Output(models, |models|, forward)| && Output(models, |models|, forward)[j] == o;
    assert ComesFrom(o, models, sources[j], forward);
    var m := models[sources[j]].value;
    var entries := Entries(forward, KeyOf(m.id));
    if o != m {
      var k :| 0 <= k < |entries| && o == Clone(m, entries[k].alias);
      assert entries[k] in entries && UsableFor(entries[k], KeyOf(m.id));
    }
  }

  /** No listed model disappears: it is still there, or one of its aliases stands for it. */
  lemma NothingLost(models: seq<Option<ModelInfo>>, rules: seq<Rule>, i: nat)
    requires i < |models| && Named(models[i])
    ensures var keys, entries := Keys(Output(models, |models|, Forward(rules))),
            Entries(Forward(rules), KeyOf(models[i].value.id));
      && AliasKeys(entries) <= keys
      && (entries == [] || Forks(entries) ==> KeyOf(models[i].value.id) in keys)
      && (KeyOf(models[i].value.id) in keys || AliasKeys(entries) * keys != {})
  {
    hide Output, Keys, Forward, KeyOf;
    var entries := Entries(Forward(rules), KeyOf(models[i].value.id));
    ListedIff(models, rules, i);
    OutputGrows(models, i + 1, |models|, Forward(rules));
    if entries != [] {
      assert KeyOf(entries[0].alias) in AliasKeys(entries) * Keys(Output(models, |models|, Forward(rules)));
    }
  }

  /** The copies that a model adds stand in the order of its rules, behind the model itself. */
  lemma {:induction false} CopiesInOrder(m: ModelInfo, entries: seq<Entry>, taken: set<string>) returns (ps: seq<nat>)
    ensures |ps| == |NewAliases(m, entries, taken)|
    ensures forall i, j :: 0 <= i < j < |ps| ==> ps[i] < ps[j]
    ensures forall i :: 0 <= i < |ps| ==>
              ps[i] < |entries| && NewAliases(m, entries, taken)[i] == Clone(m, entries[ps[i]].alias)
  {
    hide Clone, Keys, KeyOf;
    ps := [];
    if entries != [] {
      var n := |entries| - 1;
      ps := CopiesInOrder(m, entries[..n], taken);
      if |NewAliases(m, entries, taken)| > |ps| {
        ps := ps + [n];
      }
    }
  }

  lemma OwnFirst(m: ModelInfo, entries: seq<Entry>, taken: set<string>)
    requires entries == [] || Forks(entries)
    ensures Text.ToLower(Text.TrimSpace(m.id)) !in taken ==>
              Added(m, entries, taken) != [] && Added(m, entries, taken)[0] == m
  {
  }

  // ---------------------------------------------------------------------------------------
  // The loops
  // ---------------------------------------------------------------------------------------

  method Append(out: seq<ModelInfo>, seen: set<string>, o: ModelInfo)
    returns (out': seq<ModelInfo>, seen': set<string>, added: bool)
    requires seen == Keys(out)
    ensures out' == out + Fresh(o, seen) && seen' == Keys(out') && added == (KeyOf(o.id) !in seen)
  {
    out', seen', added := out, seen, false;
    FreshKeys(o, seen);
    KeysConcat(out, Fresh(o, seen));
    if KeyOf(o.id) !in seen {
      seen' := seen + {KeyOf(o.id)};
      out', added := out + [o], true;
    }
  }

  /** Appends the aliases of one model. */
  method AppendAliases(out: seq<ModelInfo>, seen: set<string>, m: ModelInfo, entries: seq<Entry>)
    returns (out': seq<ModelInfo>, seen': set<string>, added: bool)
    requires seen == Keys(out)
    ensures out' == out + NewAliases(m, entries, seen) && seen' == Keys(out')
    ensures added == (NewAliases(m, entries, seen) != [])
  {
    hide Keys, Clone, KeyOf;
    out', seen', added := out, seen, false;
    for i := 0 to |entries|
      invariant out' == out + NewAliases(m, entries[..i], seen) && seen' == Keys(out')
      invariant added == (NewAliases(m, entries[..i], seen) != [])
    {
      // The source re-checks that the alias is not blank and differs from the id; Forward guarantees both.
      var one: bool;
      assert entries[..i + 1][..i] == entries[..i];
      KeysConcat(out, NewAliases(m, entries[..i], seen));
      out', seen', one := Append(out', seen', Clone(m, entries[i].alias));
      added := added || one;
    }
    assert entries[..|entries|] == entries;
  }

  method HasFork(entries: seq<Entry>) returns (fork: bool)
    ensures fork == Forks(entries)
  {
    for i := 0 to |entries|
      invariant !Forks(entries[..i])
    {
      if entries[i].fork {
        return true;
      }
      assert entries[..i + 1] == entries[..i] + [entries[i]];
    }
    assert entries[..|entries|] == entries;
    return false;
  }

  method ServeModel(out: seq<ModelInfo>, seen: set<string>, m: ModelInfo, entries: seq<Entry>)
    returns (out': seq<ModelInfo>, seen': set<string>)
    requires seen == Keys(out)
    ensures out' == out + Added(m, entries, seen) && seen' == Keys(out')
  {
    hide Keys, NewAliases, Fresh, Forks;
    var added: bool;
    out', seen' := out, seen;
    if |entries| == 0 {
      out', seen', added := Append(out', seen', m);
      return;
    }
    var keepOriginal := HasFork(entries);
    if keepOriginal {
      out', seen', added := Append(out', seen', m);
      KeysConcat(out, Fresh(m, seen));
    }
    ghost var own := if keepOriginal then Fresh(m, seen) else [];
    ghost var aliases := NewAliases(m, entries, seen');
    assert out + own + aliases == out + (own + aliases) && [] + aliases == aliases && out + [] == out;
    out', seen', added := AppendAliases(out', seen', m, entries);
    if !keepOriginal && !added {
      out', seen', added := Append(out', seen', m);
    }
  }

  method ServeAll(models: seq<Option<ModelInfo>>, forward: map<string, seq<Entry>>) returns (listed: seq<ModelInfo>)
    ensures listed == Output(models, |models|, forward)
  {
    listed := [];
    var seen: set<string> := {};
    for n := 0 to |models|
      invariant listed == Output(models, n, forward) && seen == Keys(listed)
    {
      if models[n].None? || Text.TrimSpace(models[n].value.id) == "" {
        continue;
      }
      listed, seen := ServeModel(listed, seen, models[n].value, Entries(forward, KeyOf(models[n].value.id)));
    }
  }

  function Listed(models: seq<ModelInfo>): seq<Option<ModelInfo>> {
    seq(|models|, i requires 0 <= i < |models| => Some(models[i]))
  }

  method BuildForward(rules: seq<Rule>) returns (forward: map<string, seq<Entry>>)
    ensures forward == Forward(rules)
  {
    forward := map[];
    for i := 0 to |rules|
      invariant forward == Forward(rules[..i])
    {
      assert rules[..i + 1][..i] == rules[..i];
      var name, alias := Text.TrimSpace(rules[i].name), Text.TrimSpace(rules[i].alias);
      if name == "" || alias == "" || Text.EqualFold(name, alias) {
        continue;
      }
      var key := Text.ToLower(name);
      forward := forward[key := (if key in forward then forward[key] else []) + [Entry(alias, rules[i].fork)]];
    }
    assert rules[..|rules|] == rules;
  }

  /** Without a usable rule the list is returned as it is. Otherwise every model is listed once per key, in the
      order of the input, and nothing else appears. */
  method ApplyModelAliases(models: seq<Option<ModelInfo>>, rules: seq<Rule>) returns (out: seq<Option<ModelInfo>>)
    ensures models == [] || Forward(rules) == map[] ==> out == models
    ensures models != [] && Forward(rules) != map[] ==> out == Listed(Output(models, |models|, Forward(rules)))
    ensures DistinctKeys(Output(models, |models|, Forward(rules)))
  {
    OutputDistinct(models, |models|, Forward(rules));
    if |models| == 0 || |rules| == 0 {
      return models;
    }
    var forward := BuildForward(rules);
    if |forward| == 0 {
      return models;
    }
    var served := ServeAll(models, forward);
    return Listed(served);
  }
}
