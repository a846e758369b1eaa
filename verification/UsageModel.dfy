/** Usage statistics as values: one log of request details and the aggregates kept beside it. */
module UsageModel {
  import opened Collections
  import Text

  datatype Tokens = Tokens(input: int, output: int, reasoning: int, cached: int, total: int)

  /** An instant in nanoseconds since the zero time, with the offset of its location. */
  datatype Stamp = Stamp(instant: int, offset: int)

  datatype Detail = Detail(stamp: Stamp, source: string, authIndex: string, tokens: Tokens, failed: bool)

  datatype ModelUsage = ModelUsage(requests: int, tokens: int, details: seq<Detail>)

  datatype ApiUsage = ApiUsage(requests: int, tokens: int, models: map<string, ModelUsage>)

  /** The aggregates that are kept beside the log. */
  datatype Totals = Totals(
    requests: int,
    successes: int,
    failures: int,
    tokens: int,
    requestsByDay: map<int, int>,
    requestsByHour: map<int, int>,
    tokensByDay: map<int, int>,
    tokensByHour: map<int, int>)

  datatype Store = Store(totals: Totals, apis: map<string, ApiUsage>)

  const EmptyModel := ModelUsage(0, 0, [])
  const EmptyApi := ApiUsage(0, 0, map[])
  const EmptyTotals := Totals(0, 0, 0, 0, map[], map[], map[], map[])
  const EmptyStore := Store(EmptyTotals, map[])

  const HourLength: int := 3_600_000_000_000

  /** The calendar day and the hour of the day at the location of the stamp. */
  function Day(t: Stamp): int {
    (t.instant + t.offset) / (24 * HourLength)
  }

  function Hour(t: Stamp): (hour: int)
    ensures 0 <= hour < 24
  {
    ((t.instant + t.offset) / HourLength) % 24
  }

  /** A missing total is filled from the parts, first without the cached tokens. */
  function Normalise(t: Tokens): Tokens {
    var a := if t.total == 0 then t.input + t.output + t.reasoning else t.total;
    t.(total := if a == 0 then t.input + t.output + t.reasoning + t.cached else a)
  }

  lemma NormaliseIdempotent(t: Tokens)
    ensures Normalise(Normalise(t)) == Normalise(t)
  {
  }

  function Plus<K>(m: map<K, int>, k: K, v: int): map<K, int> {
    m[k := WeightAt(m, k) + v]
  }

  function ModelAt(a: ApiUsage, model: string): ModelUsage {
    if model in a.models then a.models[model] else EmptyModel
  }

  function AddToModel(m: ModelUsage, d: Detail): ModelUsage {
    ModelUsage(m.requests + 1, m.tokens + d.tokens.total, m.details + [d])
  }

  function AddToApi(a: ApiUsage, model: string, d: Detail): ApiUsage {
    ApiUsage(a.requests + 1, a.tokens + d.tokens.total, a.models[model := AddToModel(ModelAt(a, model), d)])
  }

  function AddToApis(apis: map<string, ApiUsage>, api: string, model: string, d: Detail): map<string, ApiUsage> {
    apis[api := AddToApi(if api in apis then apis[api] else EmptyApi, model, d)]
  }

  /** The totals with one more detail, booked with a given token number. */
  function Count(t: Totals, d: Detail, tokens: int): Totals {
    Totals(t.requests + 1,
           t.successes + (if d.failed then 0 else 1),
           t.failures + (if d.failed then 1 else 0),
           t.tokens + tokens,
           Plus(t.requestsByDay, Day(d.stamp), 1),
           Plus(t.requestsByHour, Hour(d.stamp), 1),
           Plus(t.tokensByDay, Day(d.stamp), tokens),
           Plus(t.tokensByHour, Hour(d.stamp), tokens))
  }

  function Book(s: Store, api: string, model: string, d: Detail, tokens: int): Store {
    Store(Count(s.totals, d, tokens), AddToApis(s.apis, api, model, d))
  }

  function Recorded(s: Store, api: string, model: string, d: Detail): Store {
    Book(s, api, model, d, d.tokens.total)
  }

  /** Imported details never lower the overall totals. */
  function Imported(s: Store, api: string, model: string, d: Detail): Store {
    Book(s, api, model, d, if d.tokens.total < 0 then 0 else d.tokens.total)
  }

  // ---------------------------------------------------------------------------------------
  // Recounting the log
  // ---------------------------------------------------------------------------------------

  function TallySeq(ds: seq<Detail>, f: Detail -> int): int {
    if ds == [] then 0 else TallySeq(ds[..|ds| - 1], f) + f(ds[|ds| - 1])
  }

  ghost function ModelWeights(a: ApiUsage, f: Detail -> int): map<string, int> {
    map m | m in a.models :: TallySeq(a.models[m].details, f)
  }

  ghost function TallyApi(a: ApiUsage, f: Detail -> int): int {
    Sum(ModelWeights(a, f))
  }

  ghost function ApiWeights(apis: map<string, ApiUsage>, f: Detail -> int): map<string, int> {
    map a | a in apis :: TallyApi(apis[a], f)
  }

  /** The sum of f over every stored detail. */
  ghost function Tally(apis: map<string, ApiUsage>, f: Detail -> int): int {
    Sum(ApiWeights(apis, f))
  }

  function One(d: Detail): int { 1 }

  function Succeeded(d: Detail): int { if d.failed then 0 else 1 }

  function Failed(d: Detail): int { if d.failed then 1 else 0 }

  function TotalOf(d: Detail): int { d.tokens.total }

  function OnDay(day: int): Detail -> int {
    (d: Detail) => if Day(d.stamp) == day then 1 else 0
  }

  function OnHour(hour: int): Detail -> int {
    (d: Detail) => if Hour(d.stamp) == hour then 1 else 0
  }

  function TokensOnDay(day: int): Detail -> int {
    (d: Detail) => if Day(d.stamp) == day then d.tokens.total else 0
  }

  function TokensOnHour(hour: int): Detail -> int {
    (d: Detail) => if Hour(d.stamp) == hour then d.tokens.total else 0
  }

  lemma TallyModelAdds(m: ModelUsage, d: Detail, f: Detail -> int)
    ensures TallySeq(AddToModel(m, d).details, f) == TallySeq(m.details, f) + f(d)
  {
    assert (m.details + [d])[..|m.details|] == m.details;
  }

  lemma ModelReplaced(a: ApiUsage, requests: int, tokens: int, model: string, m: ModelUsage, f: Detail -> int)
    ensures TallyApi(ApiUsage(requests, tokens, a.models[model := m]), f)
         == TallyApi(a, f) - WeightAt(ModelWeights(a, f), model) + TallySeq(m.details, f)
  {
    assert ModelWeights(ApiUsage(requests, tokens, a.models[model := m]), f) ==
           ModelWeights(a, f)[model := TallySeq(m.details, f)];
    SumPut(ModelWeights(a, f), model, TallySeq(m.details, f));
  }

  lemma ApiReplaced(apis: map<string, ApiUsage>, api: string, a: ApiUsage, f: Detail -> int)
    ensures Tally(apis[api := a], f) == Tally(apis, f) - WeightAt(ApiWeights(apis, f), api) + TallyApi(a, f)
  {
    assert ApiWeights(apis[api := a], f) == ApiWeights(apis, f)[api := TallyApi(a, f)];
    SumPut(ApiWeights(apis, f), api, TallyApi(a, f));
  }

  lemma TallyApiAdds(a: ApiUsage, model: string, d: Detail, f: Detail -> int)
    ensures TallyApi(AddToApi(a, model, d), f) == TallyApi(a, f) + f(d)
  {
    var m := ModelAt(a, model);
    TallyModelAdds(m, d, f);
    ModelReplaced(a, a.requests + 1, a.tokens + d.tokens.total, model, AddToModel(m, d), f);
    assert WeightAt(ModelWeights(a, f), model) == TallySeq(m.details, f);
  }

  lemma TallyEmpty(f: Detail -> int)
    ensures TallyApi(EmptyApi, f) == 0 && Tally(map[], f) == 0
  {
    assert ModelWeights(EmptyApi, f) == map[];
    assert ApiWeights(map[], f) == map[];
  }

  /** Every recount of the log grows by exactly the contribution of the added detail. */
  lemma TallyAdds(apis: map<string, ApiUsage>, api: string, model: string, d: Detail, f: Detail -> int)
    ensures Tally(AddToApis(apis, api, model, d), f) == Tally(apis, f) + f(d)
  {
    var a := if api in apis then apis[api] else EmptyApi;
    TallyApiAdds(a, model, d, f);
    TallyEmpty(f);
    ApiReplaced(apis, api, AddToApi(a, model, d), f);
    assert WeightAt(ApiWeights(apis, f), api) == TallyApi(a, f);
  }

  // ---------------------------------------------------------------------------------------
  // Conservation
  // ---------------------------------------------------------------------------------------

  ghost predicate ModelBalanced(m: ModelUsage) {
    m.requests == |m.details| && m.tokens == TallySeq(m.details, TotalOf)
  }

  ghost predicate ApiBalanced(a: ApiUsage) {
    && (forall m :: m in a.models ==> ModelBalanced(a.models[m]))
    && a.requests == TallyApi(a, One)
    && a.tokens == TallyApi(a, TotalOf)
  }

  ghost predicate ApisBalanced(apis: map<string, ApiUsage>) {
    forall a :: a in apis ==> ApiBalanced(apis[a])
  }

  ghost predicate TotalsBalanced(s: Store) {
    && s.totals.requests == Tally(s.apis, One)
    && s.totals.successes == Tally(s.apis, Succeeded)
    && s.totals.failures == Tally(s.apis, Failed)
    && s.totals.requests == s.totals.successes + s.totals.failures
  }

  ghost predicate DaysBalanced(s: Store) {
    && (forall day :: WeightAt(s.totals.requestsByDay, day) == Tally(s.apis, OnDay(day)))
    && Sum(s.totals.requestsByDay) == s.totals.requests
  }

  /** Hours of a day. */
  predicate HourKeys(m: map<int, int>) {
    forall hour :: hour in m ==> 0 <= hour < 24
  }

  ghost predicate HoursBalanced(s: Store) {
    && HourKeys(s.totals.requestsByHour)
    && (forall hour :: WeightAt(s.totals.requestsByHour, hour) == Tally(s.apis, OnHour(hour)))
    && Sum(s.totals.requestsByHour) == s.totals.requests
  }

  /** Requests: every aggregate is the recount of the log. */
  ghost predicate RequestsBalanced(s: Store) {
    ApisBalanced(s.apis) && TotalsBalanced(s) && DaysBalanced(s) && HoursBalanced(s)
  }

  /** Tokens: the totals by day and by hour always add up to the overall total. */
  ghost predicate TokensSpread(s: Store) {
    && HourKeys(s.totals.tokensByHour)
    && Sum(s.totals.tokensByDay) == s.totals.tokens && Sum(s.totals.tokensByHour) == s.totals.tokens
  }

  ghost predicate DayTokensBalanced(s: Store) {
    forall day :: WeightAt(s.totals.tokensByDay, day) == Tally(s.apis, TokensOnDay(day))
  }

  ghost predicate HourTokensBalanced(s: Store) {
    forall hour :: WeightAt(s.totals.tokensByHour, hour) == Tally(s.apis, TokensOnHour(hour))
  }

  /** Tokens: the totals, overall, by day and by hour, are recounts of the log. */
  ghost predicate TokensBalanced(s: Store) {
    s.totals.tokens == Tally(s.apis, TotalOf) && DayTokensBalanced(s) && HourTokensBalanced(s)
  }

  lemma EmptyBalanced()
    ensures RequestsBalanced(EmptyStore) && TokensSpread(EmptyStore) && TokensBalanced(EmptyStore)
  {
    TallyEmpty(One);
    TallyEmpty(Succeeded);
    TallyEmpty(Failed);
    TallyEmpty(TotalOf);
    forall k: int
      ensures Tally(map[], OnDay(k)) == 0 && Tally(map[], OnHour(k)) == 0
      ensures Tally(map[], TokensOnDay(k)) == 0 && Tally(map[], TokensOnHour(k)) == 0
    {
      TallyEmpty(OnDay(k));
      TallyEmpty(OnHour(k));
      TallyEmpty(TokensOnDay(k));
      TallyEmpty(TokensOnHour(k));
    }
    assert TotalsBalanced(EmptyStore);
    assert DaysBalanced(EmptyStore) && HoursBalanced(EmptyStore);
    assert DayTokensBalanced(EmptyStore) && HourTokensBalanced(EmptyStore);
  }

  lemma PlusAt<K(!new)>(m: map<K, int>, k: K, v: int, j: K)
    ensures WeightAt(Plus(m, k, v), j) == WeightAt(m, j) + if j == k then v else 0
    ensures Sum(Plus(m, k, v)) == Sum(m) + v
  {
    SumPut(m, k, WeightAt(m, k) + v);
  }

  lemma ModelStaysBalanced(m: ModelUsage, d: Detail)
    requires ModelBalanced(m)
    ensures ModelBalanced(AddToModel(m, d))
  {
    TallyModelAdds(m, d, TotalOf);
  }

  lemma ApiStaysBalanced(a: ApiUsage, model: string, d: Detail)
    requires ApiBalanced(a)
    ensures ApiBalanced(AddToApi(a, model, d))
  {
    ModelStaysBalanced(ModelAt(a, model), d);
    TallyApiAdds(a, model, d, One);
    TallyApiAdds(a, model, d, TotalOf);
  }

  lemma BookKeepsApis(apis: map<string, ApiUsage>, api: string, model: string, d: Detail)
    requires ApisBalanced(apis)
    ensures ApisBalanced(AddToApis(apis, api, model, d))
  {
    TallyEmpty(One);
    TallyEmpty(TotalOf);
    ApiStaysBalanced(if api in apis then apis[api] else EmptyApi, model, d);
  }

  lemma BookKeepsTotals(s: Store, api: string, model: string, d: Detail, tokens: int)
    requires TotalsBalanced(s)
    ensures TotalsBalanced(Book(s, api, model, d, tokens))
  {
    TallyAdds(s.apis, api, model, d, One);
    TallyAdds(s.apis, api, model, d, Succeeded);
    TallyAdds(s.apis, api, model, d, Failed);
  }

  lemma BookKeepsDays(s: Store, api: string, model: string, d: Detail, tokens: int)
    requires DaysBalanced(s)
    ensures DaysBalanced(Book(s, api, model, d, tokens))
  {
    var t := Book(s, api, model, d, tokens);
    forall day
      ensures WeightAt(t.totals.requestsByDay, day) == Tally(t.apis, OnDay(day))
    {
      TallyAdds(s.apis, api, model, d, OnDay(day));
      PlusAt(s.totals.requestsByDay, Day(d.stamp), 1, day);
    }
    PlusAt(s.totals.requestsByDay, Day(d.stamp), 1, 0);
  }

  lemma PlusHourKeys(m: map<int, int>, t: Stamp, v: int)
    requires HourKeys(m)
    ensures HourKeys(Plus(m, Hour(t), v))
  {
  }

  lemma BookKeepsHours(s: Store, api: string, model: string, d: Detail, tokens: int)
    requires HoursBalanced(s)
    ensures HoursBalanced(Book(s, api, model, d, tokens))
  {
    hide HourKeys, Hour, OnHour, AddToApis;
    var before, after := s.totals.requestsByHour, Plus(s.totals.requestsByHour, Hour(d.stamp), 1);
    var t := Book(s, api, model, d, tokens);
    PlusHourKeys(before, d.stamp, 1);
    PlusAt(before, Hour(d.stamp), 1, 0);
    forall hour
      ensures WeightAt(after, hour) == Tally(t.apis, OnHour(hour))
    {
      BookedHour(s, api, model, d, hour);
    }
  }

  lemma BookedHour(s: Store, api: string, model: string, d: Detail, hour: int)
    requires WeightAt(s.totals.requestsByHour, hour) == Tally(s.apis, OnHour(hour))
    ensures WeightAt(Plus(s.totals.requestsByHour, Hour(d.stamp), 1), hour)
         == Tally(AddToApis(s.apis, api, model, d), OnHour(hour))
  {
    TallyAdds(s.apis, api, model, d, OnHour(hour));
    PlusAt(s.totals.requestsByHour, Hour(d.stamp), 1, hour);
  }

  /** Booking a detail keeps every request aggregate. */
  lemma BookKeepsRequests(s: Store, api: string, model: string, d: Detail, tokens: int)
    requires RequestsBalanced(s)
    ensures RequestsBalanced(Book(s, api, model, d, tokens))
  {
    BookKeepsApis(s.apis, api, model, d);
    BookKeepsTotals(s, api, model, d, tokens);
    BookKeepsDays(s, api, model, d, tokens);
    BookKeepsHours(s, api, model, d, tokens);
  }

  lemma BookKeepsSpread(s: Store, api: string, model: string, d: Detail, tokens: int)
    requires TokensSpread(s)
    ensures TokensSpread(Book(s, api, model, d, tokens))
  {
    hide HourKeys, Hour;
    PlusHourKeys(s.totals.tokensByHour, d.stamp, tokens);
    PlusAt(s.totals.tokensByDay, Day(d.stamp), tokens, 0);
    PlusAt(s.totals.tokensByHour, Hour(d.stamp), tokens, 0);
  }

  lemma BookKeepsDayTokens(s: Store, api: string, model: string, d: Detail)
    requires DayTokensBalanced(s)
    ensures DayTokensBalanced(Book(s, api, model, d, d.tokens.total))
  {
    var t := Book(s, api, model, d, d.tokens.total);
    forall day
      ensures WeightAt(t.totals.tokensByDay, day) == Tally(t.apis, TokensOnDay(day))
    {
      TallyAdds(s.apis, api, model, d, TokensOnDay(day));
      PlusAt(s.totals.tokensByDay, Day(d.stamp), d.tokens.total, day);
    }
  }

  lemma BookKeepsHourTokens(s: Store, api: string, model: string, d: Detail)
    requires HourTokensBalanced(s)
    ensures HourTokensBalanced(Book(s, api, model, d, d.tokens.total))
  {
    var t := Book(s, api, model, d, d.tokens.total);
    forall hour
      ensures WeightAt(t.totals.tokensByHour, hour) == Tally(t.apis, TokensOnHour(hour))
    {
      TallyAdds(s.apis, api, model, d, TokensOnHour(hour));
      PlusAt(s.totals.tokensByHour, Hour(d.stamp), d.tokens.total, hour);
    }
  }

  /** Booking keeps the token recounts exactly when the booked number is the detail's own total. */
  lemma BookKeepsTokensIff(s: Store, api: string, model: string, d: Detail, tokens: int)
    requires TokensBalanced(s)
    ensures TokensBalanced(Book(s, api, model, d, tokens)) <==> tokens == d.tokens.total
  {
    TallyAdds(s.apis, api, model, d, TotalOf);
    if tokens == d.tokens.total {
      BookKeepsDayTokens(s, api, model, d);
      BookKeepsHourTokens(s, api, model, d);
    }
  }

  // ---------------------------------------------------------------------------------------
  // An API without details
  // ---------------------------------------------------------------------------------------

  /** An API that is first seen without details gets an empty entry. */
  function Opened(apis: map<string, ApiUsage>, api: string): map<string, ApiUsage> {
    if api in apis then apis else apis[api := EmptyApi]
  }

  lemma OpenedTally(apis: map<string, ApiUsage>, api: string, g: Detail -> int)
    ensures Tally(Opened(apis, api), g) == Tally(apis, g)
  {
    if api !in apis {
      TallyEmpty(g);
      ApiReplaced(apis, api, EmptyApi, g);
    }
  }

  lemma OpenKeepsApis(apis: map<string, ApiUsage>, api: string)
    requires ApisBalanced(apis)
    ensures ApisBalanced(Opened(apis, api))
  {
    TallyEmpty(One);
    TallyEmpty(TotalOf);
  }

  lemma OpenKeepsRequests(s: Store, api: string)
    requires RequestsBalanced(s)
    ensures RequestsBalanced(s.(apis := Opened(s.apis, api)))
  {
    var t := s.(apis := Opened(s.apis, api));
    OpenKeepsApis(s.apis, api);
    OpenedTally(s.apis, api, One);
    OpenedTally(s.apis, api, Succeeded);
    OpenedTally(s.apis, api, Failed);
    forall k: int
      ensures Tally(t.apis, OnDay(k)) == Tally(s.apis, OnDay(k))
      ensures Tally(t.apis, OnHour(k)) == Tally(s.apis, OnHour(k))
    {
      OpenedTally(s.apis, api, OnDay(k));
      OpenedTally(s.apis, api, OnHour(k));
    }
    assert DaysBalanced(t) && HoursBalanced(t);
  }

  lemma OpenKeepsTokens(s: Store, api: string)
    requires TokensBalanced(s)
    ensures TokensBalanced(s.(apis := Opened(s.apis, api)))
  {
    var t := s.(apis := Opened(s.apis, api));
    OpenedTally(s.apis, api, TotalOf);
    forall k: int
      ensures Tally(t.apis, TokensOnDay(k)) == Tally(s.apis, TokensOnDay(k))
      ensures Tally(t.apis, TokensOnHour(k)) == Tally(s.apis, TokensOnHour(k))
    {
      OpenedTally(s.apis, api, TokensOnDay(k));
      OpenedTally(s.apis, api, TokensOnHour(k));
    }
    assert DayTokensBalanced(t) && HourTokensBalanced(t);
  }

  // ---------------------------------------------------------------------------------------
  // Whole histories
  // ---------------------------------------------------------------------------------------

  /** What can happen to a store: a detail is recorded or imported, or an API is opened. */
  datatype Entry =
    | Recording(api: string, model: string, detail: Detail)
    | Importing(api: string, model: string, detail: Detail)
    | Opening(api: string)

  function Enter(s: Store, e: Entry): Store {
    match e
    case Recording(api, model, d) => Recorded(s, api, model, d)
    case Importing(api, model, d) => Imported(s, api, model, d)
    case Opening(api) => s.(apis := Opened(s.apis, api))
  }

  function EnterAll(s: Store, es: seq<Entry>): Store {
    if es == [] then s else Enter(EnterAll(s, es[..|es| - 1]), es[|es| - 1])
  }

  lemma EnterOneMore(s: Store, es: seq<Entry>, e: Entry)
    ensures EnterAll(s, es + [e]) == Enter(EnterAll(s, es), e)
  {
    assert (es + [e])[..|es|] == es;
  }

  /** Tokens that are booked for an entry. */
  function Booked(e: Entry): int {
    match e
    case Recording(_, _, d) => d.tokens.total
    case Importing(_, _, d) => if d.tokens.total < 0 then 0 else d.tokens.total
    case Opening(_) => 0
  }

  lemma EnterKeepsRequests(s: Store, e: Entry)
    requires RequestsBalanced(s)
    ensures RequestsBalanced(Enter(s, e))
  {
    match e
    case Opening(api) => OpenKeepsRequests(s, api);
    case _ => BookKeepsRequests(s, e.api, e.model, e.detail, Booked(e));
  }

  lemma EnterKeepsSpread(s: Store, e: Entry)
    requires TokensSpread(s)
    ensures TokensSpread(Enter(s, e))
  {
    match e
    case Opening(_) =>
    case _ => BookKeepsSpread(s, e.api, e.model, e.detail, Booked(e));
  }

  /** The request aggregates stay recounts of the log through any history, and the token totals keep
      agreeing with each other. */
  lemma {:induction false} HistoryKeepsRequests(s: Store, es: seq<Entry>)
    requires RequestsBalanced(s) && TokensSpread(s)
    ensures RequestsBalanced(EnterAll(s, es)) && TokensSpread(EnterAll(s, es))
  {
    if es != [] {
      var n := |es| - 1;
      HistoryKeepsRequests(s, es[..n]);
      EnterKeepsRequests(EnterAll(s, es[..n]), es[n]);
      EnterKeepsSpread(EnterAll(s, es[..n]), es[n]);
    }
  }

  /** After any mix of records, imports and openings the request aggregates are recounts of the log. */
  lemma RequestsConserved(es: seq<Entry>)
    ensures RequestsBalanced(EnterAll(EmptyStore, es)) && TokensSpread(EnterAll(EmptyStore, es))
  {
    EmptyBalanced();
    HistoryKeepsRequests(EmptyStore, es);
  }

  predicate Clamped(e: Entry) {
    e.Importing? && e.detail.tokens.total < 0
  }

  predicate NoneClamped(es: seq<Entry>) {
    forall i :: 0 <= i < |es| ==> !Clamped(es[i])
  }

  /** What clamping adds to the overall total. */
  function Clamping(es: seq<Entry>): nat {
    if es == [] then 0
    else Clamping(es[..|es| - 1]) + if Clamped(es[|es| - 1]) then -es[|es| - 1].detail.tokens.total else 0
  }

  ghost function Excess(s: Store): int {
    s.totals.tokens - Tally(s.apis, TotalOf)
  }

  lemma EnterExcess(s: Store, e: Entry)
    ensures Excess(Enter(s, e)) == Excess(s) + if Clamped(e) then -e.detail.tokens.total else 0
  {
    match e
    case Opening(api) => OpenedTally(s.apis, api, TotalOf);
    case _ => TallyAdds(s.apis, e.api, e.model, e.detail, TotalOf);
  }

  /** Through any history the overall token total moves away from the recount by exactly what was clamped
      away from imports. */
  lemma {:induction false} TokenExcess(s: Store, es: seq<Entry>)
    ensures Excess(EnterAll(s, es)) == Excess(s) + Clamping(es)
  {
    if es != [] {
      var n := |es| - 1;
      TokenExcess(s, es[..n]);
      EnterExcess(EnterAll(s, es[..n]), es[n]);
    }
  }

  lemma NoneClampedStep(es: seq<Entry>)
    requires es != []
    ensures NoneClamped(es) <==> NoneClamped(es[..|es| - 1]) && !Clamped(es[|es| - 1])
  {
    var n := |es| - 1;
    assert forall i :: 0 <= i < n ==> es[..n][i] == es[i];
    if !NoneClamped(es) && !Clamped(es[n]) {
      var i :| 0 <= i < |es| && Clamped(es[i]);
      assert Clamped(es[..n][i]);
    }
  }

  lemma {:induction false} ClampingFree(es: seq<Entry>)
    ensures Clamping(es) == 0 <==> NoneClamped(es)
  {
    if es != [] {
      ClampingFree(es[..|es| - 1]);
      NoneClampedStep(es);
    }
  }

  lemma EnterKeepsTokens(s: Store, e: Entry)
    requires TokensBalanced(s) && !Clamped(e)
    ensures TokensBalanced(Enter(s, e))
  {
    match e
    case Opening(api) => OpenKeepsTokens(s, api);
    case _ => BookKeepsTokensIff(s, e.api, e.model, e.detail, Booked(e));
  }

  lemma {:induction false} UnclampedKeepsTokens(s: Store, es: seq<Entry>)
    requires TokensBalanced(s) && NoneClamped(es)
    ensures TokensBalanced(EnterAll(s, es))
  {
    if es != [] {
      var n := |es| - 1;
      NoneClampedStep(es);
      UnclampedKeepsTokens(s, es[..n]);
      EnterKeepsTokens(EnterAll(s, es[..n]), es[n]);
    }
  }

  /** The token totals stay recounts of the log through a history exactly when it imports no negative total. */
  lemma TokensConservedIff(s: Store, es: seq<Entry>)
    requires TokensBalanced(s)
    ensures TokensBalanced(EnterAll(s, es)) <==> NoneClamped(es)
  {
    TokenExcess(s, es);
    ClampingFree(es);
    if NoneClamped(es) {
      UnclampedKeepsTokens(s, es);
    }
  }

  // ---------------------------------------------------------------------------------------
  // The exported form
  // ---------------------------------------------------------------------------------------

  /** What is handed out: everything, with the hours as two-digit texts. */
  datatype Exported = Exported(
    requests: int,
    successes: int,
    failures: int,
    tokens: int,
    requestsByDay: map<int, int>,
    requestsByHour: map<string, int>,
    tokensByDay: map<int, int>,
    tokensByHour: map<string, int>,
    apis: map<string, ApiUsage>)

  function Digit(n: int): char
    requires 0 <= n < 10
  {
    ('0' as int + n) as char
  }

  function FormatHour(hour: int): string {
    var h := if hour < 0 then 0 else hour % 24;
    [Digit(h / 10), Digit(h % 10)]
  }

  /** Different hours of a day have different texts. */
  lemma HoursTellApart(h: int, k: int)
    requires 0 <= h < 24 && 0 <= k < 24 && FormatHour(h) == FormatHour(k)
    ensures h == k
  {
    assert FormatHour(h)[0] == Digit(h / 10) && FormatHour(k)[0] == Digit(k / 10);
    assert FormatHour(h)[1] == Digit(h % 10) && FormatHour(k)[1] == Digit(k % 10);
  }

  ghost predicate HasHour(m: map<int, int>, text: string) {
    exists h :: h in m && FormatHour(h) == text
  }

  /** The numbers by hour, each under the text of its hour. */
  ghost predicate ByText(m: map<int, int>, e: map<string, int>) {
    && (forall h :: h in m ==> FormatHour(h) in e && e[FormatHour(h)] == m[h])
    && (forall t :: t in e ==> HasHour(m, t))
    && Sum(e) == Sum(m)
  }

  ghost predicate Exports(s: Store, x: Exported) {
    var t := s.totals;
    && x == Exported(t.requests, t.successes, t.failures, t.tokens, t.requestsByDay, x.requestsByHour, t.tokensByDay,
                     x.tokensByHour, s.apis)
    && ByText(t.requestsByHour, x.requestsByHour) && ByText(t.tokensByHour, x.tokensByHour)
  }

  // ---------------------------------------------------------------------------------------
  // Usage records
  // ---------------------------------------------------------------------------------------

  /** A usage record, with what the request context says about its endpoint and outcome. */
  datatype Record = Record(
    apiKey: string,
    endpoint: string,
    model: string,
    source: string,
    authIndex: string,
    requestedAt: Stamp,
    tokens: Tokens,
    failed: bool,
    succeeded: bool)

  function ApiOf(r: Record): string {
    if r.apiKey == "" then r.endpoint else r.apiKey
  }

  function ModelOf(r: Record): string {
    if r.model == "" then "unknown" else r.model
  }

  function DetailOf(r: Record, now: Stamp): Detail {
    Detail(if r.requestedAt.instant == 0 then now else r.requestedAt, r.source, r.authIndex, Normalise(r.tokens),
           r.failed || !r.succeeded)
  }
}
