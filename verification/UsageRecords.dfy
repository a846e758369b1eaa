/** What a record or an imported detail becomes in the log, told without the functions that specify it. */
module UsageRecords {
  import opened Collections
  import opened UsageModel
  import opened UsageMerge
  import Text

  /** A given total stays; a missing one is the sum of the parts without the cached tokens or, if that is zero, with
      them. The parts stay. */
  predicate FillsIn(u: Tokens, t: Tokens) {
    && u.input == t.input && u.output == t.output && u.reasoning == t.reasoning && u.cached == t.cached
    && u.total == if t.total != 0 then t.total
                  else if t.input + t.output + t.reasoning != 0 then t.input + t.output + t.reasoning
                  else t.input + t.output + t.reasoning + t.cached
  }

  lemma NormaliseFillsIn(t: Tokens)
    ensures FillsIn(Normalise(t), t)
  {
  }

  /** The day and the hour of a stamp, with days of 86400 and hours of 3600 seconds, in nanoseconds. */
  lemma DayAndHour(t: Stamp)
    ensures var local, day := t.instant + t.offset, 86_400_000_000_000 * Day(t);
      && day <= local < day + 86_400_000_000_000
      && day + 3_600_000_000_000 * Hour(t) <= local < day + 3_600_000_000_000 * (Hour(t) + 1)
  {
    var local := t.instant + t.offset;
    var hours := local / 3_600_000_000_000;
    assert local / 86_400_000_000_000 == hours / 24;
    assert hours == 24 * (hours / 24) + hours % 24;
  }

  /** The request did not fail and was answered successfully. */
  predicate Good(r: Record) {
    !r.failed && r.succeeded
  }

  /** The place of the next detail of an API and a model. */
  ghost predicate NextPlace(apis: map<string, ApiUsage>, p: Place) {
    && !At(apis, p)
    && (p.index > 0 ==> At(apis, Place(p.api, p.model, p.index - 1)))
  }

  /** One place is added, and nothing else changes. */
  ghost predicate OnlyAdds(before: map<string, ApiUsage>, after: map<string, ApiUsage>, p: Place) {
    && NextPlace(before, p) && At(after, p)
    && (forall q :: q != p ==> (At(after, q) <==> At(before, q)))
    && (forall q :: At(before, q) ==> DetailAt(after, q) == DetailAt(before, q))
    && after.Keys == before.Keys + {p.api}
    && (forall a :: a in before && a != p.api ==> after[a] == before[a])
  }

  /** The detail of a record: its own source, auth index and outcome, the time of the request or, without one, the
      present time, and its tokens with the total filled in. */
  predicate Describes(d: Detail, r: Record, now: Stamp) {
    && d.source == r.source && d.authIndex == r.authIndex
    && d.failed == !Good(r)
    && d.stamp == (if r.requestedAt.instant != 0 then r.requestedAt else now)
    && FillsIn(d.tokens, r.tokens)
  }

  /** The requests grow by one, as a success or as a failure, and the tokens by the filled-in total. */
  predicate Counts(before: Totals, after: Totals, r: Record, tokens: int) {
    && after.requests == before.requests + 1
    && after.successes == before.successes + (if Good(r) then 1 else 0)
    && after.failures == before.failures + (if Good(r) then 0 else 1)
    && after.tokens == before.tokens + tokens
  }

  /** One detail more, under the key of the API or, without one, the endpoint, and under the model or "unknown". */
  ghost predicate Books(s: Store, t: Store, r: Record, now: Stamp) {
    exists p ::
      && OnlyAdds(s.apis, t.apis, p)
      && p.api == (if r.apiKey != "" then r.apiKey else r.endpoint)
      && p.model == (if r.model != "" then r.model else "unknown")
      && Describes(DetailAt(t.apis, p), r, now)
      && Counts(s.totals, t.totals, r, DetailAt(t.apis, p).tokens.total)
  }

  lemma AddedOnly(apis: map<string, ApiUsage>, api: string, model: string, d: Detail)
    ensures OnlyAdds(apis, AddToApis(apis, api, model, d), LastPlace(apis, api, model))
    ensures DetailAt(AddToApis(apis, api, model, d), LastPlace(apis, api, model)) == d
  {
    forall q
      ensures var after := AddToApis(apis, api, model, d);
        && (At(after, q) <==> At(apis, q) || q == LastPlace(apis, api, model))
        && (At(apis, q) ==> DetailAt(after, q) == DetailAt(apis, q))
        && (q == LastPlace(apis, api, model) ==> DetailAt(after, q) == d)
    {
      PlaceAdded(apis, api, model, d, q);
    }
  }

  /** Recording a request books it. */
  lemma RecordBooks(s: Store, r: Record, now: Stamp)
    ensures Books(s, Recorded(s, ApiOf(r), ModelOf(r), DetailOf(r, now)), r, now)
  {
    var d := DetailOf(r, now);
    AddedOnly(s.apis, ApiOf(r), ModelOf(r), d);
    NormaliseFillsIn(r.tokens);
    var p := LastPlace(s.apis, ApiOf(r), ModelOf(r));
    assert Describes(d, r, now) && Counts(s.totals, Recorded(s, ApiOf(r), ModelOf(r), d).totals, r, d.tokens.total);
  }

  /** An imported detail is the incoming one under its trimmed names, with its total filled in and, without a time
      stamp, the present one. */
  predicate Imports(d: Detail, p: Place, incoming: Detail, q: Place, now: Stamp) {
    && p.api == Text.TrimSpace(q.api) && p.api != ""
    && p.model == (if Text.TrimSpace(q.model) != "" then Text.TrimSpace(q.model) else "unknown")
    && d.source == incoming.source && d.authIndex == incoming.authIndex && d.failed == incoming.failed
    && d.stamp == (if incoming.stamp.instant != 0 then incoming.stamp else now)
    && FillsIn(d.tokens, incoming.tokens)
  }

  /** After a merge, what was not stored before is the imported form of an incoming detail. */
  lemma MergeImports(f: Keying, s0: Store, snapshot: map<string, ApiUsage>, clock: Clock, pr: Progress, p: Place)
    returns (q: Place)
    requires Merged(f, s0, snapshot, clock, pr) && At(pr.store.apis, p) && !At(s0.apis, p)
    ensures At(snapshot, q) && Imports(DetailAt(pr.store.apis, p), p, DetailAt(snapshot, q), q, clock(q))
  {
    hide Merged;
    MergedLog(f, s0, snapshot, clock, pr, p);
    q :| q in Usable(snapshot) && Lands(snapshot, clock, q, Importing(p.api, p.model, DetailAt(pr.store.apis, p)));
    NormaliseFillsIn(DetailAt(snapshot, q).tokens);
  }

  /** The text of an hour has two digits, and they give the hour. */
  lemma HourText(hour: int)
    requires 0 <= hour < 24
    ensures var t := FormatHour(hour);
      && |t| == 2 && '0' <= t[0] <= '9' && '0' <= t[1] <= '9'
      && 10 * (t[0] as int - '0' as int) + (t[1] as int - '0' as int) == hour
  {
  }
}
