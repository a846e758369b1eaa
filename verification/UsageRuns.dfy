/** Whole runs of the request statistics: what holds after any sequence of records and merges. */
module UsageRuns {
  import opened UsageModel
  import opened UsageKeys
  import opened UsageMerge

  datatype Op =
    | RecordOp(enabled: bool, record: Record, now: Stamp)
    | MergeOp(snapshot: map<string, ApiUsage>, clock: Clock)

  function RecordEntries(enabled: bool, r: Record, now: Stamp): seq<Entry> {
    if enabled then [Recording(ApiOf(r), ModelOf(r), DetailOf(r, now))] else []
  }

  /** A merge in any order of the names of the snapshot. */
  ghost predicate MergesBy(s: Store, snapshot: map<string, ApiUsage>, clock: Clock, t: Store, pr: Progress) {
    pr.store == t && Merged(DedupKey, s, snapshot, clock, pr)
  }

  /** One operation takes a store to another one. */
  ghost predicate Carries(s: Store, op: Op, t: Store) {
    match op
    case RecordOp(enabled, r, now) => t == EnterAll(s, RecordEntries(enabled, r, now))
    case MergeOp(snapshot, clock) => exists pr :: MergesBy(s, snapshot, clock, t, pr)
  }

  ghost predicate Run(states: seq<Store>, ops: seq<Op>) {
    && |states| == |ops| + 1
    && states[0] == EmptyStore
    && forall i :: 0 <= i < |ops| ==> Carries(states[i], ops[i], states[i + 1])
  }

  lemma RecordCarries(s: Store, enabled: bool, r: Record, now: Stamp)
    ensures var t := if enabled then Recorded(s, ApiOf(r), ModelOf(r), DetailOf(r, now)) else s;
      Carries(s, RecordOp(enabled, r, now), t)
  {
    if enabled {
      var e := Recording(ApiOf(r), ModelOf(r), DetailOf(r, now));
      EnterOneMore(s, [], e);
      assert [] + [e] == RecordEntries(enabled, r, now);
    }
  }

  // ---------------------------------------------------------------------------------------
  // Conservation
  // ---------------------------------------------------------------------------------------

  /** The operation adds no negative token total. */
  ghost predicate Harmless(s: Store, op: Op) {
    op.MergeOp? ==> NegativesStored(DedupKey, s.apis, op.snapshot, op.clock)
  }

  /** An operation keeps the request aggregates, never lowers the excess of the token total over the
      recount, and leaves it exactly when it is harmless. */
  lemma StepKeeps(s: Store, op: Op, t: Store)
    requires RequestsBalanced(s) && TokensSpread(s) && Carries(s, op, t)
    ensures RequestsBalanced(t) && TokensSpread(t)
    ensures Excess(t) >= Excess(s) && (Excess(t) == Excess(s) <==> Harmless(s, op))
    ensures TokensBalanced(s) && Harmless(s, op) ==> TokensBalanced(t)
  {
    hide RequestsBalanced, TokensSpread, TokensBalanced, Merged, Excess, NegativesStored;
    match op
    case RecordOp(enabled, r, now) =>
      var es := RecordEntries(enabled, r, now);
      HistoryKeepsRequests(s, es);
      TokenExcess(s, es);
      ClampingFree(es);
      if TokensBalanced(s) {
        TokensConservedIff(s, es);
      }
    case MergeOp(snapshot, clock) =>
      var pr :| MergesBy(s, snapshot, clock, t, pr);
      MergeKeepsRequests(DedupKey, s, snapshot, clock, pr);
      DedupKeyTellsTotal();
      MergeKeepsTokensIff(DedupKey, s, snapshot, clock, pr);
      ClampingFree(pr.entries);
  }

  ghost predicate AllHarmless(states: seq<Store>, ops: seq<Op>, n: nat)
    requires Run(states, ops) && n <= |ops|
  {
    forall i :: 0 <= i < n ==> Harmless(states[i], ops[i])
  }

  lemma {:induction false} RunSoFar(states: seq<Store>, ops: seq<Op>, n: nat)
    requires Run(states, ops) && n <= |ops|
    ensures RequestsBalanced(states[n]) && TokensSpread(states[n])
    ensures Excess(states[n]) >= 0
    ensures AllHarmless(states, ops, n) ==> TokensBalanced(states[n])
    ensures Excess(states[n]) == 0 <==> AllHarmless(states, ops, n)
  {
    hide Carries, RequestsBalanced, TokensSpread, TokensBalanced, Harmless, Excess;
    if n == 0 {
      EmptyStart();
    } else {
      RunSoFar(states, ops, n - 1);
      assert Carries(states[n - 1], ops[n - 1], states[n - 1 + 1]);
      StepKeeps(states[n - 1], ops[n - 1], states[n]);
      assert AllHarmless(states, ops, n) <==>
             AllHarmless(states, ops, n - 1) && Harmless(states[n - 1], ops[n - 1]);
    }
  }

  lemma EmptyStart()
    ensures RequestsBalanced(EmptyStore) && TokensSpread(EmptyStore) && TokensBalanced(EmptyStore)
    ensures Excess(EmptyStore) == 0
  {
    EmptyBalanced();
  }

  /** After any run of records and merges, from an empty store, every request aggregate is a recount of the
      log and the token totals agree with each other. The token totals are recounts as well exactly when no
      merge brought a negative total that was not stored before. */
  lemma RunConserves(states: seq<Store>, ops: seq<Op>)
    requires Run(states, ops)
    ensures var last := states[|ops|];
      && RequestsBalanced(last) && TokensSpread(last)
      && (TokensBalanced(last) <==>
          forall i :: 0 <= i < |ops| && ops[i].MergeOp? ==>
            NegativesStored(DedupKey, states[i].apis, ops[i].snapshot, ops[i].clock))
  {
    RunSoFar(states, ops, |ops|);
    assert AllHarmless(states, ops, |ops|) <==>
           forall i :: 0 <= i < |ops| && ops[i].MergeOp? ==>
             NegativesStored(DedupKey, states[i].apis, ops[i].snapshot, ops[i].clock);
  }

  // ---------------------------------------------------------------------------------------
  // Stamps
  // ---------------------------------------------------------------------------------------

  /** The clock never shows the zero time. */
  ghost predicate Timed(op: Op) {
    match op
    case RecordOp(_, _, now) => now.instant != 0
    case MergeOp(_, clock) => forall p :: clock(p).instant != 0
  }

  lemma RecordStamps(s: Store, enabled: bool, r: Record, now: Stamp, p: Place)
    requires now.instant != 0 && Stamped(s.apis)
    requires At(EnterAll(s, RecordEntries(enabled, r, now)).apis, p)
    ensures DetailAt(EnterAll(s, RecordEntries(enabled, r, now)).apis, p).stamp.instant != 0
  {
    hide EnterAll, At;
    HistoryLog(s, RecordEntries(enabled, r, now), p);
  }

  lemma MergeStamps(s: Store, snapshot: map<string, ApiUsage>, clock: Clock, pr: Progress, p: Place)
    requires Merged(DedupKey, s, snapshot, clock, pr) && Stamped(s.apis)
    requires forall q :: clock(q).instant != 0
    requires At(pr.store.apis, p)
    ensures DetailAt(pr.store.apis, p).stamp.instant != 0
  {
    hide Merged, At;
    MergedLog(DedupKey, s, snapshot, clock, pr, p);
    if !At(s.apis, p) {
      var e := Importing(p.api, p.model, DetailAt(pr.store.apis, p));
      var q :| q in Usable(snapshot) && Lands(snapshot, clock, q, e);
    }
  }

  lemma StepKeepsStamps(s: Store, op: Op, t: Store)
    requires Carries(s, op, t) && Timed(op) && Stamped(s.apis)
    ensures Stamped(t.apis)
  {
    hide Merged, At, EnterAll;
    if op.RecordOp? {
      forall p | At(t.apis, p)
        ensures DetailAt(t.apis, p).stamp.instant != 0
      {
        RecordStamps(s, op.enabled, op.record, op.now, p);
      }
    } else {
      var pr :| MergesBy(s, op.snapshot, op.clock, t, pr);
      forall p | At(t.apis, p)
        ensures DetailAt(t.apis, p).stamp.instant != 0
      {
        MergeStamps(s, op.snapshot, op.clock, pr, p);
      }
    }
  }

  lemma {:induction false} RunStamps(states: seq<Store>, ops: seq<Op>, n: nat)
    requires Run(states, ops) && n <= |ops|
    requires forall i :: 0 <= i < |ops| ==> Timed(ops[i])
    ensures Stamped(states[n].apis)
  {
    hide Carries, Timed;
    if n > 0 {
      RunStamps(states, ops, n - 1);
      assert Carries(states[n - 1], ops[n - 1], states[n - 1 + 1]);
      StepKeepsStamps(states[n - 1], ops[n - 1], states[n]);
    }
  }

  /** After any run under a clock that never shows the zero time, merging the store's own log into it adds
      nothing when its names are tidy. */
  lemma OwnSnapshotAfterRun(states: seq<Store>, ops: seq<Op>, clock: Clock, pr: Progress)
    requires Run(states, ops) && forall i :: 0 <= i < |ops| ==> Timed(ops[i])
    requires Tidy(states[|ops|].apis)
    requires Merged(DedupKey, states[|ops|], states[|ops|].apis, clock, pr)
    ensures pr.added == 0
  {
    RunStamps(states, ops, |ops|);
    OwnSnapshotAddsNothing(states[|ops|], clock, pr);
  }
}
