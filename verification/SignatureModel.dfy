/** The cache of thinking signatures as one flat table with a sliding expiry. */
module SignatureModel {

  type Instant = int

  const TTL: int := 10_800_000_000_000
  const MinLength: nat := 50
  const Sentinel: string := "skip_thought_signature_validator"

  predicate StandsAt(s: string, sub: string, i: nat) {
    i + |sub| <= |s| && s[i..i + |sub|] == sub
  }

  predicate Contains(s: string, sub: string) {
    exists i :: 0 <= i <= |s| && StandsAt(s, sub, i)
  }

  /** Models of one family share their signatures. */
  function Group(model: string): string {
    if Contains(model, "gpt") then "gpt"
    else if Contains(model, "claude") then "claude"
    else if Contains(model, "gemini") then "gemini"
    else model
  }

  datatype Entry = Entry(signature: string, stamp: Instant)

  /** A group and the hash of a text. */
  datatype Slot = Slot(group: string, hash: string)

  type Table = map<Slot, Entry>

  type Hash = string -> string

  predicate Expired(e: Entry, now: Instant) {
    now - e.stamp > TTL
  }

  function Missing(group: string): string {
    if group == "gemini" then Sentinel else ""
  }

  predicate Storable(text: string, signature: string) {
    text != "" && signature != "" && |signature| >= MinLength
  }

  function Cache(t: Table, h: Hash, model: string, text: string, signature: string, now: Instant): Table {
    if Storable(text, signature) then t[Slot(Group(model), h(text)) := Entry(signature, now)] else t
  }

  predicate Hit(t: Table, slot: Slot, now: Instant) {
    slot in t && !Expired(t[slot], now)
  }

  function Got(t: Table, h: Hash, model: string, text: string, now: Instant): string {
    var slot := Slot(Group(model), h(text));
    if text != "" && Hit(t, slot, now) then t[slot].signature else Missing(Group(model))
  }

  /** A hit renews the entry, an expired entry is dropped. */
  function Touched(t: Table, h: Hash, model: string, text: string, now: Instant): Table {
    var slot := Slot(Group(model), h(text));
    if text == "" || slot !in t then t
    else if Expired(t[slot], now) then t - {slot}
    else t[slot := t[slot].(stamp := now)]
  }

  function Purged(t: Table, now: Instant): Table {
    map slot | slot in t && !Expired(t[slot], now) :: t[slot]
  }

  function Cleared(t: Table, model: string): Table {
    if model == "" then map[] else map slot | slot in t && slot.group != Group(model) :: t[slot]
  }

  // ---------------------------------------------------------------------------------------
  // Runs
  // ---------------------------------------------------------------------------------------

  datatype Op =
    | CacheOp(model: string, text: string, signature: string)
    | GetOp(model: string, text: string)
    | PurgeOp
    | ClearOp(model: string)

  /** An operation and the reading of the clock when it is carried out. */
  datatype Step = Step(op: Op, at: Instant)

  function Next(t: Table, h: Hash, s: Step): Table {
    match s.op
    case CacheOp(model, text, signature) => Cache(t, h, model, text, signature, s.at)
    case GetOp(model, text) => Touched(t, h, model, text, s.at)
    case PurgeOp => Purged(t, s.at)
    case ClearOp(model) => Cleared(t, model)
  }

  /** What the lookups of a run return, with the group each one asks. */
  function Results(t: Table, h: Hash, run: seq<Step>): seq<(string, string)>
    decreases run
  {
    if run == [] then []
    else
      (if run[0].op.GetOp? then [(Group(run[0].op.model), Got(t, h, run[0].op.model, run[0].op.text, run[0].at))]
       else [])
        + Results(Next(t, h, run[0]), h, run[1..])
  }

  /** The clock never goes back. */
  predicate Monotone(start: Instant, run: seq<Step>)
    decreases run
  {
    run == [] || (start <= run[0].at && Monotone(run[0].at, run[1..]))
  }

  function WithoutPurges(run: seq<Step>): seq<Step> {
    if run == [] then [] else (if run[0].op.PurgeOp? then [] else [run[0]]) + WithoutPurges(run[1..])
  }

  // ---------------------------------------------------------------------------------------
  // Purging is invisible
  // ---------------------------------------------------------------------------------------

  /** Two tables have the same unexpired entries. */
  ghost predicate SameLive(a: Table, b: Table, now: Instant) {
    forall slot :: (Hit(a, slot, now) <==> Hit(b, slot, now)) && (Hit(a, slot, now) ==> a[slot] == b[slot])
  }

  lemma LiveLater(a: Table, b: Table, now: Instant, later: Instant)
    requires SameLive(a, b, now) && now <= later
    ensures SameLive(a, b, later)
  {
    forall slot
      ensures (Hit(a, slot, later) <==> Hit(b, slot, later)) && (Hit(a, slot, later) ==> a[slot] == b[slot])
    {
      assert Hit(a, slot, later) ==> Hit(a, slot, now);
      assert Hit(b, slot, later) ==> Hit(b, slot, now);
    }
  }

  lemma SameResult(a: Table, b: Table, h: Hash, model: string, text: string, now: Instant)
    requires SameLive(a, b, now)
    ensures Got(a, h, model, text, now) == Got(b, h, model, text, now)
  {
  }

  lemma PurgeKeepsLive(a: Table, now: Instant)
    ensures SameLive(a, Purged(a, now), now)
  {
  }

  lemma NextKeepsLive(a: Table, b: Table, h: Hash, s: Step)
    requires SameLive(a, b, s.at)
    ensures SameLive(Next(a, h, s), Next(b, h, s), s.at)
  {
    var a', b' := Next(a, h, s), Next(b, h, s);
    forall slot
      ensures (Hit(a', slot, s.at) <==> Hit(b', slot, s.at)) && (Hit(a', slot, s.at) ==> a'[slot] == b'[slot])
    {
      assert Hit(a, slot, s.at) <==> Hit(b, slot, s.at);
    }
  }

  lemma LiveTransitive(a: Table, b: Table, c: Table, now: Instant)
    requires SameLive(a, b, now) && SameLive(b, c, now)
    ensures SameLive(a, c, now)
  {
    forall slot
      ensures (Hit(a, slot, now) <==> Hit(c, slot, now)) && (Hit(a, slot, now) ==> a[slot] == c[slot])
    {
      assert Hit(a, slot, now) <==> Hit(b, slot, now);
      assert Hit(b, slot, now) <==> Hit(c, slot, now);
    }
  }

  lemma {:induction false} LiveRuns(a: Table, b: Table, h: Hash, start: Instant, run: seq<Step>)
    requires SameLive(a, b, start) && Monotone(start, run)
    ensures Results(a, h, run) == Results(b, h, WithoutPurges(run))
    decreases run
  {
    if run != [] {
      var s := run[0];
      LiveLater(a, b, start, s.at);
      if s.op.PurgeOp? {
        PurgeKeepsLive(a, s.at);
        LiveTransitive(Purged(a, s.at), a, b, s.at);
        LiveRuns(Purged(a, s.at), b, h, s.at, run[1..]);
        assert Results(a, h, run) == Results(Purged(a, s.at), h, run[1..]);
        assert WithoutPurges(run) == WithoutPurges(run[1..]);
      } else {
        NextKeepsLive(a, b, h, s);
        LiveRuns(Next(a, h, s), Next(b, h, s), h, s.at, run[1..]);
        if s.op.GetOp? {
          SameResult(a, b, h, s.op.model, s.op.text, s.at);
        }
        ResultsStep(b, h, s, WithoutPurges(run[1..]));
      }
    }
  }

  lemma ResultsStep(t: Table, h: Hash, s: Step, rest: seq<Step>)
    ensures Results(t, h, [s] + rest)
         == (if s.op.GetOp? then [(Group(s.op.model), Got(t, h, s.op.model, s.op.text, s.at))] else []) +
             Results(Next(t, h, s), h, rest)
  {
    assert ([s] + rest)[1..] == rest;
  }

  /** Purges, wherever they happen in a run, change no result of any lookup. */
  lemma PurgesInvisible(t: Table, h: Hash, start: Instant, run: seq<Step>)
    requires Monotone(start, run)
    ensures Results(t, h, run) == Results(t, h, WithoutPurges(run))
  {
    LiveRuns(t, t, h, start, run);
  }

  // ---------------------------------------------------------------------------------------
  // Groups, and what is stored at all
  // ---------------------------------------------------------------------------------------

  /** Two models share their signatures when both are GPT models, or else Claude models, or else Gemini models by
      their names, and otherwise only when they are the same. */
  lemma SameGroupIff(a: string, b: string)
    ensures Group(a) == Group(b) <==>
            if Contains(a, "gpt") || Contains(b, "gpt") then Contains(a, "gpt") && Contains(b, "gpt")
            else if Contains(a, "claude") || Contains(b, "claude") then Contains(a, "claude") && Contains(b, "claude")
            else if Contains(a, "gemini") || Contains(b, "gemini") then Contains(a, "gemini") && Contains(b, "gemini")
            else a == b
  {
    assert StandsAt("gpt", "gpt", 0) && StandsAt("claude", "claude", 0) && StandsAt("gemini", "gemini", 0);
    assert "gpt"[1] == 'p' && "claude"[1] == 'l' && "gemini"[1] == 'e';
  }

  /** The group of a Gemini model. */
  lemma GeminiIff(model: string)
    ensures Group(model) == "gemini" <==>
            Contains(model, "gemini") && !Contains(model, "gpt") && !Contains(model, "claude")
  {
    assert StandsAt("gemini", "gemini", 0);
    assert "gpt"[1] == 'p' && "claude"[1] == 'l' && "gemini"[1] == 'e';
  }

  /** A signature is stored exactly when the text is not empty and it has at least 50 characters. */
  lemma StoredIff(t: Table, h: Hash, model: string, text: string, signature: string, now: Instant)
    ensures Cache(t, h, model, text, signature, now) ==
            if text != "" && |signature| >= 50 then t[Slot(Group(model), h(text)) := Entry(signature, now)] else t
  {
  }

  /** What a lookup returns that finds nothing: a fixed text for Gemini models and nothing for others. */
  predicate Misses(r: string, model: string) {
    r == if Group(model) == "gemini" then "skip_thought_signature_validator" else ""
  }

  /** A fresh signature is found by every model of the group for three hours; after that a lookup misses. */
  lemma FoundForThreeHours(t: Table, h: Hash, model: string, other: string, text: string, signature: string,
                           at: Instant, now: Instant)
    requires Group(other) == Group(model) && text != "" && |signature| >= 50
    ensures var r := Got(Cache(t, h, model, text, signature, at), h, other, text, now);
      if now - at <= 3 * 3_600_000_000_000 then r == signature else Misses(r, other)
  {
  }

  /** A purge forgets exactly the signatures that were last used more than three hours ago. */
  lemma PurgedIff(t: Table, now: Instant, slot: Slot)
    ensures slot in Purged(t, now) <==> slot in t && now - t[slot].stamp <= 3 * 3_600_000_000_000
    ensures slot in Purged(t, now) ==> Purged(t, now)[slot] == t[slot]
  {
  }

  /** After a group is cleared every lookup in it misses; clearing without a model clears all groups. */
  lemma ClearedMisses(t: Table, h: Hash, model: string, other: string, text: string, now: Instant)
    ensures model == "" || Group(other) == Group(model) ==> Misses(Got(Cleared(t, model), h, other, text, now), other)
    ensures model != "" && Group(other) != Group(model) ==>
              Got(Cleared(t, model), h, other, text, now) == Got(t, h, other, text, now)
  {
  }

  /** The empty text is never found. */
  lemma EmptyTextMisses(t: Table, h: Hash, model: string, now: Instant)
    ensures Misses(Got(t, h, model, "", now), model)
  {
  }

  // ---------------------------------------------------------------------------------------
  // Clearing one group
  // ---------------------------------------------------------------------------------------

  predicate Clears(s: Step, group: string) {
    s.op.ClearOp? && s.op.model != "" && Group(s.op.model) == group
  }

  function WithoutClears(run: seq<Step>, group: string): seq<Step> {
    if run == [] then [] else (if Clears(run[0], group) then [] else [run[0]]) + WithoutClears(run[1..], group)
  }

  /** The results of the lookups in other groups. */
  function Others(results: seq<(string, string)>, group: string): seq<(string, string)> {
    if results == [] then [] else (if results[0].0 == group then [] else [results[0]]) + Others(results[1..], group)
  }

  ghost predicate SameOutside(a: Table, b: Table, group: string) {
    forall slot: Slot :: slot.group != group ==> (slot in a <==> slot in b) && (slot in a ==> a[slot] == b[slot])
  }

  lemma NextOutside(a: Table, b: Table, h: Hash, s: Step, group: string)
    requires SameOutside(a, b, group)
    ensures SameOutside(Next(a, h, s), Next(b, h, s), group)
  {
  }

  lemma ClearOutside(a: Table, b: Table, h: Hash, s: Step, group: string)
    requires SameOutside(a, b, group) && Clears(s, group)
    ensures SameOutside(Next(a, h, s), b, group)
  {
  }

  lemma OthersStep(result: (string, string), rest: seq<(string, string)>, group: string)
    ensures Others([result] + rest, group) == (if result.0 == group then [] else [result]) + Others(rest, group)
  {
    assert ([result] + rest)[1..] == rest;
  }

  lemma {:induction false} OutsideRuns(a: Table, b: Table, h: Hash, run: seq<Step>, group: string)
    requires SameOutside(a, b, group)
    ensures Others(Results(a, h, run), group) == Others(Results(b, h, WithoutClears(run, group)), group)
    decreases run
  {
    if run != [] {
      var s := run[0];
      if Clears(s, group) {
        ClearOutside(a, b, h, s, group);
        OutsideRuns(Next(a, h, s), b, h, run[1..], group);
        assert Results(a, h, run) == Results(Next(a, h, s), h, run[1..]);
        assert WithoutClears(run, group) == WithoutClears(run[1..], group);
      } else {
        NextOutside(a, b, h, s, group);
        OutsideRuns(Next(a, h, s), Next(b, h, s), h, run[1..], group);
        OutsideStep(a, b, h, s, run[1..], WithoutClears(run[1..], group), group);
        assert run == [s] + run[1..];
      }
    }
  }

  lemma OutsideStep(a: Table, b: Table, h: Hash, s: Step, rest: seq<Step>, other: seq<Step>, group: string)
    requires SameOutside(a, b, group)
    requires Others(Results(Next(a, h, s), h, rest), group) == Others(Results(Next(b, h, s), h, other), group)
    ensures Others(Results(a, h, [s] + rest), group) == Others(Results(b, h, [s] + other), group)
  {
    ResultsStep(a, h, s, rest);
    ResultsStep(b, h, s, other);
    if s.op.GetOp? {
      var g := Group(s.op.model);
      var x, y := Got(a, h, s.op.model, s.op.text, s.at), Got(b, h, s.op.model, s.op.text, s.at);
      assert g != group ==> x == y;
      OthersStep((g, x), Results(Next(a, h, s), h, rest), group);
      OthersStep((g, y), Results(Next(b, h, s), h, other), group);
    } else {
      assert [] + Results(Next(a, h, s), h, rest) == Results(Next(a, h, s), h, rest);
      assert [] + Results(Next(b, h, s), h, other) == Results(Next(b, h, s), h, other);
    }
  }

  /** Clearing one group, as often as one likes, changes no result of a lookup in another group. */
  lemma ClearIsLocal(t: Table, h: Hash, run: seq<Step>, group: string)
    ensures Others(Results(t, h, run), group) == Others(Results(t, h, WithoutClears(run, group)), group)
  {
    OutsideRuns(t, t, h, run, group);
  }

  // ---------------------------------------------------------------------------------------
  // Sliding expiry
  // ---------------------------------------------------------------------------------------

  /** The table after looking the same text up again and again. */
  function TouchedAll(t: Table, h: Hash, model: string, text: string, times: seq<Instant>): Table {
    if times == [] then t
    else Touched(TouchedAll(t, h, model, text, times[..|times| - 1]), h, model, text, times[|times| - 1])
  }

  function Gap(stored: Instant, times: seq<Instant>, i: nat): int
    requires i < |times|
  {
    times[i] - if i == 0 then stored else times[i - 1]
  }

  /** No two neighbouring accesses are further apart than three hours, in nanoseconds. */
  predicate NoGap(stored: Instant, times: seq<Instant>) {
    forall i :: 0 <= i < |times| ==> Gap(stored, times, i) <= 3 * 3_600_000_000_000
  }

  lemma NoGapStep(stored: Instant, times: seq<Instant>)
    requires times != []
    ensures var n := |times| - 1;
      NoGap(stored, times) <==> NoGap(stored, times[..n]) && Gap(stored, times, n) <= 3 * 3_600_000_000_000
  {
    var n := |times| - 1;
    assert forall i :: 0 <= i < n ==> Gap(stored, times[..n], i) == Gap(stored, times, i);
  }

  /** A stored signature is still there after a series of lookups exactly when no gap was too long. */
  lemma {:induction false} KeptAliveIff(t: Table, h: Hash, model: string, text: string, signature: string,
                                        stored: Instant, times: seq<Instant>)
    requires Storable(text, signature)
    ensures var slot := Slot(Group(model), h(text));
      var u := TouchedAll(Cache(t, h, model, text, signature, stored), h, model, text, times);
      && (slot in u <==> NoGap(stored, times))
      && (slot in u ==> u[slot] == Entry(signature, if times == [] then stored else times[|times| - 1]))
  {
    if times != [] {
      var n := |times| - 1;
      KeptAliveIff(t, h, model, text, signature, stored, times[..n]);
      NoGapStep(stored, times);
    }
  }

  /** A lookup returns the stored signature exactly when no access came too late. */
  lemma SlidingExpiry(t: Table, h: Hash, model: string, text: string, signature: string, stored: Instant,
                      times: seq<Instant>, now: Instant)
    requires Storable(text, signature)
    ensures var u := TouchedAll(Cache(t, h, model, text, signature, stored), h, model, text, times);
      Got(u, h, model, text, now) == if NoGap(stored, times + [now]) then signature else Missing(Group(model))
  {
    KeptAliveIff(t, h, model, text, signature, stored, times);
    KeptAliveIff(t, h, model, text, signature, stored, times + [now]);
    assert (times + [now])[..|times|] == times;
  }

  // ---------------------------------------------------------------------------------------
  // What a lookup may return
  // ---------------------------------------------------------------------------------------

  predicate HasValidSignature(model: string, signature: string) {
    (signature != "" && |signature| >= MinLength) || (signature == Sentinel && Group(model) == "gemini")
  }

  /** A valid signature has at least 50 characters, or is the fixed text for a Gemini model. */
  lemma ValidIff(model: string, signature: string)
    ensures HasValidSignature(model, signature) <==>
            |signature| >= 50 || (signature == "skip_thought_signature_validator" && Group(model) == "gemini")
  {
  }

  ghost predicate LongEnough(t: Table) {
    forall slot :: slot in t ==> |t[slot].signature| >= MinLength
  }

  function Run(t: Table, h: Hash, run: seq<Step>): Table {
    if run == [] then t else Next(Run(t, h, run[..|run| - 1]), h, run[|run| - 1])
  }

  /** In every reachable table all signatures are long enough. */
  lemma {:induction false} ReachableLongEnough(h: Hash, run: seq<Step>)
    ensures LongEnough(Run(map[], h, run))
  {
    if run != [] {
      ReachableLongEnough(h, run[..|run| - 1]);
    }
  }

  /** A lookup returns nothing or a valid signature, after any run. */
  lemma LookupsAreValid(h: Hash, run: seq<Step>, model: string, text: string, now: Instant)
    ensures var r := Got(Run(map[], h, run), h, model, text, now);
      r == "" || HasValidSignature(model, r)
  {
    ReachableLongEnough(h, run);
  }
}
