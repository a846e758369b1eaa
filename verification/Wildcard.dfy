/** Wildcard matching of model ids, and the filter that excludes models by patterns. */
module Wildcard {
  import opened Collections
  import opened RegistryModel
  import Text

  // ---------------------------------------------------------------------------------------
  // Meaning of a pattern
  // ---------------------------------------------------------------------------------------

  function Stars(p: string): nat {
    if p == "" then 0 else (if p[0] == '*' then 1 else 0) + Stars(p[1..])
  }

  /** The pattern with its k-th star replaced by the k-th filling. */
  function Replace(p: string, fills: seq<string>): string
    requires |fills| == Stars(p)
  {
    if p == "" then ""
    else if p[0] == '*' then fills[0] + Replace(p[1..], fills[1..])
    else [p[0]] + Replace(p[1..], fills)
  }

  /** A value matches when it is the pattern with every star replaced by some string. */
  ghost predicate Matches(p: string, v: string) {
    exists fills :: |fills| == Stars(p) && Replace(p, fills) == v
  }

  // ---------------------------------------------------------------------------------------
  // The string functions the matcher calls
  // ---------------------------------------------------------------------------------------

  /** The pieces between the stars. */
  function Split(p: string): (parts: seq<string>)
    ensures |parts| == Stars(p) + 1
  {
    if p == "" then [""]
    else
      var rest := Split(p[1..]);
      if p[0] == '*' then [""] + rest else [[p[0]] + rest[0]] + rest[1..]
  }

  predicate HasPrefix(v: string, s: string) {
    |s| <= |v| && v[..|s|] == s
  }

  predicate HasSuffix(v: string, s: string) {
    |s| <= |v| && v[|v| - |s|..] == s
  }

  predicate OccursAt(v: string, s: string, k: nat) {
    k + |s| <= |v| && v[k..k + |s|] == s
  }

  lemma OccursShifted(v: string, s: string, j: nat)
    requires v != ""
    ensures OccursAt(v[1..], s, j) <==> OccursAt(v, s, j + 1)
  {
    if j + 1 + |s| <= |v| {
      assert v[1..][j..j + |s|] == v[j + 1..j + 1 + |s|];
    }
  }

  lemma OccursFirst(v: string, s: string)
    ensures OccursAt(v, s, 0) <==> HasPrefix(v, s)
  {
    if |s| <= |v| {
      assert v[0..0 + |s|] == v[..|s|];
    }
  }

  /** The position at which strings.Index finds a piece, or -1. */
  function Index(v: string, s: string): (k: int)
    ensures k >= 0 ==> k + |s| <= |v|
    ensures k >= -1
  {
    if HasPrefix(v, s) then 0
    else if v == "" then -1
    else
      var k := Index(v[1..], s);
      if k < 0 then -1 else k + 1
  }

  /** It is the leftmost occurrence. */
  lemma {:induction false} IndexIsLeftmost(v: string, s: string)
    ensures Index(v, s) >= 0 ==> OccursAt(v, s, Index(v, s))
    ensures forall j: nat :: OccursAt(v, s, j) ==> 0 <= Index(v, s) <= j
  {
    OccursFirst(v, s);
    if !HasPrefix(v, s) && v != "" {
      IndexIsLeftmost(v[1..], s);
      var k := Index(v[1..], s);
      if k >= 0 {
        OccursShifted(v, s, k);
      }
      forall j: nat | OccursAt(v, s, j)
        ensures 0 <= Index(v, s) <= j
      {
        OccursShifted(v, s, j - 1);
        assert OccursAt(v[1..], s, j - 1);
      }
    }
  }

  // ---------------------------------------------------------------------------------------
  // From fillings to positions
  // ---------------------------------------------------------------------------------------

  /** The pieces with fillings between them. */
  function Join(parts: seq<string>, fills: seq<string>): string
    requires |parts| == |fills| + 1
  {
    if |parts| == 1 then parts[0] else parts[0] + (fills[0] + Join(parts[1..], fills[1..]))
  }

  lemma {:induction false} ReplaceIsJoin(p: string, fills: seq<string>)
    requires |fills| == Stars(p)
    ensures Replace(p, fills) == Join(Split(p), fills)
  {
    if p != "" {
      var rest := Split(p[1..]);
      if p[0] == '*' {
        ReplaceIsJoin(p[1..], fills[1..]);
        assert Split(p)[1..] == rest;
        assert Join(Split(p), fills) == "" + (fills[0] + Join(rest, fills[1..]));
      } else {
        ReplaceIsJoin(p[1..], fills);
        assert Split(p)[1..] == rest[1..];
        if |rest| == 1 {
          assert Join(Split(p), fills) == [p[0]] + rest[0];
        } else {
          assert [p[0]] + (rest[0] + (fills[0] + Join(rest[1..], fills[1..])))
              == ([p[0]] + rest[0]) + (fills[0] + Join(rest[1..], fills[1..]));
        }
      }
    }
  }

  /** The pieces after a star occur one after the other, the last one at the very end. */
  ghost predicate TailMatches(parts: seq<string>, v: string)
    requires parts != []
    decreases |parts|
  {
    if |parts| == 1 then HasSuffix(v, parts[0])
    else exists k: nat :: OccursAt(v, parts[0], k) && TailMatches(parts[1..], v[k + |parts[0]|..])
  }

  lemma {:induction false} FillingsToPositions(parts: seq<string>, fills: seq<string>)
    requires parts != [] && |fills| == |parts|
    ensures TailMatches(parts, fills[0] + Join(parts, fills[1..]))
    decreases |parts|
  {
    var v := fills[0] + Join(parts, fills[1..]);
    var k := |fills[0]|;
    if |parts| > 1 {
      FillingsToPositions(parts[1..], fills[1..]);
      assert OccursAt(v, parts[0], k);
      assert v[k + |parts[0]|..] == fills[1] + Join(parts[1..], fills[1..][1..]);
    }
  }

  lemma {:induction false} PositionsToFillings(parts: seq<string>, v: string) returns (fills: seq<string>)
    requires parts != [] && TailMatches(parts, v)
    ensures |fills| == |parts| && v == fills[0] + Join(parts, fills[1..])
    decreases |parts|
  {
    if |parts| == 1 {
      fills := [v[..|v| - |parts[0]|]];
      assert v == v[..|v| - |parts[0]|] + v[|v| - |parts[0]|..];
    } else {
      var k: nat :| OccursAt(v, parts[0], k) && TailMatches(parts[1..], v[k + |parts[0]|..]);
      var rest := PositionsToFillings(parts[1..], v[k + |parts[0]|..]);
      fills := [v[..k]] + rest;
      assert fills[1..] == rest;
      assert v == v[..k] + (v[k..k + |parts[0]|] + v[k + |parts[0]|..]);
    }
  }

  /** A pattern with a star matches when its first piece is a prefix and the others follow. */
  lemma StarMatches(p: string, v: string)
    requires Stars(p) > 0
    ensures Matches(p, v) <==> HasPrefix(v, Split(p)[0]) && TailMatches(Split(p)[1..], v[|Split(p)[0]|..])
  {
    var parts := Split(p);
    if Matches(p, v) {
      var fills :| |fills| == Stars(p) && Replace(p, fills) == v;
      ReplaceIsJoin(p, fills);
      FillingsToPositions(parts[1..], fills);
      assert v[|parts[0]|..] == fills[0] + Join(parts[1..], fills[1..]);
    }
    if HasPrefix(v, parts[0]) && TailMatches(parts[1..], v[|parts[0]|..]) {
      var fills := PositionsToFillings(parts[1..], v[|parts[0]|..]);
      ReplaceIsJoin(p, fills);
      assert v == v[..|parts[0]|] + v[|parts[0]|..];
      assert Replace(p, fills) == v;
    }
  }

  lemma {:induction false} PlainMatches(p: string, v: string)
    requires Stars(p) == 0
    ensures Matches(p, v) <==> p == v
  {
    PlainReplace(p);
    var none: seq<string> := [];
    assert |none| == Stars(p) && Replace(p, none) == p;
  }

  lemma {:induction false} PlainReplace(p: string)
    requires Stars(p) == 0
    ensures Replace(p, []) == p
  {
    if p != "" {
      PlainReplace(p[1..]);
    }
  }

  // ---------------------------------------------------------------------------------------
  // From positions to the leftmost search
  // ---------------------------------------------------------------------------------------

  /** The pieces occur one after the other. */
  ghost predicate Follow(segments: seq<string>, v: string)
    decreases |segments|
  {
    segments == [] || exists k: nat :: OccursAt(v, segments[0], k) && Follow(segments[1..], v[k + |segments[0]|..])
  }

  /** More text in front never hurts: the reason why searching leftmost loses nothing. */
  lemma FollowEarlier(segments: seq<string>, v: string, i: nat)
    requires i <= |v| && Follow(segments, v[i..])
    ensures Follow(segments, v)
  {
    if segments != [] {
      var k: nat :| OccursAt(v[i..], segments[0], k) && Follow(segments[1..], v[i..][k + |segments[0]|..]);
      assert v[i..][k..k + |segments[0]|] == v[i + k..i + k + |segments[0]|];
      assert OccursAt(v, segments[0], i + k);
      assert v[i..][k + |segments[0]|..] == v[i + k + |segments[0]|..];
    }
  }

  /** Taking the leftmost occurrence of the first piece keeps every way to go on. */
  lemma LeftmostSuffices(segments: seq<string>, v: string)
    requires segments != []
    ensures Follow(segments, v) <==>
            Index(v, segments[0]) >= 0 && Follow(segments[1..], v[Index(v, segments[0]) + |segments[0]|..])
  {
    var s, i := segments[0], Index(v, segments[0]);
    IndexIsLeftmost(v, s);
    if Follow(segments, v) {
      var k: nat :| OccursAt(v, s, k) && Follow(segments[1..], v[k + |s|..]);
      assert v[i + |s|..][k - i..] == v[k + |s|..];
      FollowEarlier(segments[1..], v[i + |s|..], k - i);
    }
    if i >= 0 && Follow(segments[1..], v[i + |s|..]) {
      assert OccursAt(v, s, i as nat);
    }
  }

  /** Cutting the suffix off first leaves exactly the pieces in between to be found. */
  lemma {:induction false} SuffixFirst(segments: seq<string>, suffix: string, v: string)
    ensures TailMatches(segments + [suffix], v) <==> HasSuffix(v, suffix) && Follow(segments, v[..|v| - |suffix|])
    decreases |segments|
  {
    var parts := segments + [suffix];
    if segments == [] {
      TailAtEnd(suffix, v);
    } else {
      var s := segments[0];
      assert parts[1..] == segments[1..] + [suffix];
      if TailMatches(parts, v) {
        var k: nat :| OccursAt(v, s, k) && TailMatches(parts[1..], v[k + |s|..]);
        SuffixFirst(segments[1..], suffix, v[k + |s|..]);
        SuffixOfRest(v, suffix, k + |s|);
        CutPiece(v, s, suffix, k);
      }
      if HasSuffix(v, suffix) && Follow(segments, v[..|v| - |suffix|]) {
        var w := v[..|v| - |suffix|];
        var k: nat :| OccursAt(w, s, k) && Follow(segments[1..], w[k + |s|..]);
        SuffixOfRest(v, suffix, k + |s|);
        CutPiece(v, s, suffix, k);
        SuffixFirst(segments[1..], suffix, v[k + |s|..]);
      }
    }
  }

  lemma TailAtEnd(suffix: string, v: string)
    ensures TailMatches([suffix], v) <==> HasSuffix(v, suffix)
    ensures HasSuffix(v, suffix) ==> |suffix| <= |v| && Follow([], v[..|v| - |suffix|])
  {
  }

  lemma SuffixOfRest(v: string, suffix: string, i: nat)
    requires i + |suffix| <= |v|
    ensures HasSuffix(v, suffix) <==> HasSuffix(v[i..], suffix)
    ensures v[i..][..|v[i..]| - |suffix|] == v[..|v| - |suffix|][i..]
  {
    assert v[i..][|v[i..]| - |suffix|..] == v[|v| - |suffix|..];
  }

  lemma CutPiece(v: string, s: string, suffix: string, k: nat)
    requires k + |s| + |suffix| <= |v|
    ensures OccursAt(v, s, k) <==> OccursAt(v[..|v| - |suffix|], s, k)
  {
    assert v[..|v| - |suffix|][k..k + |s|] == v[k..k + |s|];
  }

  lemma EmptyPiece(segments: seq<string>, v: string)
    requires segments != [] && segments[0] == ""
    ensures Follow(segments, v) <==> Follow(segments[1..], v)
  {
    if Follow(segments, v) {
      var k: nat :| OccursAt(v, "", k) && Follow(segments[1..], v[k + 0..]);
      FollowEarlier(segments[1..], v, k);
    }
    if Follow(segments[1..], v) {
      assert OccursAt(v, "", 0) && v[0 + 0..] == v;
    }
  }

  // ---------------------------------------------------------------------------------------
  // The matcher
  // ---------------------------------------------------------------------------------------

  lemma ContainsStar(p: string)
    ensures '*' in p <==> Stars(p) > 0
  {
    if p != "" {
      ContainsStar(p[1..]);
      assert p == [p[0]] + p[1..];
    }
  }

  /** For every non-empty pattern the search answers the declarative question. */
  method MatchWildcard(pattern: string, value: string) returns (matched: bool)
    ensures matched <==> pattern != "" && Matches(pattern, value)
  {
    if pattern == "" {
      return false;
    }
    ContainsStar(pattern);
    if '*' !in pattern {
      PlainMatches(pattern, value);
      return pattern == value;
    }
    matched := MatchPieces(Split(pattern), value);
    StarMatches(pattern, value);
  }

  /** Checks the first piece as a prefix, the last as a suffix and searches the others in between. */
  method MatchPieces(parts: seq<string>, value: string) returns (matched: bool)
    requires |parts| >= 2
    ensures matched <==> HasPrefix(value, parts[0]) && TailMatches(parts[1..], value[|parts[0]|..])
  {
    var rest := value;
    var prefix, suffix := parts[0], parts[|parts| - 1];
    assert parts[1..] == parts[1..|parts| - 1] + [suffix];
    if prefix != "" {
      if !HasPrefix(rest, prefix) {
        return false;
      }
      rest := rest[|prefix|..];
    }
    assert rest == value[|prefix|..];
    SuffixFirst(parts[1..|parts| - 1], suffix, rest);
    if suffix != "" {
      if !HasSuffix(rest, suffix) {
        return false;
      }
      rest := rest[..|rest| - |suffix|];
    } else {
      assert rest[..|rest| - |suffix|] == rest;
    }
    matched := MatchMiddle(parts[1..|parts| - 1], rest);
  }

  /** Searches the middle pieces one after the other, each at its leftmost place. */
  method MatchMiddle(segments: seq<string>, value: string) returns (matched: bool)
    ensures matched <==> Follow(segments, value)
  {
    var rest := value;
    assert segments[0..] == segments;
    for i := 0 to |segments|
      invariant Follow(segments, value) <==> Follow(segments[i..], rest)
    {
      var segment := segments[i];
      ghost var left := segments[i..];
      assert left[0] == segment && left[1..] == segments[i + 1..];
      if segment == "" {
        EmptyPiece(left, rest);
        continue;
      }
      LeftmostSuffices(left, rest);
      IndexIsLeftmost(rest, segment);
      var idx := Index(rest, segment);
      if idx < 0 {
        return false;
      }
      rest := rest[idx + |segment|..];
    }
    return true;
  }

  // ---------------------------------------------------------------------------------------
  // Excluding models
  // ---------------------------------------------------------------------------------------

  /** The usable patterns: trimmed, lower-cased, blanks dropped. */
  function Patterns(excluded: seq<string>): (patterns: seq<string>)
    ensures "" !in patterns
  {
    if excluded == [] then []
    else
      var rest := Patterns(excluded[..|excluded| - 1]);
      var trimmed := Text.TrimSpace(excluded[|excluded| - 1]);
      if trimmed != "" then rest + [Text.ToLower(trimmed)] else rest
  }

  function Subject(m: ModelInfo): string {
    Text.ToLower(Text.TrimSpace(m.id))
  }

  ghost predicate Blocked(patterns: seq<string>, m: ModelInfo) {
    exists p :: p in patterns && Matches(p, Subject(m))
  }

  /** The models no pattern matches, in order, without the missing ones. */
  ghost function Unblocked(models: seq<Option<ModelInfo>>, patterns: seq<string>): seq<Option<ModelInfo>> {
    if models == [] then []
    else
      var m := models[|models| - 1];
      Unblocked(models[..|models| - 1], patterns) + if m.Some? && !Blocked(patterns, m.value) then [m] else []
  }

  ghost function Excluded(models: seq<Option<ModelInfo>>, excluded: seq<string>): seq<Option<ModelInfo>> {
    if Patterns(excluded) == [] then models else Unblocked(models, Patterns(excluded))
  }

  // ---------------------------------------------------------------------------------------
  // Excluding, in terms of the configured texts
  // ---------------------------------------------------------------------------------------

  /** A configured text that is not blank matches the id of the model, both trimmed and in lower case. */
  ghost predicate ExcludesAt(excluded: seq<string>, i: nat, m: ModelInfo) {
    && i < |excluded| && Text.TrimSpace(excluded[i]) != ""
    && Matches(Text.ToLower(Text.TrimSpace(excluded[i])), Text.ToLower(Text.TrimSpace(m.id)))
  }

  ghost predicate Excludes(excluded: seq<string>, m: ModelInfo) {
    exists i: nat :: ExcludesAt(excluded, i, m)
  }

  /** All configured texts are blank. */
  predicate NothingExcluded(excluded: seq<string>) {
    forall i :: 0 <= i < |excluded| ==> Text.TrimSpace(excluded[i]) == ""
  }

  lemma ExcludesBefore(excluded: seq<string>, n: nat, i: nat, m: ModelInfo)
    requires i < n <= |excluded|
    ensures ExcludesAt(excluded[..n], i, m) <==> ExcludesAt(excluded, i, m)
  {
    assert excluded[..n][i] == excluded[i];
  }

  lemma ExcludesMore(excluded: seq<string>, m: ModelInfo)
    requires excluded != []
    ensures var n := |excluded| - 1;
      Excludes(excluded, m) <==> Excludes(excluded[..n], m) || ExcludesAt(excluded, n, m)
  {
    var n := |excluded| - 1;
    if Excludes(excluded[..n], m) {
      var i: nat :| ExcludesAt(excluded[..n], i, m);
      ExcludesBefore(excluded, n, i, m);
    }
    if Excludes(excluded, m) {
      var i: nat :| ExcludesAt(excluded, i, m);
      if i < n {
        ExcludesBefore(excluded, n, i, m);
      }
    }
  }

  lemma {:induction false} BlockedIff(excluded: seq<string>, m: ModelInfo)
    ensures Blocked(Patterns(excluded), m) <==> Excludes(excluded, m)
    ensures Patterns(excluded) == [] <==> NothingExcluded(excluded)
  {
    if excluded != [] {
      var n := |excluded| - 1;
      BlockedIff(excluded[..n], m);
      ExcludesMore(excluded, m);
      var trimmed := Text.TrimSpace(excluded[n]);
      LowerBlank(trimmed);
      if trimmed != "" {
        BlockedMore(Patterns(excluded[..n]), Text.ToLower(trimmed), m);
        assert !NothingExcluded(excluded);
      } else {
        assert NothingExcluded(excluded) <==> NothingExcluded(excluded[..n]) by {
          assert forall i :: 0 <= i < n ==> excluded[..n][i] == excluded[i];
        }
      }
    }
  }

  lemma LowerBlank(s: string)
    ensures Text.ToLower(s) == "" <==> s == ""
  {
  }

  lemma BlockedMore(patterns: seq<string>, p: string, m: ModelInfo)
    ensures Blocked(patterns + [p], m) <==> Blocked(patterns, m) || Matches(p, Subject(m))
  {
    if Blocked(patterns, m) {
      var q :| q in patterns && Matches(q, Subject(m));
      assert q in patterns + [p];
    }
    assert p in patterns + [p];
  }

  /** The positions of the models that are present and not excluded. */
  ghost function KeptPositions(models: seq<Option<ModelInfo>>, excluded: seq<string>): set<nat> {
    set j: nat | j < |models| && models[j].Some? && !Excludes(excluded, models[j].value) :: j
  }

  /** The kept models, in order. Without a usable text the list is returned as it is, absent models included. */
  ghost predicate Filters(models: seq<Option<ModelInfo>>, excluded: seq<string>, filtered: seq<Option<ModelInfo>>) {
    if NothingExcluded(excluded) then filtered == models
    else exists ps :: KeepsAt(models, KeptPositions(models, excluded), filtered, ps)
  }

  ghost predicate KeepsAt(models: seq<Option<ModelInfo>>, kept: set<nat>, filtered: seq<Option<ModelInfo>>,
                          ps: seq<nat>) {
    && Enumerates(ps, kept) && |filtered| == |ps|
    && forall k :: 0 <= k < |ps| ==> ps[k] < |models| && filtered[k] == models[ps[k]]
  }

  lemma KeptMore(models: seq<Option<ModelInfo>>, excluded: seq<string>, filtered: seq<Option<ModelInfo>>, ps: seq<nat>)
    requires models != []
    requires KeepsAt(models[..|models| - 1], KeptPositions(models[..|models| - 1], excluded), filtered, ps)
    ensures var n := |models| - 1;
      if models[n].Some? && !Excludes(excluded, models[n].value)
      then KeepsAt(models, KeptPositions(models, excluded), filtered + [models[n]], ps + [n])
      else KeepsAt(models, KeptPositions(models, excluded), filtered, ps)
  {
    hide Excludes;
    var n := |models| - 1;
    var before, after := KeptPositions(models[..n], excluded), KeptPositions(models, excluded);
    assert forall k :: 0 <= k < n ==> models[..n][k] == models[k];
    if models[n].Some? && !Excludes(excluded, models[n].value) {
      assert after == before + {n};
      EnumeratesMore(ps, before, n);
    } else {
      assert after == before;
    }
  }

  lemma {:induction false} UnblockedKeeps(models: seq<Option<ModelInfo>>, excluded: seq<string>) returns (ps: seq<nat>)
    ensures KeepsAt(models, KeptPositions(models, excluded), Unblocked(models, Patterns(excluded)), ps)
  {
    ps := [];
    if models != [] {
      hide KeepsAt, KeptPositions, Excludes, Blocked;
      var n := |models| - 1;
      ps := UnblockedKeeps(models[..n], excluded);
      KeptMore(models, excluded, Unblocked(models[..n], Patterns(excluded)), ps);
      if models[n].Some? {
        BlockedIff(excluded, models[n].value);
        ps := if Excludes(excluded, models[n].value) then ps else ps + [n];
      }
    }
  }

  /** The filter keeps exactly the models that no configured text excludes. */
  lemma ExcludedFilters(models: seq<Option<ModelInfo>>, excluded: seq<string>)
    ensures Filters(models, excluded, Excluded(models, excluded))
  {
    BlockedIff(excluded, ModelInfo("", "", 0, ""));
    if !NothingExcluded(excluded) {
      var ps := UnblockedKeeps(models, excluded);
    }
  }

  method IsBlocked(patterns: seq<string>, id: string) returns (blocked: bool)
    requires "" !in patterns
    ensures blocked <==> exists p :: p in patterns && Matches(p, id)
  {
    for i := 0 to |patterns|
      invariant forall p :: p in patterns[..i] ==> !Matches(p, id)
    {
      var matched := MatchWildcard(patterns[i], id);
      if matched {
        assert patterns[i] in patterns;
        return true;
      }
    }
    assert patterns[..|patterns|] == patterns;
    return false;
  }

  method UsablePatterns(excluded: seq<string>) returns (patterns: seq<string>)
    ensures patterns == Patterns(excluded)
  {
    patterns := [];
    for i := 0 to |excluded|
      invariant patterns == Patterns(excluded[..i])
    {
      assert excluded[..i + 1][..i] == excluded[..i];
      var trimmed := Text.TrimSpace(excluded[i]);
      if trimmed != "" {
        patterns := patterns + [Text.ToLower(trimmed)];
      }
    }
    assert excluded[..|excluded|] == excluded;
  }

  lemma NothingToExclude(models: seq<Option<ModelInfo>>, excluded: seq<string>)
    ensures models == [] || excluded == [] ==> Excluded(models, excluded) == models
  {
  }

  method ApplyExcludedModels(models: seq<Option<ModelInfo>>, excluded: seq<string>)
    returns (filtered: seq<Option<ModelInfo>>)
    ensures filtered == Excluded(models, excluded) && Filters(models, excluded, filtered)
  {
    hide Filters, Matches, Subject, Patterns;
    ExcludedFilters(models, excluded);
    if |models| == 0 || |excluded| == 0 {
      NothingToExclude(models, excluded);
      return models;
    }
    var patterns := UsablePatterns(excluded);
    if |patterns| == 0 {
      return models;
    }
    filtered := [];
    for i := 0 to |models|
      invariant filtered == Unblocked(models[..i], patterns)
    {
      assert models[..i + 1][..i] == models[..i];
      if models[i].Some? {
        var blocked := IsBlocked(patterns, Subject(models[i].value));
        if !blocked {
          filtered := filtered + [models[i]];
        }
      }
    }
    assert models[..|models|] == models;
  }

  lemma {:induction false} UnblockedConcat(a: seq<Option<ModelInfo>>, b: seq<Option<ModelInfo>>, patterns: seq<string>)
    ensures Unblocked(a + b, patterns) == Unblocked(a, patterns) + Unblocked(b, patterns)
    decreases |b|
  {
    if b == [] {
      assert a + b == a;
    } else {
      assert (a + b)[..|a + b| - 1] == a + b[..|b| - 1];
      UnblockedConcat(a, b[..|b| - 1], patterns);
    }
  }

  /** Excluding by two lists one after the other is excluding by both at once. */
  lemma {:induction false} UnblockedTwice(models: seq<Option<ModelInfo>>, p: seq<string>, q: seq<string>)
    ensures Unblocked(Unblocked(models, p), q) == Unblocked(models, p + q)
  {
    if models != [] {
      var n := |models| - 1;
      UnblockedTwice(models[..n], p, q);
      var last := if models[n].Some? && !Blocked(p, models[n].value) then [models[n]] else [];
      UnblockedConcat(Unblocked(models[..n], p), last, q);
      if models[n].Some? {
        assert Blocked(p + q, models[n].value) <==> Blocked(p, models[n].value) || Blocked(q, models[n].value) by {
          if x :| x in p && Matches(x, Subject(models[n].value)) { assert x in p + q; }
          if x :| x in q && Matches(x, Subject(models[n].value)) { assert x in p + q; }
        }
      }
      assert last == [] || [models[n]][..0] == [];
      assert Unblocked([], q) == [];
    }
  }

  lemma {:induction false} PatternsConcat(a: seq<string>, b: seq<string>)
    ensures Patterns(a + b) == Patterns(a) + Patterns(b)
    decreases |b|
  {
    if b == [] {
      assert a + b == a;
    } else {
      assert (a + b)[..|a + b| - 1] == a + b[..|b| - 1];
      PatternsConcat(a, b[..|b| - 1]);
    }
  }

  lemma ExcludedTwice(models: seq<Option<ModelInfo>>, a: seq<string>, b: seq<string>)
    ensures Excluded(Excluded(models, a), b) == Excluded(models, a + b)
  {
    PatternsConcat(a, b);
    UnblockedTwice(models, Patterns(a), Patterns(b));
    if Patterns(a) == [] {
      assert Patterns(a) + Patterns(b) == Patterns(b);
    }
    if Patterns(b) == [] {
      assert Patterns(a) + Patterns(b) == Patterns(a);
    }
  }
}
