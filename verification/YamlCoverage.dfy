/** When a merged tree holds everything of the generated one, whatever the file contained. */
module YamlCoverage {
  import opened YamlNode
  import opened YamlMerge
  import opened YamlCover
  import Text

  /** Under a blank key only default values. */
  predicate NoBlankValue(c: seq<Node>) {
    forall j :: 0 <= j < Size(c) && Text.TrimSpace(Key(c, j)) == "" ==> IsZero(Val(c, j))
  }

  /** No mapping that stands in a sequence has a value worth writing under a blank key. */
  predicate Fit(n: Node)
    decreases n
  {
    && (n.kind == Mapping ==> forall j :: 0 <= j < Size(n.content) ==> Fit(Val(n.content, j)))
    && (n.kind == Sequence ==> forall i :: 0 <= i < |n.content| ==>
        Fit(n.content[i]) && (n.content[i].kind == Mapping ==> NoBlankValue(n.content[i].content)))
  }

  lemma {:induction false} FindSelf(c: seq<Node>, j: nat)
    requires DistinctKeys(c) && j < Size(c)
    ensures Find(c, Key(c, j)) == j
  {
    FindUnique(c, Key(c, j), j);
  }

  lemma {:induction false} CoversSelf(s: Node)
    requires Unique(s)
    ensures Covers(s, s)
    decreases s
  {
    match s.kind
    case Mapping =>
      forall j | 0 <= j < Size(s.content)
        ensures PairCovered(s.content, s, j)
      {
        FindSelf(s.content, j);
        CoversSelf(Val(s.content, j));
      }
    case Sequence =>
      forall i | 0 <= i < |s.content|
        ensures Covers(s.content[i], s.content[i])
      {
        CoversSelf(s.content[i]);
      }
    case _ =>
  }

  /** Pruning loses only what stands under blank keys. */
  lemma PruneCovers(m: Node, s: Node)
    requires s.kind == Mapping && |m.content| % 2 == 0
    requires Covers(m, s) && NoBlankValue(s.content)
    ensures Covers(Prune(m, s), s)
  {
    forall j | 0 <= j < Size(s.content)
      ensures PairCovered(Prune(m, s).content, s, j)
    {
      assert PairCovered(m.content, s, j);
      PruneFind(m, s, Key(s.content, j));
    }
  }

  /** The generated tree is covered by the result of merging it into any other one. */
  lemma {:induction false} MergeCovers(dst: Node, src: Node)
    requires Even(dst) && Even(src) && Unique(src) && Fit(src)
    ensures Covers(Merge(dst, src), src)
    decreases src, |src.content| + 1
  {
    match src.kind
    case Mapping =>
      var base := if dst.kind == Mapping then dst else src;
      MergePairsCover(base.content, src, Size(src.content));
    case Sequence =>
      var original := if dst.kind == Sequence then dst.content else [];
      var a := Assign(original, src.content, |src.content|);
      forall i | 0 <= i < |src.content|
        ensures Covers(MergeItems(original, a, src, |src.content|)[i], src.content[i])
      {
        MergedItem(original, a, src, |src.content|, i);
        MergeItemCovers(original, a, src, i);
      }
    case _ =>
  }

  lemma {:induction false} MergePairsCover(d: seq<Node>, src: Node, n: nat)
    requires |d| % 2 == 0 && AllEven(d)
    requires src.kind == Mapping && Even(src) && Unique(src) && Fit(src) && n <= Size(src.content)
    ensures forall j :: 0 <= j < n ==> PairCovered(MergePairs(d, src, n), src, j)
    decreases src, n
  {
    if n > 0 {
      MergePairsCover(d, src, n - 1);
      MergePairsEven(d, src, n - 1);
      var c := MergePairs(d, src, n - 1);
      var key, v := Key(src.content, n - 1), Val(src.content, n - 1);
      forall j | 0 <= j < n - 1
        ensures PairCovered(MergePairs(d, src, n), src, j)
      {
        assert PairCovered(c, src, j);
        StepOther(d, src, n, Key(src.content, j));
      }
      StepOwn(d, src, n);
      assert Unique(v) && Even(v);
      if Find(c, key) >= 0 {
        MergeCovers(Val(c, Find(c, key)), v);
      } else {
        CoversSelf(v);
      }
      assert PairCovered(MergePairs(d, src, n), src, n - 1);
    }
  }

  lemma MergeItemCovers(original: seq<Node>, a: seq<int>, src: Node, i: nat)
    requires AllEven(original)
    requires src.kind == Sequence && Even(src) && Unique(src) && Fit(src)
    requires i < |src.content| == |a| && a[i] < |original|
    ensures Covers(MergeItem(original, a, src, i), src.content[i])
    decreases src, i
  {
    if a[i] < 0 {
      CoversSelf(src.content[i]);
    } else {
      MergeCovers(original[a[i]], src.content[i]);
      MergeEven(original[a[i]], src.content[i]);
      var m := Merge(original[a[i]], src.content[i]);
      if m.kind == Mapping && src.content[i].kind == Mapping {
        PruneCovers(m, src.content[i]);
      }
    }
  }

  // ---------------------------------------------------------------------------------------
  // Merging a tree into itself
  // ---------------------------------------------------------------------------------------

  lemma SearchSelf(c: seq<Node>, taken: seq<int>, n: nat, structural: bool)
    requires n < |c| && |taken| == n && forall i :: 0 <= i < n ==> taken[i] == i
    ensures Matches(c[n], c[n], structural) ==> Search(c, taken, c[n], structural, 0) == n
  {
    forall i | 0 <= i < n
      ensures i in taken
    {
      assert taken[i] == i;
    }
    assert n !in taken;
  }

  /** Only an element that matches itself matches anything by identity. */
  lemma IdentifiedSelf(n: Node, target: Node)
    requires Identified(n, target)
    ensures Identified(target, target)
  {
  }

  lemma MatchSelf(c: seq<Node>, taken: seq<int>, n: nat)
    requires n < |c| && |taken| == n && forall i :: 0 <= i < n ==> taken[i] == i
    ensures Match(c, taken, c[n]) == n
  {
    AlikeSelf(c[n]);
    SearchSelf(c, taken, n, false);
    SearchSelf(c, taken, n, true);
    var byIdentity := Search(c, taken, c[n], false, 0);
    if byIdentity >= 0 {
      IdentifiedSelf(c[byIdentity], c[n]);
    }
  }

  lemma {:induction false} AssignSelf(c: seq<Node>, n: nat)
    requires n <= |c|
    ensures forall i :: 0 <= i < n ==> Assign(c, c, n)[i] == i
  {
    if n > 0 {
      AssignSelf(c, n - 1);
      MatchSelf(c, Assign(c, c, n - 1), n - 1);
    }
  }

  /** The first n values are merged into themselves. */
  predicate SelfMerged(c: seq<Node>, e: seq<Node>, n: nat) {
    && |e| == |c|
    && (forall j :: 0 <= j < Size(e) ==> e[2 * j] == c[2 * j])
    && (forall j :: 0 <= j < n && j < Size(e) ==> Val(e, j) == Merge(Val(c, j), Val(c, j)))
    && (forall j :: n <= j < Size(e) ==> Val(e, j) == Val(c, j))
  }

  lemma SelfFound(src: Node, c: seq<Node>, n: nat)
    requires DistinctKeys(src.content) && 0 < n <= Size(src.content) && SelfMerged(src.content, c, n - 1)
    ensures Find(c, Key(src.content, n - 1)) == n - 1 && Val(c, n - 1) == Val(src.content, n - 1)
  {
    assert forall j :: 0 <= j < Size(c) ==> Key(c, j) == Key(src.content, j);
    FindUnique(c, Key(src.content, n - 1), n - 1);
  }

  lemma SelfPut(c: seq<Node>, e: seq<Node>, n: nat)
    requires |c| % 2 == 0 && 0 < n <= Size(c) && SelfMerged(c, e, n - 1)
    ensures SelfMerged(c, e[2 * n - 1 := Merge(Val(c, n - 1), Val(c, n - 1))], n)
  {
    hide Merge;
    PutSame(e, n - 1, Merge(Val(c, n - 1), Val(c, n - 1)));
  }

  lemma SelfStart(c: seq<Node>)
    ensures SelfMerged(c, c, 0)
  {
  }

  lemma EvenSize(n: Node)
    requires n.kind == Mapping && Even(n)
    ensures |n.content| % 2 == 0
  {
  }

  /** Pair by pair, every value is merged into itself. */
  lemma {:induction false} SelfPairs(src: Node, n: nat)
    requires src.kind == Mapping && Even(src) && DistinctKeys(src.content) && n <= Size(src.content)
    ensures SelfMerged(src.content, MergePairs(src.content, src, n), n)
  {
    hide SelfMerged, DistinctKeys, Even, Find, Merge;
    if n == 0 {
      SelfStart(src.content);
    } else {
      SelfPairs(src, n - 1);
      var c := MergePairs(src.content, src, n - 1);
      SelfFound(src, c, n);
      EvenSize(src);
      SelfPut(src.content, c, n);
    }
  }

  lemma SelfItem(src: Node, i: nat)
    requires src.kind == Sequence && i < |src.content|
    ensures var m := Merge(src.content[i], src.content[i]);
      && Merge(src, src).kind == Sequence && |Merge(src, src).content| == |src.content|
      && Merge(src, src).content[i] ==
          if m.kind == Mapping && src.content[i].kind == Mapping then Prune(m, src.content[i]) else m
  {
    var a := Assign(src.content, src.content, |src.content|);
    AssignSelf(src.content, |src.content|);
    MergedItem(src.content, a, src, |src.content|, i);
  }

  // ---------------------------------------------------------------------------------------
  // The exact condition
  // ---------------------------------------------------------------------------------------

  lemma {:induction false} ZeroIsFit(n: Node)
    requires IsZero(n)
    ensures Fit(n)
    decreases n
  {
    match n.kind
    case Mapping =>
      forall j | 0 <= j < Size(n.content)
        ensures Fit(Val(n.content, j))
      {
        ZeroIsFit(Val(n.content, j));
      }
    case Sequence =>
      forall i | 0 <= i < |n.content|
        ensures Fit(n.content[i]) && (n.content[i].kind == Mapping ==> NoBlankValue(n.content[i].content))
      {
        ZeroIsFit(n.content[i]);
      }
    case _ =>
  }

  /** What pruning leaves is covered only if everything was. */
  lemma PruneHides(m: Node, s: Node)
    requires s.kind == Mapping && m.kind == Mapping && |m.content| % 2 == 0
    requires forall j :: 0 <= j < Size(s.content) && IsZero(Val(s.content, j)) ==> PairCovered(m.content, s, j)
    requires Covers(Prune(m, s), s)
    ensures Covers(m, s) && NoBlankValue(s.content)
  {
    forall j | 0 <= j < Size(s.content)
      ensures PairCovered(m.content, s, j)
      ensures Text.TrimSpace(Key(s.content, j)) == "" ==> IsZero(Val(s.content, j))
    {
      assert PairCovered(Prune(m, s).content, s, j);
      PruneFind(m, s, Key(s.content, j));
    }
  }

  lemma SelfPair(src: Node, j: nat)
    requires src.kind == Mapping && Even(src) && Unique(src) && j < Size(src.content)
    ensures Merge(src, src).kind == Mapping && |Merge(src, src).content| == |src.content|
    ensures PairCovered(Merge(src, src).content, src, j) <==>
            Covers(Merge(Val(src.content, j), Val(src.content, j)), Val(src.content, j))
  {
    SelfPairs(src, Size(src.content));
    var e := Merge(src, src).content;
    assert forall i :: 0 <= i < Size(e) ==> Key(e, i) == Key(src.content, i);
    FindUnique(e, Key(src.content, j), j);
  }

  /** A tree that is not fit loses something when it is merged into itself. */
  lemma {:induction false} SelfMergeLoses(s: Node)
    requires Even(s) && Unique(s) && Covers(Merge(s, s), s)
    ensures Fit(s)
    decreases s
  {
    match s.kind
    case Mapping =>
      forall j | 0 <= j < Size(s.content)
        ensures Fit(Val(s.content, j))
      {
        SelfPair(s, j);
        assert PairCovered(Merge(s, s).content, s, j);
        SelfMergeLoses(Val(s.content, j));
      }
    case Sequence =>
      forall i | 0 <= i < |s.content|
        ensures Fit(s.content[i]) && (s.content[i].kind == Mapping ==> NoBlankValue(s.content[i].content))
      {
        SelfItem(s, i);
        SelfItemLoses(s, i);
        SelfMergeLoses(s.content[i]);
      }
    case _ =>
  }

  lemma SelfItemLoses(s: Node, i: nat)
    requires s.kind == Sequence && Even(s) && Unique(s) && i < |s.content|
    requires var t, m := s.content[i], Merge(s.content[i], s.content[i]);
      Covers(if m.kind == Mapping && t.kind == Mapping then Prune(m, t) else m, t)
    ensures Covers(Merge(s.content[i], s.content[i]), s.content[i])
    ensures s.content[i].kind == Mapping ==> NoBlankValue(s.content[i].content)
  {
    var t := s.content[i];
    if t.kind == Mapping {
      forall j | 0 <= j < Size(t.content) && IsZero(Val(t.content, j))
        ensures PairCovered(Merge(t, t).content, t, j)
      {
        ZeroIsFit(Val(t.content, j));
        MergeCovers(Val(t.content, j), Val(t.content, j));
        SelfPair(t, j);
      }
      MergeEven(t, t);
      PruneHides(Merge(t, t), t);
    }
  }

  ghost predicate AlwaysCovered(src: Node) {
    forall dst :: Even(dst) ==> Covers(Merge(dst, src), src)
  }

  lemma FitAlwaysCovered(src: Node)
    requires Even(src) && Unique(src) && Fit(src)
    ensures AlwaysCovered(src)
  {
    forall dst | Even(dst)
      ensures Covers(Merge(dst, src), src)
    {
      MergeCovers(dst, src);
    }
  }

  /** A generated tree survives a merge into every file exactly when it is fit. */
  lemma CoverageIff(src: Node)
    requires Even(src) && Unique(src)
    ensures AlwaysCovered(src) <==> Fit(src)
  {
    if Fit(src) {
      FitAlwaysCovered(src);
    } else if Covers(Merge(src, src), src) {
      SelfMergeLoses(src);
    }
  }
}
