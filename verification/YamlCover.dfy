/** What a merge promises: everything in the generated tree is present in the result. */
module YamlCover {
  import opened YamlNode
  import opened YamlMerge
  import Text

  /** Mappings hold whole pairs. */
  predicate Even(n: Node)
    decreases n
  {
    && (n.kind == Mapping ==> |n.content| % 2 == 0)
    && (n.kind == Mapping || n.kind == Sequence ==> forall i :: 0 <= i < |n.content| ==> Even(n.content[i]))
  }

  predicate DistinctKeys(c: seq<Node>) {
    forall i, j :: 0 <= i < j < Size(c) ==> Key(c, i) != Key(c, j)
  }

  /** No mapping has a key twice. */
  predicate Unique(n: Node)
    decreases n
  {
    && (n.kind == Mapping ==> DistinctKeys(n.content))
    && (n.kind == Mapping || n.kind == Sequence ==> forall i :: 0 <= i < |n.content| ==> Unique(n.content[i]))
  }

  /** r holds everything that s says: scalars and sequences exactly, and each pair of a mapping
      unless it is a default value that r leaves out. */
  predicate Covers(r: Node, s: Node)
    decreases s
  {
    match s.kind
    case Mapping => r.kind == Mapping && forall j :: 0 <= j < Size(s.content) ==> PairCovered(r.content, s, j)
    case Sequence =>
      || (r.kind == Scalar && r.tag == "!!null" && s.content == [])
      || (r.kind == Sequence && |r.content| == |s.content| && forall i :: 0 <= i < |s.content| ==>
          Covers(r.content[i], s.content[i]))
    case Scalar => r.kind == Scalar && r.tag == s.tag && r.value == s.value
    case Unset => true
    case Document => r == s
  }

  predicate PairCovered(c: seq<Node>, s: Node, j: nat)
    requires j < Size(s.content)
    decreases s, 0
  {
    var k := Find(c, Key(s.content, j));
    if k >= 0 then Covers(Val(c, k), Val(s.content, j)) else IsZero(Val(s.content, j))
  }

  // ---------------------------------------------------------------------------------------
  // One pair
  // ---------------------------------------------------------------------------------------

  /** Putting a pair into a mapping, as the merge does. */
  lemma PutSame(c: seq<Node>, k: nat, v: Node)
    requires |c| % 2 == 0 && k < Size(c)
    ensures var e := c[2 * k + 1 := v];
      && |e| == |c| && Val(e, k) == v
      && (forall j :: 0 <= j < Size(c) ==> Key(e, j) == Key(c, j) && e[2 * j] == c[2 * j])
      && (forall j :: 0 <= j < Size(c) && j != k ==> Val(e, j) == Val(c, j))
  {
  }

  lemma PutNew(c: seq<Node>, kn: Node, v: Node)
    requires |c| % 2 == 0
    ensures var e := c + [kn, v];
      && |e| % 2 == 0 && Size(e) == Size(c) + 1 && Key(e, Size(c)) == kn.value && Val(e, Size(c)) == v
      && (forall j :: 0 <= j < Size(c) ==> Key(e, j) == Key(c, j) && e[2 * j] == c[2 * j] && Val(e, j) == Val(c, j))
  {
  }

  lemma FindKept(c: seq<Node>, e: seq<Node>, key: string)
    requires Size(c) <= Size(e)
    requires forall j :: 0 <= j < Size(c) ==> Key(e, j) == Key(c, j)
    requires forall j :: Size(c) <= j < Size(e) ==> Key(e, j) != key
    ensures Find(e, key) == Find(c, key)
  {
    FindUnique(e, key, Find(c, key));
  }

  lemma PairsEven(d: seq<Node>, src: Node, n: nat)
    requires |d| % 2 == 0 && n <= Size(src.content)
    ensures |MergePairs(d, src, n)| % 2 == 0
  {
    if n > 0 {
      PairsEven(d, src, n - 1);
    }
  }

  /** A step leaves every other key where it was. */
  lemma StepOther(d: seq<Node>, src: Node, n: nat, key: string)
    requires |d| % 2 == 0 && 0 < n <= Size(src.content) && key != Key(src.content, n - 1)
    ensures var c, e := MergePairs(d, src, n - 1), MergePairs(d, src, n);
      && Find(e, key) == Find(c, key)
      && (Find(c, key) >= 0 ==> Val(e, Find(c, key)) == Val(c, Find(c, key)))
  {
    var c, e := MergePairs(d, src, n - 1), MergePairs(d, src, n);
    PairsEven(d, src, n - 1);
    var k := Find(c, Key(src.content, n - 1));
    if k >= 0 {
      PutSame(c, k, Merge(Val(c, k), Val(src.content, n - 1)));
      FindKept(c, e, key);
    } else if !IsZero(Val(src.content, n - 1)) {
      PutNew(c, src.content[2 * n - 2], Val(src.content, n - 1));
      FindKept(c, e, key);
    }
  }

  /** A step merges into its own key, or adds it, or leaves a default value out. */
  lemma StepOwn(d: seq<Node>, src: Node, n: nat)
    requires |d| % 2 == 0 && 0 < n <= Size(src.content)
    ensures var c, e, key, v := MergePairs(d, src, n - 1), MergePairs(d, src, n), Key(src.content, n - 1),
            Val(src.content, n - 1);
      if Find(c, key) >= 0 then Find(e, key) == Find(c, key) && Val(e, Find(e, key)) == Merge(Val(c, Find(c, key)), v)
      else if IsZero(v) then Find(e, key) == -1
      else Find(e, key) == Size(c) && Val(e, Find(e, key)) == v
  {
    var c, e, key, v := MergePairs(d, src, n - 1), MergePairs(d, src, n), Key(src.content, n - 1),
        Val(src.content, n - 1);
    PairsEven(d, src, n - 1);
    var k := Find(c, key);
    if k >= 0 {
      PutSame(c, k, Merge(Val(c, k), v));
      FindUnique(e, key, k);
    } else if !IsZero(v) {
      PutNew(c, src.content[2 * n - 2], v);
      FindUnique(e, key, Size(c));
    }
  }

  // ---------------------------------------------------------------------------------------
  // Whole pairs stay whole
  // ---------------------------------------------------------------------------------------

  predicate AllEven(c: seq<Node>) {
    forall i :: 0 <= i < |c| ==> Even(c[i])
  }

  lemma {:induction false} KeptEven(c: seq<Node>, keep: set<string>, n: nat)
    requires n <= Size(c) && AllEven(c)
    ensures AllEven(Kept(c, keep, n)) && |Kept(c, keep, n)| % 2 == 0
  {
    if n > 0 {
      KeptEven(c, keep, n - 1);
    }
  }

  lemma PruneEven(m: Node, s: Node)
    requires Even(m) && m.kind == Mapping
    ensures Even(Prune(m, s))
  {
    KeptEven(m.content, TrimmedKeys(s.content) - {""}, Size(m.content));
    assert m.content[2 * Size(m.content)..] == [];
  }

  lemma {:induction false} MergeEven(dst: Node, src: Node)
    requires Even(dst) && Even(src)
    ensures Even(Merge(dst, src))
    decreases src, |src.content| + 1
  {
    match src.kind
    case Mapping =>
      MergePairsEven(if dst.kind == Mapping then dst.content else src.content, src, Size(src.content));
    case Sequence =>
      var original := if dst.kind == Sequence then dst.content else [];
      var a := Assign(original, src.content, |src.content|);
      forall i | 0 <= i < |src.content|
        ensures Even(MergeItems(original, a, src, |src.content|)[i])
      {
        MergedItem(original, a, src, |src.content|, i);
        MergeItemEven(original, a, src, i);
      }
    case _ =>
  }

  lemma {:induction false} MergePairsEven(d: seq<Node>, src: Node, n: nat)
    requires |d| % 2 == 0 && AllEven(d) && Even(src) && src.kind == Mapping && n <= Size(src.content)
    ensures |MergePairs(d, src, n)| % 2 == 0 && AllEven(MergePairs(d, src, n))
    decreases src, n
  {
    if n > 0 {
      MergePairsEven(d, src, n - 1);
      var c := MergePairs(d, src, n - 1);
      var k := Find(c, Key(src.content, n - 1));
      if k >= 0 {
        MergeEven(Val(c, k), Val(src.content, n - 1));
      }
    }
  }

  lemma MergeItemEven(original: seq<Node>, a: seq<int>, src: Node, i: nat)
    requires AllEven(original) && Even(src) && src.kind == Sequence
    requires i < |src.content| == |a| && a[i] < |original|
    ensures Even(MergeItem(original, a, src, i))
    decreases src, i
  {
    if a[i] >= 0 {
      MergeEven(original[a[i]], src.content[i]);
      var m := Merge(original[a[i]], src.content[i]);
      if m.kind == Mapping {
        PruneEven(m, src.content[i]);
      }
    }
  }

  // ---------------------------------------------------------------------------------------
  // Pruning
  // ---------------------------------------------------------------------------------------

  lemma KeptStep(c: seq<Node>, keep: set<string>, n: nat)
    requires 0 < n <= Size(c)
    ensures |Kept(c, keep, n)| % 2 == 0 && |Kept(c, keep, n - 1)| % 2 == 0
    ensures Text.TrimSpace(Key(c, n - 1)) in keep ==>
            Kept(c, keep, n) == Kept(c, keep, n - 1) + [c[2 * n - 2], c[2 * n - 1]]
    ensures Text.TrimSpace(Key(c, n - 1)) !in keep ==> Kept(c, keep, n) == Kept(c, keep, n - 1)
  {
    if n > 1 {
      KeptStep(c, keep, n - 1);
    }
  }

  /** The first occurrence of a key that is kept stays the first one, with its value; other keys are gone. */
  lemma {:induction false} KeptFind(c: seq<Node>, keep: set<string>, n: nat, key: string)
    requires n <= Size(c)
    ensures var e := Kept(c, keep, n);
      && |e| % 2 == 0
      && (Text.TrimSpace(key) !in keep ==> Find(e, key) == -1)
      && (Text.TrimSpace(key) in keep && 0 <= Find(c, key) < n ==>
          Find(e, key) >= 0 && Val(e, Find(e, key)) == Val(c, Find(c, key)))
      && (Text.TrimSpace(key) in keep && !(0 <= Find(c, key) < n) ==> Find(e, key) == -1)
  {
    if n > 0 {
      KeptFind(c, keep, n - 1, key);
      KeptStep(c, keep, n);
      var e, f := Kept(c, keep, n - 1), Kept(c, keep, n);
      if Text.TrimSpace(Key(c, n - 1)) in keep {
        PutNew(e, c[2 * n - 2], c[2 * n - 1]);
        if Key(c, n - 1) != key || Find(e, key) >= 0 {
          KeptFindLater(e, f, key, Key(c, n - 1));
        } else {
          FindUnique(f, key, Size(e));
        }
      }
    }
  }

  lemma KeptFindLater(e: seq<Node>, f: seq<Node>, key: string, last: string)
    requires Size(f) == Size(e) + 1 && Key(f, Size(e)) == last
    requires forall j :: 0 <= j < Size(e) ==> Key(f, j) == Key(e, j)
    requires last != key || Find(e, key) >= 0
    ensures Find(f, key) == Find(e, key)
  {
    FindUnique(f, key, Find(e, key));
  }

  lemma PruneFind(m: Node, s: Node, key: string)
    requires |m.content| % 2 == 0
    ensures var e := Prune(m, s).content;
      if Text.TrimSpace(key) != "" && Text.TrimSpace(key) in TrimmedKeys(s.content) && Find(m.content, key) >= 0
      then Find(e, key) >= 0 && Val(e, Find(e, key)) == Val(m.content, Find(m.content, key))
      else Find(e, key) == -1
  {
    KeptFind(m.content, TrimmedKeys(s.content) - {""}, Size(m.content), key);
    assert Prune(m, s).content == Kept(m.content, TrimmedKeys(s.content) - {""}, Size(m.content));
  }
}
