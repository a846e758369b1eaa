/** Saving the same generated tree a second time. */
module YamlTwice {
  import opened YamlNode
  import opened YamlMerge
  import opened YamlCover
  import opened YamlCoverage
  import opened YamlOrder
  import Text

  /** An element is found again as the counterpart of a generated one. */
  predicate Recognised(n: Node, target: Node) {
    Identified(n, target) || (!Identified(target, target) && Alike(n, target))
  }

  /** Every new part of the tree is kept by a merge into itself, and every element of a sequence that was
      merged into an old one is found again. */
  predicate Settles(dst: Node, src: Node)
    decreases src, 2
  {
    match src.kind
    case Mapping =>
      var base := if dst.kind == Mapping then dst.content else src.content;
      forall j :: 0 <= j < Size(src.content) ==> PairSettles(base, src, j)
    case Sequence =>
      || (dst.kind == Scalar && dst.tag == "!!null" && src.content == [])
      || var original := if dst.kind == Sequence then dst.content else [];
         forall i :: 0 <= i < |src.content| ==>
             ItemSettles(original, Assign(original, src.content, |src.content|), src, i)
    case _ => true
  }

  predicate PairSettles(c: seq<Node>, src: Node, j: nat)
    requires j < Size(src.content)
    decreases src, 0
  {
    var k := Find(c, Key(src.content, j));
    if k >= 0 then Settles(Val(c, k), Val(src.content, j)) else IsZero(Val(src.content, j)) || Neat(Val(src.content, j))
  }

  predicate ItemSettles(original: seq<Node>, a: seq<int>, src: Node, i: nat)
    requires i < |src.content| == |a| && a[i] < |original|
    decreases src, 0
  {
    var t := src.content[i];
    if a[i] < 0 then Neat(t) && (t.kind == Mapping ==> NoBlankKey(t.content))
    else Settles(original[a[i]], t) && Recognised(MergeItem(original, a, src, i), t)
  }

  // ---------------------------------------------------------------------------------------
  // Mappings
  // ---------------------------------------------------------------------------------------

  /** A pair that has not been reached yet is where it was, with the value it had. */
  lemma {:induction false} Untouched(d: seq<Node>, src: Node, n: nat, j: nat)
    requires |d| % 2 == 0 && DistinctKeys(src.content) && n <= j < Size(src.content)
    ensures var e, key := MergePairs(d, src, n), Key(src.content, j);
      && Find(e, key) == Find(d, key)
      && (Find(d, key) >= 0 ==> Val(e, Find(d, key)) == Val(d, Find(d, key)))
  {
    if n > 0 {
      Untouched(d, src, n - 1, j);
      StepOther(d, src, n, Key(src.content, j));
    }
  }

  /** What has become of a generated pair: merged into its old value, left out, or appended. */
  lemma {:induction false} PairAfter(d: seq<Node>, src: Node, n: nat, j: nat)
    requires |d| % 2 == 0 && DistinctKeys(src.content) && j < n <= Size(src.content)
    ensures var e, key, v := MergePairs(d, src, n), Key(src.content, j), Val(src.content, j);
      if Find(d, key) >= 0 then Find(e, key) == Find(d, key) && Val(e, Find(e, key)) == Merge(Val(d, Find(d, key)), v)
      else if IsZero(v) then Find(e, key) == -1
      else Find(e, key) >= 0 && Val(e, Find(e, key)) == v
  {
    if j == n - 1 {
      Untouched(d, src, j, j);
      StepOwn(d, src, n);
    } else {
      PairAfter(d, src, n - 1, j);
      StepOther(d, src, n, Key(src.content, j));
    }
  }

  /** A pair that a merge does not change. */
  predicate PairFixed(c: seq<Node>, src: Node, j: nat)
    requires j < Size(src.content)
  {
    var k, v := Find(c, Key(src.content, j)), Val(src.content, j);
    if k >= 0 then Merge(Val(c, k), v) == Val(c, k) else IsZero(v)
  }

  lemma {:induction false} FixedPairs(c: seq<Node>, src: Node, n: nat)
    requires n <= Size(src.content) && forall j :: 0 <= j < n ==> PairFixed(c, src, j)
    ensures MergePairs(c, src, n) == c
  {
    if n > 0 {
      FixedPairs(c, src, n - 1);
      assert PairFixed(c, src, n - 1);
    }
  }

  lemma FixedPairsIff(c: seq<Node>, src: Node, j: nat)
    requires |c| % 2 == 0 && DistinctKeys(src.content) && j < Size(src.content)
    requires MergePairs(c, src, Size(src.content)) == c
    ensures PairFixed(c, src, j)
  {
    PairAfter(c, src, Size(src.content), j);
  }

  // ---------------------------------------------------------------------------------------
  // Pruning again
  // ---------------------------------------------------------------------------------------

  /** Only pairs under blank keys stand behind the pairs of p. */
  predicate BlankBehind(p: seq<Node>, e: seq<Node>) {
    |e| % 2 == 0 && p <= e && forall j :: Size(p) <= j < Size(e) ==> Text.TrimSpace(Key(e, j)) == ""
  }

  lemma OneMoreBlank(p: seq<Node>, c: seq<Node>, kn: Node, v: Node)
    requires |p| % 2 == 0 && BlankBehind(p, c) && Text.TrimSpace(kn.value) == ""
    ensures BlankBehind(p, c + [kn, v])
  {
    PutNew(c, kn, v);
  }

  /** A pair that is fixed in p stays fixed however many others have been merged. */
  lemma StepFixed(p: seq<Node>, t: Node, n: nat)
    requires |p| % 2 == 0 && DistinctKeys(t.content) && 0 < n <= Size(t.content) && PairFixed(p, t, n - 1)
    ensures MergePairs(p, t, n) == MergePairs(p, t, n - 1)
  {
    var c, k := MergePairs(p, t, n - 1), Find(p, Key(t.content, n - 1));
    Untouched(p, t, n - 1, n - 1);
    if k >= 0 {
      PutBack(c, k);
    }
  }

  lemma StepNew(p: seq<Node>, t: Node, n: nat)
    requires |p| % 2 == 0 && DistinctKeys(t.content) && 0 < n <= Size(t.content)
    requires Find(p, Key(t.content, n - 1)) < 0
    ensures var c, v := MergePairs(p, t, n - 1), Val(t.content, n - 1);
      MergePairs(p, t, n) == if IsZero(v) then c else c + [t.content[2 * n - 2], v]
  {
    Untouched(p, t, n - 1, n - 1);
  }

  /** A pair of t that changes nothing in p, or stands under a blank key that p does not have. */
  predicate PairSpared(p: seq<Node>, t: Node, j: nat)
    requires j < Size(t.content)
  {
    var key := Key(t.content, j);
    if Text.TrimSpace(key) == "" then Find(p, key) < 0 else PairFixed(p, t, j)
  }

  lemma BlankStep(p: seq<Node>, t: Node, n: nat)
    requires |p| % 2 == 0 && DistinctKeys(t.content) && 0 < n <= Size(t.content) && PairSpared(p, t, n - 1)
    requires BlankBehind(p, MergePairs(p, t, n - 1))
    ensures BlankBehind(p, MergePairs(p, t, n))
  {
    hide BlankBehind, MergePairs, PairFixed, FindFrom;
    if Text.TrimSpace(Key(t.content, n - 1)) == "" {
      StepNew(p, t, n);
      OneMoreBlank(p, MergePairs(p, t, n - 1), t.content[2 * n - 2], Val(t.content, n - 1));
    } else {
      StepFixed(p, t, n);
    }
  }

  /** Merging into a pruned mapping only appends pairs under blank keys. */
  lemma {:induction false} BlankAppended(p: seq<Node>, t: Node, n: nat)
    requires |p| % 2 == 0 && DistinctKeys(t.content) && n <= Size(t.content)
    requires forall j :: 0 <= j < n ==> PairSpared(p, t, j)
    ensures BlankBehind(p, MergePairs(p, t, n))
  {
    hide PairSpared;
    if n > 0 {
      hide BlankBehind, MergePairs;
      BlankAppended(p, t, n - 1);
      BlankStep(p, t, n);
    } else {
      assert BlankBehind(p, p);
    }
  }

  lemma PutBack(c: seq<Node>, k: nat)
    requires k < Size(c)
    ensures c[2 * k + 1 := Val(c, k)] == c
  {
  }

  lemma {:induction false} KeptPrefix(e: seq<Node>, p: seq<Node>, keep: set<string>, n: nat)
    requires |p| % 2 == 0 && p <= e && n <= Size(e)
    requires forall j :: 0 <= j < Size(p) ==> Text.TrimSpace(Key(p, j)) in keep
    requires forall j :: Size(p) <= j < Size(e) ==> Text.TrimSpace(Key(e, j)) !in keep
    ensures Kept(e, keep, n) == if n <= Size(p) then p[..2 * n] else p
  {
    assert Size(p) <= Size(e);
    if n > 0 {
      KeptPrefix(e, p, keep, n - 1);
      if n <= Size(p) {
        assert Key(e, n - 1) == Key(p, n - 1);
        TakePair(p, n);
      } else {
        assert p[..2 * Size(p)] == p;
      }
    }
  }

  /** A merged element stays as it is when it is merged and pruned again. */
  lemma PrunedAgain(m: Node, t: Node)
    requires m.kind == Mapping && t.kind == Mapping && |m.content| % 2 == 0 && DistinctKeys(t.content)
    requires Merge(m, t) == m
    ensures Prune(Merge(Prune(m, t), t), t) == Prune(m, t)
  {
    var keep := TrimmedKeys(t.content) - {""};
    var p := Prune(m, t).content;
    assert p == Kept(m.content, keep, Size(m.content));
    KeptKeys(m.content, keep, Size(m.content));
    forall j | 0 <= j < Size(t.content)
      ensures PairSpared(p, t, j)
    {
      FixedPairsIff(m.content, t, j);
      PruneFind(m, t, Key(t.content, j));
      assert Text.TrimSpace(Key(t.content, j)) in TrimmedKeys(t.content);
    }
    BlankAppended(p, t, Size(t.content));
    var e := MergePairs(p, t, Size(t.content));
    KeptPrefix(e, p, keep, Size(e));
    assert p[..2 * Size(p)] == p;
    assert e[2 * Size(e)..] == [];
  }

  // ---------------------------------------------------------------------------------------
  // Sequences
  // ---------------------------------------------------------------------------------------

  lemma MatchRecognised(items: seq<Node>, taken: seq<int>, targets: seq<Node>, n: nat)
    requires n < |items| == |targets| && |taken| == n && forall i :: 0 <= i < n ==> taken[i] == i
    requires Recognised(items[n], targets[n])
    ensures Match(items, taken, targets[n]) == n
  {
    var t := targets[n];
    forall i | 0 <= i < n
      ensures i in taken
    {
      assert taken[i] == i;
    }
    assert n !in taken;
    var byIdentity := Search(items, taken, t, false, 0);
    if byIdentity >= 0 {
      IdentifiedSelf(items[byIdentity], t);
    }
  }

  lemma {:induction false} AssignRecognised(items: seq<Node>, targets: seq<Node>, n: nat)
    requires n <= |items| == |targets|
    requires forall i :: 0 <= i < |items| ==> Recognised(items[i], targets[i])
    ensures forall i :: 0 <= i < n ==> Assign(items, targets, n)[i] == i
  {
    if n > 0 {
      AssignRecognised(items, targets, n - 1);
      MatchRecognised(items, Assign(items, targets, n - 1), targets, n - 1);
    }
  }

  /** One element of a merged sequence, merged with its counterpart once more. */
  function Again(m: Node, t: Node): Node {
    var r := Merge(m, t);
    if r.kind == Mapping && t.kind == Mapping then Prune(r, t) else r
  }

  lemma ItemAgain(original: seq<Node>, a: seq<int>, src: Node, i: nat)
    requires AllEven(original) && src.kind == Sequence && Even(src) && Unique(src)
    requires i < |src.content| == |a| && a[i] < |original| && ItemSettles(original, a, src, i)
    requires a[i] >= 0 ==>
               Merge(Merge(original[a[i]], src.content[i]), src.content[i]) == Merge(original[a[i]], src.content[i])
    ensures Recognised(MergeItem(original, a, src, i), src.content[i])
    ensures Again(MergeItem(original, a, src, i), src.content[i]) == MergeItem(original, a, src, i)
  {
    var t := src.content[i];
    if a[i] < 0 {
      AlikeSelf(t);
      SelfMergeKeepsIff(t);
      if t.kind == Mapping {
        PruneSelf(t, t);
      }
    } else {
      MergeEven(original[a[i]], t);
      if t.kind == Mapping {
        PrunedAgain(Merge(original[a[i]], t), t);
      }
    }
  }

  /** Saving the same generated tree a second time changes nothing, when the first save settles. */
  lemma {:induction false} SavedTwice(dst: Node, src: Node)
    requires Even(dst) && Even(src) && Unique(src) && Settles(dst, src)
    ensures Merge(Merge(dst, src), src) == Merge(dst, src)
    decreases src, 2
  {
    match src.kind
    case Mapping =>
      PairsTwice(if dst.kind == Mapping then dst.content else src.content, src);
    case Sequence =>
      if !(dst.kind == Scalar && dst.tag == "!!null" && src.content == []) {
        ItemsTwice(dst, src);
      }
    case _ =>
  }

  lemma PairsTwice(d: seq<Node>, src: Node)
    requires |d| % 2 == 0 && AllEven(d) && src.kind == Mapping && Even(src) && Unique(src)
    requires forall j :: 0 <= j < Size(src.content) ==> PairSettles(d, src, j)
    ensures var e := MergePairs(d, src, Size(src.content)); MergePairs(e, src, Size(src.content)) == e
    decreases src, 1
  {
    var e := MergePairs(d, src, Size(src.content));
    forall j | 0 <= j < Size(src.content)
      ensures PairFixed(e, src, j)
    {
      var k, v := Find(d, Key(src.content, j)), Val(src.content, j);
      assert PairSettles(d, src, j);
      PairAfter(d, src, Size(src.content), j);
      if k >= 0 {
        SavedTwice(Val(d, k), v);
      } else if !IsZero(v) {
        SelfMergeKeepsIff(v);
      }
    }
    FixedPairs(e, src, Size(src.content));
  }

  lemma ItemsTwice(dst: Node, src: Node)
    requires Even(dst) && src.kind == Sequence && Even(src) && Unique(src) && Settles(dst, src)
    requires !(dst.kind == Scalar && dst.tag == "!!null" && src.content == [])
    ensures Merge(Merge(dst, src), src) == Merge(dst, src)
    decreases src, 1
  {
    var original := if dst.kind == Sequence then dst.content else [];
    var n := |src.content|;
    var a := Assign(original, src.content, n);
    var items := MergeItems(original, a, src, n);
    forall i | 0 <= i < n
      ensures items[i] == MergeItem(original, a, src, i)
      ensures Recognised(items[i], src.content[i]) && Again(items[i], src.content[i]) == items[i]
    {
      assert ItemSettles(original, a, src, i);
      if a[i] >= 0 {
        SavedTwice(original[a[i]], src.content[i]);
      }
      MergedItem(original, a, src, n, i);
      ItemAgain(original, a, src, i);
    }
    AssignRecognised(items, src.content, n);
    ItemsSettled(items, Assign(items, src.content, n), src);
  }

  lemma ItemIsAgain(items: seq<Node>, a: seq<int>, src: Node, i: nat)
    requires i < |items| == |a| == |src.content| && a[i] == i
    ensures MergeItem(items, a, src, i) == Again(items[i], src.content[i])
  {
  }

  lemma ItemsSettled(items: seq<Node>, a: seq<int>, src: Node)
    requires |items| == |a| == |src.content| && forall i :: 0 <= i < |a| ==> a[i] == i
    requires forall i :: 0 <= i < |items| ==> Again(items[i], src.content[i]) == items[i]
    ensures MergeItems(items, a, src, |src.content|) == items
  {
    hide Merge, Prune;
    forall i | 0 <= i < |items|
      ensures MergeItems(items, a, src, |src.content|)[i] == items[i]
    {
      MergedItem(items, a, src, |src.content|, i);
      ItemIsAgain(items, a, src, i);
      assert Again(items[i], src.content[i]) == items[i];
    }
  }

  // ---------------------------------------------------------------------------------------
  // When the second save differs
  // ---------------------------------------------------------------------------------------

  /** A sequence of one element that was merged into an old one is saved twice as once exactly when the merged
      element is found again, by its identity or by its structure. */
  lemma SingleTwiceIff(dst: Node, src: Node)
    requires Even(dst) && dst.kind == Sequence && src.kind == Sequence && Even(src) && Unique(src) && |src.content| == 1
    requires Assign(dst.content, src.content, 1)[0] >= 0
    requires Settles(dst.content[Assign(dst.content, src.content, 1)[0]], src.content[0])
    ensures |Merge(dst, src).content| == 1
    ensures var t, item := src.content[0], Merge(dst, src).content[0];
      Merge(Merge(dst, src), src) == Merge(dst, src) <==> Identified(item, t) || Alike(item, t)
  {
    var a := Assign(dst.content, src.content, 1);
    var t, x := src.content[0], dst.content[a[0]];
    MergedItem(dst.content, a, src, 1, 0);
    var items := Merge(dst, src).content;
    assert items == [items[0]];
    var b := Assign(items, src.content, 1);
    assert b == [Match(items, [], t)];
    MergedItem(items, b, src, 1, 0);
    SavedTwice(x, t);
    MergeEven(x, t);
    AgainOnce(x, t);
    AlikeSelf(t);
    assert Merge(Merge(dst, src), src).content == [MergeItem(items, b, src, 0)];
    assert Search(items, [], t, false, 0) == if Identified(items[0], t) then 0 else -1;
    assert Search(items, [], t, true, 0) == if Alike(items[0], t) then 0 else -1;
  }

  lemma AgainOnce(x: Node, t: Node)
    requires Even(x) && Even(t) && Unique(t) && Merge(Merge(x, t), t) == Merge(x, t)
    ensures Again(Again(x, t), t) == Again(x, t)
  {
    MergeEven(x, t);
    if t.kind == Mapping {
      PrunedAgain(Merge(x, t), t);
    }
  }

  function Leaf(tag: string, value: string): Node {
    Node(Scalar, tag, value, [])
  }

  function Pairs(k1: string, v1: Node, k2: string, v2: Node): Node {
    Node(Mapping, "!!map", "", [Leaf("!!str", k1), v1, Leaf("!!str", k2), v2])
  }

  function List(n: Node): Node {
    Node(Sequence, "!!seq", "", [n])
  }

  /** A key that does not identify an element, without blanks around it. */
  predicate PlainKey(key: string) {
    key != "" && Text.TrimSpace(key) == key && Fold(key) !in IdentityKeys
  }

  lemma {:induction false} NoNamedIdentity(c: seq<Node>, k: nat)
    requires k <= |IdentityKeys| && forall j :: 0 <= j < Size(c) ==> PlainKey(Key(c, j))
    ensures NamedIdentity(c, k) == ""
    decreases |IdentityKeys| - k
  {
    if k < |IdentityKeys| {
      NoScalarUnder(c, IdentityKeys[k], 0);
      NoNamedIdentity(c, k + 1);
    }
  }

  lemma {:induction false} NoScalarUnder(c: seq<Node>, key: string, i: nat)
    requires i <= Size(c) && key in IdentityKeys && forall j :: 0 <= j < Size(c) ==> PlainKey(Key(c, j))
    ensures ScalarUnder(c, key, i) == ""
    decreases Size(c) - i
  {
    if i < Size(c) {
      NoScalarUnder(c, key, i + 1);
    }
  }

  function TextPair(key: string, v: Node): string {
    Fold(key) + "=" + Text.TrimSpace(v.value)
  }

  predicate Blank(v: Node) {
    Text.TrimSpace(v.value) == ""
  }

  /** Two plain pairs are recognised by their first text. */
  lemma FirstTextIdentity(k: string, v: Node, l: string, w: Node)
    requires PlainKey(k) && PlainKey(l) && v.kind == w.kind == Scalar
    ensures Identity(Pairs(k, v, l, w)) ==
            if !Blank(v) then TextPair(k, v) else if !Blank(w) then TextPair(l, w) else ""
  {
    var c := Pairs(k, v, l, w).content;
    NoNamedIdentity(c, 0);
    assert FirstScalar(c, 2) == "";
    assert FirstScalar(c, 1) == if !Blank(w) then TextPair(l, w) else "";
  }

  /** Merging two plain pairs into the same pairs in the other order keeps the order of the file. */
  lemma SwappedPairs(k: string, l: string, prior: Node, v: Node, w: Node)
    requires PlainKey(k) && PlainKey(l) && k != l && prior.kind == v.kind == w.kind == Scalar
    ensures var m := Merge(Pairs(l, prior, k, v), Pairs(k, v, l, w));
      && m == Pairs(l, prior.(tag := w.tag, value := w.value), k, v)
      && Prune(m, Pairs(k, v, l, w)) == m
  {
    var c, t := Pairs(l, prior, k, v).content, Pairs(k, v, l, w);
    FindUnique(c, k, 1);
    FindUnique(c, l, 0);
    var c1, c2 := MergePairs(c, t, 1), MergePairs(c, t, 2);
    assert MergePairs(c, t, 0) == c;
    assert Merge(v, v) == v;
    assert c1 == c;
    assert c2 == c[1 := Merge(prior, w)];
    assert Merge(prior, w) == prior.(tag := w.tag, value := w.value);
    var m := Pairs(l, prior.(tag := w.tag, value := w.value), k, v);
    assert Merge(Pairs(l, prior, k, v), t) == m;
    PrunedPairs(m, t, k, l);
  }

  lemma PrunedPairs(m: Node, t: Node, k: string, l: string)
    requires PlainKey(k) && PlainKey(l) && |m.content| == |t.content| == 4
    requires Key(t.content, 0) == Key(m.content, 1) == k && Key(t.content, 1) == Key(m.content, 0) == l
    ensures Prune(m, t) == m
  {
    var keep := TrimmedKeys(t.content) - {""};
    assert Text.TrimSpace(Key(t.content, 0)) == k && Text.TrimSpace(Key(t.content, 1)) == l;
    assert k in keep && l in keep;
    KeptAll(m.content, keep, 2);
    assert m.content[..4] == m.content && m.content[4..] == [];
  }

  lemma Recognition(k: string, v: Node, l: string, w: Node, empty: Node)
    requires PlainKey(k) && PlainKey(l) && k != l && v.kind == w.kind == empty.kind == Scalar
    requires !Blank(v) && !Blank(w) && Blank(empty) && TextPair(k, v) != TextPair(l, w)
    ensures var x, t, item := Pairs(l, empty, k, v), Pairs(k, v, l, w),
            Pairs(l, empty.(tag := w.tag, value := w.value), k, v);
      Identified(x, t) && !Identified(item, t) && !Alike(item, t)
  {
    hide Identity;
    var t, item := Pairs(k, v, l, w), Pairs(l, empty.(tag := w.tag, value := w.value), k, v);
    FirstTextIdentity(l, empty, k, v);
    FirstTextIdentity(k, v, l, w);
    FirstTextIdentity(l, empty.(tag := w.tag, value := w.value), k, v);
    assert !Alike(item.content[0], t.content[0]);
    assert TextPair(k, v) != "";
  }

  lemma ScalarPairs(k: string, v: Node, l: string, w: Node)
    requires v.kind == w.kind == Scalar && k != l
    ensures Pairs(k, v, l, w).kind == Mapping
    ensures Even(List(Pairs(k, v, l, w))) && Unique(List(Pairs(k, v, l, w)))
    ensures forall x: Node :: Settles(x, Pairs(k, v, l, w)) <== x.kind == Mapping
  {
    var t := Pairs(k, v, l, w);
    assert forall j :: 0 <= j < 2 ==> Val(t.content, j).kind == Scalar;
    assert Even(t) && Unique(t);
    forall x: Node | x.kind == Mapping
      ensures Settles(x, t)
    {
      assert forall j :: 0 <= j < Size(t.content) ==> PairSettles(x.content, t, j);
    }
  }

  /** The second save differs when an element is recognised by its first text only, the file has another pair
      before that one, and this pair receives a text: the first save then changes which text is the first, and
      the second one replaces the element. */
  lemma FirstTextChanges(k: string, v: Node, l: string, w: Node, empty: Node)
    requires PlainKey(k) && PlainKey(l) && k != l && v.kind == w.kind == empty.kind == Scalar
    requires !Blank(v) && !Blank(w) && Blank(empty) && TextPair(k, v) != TextPair(l, w)
    ensures var file, generated := List(Pairs(l, empty, k, v)), List(Pairs(k, v, l, w));
      Merge(Merge(file, generated), generated) != Merge(file, generated)
  {
    hide Merge, Identified, Alike, Even, Unique, Settles, Pairs, PlainKey, Fold;
    var x, t := Pairs(l, empty, k, v), Pairs(k, v, l, w);
    SwappedPairs(k, l, empty, v, w);
    Recognition(k, v, l, w, empty);
    ScalarPairs(l, empty, k, v);
    ScalarPairs(k, v, l, w);
    OnlyElement(x, t);
    SingleMerged(x, t);
    SingleTwiceIff(List(x), List(t));
  }

  lemma SingleMerged(x: Node, t: Node)
    requires Identified(x, t) && t.kind == Mapping
    ensures Merge(List(x), List(t)).content == [Prune(Merge(x, t), t)]
  {
    OnlyElement(x, t);
    MergedItem([x], [0], List(t), 1, 0);
  }

  lemma OnlyElement(x: Node, t: Node)
    requires Identified(x, t)
    ensures Assign([x], [t], 1) == [0]
  {
    assert Assign([x], [t], 0) == [];
    assert Search([x], [], t, false, 0) == 0;
  }

  /** The file holds an empty z before a, the generated tree gives z a text after a. */
  lemma SecondSaveDiffers()
    ensures var a, z := Leaf("!!int", "0"), Leaf("!!str", "q");
      var file, generated := List(Pairs("z", Leaf("!!str", ""), "a", a)), List(Pairs("a", a, "z", z));
      Merge(Merge(file, generated), generated) != Merge(file, generated)
  {
    OneLetter("a");
    OneLetter("z");
    OneLetter("0");
    OneLetter("q");
    var a, z := Leaf("!!int", "0"), Leaf("!!str", "q");
    assert TextPair("a", a)[0] != TextPair("z", z)[0];
    FirstTextChanges("a", a, "z", z, Leaf("!!str", ""));
  }

  lemma OneLetter(s: string)
    requires |s| == 1 && !Text.IsSpace(s[0]) && !('A' <= s[0] <= 'Z')
    ensures Text.TrimSpace(s) == s && Fold(s) == s && PlainKey(s)
  {
    assert Text.ToLower(s[1..]) == "";
  }

  // ---------------------------------------------------------------------------------------
  // Elements that are taken for each other
  // ---------------------------------------------------------------------------------------

  function TwoOf(m: Node, n: Node): Node {
    Node(Sequence, "!!seq", "", [m, n])
  }

  lemma TwoMerged(x: Node, y: Node, t: Node, u: Node, i: int, j: int)
    requires Assign([x, y], [t, u], 2) == [i, j]
    ensures Merge(TwoOf(x, y), TwoOf(t, u)) ==
            TwoOf(if i == 0 then Again(x, t) else if i == 1 then Again(y, t) else t,
                  if j == 0 then Again(x, u) else if j == 1 then Again(y, u) else u)
  {
    var src, a := TwoOf(t, u), [i, j];
    MergedItem([x, y], a, src, 2, 0);
    MergedItem([x, y], a, src, 2, 1);
    var items := MergeItems([x, y], a, src, 2);
    assert items == [items[0], items[1]];
  }

  lemma TwoAssigned(x: Node, y: Node, t: Node, u: Node)
    ensures Assign([x, y], [t, u], 2) == [Match([x, y], [], t), Match([x, y], [Match([x, y], [], t)], u)]
  {
    assert Assign([x, y], [t, u], 0) == [];
    assert Assign([x, y], [t, u], 1) == [Match([x, y], [], t)];
  }

  lemma SearchTwo(x: Node, y: Node, taken: seq<int>, t: Node, structural: bool)
    ensures Search([x, y], taken, t, structural, 0) ==
            if 0 !in taken && Matches(x, t, structural) then 0
            else if 1 !in taken && Matches(y, t, structural) then 1 else -1
  {
    assert Search([x, y], taken, t, structural, 2) == -1;
  }

  /** The first save need not settle for the second one to change nothing: here the second element is taken for
      the first one, the second one is written anew, and the tree is the same. */
  lemma SettlingNotNeeded(k: string, v: Node, l: string, w: Node, empty: Node)
    requires PlainKey(k) && PlainKey(l) && k != l && v.kind == w.kind == empty.kind == Scalar
    requires !Blank(v) && !Blank(w) && Blank(empty) && TextPair(k, v) != TextPair(l, w)
    ensures var x, t := Pairs(l, empty, k, v), Pairs(k, v, l, w);
      var file, generated := TwoOf(x, x), TwoOf(t, x);
      Merge(Merge(file, generated), generated) == Merge(file, generated) && !Settles(file, generated)
  {
    var x, t := Pairs(l, empty, k, v), Pairs(k, v, l, w);
    var item := Pairs(l, empty.(tag := w.tag, value := w.value), k, v);
    TakenForEachOther(k, v, l, w, empty);
    TwoMerged(x, x, t, x, 0, 1);
    TwoMerged(item, x, t, x, 1, -1);
    NotSettled(x, t, x, item);
  }

  lemma SettledItem(dst: Node, src: Node, i: nat)
    requires dst.kind == src.kind == Sequence && i < |src.content| && Settles(dst, src)
    ensures ItemSettles(dst.content, Assign(dst.content, src.content, |src.content|), src, i)
  {
    var original := if dst.kind == Sequence then dst.content else [];
    assert ItemSettles(original, Assign(original, src.content, |src.content|), src, i);
  }

  lemma NotSettled(x: Node, t: Node, u: Node, item: Node)
    requires Assign([x, x], [t, u], 2) == [0, 1] && Again(x, t) == item
    requires Identified(t, t) && !Identified(item, t)
    ensures !Settles(TwoOf(x, x), TwoOf(t, u))
  {
    hide Identified, Alike;
    var dst, src := TwoOf(x, x), TwoOf(t, u);
    var a := Assign(dst.content, src.content, |src.content|);
    assert |src.content| == 2 && a == [0, 1];
    assert MergeItem(dst.content, a, src, 0) == Again(x, t);
    assert !ItemSettles(dst.content, a, src, 0);
    if Settles(dst, src) {
      SettledItem(dst, src, 0);
      assert false;
    }
  }

  lemma TakenForEachOther(k: string, v: Node, l: string, w: Node, empty: Node)
    requires PlainKey(k) && PlainKey(l) && k != l && v.kind == w.kind == empty.kind == Scalar
    requires !Blank(v) && !Blank(w) && Blank(empty) && TextPair(k, v) != TextPair(l, w)
    ensures var x, t := Pairs(l, empty, k, v), Pairs(k, v, l, w);
      var item := Pairs(l, empty.(tag := w.tag, value := w.value), k, v);
      && Again(x, t) == item && Again(x, x) == x && Identified(t, t) && !Identified(item, t)
      && Assign([x, x], [t, x], 2) == [0, 1] && Assign([item, x], [t, x], 2) == [1, -1]
  {
    hide Merge, Prune, Identified, Alike, Assign;
    var x, t := Pairs(l, empty, k, v), Pairs(k, v, l, w);
    SwappedPairs(k, l, empty, v, w);
    Recognition(k, v, l, w, empty);
    UnlikeOld(k, v, l, w, empty);
    OldAgain(k, v, l, empty);
    IdentifiedSelf(x, t);
    OtherChoices(x, t, Pairs(l, empty.(tag := w.tag, value := w.value), k, v));
  }

  lemma OldAgain(k: string, v: Node, l: string, empty: Node)
    requires PlainKey(k) && PlainKey(l) && k != l && v.kind == empty.kind == Scalar
    ensures Again(Pairs(l, empty, k, v), Pairs(l, empty, k, v)) == Pairs(l, empty, k, v)
  {
    var x := Pairs(l, empty, k, v);
    ScalarPairs(l, empty, k, v);
    assert List(x).content[0] == x;
    assert forall j :: 0 <= j < 2 ==> Val(x.content, j).kind == Scalar;
    SelfMergeKeepsIff(x);
    assert x.content[0].value == l && x.content[2].value == k;
    assert NoBlankKey(x.content);
    PruneSelf(x, x);
  }

  lemma OtherChoices(x: Node, t: Node, item: Node)
    requires x.kind == t.kind == Mapping && Identified(x, t)
    requires !Identified(item, t) && !Identified(item, x) && !Alike(item, x)
    ensures Assign([x, x], [t, x], 2) == [0, 1] && Assign([item, x], [t, x], 2) == [1, -1]
  {
    assert Identified(x, x);
    hide Identified, Alike;
    TwoAssigned(x, x, t, x);
    TwoAssigned(item, x, t, x);
    SearchTwo(x, x, [], t, false);
    SearchTwo(x, x, [0], x, false);
    SearchTwo(item, x, [], t, false);
    SearchTwo(item, x, [1], x, false);
    SearchTwo(item, x, [1], x, true);
  }

  lemma UnlikeOld(k: string, v: Node, l: string, w: Node, empty: Node)
    requires PlainKey(k) && PlainKey(l) && k != l && v.kind == w.kind == empty.kind == Scalar
    requires !Blank(v) && !Blank(w) && Blank(empty) && TextPair(k, v) != TextPair(l, w)
    ensures var x, item := Pairs(l, empty, k, v), Pairs(l, empty.(tag := w.tag, value := w.value), k, v);
      !Identified(item, x) && !Alike(item, x)
  {
    var x, item := Pairs(l, empty, k, v), Pairs(l, empty.(tag := w.tag, value := w.value), k, v);
    FirstTextIdentity(l, empty, k, v);
    FirstTextIdentity(l, empty.(tag := w.tag, value := w.value), k, v);
    assert !Alike(item.content[1], x.content[1]);
  }

  /** Sequences of single values always settle. */
  lemma ScalarsSettle(dst: Node, src: Node)
    requires src.kind == Sequence && AllScalars(src.content)
    ensures Settles(dst, src)
  {
    var original := if dst.kind == Sequence then dst.content else [];
    var a := Assign(original, src.content, |src.content|);
    forall i | 0 <= i < |src.content|
      ensures ItemSettles(original, a, src, i)
    {
    }
  }
}
