/** What a merge leaves alone: keys in their order, values that the generated tree does not mention,
    and a tree that is merged into itself. */
module YamlOrder {
  import opened YamlNode
  import opened YamlMerge
  import opened YamlCover
  import opened YamlCoverage
  import Text

  // ---------------------------------------------------------------------------------------
  // Keys
  // ---------------------------------------------------------------------------------------

  function Keys(c: seq<Node>, n: nat): (keys: seq<string>)
    requires n <= Size(c)
    ensures |keys| == n && forall j :: 0 <= j < n ==> keys[j] == Key(c, j)
  {
    if n == 0 then [] else Keys(c, n - 1) + [Key(c, n - 1)]
  }

  function AllKeys(c: seq<Node>): seq<string> {
    Keys(c, Size(c))
  }

  lemma KeysSame(c: seq<Node>, e: seq<Node>)
    requires Size(c) == Size(e) && forall j :: 0 <= j < Size(c) ==> Key(e, j) == Key(c, j)
    ensures AllKeys(e) == AllKeys(c)
  {
  }

  lemma KeysOneMore(c: seq<Node>, e: seq<Node>)
    requires Size(e) == Size(c) + 1 && forall j :: 0 <= j < Size(c) ==> Key(e, j) == Key(c, j)
    ensures AllKeys(e) == AllKeys(c) + [Key(e, Size(c))]
  {
  }

  /** The keys that are new to a mapping and worth writing, in the order of the generated tree. */
  function NewKeys(d: seq<Node>, src: Node, n: nat): seq<string>
    requires n <= Size(src.content)
  {
    if n == 0 then []
    else NewKeys(d, src, n - 1) +
         if Find(d, Key(src.content, n - 1)) < 0 && !IsZero(Val(src.content, n - 1)) then [Key(src.content, n - 1)]
         else []
  }

  /** A key of the generated tree that has not been reached yet is present exactly if it was there before. */
  lemma {:induction false} NotReached(d: seq<Node>, src: Node, n: nat, j: nat)
    requires |d| % 2 == 0 && DistinctKeys(src.content) && n <= j < Size(src.content)
    ensures Find(MergePairs(d, src, n), Key(src.content, j)) == Find(d, Key(src.content, j))
  {
    if n > 0 {
      NotReached(d, src, n - 1, j);
      StepOther(d, src, n, Key(src.content, j));
    }
  }

  lemma KeysPut(c: seq<Node>, k: nat, v: Node)
    requires |c| % 2 == 0 && k < Size(c)
    ensures AllKeys(c[2 * k + 1 := v]) == AllKeys(c)
  {
    PutSame(c, k, v);
    KeysSame(c, c[2 * k + 1 := v]);
  }

  lemma KeysNew(c: seq<Node>, kn: Node, v: Node)
    requires |c| % 2 == 0
    ensures AllKeys(c + [kn, v]) == AllKeys(c) + [kn.value]
  {
    PutNew(c, kn, v);
    KeysOneMore(c, c + [kn, v]);
  }

  lemma KeysStep(d: seq<Node>, src: Node, n: nat)
    requires |d| % 2 == 0 && 0 < n <= Size(src.content)
    ensures var c, e := MergePairs(d, src, n - 1), MergePairs(d, src, n);
      AllKeys(e) == AllKeys(c) +
        if Find(c, Key(src.content, n - 1)) < 0 && !IsZero(Val(src.content, n - 1)) then [Key(src.content, n - 1)]
        else []
  {
    PairsEven(d, src, n - 1);
    var c, v := MergePairs(d, src, n - 1), Val(src.content, n - 1);
    var k := Find(c, Key(src.content, n - 1));
    if k >= 0 {
      KeysPut(c, k, Merge(Val(c, k), v));
    } else if !IsZero(v) {
      KeysNew(c, src.content[2 * n - 2], v);
    }
  }

  lemma KeysAtStart(d: seq<Node>, src: Node)
    ensures AllKeys(MergePairs(d, src, 0)) == AllKeys(d) + NewKeys(d, src, 0)
  {
    assert AllKeys(d) + [] == AllKeys(d);
  }

  lemma NewKeysStep(d: seq<Node>, src: Node, n: nat)
    requires 0 < n <= Size(src.content)
    ensures NewKeys(d, src, n) == NewKeys(d, src, n - 1) +
            if Find(d, Key(src.content, n - 1)) < 0 && !IsZero(Val(src.content, n - 1)) then [Key(src.content, n - 1)]
            else []
  {
  }

  /** The keys after a merge are the old ones in their order, then the new ones in theirs. */
  lemma {:induction false} KeysAfter(d: seq<Node>, src: Node, n: nat)
    requires |d| % 2 == 0 && DistinctKeys(src.content) && n <= Size(src.content)
    ensures AllKeys(MergePairs(d, src, n)) == AllKeys(d) + NewKeys(d, src, n)
  {
    hide *;
    if n == 0 {
      KeysAtStart(d, src);
    } else {
      KeysAfter(d, src, n - 1);
      NotReached(d, src, n - 1, n - 1);
      KeysStep(d, src, n);
      NewKeysStep(d, src, n);
    }
  }

  /** The pair is the one that a merge of the first n pairs changes. */
  predicate Mentioned(d: seq<Node>, src: Node, n: nat, j: nat)
    requires j < Size(d) && n <= Size(src.content)
  {
    Find(d, Key(d, j)) == j && exists i :: 0 <= i < n && Key(src.content, i) == Key(d, j)
  }

  /** Key nodes stay, and so does every value that is not the first under a key of the generated tree. */
  lemma {:induction false} OthersStay(d: seq<Node>, src: Node, n: nat)
    requires |d| % 2 == 0 && n <= Size(src.content)
    ensures var e := MergePairs(d, src, n);
      && |e| % 2 == 0 && |d| <= |e|
      && (forall j :: 0 <= j < Size(d) ==> e[2 * j] == d[2 * j])
      && (forall j :: 0 <= j < Size(d) && !Mentioned(d, src, n, j) ==> Val(e, j) == Val(d, j))
  {
    if n > 0 {
      OthersStay(d, src, n - 1);
      var c, v := MergePairs(d, src, n - 1), Val(src.content, n - 1);
      var k := Find(c, Key(src.content, n - 1));
      if k >= 0 {
        PutSame(c, k, Merge(Val(c, k), v));
        if k < Size(d) {
          assert forall j :: 0 <= j < Size(d) ==> Key(c, j) == Key(d, j);
          FirstStays(d, c, Key(src.content, n - 1), k);
          assert Mentioned(d, src, n, k);
        }
      } else if !IsZero(v) {
        PutNew(c, src.content[2 * n - 2], v);
      }
      assert forall j :: 0 <= j < Size(d) && Mentioned(d, src, n - 1, j) ==> Mentioned(d, src, n, j);
    }
  }

  lemma FirstStays(d: seq<Node>, c: seq<Node>, key: string, k: nat)
    requires Size(d) <= Size(c) && forall j :: 0 <= j < Size(d) ==> Key(c, j) == Key(d, j)
    requires Find(c, key) == k < Size(d)
    ensures Find(d, key) == k && Key(d, k) == key
  {
    FindUnique(d, key, k);
  }

  // ---------------------------------------------------------------------------------------
  // Sequences
  // ---------------------------------------------------------------------------------------

  /** A merged sequence has the length of the generated one; only an explicit null stays in the place
      of an empty one. */
  lemma SequenceLength(dst: Node, src: Node)
    requires src.kind == Sequence
    ensures (Merge(dst, src).kind == Sequence && |Merge(dst, src).content| == |src.content|)
         || (Merge(dst, src) == dst && dst.kind == Scalar && dst.tag == "!!null" && src.content == [])
  {
  }

  predicate AllScalars(c: seq<Node>) {
    forall i :: 0 <= i < |c| ==> c[i].kind == Scalar
  }

  /** A sequence of scalars ends up with exactly the generated values. */
  lemma ScalarSequence(dst: Node, src: Node)
    requires src.kind == Sequence && src.content != [] && AllScalars(src.content)
    ensures var r := Merge(dst, src).content;
      |r| == |src.content| &&
      forall i :: 0 <= i < |r| ==>
        r[i].kind == Scalar && r[i].tag == src.content[i].tag && r[i].value == src.content[i].value
  {
    var original := if dst.kind == Sequence then dst.content else [];
    var a := Assign(original, src.content, |src.content|);
    var r := Merge(dst, src).content;
    forall i | 0 <= i < |r|
      ensures r[i].kind == Scalar && r[i].tag == src.content[i].tag && r[i].value == src.content[i].value
    {
      MergedItem(original, a, src, |src.content|, i);
    }
  }

  lemma {:induction false} KeptKeys(c: seq<Node>, keep: set<string>, n: nat)
    requires n <= Size(c)
    ensures |Kept(c, keep, n)| % 2 == 0
    ensures forall j :: 0 <= j < Size(Kept(c, keep, n)) ==> Text.TrimSpace(Key(Kept(c, keep, n), j)) in keep
  {
    if n > 0 {
      KeptKeys(c, keep, n - 1);
      KeptStep(c, keep, n);
      if Text.TrimSpace(Key(c, n - 1)) in keep {
        PutNew(Kept(c, keep, n - 1), c[2 * n - 2], c[2 * n - 1]);
      }
    }
  }

  lemma PrunedKeys(m: Node, s: Node, j: nat)
    requires |m.content| % 2 == 0 && j < Size(Prune(m, s).content)
    ensures Text.TrimSpace(Key(Prune(m, s).content, j)) in TrimmedKeys(s.content) - {""}
  {
    var kept := Kept(m.content, TrimmedKeys(s.content) - {""}, Size(m.content));
    KeptKeys(m.content, TrimmedKeys(s.content) - {""}, Size(m.content));
    assert kept + m.content[2 * Size(m.content)..] == kept;
  }

  /** A mapping in a merged sequence has no key that its generated counterpart lacks. */
  lemma ElementKeys(dst: Node, src: Node, i: nat, j: nat)
    requires src.kind == Sequence && Even(dst) && Even(src) && i < |src.content|
    requires Merge(dst, src).kind == Sequence && src.content[i].kind == Mapping
    requires j < Size(Merge(dst, src).content[i].content)
    ensures Text.TrimSpace(Key(Merge(dst, src).content[i].content, j)) in TrimmedKeys(src.content[i].content)
  {
    var original := if dst.kind == Sequence then dst.content else [];
    var a := Assign(original, src.content, |src.content|);
    MergedItem(original, a, src, |src.content|, i);
    ItemKeys(original, a, src, i, j);
  }

  lemma ItemKeys(original: seq<Node>, a: seq<int>, src: Node, i: nat, j: nat)
    requires AllEven(original) && Even(src) && src.kind == Sequence
    requires i < |src.content| == |a| && a[i] < |original| && src.content[i].kind == Mapping
    requires j < Size(MergeItem(original, a, src, i).content)
    ensures Text.TrimSpace(Key(MergeItem(original, a, src, i).content, j)) in TrimmedKeys(src.content[i].content)
  {
    if a[i] >= 0 {
      MergeEven(original[a[i]], src.content[i]);
      PrunedKeys(Merge(original[a[i]], src.content[i]), src.content[i], j);
    }
  }

  // ---------------------------------------------------------------------------------------
  // Merging a tree into itself
  // ---------------------------------------------------------------------------------------

  predicate NoBlankKey(c: seq<Node>) {
    forall j :: 0 <= j < Size(c) ==> Text.TrimSpace(Key(c, j)) != ""
  }

  /** No mapping that stands in a sequence has a blank key. */
  predicate Neat(n: Node)
    decreases n
  {
    && (n.kind == Mapping ==> forall j :: 0 <= j < Size(n.content) ==> Neat(Val(n.content, j)))
    && (n.kind == Sequence ==> forall i :: 0 <= i < |n.content| ==>
        Neat(n.content[i]) && (n.content[i].kind == Mapping ==> NoBlankKey(n.content[i].content)))
  }

  lemma TakePair(c: seq<Node>, n: nat)
    requires 0 < n <= Size(c)
    ensures c[..2 * n] == c[..2 * (n - 1)] + [c[2 * n - 2], c[2 * n - 1]]
  {
  }

  lemma {:induction false} KeptAll(c: seq<Node>, keep: set<string>, n: nat)
    requires n <= Size(c)
    ensures |Kept(c, keep, n)| <= 2 * n
    ensures |Kept(c, keep, n)| == 2 * n <==> forall j :: 0 <= j < n ==> Text.TrimSpace(Key(c, j)) in keep
    ensures |Kept(c, keep, n)| == 2 * n ==> Kept(c, keep, n) == c[..2 * n]
  {
    if n > 0 {
      KeptAll(c, keep, n - 1);
      KeptStep(c, keep, n);
      TakePair(c, n);
    }
  }

  lemma PruneSelf(m: Node, s: Node)
    requires |m.content| == |s.content| && |m.content| % 2 == 0
    requires forall j :: 0 <= j < Size(s.content) ==> Key(m.content, j) == Key(s.content, j)
    ensures NoBlankKey(s.content) ==> Prune(m, s) == m
    ensures !NoBlankKey(s.content) ==> |Prune(m, s).content| < |m.content|
  {
    var keep := TrimmedKeys(s.content) - {""};
    forall j | 0 <= j < Size(m.content)
      ensures Text.TrimSpace(Key(m.content, j)) in keep <==> Text.TrimSpace(Key(s.content, j)) != ""
    {
      assert Text.TrimSpace(Key(s.content, j)) in TrimmedKeys(s.content);
    }
    KeptAll(m.content, keep, Size(m.content));
    assert m.content[2 * Size(m.content)..] == [] && m.content[..2 * Size(m.content)] == m.content;
  }

  lemma SamePairs(e: seq<Node>, c: seq<Node>)
    requires |e| == |c| && |c| % 2 == 0
    requires forall j :: 0 <= j < Size(c) ==> e[2 * j] == c[2 * j]
    requires forall j :: 0 <= j < Size(c) ==> Val(e, j) == Val(c, j)
    ensures e == c
  {
    forall i | 0 <= i < |e|
      ensures e[i] == c[i]
    {
      assert i == 2 * (i / 2) || i == 2 * (i / 2) + 1;
      assert e[2 * (i / 2)] == c[2 * (i / 2)] && Val(e, i / 2) == Val(c, i / 2);
    }
  }

  lemma SelfMappingIff(s: Node)
    requires s.kind == Mapping && Even(s) && Unique(s)
    ensures Merge(s, s) == s <==> forall j :: 0 <= j < Size(s.content) ==>
            Merge(Val(s.content, j), Val(s.content, j)) == Val(s.content, j)
  {
    SelfPairs(s, Size(s.content));
    var e := Merge(s, s).content;
    if forall j :: 0 <= j < Size(s.content) ==> Merge(Val(s.content, j), Val(s.content, j)) == Val(s.content, j) {
      SamePairs(e, s.content);
    } else {
      var j :| 0 <= j < Size(s.content) && Merge(Val(s.content, j), Val(s.content, j)) != Val(s.content, j);
      assert Val(e, j) != Val(s.content, j);
    }
  }

  lemma SelfItemIff(s: Node, i: nat)
    requires s.kind == Sequence && Even(s) && Unique(s) && i < |s.content|
    ensures var t := s.content[i];
      Merge(s, s).content[i] == t <==> Merge(t, t) == t && (t.kind == Mapping ==> NoBlankKey(t.content))
  {
    SelfItem(s, i);
    var t := s.content[i];
    if t.kind == Mapping {
      var m := Merge(t, t);
      SelfPairs(t, Size(t.content));
      assert forall j :: 0 <= j < Size(t.content) ==> Key(m.content, j) == Key(t.content, j);
      PruneSelf(m, t);
    }
  }

  /** Merging an unchanged tree changes nothing exactly when it is neat. */
  lemma {:induction false} SelfMergeKeepsIff(s: Node)
    requires Even(s) && Unique(s)
    ensures Merge(s, s) == s <==> Neat(s)
    decreases s
  {
    match s.kind
    case Mapping =>
      SelfMappingIff(s);
      forall j | 0 <= j < Size(s.content)
        ensures Merge(Val(s.content, j), Val(s.content, j)) == Val(s.content, j) <==> Neat(Val(s.content, j))
      {
        SelfMergeKeepsIff(Val(s.content, j));
      }
    case Sequence =>
      forall i | 0 <= i < |s.content|
        ensures |Merge(s, s).content| == |s.content|
        ensures Merge(s, s).content[i] == s.content[i] <==>
                Neat(s.content[i]) && (s.content[i].kind == Mapping ==> NoBlankKey(s.content[i].content))
      {
        SelfItem(s, i);
        SelfItemIff(s, i);
        SelfMergeKeepsIff(s.content[i]);
      }
      SelfSequence(s);
    case _ =>
  }

  lemma SelfSequence(s: Node)
    requires s.kind == Sequence
    ensures |Merge(s, s).content| == |s.content|
    ensures Merge(s, s) == s <==> forall i :: 0 <= i < |s.content| ==> Merge(s, s).content[i] == s.content[i]
  {
    if forall i :: 0 <= i < |s.content| ==> Merge(s, s).content[i] == s.content[i] {
      assert Merge(s, s).content == s.content;
    }
  }

  // ---------------------------------------------------------------------------------------
  // Recognising an element whose pairs stand in another order
  // ---------------------------------------------------------------------------------------

  predicate DistinctFolds(c: seq<Node>) {
    forall i, j :: 0 <= i < j < Size(c) ==> Fold(Key(c, i)) != Fold(Key(c, j))
  }

  /** A pair with a key, whatever its case, and a scalar text. */
  ghost predicate HasText(c: seq<Node>, key: string, text: string) {
    exists j :: 0 <= j < Size(c) && TextAt(c, j, key, text)
  }

  predicate TextAt(c: seq<Node>, j: nat, key: string, text: string)
    requires j < Size(c)
  {
    Fold(Key(c, j)) == key && Val(c, j).kind == Scalar && Text.TrimSpace(Val(c, j).value) == text
  }

  /** Both mappings have the same texts under the same keys. */
  ghost predicate SameTexts(c: seq<Node>, d: seq<Node>) {
    forall key, text :: HasText(c, key, text) <==> HasText(d, key, text)
  }

  lemma {:induction false} ScalarUnderFrom(c: seq<Node>, key: string, i: nat)
    requires DistinctFolds(c) && i <= Size(c)
    ensures forall j, text :: i <= j < Size(c) && TextAt(c, j, key, text) ==> ScalarUnder(c, key, i) == text
    ensures ScalarUnder(c, key, i) != "" ==> exists j :: i <= j < Size(c) && TextAt(c, j, key, ScalarUnder(c, key, i))
    decreases Size(c) - i
  {
    if i < Size(c) {
      ScalarUnderFrom(c, key, i + 1);
      if Val(c, i).kind == Scalar && Fold(Key(c, i)) == key {
        assert TextAt(c, i, key, ScalarUnder(c, key, i));
      } else if ScalarUnder(c, key, i + 1) != "" {
        var j :| i + 1 <= j < Size(c) && TextAt(c, j, key, ScalarUnder(c, key, i + 1));
        assert TextAt(c, j, key, ScalarUnder(c, key, i));
      }
    }
  }

  lemma SameScalarUnder(c: seq<Node>, d: seq<Node>, key: string)
    requires DistinctFolds(c) && DistinctFolds(d) && SameTexts(c, d)
    ensures ScalarUnder(c, key, 0) == ScalarUnder(d, key, 0)
  {
    ScalarUnderFrom(c, key, 0);
    ScalarUnderFrom(d, key, 0);
    var t, u := ScalarUnder(c, key, 0), ScalarUnder(d, key, 0);
    if t != "" {
      assert HasText(c, key, t);
      assert HasText(d, key, t);
    } else if u != "" {
      assert HasText(d, key, u);
      assert HasText(c, key, u);
    }
  }

  lemma {:induction false} SameNamedIdentity(c: seq<Node>, d: seq<Node>, k: nat)
    requires k <= |IdentityKeys|
    requires DistinctFolds(c) && DistinctFolds(d) && SameTexts(c, d)
    ensures NamedIdentity(c, k) == NamedIdentity(d, k)
    decreases |IdentityKeys| - k
  {
    if k < |IdentityKeys| {
      SameScalarUnder(c, d, IdentityKeys[k]);
      SameNamedIdentity(c, d, k + 1);
    }
  }

  /** Two mappings with the same texts recognise each other in whatever order their pairs stand, when an
      identifying key has a text. */
  lemma IdentityOrderFree(n: Node, target: Node)
    requires n.kind == Mapping && target.kind == Mapping
    requires DistinctFolds(n.content) && DistinctFolds(target.content) && SameTexts(n.content, target.content)
    requires NamedIdentity(target.content, 0) != ""
    ensures Identified(n, target)
  {
    SameNamedIdentity(n.content, target.content, 0);
  }
}
