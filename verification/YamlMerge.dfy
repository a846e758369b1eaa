/** Merging a generated YAML tree into the one read from the file. */
module YamlMerge {
  import opened YamlNode
  import Text

  // ---------------------------------------------------------------------------------------
  // Matching the elements of two sequences
  // ---------------------------------------------------------------------------------------

  predicate Identified(n: Node, target: Node) {
    match target.kind
    case Mapping => Identity(target) != "" && n.kind == Mapping && Identity(n) == Identity(target)
    case Scalar => Text.TrimSpace(target.value) != "" && n.kind == Scalar &&
        Text.TrimSpace(n.value) == Text.TrimSpace(target.value)
    case _ => false
  }

  predicate Matches(n: Node, target: Node, structural: bool) {
    if structural then Alike(n, target) else Identified(n, target)
  }

  /** The first element, from one on, that is not taken and matches. */
  function Search(original: seq<Node>, taken: seq<int>, target: Node, structural: bool, i: nat): (r: int)
    requires i <= |original|
    ensures r == -1 || (i <= r < |original| && r !in taken && Matches(original[r], target, structural))
    ensures forall j :: i <= j < (if r < 0 then |original| else r) ==>
            j in taken || !Matches(original[j], target, structural)
    decreases |original| - i
  {
    if i == |original| then -1
    else if i !in taken && Matches(original[i], target, structural) then i
    else Search(original, taken, target, structural, i + 1)
  }

  function Match(original: seq<Node>, taken: seq<int>, target: Node): int {
    var byIdentity := Search(original, taken, target, false, 0);
    if byIdentity >= 0 then byIdentity else Search(original, taken, target, true, 0)
  }

  /** The element chosen for each of the first n targets, -1 for none. */
  function Assign(original: seq<Node>, targets: seq<Node>, n: nat): (a: seq<int>)
    requires n <= |targets|
    ensures |a| == n && forall i :: 0 <= i < n ==> -1 <= a[i] < |original|
  {
    if n == 0 then []
    else
      var a := Assign(original, targets, n - 1);
      a + [Match(original, a, targets[n - 1])]
  }

  /** No old element is used for two positions. */
  lemma {:induction false} AssignedOnce(original: seq<Node>, targets: seq<Node>, n: nat)
    requires n <= |targets|
    ensures forall i, j :: 0 <= i < j < n && Assign(original, targets, n)[i] >= 0 ==>
            Assign(original, targets, n)[i] != Assign(original, targets, n)[j]
  {
    if n > 0 {
      AssignedOnce(original, targets, n - 1);
      var a := Assign(original, targets, n - 1);
      var last := Match(original, a, targets[n - 1]);
      assert last >= 0 ==> last !in a;
    }
  }

  // ---------------------------------------------------------------------------------------
  // Pruning
  // ---------------------------------------------------------------------------------------

  function TrimmedFirst(c: seq<Node>, n: nat): set<string>
    requires n <= Size(c)
  {
    set j | 0 <= j < n :: Text.TrimSpace(Key(c, j))
  }

  function TrimmedKeys(c: seq<Node>): set<string> {
    TrimmedFirst(c, Size(c))
  }

  /** The first n pairs of a mapping, without those whose key is not to be kept. */
  function Kept(c: seq<Node>, keep: set<string>, n: nat): seq<Node>
    requires n <= Size(c)
  {
    if n == 0 then []
    else Kept(c, keep, n - 1) + if Text.TrimSpace(Key(c, n - 1)) in keep then [c[2 * n - 2], c[2 * n - 1]] else []
  }

  function Prune(m: Node, s: Node): Node {
    m.(content := Kept(m.content, TrimmedKeys(s.content) - {""}, Size(m.content)) + m.content[2 * Size(m.content)..])
  }

  // ---------------------------------------------------------------------------------------
  // The merge
  // ---------------------------------------------------------------------------------------

  function Merge(dst: Node, src: Node): Node
    decreases src, |src.content| + 1
  {
    match src.kind
    case Mapping =>
      var base := if dst.kind == Mapping then dst else src;
      base.(content := MergePairs(base.content, src, Size(src.content)))
    case Sequence =>
      if dst.kind == Scalar && dst.tag == "!!null" && src.content == [] then dst
      else
        var base := if dst.kind == Sequence then dst else dst.(kind := Sequence, tag := "!!seq", content := []);
        base.(content := MergeItems(base.content, Assign(base.content, src.content, |src.content|), src, |src.content|))
    case Scalar => dst.(kind := src.kind, tag := src.tag, value := src.value)
    case Unset => dst
    case Document => src
  }

  /** The content of a mapping after the first n pairs of src. */
  function MergePairs(d: seq<Node>, src: Node, n: nat): seq<Node>
    requires n <= Size(src.content)
    decreases src, n
  {
    if n == 0 then d
    else
      var c := MergePairs(d, src, n - 1);
      var v := Val(src.content, n - 1);
      var k := Find(c, Key(src.content, n - 1));
      if k >= 0 then c[2 * k + 1 := Merge(Val(c, k), v)]
      else if IsZero(v) then c
      else c + [src.content[2 * n - 2], v]
  }

  function MergeItem(original: seq<Node>, a: seq<int>, src: Node, i: nat): Node
    requires i < |src.content| == |a| && a[i] < |original|
    decreases src, i
  {
    if a[i] < 0 then src.content[i]
    else
      var m := Merge(original[a[i]], src.content[i]);
      if m.kind == Mapping && src.content[i].kind == Mapping then Prune(m, src.content[i]) else m
  }

  /** The first n elements of a merged sequence. */
  function MergeItems(original: seq<Node>, a: seq<int>, src: Node, n: nat): (items: seq<Node>)
    requires n <= |src.content| == |a| && forall i :: 0 <= i < |a| ==> a[i] < |original|
    ensures |items| == n
    decreases src, n
  {
    if n == 0 then [] else MergeItems(original, a, src, n - 1) + [MergeItem(original, a, src, n - 1)]
  }

  lemma {:induction false} MergedItem(original: seq<Node>, a: seq<int>, src: Node, n: nat, i: nat)
    requires i < n <= |src.content| == |a| && forall i :: 0 <= i < |a| ==> a[i] < |original|
    ensures MergeItems(original, a, src, n)[i] == MergeItem(original, a, src, i)
  {
    if i < n - 1 {
      MergedItem(original, a, src, n - 1, i);
    }
  }
}
