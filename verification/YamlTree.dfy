/** The merge itself: nodes on the heap, changed in place. */
module YamlTreeClass {
  import opened YamlNode
  import opened YamlMerge
  import opened YamlCover
  import opened YamlEffects
  import Text

  /** A node object; the ghost fields are the value of its tree and the objects it consists of. */
  class Tree {
    var kind: Kind
    var tag: string
    var value: string
    var content: seq<Tree>
    ghost var node: Node
    ghost var repr: set<Tree>

    constructor (kind: Kind, tag: string, value: string, content: seq<Tree>, ghost nodes: seq<Node>,
                 ghost parts: set<Tree>)
      requires Kids(content, nodes, parts)
      ensures Valid() && node == Node(kind, tag, value, nodes) && repr == parts + {this}
    {
      this.kind, this.tag, this.value, this.content := kind, tag, value, content;
      node, repr := Node(kind, tag, value, nodes), parts + {this};
      new;
      KidsWithin(content, nodes, parts, repr - {this});
    }

    ghost predicate Valid()
      reads this, repr
      decreases repr, 0
    {
      && this in repr
      && node == Node(kind, tag, value, node.content)
      && Kids(content, node.content, repr - {this})
    }
  }

  ghost predicate Kid(t: Tree, n: Node, parts: set<Tree>)
    reads parts
    decreases parts, 1
  {
    t in parts && t.repr <= parts && t.Valid() && t.node == n
  }

  /** The children of a node: disjoint trees with the given values. */
  ghost predicate Kids(c: seq<Tree>, nodes: seq<Node>, parts: set<Tree>)
    reads parts
    decreases parts, 2
  {
    && |c| == |nodes|
    && (forall i :: 0 <= i < |c| ==> Kid(c[i], nodes[i], parts))
    && (forall i, j :: 0 <= i < j < |c| ==> c[i].repr !! c[j].repr)
  }

  lemma KidsWithin(c: seq<Tree>, nodes: seq<Node>, parts: set<Tree>, more: set<Tree>)
    requires Kids(c, nodes, parts) && parts <= more
    ensures Kids(c, nodes, more)
  {
    forall i | 0 <= i < |c|
      ensures Kid(c[i], nodes[i], more)
    {
      assert Kid(c[i], nodes[i], parts);
    }
  }

  /** The children other than one. */
  ghost predicate Others(c: seq<Tree>, nodes: seq<Node>, parts: set<Tree>, k: nat)
    reads parts
  {
    && |c| == |nodes|
    && (forall i :: 0 <= i < |c| && i != k ==> Kid(c[i], nodes[i], parts))
    && (forall i, j :: 0 <= i < j < |c| && i != k && j != k ==> c[i].repr !! c[j].repr)
  }

  lemma KidApart(c: seq<Tree>, nodes: seq<Node>, parts: set<Tree>, k: nat)
    requires Kids(c, nodes, parts) && k < |c|
    ensures Kid(c[k], nodes[k], parts)
    ensures Others(c, nodes, parts - c[k].repr, k)
  {
    assert Kid(c[k], nodes[k], parts);
    forall i | 0 <= i < |c| && i != k
      ensures Kid(c[i], nodes[i], parts - c[k].repr)
    {
      assert Kid(c[i], nodes[i], parts);
      assert c[i].repr !! c[k].repr;
      assert c[i].Valid();
    }
  }

  lemma KidBack(c: seq<Tree>, nodes: seq<Node>, parts: set<Tree>, k: nat, parts': set<Tree>)
    requires k < |c| && Others(c, nodes, parts, k)
    requires c[k].Valid() && c[k].repr !! parts && c[k].repr + parts <= parts'
    ensures Kids(c, nodes[k := c[k].node], parts')
  {
    forall i | 0 <= i < |c|
      ensures Kid(c[i], nodes[k := c[k].node][i], parts')
      ensures i != k ==> c[i].repr <= parts
    {
      if i != k {
        assert Kid(c[i], nodes[i], parts);
      }
    }
  }

  /** A child put at the end. */
  lemma KidAdded(c: seq<Tree>, nodes: seq<Node>, parts: set<Tree>, t: Tree, parts': set<Tree>)
    requires Kids(c, nodes, parts)
    requires t.Valid() && t.repr !! parts && t.repr + parts <= parts'
    ensures Kids(c + [t], nodes + [t.node], parts')
  {
    forall i | 0 <= i < |c|
      ensures Kid(c[i], nodes[i], parts') && c[i].repr <= parts
    {
      assert Kid(c[i], nodes[i], parts);
    }
  }

  /** A separate copy of a tree. */
  method DeepCopy(n: Node) returns (t: Tree)
    ensures fresh(t) && fresh(t.repr) && t.Valid() && t.node == n
    decreases n
  {
    var c: seq<Tree> := [];
    ghost var parts: set<Tree> := {};
    var i := 0;
    while i < |n.content|
      invariant 0 <= i <= |n.content|
      invariant fresh(parts) && Kids(c, n.content[..i], parts)
    {
      var t := DeepCopy(n.content[i]);
      KidAdded(c, n.content[..i], parts, t, parts + t.repr);
      assert n.content[..i] + [n.content[i]] == n.content[..i + 1];
      c, parts := c + [t], parts + t.repr;
      i := i + 1;
    }
    assert n.content[..i] == n.content;
    t := new Tree(n.kind, n.tag, n.value, c, n.content, parts);
  }

  /** The content takes the values it is given; the node itself stays the same object. */
  method CopyShallow(dst: Tree, src: Node)
    requires dst.Valid()
    modifies dst
    ensures dst.Valid() && dst.node == src && fresh(dst.repr - old(dst.repr))
  {
    var t := DeepCopy(src);
    dst.kind, dst.tag, dst.value, dst.content := src.kind, src.tag, src.value, t.content;
    dst.node, dst.repr := src, {dst} + t.repr;
    KidsWithin(t.content, src.content, t.repr - {t}, dst.repr - {dst});
  }

  method FindMapKey(c: seq<Tree>, key: string, ghost nodes: seq<Node>, ghost parts: set<Tree>) returns (k: int)
    requires Kids(c, nodes, parts)
    ensures k == Find(nodes, key)
  {
    var j := 0;
    while 2 * j + 1 < |c|
      invariant 0 <= j <= Size(nodes)
      invariant forall i :: 0 <= i < j ==> Key(nodes, i) != key
    {
      assert Kid(c[2 * j], nodes[2 * j], parts) && c[2 * j].Valid();
      if c[2 * j].value == key {
        FindUnique(nodes, key, j);
        return j;
      }
      j := j + 1;
    }
    FindUnique(nodes, key, -1);
    k := -1;
  }

  lemma TrimmedOneMore(c: seq<Node>, n: nat)
    requires n < Size(c)
    ensures TrimmedFirst(c, n + 1) == TrimmedFirst(c, n) + {Text.TrimSpace(Key(c, n))}
  {
    forall key | key in TrimmedFirst(c, n)
      ensures key in TrimmedFirst(c, n + 1)
    {
      var j :| 0 <= j < n && Text.TrimSpace(Key(c, j)) == key;
      assert 0 <= j < n + 1;
    }
  }

  method KeysToKeep(src: Node) returns (keep: set<string>)
    ensures keep == TrimmedKeys(src.content) - {""}
  {
    keep := {};
    var j := 0;
    while 2 * j + 1 < |src.content|
      invariant 0 <= j <= Size(src.content)
      invariant keep == TrimmedFirst(src.content, j) - {""}
    {
      var key := Text.TrimSpace(src.content[2 * j].value);
      TrimmedOneMore(src.content, j);
      if key != "" {
        keep := keep + {key};
      }
      j := j + 1;
    }
  }

  /** The content of a mapping when its first n pairs have been looked at. */
  ghost function Sifted(nodes: seq<Node>, keep: set<string>, n: nat): seq<Node>
    requires n <= Size(nodes)
  {
    Kept(nodes, keep, n) + nodes[2 * n..]
  }

  lemma SiftedStep(nodes: seq<Node>, keep: set<string>, n: nat)
    requires n < Size(nodes)
    ensures var s, i := Sifted(nodes, keep, n), |Kept(nodes, keep, n)|;
      && i + 1 < |s| && s[i].value == Key(nodes, n)
      && if Text.TrimSpace(Key(nodes, n)) in keep
         then Sifted(nodes, keep, n + 1) == s && |Kept(nodes, keep, n + 1)| == i + 2
         else Sifted(nodes, keep, n + 1) == s[..i] + s[i + 2..] && |Kept(nodes, keep, n + 1)| == i
  {
    var p, x, y, rest := Kept(nodes, keep, n), nodes[2 * n], nodes[2 * n + 1], nodes[2 * (n + 1)..];
    RestPair(nodes, n);
    FrontPair(p, x, y, rest);
    var q := Kept(nodes, keep, n + 1);
    assert q == if Text.TrimSpace(Key(nodes, n)) in keep then p + [x, y] else p;
    assert Sifted(nodes, keep, n) == p + ([x, y] + rest) && Sifted(nodes, keep, n + 1) == q + rest;
  }

  lemma RestPair(nodes: seq<Node>, n: nat)
    requires n < Size(nodes)
    ensures nodes[2 * n..] == [nodes[2 * n], nodes[2 * n + 1]] + nodes[2 * (n + 1)..]
  {
  }

  lemma FrontPair(p: seq<Node>, x: Node, y: Node, rest: seq<Node>)
    ensures var s := p + ([x, y] + rest);
      s[|p|] == x && p + [x, y] + rest == s && s[..|p|] + s[|p| + 2..] == p + rest
  {
  }

  /** What the removing loop does from a position on. */
  ghost function SiftFrom(s: seq<Node>, keep: set<string>, i: nat): seq<Node>
    requires i <= |s|
    decreases |s| - i
  {
    if i + 1 >= |s| then s
    else if Text.TrimSpace(s[i].value) in keep then SiftFrom(s, keep, i + 2)
    else SiftFrom(s[..i] + s[i + 2..], keep, i)
  }

  lemma {:induction false} SiftFromSifted(nodes: seq<Node>, keep: set<string>, n: nat)
    requires n <= Size(nodes)
    ensures |Kept(nodes, keep, n)| <= |Sifted(nodes, keep, n)|
    ensures SiftFrom(Sifted(nodes, keep, n), keep, |Kept(nodes, keep, n)|) == Sifted(nodes, keep, Size(nodes))
    decreases Size(nodes) - n
  {
    var s, i := Sifted(nodes, keep, n), |Kept(nodes, keep, n)|;
    SiftedLength(nodes, keep, n);
    if n == Size(nodes) {
      SiftStops(s, keep, i);
    } else {
      SiftedStep(nodes, keep, n);
      SiftFromSifted(nodes, keep, n + 1);
      SiftGoesOn(s, keep, i);
    }
  }

  lemma SiftedLength(nodes: seq<Node>, keep: set<string>, n: nat)
    requires n <= Size(nodes)
    ensures |Sifted(nodes, keep, n)| == |Kept(nodes, keep, n)| + |nodes| - 2 * n
  {
  }

  lemma SiftStops(s: seq<Node>, keep: set<string>, i: nat)
    requires i <= |s| <= i + 1
    ensures SiftFrom(s, keep, i) == s
  {
  }

  lemma SiftGoesOn(s: seq<Node>, keep: set<string>, i: nat)
    requires i + 1 < |s|
    ensures SiftFrom(s, keep, i) ==
            if Text.TrimSpace(s[i].value) in keep then SiftFrom(s, keep, i + 2)
            else SiftFrom(s[..i] + s[i + 2..], keep, i)
  {
  }

  lemma SiftAll(nodes: seq<Node>, keep: set<string>)
    ensures SiftFrom(nodes, keep, 0) == Kept(nodes, keep, Size(nodes)) + nodes[2 * Size(nodes)..]
  {
    SiftFromSifted(nodes, keep, 0);
    assert Sifted(nodes, keep, 0) == nodes;
  }

  method SiftPairs(c0: seq<Tree>, keep: set<string>, ghost nodes: seq<Node>, ghost parts: set<Tree>)
    returns (c: seq<Tree>)
    requires Kids(c0, nodes, parts)
    ensures Kids(c, SiftFrom(nodes, keep, 0), parts)
  {
    c := c0;
    ghost var left := nodes;
    var i := 0;
    while i + 1 < |c|
      invariant i <= |left| == |c|
      invariant Kids(c, left, parts)
      invariant SiftFrom(left, keep, i) == SiftFrom(nodes, keep, 0)
      decreases |c| - i
    {
      KidAt(c, left, parts, i);
      if Text.TrimSpace(c[i].value) !in keep {
        KidsRemoved(c, left, parts, i);
        c, left := c[..i] + c[i + 2..], left[..i] + left[i + 2..];
      } else {
        i := i + 2;
      }
    }
  }

  lemma KidAt(c: seq<Tree>, nodes: seq<Node>, parts: set<Tree>, i: nat)
    requires Kids(c, nodes, parts) && i < |c|
    ensures Kid(c[i], nodes[i], parts) && c[i].Valid() && c[i].value == nodes[i].value && c[i].kind == nodes[i].kind &&
            c[i].tag == nodes[i].tag
  {
    assert Kid(c[i], nodes[i], parts) && c[i].Valid();
  }

  /** Removes the pairs of a mapping whose key the generated mapping does not have. */
  method PruneMissingMapKeys(dst: Tree, src: Node)
    requires dst.Valid()
    modifies dst
    ensures dst.Valid() && dst.node == Prune(old(dst.node), src) && dst.repr == old(dst.repr)
  {
    var keep := KeysToKeep(src);
    ghost var nodes, parts := dst.node.content, dst.repr - {dst};
    var c := SiftPairs(dst.content, keep, nodes, parts);
    SiftAll(nodes, keep);
    dst.content := c;
    dst.node := Prune(dst.node, src);
  }

  lemma KidsRemoved(c: seq<Tree>, nodes: seq<Node>, parts: set<Tree>, i: nat)
    requires Kids(c, nodes, parts) && i + 1 < |c|
    ensures Kids(c[..i] + c[i + 2..], nodes[..i] + nodes[i + 2..], parts)
  {
    var d, m := c[..i] + c[i + 2..], nodes[..i] + nodes[i + 2..];
    forall j | 0 <= j < |d|
      ensures Kid(d[j], m[j], parts)
    {
      assert Kid(c[if j < i then j else j + 2], nodes[if j < i then j else j + 2], parts);
    }
  }

  // ---------------------------------------------------------------------------------------
  // Mappings
  // ---------------------------------------------------------------------------------------

  /** Merges into one child. */
  method MergeChild(dst: Tree, k: nat, v: Node)
    requires dst.Valid() && k < |dst.node.content|
    modifies dst.repr
    ensures dst.Valid() && fresh(dst.repr - old(dst.repr))
    ensures dst.node == old(dst.node).(content := old(dst.node.content)[k := Merge(old(dst.node.content)[k], v)])
    ensures dst.content == old(dst.content)
    decreases v, 5
  {
    ghost var nodes, parts := dst.node.content, dst.repr - {dst};
    var child := dst.content[k];
    KidApart(dst.content, nodes, parts, k);
    ghost var rest := parts - child.repr;
    MergeNodePreserve(child, v);
    assert Others(dst.content, nodes, rest, k);
    dst.repr := dst.repr + child.repr;
    dst.node := dst.node.(content := nodes[k := child.node]);
    KidBack(dst.content, nodes, rest, k, dst.repr - {dst});
  }

  method Append(dst: Tree, t: Tree)
    requires dst.Valid() && t.Valid() && t.repr !! dst.repr
    modifies dst
    ensures dst.Valid() && dst.repr == old(dst.repr) + t.repr
    ensures dst.node == old(dst.node).(content := old(dst.node.content) + [t.node])
    ensures dst.content == old(dst.content) + [t]
  {
    KidAdded(dst.content, dst.node.content, dst.repr - {dst}, t, dst.repr + t.repr - {dst});
    dst.content, dst.repr := dst.content + [t], dst.repr + t.repr;
    dst.node := dst.node.(content := dst.node.content + [t.node]);
  }

  /** The content of a mapping after one pair of the generated one. */
  ghost function PutPair(c: seq<Node>, src: Node, n: nat): seq<Node>
    requires n < Size(src.content)
  {
    var v := Val(src.content, n);
    var k := Find(c, Key(src.content, n));
    if k >= 0 then c[2 * k + 1 := Merge(Val(c, k), v)]
    else if IsZero(v) then c
    else c + [src.content[2 * n], v]
  }

  method MergePair(dst: Tree, src: Node, n: nat)
    requires dst.Valid() && n < Size(src.content)
    modifies dst.repr
    ensures dst.Valid() && fresh(dst.repr - old(dst.repr))
    ensures dst.node == old(dst.node).(content := PutPair(old(dst.node.content), src, n))
    ensures old(dst.content) <= dst.content
    decreases src, 1
  {
    var sk, sv := src.content[2 * n], src.content[2 * n + 1];
    var k := FindMapKey(dst.content, sk.value, dst.node.content, dst.repr - {dst});
    if k >= 0 {
      MergeChild(dst, 2 * k + 1, sv);
    } else if !IsZero(sv) {
      var key := DeepCopy(sk);
      Append(dst, key);
      var value := DeepCopy(sv);
      Append(dst, value);
      assert old(dst.node.content) + [sk] + [sv] == old(dst.node.content) + [sk, sv];
    }
  }

  method MergeAllPairs(dst: Tree, src: Node)
    requires dst.Valid()
    modifies dst.repr
    ensures dst.Valid() && fresh(dst.repr - old(dst.repr))
    ensures dst.node == old(dst.node).(content := MergePairs(old(dst.node.content), src, Size(src.content)))
    ensures old(dst.content) <= dst.content
    decreases src, 2
  {
    var n := 0;
    while 2 * n + 1 < |src.content|
      invariant 0 <= n <= Size(src.content)
      invariant dst.Valid() && fresh(dst.repr - old(dst.repr))
      invariant dst.node == old(dst.node).(content := MergePairs(old(dst.node.content), src, n))
      invariant old(dst.content) <= dst.content
    {
      MergePair(dst, src, n);
      n := n + 1;
    }
  }

  /** Of two mappings with whole pairs and unique generated keys, the missing keys are written exactly when some
      single value under them is no default. */
  ghost predicate KeepsOrWrites(before: Node, src: Node, after: Node) {
    before.kind == Mapping && src.kind == Mapping && |before.content| % 2 == 0 && DistinctKeys(src.content) ==>
      WritesMissing(before.content, src.content, after.content)
  }

  lemma Written(node: Node, src: Node)
    ensures KeepsOrWrites(node, src, Merge(node, src))
  {
    if node.kind == Mapping && src.kind == Mapping && |node.content| % 2 == 0 && DistinctKeys(src.content) {
      MissingKeysWritten(node.content, src);
    }
  }

  /** Anything but two mappings is replaced. */
  method MergeMappingPreserve(dst: Tree, src: Node)
    requires dst.Valid()
    modifies dst.repr
    ensures dst.Valid() && fresh(dst.repr - old(dst.repr))
    ensures dst.node == if old(dst.kind) == Mapping && src.kind == Mapping then Merge(old(dst.node), src) else src
    ensures old(dst.kind) == Mapping && src.kind == Mapping ==> old(dst.content) <= dst.content
    ensures KeepsOrWrites(old(dst.node), src, dst.node)
    decreases src, 3
  {
    Written(dst.node, src);
    if dst.kind != Mapping || src.kind != Mapping {
      CopyShallow(dst, src);
      return;
    }
    MergeAllPairs(dst, src);
  }

  /** The objects of the file's tree, which carry its comments, stay in use: those of a mapping in
      their places, those of a sequence where they have been matched. */
  ghost predicate Reused(node: Node, src: Node, before: seq<Tree>, after: seq<Tree>) {
    && (node.kind == Mapping && src.kind == Mapping ==> before <= after)
    && (node.kind == Sequence && src.kind == Sequence ==>
        Placed(before, after, Assign(node.content, src.content, |src.content|)))
  }

  /** The chosen elements, each in the position it was chosen for. */
  ghost predicate Placed(before: seq<Tree>, after: seq<Tree>, a: seq<int>) {
    |after| == |a| && forall i :: 0 <= i < |a| && a[i] >= 0 ==> a[i] < |before| && after[i] == before[a[i]]
  }

  lemma CopiedThenMerged(src: Node, node: Node)
    requires src.kind == Mapping && node.kind != Mapping
    ensures Merge(src, src) == Merge(node, src)
  {
  }

  method MergeNodePreserve(dst: Tree, src: Node)
    requires dst.Valid()
    modifies dst.repr
    ensures dst.Valid() && fresh(dst.repr - old(dst.repr))
    ensures dst.node == Merge(old(dst.node), src)
    ensures Reused(old(dst.node), src, old(dst.content), dst.content)
    ensures KeepsOrWrites(old(dst.node), src, dst.node)
    decreases src, 4
  {
    Written(dst.node, src);
    match src.kind
    case Mapping =>
      if dst.kind != Mapping {
        CopyShallow(dst, src);
        CopiedThenMerged(src, old(dst.node));
      }
      MergeMappingPreserve(dst, src);
    case Sequence =>
      if dst.kind == Scalar && dst.tag == "!!null" && |src.content| == 0 {
        return;
      }
      if dst.kind != Sequence {
        dst.kind, dst.tag, dst.content := Sequence, "!!seq", [];
        dst.node := dst.node.(kind := Sequence, tag := "!!seq", content := []);
      }
      MergeSequence(dst, src);
    case Scalar =>
      dst.kind, dst.tag, dst.value := src.kind, src.tag, src.value;
      dst.node := dst.node.(kind := src.kind, tag := src.tag, value := src.value);
    case Unset =>
    case Document =>
      CopyShallow(dst, src);
  }

  // ---------------------------------------------------------------------------------------
  // Sequences
  // ---------------------------------------------------------------------------------------

  method ScalarValue(t: Tree, key: string) returns (v: string)
    requires t.Valid()
    ensures v == ScalarUnder(t.node.content, key, 0)
  {
    var j := 0;
    while 2 * j + 1 < |t.content|
      invariant 0 <= j <= Size(t.node.content)
      invariant ScalarUnder(t.node.content, key, 0) == ScalarUnder(t.node.content, key, j)
    {
      KidAt(t.content, t.node.content, t.repr - {t}, 2 * j);
      KidAt(t.content, t.node.content, t.repr - {t}, 2 * j + 1);
      if t.content[2 * j + 1].kind == Scalar && Fold(t.content[2 * j].value) == key {
        return Text.TrimSpace(t.content[2 * j + 1].value);
      }
      j := j + 1;
    }
    v := "";
  }

  method NamedScalar(t: Tree) returns (id: string)
    requires t.Valid()
    ensures id == NamedIdentity(t.node.content, 0)
  {
    var k := 0;
    while k < |IdentityKeys|
      invariant 0 <= k <= |IdentityKeys|
      invariant NamedIdentity(t.node.content, 0) == NamedIdentity(t.node.content, k)
    {
      var v := ScalarValue(t, IdentityKeys[k]);
      if v != "" {
        return IdentityKeys[k] + "=" + v;
      }
      k := k + 1;
    }
    id := "";
  }

  method FirstText(t: Tree) returns (id: string)
    requires t.Valid()
    ensures id == FirstScalar(t.node.content, 0)
  {
    var j := 0;
    while 2 * j + 1 < |t.content|
      invariant 0 <= j <= Size(t.node.content)
      invariant FirstScalar(t.node.content, 0) == FirstScalar(t.node.content, j)
    {
      KidAt(t.content, t.node.content, t.repr - {t}, 2 * j);
      KidAt(t.content, t.node.content, t.repr - {t}, 2 * j + 1);
      if t.content[2 * j + 1].kind == Scalar {
        var v := Text.TrimSpace(t.content[2 * j + 1].value);
        if v != "" {
          return Fold(t.content[2 * j].value) + "=" + v;
        }
      }
      j := j + 1;
    }
    id := "";
  }

  method ElementIdentity(t: Tree) returns (id: string)
    requires t.Valid()
    ensures id == Identity(t.node)
  {
    if t.kind != Mapping {
      return "";
    }
    id := NamedScalar(t);
    if id == "" {
      id := FirstText(t);
    }
  }

  method StructurallyEqual(t: Tree, n: Node) returns (same: bool)
    requires t.Valid()
    ensures same == Alike(t.node, n)
    decreases n
  {
    if t.kind != n.kind {
      return false;
    }
    if n.kind == Mapping || n.kind == Sequence {
      if |t.content| != |n.content| {
        return false;
      }
      var end := if n.kind == Mapping then |n.content| - |n.content| % 2 else |n.content|;
      var i := 0;
      while i < end
        invariant 0 <= i <= end
        invariant forall j :: 0 <= j < i ==> Alike(t.node.content[j], n.content[j])
      {
        KidAt(t.content, t.node.content, t.repr - {t}, i);
        var alike := StructurallyEqual(t.content[i], n.content[i]);
        if !alike {
          return false;
        }
        i := i + 1;
      }
      return true;
    }
    return Text.TrimSpace(t.value) == Text.TrimSpace(n.value);
  }

  method MatchesElement(t: Tree, target: Node, structural: bool) returns (m: bool)
    requires t.Valid()
    ensures m == Matches(t.node, target, structural)
  {
    if structural {
      m := StructurallyEqual(t, target);
      return;
    }
    match target.kind
    case Mapping =>
      var id := Identity(target);
      if id == "" || t.kind != Mapping {
        return false;
      }
      var own := ElementIdentity(t);
      return own == id;
    case Scalar =>
      return Text.TrimSpace(target.value) != "" && t.kind == Scalar &&
          Text.TrimSpace(t.value) == Text.TrimSpace(target.value);
    case _ =>
      return false;
  }

  /** The marked positions are the taken ones. */
  ghost predicate Marks(used: seq<bool>, taken: seq<int>) {
    forall i :: 0 <= i < |used| ==> (used[i] <==> i in taken)
  }

  lemma MarksNext(used: seq<bool>, taken: seq<int>, k: int)
    requires Marks(used, taken) && k < |used|
    ensures Marks(if k >= 0 then used[k := true] else used, taken + [k])
  {
  }

  method FindElement(c: seq<Tree>, used: array<bool>, target: Node, structural: bool, ghost nodes: seq<Node>,
                     ghost parts: set<Tree>, ghost taken: seq<int>)
    returns (r: int)
    requires Kids(c, nodes, parts) && used.Length == |c|
    requires Marks(used[..], taken)
    ensures r == Search(nodes, taken, target, structural, 0)
  {
    var i := 0;
    while i < |c|
      invariant 0 <= i <= |c|
      invariant Search(nodes, taken, target, structural, 0) == Search(nodes, taken, target, structural, i)
    {
      assert used[..][i] == used[i];
      if !used[i] {
        KidAt(c, nodes, parts, i);
        var m := MatchesElement(c[i], target, structural);
        if m {
          return i;
        }
      }
      i := i + 1;
    }
    r := -1;
  }

  method MatchSequenceElement(c: seq<Tree>, used: array<bool>, target: Node, ghost nodes: seq<Node>,
                              ghost parts: set<Tree>, ghost taken: seq<int>)
    returns (r: int)
    requires Kids(c, nodes, parts) && used.Length == |c|
    requires Marks(used[..], taken)
    ensures r == Match(nodes, taken, target)
  {
    r := FindElement(c, used, target, false, nodes, parts, taken);
    if r < 0 {
      r := FindElement(c, used, target, true, nodes, parts, taken);
    }
  }

  method TakeElement(c: seq<Tree>, used: array<bool>, target: Node, ghost nodes: seq<Node>, ghost parts: set<Tree>,
                     ghost taken: seq<int>)
    returns (r: int)
    requires Kids(c, nodes, parts) && used.Length == |c| && Marks(used[..], taken)
    modifies used
    ensures r == Match(nodes, taken, target) && Marks(used[..], taken + [r])
  {
    r := MatchSequenceElement(c, used, target, nodes, parts, taken);
    MarksNext(used[..], taken, r);
    if r >= 0 {
      ghost var before := used[..];
      used[r] := true;
      assert used[..] == before[r := true];
    }
  }

  /** Chooses an old element for each generated one, at most once. */
  method ReorderSequence(c: seq<Tree>, src: Node, ghost nodes: seq<Node>, ghost parts: set<Tree>) returns (a: seq<int>)
    requires Kids(c, nodes, parts)
    ensures a == Assign(nodes, src.content, |src.content|)
  {
    var used := new bool[|c|](i => false);
    a := [];
    var n := 0;
    while n < |src.content|
      invariant 0 <= n <= |src.content|
      invariant a == Assign(nodes, src.content, n)
      invariant Marks(used[..], a)
      invariant Kids(c, nodes, parts)
    {
      var idx := TakeElement(c, used, src.content[n], nodes, parts, a);
      a := a + [idx];
      n := n + 1;
    }
  }

  /** The old elements that have not been taken. */
  ghost predicate Left(c: seq<Tree>, nodes: seq<Node>, parts: set<Tree>, taken: seq<int>)
    reads parts
  {
    && |c| == |nodes|
    && (forall i :: 0 <= i < |c| && i !in taken ==> Kid(c[i], nodes[i], parts))
    && (forall i, j :: 0 <= i < j < |c| && i !in taken && j !in taken ==> c[i].repr !! c[j].repr)
  }

  lemma TakeOne(c: seq<Tree>, nodes: seq<Node>, parts: set<Tree>, taken: seq<int>, k: nat)
    requires Left(c, nodes, parts, taken) && k < |c| && k !in taken
    ensures Kid(c[k], nodes[k], parts)
    ensures Left(c, nodes, parts - c[k].repr, taken + [k])
  {
    assert Kid(c[k], nodes[k], parts);
    forall i | 0 <= i < |c| && i !in taken + [k]
      ensures Kid(c[i], nodes[i], parts - c[k].repr)
    {
      assert Kid(c[i], nodes[i], parts);
      assert c[i].repr !! c[k].repr;
      assert c[i].Valid();
    }
  }

  lemma LeftStill(c: seq<Tree>, nodes: seq<Node>, parts: set<Tree>, taken: seq<int>, none: int)
    requires Left(c, nodes, parts, taken) && none < 0
    ensures Left(c, nodes, parts, taken + [none])
  {
  }

  lemma NotTaken(original: seq<Node>, targets: seq<Node>, a: seq<int>, i: nat)
    requires a == Assign(original, targets, |targets|) && i < |targets|
    ensures a[i] >= 0 ==> a[i] !in a[..i]
  {
    AssignedOnce(original, targets, |targets|);
    assert forall j :: 0 <= j < i ==> a[..i][j] == a[j] && (a[j] >= 0 ==> a[j] != a[i]);
  }

  /** One element of the merged sequence. */
  method MergeElement(child: Tree, item: Node)
    requires child.Valid()
    modifies child.repr
    ensures child.Valid() && fresh(child.repr - old(child.repr))
    ensures var m := Merge(old(child.node), item);
      child.node == if m.kind == Mapping && item.kind == Mapping then Prune(m, item) else m
    decreases item, 5
  {
    MergeNodePreserve(child, item);
    if child.kind == Mapping && item.kind == Mapping {
      PruneMissingMapKeys(child, item);
    }
  }

  /** The element for one position: the chosen old one, merged in place, or a copy. */
  method NextElement(original: seq<Tree>, a: seq<int>, src: Node, i: nat, ghost nodes: seq<Node>, ghost left: set<Tree>)
    returns (element: Tree, ghost rest: set<Tree>)
    requires i < |src.content| == |a| && a[i] < |nodes| && (a[i] >= 0 ==> a[i] !in a[..i])
    requires Left(original, nodes, left, a[..i])
    modifies left
    ensures element.Valid() && element.node == MergeItem(nodes, a, src, i)
    ensures rest <= left && Left(original, nodes, rest, a[..i] + [a[i]])
    ensures element.repr !! rest && fresh(element.repr - left)
    ensures a[i] >= 0 ==> a[i] < |original| && element == original[a[i]]
    decreases src, 0
  {
    if a[i] < 0 {
      LeftStill(original, nodes, left, a[..i], a[i]);
      element := DeepCopy(src.content[i]);
      rest := left;
    } else {
      element := original[a[i]];
      TakeOne(original, nodes, left, a[..i], a[i]);
      rest := left - element.repr;
      MergeElement(element, src.content[i]);
    }
  }

  lemma TakenNext(a: seq<int>, i: nat)
    requires i < |a|
    ensures a[..i] + [a[i]] == a[..i + 1]
  {
  }

  /** Puts the next element behind those that are in place. */
  method PlaceNext(original: seq<Tree>, a: seq<int>, src: Node, i: nat, built0: seq<Tree>,
                   ghost nodes: seq<Node>, ghost parts0: set<Tree>, ghost left0: set<Tree>)
    returns (built: seq<Tree>, ghost parts: set<Tree>, ghost left: set<Tree>)
    requires i < |src.content| && |original| == |nodes| && a == Assign(nodes, src.content, |src.content|)
    requires Kids(built0, MergeItems(nodes, a, src, i), parts0) && Left(original, nodes, left0, a[..i]) &&
             parts0 !! left0
    modifies left0
    ensures Kids(built, MergeItems(nodes, a, src, i + 1), parts) && Left(original, nodes, left, a[..i + 1]) &&
            parts !! left
    ensures left <= left0 && fresh(parts - parts0 - left0)
    ensures Placed(original, built0, a[..i]) ==> Placed(original, built, a[..i + 1])
    decreases src, 1
  {
    NotTaken(nodes, src.content, a, i);
    TakenNext(a, i);
    ghost var items := MergeItems(nodes, a, src, i);
    var element;
    element, left := NextElement(original, a, src, i, nodes, left0);
    KidAdded(built0, items, parts0, element, parts0 + element.repr);
    built, parts := built0 + [element], parts0 + element.repr;
  }

  method MergeSequence(dst: Tree, src: Node)
    requires dst.Valid()
    modifies dst.repr
    ensures dst.Valid() && fresh(dst.repr - old(dst.repr))
    ensures dst.node == old(dst.node).(content :=
                                       MergeItems(old(dst.node.content),
                                                  Assign(old(dst.node.content), src.content, |src.content|), src,
                                                      |src.content|))
    ensures Placed(old(dst.content), dst.content, Assign(old(dst.node.content), src.content, |src.content|))
    decreases src, 2
  {
    ghost var nodes := dst.node.content;
    var original := dst.content;
    var a := ReorderSequence(original, src, nodes, dst.repr - {dst});
    var built: seq<Tree> := [];
    ghost var parts: set<Tree>, left := {}, dst.repr - {dst};
    var i := 0;
    while i < |src.content|
      invariant 0 <= i <= |src.content|
      invariant Kids(built, MergeItems(nodes, a, src, i), parts)
      invariant Left(original, nodes, left, a[..i])
      invariant parts !! left && left <= old(dst.repr) - {dst} && fresh(parts - (old(dst.repr) - {dst})) &&
                dst !in parts
      invariant Placed(original, built, a[..i])
      invariant unchanged(dst)
    {
      built, parts, left := PlaceNext(original, a, src, i, built, nodes, parts, left);
      i := i + 1;
    }
    assert a[..i] == a;
    dst.content := built;
    dst.repr := parts + {dst};
    dst.node := dst.node.(content := MergeItems(nodes, a, src, |src.content|));
    assert dst.repr - {dst} == parts;
  }
}
