/** Which values are defaults, which text identifies an element and which nodes are alike, told by literal
    tags, keys and positions. */
module YamlEffects {
  import opened Collections
  import opened YamlNode
  import opened YamlMerge
  import opened YamlCover
  import opened YamlTwice
  import Text

  // ---------------------------------------------------------------------------------------
  // Default values
  // ---------------------------------------------------------------------------------------

  /** The single values that are not written as new keys: false, a zero, an empty text and any null. */
  predicate DefaultLeaf(leaf: Node) {
    && leaf.kind == Scalar
    && (|| (leaf.tag == "!!bool" && leaf.value == "false")
        || (leaf.tag == "!!int" && leaf.value in {"0", "0.0"})
        || (leaf.tag == "!!float" && leaf.value in {"0", "0.0"})
        || (leaf.tag == "!!str" && leaf.value == "")
        || leaf.tag == "!!null")
  }

  lemma ZeroLeafIff(leaf: Node)
    requires leaf.kind != Mapping && leaf.kind != Sequence
    ensures IsZero(leaf) <==> DefaultLeaf(leaf)
  {
    assert "!!bool"[2] == 'b' && "!!int"[2] == 'i' && "!!float"[2] == 'f' && "!!str"[2] == 's' && "!!null"[2] == 'n';
  }

  /** Some single value inside is not a default. */
  ghost predicate WorthWriting(v: Node) {
    exists leaf :: Inside(leaf, v) && !DefaultLeaf(leaf)
  }

  lemma WorthIff(v: Node)
    ensures WorthWriting(v) <==> !IsZero(v)
  {
    ZeroIffAllValues(v);
    if leaf :| Inside(leaf, v) && !DefaultLeaf(leaf) {
      ZeroLeafIff(leaf);
    }
    if leaf :| Inside(leaf, v) && !IsZero(leaf) {
      ZeroLeafIff(leaf);
    }
  }

  ghost predicate HasKey(c: seq<Node>, key: string) {
    exists i :: 0 <= i < Size(c) && Key(c, i) == key
  }

  lemma FoundIffHasKey(c: seq<Node>, key: string)
    ensures Find(c, key) >= 0 <==> HasKey(c, key)
  {
  }

  /** The pairs whose keys the file lacks are written exactly when they are worth writing, as they are. */
  ghost predicate WritesMissing(d: seq<Node>, src: seq<Node>, r: seq<Node>) {
    forall j :: 0 <= j < Size(src) && !HasKey(d, Key(src, j)) ==>
      && (HasKey(r, Key(src, j)) <==> WorthWriting(Val(src, j)))
      && (HasKey(r, Key(src, j)) ==> Val(r, Find(r, Key(src, j))) == Val(src, j))
  }

  /** Merging a mapping writes a key that the file lacks exactly when some single value under it is no default. */
  lemma MissingKeysWritten(d: seq<Node>, src: Node)
    requires |d| % 2 == 0 && DistinctKeys(src.content)
    ensures WritesMissing(d, src.content, MergePairs(d, src, Size(src.content)))
  {
    var r := MergePairs(d, src, Size(src.content));
    forall j | 0 <= j < Size(src.content) && !HasKey(d, Key(src.content, j))
      ensures HasKey(r, Key(src.content, j)) <==> WorthWriting(Val(src.content, j))
      ensures HasKey(r, Key(src.content, j)) ==> Val(r, Find(r, Key(src.content, j))) == Val(src.content, j)
    {
      FoundIffHasKey(d, Key(src.content, j));
      FoundIffHasKey(r, Key(src.content, j));
      PairAfter(d, src, Size(src.content), j);
      WorthIff(Val(src.content, j));
    }
  }

  /** A covered mapping has each generated key with a covered value, or every single value under it is a default. */
  lemma CoveredPair(r: Node, s: Node, j: nat)
    requires s.kind == Mapping && j < Size(s.content) && Covers(r, s)
    ensures if HasKey(r.content, Key(s.content, j))
            then Covers(Val(r.content, Find(r.content, Key(s.content, j))), Val(s.content, j))
            else !WorthWriting(Val(s.content, j))
  {
    assert PairCovered(r.content, s, j);
    FoundIffHasKey(r.content, Key(s.content, j));
    WorthIff(Val(s.content, j));
  }

  // ---------------------------------------------------------------------------------------
  // The identity of an element
  // ---------------------------------------------------------------------------------------

  /** The first pair with a single value whose key is the given one, trimmed and in lower case. */
  predicate FirstScalarUnder(c: seq<Node>, key: string, j: nat) {
    && j < Size(c) && Val(c, j).kind == Scalar && Text.ToLower(Text.TrimSpace(Key(c, j))) == key
    && forall i :: 0 <= i < j && Val(c, i).kind == Scalar ==> Text.ToLower(Text.TrimSpace(Key(c, i))) != key
  }

  /** A text that is not blank stands first under the key. */
  ghost predicate Named(c: seq<Node>, key: string, text: string) {
    text != "" && exists j :: FirstScalarUnder(c, key, j) && Text.TrimSpace(Val(c, j).value) == text
  }

  lemma {:induction false} ScalarUnderIs(c: seq<Node>, key: string, i: nat)
    requires i <= Size(c)
    requires forall k :: 0 <= k < i && Val(c, k).kind == Scalar ==> Text.ToLower(Text.TrimSpace(Key(c, k))) != key
    ensures forall j :: FirstScalarUnder(c, key, j) ==> ScalarUnder(c, key, i) == Text.TrimSpace(Val(c, j).value)
    ensures (forall j :: !FirstScalarUnder(c, key, j)) ==> ScalarUnder(c, key, i) == ""
    decreases Size(c) - i
  {
    if i < Size(c) {
      if Val(c, i).kind == Scalar && Fold(Key(c, i)) == key {
        assert FirstScalarUnder(c, key, i);
        forall j | FirstScalarUnder(c, key, j)
          ensures j == i
        {
        }
      } else {
        ScalarUnderIs(c, key, i + 1);
      }
    }
  }

  lemma NamedIs(c: seq<Node>, key: string, text: string)
    requires text != ""
    ensures Named(c, key, text) <==> ScalarUnder(c, key, 0) == text
  {
    ScalarUnderIs(c, key, 0);
  }

  lemma {:induction false} NamedFrom(c: seq<Node>, i: nat, k: nat, text: string)
    requires i <= k < |IdentityKeys| && Named(c, IdentityKeys[k], text)
    requires forall m, t :: i <= m < k ==> !Named(c, IdentityKeys[m], t)
    ensures NamedIdentity(c, i) == IdentityKeys[k] + "=" + text
    decreases k - i
  {
    NamedIs(c, IdentityKeys[k], text);
    if i < k {
      var t := ScalarUnder(c, IdentityKeys[i], 0);
      if t != "" {
        NamedIs(c, IdentityKeys[i], t);
      }
      NamedFrom(c, i + 1, k, text);
    }
  }

  /** The first of these keys that has a text identifies an element. */
  lemma IdentityKeyWins(n: Node, k: nat, text: string)
    requires n.kind == Mapping
    requires var keys := ["id", "name", "alias", "api-key", "api_key", "apikey", "key", "provider", "model"];
      && k < |keys| && Named(n.content, keys[k], text)
      && forall m, t :: 0 <= m < k ==> !Named(n.content, keys[m], t)
    ensures var keys := ["id", "name", "alias", "api-key", "api_key", "apikey", "key", "provider", "model"];
      Identity(n) == keys[k] + "=" + text
  {
    NamedFrom(n.content, 0, k, text);
    assert (IdentityKeys[k] + "=" + text)[|IdentityKeys[k]|] == '=';
  }

  lemma {:induction false} NoneNamed(c: seq<Node>, i: nat)
    requires i <= |IdentityKeys| && forall m, t :: i <= m < |IdentityKeys| ==> !Named(c, IdentityKeys[m], t)
    ensures NamedIdentity(c, i) == ""
    decreases |IdentityKeys| - i
  {
    if i < |IdentityKeys| {
      var t := ScalarUnder(c, IdentityKeys[i], 0);
      if t != "" {
        NamedIs(c, IdentityKeys[i], t);
      }
      NoneNamed(c, i + 1);
    }
  }

  /** The first pair with a text that is not blank. */
  predicate FirstTextAt(c: seq<Node>, j: nat) {
    && j < Size(c) && Val(c, j).kind == Scalar && Text.TrimSpace(Val(c, j).value) != ""
    && forall i :: 0 <= i < j && Val(c, i).kind == Scalar ==> Text.TrimSpace(Val(c, i).value) == ""
  }

  lemma {:induction false} FirstScalarIs(c: seq<Node>, i: nat)
    requires i <= Size(c)
    requires forall k :: 0 <= k < i && Val(c, k).kind == Scalar ==> Text.TrimSpace(Val(c, k).value) == ""
    ensures forall j :: FirstTextAt(c, j) ==>
              FirstScalar(c, i) == Text.ToLower(Text.TrimSpace(Key(c, j))) + "=" + Text.TrimSpace(Val(c, j).value)
    ensures (forall j :: !FirstTextAt(c, j)) ==> FirstScalar(c, i) == ""
    decreases Size(c) - i
  {
    if i < Size(c) {
      if Val(c, i).kind == Scalar && Text.TrimSpace(Val(c, i).value) != "" {
        assert FirstTextAt(c, i);
        forall j | FirstTextAt(c, j)
          ensures j == i
        {
        }
      } else {
        FirstScalarIs(c, i + 1);
      }
    }
  }

  /** Without any of these keys the first text that is not blank identifies an element, with its key. */
  lemma FirstTextIdentifies(n: Node)
    requires n.kind == Mapping
    requires forall key, t ::
               key in ["id", "name", "alias", "api-key", "api_key", "apikey", "key", "provider", "model"] ==>
                 !Named(n.content, key, t)
    ensures forall j :: FirstTextAt(n.content, j) ==>
              Identity(n) ==
              Text.ToLower(Text.TrimSpace(Key(n.content, j))) + "=" + Text.TrimSpace(Val(n.content, j).value)
    ensures (forall j :: !FirstTextAt(n.content, j)) ==> Identity(n) == ""
  {
    NoneNamed(n.content, 0);
    FirstScalarIs(n.content, 0);
  }

  /** The element chosen for a generated one: the first free one that is identified with it or, if there is none,
      the first free one that is alike. */
  lemma ChoiceIs(original: seq<Node>, taken: seq<int>, target: Node)
    ensures var r := Match(original, taken, target);
      && -1 <= r < |original|
      && (r >= 0 ==> r !in taken)
      && (forall i :: 0 <= i < |original| && i !in taken && Identified(original[i], target) ==>
            0 <= r <= i && Identified(original[r], target))
      && (forall i :: 0 <= i < |original| && i !in taken && Alike(original[i], target) ==>
            r >= 0 && (Identified(original[r], target) || (r <= i && Alike(original[r], target))))
      && (r >= 0 ==> Identified(original[r], target) || Alike(original[r], target))
  {
  }

  /** Mappings are identified by equal identities that are not blank, single values by equal texts that are not. */
  lemma IdentifiedIff(n: Node, target: Node)
    ensures Identified(n, target) <==>
            || (target.kind == Mapping && n.kind == Mapping && Identity(n) == Identity(target) != "")
            || (target.kind == Scalar && n.kind == Scalar
                && Text.TrimSpace(n.value) == Text.TrimSpace(target.value) != "")
  {
  }

  // ---------------------------------------------------------------------------------------
  // Structural equality
  // ---------------------------------------------------------------------------------------

  /** The node at a position of a sequence or of a mapping with whole pairs. */
  function Child(n: Node, i: nat): Option<Node> {
    if (n.kind == Sequence && i < |n.content|) || (n.kind == Mapping && i < 2 * Size(n.content)) then Some(n.content[i])
    else None
  }

  function NodeAt(n: Node, path: seq<nat>): Option<Node>
    decreases path
  {
    if path == [] then Some(n)
    else if Child(n, path[0]).Some? then NodeAt(Child(n, path[0]).value, path[1..])
    else None
  }

  /** The same kind, and the same length or the same trimmed text. */
  predicate SameNode(a: Option<Node>, b: Option<Node>) {
    && (a.Some? <==> b.Some?)
    && (a.Some? ==>
          && a.value.kind == b.value.kind
          && if a.value.kind == Mapping || a.value.kind == Sequence then |a.value.content| == |b.value.content|
             else Text.TrimSpace(a.value.value) == Text.TrimSpace(b.value.value))
  }

  ghost predicate SameEverywhere(a: Node, b: Node) {
    forall path: seq<nat> :: SameNode(NodeAt(a, path), NodeAt(b, path))
  }

  lemma {:induction false} AlikeAt(a: Node, b: Node, path: seq<nat>)
    requires Alike(a, b)
    ensures SameNode(NodeAt(a, path), NodeAt(b, path))
    decreases path
  {
    if path != [] && Child(a, path[0]).Some? {
      AlikeAt(Child(a, path[0]).value, Child(b, path[0]).value, path[1..]);
    }
  }

  lemma ChildSame(a: Node, b: Node, i: nat)
    requires SameEverywhere(a, b) && Child(a, i).Some? && Child(b, i).Some?
    ensures SameEverywhere(Child(a, i).value, Child(b, i).value)
  {
    forall path: seq<nat>
      ensures SameNode(NodeAt(Child(a, i).value, path), NodeAt(Child(b, i).value, path))
    {
      assert ([i] + path)[1..] == path;
      assert SameNode(NodeAt(a, [i] + path), NodeAt(b, [i] + path));
    }
  }

  /** Nodes are alike exactly when they agree in kind, length and trimmed text at every position inside. */
  lemma {:induction false} AlikeIff(a: Node, b: Node)
    ensures Alike(a, b) <==> SameEverywhere(a, b)
    decreases a
  {
    if Alike(a, b) {
      forall path: seq<nat>
        ensures SameNode(NodeAt(a, path), NodeAt(b, path))
      {
        AlikeAt(a, b, path);
      }
    }
    if SameEverywhere(a, b) {
      assert SameNode(NodeAt(a, []), NodeAt(b, []));
      if a.kind == Mapping || a.kind == Sequence {
        forall i: nat | Child(a, i).Some?
          ensures Alike(Child(a, i).value, b.content[i])
        {
          ChildSame(a, b, i);
          AlikeIff(Child(a, i).value, Child(b, i).value);
        }
        assert forall i :: 0 <= i < |a.content| - |a.content| % 2 ==>
               Child(a, i).Some? && a.content[i] == Child(a, i).value;
      }
    }
  }

  // ---------------------------------------------------------------------------------------
  // What a node looks like after a merge
  // ---------------------------------------------------------------------------------------

  /** A node keeps its tag and text where it has the generated kind; a mapping in another place is the generated one,
      and a sequence in another place gets the standard tag, unless it is empty and an explicit null stands there. */
  lemma LooksAfter(dst: Node, src: Node)
    ensures var r := Merge(dst, src);
      match src.kind
      case Mapping =>
        r.kind == Mapping && (r.tag, r.value) ==
            if dst.kind == Mapping then (dst.tag, dst.value) else (src.tag, src.value)
      case Sequence =>
        if dst.kind == Sequence then r.kind == Sequence && r.tag == dst.tag && r.value == dst.value
        else if dst.kind == Scalar && dst.tag == "!!null" && src.content == [] then r == dst
        else r.kind == Sequence && r.tag == "!!seq" && r.value == dst.value
      case Scalar => r == Node(Scalar, src.tag, src.value, dst.content)
      case Unset => r == dst
      case Document => r == src
  {
  }
}
