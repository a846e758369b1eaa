/** YAML nodes as values: kind, tag, text and content, where the content of a mapping alternates
    keys and values. */
module YamlNode {
  import Text

  datatype Kind = Unset | Document | Sequence | Mapping | Scalar

  datatype Node = Node(kind: Kind, tag: string, value: string, content: seq<Node>)

  /** The number of complete pairs of a mapping, and its keys and values. */
  function Size(c: seq<Node>): nat {
    |c| / 2
  }

  function Key(c: seq<Node>, j: nat): string
    requires j < Size(c)
  {
    c[2 * j].value
  }

  function Val(c: seq<Node>, j: nat): Node
    requires j < Size(c)
  {
    c[2 * j + 1]
  }

  /** The first pair with a key, counting from a pair; -1 when there is none. */
  function FindFrom(c: seq<Node>, key: string, j: nat): (r: int)
    requires j <= Size(c)
    ensures r == -1 || (j <= r < Size(c) && Key(c, r) == key)
    ensures forall i :: j <= i < (if r < 0 then Size(c) else r) ==> Key(c, i) != key
    decreases Size(c) - j
  {
    if j == Size(c) then -1 else if Key(c, j) == key then j else FindFrom(c, key, j + 1)
  }

  function Find(c: seq<Node>, key: string): int {
    FindFrom(c, key, 0)
  }

  lemma FindUnique(c: seq<Node>, key: string, r: int)
    requires r == -1 || (0 <= r < Size(c) && Key(c, r) == key)
    requires forall i :: 0 <= i < (if r < 0 then Size(c) else r) ==> Key(c, i) != key
    ensures Find(c, key) == r
  {
  }

  /** A default value that is not written as a new key. */
  predicate IsZero(n: Node)
    decreases n
  {
    match n.kind
    case Scalar =>
      if n.tag == "!!bool" then n.value == "false"
      else if n.tag == "!!int" || n.tag == "!!float" then n.value == "0" || n.value == "0.0"
      else if n.tag == "!!str" then n.value == ""
      else n.tag == "!!null"
    case Sequence => forall i :: 0 <= i < |n.content| ==> IsZero(n.content[i])
    case Mapping => forall j :: 0 <= j < Size(n.content) ==> IsZero(Val(n.content, j))
    case _ => false
  }

  /** Same shape and same trimmed texts. */
  predicate Alike(a: Node, b: Node)
    decreases a
  {
    && a.kind == b.kind
    && match a.kind
       case Mapping =>
         && |a.content| == |b.content|
         && (forall i :: 0 <= i < |a.content| - |a.content| % 2 ==> Alike(a.content[i], b.content[i]))
       case Sequence =>
         && |a.content| == |b.content|
         && (forall i :: 0 <= i < |a.content| ==> Alike(a.content[i], b.content[i]))
       case _ => Text.TrimSpace(a.value) == Text.TrimSpace(b.value)
  }

  lemma {:induction false} AlikeSelf(n: Node)
    ensures Alike(n, n)
    decreases n
  {
    forall i | 0 <= i < |n.content|
      ensures Alike(n.content[i], n.content[i])
    {
      AlikeSelf(n.content[i]);
    }
  }

  lemma {:induction false} AlikeSymmetric(a: Node, b: Node)
    requires Alike(a, b)
    ensures Alike(b, a)
    decreases a
  {
    if a.kind == Mapping || a.kind == Sequence {
      forall i | 0 <= i < |a.content| && Alike(a.content[i], b.content[i])
        ensures Alike(b.content[i], a.content[i])
      {
        AlikeSymmetric(a.content[i], b.content[i]);
      }
    }
  }

  /** Structural equality is an equivalence. */
  lemma {:induction false} AlikeTransitive(a: Node, b: Node, c: Node)
    requires Alike(a, b) && Alike(b, c)
    ensures Alike(a, c)
    decreases a
  {
    if a.kind == Mapping || a.kind == Sequence {
      forall i | 0 <= i < |a.content| && Alike(a.content[i], b.content[i]) && Alike(b.content[i], c.content[i])
        ensures Alike(a.content[i], c.content[i])
      {
        AlikeTransitive(a.content[i], b.content[i], c.content[i]);
      }
    }
  }

  /** Following positions down from a node, through the values of mappings and the elements of sequences. */
  predicate LeadsDown(n: Node, path: seq<nat>, leaf: Node)
    decreases path
  {
    if path == [] then n == leaf
    else match n.kind
      case Mapping => path[0] < Size(n.content) && LeadsDown(Val(n.content, path[0]), path[1..], leaf)
      case Sequence => path[0] < |n.content| && LeadsDown(n.content[path[0]], path[1..], leaf)
      case _ => false
  }

  /** A single value somewhere inside a node. */
  ghost predicate Inside(leaf: Node, n: Node) {
    leaf.kind != Mapping && leaf.kind != Sequence && exists path :: LeadsDown(n, path, leaf)
  }

  /** A node is a default value exactly when every single value inside it is one. */
  lemma {:induction false} ZeroIffAllValues(n: Node)
    ensures IsZero(n) <==> forall leaf :: Inside(leaf, n) ==> IsZero(leaf)
  {
    if IsZero(n) {
      forall leaf | Inside(leaf, n)
        ensures IsZero(leaf)
      {
        var path :| LeadsDown(n, path, leaf);
        ZeroDown(n, path, leaf);
      }
    } else {
      var path, leaf := NonZeroValue(n);
      assert Inside(leaf, n);
    }
  }

  lemma {:induction false} ZeroDown(n: Node, path: seq<nat>, leaf: Node)
    requires IsZero(n) && LeadsDown(n, path, leaf)
    ensures IsZero(leaf)
    decreases path
  {
    if path != [] {
      ZeroDown(if n.kind == Mapping then Val(n.content, path[0]) else n.content[path[0]], path[1..], leaf);
    }
  }

  lemma {:induction false} NonZeroValue(n: Node) returns (path: seq<nat>, leaf: Node)
    requires !IsZero(n)
    ensures LeadsDown(n, path, leaf) && leaf.kind != Mapping && leaf.kind != Sequence && !IsZero(leaf)
    decreases n
  {
    match n.kind
    case Mapping =>
      var j: nat :| j < Size(n.content) && !IsZero(Val(n.content, j));
      var rest;
      rest, leaf := NonZeroValue(Val(n.content, j));
      path := [j] + rest;
      assert path[1..] == rest;
    case Sequence =>
      var i: nat :| i < |n.content| && !IsZero(n.content[i]);
      var rest;
      rest, leaf := NonZeroValue(n.content[i]);
      path := [i] + rest;
      assert path[1..] == rest;
    case _ =>
      path, leaf := [], n;
  }

  const IdentityKeys: seq<string> := ["id", "name", "alias", "api-key", "api_key", "apikey", "key", "provider", "model"]

  function Fold(key: string): string {
    Text.ToLower(Text.TrimSpace(key))
  }

  /** The trimmed text of the first scalar under a key, whatever its case. */
  function ScalarUnder(c: seq<Node>, key: string, j: nat): string
    requires j <= Size(c)
    decreases Size(c) - j
  {
    if j == Size(c) then ""
    else if Val(c, j).kind == Scalar && Fold(Key(c, j)) == key then Text.TrimSpace(Val(c, j).value)
    else ScalarUnder(c, key, j + 1)
  }

  function NamedIdentity(c: seq<Node>, k: nat): string
    requires k <= |IdentityKeys|
    decreases |IdentityKeys| - k
  {
    if k == |IdentityKeys| then ""
    else
      var v := ScalarUnder(c, IdentityKeys[k], 0);
      if v != "" then IdentityKeys[k] + "=" + v else NamedIdentity(c, k + 1)
  }

  function FirstScalar(c: seq<Node>, j: nat): string
    requires j <= Size(c)
    decreases Size(c) - j
  {
    if j == Size(c) then ""
    else if Val(c, j).kind == Scalar && Text.TrimSpace(Val(c, j).value) != "" then
        Fold(Key(c, j)) + "=" + Text.TrimSpace(Val(c, j).value)
    else FirstScalar(c, j + 1)
  }

  /** How a mapping inside a sequence is recognised: by an identifying key, or by its first text. */
  function Identity(n: Node): string {
    if n.kind != Mapping then ""
    else if NamedIdentity(n.content, 0) != "" then NamedIdentity(n.content, 0)
    else FirstScalar(n.content, 0)
  }
}
