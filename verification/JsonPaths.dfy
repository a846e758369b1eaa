/** Paths into JSON values: how they are printed, split, collected and ordered. */
module JsonPaths {
  import Sorting
  import Text

  // ---------------------------------------------------------------------------------------
  // Printing and splitting
  // ---------------------------------------------------------------------------------------

  predicate Special(c: char) {
    c == '.' || c == '*' || c == '?'
  }

  /** A key as a path element; backslashes themselves are not escaped. */
  function EscapeKey(key: string): string {
    if key == "" then ""
    else (if Special(key[0]) then ['\\', key[0]] else [key[0]]) + EscapeKey(key[1..])
  }

  function UnescapeKey(s: string): string {
    if s == "" then ""
    else if s[0] == '\\' && |s| > 1 then [s[1]] + UnescapeKey(s[2..])
    else [s[0]] + UnescapeKey(s[1..])
  }

  function Extend(path: string, key: string): string {
    if path == "" then EscapeKey(key) else path + "." + EscapeKey(key)
  }

  /** The path Walk builds for a list of keys. */
  function PathOf(keys: seq<string>): string {
    if keys == [] then "" else Extend(PathOf(keys[..|keys| - 1]), keys[|keys| - 1])
  }

  /** The elements between unescaped dots, still escaped. */
  function Pieces(p: string): (parts: seq<string>)
    ensures parts != []
  {
    if p == "" then [""]
    else if p[0] == '\\' && |p| > 1 then
      var rest := Pieces(p[2..]);
      [p[..2] + rest[0]] + rest[1..]
    else if p[0] == '.' then [""] + Pieces(p[1..])
    else
      var rest := Pieces(p[1..]);
      [[p[0]] + rest[0]] + rest[1..]
  }

  function SplitPath(p: string): seq<string> {
    if p == "" then [] else Pieces(p)
  }

  function Keys(parts: seq<string>): (keys: seq<string>)
    ensures |keys| == |parts|
  {
    seq(|parts|, i requires 0 <= i < |parts| => UnescapeKey(parts[i]))
  }

  /** Splitting and unescaping in one go. */
  function Decode(p: string): (keys: seq<string>)
    ensures keys != []
  {
    if p == "" then [""]
    else if p[0] == '\\' && |p| > 1 then
      var rest := Decode(p[2..]);
      [[p[1]] + rest[0]] + rest[1..]
    else if p[0] == '.' then [""] + Decode(p[1..])
    else
      var rest := Decode(p[1..]);
      [[p[0]] + rest[0]] + rest[1..]
  }

  lemma KeysCons(part: string, rest: seq<string>)
    ensures Keys([part] + rest) == [UnescapeKey(part)] + Keys(rest)
  {
    var parts := [part] + rest;
    assert forall i :: 0 <= i < |rest| ==> parts[i + 1] == rest[i];
  }

  lemma KeysTail(parts: seq<string>)
    requires parts != []
    ensures Keys(parts)[0] == UnescapeKey(parts[0]) && Keys(parts)[1..] == Keys(parts[1..])
  {
    assert parts == [parts[0]] + parts[1..];
    KeysCons(parts[0], parts[1..]);
  }

  lemma UnescapePair(c: char, rest: string)
    ensures UnescapeKey(['\\', c] + rest) == [c] + UnescapeKey(rest)
  {
    assert (['\\', c] + rest)[2..] == rest;
  }

  lemma UnescapeChar(c: char, rest: string)
    requires c == '\\' ==> rest == ""
    ensures UnescapeKey([c] + rest) == [c] + UnescapeKey(rest)
  {
    assert ([c] + rest)[1..] == rest;
  }

  lemma {:induction false} DecodeIsKeys(p: string)
    ensures Keys(Pieces(p)) == Decode(p)
    decreases p
  {
    if p != "" {
      if p[0] == '\\' && |p| > 1 {
        var rest := Pieces(p[2..]);
        DecodeIsKeys(p[2..]);
        KeysTail(rest);
        KeysCons(p[..2] + rest[0], rest[1..]);
        assert p[..2] == ['\\', p[1]];
        UnescapePair(p[1], rest[0]);
      } else if p[0] == '.' {
        DecodeIsKeys(p[1..]);
        KeysCons("", Pieces(p[1..]));
      } else {
        var rest := Pieces(p[1..]);
        DecodeIsKeys(p[1..]);
        KeysTail(rest);
        KeysCons([p[0]] + rest[0], rest[1..]);
        UnescapeChar(p[0], rest[0]);
      }
    }
  }

  // ---------------------------------------------------------------------------------------
  // Which key lists survive the round trip
  // ---------------------------------------------------------------------------------------

  /** Every backslash stands before a star or a question mark, or ends the last key of the list. */
  predicate Plain(key: string, last: bool) {
    if key == "" then true
    else if key[0] == '\\' then
      if |key| == 1 then last else (key[1] == '*' || key[1] == '?') && Plain(key[2..], last)
    else Plain(key[1..], last)
  }

  predicate AllPlain(keys: seq<string>) {
    forall i :: 0 <= i < |keys| ==> Plain(keys[i], i == |keys| - 1)
  }

  predicate Addressable(keys: seq<string>) {
    keys == [] || (keys[0] != "" && AllPlain(keys))
  }

  /** What may follow an escaped key in a path: nothing or a dot. */
  predicate Boundary(rest: string) {
    rest == "" || rest[0] == '.'
  }

  lemma EscapeCons(key: string, rest: string)
    requires key != ""
    ensures EscapeKey(key) + rest == (if Special(key[0]) then ['\\', key[0]] else [key[0]]) +
            (EscapeKey(key[1..]) + rest)
  {
  }

  lemma DecodePair(p: string, c: char, rest: string)
    requires p == ['\\', c] + rest
    ensures Decode(p) == [[c] + Decode(rest)[0]] + Decode(rest)[1..]
  {
    assert p[2..] == rest;
  }

  lemma DecodeChar(p: string, c: char, rest: string)
    requires p == [c] + rest && c != '.' && (c == '\\' ==> rest == "")
    ensures Decode(p) == [[c] + Decode(rest)[0]] + Decode(rest)[1..]
  {
    assert p[1..] == rest;
  }

  lemma DecodeBoundary(rest: string)
    requires Boundary(rest)
    ensures Decode(rest)[0] == ""
  {
  }

  lemma DecodeDot(tail: string)
    ensures Decode(['.'] + tail)[0] == ""
  {
  }

  /** Two characters of the path starting with a backslash and an ordinary successor of the key. */
  lemma DecodeBackslash(key: string, rest: string)
    requires |key| > 1 && key[0] == '\\' && Boundary(rest)
    ensures key[1] == '*' || key[1] == '?' ==>
              Decode(EscapeKey(key) + rest)[0] == key[..2] + Decode(EscapeKey(key[2..]) + rest)[0] &&
              Decode(EscapeKey(key) + rest)[1..] == Decode(EscapeKey(key[2..]) + rest)[1..]
    ensures key[1] == '.' ==> Decode(EscapeKey(key) + rest)[0] == "\\"
    ensures !Special(key[1]) ==> Decode(EscapeKey(key) + rest)[0] == [key[1]] + Decode(EscapeKey(key[2..]) + rest)[0]
  {
    hide Decode, EscapeKey;
    var p, c, tail := EscapeKey(key) + rest, key[1], EscapeKey(key[2..]) + rest;
    EscapeCons(key, rest);
    EscapeCons(key[1..], rest);
    assert key[1..][1..] == key[2..];
    if Special(c) {
      assert p == ['\\', '\\'] + ([c] + tail);
      DecodePair(p, '\\', [c] + tail);
      assert ([c] + tail)[1..] == tail;
      if c != '.' {
        DecodeChar([c] + tail, c, tail);
        assert ['\\'] + ([c] + Decode(tail)[0]) == key[..2] + Decode(tail)[0];
      } else {
        DecodeDot(tail);
      }
    } else {
      assert p == ['\\', c] + tail;
      DecodePair(p, c, tail);
    }
  }

  lemma DecodeOrdinary(key: string, rest: string)
    requires key != "" && key[0] != '\\'
    ensures Decode(EscapeKey(key) + rest) == [[key[0]] + Decode(EscapeKey(key[1..]) + rest)[0]] +
            Decode(EscapeKey(key[1..]) + rest)[1..]
  {
    var p, tail := EscapeKey(key) + rest, EscapeKey(key[1..]) + rest;
    EscapeCons(key, rest);
    if Special(key[0]) {
      DecodePair(p, key[0], tail);
    } else {
      DecodeChar(p, key[0], tail);
    }
  }

  lemma DecodeLoneBackslash(rest: string)
    requires Boundary(rest)
    ensures rest == "" ==> Decode("\\" + rest) == ["\\"]
    ensures rest != "" ==> Decode("\\" + rest)[0] != "" && Decode("\\" + rest)[0][0] == '.'
  {
    if rest == "" {
      assert "\\" + rest == ['\\'] + "";
      DecodeChar("\\" + rest, '\\', "");
      assert ['\\'] + "" == "\\" && Decode("") == [""];
    } else {
      assert "\\" + rest == ['\\', '.'] + rest[1..];
      DecodePair("\\" + rest, '.', rest[1..]);
    }
  }

  /** A plain key comes back as the first decoded key and leaves the rest of the path alone. */
  lemma {:induction false} PlainDecodes(key: string, rest: string)
    requires Boundary(rest) && Plain(key, rest == "")
    ensures Decode(EscapeKey(key) + rest) == [key] + Decode(rest)[1..]
    decreases |key|
  {
    DecodeBoundary(rest);
    if key == "" {
      assert EscapeKey(key) + rest == rest;
    } else if key[0] != '\\' {
      PlainDecodes(key[1..], rest);
      DecodeOrdinary(key, rest);
      assert [key[0]] + key[1..] == key;
    } else if |key| == 1 {
      assert key == "\\" && EscapeKey(key) + rest == "\\" + rest;
      DecodeLoneBackslash(rest);
    } else {
      PlainDecodes(key[2..], rest);
      DecodeBackslash(key, rest);
      assert key[..2] + key[2..] == key;
      var d := Decode(EscapeKey(key) + rest);
      assert d == [d[0]] + d[1..];
    }
  }

  function Backslashes(m: nat): string {
    seq(m, _ => '\\')
  }

  /** Losing a backslash can never be made up for later in the key. */
  lemma {:induction false} LostBackslash(key: string, rest: string, m: nat)
    requires Boundary(rest) && m >= 1
    ensures Decode(EscapeKey(key) + rest)[0] != Backslashes(m) + key
    decreases |key|
  {
    var d, want := Decode(EscapeKey(key) + rest)[0], Backslashes(m) + key;
    if key == "" {
      assert EscapeKey(key) + rest == rest;
      DecodeBoundary(rest);
    } else if key[0] != '\\' {
      DecodeOrdinary(key, rest);
      assert d[0] != want[0];
    } else if |key| == 1 {
      assert key == "\\" && EscapeKey(key) + rest == "\\" + rest;
      DecodeLoneBackslash(rest);
      assert |want| > 1;
    } else {
      DecodeBackslash(key, rest);
      if key[1] == '\\' {
        LostBackslash(key[2..], rest, m + 1);
        assert d[1..] == Decode(EscapeKey(key[2..]) + rest)[0];
        assert want[1..] == Backslashes(m + 1) + key[2..];
      } else if key[1] == '.' {
        assert |want| > 1;
      } else if Special(key[1]) {
        assert d[1] == key[1] && want[1] == '\\';
      } else {
        assert d[0] == key[1] && want[0] == '\\';
      }
    }
  }

  /** Any other key comes back changed. */
  lemma {:induction false} OtherKeysChange(key: string, rest: string)
    requires Boundary(rest) && !Plain(key, rest == "")
    ensures Decode(EscapeKey(key) + rest)[0] != key
    decreases |key|
  {
    var d := Decode(EscapeKey(key) + rest)[0];
    if key[0] != '\\' {
      OtherKeysChange(key[1..], rest);
      DecodeOrdinary(key, rest);
      assert d[1..] == Decode(EscapeKey(key[1..]) + rest)[0];
    } else if |key| == 1 {
      assert key == "\\" && EscapeKey(key) + rest == "\\" + rest;
      DecodeLoneBackslash(rest);
    } else {
      DecodeBackslash(key, rest);
      if key[1] == '*' || key[1] == '?' {
        OtherKeysChange(key[2..], rest);
        assert d[2..] == Decode(EscapeKey(key[2..]) + rest)[0];
      } else if key[1] == '\\' {
        LostBackslash(key[2..], rest, 1);
        assert d[1..] == Decode(EscapeKey(key[2..]) + rest)[0];
        assert key[1..] == Backslashes(1) + key[2..];
      }
    }
  }

  /** The path of a list whose first key is not empty, read from the front. */
  function Joined(keys: seq<string>): string
    requires keys != []
  {
    if |keys| == 1 then EscapeKey(keys[0]) else EscapeKey(keys[0]) + ("." + Joined(keys[1..]))
  }

  lemma {:induction false} JoinedSnoc(keys: seq<string>, key: string)
    requires keys != []
    ensures Joined(keys + [key]) == Joined(keys) + "." + EscapeKey(key)
  {
    assert (keys + [key])[1..] == keys[1..] + [key];
    if |keys| > 1 {
      JoinedSnoc(keys[1..], key);
      var a, b, c := EscapeKey(keys[0]), Joined(keys[1..]), EscapeKey(key);
      assert a + ("." + (b + "." + c)) == a + ("." + b) + "." + c;
    } else {
      assert Joined([key]) == EscapeKey(key);
      assert EscapeKey(keys[0]) + ("." + EscapeKey(key)) == EscapeKey(keys[0]) + "." + EscapeKey(key);
    }
  }

  lemma {:induction false} PathIsJoined(keys: seq<string>)
    requires keys != [] && keys[0] != ""
    ensures PathOf(keys) == Joined(keys) && PathOf(keys) != ""
  {
    var n := |keys| - 1;
    if n > 0 {
      PathIsJoined(keys[..n]);
      JoinedSnoc(keys[..n], keys[n]);
      assert keys[..n] + [keys[n]] == keys;
    } else {
      assert PathOf(keys[..0]) == "";
    }
  }

  lemma {:induction false} JoinedDecodes(keys: seq<string>)
    requires keys != []
    ensures Decode(Joined(keys)) == keys <==> AllPlain(keys)
    decreases |keys|
  {
    var rest := if |keys| == 1 then "" else "." + Joined(keys[1..]);
    assert Joined(keys) == EscapeKey(keys[0]) + rest by {
      assert EscapeKey(keys[0]) + "" == EscapeKey(keys[0]);
    }
    if !Plain(keys[0], |keys| == 1) {
      OtherKeysChange(keys[0], rest);
    } else {
      PlainDecodes(keys[0], rest);
      if |keys| == 1 {
        assert Decode("") == [""];
      } else {
        JoinedDecodes(keys[1..]);
        assert rest[1..] == Joined(keys[1..]);
        assert Decode(rest) == [""] + Decode(Joined(keys[1..]));
        assert Decode(Joined(keys)) == [keys[0]] + Decode(Joined(keys[1..]));
        assert keys == [keys[0]] + keys[1..];
        AllPlainCons(keys);
      }
    }
  }

  lemma AllPlainCons(keys: seq<string>)
    requires |keys| > 1
    ensures AllPlain(keys) <==> Plain(keys[0], false) && AllPlain(keys[1..])
  {
    if AllPlain(keys[1..]) && Plain(keys[0], false) {
      forall i | 0 <= i < |keys|
        ensures Plain(keys[i], i == |keys| - 1)
      {
        if i > 0 {
          assert Plain(keys[1..][i - 1], i - 1 == |keys[1..]| - 1);
        }
      }
    }
    if AllPlain(keys) {
      forall i | 0 <= i < |keys[1..]|
        ensures Plain(keys[1..][i], i == |keys[1..]| - 1)
      {
        assert Plain(keys[i + 1], i + 1 == |keys| - 1);
      }
    }
  }

  lemma {:induction false} LeadingEmptyDropped(keys: seq<string>)
    requires keys != [] && keys[0] == ""
    ensures PathOf(keys) == PathOf(keys[1..])
  {
    var n := |keys| - 1;
    if n == 0 {
      assert PathOf(keys[..0]) == "" && keys[1..] == [];
    } else {
      LeadingEmptyDropped(keys[..n]);
      assert keys[..n][1..] == keys[1..][..n - 1];
    }
  }

  lemma {:induction false} FirstNonEmpty(keys: seq<string>)
    ensures PathOf(keys) == "" || Decode(PathOf(keys))[0] != ""
    decreases |keys|
  {
    if keys != [] {
      if keys[0] == "" {
        LeadingEmptyDropped(keys);
        FirstNonEmpty(keys[1..]);
      } else {
        PathIsJoined(keys);
        var p := PathOf(keys);
        assert p[0] == EscapeKey(keys[0])[0];
      }
    }
  }

  /** Splitting and unescaping a built path returns its keys exactly when the first key is not empty
      and the backslashes are harmless. */
  lemma PathRoundTrip(keys: seq<string>)
    ensures Keys(SplitPath(PathOf(keys))) == keys <==> Addressable(keys)
  {
    if keys != [] {
      DecodeIsKeys(PathOf(keys));
      if keys[0] != "" {
        PathIsJoined(keys);
        JoinedDecodes(keys);
      } else {
        FirstNonEmpty(keys);
      }
    }
  }

  lemma {:induction false} BackslashFreeIsPlain(key: string, last: bool)
    requires '\\' !in key
    ensures Plain(key, last)
  {
    if key != "" {
      BackslashFreeIsPlain(key[1..], last);
    }
  }

  // ---------------------------------------------------------------------------------------
  // The splitter and the unescaper
  // ---------------------------------------------------------------------------------------

  /** The pieces of a path whose first piece has already been read in part. */
  function Resumed(cur: string, path: string): seq<string> {
    [cur + Pieces(path)[0]] + Pieces(path)[1..]
  }

  /** The pieces cut so far and the one being read agree with the whole path. */
  ghost predicate ReadSoFar(path: string, i: nat, parts: seq<string>, cur: string)
    requires i <= |path|
  {
    parts + Resumed(cur, path[i..]) == Pieces(path)
  }

  lemma ReadPair(path: string, i: nat, parts: seq<string>, cur: string)
    requires i + 1 < |path| && path[i] == '\\' && ReadSoFar(path, i, parts, cur)
    ensures ReadSoFar(path, i + 2, parts, cur + ['\\', path[i + 1]])
  {
    var p := path[i..];
    assert p[2..] == path[i + 2..] && p[..2] == ['\\', path[i + 1]];
    assert cur + (p[..2] + Pieces(p[2..])[0]) == cur + ['\\', path[i + 1]] + Pieces(p[2..])[0];
  }

  lemma ReadDot(path: string, i: nat, parts: seq<string>, cur: string)
    requires i < |path| && path[i] == '.' && ReadSoFar(path, i, parts, cur)
    ensures ReadSoFar(path, i + 1, parts + [cur], "")
  {
    var p, rest := path[i..], Pieces(path[i + 1..]);
    assert p[1..] == path[i + 1..];
    assert Pieces(p) == [""] + rest && Pieces(p)[1..] == rest;
    assert cur + "" == cur && "" + rest[0] == rest[0];
    assert Resumed("", path[i + 1..]) == rest;
    assert parts + ([cur] + rest) == (parts + [cur]) + rest;
  }

  lemma ReadChar(path: string, i: nat, parts: seq<string>, cur: string)
    requires i < |path| && path[i] != '.' && (path[i] == '\\' ==> i + 1 == |path|) && ReadSoFar(path, i, parts, cur)
    ensures ReadSoFar(path, i + 1, parts, cur + [path[i]])
  {
    var p := path[i..];
    assert p[1..] == path[i + 1..];
    assert cur + ([p[0]] + Pieces(p[1..])[0]) == cur + [p[0]] + Pieces(p[1..])[0];
  }

  lemma ReadStarts(path: string)
    ensures ReadSoFar(path, 0, [], "")
  {
    var rest := Pieces(path);
    assert path[0..] == path;
    assert "" + rest[0] == rest[0];
    assert Resumed("", path) == rest;
  }

  lemma ReadEnds(path: string, parts: seq<string>, cur: string)
    requires ReadSoFar(path, |path|, parts, cur)
    ensures parts + [cur] == Pieces(path)
  {
    assert path[|path|..] == "";
    assert cur + "" == cur;
    assert Resumed(cur, "") == [cur];
  }

  method SplitGJSONPath(path: string) returns (parts: seq<string>)
    ensures parts == SplitPath(path)
  {
    if path == "" {
      return [];
    }
    parts := [];
    var cur := "";
    var i := 0;
    ReadStarts(path);
    while i < |path|
      invariant 0 <= i <= |path| && ReadSoFar(path, i, parts, cur)
    {
      var c := path[i];
      if c == '\\' && i + 1 < |path| {
        ReadPair(path, i, parts, cur);
        cur := cur + ['\\', path[i + 1]];
        i := i + 2;
        continue;
      }
      if c == '.' {
        ReadDot(path, i, parts, cur);
        parts := parts + [cur];
        cur := "";
      } else {
        ReadChar(path, i, parts, cur);
        cur := cur + [c];
      }
      i := i + 1;
    }
    ReadEnds(path, parts, cur);
    parts := parts + [cur];
  }

  lemma {:induction false} NothingToUnescape(key: string)
    requires '\\' !in key
    ensures UnescapeKey(key) == key
  {
    if key != "" {
      NothingToUnescape(key[1..]);
    }
  }

  method UnescapeGJSONPathKey(key: string) returns (r: string)
    ensures r == UnescapeKey(key)
  {
    if '\\' !in key {
      NothingToUnescape(key);
      return key;
    }
    r := "";
    var i := 0;
    assert key[0..] == key;
    while i < |key|
      invariant 0 <= i <= |key|
      invariant r + UnescapeKey(key[i..]) == UnescapeKey(key)
    {
      assert key[i..][1..] == key[i + 1..];
      if key[i] == '\\' && i + 1 < |key| {
        assert key[i..][2..] == key[i + 2..];
        assert r + ([key[i + 1]] + UnescapeKey(key[i + 2..])) == r + [key[i + 1]] + UnescapeKey(key[i + 2..]);
        r := r + [key[i + 1]];
        i := i + 2;
      } else {
        assert r + ([key[i]] + UnescapeKey(key[i + 1..])) == r + [key[i]] + UnescapeKey(key[i + 1..]);
        r := r + [key[i]];
        i := i + 1;
      }
    }
  }

  // ---------------------------------------------------------------------------------------
  // Collecting the paths of a field
  // ---------------------------------------------------------------------------------------

  datatype Member = Member(key: string, value: Json)

  datatype Json = Object(members: seq<Member>) | Array(items: seq<Json>) | Leaf {

    function Count(): nat {
      match this
      case Object(ms) => |ms|
      case Array(xs) => |xs|
      case Leaf => 0
    }

    /** Members go under their names, array items under their positions. */
    function KeyAt(i: nat): string
      requires i < Count()
    {
      if Object? then members[i].key else Text.Decimal(i)
    }

    function At(i: nat): (child: Json)
      requires i < Count()
      ensures child < this
    {
      if Object? then
        assert members[i] < this;
        members[i].value
      else items[i]
    }
  }

  /** Following the keys from a value is possible. */
  ghost predicate Leads(v: Json, keys: seq<string>)
    decreases |keys|
  {
    keys == [] || exists i: nat :: i < v.Count() && v.KeyAt(i) == keys[0] && Leads(v.At(i), keys[1..])
  }

  /** A key leads into an object through each member of that name, and into an array through the item whose position
      it is. */
  lemma LeadsIff(v: Json, key: string, rest: seq<string>)
    ensures Leads(v, [key] + rest) <==>
            match v
            case Object(ms) => exists i: nat :: i < |ms| && ms[i].key == key && Leads(ms[i].value, rest)
            case Array(xs) => exists i: nat :: i < |xs| && Text.Decimal(i) == key && Leads(xs[i], rest)
            case Leaf => false
  {
    assert ([key] + rest)[1..] == rest;
    if v.Object? && exists i: nat :: i < |v.members| && v.members[i].key == key && Leads(v.members[i].value, rest) {
      var i: nat :| i < |v.members| && v.members[i].key == key && Leads(v.members[i].value, rest);
      assert v.KeyAt(i) == key && v.At(i) == v.members[i].value;
    }
    if v.Array? && exists i: nat :: i < |v.items| && Text.Decimal(i) == key && Leads(v.items[i], rest) {
      var i: nat :| i < |v.items| && Text.Decimal(i) == key && Leads(v.items[i], rest);
      assert v.KeyAt(i) == key && v.At(i) == v.items[i];
    }
    if Leads(v, [key] + rest) {
      var i: nat :| i < v.Count() && v.KeyAt(i) == key && Leads(v.At(i), rest);
      assert v.Object? ==> v.members[i].key == key && Leads(v.members[i].value, rest);
      assert v.Array? ==> Text.Decimal(i) == key && Leads(v.items[i], rest);
    }
  }

  /** The key lists of all occurrences of a field, in the order of the traversal. */
  function Occurrences(v: Json, prefix: seq<string>, field: string): seq<seq<string>>
    decreases v, 0
  {
    OccurrencesUpTo(v, v.Count(), prefix, field)
  }

  function OccurrencesUpTo(v: Json, n: nat, prefix: seq<string>, field: string): seq<seq<string>>
    requires n <= v.Count()
    decreases v, -1, n
  {
    if n == 0 then []
    else
      var keys := prefix + [v.KeyAt(n - 1)];
      OccurrencesUpTo(v, n - 1, prefix, field)
      + (if v.KeyAt(n - 1) == field then [keys] else [])
      + Occurrences(v.At(n - 1), keys, field)
  }

  function PathsOf(lists: seq<seq<string>>): seq<string> {
    seq(|lists|, i requires 0 <= i < |lists| => PathOf(lists[i]))
  }

  lemma PathExtends(prefix: seq<string>, key: string)
    ensures PathOf(prefix + [key]) == Extend(PathOf(prefix), key)
  {
    var keys := prefix + [key];
    assert keys[..|keys| - 1] == prefix;
  }

  lemma PathsOfNext(v: Json, i: nat, prefix: seq<string>, field: string)
    requires i < v.Count()
    ensures var keys := prefix + [v.KeyAt(i)];
      PathsOf(OccurrencesUpTo(v, i + 1, prefix, field))
      == PathsOf(OccurrencesUpTo(v, i, prefix, field))
         + (if v.KeyAt(i) == field then [PathOf(keys)] else [])
         + PathsOf(Occurrences(v.At(i), keys, field))
  {
    var keys := prefix + [v.KeyAt(i)];
    var before, below := OccurrencesUpTo(v, i, prefix, field), Occurrences(v.At(i), keys, field);
    var here := if v.KeyAt(i) == field then [keys] else [];
    PathsConcat(before, here);
    PathsConcat(before + here, below);
    assert PathsOf(here) == if v.KeyAt(i) == field then [PathOf(keys)] else [];
  }

  lemma Regroup(a: seq<string>, b: seq<string>, c: seq<string>, d: seq<string>)
    ensures a + b + c + d == a + (b + c + d)
    ensures c == [] ==> a + b + d == a + (b + c + d)
  {
  }

  /** Appends the path of every occurrence of the field below a value to the collected paths. */
  method Walk(v: Json, path: string, field: string, paths: seq<string>, ghost prefix: seq<string>)
    returns (paths': seq<string>)
    requires path == PathOf(prefix)
    ensures paths' == paths + PathsOf(Occurrences(v, prefix, field))
    decreases v
  {
    paths' := paths;
    for i := 0 to v.Count()
      invariant paths' == paths + PathsOf(OccurrencesUpTo(v, i, prefix, field))
    {
      var key := v.KeyAt(i);
      PathExtends(prefix, key);
      PathsOfNext(v, i, prefix, field);
      var safeKey := EscapeKey(key);
      var childPath := if path == "" then safeKey else path + "." + safeKey;
      ghost var before := PathsOf(OccurrencesUpTo(v, i, prefix, field));
      ghost var here := if key == field then [childPath] else [];
      ghost var below := PathsOf(Occurrences(v.At(i), prefix + [key], field));
      if key == field {
        paths' := paths' + [childPath];
      }
      paths' := Walk(v.At(i), childPath, field, paths', prefix + [key]);
      Regroup(paths, before, here, below);
    }
  }

  lemma PathsConcat(a: seq<seq<string>>, b: seq<seq<string>>)
    ensures PathsOf(a + b) == PathsOf(a) + PathsOf(b)
  {
  }

  /** Membership in the traversal, one child at a time. */
  lemma {:induction false} InOccurrencesUpTo(v: Json, n: nat, prefix: seq<string>, field: string, keys: seq<string>)
    requires n <= v.Count()
    ensures keys in OccurrencesUpTo(v, n, prefix, field) <==>
            exists i: nat :: i < n && InChild(v, i, prefix, field, keys)
    decreases n
  {
    if n > 0 {
      InOccurrencesUpTo(v, n - 1, prefix, field, keys);
      assert keys in OccurrencesUpTo(v, n, prefix, field) <==>
        keys in OccurrencesUpTo(v, n - 1, prefix, field) || InChild(v, n - 1, prefix, field, keys);
    }
  }

  ghost predicate InChild(v: Json, i: nat, prefix: seq<string>, field: string, keys: seq<string>)
    requires i < v.Count()
  {
    var here := prefix + [v.KeyAt(i)];
    (v.KeyAt(i) == field && keys == here) || keys in Occurrences(v.At(i), here, field)
  }

  predicate Below(keys: seq<string>, prefix: seq<string>) {
    |keys| > |prefix| && keys[..|prefix|] == prefix
  }

  /** A list below a prefix ends at one more key, or goes on below it. */
  lemma HereOrBelow(keys: seq<string>, prefix: seq<string>, key: string)
    ensures Below(keys, prefix) && keys[|prefix|] == key <==> keys == prefix + [key] || Below(keys, prefix + [key])
  {
    if |keys| > |prefix| {
      assert keys[..|prefix| + 1] == keys[..|prefix|] + [keys[|prefix|]];
      if |keys| == |prefix| + 1 {
        assert keys == keys[..|prefix| + 1];
      }
    }
  }

  /** The key list leads from a value, below a prefix, to the field. */
  ghost predicate LeadsTo(v: Json, prefix: seq<string>, field: string, keys: seq<string>) {
    Below(keys, prefix) && keys[|keys| - 1] == field && Leads(v, keys[|prefix|..])
  }

  lemma LeadsThrough(v: Json, prefix: seq<string>, field: string, keys: seq<string>)
    ensures LeadsTo(v, prefix, field, keys) <==>
            Below(keys, prefix) && keys[|keys| - 1] == field &&
            exists i: nat :: i < v.Count() && v.KeyAt(i) == keys[|prefix|] && Leads(v.At(i), keys[|prefix| + 1..])
  {
    if Below(keys, prefix) {
      var rest := keys[|prefix|..];
      assert rest[0] == keys[|prefix|] && rest[1..] == keys[|prefix| + 1..];
    }
  }

  lemma LeadsToChild(v: Json, i: nat, prefix: seq<string>, field: string, keys: seq<string>)
    requires i < v.Count()
    requires keys in Occurrences(v.At(i), prefix + [v.KeyAt(i)], field) <==>
             LeadsTo(v.At(i), prefix + [v.KeyAt(i)], field, keys)
    ensures InChild(v, i, prefix, field, keys) <==>
            Below(keys, prefix) && keys[|keys| - 1] == field && v.KeyAt(i) == keys[|prefix|] &&
                Leads(v.At(i), keys[|prefix| + 1..])
  {
    HereOrBelow(keys, prefix, v.KeyAt(i));
  }

  /** The traversal yields exactly the key lists that lead to the field. */
  lemma {:induction false} OccurrencesComplete(v: Json, prefix: seq<string>, field: string, keys: seq<string>)
    ensures keys in Occurrences(v, prefix, field) <==> LeadsTo(v, prefix, field, keys)
    decreases v
  {
    InOccurrencesUpTo(v, v.Count(), prefix, field, keys);
    forall i: nat | i < v.Count()
      ensures InChild(v, i, prefix, field, keys) <==>
              Below(keys, prefix) && keys[|keys| - 1] == field && v.KeyAt(i) == keys[|prefix|] &&
                  Leads(v.At(i), keys[|prefix| + 1..])
    {
      OccurrencesComplete(v.At(i), prefix + [v.KeyAt(i)], field, keys);
      LeadsToChild(v, i, prefix, field, keys);
    }
    LeadsThrough(v, prefix, field, keys);
  }

  /** Every collected path leads along its keys to the field, and can be split back into them exactly when the
      first key is not empty and the backslashes in the keys are harmless, as they are when there are none. */
  lemma CollectedPathsDecode(v: Json, field: string, keys: seq<string>)
    requires keys in Occurrences(v, [], field)
    ensures keys != [] && Leads(v, keys) && keys[|keys| - 1] == field
    ensures Keys(SplitPath(PathOf(keys))) == keys <==> Addressable(keys)
    ensures keys[0] != "" && (forall i :: 0 <= i < |keys| ==> '\\' !in keys[i]) ==> Addressable(keys)
  {
    OccurrencesComplete(v, [], field, keys);
    assert keys[0..] == keys;
    if forall i :: 0 <= i < |keys| ==> '\\' !in keys[i] {
      forall i | 0 <= i < |keys|
        ensures Plain(keys[i], i == |keys| - 1)
      {
        BackslashFreeIsPlain(keys[i], i == |keys| - 1);
      }
    }
    PathRoundTrip(keys);
  }

  // ---------------------------------------------------------------------------------------
  // Deepest first
  // ---------------------------------------------------------------------------------------

  predicate Longer(a: string, b: string) {
    |a| > |b|
  }

  function SortByDepth(paths: seq<string>): (sorted: seq<string>)
    ensures multiset(sorted) == multiset(paths)
  {
    Sorting.Sort(paths, Longer)
  }

  lemma {:induction false} DescendantIsLonger(keys: seq<string>, more: seq<string>)
    requires more != [] && PathOf(keys + more) != ""
    ensures |PathOf(keys + more)| > |PathOf(keys)|
    decreases |more|
  {
    var n := |more| - 1;
    var all := keys + more;
    assert all[..|all| - 1] == keys + more[..n];
    if n > 0 {
      if PathOf(keys + more[..n]) != "" {
        DescendantIsLonger(keys, more[..n]);
      } else {
        PathGrows(keys, more[..n]);
      }
    } else {
      assert keys + more[..n] == keys;
    }
  }

  lemma {:induction false} PathGrows(keys: seq<string>, more: seq<string>)
    ensures |PathOf(keys + more)| >= |PathOf(keys)|
    decreases |more|
  {
    if more == [] {
      assert keys + more == keys;
    } else {
      var n := |more| - 1;
      assert (keys + more)[..|keys + more| - 1] == keys + more[..n];
      PathGrows(keys, more[..n]);
    }
  }

  lemma LongerIsWeakOrder(paths: seq<string>)
    ensures Sorting.WeakOrder(Longer, paths)
  {
  }

  lemma LongerFirst(paths: seq<string>, i: nat, j: nat)
    requires i < |SortByDepth(paths)| && j < |SortByDepth(paths)|
    requires |SortByDepth(paths)[j]| > |SortByDepth(paths)[i]|
    ensures j < i
  {
    LongerIsWeakOrder(paths);
    Sorting.SortOrdered(paths, Longer);
    var sorted := SortByDepth(paths);
    assert i < j ==> !Longer(sorted[j], sorted[i]);
  }

  /** After sorting, the path of a descendant stands before the path of its ancestor. */
  lemma DescendantsFirst(paths: seq<string>, keys: seq<string>, more: seq<string>, i: nat, j: nat)
    requires i < |SortByDepth(paths)| && j < |SortByDepth(paths)|
    requires more != [] && PathOf(keys + more) != ""
    requires SortByDepth(paths)[i] == PathOf(keys) && SortByDepth(paths)[j] == PathOf(keys + more)
    ensures j < i
  {
    DescendantIsLonger(keys, more);
    LongerFirst(paths, i, j);
  }
}
