/** The keys by which a merge recognises a request: its fields, printed and joined by bars. */
module UsageKeys {
  import opened UsageModel
  import Text

  /** The fields of a key, printed; an instant is printed in UTC. */
  function KeyFields(api: string, model: string, d: Detail): (fields: seq<string>)
    ensures |fields| == 11
  {
    var t := Normalise(d.tokens);
    [api, model, Text.Decimal(d.stamp.instant), d.source, d.authIndex, if d.failed then "true" else "false",
     Text.Decimal(t.input), Text.Decimal(t.output), Text.Decimal(t.reasoning), Text.Decimal(t.cached),
     Text.Decimal(t.total)]
  }

  function Barred(fields: seq<string>): string {
    if fields == [] then "" else if |fields| == 1 then fields[0] else fields[0] + ("|" + Barred(fields[1..]))
  }

  function DedupKey(api: string, model: string, d: Detail): string {
    Barred(KeyFields(api, model, d))
  }

  /** The same request, up to the location of its stamp and the filled-in token total. */
  predicate SameRequest(a: string, m: string, d: Detail, b: string, n: string, e: Detail) {
    && a == b && m == n
    && d.stamp.instant == e.stamp.instant
    && d.source == e.source && d.authIndex == e.authIndex
    && d.failed == e.failed
    && Normalise(d.tokens) == Normalise(e.tokens)
  }

  predicate BarFree(api: string, model: string, d: Detail) {
    '|' !in api && '|' !in model && '|' !in d.source && '|' !in d.authIndex
  }

  // ---------------------------------------------------------------------------------------
  // Taking a joined text apart
  // ---------------------------------------------------------------------------------------

  lemma {:induction false} BarredConcat(xs: seq<string>, ys: seq<string>)
    requires xs != [] && ys != []
    ensures Barred(xs + ys) == Barred(xs) + ("|" + Barred(ys))
  {
    if |xs| == 1 {
      assert xs + ys == [xs[0]] + ys && (xs + ys)[1..] == ys;
    } else {
      BarredConcat(xs[1..], ys);
      assert (xs + ys)[1..] == xs[1..] + ys;
      var t := Barred(xs[1..]);
      assert xs[0] + ("|" + (t + ("|" + Barred(ys)))) == xs[0] + ("|" + t) + ("|" + Barred(ys));
    }
  }

  function Bars(s: string): nat {
    if s == "" then 0 else Bars(s[1..]) + if s[0] == '|' then 1 else 0
  }

  lemma {:induction false} BarsConcat(s: string, t: string)
    ensures Bars(s + t) == Bars(s) + Bars(t)
  {
    if s == "" {
      assert s + t == t;
    } else {
      BarsConcat(s[1..], t);
      assert (s + t)[1..] == s[1..] + t;
    }
  }

  lemma {:induction false} NoBars(s: string)
    ensures Bars(s) == 0 <==> '|' !in s
  {
    if s != "" {
      NoBars(s[1..]);
      assert s == [s[0]] + s[1..];
    }
  }

  function BarsWithin(fields: seq<string>): nat {
    if fields == [] then 0 else Bars(fields[0]) + BarsWithin(fields[1..])
  }

  lemma {:induction false} BarsCounted(fields: seq<string>)
    requires fields != []
    ensures Bars(Barred(fields)) == BarsWithin(fields) + |fields| - 1
  {
    if |fields| == 1 {
      assert BarsWithin(fields[1..]) == 0;
    } else {
      BarsCounted(fields[1..]);
      var rest := Barred(fields[1..]);
      assert ("|" + rest)[1..] == rest;
      BarsConcat(fields[0], "|" + rest);
    }
  }

  predicate AllBarFree(fields: seq<string>) {
    forall i :: 0 <= i < |fields| ==> '|' !in fields[i]
  }

  lemma {:induction false} NoneWithin(fields: seq<string>)
    ensures BarsWithin(fields) == 0 <==> AllBarFree(fields)
  {
    if fields != [] {
      NoBars(fields[0]);
      NoneWithin(fields[1..]);
      assert forall i :: 1 <= i < |fields| ==> fields[i] == fields[1..][i - 1];
    }
  }

  function FirstBar(s: string): nat {
    if s == "" || s[0] == '|' then 0 else 1 + FirstBar(s[1..])
  }

  lemma {:induction false} FirstBarEnds(a: string, x: string)
    requires '|' !in a
    ensures FirstBar(a + ("|" + x)) == |a|
  {
    if a == "" {
      assert a + ("|" + x) == "|" + x;
    } else {
      assert (a + ("|" + x))[1..] == a[1..] + ("|" + x);
      FirstBarEnds(a[1..], x);
    }
  }

  lemma FirstField(a: string, b: string, x: string, y: string)
    requires '|' !in a && '|' !in b
    requires a + ("|" + x) == b + ("|" + y)
    ensures a == b && x == y
  {
    var s, t := a + ("|" + x), b + ("|" + y);
    FirstBarEnds(a, x);
    FirstBarEnds(b, y);
    assert s[..|a|] == a && t[..|b|] == b;
    assert s[|a| + 1..] == x && t[|b| + 1..] == y;
  }

  lemma {:induction false} BarredInjective(xs: seq<string>, ys: seq<string>)
    requires |xs| == |ys| && Barred(xs) == Barred(ys)
    requires AllBarFree(xs) && AllBarFree(ys)
    ensures xs == ys
  {
    if |xs| > 1 {
      FirstField(xs[0], ys[0], Barred(xs[1..]), Barred(ys[1..]));
      BarredInjective(xs[1..], ys[1..]);
      assert xs == [xs[0]] + xs[1..] && ys == [ys[0]] + ys[1..];
    }
  }

  /** A text joined from fields without bars can be joined from as many fields in no other way. */
  lemma OneReading(xs: seq<string>, ys: seq<string>)
    requires |xs| == |ys| > 0 && Barred(xs) == Barred(ys) && AllBarFree(xs)
    ensures xs == ys
  {
    BarsCounted(xs);
    BarsCounted(ys);
    NoneWithin(xs);
    NoneWithin(ys);
    BarredInjective(xs, ys);
  }

  lemma LastField(x: string, a: string, y: string, b: string)
    requires '|' !in a && '|' !in b
    requires x + ("|" + a) == y + ("|" + b)
    ensures a == b
  {
    var s, t := x + ("|" + a), y + ("|" + b);
    assert s[|x|] == '|' && t[|y|] == '|';
    assert forall k :: |x| < k < |s| ==> s[k] != '|';
    assert forall k :: |y| < k < |t| ==> t[k] != '|';
    assert s[|x| + 1..] == a && t[|y| + 1..] == b;
  }

  // ---------------------------------------------------------------------------------------
  // What a key tells
  // ---------------------------------------------------------------------------------------

  lemma FieldsBarFree(a: string, m: string, d: Detail)
    ensures AllBarFree(KeyFields(a, m, d)) <==> BarFree(a, m, d)
  {
    var xs := KeyFields(a, m, d);
    if AllBarFree(xs) {
      assert '|' !in xs[0] && '|' !in xs[1] && '|' !in xs[3] && '|' !in xs[4];
    }
  }

  lemma SameFields(a: string, m: string, d: Detail, b: string, n: string, e: Detail)
    ensures KeyFields(a, m, d) == KeyFields(b, n, e) <==> SameRequest(a, m, d, b, n, e)
  {
    var xs, ys := KeyFields(a, m, d), KeyFields(b, n, e);
    if xs == ys {
      var t, u := Normalise(d.tokens), Normalise(e.tokens);
      assert xs[2] == ys[2] && xs[6] == ys[6] && xs[7] == ys[7] && xs[8] == ys[8] && xs[9] == ys[9] && xs[10] == ys[10];
      Text.DecimalInjective(d.stamp.instant, e.stamp.instant);
      Text.DecimalInjective(t.input, u.input);
      Text.DecimalInjective(t.output, u.output);
      Text.DecimalInjective(t.reasoning, u.reasoning);
      Text.DecimalInjective(t.cached, u.cached);
      Text.DecimalInjective(t.total, u.total);
      assert xs[0] == ys[0] && xs[1] == ys[1] && xs[3] == ys[3] && xs[4] == ys[4] && xs[5] == ys[5];
    }
  }

  /** When one of two requests has no bar in its names, their keys agree exactly when they are the same. */
  lemma KeysTellApart(a: string, m: string, d: Detail, b: string, n: string, e: Detail)
    requires BarFree(a, m, d)
    ensures DedupKey(a, m, d) == DedupKey(b, n, e) <==> SameRequest(a, m, d, b, n, e)
  {
    var xs, ys := KeyFields(a, m, d), KeyFields(b, n, e);
    FieldsBarFree(a, m, d);
    SameFields(a, m, d, b, n, e);
    if DedupKey(a, m, d) == DedupKey(b, n, e) {
      OneReading(xs, ys);
    }
  }

  ghost predicate OwnKey(a: string, m: string, d: Detail) {
    forall b, n, e: Detail :: DedupKey(b, n, e) == DedupKey(a, m, d) ==> SameRequest(a, m, d, b, n, e)
  }

  lemma SplitAtBar(s: string) returns (x: string, y: string)
    requires '|' in s
    ensures s == x + ("|" + y)
  {
    var i :| 0 <= i < |s| && s[i] == '|';
    x, y := s[..i], s[i + 1..];
  }

  /** A bar at the end of one field can as well stand at the start of the next one. */
  lemma BarMoves(x: string, y: string, q: string, post: seq<string>)
    requires post != []
    ensures Barred([x + ("|" + y), q] + post) == Barred([x, y + ("|" + q)] + post)
  {
    BarredConcat([x + ("|" + y), q], post);
    BarredConcat([x, y + ("|" + q)], post);
    assert Barred([x + ("|" + y), q]) == x + ("|" + y) + ("|" + q);
    assert Barred([x, y + ("|" + q)]) == x + ("|" + (y + ("|" + q)));
    assert x + ("|" + y) + ("|" + q) == x + ("|" + (y + ("|" + q)));
  }

  lemma BarMovesWithin(pre: seq<string>, x: string, y: string, q: string, post: seq<string>)
    requires pre != [] && post != []
    ensures Barred(pre + ([x + ("|" + y), q] + post)) == Barred(pre + ([x, y + ("|" + q)] + post))
  {
    BarMoves(x, y, q, post);
    BarredConcat(pre, [x + ("|" + y), q] + post);
    BarredConcat(pre, [x, y + ("|" + q)] + post);
  }

  /** The fields after the names. */
  function OtherFields(d: Detail): (fields: seq<string>)
    ensures |fields| == 9
  {
    KeyFields("", "", d)[2..]
  }

  lemma NamesApart(a: string, m: string, d: Detail)
    ensures KeyFields(a, m, d) == [a, m] + OtherFields(d)
    ensures OtherFields(d) == [OtherFields(d)[0], d.source, d.authIndex] + OtherFields(d)[3..]
  {
  }

  /** Two names of a detail in place of its own leave the other fields. */
  lemma SourcesApart(a: string, m: string, d: Detail, source: string, authIndex: string)
    ensures var pre, post := [a, m, OtherFields(d)[0]], OtherFields(d)[3..];
      && KeyFields(a, m, d.(source := source, authIndex := authIndex)) == pre + ([source, authIndex] + post)
  {
  }

  lemma NameShared(a: string, m: string, d: Detail)
    requires '|' in a || '|' in m
    ensures !OwnKey(a, m, d)
  {
    var rest := OtherFields(d);
    var b, n;
    if '|' in a {
      var x, y := SplitAtBar(a);
      b, n := x, y + ("|" + m);
      BarMoves(x, y, m, rest);
    } else {
      var x, y := SplitAtBar(m);
      b, n := a + ("|" + x), y;
      BarMoves(a, x, y, rest);
    }
    NamesApart(a, m, d);
    NamesApart(b, n, d);
    assert DedupKey(b, n, d) == DedupKey(a, m, d) && |b| != |a|;
  }

  lemma SourceShared(a: string, m: string, d: Detail)
    requires '|' in d.source || '|' in d.authIndex
    ensures !OwnKey(a, m, d)
  {
    var pre, post := [a, m, OtherFields(d)[0]], OtherFields(d)[3..];
    var s, t;
    if '|' in d.source {
      var x, y := SplitAtBar(d.source);
      s, t := x, y + ("|" + d.authIndex);
      BarMovesWithin(pre, x, y, d.authIndex, post);
    } else {
      var x, y := SplitAtBar(d.authIndex);
      s, t := d.source + ("|" + x), y;
      BarMovesWithin(pre, d.source, x, y, post);
    }
    SourcesApart(a, m, d, d.source, d.authIndex);
    SourcesApart(a, m, d, s, t);
    assert DedupKey(a, m, d.(source := s, authIndex := t)) == DedupKey(a, m, d) && |s| != |d.source|;
  }

  /** A request shares its key with no different request exactly when there is no bar in its names. */
  lemma OwnKeyIff(a: string, m: string, d: Detail)
    ensures OwnKey(a, m, d) <==> BarFree(a, m, d)
  {
    if BarFree(a, m, d) {
      forall b, n, e: Detail | DedupKey(b, n, e) == DedupKey(a, m, d)
        ensures SameRequest(a, m, d, b, n, e)
      {
        KeysTellApart(a, m, d, b, n, e);
      }
    } else if '|' in a || '|' in m {
      NameShared(a, m, d);
    } else {
      SourceShared(a, m, d);
    }
  }

  /** Whatever the names are, a key tells the token total, its last field. */
  lemma KeyTellsTotal(a: string, m: string, d: Detail, b: string, n: string, e: Detail)
    requires DedupKey(a, m, d) == DedupKey(b, n, e)
    ensures Normalise(d.tokens).total == Normalise(e.tokens).total
  {
    var xs, ys := KeyFields(a, m, d), KeyFields(b, n, e);
    assert xs == xs[..10] + [xs[10]] && ys == ys[..10] + [ys[10]];
    BarredConcat(xs[..10], [xs[10]]);
    BarredConcat(ys[..10], [ys[10]]);
    LastField(Barred(xs[..10]), xs[10], Barred(ys[..10]), ys[10]);
    Text.DecimalInjective(Normalise(d.tokens).total, Normalise(e.tokens).total);
  }

  /** Filling in the token total does not change the key. */
  lemma FilledKey(api: string, model: string, d: Detail)
    ensures DedupKey(api, model, d.(tokens := Normalise(d.tokens))) == DedupKey(api, model, d)
  {
    NormaliseIdempotent(d.tokens);
  }
}
