/** Thinking levels and budgets, and the conversions between them. */
module ThinkingLevels {
  import opened Collections
  import Text

  const Levels: seq<string> := ["minimal", "low", "medium", "high", "xhigh"]
  const Budgets: seq<int> := [512, 1024, 8192, 24576, 32768]

  /** The position of a standard level, whatever its case; -1 for any other text. */
  function LevelIndex(level: string): (r: int)
    ensures -1 <= r < |Levels|
  {
    var l := Text.ToLower(level);
    if l == Levels[0] then 0
    else if l == Levels[1] then 1
    else if l == Levels[2] then 2
    else if l == Levels[3] then 3
    else if l == Levels[4] then 4
    else -1
  }

  function LevelToBudget(level: string): Option<int> {
    var l := Text.ToLower(level);
    if l == "none" then Some(0)
    else if l == "auto" then Some(-1)
    else if l == "minimal" then Some(512)
    else if l == "low" then Some(1024)
    else if l == "medium" then Some(8192)
    else if l == "high" then Some(24576)
    else if l == "xhigh" then Some(32768)
    else None
  }

  function BudgetToLevel(budget: int): Option<string> {
    if budget < -1 then None
    else if budget == -1 then Some("auto")
    else if budget == 0 then Some("none")
    else if budget <= 512 then Some("minimal")
    else if budget <= 1024 then Some("low")
    else if budget <= 8192 then Some("medium")
    else if budget <= 24576 then Some("high")
    else Some("xhigh")
  }

  lemma LowerSpecial()
    ensures Text.ToLower("none") == "none" && Text.ToLower("auto") == "auto"
  {
  }

  lemma LowerLevel(i: nat)
    requires i < |Levels|
    ensures Text.ToLower(Levels[i]) == Levels[i]
  {
    if i == 0 {
      assert Text.ToLower("minimal") == "minimal";
    } else if i == 1 {
      assert Text.ToLower("low") == "low";
    } else if i == 2 {
      assert Text.ToLower("medium") == "medium";
    } else if i == 3 {
      assert Text.ToLower("high") == "high";
    } else {
      assert Text.ToLower("xhigh") == "xhigh";
    }
  }

  /** The standard levels, in whatever case, with their places and budgets; the two special levels; nothing else. */
  lemma LevelTable(level: string)
    ensures var l := Text.ToLower(level);
      && (l == "none" ==> LevelToBudget(level) == Some(0) && LevelIndex(level) == -1)
      && (l == "auto" ==> LevelToBudget(level) == Some(-1) && LevelIndex(level) == -1)
      && (l == "minimal" ==> LevelToBudget(level) == Some(512) && LevelIndex(level) == 0)
      && (l == "low" ==> LevelToBudget(level) == Some(1024) && LevelIndex(level) == 1)
      && (l == "medium" ==> LevelToBudget(level) == Some(8192) && LevelIndex(level) == 2)
      && (l == "high" ==> LevelToBudget(level) == Some(24576) && LevelIndex(level) == 3)
      && (l == "xhigh" ==> LevelToBudget(level) == Some(32768) && LevelIndex(level) == 4)
      && (l !in ["none", "auto", "minimal", "low", "medium", "high", "xhigh"] ==>
            LevelToBudget(level) == None && LevelIndex(level) == -1)
  {
  }

  /** The bounds of the levels. */
  lemma BudgetTable(budget: int)
    ensures BudgetToLevel(budget) ==
            if budget < -1 then None else if budget == -1 then Some("auto") else if budget == 0 then Some("none")
            else if budget < 513 then Some("minimal") else if budget < 1025 then Some("low")
            else if budget < 8193 then Some("medium") else if budget < 24577 then Some("high") else Some("xhigh")
  {
  }

  /** A level survives the way to a budget and back. */
  lemma LevelRoundTrip(level: string)
    requires LevelToBudget(level).Some?
    ensures BudgetToLevel(LevelToBudget(level).value) == Some(Text.ToLower(level))
  {
  }

  /** The effort of a level; none is below all, and automatic thinking is not compared. */
  function Rank(level: string): int {
    if level == "none" then -1 else LevelIndex(level)
  }

  lemma StandardIndex(i: nat)
    requires i < |Levels|
    ensures LevelIndex(Levels[i]) == i && LevelToBudget(Levels[i]) == Some(Budgets[i])
    ensures Levels[i] != "none" && Levels[i] != "auto"
  {
    LowerLevel(i);
  }

  /** The level of a positive budget is the lowest one that allows it; above the highest budget it
      is the highest. */
  lemma NearestStandardBudget(budget: int)
    requires budget > 0
    ensures BudgetToLevel(budget).Some?
    ensures var i := LevelIndex(BudgetToLevel(budget).value);
      && 0 <= i < |Levels|
      && LevelToBudget(BudgetToLevel(budget).value) == Some(Budgets[i])
      && (budget <= Budgets[|Levels| - 1] <==> budget <= Budgets[i])
      && (forall j :: 0 <= j < i ==> Budgets[j] < budget)
  {
    var level := BudgetToLevel(budget).value;
    var i: nat :=
      if budget <= 512 then 0 else if budget <= 1024 then 1 else if budget <= 8192 then 2
      else if budget <= 24576 then 3 else 4;
    assert level == Levels[i];
    StandardIndex(i);
  }

  /** A larger budget never means a lower level. */
  lemma BudgetToLevelMonotone(a: int, b: int)
    requires 0 <= a <= b
    ensures Rank(BudgetToLevel(a).value) <= Rank(BudgetToLevel(b).value)
  {
    if a > 0 {
      NearestStandardBudget(a);
      NearestStandardBudget(b);
    } else if b > 0 {
      NearestStandardBudget(b);
    }
  }

  // ---------------------------------------------------------------------------------------
  // Supported levels
  // ---------------------------------------------------------------------------------------

  predicate Supported(level: string, supported: seq<string>) {
    exists i :: 0 <= i < |supported| && Text.EqualFold(level, Text.TrimSpace(supported[i]))
  }

  /** The positions of the supported levels, -1 for those that are not standard. */
  function Indexes(supported: seq<string>): (r: seq<int>)
    ensures |r| == |supported| && forall i :: 0 <= i < |r| ==> r[i] == LevelIndex(Text.TrimSpace(supported[i]))
  {
    seq(|supported|, i requires 0 <= i < |supported| => LevelIndex(Text.TrimSpace(supported[i])))
  }

  function Distance(a: int, b: int): nat {
    if a < b then b - a else a - b
  }

  predicate Better(pos: int, a: int, b: int) {
    Distance(pos, a) < Distance(pos, b) || (Distance(pos, a) == Distance(pos, b) && a < b)
  }

  /** k is a listed position nearest to pos, and the lowest one of them. */
  ghost predicate Nearest(k: int, pos: int, listed: seq<int>) {
    k >= 0 && k in listed && forall j :: j in listed && j >= 0 && j != k ==> Better(pos, k, j)
  }

  ghost predicate NoneListed(listed: seq<int>) {
    forall j :: j in listed ==> j < 0
  }

  /** What clamping a level means: a supported or unknown level stays, any other becomes the nearest
      supported standard one, and stays when there is none. */
  ghost predicate Clamps(level: string, supported: seq<string>, r: string) {
    if supported == [] || Supported(level, supported) || LevelIndex(level) < 0 || NoneListed(Indexes(supported)) then
        r == level
    else exists k :: Nearest(k, LevelIndex(level), Indexes(supported)) && k < |Levels| && r == Levels[k]
  }

  /** The best of the first n listed positions, -1 for none. */
  function BestIndex(pos: int, listed: seq<int>, n: nat): (r: int)
    requires n <= |listed|
    ensures r == -1 || (r >= 0 && r in listed)
  {
    if n == 0 then -1
    else
      var best, idx := BestIndex(pos, listed, n - 1), listed[n - 1];
      if idx >= 0 && (best == -1 || Better(pos, idx, best)) then idx else best
  }

  function Clamped(level: string, supported: seq<string>): string {
    if supported == [] || Supported(level, supported) || LevelIndex(level) == -1 then level
    else
      var best := BestIndex(LevelIndex(level), Indexes(supported), |supported|);
      if best >= 0 then Levels[best] else level
  }

  lemma {:induction false} BestIsNearest(pos: int, listed: seq<int>, n: nat)
    requires n <= |listed|
    ensures if BestIndex(pos, listed, n) == -1 then NoneListed(listed[..n])
            else Nearest(BestIndex(pos, listed, n), pos, listed[..n])
  {
    if n > 0 {
      BestIsNearest(pos, listed, n - 1);
      assert listed[..n] == listed[..n - 1] + [listed[n - 1]];
    }
  }

  /** Clamping yields the nearest supported level. */
  lemma ClampedIsNearest(level: string, supported: seq<string>)
    ensures Clamps(level, supported, Clamped(level, supported))
  {
    var listed := Indexes(supported);
    BestIsNearest(LevelIndex(level), listed, |listed|);
    assert listed[..|listed|] == listed;
  }

  method IsLevelSupported(level: string, supported: seq<string>) returns (b: bool)
    ensures b <==> Supported(level, supported)
  {
    var i := 0;
    while i < |supported|
      invariant 0 <= i <= |supported|
      invariant forall j :: 0 <= j < i ==> !Text.EqualFold(level, Text.TrimSpace(supported[j]))
    {
      if Text.EqualFold(level, Text.TrimSpace(supported[i])) {
        return true;
      }
      i := i + 1;
    }
    b := false;
  }

  method ClampLevel(level: string, supported: seq<string>) returns (r: string)
    ensures r == Clamped(level, supported)
  {
    if |supported| == 0 {
      return level;
    }
    var known := IsLevelSupported(level, supported);
    if known {
      return level;
    }
    var pos := LevelIndex(level);
    if pos == -1 {
      return level;
    }
    var bestIdx := FindBest(pos, Indexes(supported));
    if bestIdx >= 0 {
      return Levels[bestIdx];
    }
    r := level;
  }

  /** The loop over the supported levels, given by their positions. */
  method FindBest(pos: int, listed: seq<int>) returns (bestIdx: int)
    requires 0 <= pos < |Levels| && forall i :: 0 <= i < |listed| ==> -1 <= listed[i] < |Levels|
    ensures bestIdx == BestIndex(pos, listed, |listed|)
  {
    var bestDist := |Levels| + 1;
    bestIdx := -1;
    var n := 0;
    while n < |listed|
      invariant 0 <= n <= |listed|
      invariant bestIdx == BestIndex(pos, listed, n)
      invariant bestDist == if bestIdx == -1 then |Levels| + 1 else Distance(pos, bestIdx)
    {
      var idx := listed[n];
      if idx != -1 {
        var dist := Distance(pos, idx);
        if dist < bestDist || (dist == bestDist && idx < bestIdx) {
          bestIdx, bestDist := idx, dist;
        }
      }
      n := n + 1;
    }
  }

  // ---------------------------------------------------------------------------------------
  // Order
  // ---------------------------------------------------------------------------------------

  lemma ListedWithin(a: seq<string>, b: seq<string>, k: int)
    requires ElementSet(a) == ElementSet(b) && k in Indexes(a)
    ensures k in Indexes(b)
  {
    var i :| 0 <= i < |a| && Indexes(a)[i] == k;
    assert a[i] in ElementSet(b);
    var j :| 0 <= j < |b| && b[j] == a[i];
    assert Indexes(b)[j] == k;
  }

  lemma SupportedWithin(level: string, a: seq<string>, b: seq<string>)
    requires ElementSet(a) == ElementSet(b) && Supported(level, a)
    ensures Supported(level, b)
  {
    var i :| 0 <= i < |a| && Text.EqualFold(level, Text.TrimSpace(a[i]));
    assert a[i] in ElementSet(b);
    var j :| 0 <= j < |b| && b[j] == a[i];
    assert Text.EqualFold(level, Text.TrimSpace(b[j]));
  }

  lemma NearestWithin(k: int, pos: int, l: seq<int>, m: seq<int>)
    requires (forall j :: j in l <==> j in m) && Nearest(k, pos, l)
    ensures Nearest(k, pos, m)
  {
  }

  lemma NearestUnique(k: int, l: int, pos: int, listed: seq<int>)
    requires Nearest(k, pos, listed) && Nearest(l, pos, listed)
    ensures k == l
  {
  }

  lemma SameNonEmpty(a: seq<string>, b: seq<string>)
    requires ElementSet(a) == ElementSet(b) && a != []
    ensures b != []
  {
    assert a[0] in ElementSet(b);
  }

  lemma ClampsWithin(level: string, a: seq<string>, b: seq<string>, r: string)
    requires ElementSet(a) == ElementSet(b) && Clamps(level, a, r)
    ensures Clamps(level, b, r)
  {
    var l, m, pos := Indexes(a), Indexes(b), LevelIndex(level);
    forall k
      ensures k in l <==> k in m
    {
      if k in l {
        ListedWithin(a, b, k);
      }
      if k in m {
        ListedWithin(b, a, k);
      }
    }
    if b != [] {
      SameNonEmpty(b, a);
    }
    if Supported(level, a) {
      SupportedWithin(level, a, b);
    }
    if Supported(level, b) {
      SupportedWithin(level, b, a);
    }
    if a != [] && !Supported(level, a) && pos >= 0 && !NoneListed(l) {
      SameNonEmpty(a, b);
      var k :| Nearest(k, pos, l) && k < |Levels| && r == Levels[k];
      NearestWithin(k, pos, l, m);
    }
  }

  lemma ClampUnique(level: string, supported: seq<string>, r: string, q: string)
    requires Clamps(level, supported, r) && Clamps(level, supported, q)
    ensures r == q
  {
    if !(supported == [] || Supported(level, supported) || LevelIndex(level) < 0 || NoneListed(Indexes(supported))) {
      var k :| Nearest(k, LevelIndex(level), Indexes(supported)) && k < |Levels| && r == Levels[k];
      var l :| Nearest(l, LevelIndex(level), Indexes(supported)) && l < |Levels| && q == Levels[l];
      NearestUnique(k, l, LevelIndex(level), Indexes(supported));
    }
  }

  /** The clamped level depends only on which levels are supported, not on their order. */
  lemma ClampOrderFree(level: string, a: seq<string>, b: seq<string>)
    requires ElementSet(a) == ElementSet(b)
    ensures Clamped(level, a) == Clamped(level, b)
  {
    ClampedIsNearest(level, a);
    ClampsWithin(level, a, b, Clamped(level, a));
    ClampedIsNearest(level, b);
    ClampUnique(level, b, Clamped(level, a), Clamped(level, b));
  }

  lemma ListedSupported(k: nat, supported: seq<string>)
    requires k < |Levels| && k in Indexes(supported)
    ensures Supported(Levels[k], supported)
  {
    var i :| 0 <= i < |supported| && Indexes(supported)[i] == k;
    LowerLevel(k);
    assert Text.EqualFold(Levels[k], Text.TrimSpace(supported[i]));
  }

  /** A clamped standard level is supported unless no standard level is. */
  lemma ClampSupported(level: string, supported: seq<string>)
    requires supported != [] && LevelIndex(level) >= 0 && !NoneListed(Indexes(supported))
    ensures Supported(Clamped(level, supported), supported)
  {
    ClampedIsNearest(level, supported);
    if !Supported(level, supported) {
      var k :| Nearest(k, LevelIndex(level), Indexes(supported)) && k < |Levels| &&
          Clamped(level, supported) == Levels[k];
      ListedSupported(k, supported);
    }
  }
}
