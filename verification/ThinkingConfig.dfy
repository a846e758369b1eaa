/** Checking a thinking configuration against what a model supports. */
module ThinkingConfig {
  import opened Collections
  import opened ThinkingLevels
  import Text

  datatype Mode = ModeBudget | ModeLevel | ModeNone | ModeAuto

  datatype Config = Config(mode: Mode, budget: int, level: string)

  datatype Support = Support(min: int, max: int, zeroAllowed: bool, dynamicAllowed: bool, levels: seq<string>) {
    predicate HasBudget() {
      min > 0 || max > 0
    }

    predicate BudgetOnly() {
      HasBudget() && levels == []
    }

    predicate LevelOnly() {
      !HasBudget() && levels != []
    }

    predicate NoRange() {
      min == 0 && max == 0
    }
  }

  datatype Failure = NotSupported | UnknownLevel | LevelNotSupported | BudgetOutOfRange

  datatype Result = Ok(config: Config) | Err(failure: Failure)

  /** What the formats at both ends decide. */
  datatype Route = Route(clampLevels: bool, strict: bool, claude: bool)

  predicate BudgetBased(format: string) {
    format == "gemini" || format == "gemini-cli" || format == "antigravity" || format == "claude"
  }

  predicate LevelBased(format: string) {
    format == "openai" || format == "openai-response" || format == "codex"
  }

  predicate GeminiFamily(format: string) {
    format == "gemini" || format == "gemini-cli" || format == "antigravity"
  }

  predicate SameFamily(a: string, b: string) {
    a == b || (GeminiFamily(a) && GeminiFamily(b))
  }

  function Format(s: string): string {
    Text.ToLower(Text.TrimSpace(s))
  }

  function RouteOf(fromFormat: string, toFormat: string, fromSuffix: bool): Route {
    var a, b := Format(fromFormat), Format(toFormat);
    Route(BudgetBased(a) && LevelBased(b), !fromSuffix && a != "" && SameFamily(a, b), b == "claude")
  }

  // ---------------------------------------------------------------------------------------
  // The stages of the check
  // ---------------------------------------------------------------------------------------

  predicate Derived(c: Config, s: Support) {
    s.BudgetOnly() && c.mode == ModeLevel && c.level != "auto"
  }

  /** A level becomes a budget, or a budget a level, when the model knows only the other. */
  function Converted(c: Config, s: Support): Result {
    if Derived(c, s) then
      match LevelToBudget(c.level)
      case None => Err(UnknownLevel)
      case Some(b) => Ok(Config(ModeBudget, b, ""))
    else if s.LevelOnly() && c.mode == ModeBudget then
      match BudgetToLevel(c.budget)
      case None => Err(UnknownLevel)
      case Some(l) => Ok(Config(ModeLevel, 0, Clamped(l, s.levels)))
    else Ok(c)
  }

  /** The special levels and the zero budget have modes of their own. */
  function Special(c: Config): Config {
    if c.mode == ModeLevel && c.level == "none" then Config(ModeNone, 0, "")
    else if c.mode == ModeLevel && c.level == "auto" then Config(ModeAuto, -1, "")
    else if c.mode == ModeBudget && c.budget == 0 then c.(mode := ModeNone, level := "")
    else c
  }

  function LevelChecked(c: Config, s: Support, clampLevels: bool): Result {
    if s.levels != [] && c.mode == ModeLevel && !Supported(c.level, s.levels) then
      var level := if clampLevels then Clamped(c.level, s.levels) else c.level;
      if Supported(level, s.levels) then Ok(c.(level := level)) else Err(LevelNotSupported)
    else Ok(c)
  }

  predicate BudgetRefused(c: Config, s: Support) {
    c.mode == ModeBudget && !s.NoRange() && (c.budget < s.min || c.budget > s.max || (c.budget == 0 && !s.zeroAllowed))
  }

  function AutoFixed(c: Config, s: Support): Config {
    if c.mode != ModeAuto || s.dynamicAllowed then c
    else if s.levels != [] && s.NoRange() then Config(ModeLevel, 0, "medium")
    else
      var mid := (s.min + s.max) / 2;
      if mid <= 0 && s.zeroAllowed then c.(mode := ModeNone, budget := 0)
      else if mid <= 0 then c.(mode := ModeBudget, budget := s.min)
      else c.(mode := ModeBudget, budget := mid)
  }

  function ClampBudget(value: int, s: Support): int {
    if value == -1 then value
    else if value == 0 && !s.zeroAllowed then s.min
    else if s.NoRange() then value
    else if value < s.min then if value == 0 && s.zeroAllowed then 0 else s.min
    else if value > s.max then s.max
    else value
  }

  function Settled(c: Config, s: Support, claude: bool): Config {
    if c.mode == ModeNone && claude then c.(budget := 0, level := "")
    else if c.mode == ModeLevel then c
    else
      var b := ClampBudget(c.budget, s);
      if c.mode == ModeNone && b > 0 && s.levels != [] then Config(c.mode, b, s.levels[0]) else c.(budget := b)
  }

  function Validated(c: Config, s: Support, route: Route): Result {
    match Converted(c, s)
    case Err(e) => Err(e)
    case Ok(c1) =>
      match LevelChecked(Special(c1), s, route.clampLevels)
      case Err(e) => Err(e)
      case Ok(c2) =>
        if route.strict && BudgetRefused(c2, s) && !Derived(c, s) then Err(BudgetOutOfRange)
        else Ok(Settled(AutoFixed(c2, s), s, route.claude))
  }

  function Validate(c: Config, support: Option<Support>, route: Route): Result {
    match support
    case None => if c.mode == ModeNone then Ok(c) else Err(NotSupported)
    case Some(s) => Validated(c, s, route)
  }

  // ---------------------------------------------------------------------------------------
  // What an accepted configuration satisfies
  // ---------------------------------------------------------------------------------------

  predicate ProperRange(s: Support) {
    0 <= s.min <= s.max
  }

  /** A configuration that suits a model. */
  predicate Meets(c: Config, s: Support) {
    match c.mode
    case ModeAuto => s.dynamicAllowed
    case ModeBudget => (s.NoRange() || s.min <= c.budget <= s.max) && (c.budget == 0 ==> s.zeroAllowed)
    case ModeLevel => s.levels == [] || Supported(c.level, s.levels)
    case ModeNone => c.budget == 0 || c.budget == s.min
  }

  /** Automatic thinking is asked for, by its mode, its level or, where only levels are known, its budget. */
  predicate AsksAuto(c: Config, s: Support) {
    || c.mode == ModeAuto
    || (c.mode == ModeLevel && c.level == "auto")
    || (c.mode == ModeBudget && c.budget == -1 && s.LevelOnly())
  }

  /** The level for automatic thinking in another spelling than the lower-case one, where only budgets are known. */
  predicate SpelledAuto(c: Config, s: Support) {
    s.BudgetOnly() && c.mode == ModeLevel && Text.ToLower(c.level) == "auto" && c.level != "auto"
  }

  /** The fixed value that stands for automatic thinking is not itself acceptable to the model. */
  predicate NoFixedValue(s: Support) {
    !s.dynamicAllowed &&
    if s.levels != [] && s.NoRange() then !Supported("medium", s.levels)
    else s.min == 0 && s.max <= 1 && !s.zeroAllowed
  }

  lemma ClampedBudget(value: int, s: Support)
    requires ProperRange(s) && value >= 0
    ensures var b := ClampBudget(value, s);
      && (s.NoRange() || s.min <= b <= s.max || (b == 0 == value && s.zeroAllowed))
      && ClampBudget(b, s) == b && b >= 0
      && (s.NoRange() ==> b == value)
      && (value > 0 && !s.NoRange() ==> b > 0)
  {
  }

  // The stages before automatic thinking is replaced and budgets are clamped.

  /** What a configuration has become after its level is checked. */
  predicate Staged(c: Config, c2: Config, s: Support) {
    && (c2.mode == ModeAuto <==> AsksAuto(c, s))
    && (c.mode == ModeNone ==> c2 == c)
    && (c.mode == ModeBudget && c.budget != 0 && !s.LevelOnly() ==> c2 == c)
    && (SpelledAuto(c, s) ==> c2.mode == ModeBudget && c2.budget == -1)
    && match c2.mode
       case ModeAuto => true
       case ModeNone => c.mode != ModeNone ==> c2.budget == 0
       case ModeBudget => !s.LevelOnly() && c2.budget != 0 && (c2 == c || SpelledAuto(c, s) || c2.budget > 0)
       case ModeLevel => AcceptedLevel(c2.level, s)
  }

  predicate AcceptedLevel(level: string, s: Support) {
    && !s.BudgetOnly() && level != "none" && level != "auto"
    && (s.levels == [] || Supported(level, s.levels))
  }

  lemma ClampedNotSpecial(level: string, levels: seq<string>)
    ensures Clamped(level, levels) == "none" <==> level == "none"
    ensures Clamped(level, levels) == "auto" <==> level == "auto"
  {
    LowerSpecial();
  }

  /** A configuration whose level is a budget, and the other way round, in the form the model knows. */
  lemma ConvertedStage(c: Config, s: Support)
    requires Converted(c, s).Ok?
    ensures var c1 := Converted(c, s).config;
      if Derived(c, s) then
        c1.mode == ModeBudget && c1.budget >= -1 && (c1.budget == -1 <==> SpelledAuto(c, s))
      else if s.LevelOnly() && c.mode == ModeBudget then
        c1.mode == ModeLevel && (c1.level == "auto" <==> c.budget == -1) && (c1.level == "none" <==> c.budget == 0)
      else c1 == c
  {
    if s.LevelOnly() && c.mode == ModeBudget {
      ClampedNotSpecial(BudgetToLevel(c.budget).value, s.levels);
    }
  }

  lemma StagedWell(c: Config, s: Support, clampLevels: bool)
    requires Converted(c, s).Ok? && LevelChecked(Special(Converted(c, s).config), s, clampLevels).Ok?
    ensures Staged(c, LevelChecked(Special(Converted(c, s).config), s, clampLevels).config, s)
  {
    ConvertedStage(c, s);
    LowerSpecial();
    var d := Special(Converted(c, s).config);
    if d.mode == ModeLevel {
      ClampedNotSpecial(d.level, s.levels);
    }
  }

  // The end of the check, from there on.

  predicate SettlesWell(c2: Config, s: Support, claude: bool) {
    match c2.mode
    case ModeAuto => !NoFixedValue(s)
    case ModeBudget => s.NoRange() || (c2.budget != -1 && !(c2.budget < -1 && s.min == 0 && !s.zeroAllowed))
    case ModeLevel => true
    case ModeNone =>
      claude || c2.budget == 0 || (s.HasBudget() && c2.budget != -1 && (c2.budget <= s.min || s.min == s.max))
  }

  lemma SettledMeetsIff(c2: Config, s: Support, claude: bool)
    requires ProperRange(s)
    requires c2.mode == ModeBudget ==> c2.budget != 0
    requires c2.mode == ModeLevel ==> AcceptedLevel(c2.level, s)
    ensures Meets(Settled(AutoFixed(c2, s), s, claude), s) <==> SettlesWell(c2, s, claude)
  {
  }

  predicate SettlesForGood(c2: Config, s: Support, strict: bool) {
    match c2.mode
    case ModeAuto => !NoFixedValue(s)
    case ModeBudget => s.NoRange() || (!(c2.budget == -1 && strict) && !(c2.budget < -1 && s.min == 0))
    case ModeLevel => true
    case ModeNone => true
  }

  /** Clamping twice is clamping once. */
  lemma ClampedTwice(value: int, s: Support)
    requires ProperRange(s)
    ensures ClampBudget(ClampBudget(value, s), s) == ClampBudget(value, s)
  {
  }

  lemma NoneAgain(r: Config, s: Support, route: Route)
    requires r.mode == ModeNone
    ensures Validated(r, s, route) == Ok(Settled(r, s, route.claude))
  {
  }

  lemma SettledNoneAgain(c2: Config, s: Support, route: Route)
    requires ProperRange(s) && c2.mode == ModeNone
    ensures var r := Settled(c2, s, route.claude); Validated(r, s, route) == Ok(r)
  {
    ClampedTwice(c2.budget, s);
    NoneAgain(Settled(c2, s, route.claude), s, route);
  }

  lemma LevelAgain(r: Config, s: Support, route: Route)
    requires r.mode == ModeLevel && !s.BudgetOnly() && r.level != "none" && r.level != "auto"
    ensures Validated(r, s, route) == Ok(r) <==> s.levels == [] || Supported(r.level, s.levels)
  {
    if s.levels != [] && !Supported(r.level, s.levels) {
      if Validated(r, s, route).Ok? {
        assert Supported(Validated(r, s, route).config.level, s.levels);
      }
    }
  }

  lemma BudgetAgain(r: Config, s: Support, route: Route)
    requires r.mode == ModeBudget && !s.LevelOnly() && ProperRange(s) && ClampBudget(r.budget, s) == r.budget
    ensures Validated(r, s, route) == Ok(r) <==>
            r.budget != 0 && (s.NoRange() || !(r.budget == -1 && route.strict))
  {
    if r.budget == 0 {
      assert Special(r).mode == ModeNone;
    } else {
      assert Special(r) == r;
    }
  }

  lemma AutoAgain(c2: Config, s: Support, route: Route)
    requires ProperRange(s) && c2.mode == ModeAuto && s.dynamicAllowed
    ensures var r := Settled(c2, s, route.claude); Validated(r, s, route) == Ok(r)
  {
    ClampedTwice(c2.budget, s);
  }

  /** The replacement of automatic thinking is stable exactly when the model accepts it. */
  lemma AutoStableIff(c2: Config, s: Support, route: Route)
    requires ProperRange(s) && c2.mode == ModeAuto && !s.dynamicAllowed
    ensures var r := Settled(AutoFixed(c2, s), s, route.claude);
      Validated(r, s, route) == Ok(r) <==> !NoFixedValue(s)
  {
    var d := AutoFixed(c2, s);
    var r := Settled(d, s, route.claude);
    if d.mode == ModeLevel {
      LevelAgain(r, s, route);
    } else if d.mode == ModeNone {
      SettledNoneAgain(d, s, route);
    } else {
      ClampedTwice(d.budget, s);
      BudgetAgain(r, s, route);
    }
  }

  lemma SettledAgainIff(c2: Config, s: Support, route: Route)
    requires ProperRange(s)
    requires c2.mode == ModeBudget ==> c2.budget != 0 && !s.LevelOnly()
    requires c2.mode == ModeLevel ==> AcceptedLevel(c2.level, s)
    ensures var r := Settled(AutoFixed(c2, s), s, route.claude);
      Validated(r, s, route) == Ok(r) <==> SettlesForGood(c2, s, route.strict)
  {
    var r := Settled(AutoFixed(c2, s), s, route.claude);
    match c2.mode
    case ModeAuto =>
      if s.dynamicAllowed {
        AutoAgain(c2, s, route);
      } else {
        AutoStableIff(c2, s, route);
      }
    case ModeBudget =>
      ClampedTwice(c2.budget, s);
      BudgetAgain(r, s, route);
    case ModeLevel =>
      LevelAgain(r, s, route);
    case ModeNone =>
      SettledNoneAgain(c2, s, route);
  }

  // What is true of every configuration.

  /** Thinking is disabled with another budget than zero, and the range does not turn it into the minimum. */
  predicate StrayNone(c: Config, s: Support, claude: bool) {
    && c.mode == ModeNone && !claude && c.budget != 0
    && !(s.HasBudget() && c.budget != -1 && (c.budget <= s.min || s.min == s.max))
  }

  /** An accepted configuration suits the model, unless automatic thinking is replaced by a value that the
      model does not accept, or reaches it as the budget -1, or a lower budget becomes a forbidden zero, or
      thinking is disabled with a budget. */
  lemma AcceptedMeetsIff(c: Config, s: Support, route: Route)
    requires ProperRange(s) && Validated(c, s, route).Ok?
    ensures Meets(Validated(c, s, route).config, s) <==>
            && !(AsksAuto(c, s) && NoFixedValue(s))
            && !SpelledAuto(c, s)
            && !(c.mode == ModeBudget && s.HasBudget() &&
                 (c.budget == -1 || (c.budget < -1 && s.min == 0 && !s.zeroAllowed)))
            && !StrayNone(c, s, route.claude)
  {
    var c2 := LevelChecked(Special(Converted(c, s).config), s, route.clampLevels).config;
    StagedWell(c, s, route.clampLevels);
    SettledMeetsIff(c2, s, route.claude);
  }

  /** Checking an accepted configuration again changes nothing, unless automatic thinking was replaced by a
      value that the model does not accept, a budget below -1 became zero, or the budget -1 that stands for
      automatic thinking is now refused. */
  lemma IdempotentIff(c: Config, s: Support, route: Route)
    requires ProperRange(s) && Validated(c, s, route).Ok?
    ensures var r := Validated(c, s, route).config;
      Validated(r, s, route) == Ok(r) <==>
      && !(AsksAuto(c, s) && NoFixedValue(s))
      && !(SpelledAuto(c, s) && route.strict)
      && !(c.mode == ModeBudget && s.HasBudget() && c.budget < -1 && s.min == 0)
  {
    var c2 := LevelChecked(Special(Converted(c, s).config), s, route.clampLevels).config;
    StagedWell(c, s, route.clampLevels);
    SettledAgainIff(c2, s, route);
  }

  /** Automatic thinking is never passed on to a model that does not allow it. */
  lemma AutoOnlyIfAllowed(c: Config, support: Option<Support>, route: Route)
    requires Validate(c, support, route).Ok? && Validate(c, support, route).config.mode == ModeAuto
    ensures support.Some? && support.value.dynamicAllowed
  {
  }

  // ---------------------------------------------------------------------------------------
  // What becomes of each kind of request
  // ---------------------------------------------------------------------------------------

  /** The number of the range that is closest to a value. */
  predicate ClosestInRange(r: int, value: int, s: Support) {
    s.min <= r <= s.max && forall v {:trigger Distance(value, v)} :: s.min <= v <= s.max ==>
        Distance(value, r) <= Distance(value, v)
  }

  /** A budget for a model with a range: kept if it is in range, refused if it is not and both ends speak
      the same format, else moved to the closest budget of the range. */
  lemma BudgetOutcome(c: Config, s: Support, route: Route)
    requires c.mode == ModeBudget && c.budget != 0 && c.budget != -1 && ProperRange(s) && s.HasBudget()
    ensures s.min <= c.budget <= s.max ==> Validated(c, s, route) == Ok(c)
    ensures !(s.min <= c.budget <= s.max) && route.strict ==> Validated(c, s, route) == Err(BudgetOutOfRange)
    ensures !(s.min <= c.budget <= s.max) && !route.strict ==>
              Validated(c, s, route).Ok? && Validated(c, s, route).config.mode == ModeBudget
              && ClosestInRange(Validated(c, s, route).config.budget, c.budget, s)
  {
  }

  /** A standard level for a model with levels: kept if it is supported, else replaced by the nearest
      supported one when the formats at both ends differ in kind, and refused otherwise. */
  lemma LevelOutcome(c: Config, s: Support, route: Route)
    requires c.mode == ModeLevel && LevelIndex(c.level) >= 0 && s.levels != []
    ensures Supported(c.level, s.levels) ==> Validated(c, s, route) == Ok(c)
    ensures !Supported(c.level, s.levels) && route.clampLevels && !NoneListed(Indexes(s.levels)) ==>
              exists k :: Nearest(k, LevelIndex(c.level), Indexes(s.levels)) && k < |Levels| &&
                  Validated(c, s, route) == Ok(c.(level := Levels[k]))
    ensures !Supported(c.level, s.levels) && (!route.clampLevels || NoneListed(Indexes(s.levels))) ==>
            Validated(c, s, route) == Err(LevelNotSupported)
  {
    StandardNotSpecial(c.level);
    ClampedIsNearest(c.level, s.levels);
    if !NoneListed(Indexes(s.levels)) {
      ClampSupported(c.level, s.levels);
    }
  }

  lemma StandardNotSpecial(level: string)
    requires LevelIndex(level) >= 0
    ensures level != "none" && level != "auto"
  {
    LowerSpecial();
  }

  /** A standard level for a model that knows only budgets becomes the closest budget of its range to the
      standard budget of the level, and is never refused. */
  lemma LevelAsBudget(c: Config, s: Support, route: Route)
    requires c.mode == ModeLevel && LevelIndex(c.level) >= 0 && ProperRange(s) && s.BudgetOnly()
    ensures Validated(c, s, route).Ok? && Validated(c, s, route).config.mode == ModeBudget
    ensures ClosestInRange(Validated(c, s, route).config.budget, Budgets[LevelIndex(c.level)], s)
  {
    StandardNotSpecial(c.level);
    StandardBudget(c.level);
  }

  lemma StandardBudget(level: string)
    requires LevelIndex(level) >= 0
    ensures LevelToBudget(level) == Some(Budgets[LevelIndex(level)])
  {
  }

  /** A request to disable thinking is accepted by every model, in whatever form it comes. */
  lemma DisableOutcome(c: Config, s: Support, route: Route)
    requires ProperRange(s)
    requires (c.mode == ModeNone && c.budget == 0) || (c.mode == ModeLevel && c.level == "none") ||
             (c.mode == ModeBudget && c.budget == 0)
    ensures Validated(c, s, route).Ok? && Validated(c, s, route).config.mode == ModeNone
    ensures route.claude || s.zeroAllowed ==> Validated(c, s, route).config.budget == 0
    ensures !route.claude && !s.zeroAllowed ==> Validated(c, s, route).config.budget == s.min
    ensures Validated(c, s, route).config.level ==
            if route.claude then "" else if !s.zeroAllowed && s.min > 0 && s.levels != [] then s.levels[0]
            else if c.mode == ModeNone then c.level else ""
  {
    hide Clamped, Text.ToLower;
    LowerSpecial();
    ClampedSpecial("none", s.levels);
  }

  lemma ClampedSpecial(level: string, levels: seq<string>)
    requires level == "none" || level == "auto"
    ensures Clamped(level, levels) == level
  {
    LowerSpecial();
  }

  /** A request for automatic thinking in any other spelling reaches a model that knows only budgets as the
      budget -1, which is not in its range, whatever the formats at both ends are. */
  lemma SpelledAutoOutcome(c: Config, s: Support, route: Route)
    requires ProperRange(s) && SpelledAuto(c, s)
    ensures Validated(c, s, route) == Ok(Config(ModeBudget, -1, ""))
    ensures !Meets(Config(ModeBudget, -1, ""), s)
  {
  }

  // ---------------------------------------------------------------------------------------
  // By the names of the formats
  // ---------------------------------------------------------------------------------------

  /** Names are compared trimmed and in lower case. */
  function Clean(format: string): string {
    Text.ToLower(Text.TrimSpace(format))
  }

  /** A request counted in budgets goes to a model that is addressed by levels. */
  predicate BudgetsToLevels(fromFormat: string, toFormat: string) {
    && Clean(fromFormat) in ["gemini", "gemini-cli", "antigravity", "claude"]
    && Clean(toFormat) in ["openai", "openai-response", "codex"]
  }

  /** Both ends speak the same format, or both one of the Gemini family, and no suffix of the model's name is used. */
  predicate SameEnds(fromFormat: string, toFormat: string, fromSuffix: bool) {
    && !fromSuffix && Clean(fromFormat) != ""
    && (|| Clean(fromFormat) == Clean(toFormat)
        || (Clean(fromFormat) in ["gemini", "gemini-cli", "antigravity"]
            && Clean(toFormat) in ["gemini", "gemini-cli", "antigravity"]))
  }

  lemma RouteIs(fromFormat: string, toFormat: string, fromSuffix: bool)
    ensures var route := RouteOf(fromFormat, toFormat, fromSuffix);
      && (route.clampLevels <==> BudgetsToLevels(fromFormat, toFormat))
      && (route.strict <==> SameEnds(fromFormat, toFormat, fromSuffix))
      && (route.claude <==> Clean(toFormat) == "claude")
  {
  }

  /** The supported standard level that is nearest to another one, the lower one on a tie, by their places. */
  ghost predicate NearestLevel(k: nat, pos: int, levels: seq<string>) {
    && k < 5 && k in Indexes(levels)
    && forall j :: j in Indexes(levels) && j >= 0 && j != k ==>
         var near, far := if k < pos then pos - k else k - pos, if j < pos then pos - j else j - pos;
         near < far || (near == far && k < j)
  }

  lemma NearestIs(k: int, pos: int, levels: seq<string>)
    requires Nearest(k, pos, Indexes(levels)) && k < |Levels|
    ensures NearestLevel(k, pos, levels)
  {
  }

  /** Some standard level is supported. */
  ghost predicate SomeStandard(levels: seq<string>) {
    exists j :: j in Indexes(levels) && j >= 0
  }

  /** A standard level for a model with levels is kept if it is supported. Another one is replaced by the nearest one
      exactly when it comes from a format counted in budgets and goes to one addressed by levels, and refused
      otherwise. */
  ghost predicate LevelByFormats(c: Config, s: Support, fromFormat: string, toFormat: string, r: Result) {
    var names := ["minimal", "low", "medium", "high", "xhigh"];
    forall pos: nat :: pos < 5 && c.mode == ModeLevel && Text.ToLower(c.level) == names[pos] && s.levels != [] ==>
      if Supported(c.level, s.levels) then r == Ok(c)
      else if BudgetsToLevels(fromFormat, toFormat) && SomeStandard(s.levels) then
        exists k: nat :: NearestLevel(k, pos, s.levels) && r == Ok(Config(ModeLevel, c.budget, names[k]))
      else r == Err(LevelNotSupported)
  }

  lemma LevelsByFormats(c: Config, s: Support, fromFormat: string, toFormat: string, fromSuffix: bool)
    ensures LevelByFormats(c, s, fromFormat, toFormat, Validated(c, s, RouteOf(fromFormat, toFormat, fromSuffix)))
  {
    var names := ["minimal", "low", "medium", "high", "xhigh"];
    var route := RouteOf(fromFormat, toFormat, fromSuffix);
    RouteIs(fromFormat, toFormat, fromSuffix);
    LevelTable(c.level);
    assert names == Levels;
    if LevelIndex(c.level) >= 0 && c.mode == ModeLevel && s.levels != [] {
      LevelOutcome(c, s, route);
      if !Supported(c.level, s.levels) && route.clampLevels && SomeStandard(s.levels) {
        var k :| Nearest(k, LevelIndex(c.level), Indexes(s.levels)) && k < |Levels|
                 && Validated(c, s, route) == Ok(c.(level := Levels[k]));
        NearestIs(k, LevelIndex(c.level), s.levels);
      }
    }
  }

  /** A budget for a model with a range is kept if it is in range. Another one is refused exactly when both ends are
      the same, and moved to the closest one of the range otherwise. */
  predicate BudgetByFormats(c: Config, s: Support, fromFormat: string, toFormat: string, fromSuffix: bool, r: Result) {
    c.mode == ModeBudget && c.budget != 0 && c.budget != -1 && 0 <= s.min <= s.max && s.max > 0 ==>
      if s.min <= c.budget <= s.max then r == Ok(c)
      else if SameEnds(fromFormat, toFormat, fromSuffix) then r == Err(BudgetOutOfRange)
      else r == Ok(c.(budget := if c.budget < s.min then s.min else s.max))
  }

  lemma BudgetsByFormats(c: Config, s: Support, fromFormat: string, toFormat: string, fromSuffix: bool)
    ensures BudgetByFormats(c, s, fromFormat, toFormat, fromSuffix,
                            Validated(c, s, RouteOf(fromFormat, toFormat, fromSuffix)))
  {
    RouteIs(fromFormat, toFormat, fromSuffix);
  }

  /** Disabled thinking keeps the budget zero for Claude and where zero is allowed, and gets the minimum elsewhere, with
      the first level of a model that has levels. */
  predicate NoneByFormats(c: Config, s: Support, toFormat: string, r: Result) {
    0 <= s.min <= s.max
    && ((c.mode == ModeNone && c.budget == 0) || (c.mode == ModeLevel && c.level == "none")
        || (c.mode == ModeBudget && c.budget == 0)) ==>
      && r.Ok? && r.config.mode == ModeNone
      && r.config.budget == (if Clean(toFormat) == "claude" || s.zeroAllowed then 0 else s.min)
      && r.config.level == if Clean(toFormat) == "claude" then ""
                           else if !s.zeroAllowed && s.min > 0 && s.levels != [] then s.levels[0]
                           else if c.mode == ModeNone then c.level else ""
  }

  lemma DisabledByFormats(c: Config, s: Support, fromFormat: string, toFormat: string, fromSuffix: bool)
    ensures NoneByFormats(c, s, toFormat, Validated(c, s, RouteOf(fromFormat, toFormat, fromSuffix)))
  {
    RouteIs(fromFormat, toFormat, fromSuffix);
    if ProperRange(s)
       && ((c.mode == ModeNone && c.budget == 0) || (c.mode == ModeLevel && c.level == "none")
           || (c.mode == ModeBudget && c.budget == 0)) {
      DisableOutcome(c, s, RouteOf(fromFormat, toFormat, fromSuffix));
    }
  }

  lemma NearestClamped(level: string, levels: seq<string>)
    requires LevelIndex(level) >= 0 && !Supported(level, levels) && levels != []
    ensures if SomeStandard(levels)
            then Supported(Clamped(level, levels), levels)
                 && exists k: nat :: NearestLevel(k, LevelIndex(level), levels) && Clamped(level, levels) == Levels[k]
            else Clamped(level, levels) == level
  {
    ClampedIsNearest(level, levels);
    if SomeStandard(levels) {
      var k :| Nearest(k, LevelIndex(level), Indexes(levels)) && k < |Levels| && Clamped(level, levels) == Levels[k];
      NearestIs(k, LevelIndex(level), levels);
      ClampSupported(level, levels);
    } else {
      assert NoneListed(Indexes(levels));
    }
  }

  /** What becomes of a budget in a check for levels only. */
  lemma OnlyLevels(c: Config, s: Support, route: Route)
    requires c.mode == ModeBudget && c.budget > 0 && s.LevelOnly()
    ensures var level := Clamped(BudgetToLevel(c.budget).value, s.levels);
      && (Supported(level, s.levels) ==> Validated(c, s, route) == Ok(Config(ModeLevel, 0, level)))
      && (!Supported(level, s.levels) && Clamped(level, s.levels) == level ==>
            Validated(c, s, route) == Err(LevelNotSupported))
  {
    hide Supported, Clamped;
    ClampedNotSpecial(BudgetToLevel(c.budget).value, s.levels);
    NearestStandardBudget(c.budget);
    StandardNotSpecial(BudgetToLevel(c.budget).value);
  }

  lemma SupportedStays(level: string, levels: seq<string>)
    requires Supported(level, levels)
    ensures Clamped(level, levels) == level
  {
  }

  /** A budget for a model that knows only levels becomes its standard level if that is supported, else the nearest
      supported one, whatever the formats are, and is refused when no standard level is supported. */
  lemma BudgetAsLevel(c: Config, s: Support, route: Route)
    requires c.mode == ModeBudget && c.budget > 0 && s.LevelOnly()
    ensures var level, r := BudgetToLevel(c.budget).value, Validated(c, s, route);
      if Supported(level, s.levels) then r == Ok(Config(ModeLevel, 0, level))
      else if SomeStandard(s.levels) then
        exists k: nat :: NearestLevel(k, LevelIndex(level), s.levels) && r == Ok(Config(ModeLevel, 0, Levels[k]))
      else r == Err(LevelNotSupported)
  {
    hide Supported, Clamped, Validated;
    var level := BudgetToLevel(c.budget).value;
    OnlyLevels(c, s, route);
    NearestStandardBudget(c.budget);
    if Supported(level, s.levels) {
      SupportedStays(level, s.levels);
    } else {
      NearestClamped(level, s.levels);
    }
  }

  /** A level for a model with a range only that is not one of the seven words, or a budget below -1 for a model with
      levels only. */
  predicate Unreadable(c: Config, s: Support) {
    || (c.mode == ModeLevel && (s.min > 0 || s.max > 0) && s.levels == [] && c.level != "auto"
        && Text.ToLower(c.level) !in ["none", "auto", "minimal", "low", "medium", "high", "xhigh"])
    || (c.mode == ModeBudget && s.min <= 0 && s.max <= 0 && s.levels != [] && c.budget < -1)
  }

  /** A level that the model with levels does not support and that is not replaced; for a positive budget, none of the
      model's levels is a standard one. */
  ghost predicate Unsupported(c: Config, s: Support, fromFormat: string, toFormat: string) {
    && s.levels != []
    && (|| (c.mode == ModeLevel && c.level !in ["none", "auto"] && !Supported(c.level, s.levels)
            && !(BudgetsToLevels(fromFormat, toFormat) && SomeStandard(s.levels)
                 && Text.ToLower(c.level) in ["minimal", "low", "medium", "high", "xhigh"]))
        || (c.mode == ModeBudget && c.budget > 0 && s.min <= 0 && s.max <= 0 && !SomeStandard(s.levels)))
  }

  /** A budget outside the range of the model, with the same format at both ends. */
  predicate OutOfRange(c: Config, s: Support, fromFormat: string, toFormat: string, fromSuffix: bool) {
    && c.mode == ModeBudget && c.budget != 0 && !(s.min <= 0 && s.max <= 0 && s.levels != [])
    && !(s.min == 0 && s.max == 0) && !(s.min <= c.budget <= s.max) && SameEnds(fromFormat, toFormat, fromSuffix)
  }

  /** Each refusal has exactly one cause, whatever the range and the levels of the model are. */
  ghost predicate Refusals(c: Config, s: Support, fromFormat: string, toFormat: string, fromSuffix: bool, r: Result) {
    && (r == Err(UnknownLevel) <==> Unreadable(c, s))
    && (r == Err(LevelNotSupported) <==> Unsupported(c, s, fromFormat, toFormat))
    && (r == Err(BudgetOutOfRange) <==> OutOfRange(c, s, fromFormat, toFormat, fromSuffix))
    && r != Err(NotSupported)
  }

  lemma LevelRefusals(c: Config, s: Support, fromFormat: string, toFormat: string, fromSuffix: bool)
    requires c.mode == ModeLevel && s.levels != []
    ensures Refusals(c, s, fromFormat, toFormat, fromSuffix, Validated(c, s, RouteOf(fromFormat, toFormat, fromSuffix)))
  {
    hide Supported, Clamped, RouteOf, SomeStandard, LevelToBudget, LevelIndex, Text.ToLower, BudgetToLevel, Clean;
    RouteIs(fromFormat, toFormat, fromSuffix);
    LevelTable(c.level);
    if LevelIndex(c.level) >= 0 && !Supported(c.level, s.levels) {
      NearestClamped(c.level, s.levels);
    } else {
      OtherClamped(c.level, s.levels);
    }
  }

  lemma WordRefusals(c: Config, s: Support, fromFormat: string, toFormat: string, fromSuffix: bool)
    requires c.mode == ModeLevel && s.levels == []
    ensures Refusals(c, s, fromFormat, toFormat, fromSuffix, Validated(c, s, RouteOf(fromFormat, toFormat, fromSuffix)))
  {
    hide Supported, Clamped, RouteOf, LevelToBudget, LevelIndex, Text.ToLower, BudgetToLevel, Clean;
    LevelTable(c.level);
  }

  lemma OtherClamped(level: string, levels: seq<string>)
    requires LevelIndex(level) < 0 || Supported(level, levels)
    ensures Clamped(level, levels) == level
  {
  }

  lemma SupportedStandard(level: string, levels: seq<string>)
    requires LevelIndex(level) >= 0 && Supported(level, levels)
    ensures SomeStandard(levels)
  {
    var i :| 0 <= i < |levels| && Text.EqualFold(level, Text.TrimSpace(levels[i]));
    assert LevelIndex(Text.TrimSpace(levels[i])) == LevelIndex(level);
    assert Indexes(levels)[i] == LevelIndex(level);
    assert LevelIndex(level) in Indexes(levels);
  }

  lemma BudgetRefusals(c: Config, s: Support, fromFormat: string, toFormat: string, fromSuffix: bool)
    requires c.mode == ModeBudget
    ensures Refusals(c, s, fromFormat, toFormat, fromSuffix, Validated(c, s, RouteOf(fromFormat, toFormat, fromSuffix)))
  {
    hide Supported, Clamped, RouteOf, SomeStandard;
    RouteIs(fromFormat, toFormat, fromSuffix);
    if s.LevelOnly() {
      ClampedSpecial("none", s.levels);
      ClampedSpecial("auto", s.levels);
      if c.budget > 0 {
        BudgetAsLevel(c, s, RouteOf(fromFormat, toFormat, fromSuffix));
        NearestStandardBudget(c.budget);
        if Supported(BudgetToLevel(c.budget).value, s.levels) {
          SupportedStandard(BudgetToLevel(c.budget).value, s.levels);
        }
      }
    }
  }

  lemma RefusalsIff(c: Config, s: Support, fromFormat: string, toFormat: string, fromSuffix: bool)
    ensures Refusals(c, s, fromFormat, toFormat, fromSuffix, Validated(c, s, RouteOf(fromFormat, toFormat, fromSuffix)))
  {
    hide Refusals;
    if c.mode == ModeLevel && s.levels == [] {
      WordRefusals(c, s, fromFormat, toFormat, fromSuffix);
    } else if c.mode == ModeLevel {
      LevelRefusals(c, s, fromFormat, toFormat, fromSuffix);
    } else if c.mode == ModeBudget {
      BudgetRefusals(c, s, fromFormat, toFormat, fromSuffix);
    } else {
      OtherRefusals(c, s, fromFormat, toFormat, fromSuffix);
    }
  }

  lemma OtherRefusals(c: Config, s: Support, fromFormat: string, toFormat: string, fromSuffix: bool)
    requires c.mode == ModeNone || c.mode == ModeAuto
    ensures Refusals(c, s, fromFormat, toFormat, fromSuffix, Validated(c, s, RouteOf(fromFormat, toFormat, fromSuffix)))
  {
  }

  /** A model that allows automatic thinking gets it, with the budget -1. */
  predicate AutoAccepted(c: Config, s: Support, r: Result) {
    s.dynamicAllowed
    && ((c.mode == ModeLevel && c.level == "auto") || c == Config(ModeAuto, -1, "")
        || (c.mode == ModeBudget && c.budget == -1 && s.min <= 0 && s.max <= 0 && s.levels != [])) ==>
      r == Ok(Config(ModeAuto, -1, ""))
  }

  lemma AutoAcceptedAlways(c: Config, s: Support, route: Route)
    ensures AutoAccepted(c, s, Validated(c, s, route))
  {
    ClampedSpecial("auto", s.levels);
  }

  /** What the names of the formats decide. A model without thinking accepts only a request to disable it. */
  ghost predicate FollowsFormats(c: Config, support: Option<Support>, fromFormat: string, toFormat: string,
                                 fromSuffix: bool, r: Result) {
    match support
    case None => r == if c.mode == ModeNone then Ok(c) else Err(NotSupported)
    case Some(s) =>
      && LevelByFormats(c, s, fromFormat, toFormat, r)
      && BudgetByFormats(c, s, fromFormat, toFormat, fromSuffix, r)
      && NoneByFormats(c, s, toFormat, r)
      && AutoAccepted(c, s, r)
      && Refusals(c, s, fromFormat, toFormat, fromSuffix, r)
  }

  lemma FormatsFollowed(c: Config, support: Option<Support>, fromFormat: string, toFormat: string, fromSuffix: bool)
    ensures FollowsFormats(c, support, fromFormat, toFormat, fromSuffix,
                           Validate(c, support, RouteOf(fromFormat, toFormat, fromSuffix)))
  {
    if support.Some? {
      LevelsByFormats(c, support.value, fromFormat, toFormat, fromSuffix);
      BudgetsByFormats(c, support.value, fromFormat, toFormat, fromSuffix);
      DisabledByFormats(c, support.value, fromFormat, toFormat, fromSuffix);
      AutoAcceptedAlways(c, support.value, RouteOf(fromFormat, toFormat, fromSuffix));
      RefusalsIff(c, support.value, fromFormat, toFormat, fromSuffix);
    }
  }

  // ---------------------------------------------------------------------------------------
  // The check itself
  // ---------------------------------------------------------------------------------------

  /** As far from one end of the range as from the other, rounded down. */
  predicate Halfway(budget: int, s: Support) {
    s.min <= budget <= s.max && budget - s.min <= s.max - budget <= budget - s.min + 1
  }

  /** Automatic thinking becomes the medium level where there are only levels, and otherwise the middle of the
      range; a middle of zero disables thinking where that is allowed. */
  method ConvertAutoToMidRange(c: Config, s: Support) returns (config: Config)
    requires c.mode == ModeAuto && !s.dynamicAllowed
    ensures config == AutoFixed(c, s)
    ensures s.levels != [] && s.NoRange() ==> config == Config(ModeLevel, 0, "medium")
    ensures ProperRange(s) && !(s.levels != [] && s.NoRange()) ==>
              && (config.mode == ModeNone <==> s.zeroAllowed && Halfway(0, s))
              && (config.mode == ModeNone ==> config.budget == 0)
              && (config.mode != ModeNone ==> config.mode == ModeBudget && Halfway(config.budget, s))
  {
    config := c;
    if |s.levels| > 0 && s.min == 0 && s.max == 0 {
      config := config.(mode := ModeLevel);
      config := config.(level := "medium");
      config := config.(budget := 0);
      return;
    }
    var mid := (s.min + s.max) / 2;
    if mid <= 0 && s.zeroAllowed {
      config := config.(mode := ModeNone);
      config := config.(budget := 0);
    } else if mid <= 0 {
      config := config.(mode := ModeBudget);
      config := config.(budget := s.min);
    } else {
      config := config.(mode := ModeBudget);
      config := config.(budget := mid);
    }
  }

  method Convert(c: Config, s: Support) returns (r: Result, derived: bool)
    ensures r == Converted(c, s) && (r.Ok? ==> (derived <==> Derived(c, s)))
  {
    var config := c;
    derived := false;
    var hasBudget := s.min > 0 || s.max > 0;
    if hasBudget && |s.levels| == 0 {
      if config.mode == ModeLevel && config.level != "auto" {
        var budget := LevelToBudget(config.level);
        if budget == None {
          return Err(UnknownLevel), false;
        }
        config := config.(mode := ModeBudget);
        config := config.(budget := budget.value);
        config := config.(level := "");
        derived := true;
      }
    } else if !hasBudget && |s.levels| > 0 {
      if config.mode == ModeBudget {
        var level := BudgetToLevel(config.budget);
        if level == None {
          return Err(UnknownLevel), false;
        }
        var clamped := ClampLevel(level.value, s.levels);
        config := config.(mode := ModeLevel);
        config := config.(level := clamped);
        config := config.(budget := 0);
      }
    }
    r := Ok(config);
  }

  method CheckLevel(c: Config, s: Support, clampLevels: bool) returns (r: Result)
    ensures r == LevelChecked(c, s, clampLevels)
  {
    var config := c;
    if |s.levels| > 0 && config.mode == ModeLevel {
      var known := IsLevelSupported(config.level, s.levels);
      if !known {
        if clampLevels {
          var level := ClampLevel(config.level, s.levels);
          config := config.(level := level);
        }
        known := IsLevelSupported(config.level, s.levels);
        if !known {
          return Err(LevelNotSupported);
        }
      }
    }
    r := Ok(config);
  }

  method Settle(c: Config, s: Support, claude: bool) returns (config: Config)
    ensures config == Settled(c, s, claude)
  {
    config := c;
    if config.mode == ModeNone && claude {
      config := config.(budget := 0);
      config := config.(level := "");
    } else {
      if config.mode != ModeLevel {
        config := config.(budget := ClampBudget(config.budget, s));
      }
      if config.mode == ModeNone && config.budget > 0 && |s.levels| > 0 {
        config := config.(level := s.levels[0]);
      }
    }
  }

  method ApplySpecial(c: Config) returns (config: Config)
    ensures config == Special(c)
  {
    config := c;
    if config.mode == ModeLevel && config.level == "none" {
      config := Config(ModeNone, 0, "");
    }
    if config.mode == ModeLevel && config.level == "auto" {
      config := Config(ModeAuto, -1, "");
    }
    if config.mode == ModeBudget && config.budget == 0 {
      config := config.(mode := ModeNone);
      config := config.(level := "");
    }
  }

  method ValidateFor(c: Config, s: Support, route: Route) returns (r: Result)
    ensures r == Validated(c, s, route)
  {
    var derived;
    r, derived := Convert(c, s);
    if r.Err? {
      return;
    }
    var config := ApplySpecial(r.config);
    r := CheckLevel(config, s, route.clampLevels);
    if r.Err? {
      return;
    }
    config := r.config;
    if route.strict && config.mode == ModeBudget && !derived && (s.min != 0 || s.max != 0) {
      if config.budget < s.min || config.budget > s.max || (config.budget == 0 && !s.zeroAllowed) {
        return Err(BudgetOutOfRange);
      }
    }
    if config.mode == ModeAuto && !s.dynamicAllowed {
      config := ConvertAutoToMidRange(config, s);
    }
    config := Settle(config, s, route.claude);
    r := Ok(config);
  }

  method ValidateConfig(c: Config, support: Option<Support>, fromFormat: string, toFormat: string, fromSuffix: bool)
    returns (r: Result)
    ensures r == Validate(c, support, RouteOf(fromFormat, toFormat, fromSuffix))
    ensures FollowsFormats(c, support, fromFormat, toFormat, fromSuffix, r)
  {
    FormatsFollowed(c, support, fromFormat, toFormat, fromSuffix);
    if support == None {
      if c.mode != ModeNone {
        return Err(NotSupported);
      }
      return Ok(c);
    }
    var route := RouteOf(fromFormat, toFormat, fromSuffix);
    r := ValidateFor(c, support.value, route);
  }
}
