/**
 * The ontology classifier of server/services/ontology.js: keyword counting per
 * category with a first-maximum choice, and the integer heuristics (complexity,
 * install difficulty, debug time, learning curve, maintenance load) plus the
 * clamped vibe score, composed by `analyzeRepository`.
 */
module Ontology {

  import opened Wrappers
  import opened Text

  // ---------------------------------------------------------------- categories

  datatype Category = Agent | Foundation | Tool | Knowledge | Infrastructure | UI | Data | Other

  /** The declaration order of the category table; a tie goes to the earlier entry. */
  const Categories: seq<Category> := [Agent, Foundation, Tool, Knowledge, Infrastructure, UI, Data, Other]

  const OtherIndex: nat := 7

  function CategoryName(c: Category): string
  {
    match c
    case Agent => "Agent"
    case Foundation => "Foundation"
    case Tool => "Tool"
    case Knowledge => "Knowledge"
    case Infrastructure => "Infrastructure"
    case UI => "UI"
    case Data => "Data"
    case Other => "Other"
  }

  function Keywords(c: Category): seq<string>
  {
    match c
    case Agent => ["agent", "autonomous", "ai assistant", "chatbot", "llm", "gpt", "claude",
                   "multi-agent", "jarvis", "automation", "workflow", "orchestration"]
    case Foundation => ["framework", "library", "sdk", "core", "base", "platform", "engine",
                        "toolkit", "foundation", "infrastructure"]
    case Tool => ["tool", "cli", "utility", "helper", "converter", "downloader", "scraper",
                  "parser", "generator", "optimizer"]
    case Knowledge => ["awesome", "guide", "tutorial", "documentation", "docs", "learning",
                       "resources", "book", "course", "cheatsheet", "examples"]
    case Infrastructure => ["docker", "kubernetes", "devops", "deployment", "server", "database",
                            "monitoring", "logging", "backup", "terraform", "ansible"]
    case UI => ["ui", "frontend", "react", "vue", "component", "design system", "visualization",
                "dashboard", "interface", "theme"]
    case Data => ["data", "analytics", "ml", "machine learning", "deep learning", "neural",
                  "dataset", "pipeline", "etl", "processing"]
    case Other => []
  }

  // ---------------------------------------------------------------- repository input

  /**
   * The `description` field: absent (`undefined`, where the `= ''` defaults
   * apply), `null` (what the hosting API sends for a repository without one),
   * or a string.
   */
  datatype Description = Undefined | Null | Given(s: string)

  /**
   * The metadata the classifier reads. Numeric fields already carry the
   * destructuring default 0; `daysSincePush` is the age of `pushed_at` in days,
   * `None` when `pushed_at` is missing.
   */
  datatype Repo = Repo(
    name: string,
    description: Description,
    topics: seq<string>,
    primaryLanguage: Option<string>,
    sizeKb: int,
    stars: int,
    forksCount: int,
    openIssues: int,
    watchers: int,
    daysSincePush: Option<real>)

  /** `${description}` in a template literal: `null` prints as "null". */
  function DescriptionInTemplate(d: Description): string
  {
    match d
    case Undefined => ""
    case Null => "null"
    case Given(s) => s
  }

  /** `description || ''`. */
  function DescriptionOrEmpty(d: Description): string
  {
    if d.Given? then d.s else ""
  }

  /** The lower-cased `${name} ${description} ${topics.join(' ')}` searched for keywords. */
  function SearchText(repo: Repo): string
  {
    Lower(repo.name + " " + DescriptionInTemplate(repo.description) + " " + Join(repo.topics, " "))
  }

  // ---------------------------------------------------------------- weights

  /** How many of the keywords occur as substrings of the text. */
  function Hits(keywords: seq<string>, text: string): nat
  {
    if keywords == [] then 0
    else Hits(keywords[..|keywords| - 1], text) + (if Includes(text, keywords[|keywords| - 1]) then 1 else 0)
  }

  /** The keywords that occur in the text, in table order. */
  function Matched(keywords: seq<string>, text: string): (r: seq<string>)
    ensures forall k :: k in r ==> k in keywords && Includes(text, k)
  {
    if keywords == [] then []
    else
      var init := Matched(keywords[..|keywords| - 1], text);
      var last := keywords[|keywords| - 1];
      if Includes(text, last) then init + [last] else init
  }

  /** The weight of every category, in declaration order. */
  function Weights(text: string): (ws: seq<nat>)
    ensures |ws| == |Categories|
  {
    seq(|Categories|, i requires 0 <= i < |Categories| => Hits(Keywords(Categories[i]), text))
  }

  function Max(ws: seq<nat>): nat
  {
    if ws == [] then 0
    else
      var m := Max(ws[..|ws| - 1]);
      if ws[|ws| - 1] > m then ws[|ws| - 1] else m
  }

  function Sum(ws: seq<nat>): nat
  {
    if ws == [] then 0 else Sum(ws[..|ws| - 1]) + ws[|ws| - 1]
  }

  /** The first position holding `m`, or `|ws|` if none does. */
  function FirstIndexOf(ws: seq<nat>, m: nat): (i: nat)
    ensures i <= |ws|
  {
    if ws == [] then 0
    else if ws[0] == m then 0
    else 1 + FirstIndexOf(ws[1..], m)
  }

  /** The chosen category: the first one whose weight is the maximum, `Other` if every weight is 0. */
  function BestIndex(ws: seq<nat>): (b: nat)
    requires |ws| == |Categories|
    ensures b < |Categories|
  {
    var m := Max(ws);
    if m == 0 then OtherIndex
    else
      MaxAttained(ws);
      FirstIndexOf(ws, m)
  }

  /** `max / total * 100`, or 0 when no keyword matched at all. */
  function Confidence(ws: seq<nat>): real
  {
    var total := Sum(ws);
    if total == 0 then 0.0 else (Max(ws) as real / total as real) * 100.0
  }

  // ---------------------------------------------------------------- reasoning

  /** `${name} ${description || ''} ${topics?.join(' ') || ''}`, lower-cased. */
  function ReasoningText(repo: Repo): string
  {
    Lower(repo.name + " " + DescriptionOrEmpty(repo.description) + " " + Join(repo.topics, " "))
  }

  /** How the keyword sentence of the reasoning opens. */
  const KeywordsLead: string := "Contains keywords: "

  /** `s` opens with the keyword sentence's lead. */
  predicate OpensWithKeywords(s: string)
  {
    |KeywordsLead| <= |s| && s[..|KeywordsLead|] == KeywordsLead
  }

  /** The sentences `generateReasoning` pushes, in order. */
  function Reasons(c: Category, repo: Repo): seq<string>
  {
    var matched := Matched(Keywords(c), ReasoningText(repo));
    (if |matched| > 0 then [KeywordsLead + Join(Take(matched, 3), ", ")] else [])
    + (if repo.primaryLanguage.Some? && repo.primaryLanguage.value != ""
       then ["Primary language: " + repo.primaryLanguage.value] else [])
    + (if |repo.topics| > 0 then ["Topics: " + Join(Take(repo.topics, 3), ", ")] else [])
  }

  function Reasoning(c: Category, repo: Repo): string
  {
    Join(Reasons(c, repo), ". ")
  }

  // ---------------------------------------------------------------- categorization

  datatype Categorization = Categorization(category: Category, confidence: real, reasoning: string, weights: seq<nat>)

  /** What `categorizeRepository` returns, stated without its loops. */
  function Classification(repo: Repo): (c: Categorization)
    ensures |c.weights| == |Categories| && c.category in Categories
  {
    var ws := Weights(SearchText(repo));
    var best := BestIndex(ws);
    BestIndexIsFirstMaximum(ws);
    Categorization(Categories[best], Confidence(ws), Reasoning(Categories[best], repo), ws)
  }

  /**
   * `categorizeRepository`: count keyword hits into each category's weight,
   * then scan the categories in order keeping the first strictly larger weight.
   */
  method CategorizeRepository(repo: Repo) returns (result: Categorization)
    ensures result == Classification(repo)
  {
    var text := SearchText(repo);
    var weights := CountWeights(text);
    var bestIndex, maxWeight := ChooseCategory(weights);
    var total := Sum(weights);
    var confidence := 0.0;
    if total > 0 {
      confidence := (maxWeight as real / total as real) * 100.0;
    }
    var category := Categories[bestIndex];
    result := Categorization(category, confidence, Reasoning(category, repo), weights);
  }

  /** The weighting loop of `categorizeRepository`: one increment per keyword found. */
  method CountWeights(text: string) returns (weights: seq<nat>)
    ensures weights == Weights(text)
  {
    weights := [0, 0, 0, 0, 0, 0, 0, 0];
    for i := 0 to |Categories|
      invariant |weights| == |Categories|
      invariant forall k :: 0 <= k < i ==> weights[k] == Hits(Keywords(Categories[k]), text)
      invariant forall k :: i <= k < |Categories| ==> weights[k] == 0
    {
      var keywords := Keywords(Categories[i]);
      for j := 0 to |keywords|
        invariant |weights| == |Categories|
        invariant weights[i] == Hits(keywords[..j], text)
        invariant forall k :: 0 <= k < |Categories| && k != i ==> weights[k] == if k < i then Hits(Keywords(Categories[k]), text) else 0
      {
        assert keywords[..j + 1][..j] == keywords[..j];
        if Includes(text, keywords[j]) {
          weights := weights[i := weights[i] + 1];
        }
      }
      assert keywords[..|keywords|] == keywords;
    }
  }

  /** The selection loop of `categorizeRepository`: a strictly larger weight replaces the best so far. */
  method ChooseCategory(weights: seq<nat>) returns (bestIndex: nat, maxWeight: nat)
    requires |weights| == |Categories|
    ensures bestIndex == BestIndex(weights)
    ensures maxWeight == Max(weights)
  {
    maxWeight := 0;
    bestIndex := OtherIndex;
    for i := 0 to |Categories|
      invariant maxWeight == Max(weights[..i])
      invariant forall j :: 0 <= j < i ==> weights[j] <= maxWeight
      invariant maxWeight == 0 ==> bestIndex == OtherIndex
      invariant maxWeight > 0 ==> bestIndex < i && weights[bestIndex] == maxWeight
      invariant maxWeight > 0 ==> forall j :: 0 <= j < bestIndex ==> weights[j] < maxWeight
    {
      assert weights[..i + 1][..i] == weights[..i];
      if weights[i] > maxWeight {
        maxWeight := weights[i];
        bestIndex := i;
      }
    }
    assert weights[..|Categories|] == weights;
    if maxWeight > 0 {
      FirstIndexOfFirst(weights, maxWeight, bestIndex);
    }
  }

  lemma {:induction false} FirstIndexOfFirst(ws: seq<nat>, m: nat, b: nat)
    requires b < |ws| && ws[b] == m
    requires forall j :: 0 <= j < b ==> ws[j] != m
    ensures FirstIndexOf(ws, m) == b
  {
    if b > 0 {
      FirstIndexOfFirst(ws[1..], m, b - 1);
    }
  }

  lemma {:induction false} FirstIndexOfFound(ws: seq<nat>, m: nat, k: nat)
    requires k < |ws| && ws[k] == m
    ensures FirstIndexOf(ws, m) <= k
    ensures ws[FirstIndexOf(ws, m)] == m
    ensures forall j :: 0 <= j < FirstIndexOf(ws, m) ==> ws[j] != m
  {
    if ws[0] != m {
      FirstIndexOfFound(ws[1..], m, k - 1);
    }
  }

  lemma {:induction false} MaxIsUpperBound(ws: seq<nat>)
    ensures forall j :: 0 <= j < |ws| ==> ws[j] <= Max(ws)
    ensures Max(ws) > 0 ==> exists j :: 0 <= j < |ws| && ws[j] == Max(ws)
    ensures Max(ws) <= Sum(ws)
  {
    if ws != [] {
      var init := ws[..|ws| - 1];
      MaxIsUpperBound(init);
      assert forall j :: 0 <= j < |init| ==> ws[j] == init[j];
    }
  }

  lemma MaxAttained(ws: seq<nat>)
    requires Max(ws) > 0
    ensures FirstIndexOf(ws, Max(ws)) < |ws|
  {
    MaxIsUpperBound(ws);
    var k :| 0 <= k < |ws| && ws[k] == Max(ws);
    FirstIndexOfFound(ws, Max(ws), k);
  }

  /**
   * The chosen index is the first maximum: every weight is at most its weight,
   * every earlier one is strictly smaller; with all weights 0 it is `Other`.
   */
  lemma BestIndexIsFirstMaximum(ws: seq<nat>)
    requires |ws| == |Categories|
    ensures var b := BestIndex(ws);
      && b < |Categories|
      && (forall j :: 0 <= j < |ws| ==> ws[j] <= ws[b] || (Max(ws) == 0 && b == OtherIndex))
      && (Max(ws) > 0 ==> ws[b] == Max(ws) && forall j :: 0 <= j < b ==> ws[j] < ws[b])
      && (Max(ws) == 0 <==> forall j :: 0 <= j < |ws| ==> ws[j] == 0)
  {
    MaxIsUpperBound(ws);
    if Max(ws) > 0 {
      var k :| 0 <= k < |ws| && ws[k] == Max(ws);
      FirstIndexOfFound(ws, Max(ws), k);
    }
  }

  // ---------------------------------------------------------------- properties

  /** Each weight counts the category's keywords found in the search text; `Other` has none. */
  lemma {:induction false} WeightCountsMatches(text: string, i: nat)
    requires i < |Categories|
    ensures Weights(text)[i] == |Matched(Keywords(Categories[i]), text)|
    ensures Weights(text)[OtherIndex] == 0
  {
    HitsCountMatches(Keywords(Categories[i]), text);
  }

  lemma {:induction false} HitsCountMatches(keywords: seq<string>, text: string)
    ensures Hits(keywords, text) == |Matched(keywords, text)|
  {
    if keywords != [] {
      HitsCountMatches(keywords[..|keywords| - 1], text);
    }
  }

  /**
   * The classification picks the first category, in declaration order, with
   * the largest weight; it is `Other` exactly when no keyword matched.
   */
  lemma ClassificationIsFirstMaximum(repo: Repo)
    ensures var c := Classification(repo);
      var b := BestIndex(c.weights);
      && c.category == Categories[b]
      && (forall j :: 0 <= j < |Categories| ==> c.weights[j] <= c.weights[b] || c.category == Other)
      && (c.category != Other ==> forall j :: 0 <= j < b ==> c.weights[j] < c.weights[b])
      && (c.category == Other <==> forall j :: 0 <= j < |Categories| ==> c.weights[j] == 0)
  {
    var ws := Weights(SearchText(repo));
    BestIndexIsFirstMaximum(ws);
    WeightCountsMatches(SearchText(repo), 0);
    OnlyLastIsOther();
  }

  lemma OnlyLastIsOther()
    ensures forall i :: 0 <= i < |Categories| ==> (Categories[i] == Other <==> i == OtherIndex)
  {
  }

  /** Confidence lies in [0, 100] and is 0 exactly when no keyword of any category matched. */
  lemma ConfidenceBounds(repo: Repo)
    ensures var c := Classification(repo);
      && 0.0 <= c.confidence <= 100.0
      && (c.confidence == 0.0 <==> Sum(c.weights) == 0)
  {
    var c := Classification(repo);
    assert c.confidence == Confidence(c.weights);
    ConfidenceRange(c.weights);
  }

  /** The share of the largest weight in the total, as a percentage, is 0 only when nothing matched. */
  lemma ConfidenceRange(ws: seq<nat>)
    ensures 0.0 <= Confidence(ws) <= 100.0
    ensures Confidence(ws) == 0.0 <==> Sum(ws) == 0
  {
    var total := Sum(ws);
    if total > 0 {
      MaxIsUpperBound(ws);
      SumPositiveHasPositive(ws);
      PercentOfWhole(Max(ws), total);
    }
  }

  /** A positive part of a whole is a percentage in (0, 100]. */
  lemma PercentOfWhole(part: nat, whole: nat)
    requires 0 < part <= whole
    ensures 0.0 < (part as real / whole as real) * 100.0 <= 100.0
  {
    var p, w := part as real, whole as real;
    var q := p / w;
    assert q * w == p;
    assert 0.0 < q <= 1.0;
  }

  lemma {:induction false} SumPositiveHasPositive(ws: seq<nat>)
    requires Sum(ws) > 0
    ensures Max(ws) > 0
  {
    var init := ws[..|ws| - 1];
    if ws[|ws| - 1] == 0 {
      SumPositiveHasPositive(init);
    }
  }

  /**
   * When the description is not `null`, the reasoning and the weights read the
   * same text: the matched-keyword list behind the reasoning has exactly as
   * many entries as the winning weight, and the reasoning shows the first
   * three of them. Its keyword sentence is there, in first place, exactly
   * when some keyword matched.
   */
  lemma ReasoningMatchesWeight(repo: Repo)
    requires !repo.description.Null?
    ensures var c := Classification(repo);
      |Matched(Keywords(c.category), ReasoningText(repo))| == Max(c.weights)
    ensures var c := Classification(repo);
      |Take(Matched(Keywords(c.category), ReasoningText(repo)), 3)| == (if Max(c.weights) < 3 then Max(c.weights) else 3)
    ensures var c := Classification(repo);
      Max(c.weights) > 0 ==>
        Reasons(c.category, repo)[0] == KeywordsLead + Join(Take(Matched(Keywords(c.category), ReasoningText(repo)), 3), ", ")
    ensures var c := Classification(repo);
      Max(c.weights) == 0 ==> forall s :: s in Reasons(c.category, repo) ==> !OpensWithKeywords(s)
  {
    var c := Classification(repo);
    var ws := Weights(SearchText(repo));
    var b := BestIndex(ws);
    assert ReasoningText(repo) == SearchText(repo);
    WeightCountsMatches(SearchText(repo), b);
    BestIndexIsFirstMaximum(ws);
    if Max(c.weights) == 0 {
      forall s | s in Reasons(c.category, repo)
        ensures !OpensWithKeywords(s)
      {
        assert s[0] == 'P' || s[0] == 'T';
      }
    }
  }

  // ---------------------------------------------------------------- scores

  /** Why a score function throws: `null.toLowerCase()` or `null.length`. */
  datatype ScoreError = NullDescription

  /** The description a score function works on: the `= ''` default covers only a missing field. */
  function ScoreDescription(d: Description): (r: Result<string, ScoreError>)
    ensures r.Failure? <==> d.Null?
  {
    match d
    case Undefined => Success("")
    case Null => Failure(NullDescription)
    case Given(s) => Success(s)
  }

  function ClampInt(x: int, lo: int, hi: int): int
  {
    if x > hi then hi else if x < lo then lo else x
  }

  /** Some keyword occurs in the text (`keywords.some(kw => text.includes(kw))`). */
  function AnyIncluded(text: string, keywords: seq<string>): bool
  {
    exists k :: k in keywords && Includes(text, k)
  }

  const ComplexLanguages: seq<string> := ["C++", "Rust", "Go", "Java", "Scala", "Haskell"]
  const ComplexKeywords: seq<string> := ["distributed", "microservice", "architecture", "enterprise", "kubernetes", "cluster"]

  /** `calculateComplexityScore`. */
  function ComplexityScore(repo: Repo): (r: Result<int, ScoreError>)
    ensures r.Failure? <==> repo.description.Null?
    ensures r.Success? ==> 1 <= r.value <= 8
  {
    match ScoreDescription(repo.description)
    case Failure(e) => Failure(e)
    case Success(description) =>
      var size := if repo.sizeKb > 100000 then 3 else if repo.sizeKb > 50000 then 2
                  else if repo.sizeKb > 10000 then 1 else 0;
      var language := if repo.primaryLanguage.Some? && repo.primaryLanguage.value in ComplexLanguages then 2 else 0;
      var architecture := if AnyIncluded(Lower(description), ComplexKeywords) then 2 else 0;
      Success(ClampInt(1 + size + language + architecture, 1, 10))
  }

  /** The base install difficulty of a language; 3 when it is not in the table (names of inherited object properties are not modelled). */
  function LanguageDifficulty(language: Option<string>): (d: int)
    ensures 2 <= d <= 8
  {
    if language.None? then 3
    else match language.value
      case "JavaScript" => 2
      case "TypeScript" => 2
      case "Python" => 2
      case "Go" => 4
      case "Rust" => 7
      case "C++" => 8
      case "C" => 8
      case "Java" => 5
      case "Swift" => 4
      case "Kotlin" => 4
      case _ => 3
  }

  const SystemDependencies: seq<string> := ["docker", "kubernetes", "postgres", "mongodb", "redis"]

  /** `estimateInstallDifficulty`. */
  function InstallDifficulty(repo: Repo): (r: Result<int, ScoreError>)
    ensures r.Failure? <==> repo.description.Null?
    ensures r.Success? ==> 2 <= r.value <= 10
  {
    match ScoreDescription(repo.description)
    case Failure(e) => Failure(e)
    case Success(description) =>
      var base := LanguageDifficulty(repo.primaryLanguage);
      var system := if AnyIncluded(Lower(description), SystemDependencies) then 2 else 0;
      var build := if "build-tool" in repo.topics || "compiler" in repo.topics then 1 else 0;
      Success(ClampInt(base + system + build, 1, 10))
  }

  /**
   * `Math.round(complexity * 2 * (install / 5))`: the product is a multiple of
   * 1/5, never half-way between integers, so rounding is `(2ci + 2) div 5`.
   */
  function DebugTime(repo: Repo): (r: Result<int, ScoreError>)
    ensures r.Failure? <==> repo.description.Null?
    ensures r.Success? ==>
      var c := ComplexityScore(repo).value;
      var i := InstallDifficulty(repo).value;
      && 1 <= r.value <= 32
      && 5 * r.value - 2 <= 2 * c * i <= 5 * r.value + 2
  {
    match ComplexityScore(repo)
    case Failure(e) => Failure(e)
    case Success(c) =>
      var i := InstallDifficulty(repo).value;
      assert 2 * c * i <= 2 * 8 * i <= 160 by {
        assert 2 * c * i <= 2 * 8 * i;
      }
      Success((2 * c * i + 2) / 5)
  }

  const AdvancedTopics: seq<string> := ["machine-learning", "deep-learning", "blockchain", "cryptography", "distributed-systems"]

  /** `estimateLearningCurve`. */
  function LearningCurve(repo: Repo): (r: Result<int, ScoreError>)
    ensures r.Failure? <==> repo.description.Null?
    ensures r.Success? ==> 3 <= r.value <= 9
  {
    match ScoreDescription(repo.description)
    case Failure(e) => Failure(e)
    case Success(description) =>
      var size := if repo.sizeKb > 50000 then 2 else if repo.sizeKb > 10000 then 1 else 0;
      var brief := if |description| < 50 then 1 else 0;
      var advanced := if exists t :: t in repo.topics && t in AdvancedTopics then 3 else 0;
      Success(ClampInt(3 + size + brief + advanced, 1, 10))
  }

  /** Days since the last push; a missing `pushed_at` counts as 365. */
  function DaysSinceUpdate(repo: Repo): real
  {
    if repo.daysSincePush.Some? then repo.daysSincePush.value else 365.0
  }

  /** `estimateMaintenanceLoad`. */
  function MaintenanceLoad(repo: Repo): (r: int)
    ensures 2 <= r <= 9
  {
    var issues := if repo.openIssues > 100 then 3 else if repo.openIssues > 50 then 2
                  else if repo.openIssues > 10 then 1 else 0;
    var community := if repo.watchers > 1000 then 2 else if repo.watchers > 100 then 1 else 0;
    var days := DaysSinceUpdate(repo);
    var activity := if days < 7.0 then 2 else if days < 30.0 then 1 else 0;
    ClampInt(2 + issues + community + activity, 1, 10)
  }

  function MinReal(a: real, b: real): real { if a <= b then a else b }
  function MaxReal(a: real, b: real): real { if a >= b then a else b }

  /**
   * `calculateVibeScore` before its 2-decimal rounding. `log10StarsPlus1` is
   * `Math.log10(stars + 1)`, the one transcendental input.
   */
  function VibeScore(repo: Repo, log10StarsPlus1: real): (r: real)
    ensures 0.0 <= r <= 100.0
  {
    var popularity := MinReal(50.0, log10StarsPlus1 * 10.0);
    var activity := MaxReal(0.0, 30.0 - DaysSinceUpdate(repo) / 10.0);
    var engagement := if repo.stars > 0 then MinReal(20.0, (repo.forksCount as real / repo.stars as real) * 100.0) else 0.0;
    MinReal(100.0, MaxReal(0.0, popularity + activity + engagement))
  }

  // ---------------------------------------------------------------- analysis

  /** The record `analyzeRepository` returns; the category weights are not part of it. */
  datatype Analysis = Analysis(
    category: Category,
    vibeScore: real,
    complexityScore: int,
    installDifficulty: int,
    debugTimeHours: int,
    learningCurve: int,
    maintenanceLoad: int,
    confidence: real,
    reasoning: string)

  /** The ranges every analysis keeps. */
  predicate InRange(a: Analysis)
  {
    && 0.0 <= a.vibeScore <= 100.0
    && 1 <= a.complexityScore <= 8
    && 2 <= a.installDifficulty <= 10
    && 1 <= a.debugTimeHours <= 32
    && 3 <= a.learningCurve <= 9
    && 2 <= a.maintenanceLoad <= 9
    && 0.0 <= a.confidence <= 100.0
  }

  /**
   * `analyzeRepository` as written: it throws (here: `Failure`) exactly when
   * the description is `null`; otherwise every score is in range and the
   * category, confidence and reasoning are the classification's.
   */
  function AnalyzeRepository(repo: Repo, log10StarsPlus1: real): (r: Result<Analysis, ScoreError>)
    ensures r.Failure? <==> repo.description.Null?
    ensures r.Success? ==> InRange(r.value)
    ensures r.Success? ==>
      var c := Classification(repo);
      r.value.category == c.category && r.value.confidence == c.confidence && r.value.reasoning == c.reasoning
  {
    var c := Classification(repo);
    ConfidenceBounds(repo);
    if repo.description.Null? then Failure(NullDescription)
    else
      Success(Analysis(
        c.category,
        VibeScore(repo, log10StarsPlus1),
        ComplexityScore(repo).value,
        InstallDifficulty(repo).value,
        DebugTime(repo).value,
        LearningCurve(repo).value,
        MaintenanceLoad(repo),
        c.confidence,
        c.reasoning))
  }

  /** A repository as the hosting API lists it when it has no description. */
  lemma NullDescriptionAbortsAnalysis(log10StarsPlus1: real)
    ensures AnalyzeRepository(Repo("dotfiles", Null, [], Some("Shell"), 120, 0, 0, 0, 0, Some(2.0)), log10StarsPlus1).Failure?
  {
  }

  /** The reading the default `description = ''` intends: a `null` description is treated like an absent one. */
  function WithoutNull(repo: Repo): Repo
  {
    if repo.description.Null? then repo.(description := Undefined) else repo
  }

  /**
   * `analyzeRepository` as intended: total, every score in range, and equal to
   * the as-written analysis on every repository whose description is not `null`.
   */
  function AnalyzeRepositoryNullSafe(repo: Repo, log10StarsPlus1: real): (a: Analysis)
    ensures InRange(a)
    ensures !repo.description.Null? ==> AnalyzeRepository(repo, log10StarsPlus1) == Success(a)
    ensures repo.description.Null? ==> a.category == Classification(repo.(description := Undefined)).category
  {
    AnalyzeRepository(WithoutNull(repo), log10StarsPlus1).value
  }

  // ---------------------------------------------------------------- score lemmas

  /** A larger repository never has a lower complexity score. */
  lemma ComplexityMonotoneInSize(repo: Repo, biggerKb: int)
    requires !repo.description.Null? && biggerKb >= repo.sizeKb
    ensures ComplexityScore(repo).value <= ComplexityScore(repo.(sizeKb := biggerKb)).value
  {
  }

  /** The install clamp is reached: a C++ project needing Docker and tagged `compiler` sums to 11. */
  lemma InstallDifficultyClampReached()
    ensures InstallDifficulty(Repo("gcc-docker", Given("docker"), ["compiler"], Some("C++"), 0, 0, 0, 0, 0, None)).value == 10
  {
    assert Includes(Lower("docker"), "docker");
    assert AnyIncluded(Lower("docker"), SystemDependencies);
  }

  /** Without a push date there is no activity bonus, whatever the other inputs. */
  lemma MissingPushHasNoActivityBonus(repo: Repo)
    requires repo.daysSincePush.None?
    ensures MaintenanceLoad(repo) == MaintenanceLoad(repo.(daysSincePush := Some(30.0)))
  {
  }

  /**
   * Without a star count (the sync path never passes `stars`), popularity and
   * engagement vanish and the vibe score is the activity component alone.
   */
  lemma VibeWithoutStars(repo: Repo)
    requires repo.stars == 0 && DaysSinceUpdate(repo) >= 0.0
    ensures VibeScore(repo, 0.0) == MaxReal(0.0, 30.0 - DaysSinceUpdate(repo) / 10.0)
    ensures VibeScore(repo, 0.0) <= 30.0
  {
  }
}
