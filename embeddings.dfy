/**
 * The structure of the embedding synthesizer of server/services/embeddings.js:
 * `clamp`, `safeNumber`, `hashString`, the priority map, the layout of the
 * feature palette, and the 1536-entry vector that cycles through it. The
 * trigonometric mix of a feature into one entry (`mixSignals`) and `Math.log10`
 * are parameters.
 */
module Embeddings {

  import opened Wrappers
  import opened Js
  import opened Text

  const VectorDimension: nat := 1536
  const EmbeddingModel: string := "ontology-hybrid/1"

  function MinReal(a: real, b: real): real { if a <= b then a else b }
  function MaxReal(a: real, b: real): real { if a >= b then a else b }

  /** `clamp(value, min, max)`: non-finite input gives `min`. */
  function Clamp(value: Num, lo: real, hi: real): (r: real)
    ensures lo <= hi ==> lo <= r <= hi
    ensures !IsFinite(value) ==> r == lo
    ensures IsFinite(value) && lo <= value.r <= hi ==> r == value.r
  {
    if value.Finite? then MinReal(hi, MaxReal(lo, value.r)) else lo
  }

  /** `safeNumber(value)`: `Number(value)` when finite, otherwise 0. */
  function SafeNumber(v: Value, ofString: string -> Num): (r: real)
    ensures IsFinite(ToNumber(v, ofString)) ==> r == ToNumber(v, ofString).r
    ensures !IsFinite(ToNumber(v, ofString)) ==> r == 0.0
  {
    var n := ToNumber(v, ofString);
    if n.Finite? then n.r else 0.0
  }

  /** The sum of the character codes of a string. */
  function CharSum(s: string): nat
  {
    if s == [] then 0 else CharSum(s[..|s| - 1]) + s[|s| - 1] as nat
  }

  /** The character-code sum of a concatenation is the sum of the parts' sums. */
  lemma {:induction false} CharSumConcat(a: string, b: string)
    ensures CharSum(a + b) == CharSum(a) + CharSum(b)
  {
    if b != [] {
      assert (a + b)[..|a + b| - 1] == a + b[..|b| - 1];
      assert (a + b)[|a + b| - 1] == b[|b| - 1];
      CharSumConcat(a, b[..|b| - 1]);
    } else {
      assert a + b == a;
    }
  }

  /** `hashString(value)`: the character-code sum divided by 1000. */
  function HashString(s: string): (h: real)
    ensures h >= 0.0
  {
    CharSum(s) as real / 1000.0
  }

  /** A feature's phase in whole degrees: its name's character-code sum mod 360 (the code converts to radians). */
  function PhaseDegrees(name: string): (d: nat)
    ensures d < 360
  {
    CharSum(name) % 360
  }

  /** `logNormalize(value)` with the default 6 decades; `log10` stands for `Math.log10`. */
  function LogNormalize(value: real, log10: real -> real): real
  {
    log10(MaxReal(value + 1.0, 1.0)) / 6.0
  }

  /**
   * The keys an object literal inherits that a lower-cased string can name.
   * Looking them up gives a function or the prototype object, which `??`
   * keeps and `Number` turns into NaN.
   */
  const InheritedKeys: seq<string> := ["constructor", "__proto__"]

  /** The priority table, keyed by the lower-cased string; a missing key reads as 0.4. */
  function PriorityOf(key: string): Num
  {
    match key
    case "high" => Finite(1.0)
    case "medium" => Finite(0.5)
    case "low" => Finite(0.2)
    case "constructor" => NaN
    case "__proto__" => NaN
    case _ => Finite(0.4)
  }

  /** The `priority` feature before clamping: strings go through the table, anything else is 0.4. */
  function Priority(p: Value): Num
  {
    if p.Str? then PriorityOf(Lower(p.s)) else Finite(0.4)
  }

  /**
   * The table is read case-insensitively; unknown strings and non-strings
   * get 0.4, and a name of an inherited property clamps to 0.
   */
  lemma PriorityCaseInsensitive(s: string)
    ensures Priority(Str(s)) == Priority(Str(Lower(s))) == Priority(Str(Upper(s)))
    ensures Priority(Str(s)) == Finite(1.0) <==> Lower(s) == "high"
    ensures Priority(Str(s)) == Finite(0.5) <==> Lower(s) == "medium"
    ensures Priority(Str(s)) == Finite(0.2) <==> Lower(s) == "low"
    ensures Priority(Str(s)) == Finite(0.4) <==> Lower(s) !in ["high", "medium", "low"] + InheritedKeys
    ensures Lower(s) in InheritedKeys ==> Unit(Priority(Str(s))) == Finite(0.0)
  {
    LowerForgetsCase(s);
  }

  // ---------------------------------------------------------------- inputs

  /** The repository fields the palette reads; numbers and flags are untyped JavaScript values. */
  datatype FeatureRepo = FeatureRepo(
    stargazersCount: Value, stars: Value,
    forksCount: Value, forks: Value,
    watchersCount: Value, watchers: Value,
    size: Value, sizeKb: Value,
    category: Option<string>,
    language: Option<string>,
    topics: Option<seq<string>>,
    priority: Value,
    isFork: Value)

  /**
   * The analysis fields the palette reads. `weights` lists the entries of
   * `analysis.weights` in enumeration order; it is empty when the field is absent.
   */
  datatype FeatureAnalysis = FeatureAnalysis(
    category: Option<string>,
    vibeScore: Value,
    complexityScore: Value,
    installDifficulty: Value,
    debugTimeHours: Value,
    learningCurve: Value,
    maintenanceLoad: Value,
    confidence: Value,
    weights: seq<(string, Value)>)

  /** A feature before `phase` and `index` are attached. */
  datatype Entry = Entry(name: string, value: Num, weight: real)

  datatype Feature = Feature(name: string, value: Num, weight: real, phaseDegrees: nat, index: nat)

  const BaseLabels: seq<string> := [
    "stars", "forks", "watchers", "size", "vibe", "complexity", "install", "debug",
    "learning", "maintenance", "confidence", "priority", "topic_count", "category_hash",
    "language_hash", "is_fork"]

  const BaseWeights: seq<real> := [
    1.1, 0.95, 0.8, 0.7, 1.0, 0.9, 0.6, 0.45, 0.5, 0.5, 0.35, 0.4, 0.35, 0.3, 0.3, 0.2]

  /** `clamp(x)` with the default bounds [0, 1], as a JavaScript number. */
  function Unit(x: Num): (r: Num)
    ensures r.Finite? && 0.0 <= r.r <= 1.0
  {
    Finite(Clamp(x, 0.0, 1.0))
  }

  /** The first 15 base features before `clamp`, in table order. */
  function RawValues(repo: FeatureRepo, analysis: FeatureAnalysis, ofString: string -> Num, log10: real -> real): (xs: seq<Num>)
    ensures |xs| == |BaseLabels| - 1
  {
    var stars := SafeNumber(Or(repo.stargazersCount, repo.stars), ofString);
    var forks := SafeNumber(Or(repo.forksCount, repo.forks), ofString);
    var watchers := SafeNumber(Or(repo.watchersCount, repo.watchers), ofString);
    var size := SafeNumber(Or(repo.size, repo.sizeKb), ofString);
    var category := if OptStrTruthy(repo.category) then repo.category.value
                    else if OptStrTruthy(analysis.category) then analysis.category.value
                    else "other";
    var language := if OptStrTruthy(repo.language) then repo.language.value else "unknown";
    var topicCount := if repo.topics.Some? then |repo.topics.value| else 0;
    [ Finite(LogNormalize(stars, log10)),
      Finite(LogNormalize(forks, log10)),
      Finite(LogNormalize(watchers, log10)),
      Finite(LogNormalize(size, log10)),
      Finite(SafeNumber(analysis.vibeScore, ofString) / 100.0),
      Finite(SafeNumber(analysis.complexityScore, ofString) / 10.0),
      Finite(SafeNumber(analysis.installDifficulty, ofString) / 10.0),
      Finite(SafeNumber(analysis.debugTimeHours, ofString) / 40.0),
      Finite(SafeNumber(analysis.learningCurve, ofString) / 10.0),
      Finite(SafeNumber(analysis.maintenanceLoad, ofString) / 10.0),
      Finite(SafeNumber(analysis.confidence, ofString) / 100.0),
      Priority(repo.priority),
      Finite(topicCount as real / 20.0),
      Finite(HashString(category)),
      Finite(HashString(language)) ]
  }

  /** The values of the 16 base features, in table order: the first 15 clamped, then `is_fork` as 0 or 1. */
  function BaseValues(repo: FeatureRepo, analysis: FeatureAnalysis, ofString: string -> Num, log10: real -> real): (vs: seq<Num>)
    ensures |vs| == |BaseLabels|
  {
    var raw := RawValues(repo, analysis, ofString, log10);
    seq(|raw|, i requires 0 <= i < |raw| => Unit(raw[i])) + [Finite(if Truthy(repo.isFork) then 1.0 else 0.0)]
  }

  /** The base features followed by one `cat_<name>` feature per category weight. */
  function Entries(repo: FeatureRepo, analysis: FeatureAnalysis, ofString: string -> Num, log10: real -> real): (es: seq<Entry>)
    ensures |es| == |BaseLabels| + |analysis.weights|
  {
    var values := BaseValues(repo, analysis, ofString, log10);
    var ws := analysis.weights;
    seq(|BaseLabels|, i requires 0 <= i < |BaseLabels| => Entry(BaseLabels[i], values[i], BaseWeights[i]))
    + seq(|ws|, k requires 0 <= k < |ws| => Entry("cat_" + ws[k].0, Unit(DivideBy(ToNumber(ws[k].1, ofString), 5.0)), 0.25))
  }

  /** Attach `phase` and `index` (the position) to every entry. */
  function Indexed(es: seq<Entry>): (fs: seq<Feature>)
    ensures |fs| == |es|
  {
    seq(|es|, i requires 0 <= i < |es| => Feature(es[i].name, es[i].value, es[i].weight, PhaseDegrees(es[i].name), i))
  }

  /** `.filter((feature) => Number.isFinite(feature.value))`. */
  function KeepFinite(fs: seq<Feature>): (r: seq<Feature>)
    ensures forall f :: f in r ==> f in fs && IsFinite(f.value)
  {
    if fs == [] then []
    else if IsFinite(fs[0].value) then [fs[0]] + KeepFinite(fs[1..])
    else KeepFinite(fs[1..])
  }

  lemma {:induction false} KeepFiniteKeepsFinite(fs: seq<Feature>)
    requires forall i :: 0 <= i < |fs| ==> IsFinite(fs[i].value)
    ensures KeepFinite(fs) == fs
  {
    if fs != [] {
      KeepFiniteKeepsFinite(fs[1..]);
    }
  }

  /** `buildFeaturePalette(repo, analysis)`. */
  function BuildFeaturePalette(repo: FeatureRepo, analysis: FeatureAnalysis, ofString: string -> Num, log10: real -> real): (r: seq<Feature>)
    ensures forall f :: f in r ==> IsFinite(f.value) && f in Indexed(Entries(repo, analysis, ofString, log10))
  {
    KeepFinite(Indexed(Entries(repo, analysis, ofString, log10)))
  }

  /** A feature value of the palette: a finite number in [0, 1]. */
  predicate InUnit(n: Num)
  {
    n.Finite? && 0.0 <= n.r <= 1.0
  }

  lemma BaseValuesInUnit(repo: FeatureRepo, analysis: FeatureAnalysis, ofString: string -> Num, log10: real -> real)
    ensures forall i :: 0 <= i < |BaseLabels| ==> InUnit(BaseValues(repo, analysis, ofString, log10)[i])
  {
    var values := BaseValues(repo, analysis, ofString, log10);
    var raw := RawValues(repo, analysis, ofString, log10);
    forall i | 0 <= i < |BaseLabels|
      ensures InUnit(values[i])
    {
      if i < |raw| {
        assert values[i] == Unit(raw[i]);
      }
    }
  }

  lemma EntriesLayout(repo: FeatureRepo, analysis: FeatureAnalysis, ofString: string -> Num, log10: real -> real)
    ensures var es := Entries(repo, analysis, ofString, log10);
      && (forall i :: 0 <= i < |es| ==> InUnit(es[i].value))
      && (forall i :: 0 <= i < |BaseLabels| ==> es[i].name == BaseLabels[i] && es[i].weight == BaseWeights[i])
      && (forall k :: 0 <= k < |analysis.weights| ==>
            es[|BaseLabels| + k].name == "cat_" + analysis.weights[k].0 && es[|BaseLabels| + k].weight == 0.25)
  {
    BaseValuesInUnit(repo, analysis, ofString, log10);
  }

  /**
   * The palette holds the 16 base features in table order followed by one
   * `cat_<name>` feature (weight 0.25) per category weight. Every value is a
   * finite number in [0, 1], so the finiteness filter drops nothing and each
   * feature's `index` is its position.
   */
  lemma PaletteLayout(repo: FeatureRepo, analysis: FeatureAnalysis, ofString: string -> Num, log10: real -> real)
    ensures var p := BuildFeaturePalette(repo, analysis, ofString, log10);
      && |p| == |BaseLabels| + |analysis.weights|
      && (forall i :: 0 <= i < |p| ==>
            p[i].index == i && InUnit(p[i].value) && p[i].phaseDegrees == PhaseDegrees(p[i].name))
      && (forall i :: 0 <= i < |BaseLabels| ==> p[i].name == BaseLabels[i] && p[i].weight == BaseWeights[i])
      && (forall k :: 0 <= k < |analysis.weights| ==>
            p[|BaseLabels| + k].name == "cat_" + analysis.weights[k].0 && p[|BaseLabels| + k].weight == 0.25)
  {
    var es := Entries(repo, analysis, ofString, log10);
    EntriesLayout(repo, analysis, ofString, log10);
    var fs := Indexed(es);
    assert forall i :: 0 <= i < |fs| ==> fs[i].value == es[i].value;
    KeepFiniteKeepsFinite(fs);
    assert BuildFeaturePalette(repo, analysis, ofString, log10) == fs;
  }

  // ---------------------------------------------------------------- vector

  /**
   * The embedding: entry `i` mixes feature `i mod n` of the `n` features; no
   * features give the zero vector. `mix` stands for `mixSignals`.
   */
  function EmbeddingVector(features: seq<Feature>, mix: (Feature, nat) -> Num): (v: seq<Num>)
    ensures |v| == VectorDimension
  {
    if |features| == 0 then seq(VectorDimension, _ => Finite(0.0))
    else seq(VectorDimension, i requires 0 <= i < VectorDimension => mix(features[i % |features|], i))
  }

  /** `computeEmbeddingVector`: the palette of the repository, spread over a fresh vector. */
  method ComputeEmbeddingVector(
    repo: FeatureRepo, analysis: FeatureAnalysis,
    ofString: string -> Num, log10: real -> real, mix: (Feature, nat) -> Num)
    returns (vector: array<Num>)
    ensures fresh(vector)
    ensures vector[..] == EmbeddingVector(BuildFeaturePalette(repo, analysis, ofString, log10), mix)
  {
    var features := BuildFeaturePalette(repo, analysis, ofString, log10);
    vector := SynthesizeVector(features, mix);
  }

  /**
   * The body of `computeEmbeddingVector` after the palette is built: the zero
   * vector for no features, otherwise a fill loop over all 1536 positions.
   */
  method SynthesizeVector(features: seq<Feature>, mix: (Feature, nat) -> Num) returns (vector: array<Num>)
    ensures fresh(vector)
    ensures vector[..] == EmbeddingVector(features, mix)
  {
    if |features| == 0 {
      vector := new Num[VectorDimension](_ => Finite(0.0));
      return;
    }
    vector := new Num[VectorDimension];
    for i := 0 to VectorDimension
      invariant forall k :: 0 <= k < i ==> vector[k] == mix(features[k % |features|], k)
    {
      vector[i] := mix(features[i % |features|], i);
    }
  }

  /** Every feature survives the finiteness filter, so the palette has one feature per entry. */
  lemma PaletteSize(repo: FeatureRepo, analysis: FeatureAnalysis, ofString: string -> Num, log10: real -> real)
    ensures |BuildFeaturePalette(repo, analysis, ofString, log10)| == |BaseLabels| + |analysis.weights|
  {
    PaletteLayout(repo, analysis, ofString, log10);
  }

  /**
   * Every entry of the vector comes from a palette feature, chosen cyclically:
   * the palette is never empty, so the zero-vector branch is never taken, and
   * entries `i` and `i + n` mix the same feature.
   */
  lemma VectorCyclesThroughPalette(repo: FeatureRepo, analysis: FeatureAnalysis, ofString: string -> Num, log10: real -> real, mix: (Feature, nat) -> Num)
    ensures var p := BuildFeaturePalette(repo, analysis, ofString, log10);
      var v := EmbeddingVector(p, mix);
      && |p| >= 16
      && |v| == 1536
      && (forall i :: 0 <= i < VectorDimension ==> v[i] == mix(p[i % |p|], i) && p[i % |p|].index == i % |p|)
  {
    PaletteLayout(repo, analysis, ofString, log10);
  }
}
