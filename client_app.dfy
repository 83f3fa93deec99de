/**
 * The browser client's data helpers: SQL literals for the in-browser
 * analytics tables, colour parsing, the filter predicate, the filtered list
 * and its choice lists, the CSV download and the Kanban board's columns.
 */
module ClientApp {

  import opened Wrappers
  import opened Js
  import opened Text
  import Ontology

  // ---------------------------------------------------------------- SQL literals

  /**
   * `escapeSqlLiteral`: `NULL` for null/undefined, a finite number as itself,
   * `TRUE`/`FALSE` for booleans, and anything else as a single-quoted text
   * with every `'` doubled. Non-finite numbers are quoted as `NaN`,
   * `Infinity` and `-Infinity`; objects by their `String(...)` form `show`.
   */
  function EscapeSqlLiteral(v: Value, show: Value -> string): (r: Value)
    ensures v.Undefined? || v.Null? ==> r == Str("NULL")
    ensures v.Number? && IsFinite(v.n) ==> r == v
    ensures v.Bool? ==> r == Str(if v.b then "TRUE" else "FALSE")
    ensures v.Str? ==> r == Str(Quoted(v.s, '\''))
    ensures r.Number? <==> v.Number? && IsFinite(v.n)
  {
    match v
    case Undefined => Str("NULL")
    case Null => Str("NULL")
    case Bool(b) => Str(if b then "TRUE" else "FALSE")
    case Number(n) =>
      (match n
       case Finite(_) => v
       case NaN => Str(Quoted("NaN", '\''))
       case PosInfinity => Str(Quoted("Infinity", '\''))
       case NegInfinity => Str(Quoted("-Infinity", '\'')))
    case Str(s) => Str(Quoted(s, '\''))
    case Object(_) => Str(Quoted(show(v), '\''))
  }

  /**
   * An escaped string literal cannot be closed early by a quote inside it,
   * and reading it back (strip the quotes, un-double) gives the string.
   */
  lemma EscapedStringRoundTrip(s: string, show: Value -> string)
    ensures var t := EscapeSqlLiteral(Str(s), show).s;
      && |t| >= 2 && t[0] == '\'' && t[|t| - 1] == '\''
      && Paired(t[1..|t| - 1], '\'') && Undouble(t[1..|t| - 1], '\'') == s
  {
    QuotedRoundTrip(s, '\'');
  }

  /**
   * `numericLiteral`: `NULL` for null/undefined or when `Number(v)` is not
   * finite, otherwise that number. `ofString` is `Number` on strings.
   */
  function NumericLiteral(v: Value, ofString: string -> Num): (r: Value)
    ensures r == Str("NULL") || (r.Number? && IsFinite(r.n))
    ensures r == Str("NULL") <==> v.Undefined? || v.Null? || !IsFinite(ToNumber(v, ofString))
    ensures r.Number? ==> r.n == ToNumber(v, ofString)
  {
    if v.Undefined? || v.Null? then Str("NULL")
    else
      var parsed := ToNumber(v, ofString);
      if IsFinite(parsed) then Number(parsed) else Str("NULL")
  }

  // ---------------------------------------------------------------- colours

  /** An `rgba(...)` colour; a component `None` is the `NaN` that `parseInt` gives for no digits. */
  datatype Rgba = Rgba(red: Option<int>, green: Option<int>, blue: Option<int>, alpha: real)

  function White(alpha: real): Rgba
  {
    Rgba(Some(255), Some(255), Some(255), alpha)
  }

  /** `s.split('').map(c => c + c).join('')`: every character doubled in place. */
  function DoubleEach(s: string): (r: string)
    ensures |r| == 2 * |s|
    ensures forall i :: 0 <= i < |s| ==> r[2 * i] == s[i] && r[2 * i + 1] == s[i]
  {
    if s == [] then []
    else
      var rest := DoubleEach(s[1..]);
      assert forall i :: 1 <= i < |s| ==> rest[2 * (i - 1)] == s[i] && rest[2 * (i - 1) + 1] == s[i];
      [s[0], s[0]] + rest
  }

  /** The six digits `hexToRgba` reads: a 3-digit form is expanded, anything else is kept. */
  function Normalized(digits: string): string
  {
    if |digits| == 3 then DoubleEach(digits) else digits
  }

  /** The components read from the digit pairs at positions 0, 2 and 4. */
  function Components(normalized: string, alpha: real): Rgba
  {
    Rgba(ParseInt(Slice(normalized, 0, 2), 16), ParseInt(Slice(normalized, 2, 4), 16),
         ParseInt(Slice(normalized, 4, 6), 16), alpha)
  }

  /** The colour `hexToRgba` computes, as a function of its inputs. */
  function HexColor(hex: Option<string>, alpha: real): Rgba
  {
    if !OptStrTruthy(hex) || hex.value[0] != '#' then White(alpha)
    else Components(Normalized(hex.value[1..]), alpha)
  }

  /**
   * `hexToRgba`: white for a missing colour or one without a leading `#`;
   * otherwise the `#` is dropped, a 3-digit form has each digit doubled, and
   * the components are read from the digit pairs in radix 16.
   */
  method HexToRgba(hex: Option<string>, alpha: real) returns (c: Rgba)
    ensures c == HexColor(hex, alpha)
  {
    if !OptStrTruthy(hex) || hex.value[0] != '#' {
      return White(alpha);
    }
    var normalized := hex.value[1..];
    if |normalized| == 3 {
      normalized := DoubleEach(normalized);
    }
    var r := ParseInt(Slice(normalized, 0, 2), 16);
    var g := ParseInt(Slice(normalized, 2, 4), 16);
    var b := ParseInt(Slice(normalized, 4, 6), 16);
    c := Rgba(r, g, b, alpha);
  }

  /** A colour that is missing, empty or not `#`-prefixed falls back to white. */
  lemma NonHexIsWhite(hex: Option<string>, alpha: real)
    requires hex.None? || hex.value == "" || hex.value[0] != '#'
    ensures HexColor(hex, alpha) == White(alpha)
  {
  }

  /** The value of a two-digit hexadecimal pair. */
  function PairValue(s: string, i: nat): int
    requires i + 1 < |s|
  {
    16 * DigitValue(s[i]) + DigitValue(s[i + 1])
  }

  lemma TwoDigitValue(p: string)
    requires |p| == 2 && AllDigits(p, 16)
    ensures DigitsValue(p, 16) == 16 * DigitValue(p[0]) + DigitValue(p[1])
  {
    var q := p[..1];
    assert q == [p[0]] && q[..0] == [];
    assert AllDigits(q, 16) && AllDigits(q[..0], 16);
    assert DigitsValue(q[..0], 16) == 0;
    assert DigitsValue(q, 16) == DigitValue(p[0]);
  }

  /** Two hexadecimal digits are read as the byte they denote. */
  lemma ReadPair(p: string)
    requires |p| == 2 && AllDigits(p, 16)
    ensures ParseInt(p, 16) == Some(PairValue(p, 0))
    ensures 0 <= PairValue(p, 0) <= 255
  {
    var v := DigitsValue(p, 16);
    TwoDigitValue(p);
    assert v == PairValue(p, 0) && 0 <= v <= 255;
    ParseDigits(p, 16);
  }

  lemma ReadPairAt(s: string, i: nat, j: nat) returns (v: int)
    requires j == i + 2 && j <= |s| && AllDigits(s, 16)
    ensures ParseInt(Slice(s, i, j), 16) == Some(v) && v == PairValue(s, i)
    ensures 0 <= v <= 255
  {
    var p := Slice(s, i, j);
    assert p == s[i..j];
    assert p[0] == s[i] && p[1] == s[i + 1];
    ReadPair(p);
    v := PairValue(p, 0);
  }

  /** `#rrggbb` with hexadecimal digits gives each component from its pair, each in 0..255. */
  lemma SixDigitColour(s: string, alpha: real)
    requires |s| == 6 && AllDigits(s, 16)
    ensures HexColor(Some("#" + s), alpha) == Rgba(Some(PairValue(s, 0)), Some(PairValue(s, 2)), Some(PairValue(s, 4)), alpha)
    ensures 0 <= PairValue(s, 0) <= 255 && 0 <= PairValue(s, 2) <= 255 && 0 <= PairValue(s, 4) <= 255
  {
    assert ("#" + s)[1..] == s;
    assert Normalized(s) == s;
    PairsRead(s, alpha);
  }

  lemma PairsRead(s: string, alpha: real)
    requires |s| == 6 && AllDigits(s, 16)
    ensures Components(s, alpha) == Rgba(Some(PairValue(s, 0)), Some(PairValue(s, 2)), Some(PairValue(s, 4)), alpha)
    ensures 0 <= PairValue(s, 0) <= 255 && 0 <= PairValue(s, 2) <= 255 && 0 <= PairValue(s, 4) <= 255
  {
    var r := ReadPairAt(s, 0, 2);
    var g := ReadPairAt(s, 2, 4);
    var b := ReadPairAt(s, 4, 6);
    assert Components(s, alpha) == Rgba(Some(r), Some(g), Some(b), alpha);
  }

  /** `#rgb` is the same colour as `#rrggbb`. */
  lemma ShortFormExpands(s: string, alpha: real)
    requires |s| == 3
    ensures HexColor(Some("#" + s), alpha) == HexColor(Some("#" + DoubleEach(s)), alpha)
  {
    var d := DoubleEach(s);
    assert Normalized(s) == d && Normalized(d) == d;
    HashPrefixed(s, alpha);
    HashPrefixed(d, alpha);
  }

  lemma HashPrefixed(d: string, alpha: real)
    ensures HexColor(Some("#" + d), alpha) == Components(Normalized(d), alpha)
  {
    var h := "#" + d;
    assert h[0] == '#' && h[1..] == d;
  }

  // ---------------------------------------------------------------- filter predicate

  /** A select box's value restricts the view unless it is empty or `all`. */
  predicate Restricts(choice: Option<string>)
  {
    OptStrTruthy(choice) && choice.value != "all"
  }

  function CategoryClause(category: string): string
  {
    "category = " + Quoted(category, '\'')
  }

  function LanguageClause(language: string): string
  {
    "language = " + Quoted(language, '\'')
  }

  /**
   * `buildFilterPredicate`: the clauses of the restricting choices, category
   * before language, joined by ` AND `; empty when neither restricts.
   */
  method BuildFilterPredicate(category: Option<string>, language: Option<string>) returns (predicate_: string)
    ensures predicate_ == "" <==> !Restricts(category) && !Restricts(language)
    ensures Restricts(category) && Restricts(language) ==>
              predicate_ == CategoryClause(category.value) + " AND " + LanguageClause(language.value)
    ensures Restricts(category) && !Restricts(language) ==> predicate_ == CategoryClause(category.value)
    ensures !Restricts(category) && Restricts(language) ==> predicate_ == LanguageClause(language.value)
  {
    var clauses: seq<string> := [];
    if Restricts(category) {
      assert EscapeSqlLiteral(Str(category.value), _ => "").s == Quoted(category.value, '\'');
      clauses := clauses + ["category = " + EscapeSqlLiteral(Str(category.value), _ => "").s];
    }
    if Restricts(language) {
      assert EscapeSqlLiteral(Str(language.value), _ => "").s == Quoted(language.value, '\'');
      clauses := clauses + ["language = " + EscapeSqlLiteral(Str(language.value), _ => "").s];
    }
    predicate_ := if |clauses| > 0 then Join(clauses, " AND ") else "";
    if |clauses| == 2 {
      assert Join(clauses, " AND ") == clauses[0] + " AND " + Join(clauses[1..], " AND ");
    }
  }

  // ---------------------------------------------------------------- filtered list

  /** A repository as the client holds it. */
  datatype ClientRepo = ClientRepo(
    name: string,
    description: Option<string>,
    category: Option<string>,
    language: Option<string>,
    stars: Value,
    forks: Value,
    vibeScore: Option<real>,
    complexityScore: Value,
    priority: Value)

  /** The search box matches the name or the description, ignoring case; an empty search matches all. */
  predicate MatchesSearch(repo: ClientRepo, search: string)
  {
    search == ""
    || Includes(Lower(repo.name), Lower(search))
    || Includes(Lower(if OptStrTruthy(repo.description) then repo.description.value else ""), Lower(search))
  }

  /** A select box matches its field exactly, and `all` matches every repository. */
  predicate MatchesChoice(field: Option<string>, selected: string)
  {
    selected == "all" || field == Some(selected)
  }

  predicate Matches(repo: ClientRepo, search: string, category: string, language: string)
  {
    MatchesSearch(repo, search) && MatchesChoice(repo.category, category) && MatchesChoice(repo.language, language)
  }

  /** The test of the `filteredRepos` memo, for one choice of the three filters. */
  function Keep(search: string, category: string, language: string): ClientRepo -> bool
  {
    repo => Matches(repo, search, category, language)
  }

  /** The `filteredRepos` memo: the repositories matching all three filters, in their order. */
  function FilterRepos(repos: seq<ClientRepo>, search: string, category: string, language: string): seq<ClientRepo>
  {
    Filter(repos, Keep(search, category, language))
  }

  /** A repository is shown iff it is in the list and matches all three filters; nothing is added. */
  lemma FilterMembership(repos: seq<ClientRepo>, search: string, category: string, language: string)
    ensures |FilterRepos(repos, search, category, language)| <= |repos|
    ensures forall x :: x in FilterRepos(repos, search, category, language) <==> x in repos && Matches(x, search, category, language)
  {
    FilterMembers(repos, Keep(search, category, language));
  }

  /** The search ignores the case of the search term: any casing of it matches the same repositories. */
  lemma SearchIgnoresCase(repo: ClientRepo, s: string)
    ensures MatchesSearch(repo, s) <==> MatchesSearch(repo, Upper(s))
    ensures MatchesSearch(repo, s) <==> MatchesSearch(repo, Lower(s))
  {
    LowerForgetsCase(s);
  }

  /** Filtering keeps order: it distributes over concatenation. */
  lemma FilterKeepsOrder(a: seq<ClientRepo>, b: seq<ClientRepo>, search: string, category: string, language: string)
    ensures FilterRepos(a + b, search, category, language)
         == FilterRepos(a, search, category, language) + FilterRepos(b, search, category, language)
  {
    FilterConcat(a, b, Keep(search, category, language));
  }

  lemma NoFilterShowsAll(repos: seq<ClientRepo>)
    ensures FilterRepos(repos, "", "all", "all") == repos
  {
    forall i | 0 <= i < |repos|
      ensures Keep("", "all", "all")(repos[i])
    {
      KeptWithoutFilter(repos[i]);
    }
    FilterKeepsAll(repos, Keep("", "all", "all"));
  }

  lemma KeptWithoutFilter(x: ClientRepo)
    ensures Matches(x, "", "all", "all")
  {
    assert MatchesSearch(x, "");
  }

  // ---------------------------------------------------------------- choice lists

  /** The non-empty values present, in order. */
  function Present(values: seq<Option<string>>): (r: seq<string>)
    ensures forall x :: x in r <==> x != "" && Some(x) in values
  {
    if values == [] then []
    else
      var init := Present(values[..|values| - 1]);
      var last := values[|values| - 1];
      assert values == values[..|values| - 1] + [last];
      if OptStrTruthy(last) then init + [last.value] else init
  }

  /** A sequence without repeats has every value at most once in its multiset. */
  lemma {:induction false} DistinctCount(s: seq<string>, x: string)
    requires forall i, j :: 0 <= i < j < |s| ==> s[i] != s[j]
    ensures multiset(s)[x] <= 1
  {
    if s != [] {
      var init := s[..|s| - 1];
      DistinctCount(init, x);
      assert s == init + [s[|s| - 1]];
      if s[|s| - 1] == x {
        assert x !in init;
      }
    }
  }

  /** A rearrangement of a sequence without repeats has no repeats. */
  lemma DistinctPermutation(a: seq<string>, b: seq<string>)
    requires multiset(a) == multiset(b)
    requires forall i, j :: 0 <= i < j < |a| ==> a[i] != a[j]
    ensures forall i, j :: 0 <= i < j < |b| ==> b[i] != b[j]
  {
    forall i, j | 0 <= i < j < |b|
      ensures b[i] != b[j]
    {
      if b[i] == b[j] {
        var x := b[i];
        assert b == b[..j] + [b[j]] + b[j + 1..];
        assert x in b[..j];
        assert multiset(b)[x] >= 2;
        DistinctCount(a, x);
      }
    }
  }

  /** `[...new Set(values.filter(Boolean))].sort()`: the distinct non-empty values, sorted. */
  function DistinctSorted(values: seq<Option<string>>): (r: seq<string>)
    ensures StrictlySorted(r)
    ensures forall x :: x in r <==> x != "" && Some(x) in values
  {
    var distinct := Dedup(Present(values));
    var r := Sort(distinct);
    assert forall x :: x in r <==> x in multiset(distinct);
    DistinctPermutation(distinct, r);
    SortedDistinctIsStrict(r);
    r
  }

  function CategoryOf(repos: seq<ClientRepo>): (r: seq<Option<string>>)
    ensures |r| == |repos| && forall i :: 0 <= i < |repos| ==> r[i] == repos[i].category
  {
    seq(|repos|, i requires 0 <= i < |repos| => repos[i].category)
  }

  function LanguageOf(repos: seq<ClientRepo>): (r: seq<Option<string>>)
    ensures |r| == |repos| && forall i :: 0 <= i < |repos| ==> r[i] == repos[i].language
  {
    seq(|repos|, i requires 0 <= i < |repos| => repos[i].language)
  }

  /** The `categories` memo: every non-empty category once, in ascending order. */
  function Categories(repos: seq<ClientRepo>): (r: seq<string>)
    ensures StrictlySorted(r)
    ensures forall x :: x in r <==> x != "" && exists i :: 0 <= i < |repos| && repos[i].category == Some(x)
  {
    var values := CategoryOf(repos);
    assert forall x :: Some(x) in values <==> exists i :: 0 <= i < |repos| && repos[i].category == Some(x);
    DistinctSorted(values)
  }

  /** The `languages` memo: every non-empty language once, in ascending order. */
  function Languages(repos: seq<ClientRepo>): (r: seq<string>)
    ensures StrictlySorted(r)
    ensures forall x :: x in r <==> x != "" && exists i :: 0 <= i < |repos| && repos[i].language == Some(x)
  {
    var values := LanguageOf(repos);
    assert forall x :: Some(x) in values <==> exists i :: 0 <= i < |repos| && repos[i].language == Some(x);
    DistinctSorted(values)
  }

  /** The category list depends only on which categories occur, not on the order or repetition of repositories. */
  lemma CategoriesDependOnlyOnValues(a: seq<ClientRepo>, b: seq<ClientRepo>)
    requires forall x :: (exists i :: 0 <= i < |a| && a[i].category == Some(x))
                     <==> (exists j :: 0 <= j < |b| && b[j].category == Some(x))
    ensures Categories(a) == Categories(b)
  {
    StrictlySortedUnique(Categories(a), Categories(b));
  }

  // ---------------------------------------------------------------- CSV download

  const CsvHeader: seq<string> :=
    ["Name", "Category", "Language", "Stars", "Forks", "Vibe Score", "Complexity", "Priority", "Description"]

  /**
   * The nine cells of one repository's line. `show` is `String(...)` on
   * numbers; `fixed1` is `toFixed(1)`.
   */
  function CsvRow(repo: ClientRepo, show: Value -> string, fixed1: real -> string): (r: seq<string>)
    ensures |r| == |CsvHeader|
    ensures r[0] == repo.name
    ensures r[2] == if OptStrTruthy(repo.language) then repo.language.value else "-"
    ensures r[8] == Quoted(if OptStrTruthy(repo.description) then repo.description.value else "", '"')
  {
    var vibe := if repo.vibeScore.Some? && fixed1(repo.vibeScore.value) != "" then fixed1(repo.vibeScore.value) else "-";
    [ repo.name,
      if repo.category.Some? then repo.category.value else "",
      if OptStrTruthy(repo.language) then repo.language.value else "-",
      JoinText(repo.stars, show),
      JoinText(Or(repo.forks, Number(Finite(0.0))), show),
      vibe,
      JoinText(Or(repo.complexityScore, Str("-")), show),
      JoinText(Or(repo.priority, Str("-")), show),
      Quoted(if OptStrTruthy(repo.description) then repo.description.value else "", '"') ]
  }

  /** The cells of `generateCSV`: the header, then one line per repository in order. */
  function CsvCells(repos: seq<ClientRepo>, show: Value -> string, fixed1: real -> string): (r: seq<seq<string>>)
    ensures |r| == |repos| + 1 && r[0] == CsvHeader
    ensures forall i :: 0 < i < |r| ==> r[i] == CsvRow(repos[i - 1], show, fixed1) && |r[i]| == |CsvHeader|
  {
    [CsvHeader] + seq(|repos|, i requires 0 <= i < |repos| => CsvRow(repos[i], show, fixed1))
  }

  /** `generateCSV`: cells joined by commas, lines by newlines. */
  function GenerateCsv(repos: seq<ClientRepo>, show: Value -> string, fixed1: real -> string): (r: string)
    ensures var header := Join(CsvHeader, ",");
      && |r| >= |header| && r[..|header|] == header
      && (repos != [] ==> |r| > |header| && r[|header|] == '\n')
  {
    var cells := CsvCells(repos, show, fixed1);
    JoinStartsWithFirst(seq(|cells|, i requires 0 <= i < |cells| => Join(cells[i], ",")), "\n");
    Join(seq(|cells|, i requires 0 <= i < |cells| => Join(cells[i], ",")), "\n")
  }

  /**
   * The description field follows rule 7 of section 2 of RFC 4180: it is
   * enclosed in double quotes, a quote inside is doubled, and reading the
   * field back gives the description (empty when there is none).
   */
  lemma DescriptionFieldRoundTrip(repo: ClientRepo, show: Value -> string, fixed1: real -> string)
    ensures var f := CsvRow(repo, show, fixed1)[8];
      && |f| >= 2 && f[0] == '"' && f[|f| - 1] == '"' && Paired(f[1..|f| - 1], '"')
      && Undouble(f[1..|f| - 1], '"') == (if OptStrTruthy(repo.description) then repo.description.value else "")
  {
    QuotedRoundTrip(if OptStrTruthy(repo.description) then repo.description.value else "", '"');
  }

  // ---------------------------------------------------------------- Kanban board

  const KanbanCategories: seq<string> :=
    ["Agent", "Foundation", "Tool", "Knowledge", "Infrastructure", "UI", "Data", "Other"]

  /** The board has one column per category the classifier can assign, in the classifier's order. */
  lemma KanbanMatchesClassifier()
    ensures |KanbanCategories| == |Ontology.Categories|
    ensures forall i :: 0 <= i < |KanbanCategories| ==> KanbanCategories[i] == Ontology.CategoryName(Ontology.Categories[i])
  {
  }

  /** `repos.filter(r => r.category === cat)`. */
  function Column(repos: seq<ClientRepo>, cat: string): (r: seq<ClientRepo>)
    ensures |r| <= |repos|
    ensures forall x :: x in r <==> x in repos && x.category == Some(cat)
  {
    if repos == [] then []
    else
      var init := Column(repos[..|repos| - 1], cat);
      var last := repos[|repos| - 1];
      assert repos == repos[..|repos| - 1] + [last];
      if last.category == Some(cat) then init + [last] else init
  }

  /** One more repository joins the end of its category's column and no other. */
  lemma ColumnAppend(repos: seq<ClientRepo>, x: ClientRepo, cat: string)
    ensures Column(repos + [x], cat) == Column(repos, cat) + (if x.category == Some(cat) then [x] else [])
  {
    assert (repos + [x])[..|repos|] == repos;
  }

  /** A column keeps the input order: the column of two runs is the first's column followed by the second's. */
  lemma {:induction false} ColumnConcat(a: seq<ClientRepo>, b: seq<ClientRepo>, cat: string)
    ensures Column(a + b, cat) == Column(a, cat) + Column(b, cat)
    decreases |b|
  {
    if b == [] {
      assert a + b == a;
    } else {
      var init := b[..|b| - 1];
      var last := b[|b| - 1];
      assert a + b == (a + init) + [last];
      assert b == init + [last];
      ColumnConcat(a, init, cat);
      ColumnAppend(a + init, last, cat);
      ColumnAppend(init, last, cat);
    }
  }

  /** The board's grouping: each Kanban category mapped to its column, filled one category at a time. */
  method GroupByCategory(repos: seq<ClientRepo>) returns (grouped: map<string, seq<ClientRepo>>)
    ensures grouped.Keys == set c | c in KanbanCategories
    ensures forall c :: c in KanbanCategories ==> grouped[c] == Column(repos, c)
  {
    grouped := map[];
    for k := 0 to |KanbanCategories|
      invariant grouped.Keys == set c | c in KanbanCategories[..k]
      invariant forall c :: c in grouped ==> grouped[c] == Column(repos, c)
    {
      assert KanbanCategories[..k + 1] == KanbanCategories[..k] + [KanbanCategories[k]];
      grouped := grouped[KanbanCategories[k] := Column(repos, KanbanCategories[k])];
    }
    assert KanbanCategories[..|KanbanCategories|] == KanbanCategories;
  }

  /** The number of columns among `cats` whose category is `category`. */
  function Placements(cats: seq<string>, category: Option<string>): nat
  {
    if cats == [] then 0 else (if category == Some(cats[0]) then 1 else 0) + Placements(cats[1..], category)
  }

  /** The total number of cards over the columns of `cats`. */
  function Cards(repos: seq<ClientRepo>, cats: seq<string>): nat
  {
    if cats == [] then 0 else |Column(repos, cats[0])| + Cards(repos, cats[1..])
  }

  /** The repositories whose category has a column among `cats`. */
  function OnBoard(repos: seq<ClientRepo>, cats: seq<string>): (r: seq<ClientRepo>)
  {
    if repos == [] then []
    else
      var init := OnBoard(repos[..|repos| - 1], cats);
      var last := repos[|repos| - 1];
      if last.category.Some? && last.category.value in cats then init + [last] else init
  }

  /** No two columns of the board share a category. */
  lemma KanbanDistinct()
    ensures forall i, j :: 0 <= i < j < |KanbanCategories| ==> KanbanCategories[i] != KanbanCategories[j]
  {
  }

  lemma {:induction false} CardsAppend(repos: seq<ClientRepo>, x: ClientRepo, cats: seq<string>)
    ensures Cards(repos + [x], cats) == Cards(repos, cats) + Placements(cats, x.category)
  {
    if cats != [] {
      CardsAppend(repos, x, cats[1..]);
      assert (repos + [x])[..|repos + [x]| - 1] == repos;
    }
  }

  /** A column list without repeats places a repository in one column exactly when its category is listed. */
  lemma {:induction false} PlacedOnce(cats: seq<string>, category: Option<string>)
    requires forall i, j :: 0 <= i < j < |cats| ==> cats[i] != cats[j]
    ensures Placements(cats, category) == if category.Some? && category.value in cats then 1 else 0
  {
    if cats != [] {
      PlacedOnce(cats[1..], category);
      if category == Some(cats[0]) {
        assert cats[0] !in cats[1..];
      }
      assert forall x :: x in cats <==> x == cats[0] || x in cats[1..];
    }
  }

  lemma {:induction false} NoCards(cats: seq<string>)
    ensures Cards([], cats) == 0
  {
    if cats != [] {
      NoCards(cats[1..]);
    }
  }

  /**
   * Columns without repeated categories show every repository whose
   * category is one of them exactly once, and no other repository: they
   * hold as many cards as there are such repositories.
   */
  lemma {:induction false} CardsPlacedOnce(repos: seq<ClientRepo>, cats: seq<string>)
    requires forall i, j :: 0 <= i < j < |cats| ==> cats[i] != cats[j]
    ensures Cards(repos, cats) == |OnBoard(repos, cats)|
  {
    if repos == [] {
      NoCards(cats);
    } else {
      var init := repos[..|repos| - 1];
      var last := repos[|repos| - 1];
      CardsPlacedOnce(init, cats);
      assert repos == init + [last];
      CardsAppend(init, last, cats);
      PlacedOnce(cats, last.category);
    }
  }

  /** The Kanban board shows every repository with one of the eight categories exactly once. */
  lemma EveryCardPlacedOnce(repos: seq<ClientRepo>)
    ensures Cards(repos, KanbanCategories) == |OnBoard(repos, KanbanCategories)|
  {
    KanbanDistinct();
    CardsPlacedOnce(repos, KanbanCategories);
  }

  /** A repository without one of the eight categories is in no column. */
  lemma OffBoardInNoColumn(repos: seq<ClientRepo>, repo: ClientRepo)
    requires repo.category.None? || repo.category.value !in KanbanCategories
    ensures forall c :: c in KanbanCategories ==> repo !in Column(repos, c)
  {
  }
}
