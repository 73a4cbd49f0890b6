/** The field extractors of the scraper (All-recipe-web-scraper.py, the
    get_* functions). A parsed page is modelled as the record of nodes the
    extractors read, not as an HTML tree: each `Option` is a node that
    `find` may not find, each sequence the texts `find_all` returns. */
module Extractors {
  import opened Wrappers
  import opened Text
  import opened Dicts
  import opened Results
  import opened Recipe
  import opened Duration

  /** The site constants the extractors use; the constants module is not
      part of this model, so they are parameters. */
  datatype SiteConstants = SiteConstants(
    time: string,         // marker of the detail labels that hold durations
    servings: string,     // the detail label that holds the servings
    grams: string,        // marker of nutrition amounts given in grams
    gramsIndex: int,      // slice end that cuts the grams suffix off
    amountIndex: int,     // cell of a nutrition row holding the amount
    labelIndex: int,      // cell of a nutrition row holding the label
    publishedOn: int)     // words of the date line before the date itself

  /** A label of the details grid and the text of the value node next to
      it, None when the label has no such sibling. */
  datatype DetailCell = DetailCell(name: string, value: Option<string>)

  /** What the extractors read from one page. */
  datatype Document = Document(
    title: Option<Option<string>>,         // the <title> node and its string
    ingredientLists: seq<string>,          // texts of the ingredient lists
    detailsGrid: Option<seq<DetailCell>>,  // the details container
    reviews: Option<string>,               // text of the reviews node
    rating: Option<string>,                // text of the rating node
    nutritionRows: Option<seq<seq<string>>>, // nutrition table: cell texts per row
    date: Option<string>,                  // text of the date node
    breadcrumb: Option<seq<string>>)       // texts of the breadcrumb items

  /** The nodes whose absence makes an extractor raise AttributeError. */
  datatype Node = TitleNode | DetailsGrid | DetailValue | ReviewsNode | NutritionTable | DateNode | Breadcrumb

  /** Why an extractor raises. */
  datatype ScrapeError =
    | Missing(node: Node)               // AttributeError on a node not found
    | BadDuration(reason: DurationError) // convert_to_minutes raised
    | BadInteger(text: string)          // int() raised ValueError
    | IndexOutOfRange                   // a nutrition row is too short
    | NoMatch(text: string)             // re.search found no number in the
                                        // rating text, so .group() raised
    | NotFloat(text: string)            // float() raised ValueError on the
                                        // text the search matched
    | NoSoup                            // the page could not be fetched, so
                                        // the first extractor met None

  // ---------------------------------------------------------------------
  // get_title
  // ---------------------------------------------------------------------

  /** `soup.title.string`: fails without a <title>; the string is None when
      the title node has no single string. */
  function GetTitle(doc: Document): (r: Result<Cell, ScrapeError>)
    ensures r.Err? <==> doc.title.None?
    ensures r.Ok? ==> (r.value.Null? <==> doc.title.value.None?)
    ensures r.Ok? && r.value.Text? ==> r.value.text == doc.title.value.value
  {
    match doc.title
    case None => Err(Missing(TitleNode))
    case Some(None) => Ok(Null)
    case Some(Some(t)) => Ok(Text(t))
  }

  // ---------------------------------------------------------------------
  // get_ingredients
  // ---------------------------------------------------------------------

  const BLOCK_BREAK := "\n\n\n"
  const BREAK_MARK := " ?"

  /** The stripped text of each ingredient list, in page order. */
  function StrippedTexts(lists: seq<string>): (r: seq<string>)
    ensures |r| == |lists| && forall i :: 0 <= i < |lists| ==> r[i] == Strip(lists[i])
  {
    seq(|lists|, i requires 0 <= i < |lists| => Strip(lists[i]))
  }

  /** The stripped texts glued together with no separator. */
  function Glued(lists: seq<string>): string
  {
    Join(StrippedTexts(lists), "")
  }

  /** What get_ingredients returns: nothing without ingredient lists;
      otherwise the glued text with each block break marked by " ?", cut
      at every '?'. */
  function IngredientsOf(lists: seq<string>): seq<string>
  {
    if lists == [] then []
    else SplitOn(Replace(Glued(lists), BLOCK_BREAK, BREAK_MARK), '?')
  }

  method GetIngredients(lists: seq<string>) returns (ingredients: seq<string>)
    ensures ingredients == IngredientsOf(lists)
    ensures ingredients == [] <==> lists == []
  {
    ingredients := [];
    for n := 0 to |lists|
      invariant ingredients == StrippedTexts(lists[..n])
    {
      ingredients := ingredients + [Strip(lists[n])];
    }
    assert lists[..|lists|] == lists;
    if |ingredients| == 0 {
      return ingredients;
    }
    ingredients := SplitOn(Replace(Join(ingredients, ""), BLOCK_BREAK, BREAK_MARK), '?');
  }

  /** The pieces hold no '?', and joined back with '?' they give the glued
      text with every block break replaced by " ?". */
  lemma IngredientsRejoin(lists: seq<string>)
    requires lists != []
    ensures Join(IngredientsOf(lists), "?") == Replace(Glued(lists), BLOCK_BREAK, BREAK_MARK)
    ensures forall k :: 0 <= k < |IngredientsOf(lists)| ==> '?' !in IngredientsOf(lists)[k]
  {
    SplitOnJoin(Replace(Glued(lists), BLOCK_BREAK, BREAK_MARK), '?');
  }

  /** One piece per block break, one per '?' already in the text, and one
      more. */
  lemma IngredientsCount(lists: seq<string>)
    requires lists != []
    ensures |IngredientsOf(lists)| ==
            1 + multiset(Glued(lists))['?'] + Occurrences(Glued(lists), BLOCK_BREAK)
  {
    var g := Glued(lists);
    assert multiset(BREAK_MARK)['?'] == 1;
    ReplaceCountChar(g, BLOCK_BREAK, BREAK_MARK, '?');
    SplitOnCount(Replace(g, BLOCK_BREAK, BREAK_MARK), '?');
  }

  /** Two lists with no padding to strip are glued as they stand. */
  lemma GluedTwo(a: string, b: string)
    requires a != [] && !IsSpace(a[0]) && !IsSpace(a[|a| - 1])
    requires b != [] && !IsSpace(b[0]) && !IsSpace(b[|b| - 1])
    ensures Glued([a, b]) == a + b
  {
    StripUnchanged(a);
    StripUnchanged(b);
    assert StrippedTexts([a, b]) == [a, b];
    assert Join([a, b], "") == a + "" + b;
  }

  /** A single block break, with no newline on either side, becomes the
      break mark. */
  lemma ReplaceOneBreak(x: string, w: string)
    requires '\n' !in x && '\n' !in w
    ensures Replace(x + BLOCK_BREAK + w, BLOCK_BREAK, BREAK_MARK) == (x + " ") + ['?'] + w
  {
    ReplaceSkips(x, BLOCK_BREAK, BREAK_MARK, w);
    MissingCharNoMatch(w, BLOCK_BREAK, '\n');
    ReplaceAbsent(w, BLOCK_BREAK, BREAK_MARK);
  }

  /** Two lists, the first with one block break inside: the piece before
      the break keeps a trailing space, and the second list is glued onto
      the end of the first with no separator. */
  lemma IngredientsOfBreak(x: string, y: string, z: string)
    requires x != [] && y != [] && z != []
    requires !IsSpace(x[0]) && !IsSpace(y[|y| - 1]) && !IsSpace(z[0]) && !IsSpace(z[|z| - 1])
    requires '?' !in x + y + z && '\n' !in x + y + z
    ensures IngredientsOf([x + BLOCK_BREAK + y, z]) == [x + " ", y + z]
  {
    var first := x + BLOCK_BREAK + y;
    assert '?' !in y + z && '\n' !in y + z && '\n' !in x && '?' !in x + " " by {
      assert forall c :: c in y + z ==> c in x + y + z;
      assert forall c :: c in x ==> c in x + y + z;
    }
    GluedTwo(first, z);
    assert first + z == x + BLOCK_BREAK + (y + z);
    ReplaceOneBreak(x, y + z);
    SplitOnCut(x + " ", '?', y + z);
    SplitOnAbsent(y + z, '?');
  }

  lemma IngredientsExample()
    ensures IngredientsOf(["2 eggs\n\n\n1 cup", "salt"]) == ["2 eggs ", "1 cupsalt"]
  {
    assert "2 eggs" + BLOCK_BREAK + "1 cup" == "2 eggs\n\n\n1 cup";
    assert "2 eggs" + " " == "2 eggs " && "1 cup" + "salt" == "1 cupsalt";
    IngredientsOfBreak("2 eggs", "1 cup", "salt");
  }

  /** A literal '?' in the text cuts an ingredient in two as well. */
  lemma IngredientsQuestionMark()
    ensures IngredientsOf(["salt? pepper"]) == ["salt", " pepper"]
  {
    var a, b := "salt", " pepper";
    var s := a + ['?'] + b;
    assert s == "salt? pepper";
    assert '?' !in a && '?' !in b && '\n' !in s;
    assert Glued([s]) == s by {
      StripUnchanged(s);
    }
    assert Replace(s, BLOCK_BREAK, BREAK_MARK) == s by {
      MissingCharNoMatch(s, BLOCK_BREAK, '\n');
      ReplaceAbsent(s, BLOCK_BREAK, BREAK_MARK);
    }
    assert SplitOn(s, '?') == [a, b] by {
      SplitOnCut(a, '?', b);
      SplitOnAbsent(b, '?');
    }
  }

  // ---------------------------------------------------------------------
  // get_recipe_details
  // ---------------------------------------------------------------------

  /** One label of the grid and the stripped text of its value node; a
      label without a value node raises. */
  function DetailPair(c: DetailCell): Result<(string, string), ScrapeError>
  {
    match c.value
    case None => Err(Missing(DetailValue))
    case Some(v) => Ok((Strip(c.name), Strip(v)))
  }

  /** The dict the first loop builds: label to text, a repeated label
      keeping its first place and its last text. */
  function RawDetails(cells: seq<DetailCell>): Result<Entries<string>, ScrapeError>
  {
    match MapResult(cells, DetailPair)
    case Err(e) => Err(e)
    case Ok(ps) => Ok(FromPairs(ps))
  }

  /** The second loop on one entry: a label naming a duration becomes its
      minutes; the servings label with a digits-only text becomes that
      number; anything else stays text. */
  function ConvertDetail(k: SiteConstants, key: string, value: string): Result<Cell, ScrapeError>
  {
    if Contains(key, k.time) then
      match MinutesOf(Words(value))
      case Ok(m) => Ok(Number(m))
      case Err(e) => Err(BadDuration(e))
    else if key == k.servings && IsDigitString(value) then
      match ParseInt(value)
      case Some(n) => Ok(Number(n))
      case None => Err(BadInteger(value))
    else Ok(Text(value))
  }

  function Converter(k: SiteConstants): ((string, string)) -> Result<(string, Cell), ScrapeError>
  {
    (e: (string, string)) =>
      match ConvertDetail(k, e.0, e.1)
      case Ok(c) => Ok((e.0, c))
      case Err(err) => Err(err)
  }

  function TextCell(s: string): Cell
  {
    Text(s)
  }

  /** What get_recipe_details returns or raises. */
  function DetailsOf(k: SiteConstants, grid: Option<seq<DetailCell>>): Result<Entries<Cell>, ScrapeError>
  {
    match grid
    case None => Err(Missing(DetailsGrid))
    case Some(cells) =>
      match RawDetails(cells)
      case Err(e) => Err(e)
      case Ok(raw) => MapResult(raw, Converter(k))
  }

  /** The first loop of get_recipe_details: store each label's text,
      stopping at the first label without a value node. */
  method CollectDetails(cells: seq<DetailCell>) returns (r: Result<Entries<Cell>, ScrapeError>)
    ensures RawDetails(cells).Err? ==> r == Err(RawDetails(cells).error)
    ensures RawDetails(cells).Ok? ==> r == Ok(MapValues(RawDetails(cells).value, TextCell))
  {
    var details: Entries<Cell> := [];
    ghost var ps: seq<(string, string)> := [];
    for n := 0 to |cells|
      invariant MapResult(cells[..n], DetailPair) == Ok(ps)
      invariant details == MapValues(FromPairs(ps), TextCell)
    {
      MapResultStep(cells, DetailPair, n);
      var name := Strip(cells[n].name);
      if cells[n].value.None? {
        MapResultSticks(cells, DetailPair, n + 1);
        return Err(Missing(DetailValue));
      }
      var data := Strip(cells[n].value.value);
      PutMapValues(FromPairs(ps), name, data, TextCell);
      details := Put(details, name, Text(data));
      assert (ps + [(name, data)])[..|ps|] == ps;
      ps := ps + [(name, data)];
    }
    assert cells[..|cells|] == cells;
    return Ok(details);
  }

  /** Storing the converted value of entry `n` extends the converted
      prefix by one. */
  lemma ConvertedStep(k: SiteConstants, raw: Entries<string>, n: nat, d: Entries<Cell>, cell: Cell)
    requires n < |raw| == |d| && d[n].0 == raw[n].0
    requires MapResult(raw[..n], Converter(k)) == Ok(d[..n])
    requires ConvertDetail(k, raw[n].0, raw[n].1) == Ok(cell)
    ensures MapResult(raw[..n + 1], Converter(k)) == Ok(d[n := (d[n].0, cell)][..n + 1])
  {
    MapResultStep(raw, Converter(k), n);
    assert d[n := (d[n].0, cell)][..n + 1] == d[..n] + [(raw[n].0, cell)];
  }

  /** A conversion that raises ends the whole pass with its error. */
  lemma ConvertedFails(k: SiteConstants, raw: Entries<string>, n: nat, e: ScrapeError)
    requires n < |raw| && MapResult(raw[..n], Converter(k)).Ok?
    requires ConvertDetail(k, raw[n].0, raw[n].1) == Err(e)
    ensures MapResult(raw, Converter(k)) == Err(e)
  {
    MapResultStep(raw, Converter(k), n);
    MapResultSticks(raw, Converter(k), n + 1);
  }

  /** The body of the second loop on one entry: the value to store under
      `key`, or None where the entry is left as it is. */
  method ConvertValue(k: SiteConstants, key: string, value: string)
    returns (r: Result<Option<Cell>, ScrapeError>)
    ensures r.Err? ==> ConvertDetail(k, key, value) == Err(r.error)
    ensures r == Ok(None) ==> ConvertDetail(k, key, value) == Ok(Text(value))
    ensures r.Ok? && r.value.Some? ==> ConvertDetail(k, key, value) == Ok(r.value.value)
  {
    if Contains(key, k.time) {
      var minutes := ConvertToMinutes(value);
      if minutes.Err? {
        return Err(BadDuration(minutes.error));
      }
      return Ok(Some(Number(minutes.value)));
    } else if key == k.servings && IsDigitString(value) {
      var number := ParseInt(value);
      if number.None? {
        return Err(BadInteger(value));
      }
      return Ok(Some(Number(number.value)));
    }
    return Ok(None);
  }

  /** The second loop of get_recipe_details: convert each entry in place,
      in dict order, stopping at the first conversion that raises. */
  method ConvertDetails(k: SiteConstants, details: Entries<Cell>, ghost raw: Entries<string>)
    returns (r: Result<Entries<Cell>, ScrapeError>)
    requires DistinctKeys(raw) && details == MapValues(raw, TextCell)
    ensures r == MapResult(raw, Converter(k))
  {
    var dict := details;
    for n := 0 to |dict|
      invariant |dict| == |raw|
      invariant forall j :: 0 <= j < |dict| ==> dict[j].0 == raw[j].0
      invariant forall j :: n <= j < |dict| ==> dict[j].1 == Text(raw[j].1)
      invariant MapResult(raw[..n], Converter(k)) == Ok(dict[..n])
    {
      ghost var before := dict;
      var key := dict[n].0;
      var value := dict[n].1.text;
      var converted := ConvertValue(k, key, value);
      if converted.Err? {
        ConvertedFails(k, raw, n, converted.error);
        return Err(converted.error);
      }
      if converted.value.Some? {
        assert DistinctKeys(dict);
        PutExisting(dict, n, converted.value.value);
        dict := Put(dict, key, converted.value.value);
      }
      ConvertedStep(k, raw, n, before, dict[n].1);
      assert dict == before[n := (key, dict[n].1)];
    }
    assert raw[..|raw|] == raw && dict[..|dict|] == dict;
    return Ok(dict);
  }

  /** get_recipe_details: find the grid, fill the dict, convert it. */
  method GetRecipeDetails(k: SiteConstants, grid: Option<seq<DetailCell>>)
    returns (r: Result<Entries<Cell>, ScrapeError>)
    ensures r == DetailsOf(k, grid)
  {
    if grid.None? {
      return Err(Missing(DetailsGrid));
    }
    var collected := CollectDetails(grid.value);
    if collected.Err? {
      return Err(collected.error);
    }
    ghost var raw := RawDetails(grid.value).value;
    FromPairsKeys(MapResult(grid.value, DetailPair).value);
    r := ConvertDetails(k, collected.value, raw);
  }

  /** The stripped labels of the grid. */
  function Labels(cells: seq<DetailCell>): set<string>
  {
    set i | 0 <= i < |cells| :: Strip(cells[i].name)
  }

  /** Converting keeps every key where it is. */
  lemma ConvertKeepsKeys(k: SiteConstants, raw: Entries<string>)
    requires MapResult(raw, Converter(k)).Ok?
    ensures KeyList(MapResult(raw, Converter(k)).value) == KeyList(raw)
  {
    MapResultAll(raw, Converter(k));
  }

  lemma PairsLabels(cells: seq<DetailCell>)
    requires MapResult(cells, DetailPair).Ok?
    ensures Keys(MapResult(cells, DetailPair).value) == Labels(cells)
  {
    var ps := MapResult(cells, DetailPair).value;
    MapResultAll(cells, DetailPair);
    assert forall i :: 0 <= i < |cells| ==> ps[i].0 == Strip(cells[i].name);
  }

  /** When get_recipe_details returns, its dict holds each stripped label
      of the grid once, and no other key. */
  lemma DetailsKeys(k: SiteConstants, cells: seq<DetailCell>)
    requires DetailsOf(k, Some(cells)).Ok?
    ensures DistinctKeys(DetailsOf(k, Some(cells)).value)
    ensures Keys(DetailsOf(k, Some(cells)).value) == Labels(cells)
  {
    var ps := MapResult(cells, DetailPair).value;
    PairsLabels(cells);
    FromPairsKeys(ps);
    var raw := FromPairs(ps);
    var d := DetailsOf(k, Some(cells)).value;
    ConvertKeepsKeys(k, raw);
    SameKeyList(d, raw);
  }

  /** Under each label the dict holds the converted text of the label's
      last value node. */
  lemma DetailsLast(k: SiteConstants, cells: seq<DetailCell>, i: nat)
    requires DetailsOf(k, Some(cells)).Ok?
    requires i < |cells| && forall j :: i < j < |cells| ==> Strip(cells[j].name) != Strip(cells[i].name)
    ensures cells[i].value.Some?
    ensures var key, text := Strip(cells[i].name), Strip(cells[i].value.value);
            && ConvertDetail(k, key, text).Ok?
            && Get(DetailsOf(k, Some(cells)).value, key) == Some(ConvertDetail(k, key, text).value)
  {
    var ps := MapResult(cells, DetailPair).value;
    MapResultAll(cells, DetailPair);
    FromPairsKeys(ps);
    FromPairsLast(ps, i);
    var raw := FromPairs(ps);
    var key := Strip(cells[i].name);
    var j := KeyIndex(raw, key).value;
    var d := DetailsOf(k, Some(cells)).value;
    MapResultAll(raw, Converter(k));
    assert Converter(k)(raw[j]).Ok?;
    assert d[j] == Converter(k)(raw[j]).value;
    DetailsKeys(k, cells);
  }

  /** get_recipe_details fails on a missing value node exactly when some
      label of the grid lacks one: every label is read before any value is
      converted, and no conversion fails that way. */
  lemma DetailsMissingValue(k: SiteConstants, cells: seq<DetailCell>)
    ensures DetailsOf(k, Some(cells)) == Err(Missing(DetailValue)) <==>
            exists i :: 0 <= i < |cells| && cells[i].value.None?
  {
    MapResultAll(cells, DetailPair);
    if exists i :: 0 <= i < |cells| && cells[i].value.None? {
      var i :| 0 <= i < |cells| && cells[i].value.None?;
      FirstMissing(cells, i);
    } else {
      var ps := MapResult(cells, DetailPair).value;
      var raw := FromPairs(ps);
      match MapResult(raw, Converter(k))
      case Ok(_) =>
      case Err(e) =>
        ConvertErrorKinds(k, raw);
    }
  }

  lemma {:induction false} FirstMissing(cells: seq<DetailCell>, i: nat)
    requires i < |cells| && cells[i].value.None?
    ensures MapResult(cells, DetailPair) == Err(Missing(DetailValue))
    decreases i
  {
    if exists j :: 0 <= j < i && cells[j].value.None? {
      var j :| 0 <= j < i && cells[j].value.None?;
      FirstMissing(cells, j);
    } else {
      MapResultFirstError(cells, DetailPair, i);
    }
  }

  /** No conversion raises on a missing node. */
  lemma {:induction false} ConvertErrorKinds(k: SiteConstants, raw: Entries<string>)
    ensures MapResult(raw, Converter(k)).Err? ==> !MapResult(raw, Converter(k)).error.Missing?
  {
    if raw != [] {
      ConvertErrorKinds(k, raw[..|raw| - 1]);
    }
  }

  /** The servings label with a superscript digit passes `isdigit` but
      `int` refuses it, so the whole extraction raises. */
  lemma ServingsSuperscript(k: SiteConstants)
    requires !Contains(k.servings, k.time)
    ensures ConvertDetail(k, k.servings, "\U{b2}") == Err(BadInteger("\U{b2}"))
  {
    assert IsDigitString("\U{b2}");
    assert ParseInt("\U{b2}") == None;
  }

  /** The servings label with ASCII digits becomes the number they spell. */
  lemma ServingsNumber(k: SiteConstants, n: nat)
    requires !Contains(k.servings, k.time)
    ensures ConvertDetail(k, k.servings, NatToDigits(n)) == Ok(Number(n))
  {
    LiteralValueOfDigits(n);
    ParseIntDigits(NatToDigits(n));
  }

  /** A duration label holding a rendered duration becomes its total in
      minutes. */
  lemma DurationDetail(k: SiteConstants, key: string, pairs: seq<(int, Unit)>)
    requires Contains(key, k.time)
    ensures ConvertDetail(k, key, Join(Tokens(pairs), " ")) == Ok(Number(Total(pairs)))
  {
    ConvertRendered(pairs);
  }

  // ---------------------------------------------------------------------
  // get_num_reviews
  // ---------------------------------------------------------------------

  predicate HasDigit(s: string) {
    exists i :: 0 <= i < |s| && IsDigit(s[i])
  }

  /** The numeric characters of `s`, in order. */
  function NumericChars(s: string): string
    decreases |s|
  {
    if s == [] then []
    else (if IsNumeric(s[0]) then [s[0]] else []) + NumericChars(s[1..])
  }

  /** get_num_reviews: fails without the reviews node; with a digit in its
      text, the numeric characters of the text; otherwise the sentinel. */
  function GetNumReviews(reviews: Option<string>): (r: Result<ReviewCount, ScrapeError>)
    ensures r.Err? <==> reviews.None?
    ensures r.Ok? ==> (r.value.Counted? <==> HasDigit(reviews.value))
  {
    match reviews
    case None => Err(Missing(ReviewsNode))
    case Some(t) => if HasDigit(t) then Ok(Counted(NumericChars(t))) else Ok(NoReviews)
  }

  /** The filter keeps every numeric character as often as it occurs and
      nothing else. */
  lemma {:induction false} NumericCharsCounts(s: string)
    ensures forall c :: multiset(NumericChars(s))[c] == if IsNumeric(c) then multiset(s)[c] else 0
    decreases |s|
  {
    if s != [] {
      NumericCharsCounts(s[1..]);
      assert s == [s[0]] + s[1..];
    }
  }

  /** The filter keeps the order of the text: it distributes over
      concatenation. */
  lemma {:induction false} NumericCharsAppend(a: string, b: string)
    ensures NumericChars(a + b) == NumericChars(a) + NumericChars(b)
    decreases |a|
  {
    if a != [] {
      assert (a + b)[1..] == a[1..] + b;
      NumericCharsAppend(a[1..], b);
    } else {
      assert a + b == b;
    }
  }

  /** A text of numeric characters only is kept whole. */
  lemma {:induction false} NumericCharsAll(s: string)
    requires forall i :: 0 <= i < |s| ==> IsNumeric(s[i])
    ensures NumericChars(s) == s
    decreases |s|
  {
    if s != [] {
      NumericCharsAll(s[1..]);
    }
  }

  /** A counted review total is never empty and holds a digit, since every
      digit is numeric. */
  lemma CountedHasDigit(t: string)
    requires GetNumReviews(Some(t)).Ok? && GetNumReviews(Some(t)).value.Counted?
    ensures HasDigit(GetNumReviews(Some(t)).value.digits)
  {
    var i :| 0 <= i < |t| && IsDigit(t[i]);
    NumericCharsCounts(t);
    var d := NumericChars(t);
    assert t[i] in multiset(t);
    assert t[i] in multiset(d);
    var j :| 0 <= j < |d| && d[j] == t[i];
  }

  /** A text without numeric characters leaves nothing. */
  lemma {:induction false} NumericCharsNone(s: string)
    requires forall i :: 0 <= i < |s| ==> !IsNumeric(s[i])
    ensures NumericChars(s) == []
    decreases |s|
  {
    if s != [] {
      NumericCharsNone(s[1..]);
    }
  }

  predicate AllDigits(s: string) {
    forall i :: 0 <= i < |s| ==> IsAsciiDigit(s[i])
  }

  predicate NoNumeric(s: string) {
    forall i :: 0 <= i < |s| ==> !IsNumeric(s[i])
  }

  /** Digits, a separator, more digits and a trailing word: the count is
      the two digit groups run together. */
  lemma ReviewsSeparated(a: string, sep: string, b: string, word: string)
    requires a != [] && AllDigits(a) && AllDigits(b) && NoNumeric(sep) && NoNumeric(word)
    ensures GetNumReviews(Some(a + sep + b + word)) == Ok(Counted(a + b))
  {
    var t := a + sep + b + word;
    assert IsDigit(t[0]) && HasDigit(t);
    NumericCharsAll(a);
    NumericCharsNone(sep);
    NumericCharsAll(b);
    NumericCharsNone(word);
    NumericCharsAppend(a, sep);
    assert NumericChars(a + sep) == a;
    NumericCharsAppend(a + sep, b);
    assert NumericChars(a + sep + b) == a + b;
    NumericCharsAppend(a + sep + b, word);
    assert NumericChars(t) == a + b;
  }

  /** Thousands separators and words are dropped. */
  lemma ReviewsExample()
    ensures GetNumReviews(Some("1,234 Reviews")) == Ok(Counted("1234"))
  {
    assert "1" + "," + "234" + " Reviews" == "1,234 Reviews";
    assert "1" + "234" == "1234";
    ReviewsSeparated("1", ",", "234", " Reviews");
  }

  /** A vulgar fraction is numeric but not a digit: alone it counts as no
      reviews, next to a digit it is kept. */
  lemma ReviewsFraction()
    ensures GetNumReviews(Some("\U{bd}")) == Ok(NoReviews)
    ensures GetNumReviews(Some("1\U{bd}")) == Ok(Counted("1\U{bd}"))
  {
    assert !HasDigit("\U{bd}");
    assert "1\U{bd}"[0] == '1';
    NumericCharsAll("1\U{bd}");
  }

  // ---------------------------------------------------------------------
  // get_rating
  // ---------------------------------------------------------------------

  /** The regular expression `\d+.\d+` matches s at i, with k digits before
      the middle character and m after it: `.` is any character but a
      newline, and within Latin-1 the decimal digits `\d` stands for are the
      ASCII ones. */
  predicate PatternAt(s: string, i: nat, k: nat, m: nat)
  {
    && 1 <= k && 1 <= m && i + k + 1 + m <= |s|
    && (forall j :: i <= j < i + k ==> IsAsciiDigit(s[j]))
    && s[i + k] != '\n'
    && (forall j :: i + k + 1 <= j < i + k + 1 + m ==> IsAsciiDigit(s[j]))
  }

  /** The number of ASCII digits in the run that starts at i. */
  function DigitRun(s: string, i: nat): (n: nat)
    requires i <= |s|
    ensures i + n <= |s|
    ensures forall j :: i <= j < i + n ==> IsAsciiDigit(s[j])
    ensures i + n == |s| || !IsAsciiDigit(s[i + n])
    decreases |s| - i
  {
    if i < |s| && IsAsciiDigit(s[i]) then 1 + DigitRun(s, i + 1) else 0
  }

  /** A match of the pattern: the text from `start` to `end`, with its
      middle character at `middle`. */
  datatype Span = Span(start: nat, middle: nat, end: nat)

  /** What a match at i says about the digit runs: the first `\d+` takes
      the whole run at i or leaves at least two of its digits (the middle
      character and one digit after it), and the second stays within the
      run after the middle character. */
  lemma PatternRuns(s: string, i: nat)
    requires i <= |s|
    ensures forall k: nat, m: nat :: PatternAt(s, i, k, m) ==>
              && (k == DigitRun(s, i) || k + 2 <= DigitRun(s, i))
              && IsAsciiDigit(s[i + k + 1]) && m <= DigitRun(s, i + k + 1)
  {
    forall k: nat, m: nat | PatternAt(s, i, k, m)
      ensures k == DigitRun(s, i) || k + 2 <= DigitRun(s, i)
      ensures IsAsciiDigit(s[i + k + 1]) && m <= DigitRun(s, i + k + 1)
    {
    }
  }

  /** The pattern does not match at j. */
  ghost predicate NoMatchAt(s: string, j: nat)
  {
    forall k: nat, m: nat :: !PatternAt(s, j, k, m)
  }

  /** The match a backtracking matcher finds at i: both `\d+` are greedy,
      so of all the matches at i it takes the one with the most digits
      before the middle character, and then the most digits after it. */
  function MatchAt(s: string, i: nat): (r: Option<Span>)
    requires i <= |s|
    ensures r.None? <==> NoMatchAt(s, i)
    ensures r.Some? ==> r.value.start == i && i < r.value.middle < r.value.end <= |s|
    ensures r.Some? ==> PatternAt(s, i, r.value.middle - i, r.value.end - r.value.middle - 1)
    ensures r.Some? ==> forall k: nat, m: nat :: PatternAt(s, i, k, m) ==> k <= r.value.middle - i
    ensures r.Some? ==> r.value.end == |s| || !IsAsciiDigit(s[r.value.end])
  {
    PatternRuns(s, i);
    var n := DigitRun(s, i);
    if n == 0 then None
    else if i + n + 1 < |s| && s[i + n] != '\n' && IsAsciiDigit(s[i + n + 1]) then
      var e := i + n + 1 + DigitRun(s, i + n + 1);
      assert PatternAt(s, i, n, e - i - n - 1);
      Some(Span(i, i + n, e))
    else if n >= 3 then
      assert DigitRun(s, i + n) == 0 && DigitRun(s, i + n - 1) == 1;
      assert PatternAt(s, i, n - 2, 1);
      Some(Span(i, i + n - 2, i + n))
    else None
  }

  /** re.search: the match at the first position from i on where the
      pattern matches, or None when it matches nowhere. */
  function SearchPattern(s: string, i: nat): (r: Option<Span>)
    requires i <= |s|
    ensures r.None? <==> forall j: nat :: i <= j ==> NoMatchAt(s, j)
    ensures r.Some? ==> i <= r.value.start < |s| && MatchAt(s, r.value.start) == r
    ensures r.Some? ==> forall j: nat :: i <= j < r.value.start ==> NoMatchAt(s, j)
    decreases |s| - i
  {
    if i == |s| then None
    else if MatchAt(s, i).Some? then MatchAt(s, i)
    else SearchPattern(s, i + 1)
  }

  /** Python's `digitpart`: ASCII digits, with single underscores allowed
      between two of them. */
  predicate DigitPart(t: string)
  {
    && |t| >= 1 && IsAsciiDigit(t[0]) && IsAsciiDigit(t[|t| - 1])
    && (forall j :: 0 <= j < |t| ==> IsAsciiDigit(t[j]) || t[j] == '_')
    && (forall j :: 0 <= j < |t| - 1 && t[j] == '_' ==> t[j + 1] != '_')
  }

  /** Python's `pointfloat`: an optional digit part, a point and a digit
      part, or a digit part and a point. */
  predicate PointFloat(t: string)
  {
    exists p :: 0 <= p < |t| && t[p] == '.' &&
      (|| ((p == 0 || DigitPart(t[..p])) && DigitPart(t[p + 1..]))
       || (0 < p && p + 1 == |t| && DigitPart(t[..p])))
  }

  /** Python's `exponent`: an e or E, an optional sign and a digit part. */
  predicate Exponent(t: string)
  {
    && |t| >= 2 && (t[0] == 'e' || t[0] == 'E')
    && (DigitPart(t[1..]) || ((t[1] == '+' || t[1] == '-') && DigitPart(t[2..])))
  }

  /** The unsigned, unpadded decimal texts float() accepts: a digit part,
      a `pointfloat`, or either of them followed by an exponent. */
  predicate FloatSyntax(t: string)
  {
    || DigitPart(t) || PointFloat(t)
    || exists q :: 0 < q < |t| && (DigitPart(t[..q]) || PointFloat(t[..q])) && Exponent(t[q..])
  }

  /** The middle characters that make a match a float literal. */
  predicate FloatMiddle(c: char)
  {
    IsAsciiDigit(c) || c == '.' || c == 'e' || c == 'E' || c == '_'
  }

  /** A text of ASCII digits is a digit part. */
  lemma DigitsArePart(t: string)
    requires |t| >= 1 && forall j :: 0 <= j < |t| ==> IsAsciiDigit(t[j])
    ensures DigitPart(t)
  {
  }

  /** Digits, one character and digits: every character but the middle
      one is a digit. */
  lemma MatchChars(a: string, c: char, b: string)
    requires forall j :: 0 <= j < |a| ==> IsAsciiDigit(a[j])
    requires forall j :: 0 <= j < |b| ==> IsAsciiDigit(b[j])
    ensures var t := a + [c] + b; t[|a|] == c && t[..|a|] == a && t[|a| + 1..] == b
    ensures var t := a + [c] + b; forall j :: 0 <= j < |t| && j != |a| ==> IsAsciiDigit(t[j])
  {
    var t := a + [c] + b;
    forall j | 0 <= j < |t| && j != |a|
      ensures IsAsciiDigit(t[j])
    {
      if j < |a| {
        assert t[j] == a[j];
      } else {
        assert t[j] == b[j - |a| - 1];
      }
    }
  }

  /** Digits, one character and digits form a float literal exactly when
      that character is a digit, a point, an exponent marker or an
      underscore: any other character is neither part of a digit part nor
      the point or the exponent marker the grammar allows. */
  lemma FloatOfMatch(a: string, c: char, b: string)
    requires |a| >= 1 && |b| >= 1
    requires forall j :: 0 <= j < |a| ==> IsAsciiDigit(a[j])
    requires forall j :: 0 <= j < |b| ==> IsAsciiDigit(b[j])
    ensures FloatSyntax(a + [c] + b) <==> FloatMiddle(c)
  {
    if FloatMiddle(c) {
      FloatMiddleAccepted(a, c, b);
    } else {
      FloatOtherRejected(a, c, b);
    }
  }

  lemma FloatMiddleAccepted(a: string, c: char, b: string)
    requires |a| >= 1 && |b| >= 1
    requires forall j :: 0 <= j < |a| ==> IsAsciiDigit(a[j])
    requires forall j :: 0 <= j < |b| ==> IsAsciiDigit(b[j])
    requires FloatMiddle(c)
    ensures FloatSyntax(a + [c] + b)
  {
    var t := a + [c] + b;
    MatchChars(a, c, b);
    DigitsArePart(a);
    DigitsArePart(b);
    if IsAsciiDigit(c) {
      DigitsArePart(t);
    } else if c == '_' {
      assert t[|a| + 1] == b[0];
      assert DigitPart(t);
    } else if c == '.' {
      assert PointFloat(t);
    } else {
      assert t[|a|..] == [c] + b && ([c] + b)[1..] == b;
      assert Exponent(t[|a|..]);
    }
  }

  lemma FloatOtherRejected(a: string, c: char, b: string)
    requires |a| >= 1 && |b| >= 1
    requires forall j :: 0 <= j < |a| ==> IsAsciiDigit(a[j])
    requires forall j :: 0 <= j < |b| ==> IsAsciiDigit(b[j])
    requires !FloatMiddle(c)
    ensures !FloatSyntax(a + [c] + b)
  {
    var t := a + [c] + b;
    MatchChars(a, c, b);
    assert !DigitPart(t);
  }

  /** float() accepts the text of a match exactly when its middle
      character is a digit, a point, an exponent marker or an underscore. */
  lemma MatchedFloat(s: string, span: Span)
    requires span.start < span.middle < span.end <= |s|
    requires PatternAt(s, span.start, span.middle - span.start, span.end - span.middle - 1)
    ensures FloatSyntax(s[span.start..span.end]) <==> FloatMiddle(s[span.middle])
  {
    var a, b := s[span.start..span.middle], s[span.middle + 1..span.end];
    assert s[span.start..span.end] == a + [s[span.middle]] + b;
    FloatOfMatch(a, s[span.middle], b);
  }

  /** get_rating: without a rating node the rating is None. With one, the
      search on its stripped text either finds no match, and `.group()`
      raises AttributeError, or finds one, which float() reads or rejects
      with ValueError. */
  function GetRating(rating: Option<string>): (r: Result<RatingValue, ScrapeError>)
    ensures rating.None? ==> r == Ok(NoRating)
    ensures rating.Some? ==>
              (SearchPattern(Strip(rating.value), 0).None? <==> r == Err(NoMatch(Strip(rating.value))))
    ensures rating.Some? && SearchPattern(Strip(rating.value), 0).Some? ==>
              var text := Strip(rating.value);
              var span := SearchPattern(text, 0).value;
              var numeral := text[span.start..span.end];
              r == if FloatSyntax(numeral) then Ok(Rated(numeral)) else Err(NotFloat(numeral))
  {
    match rating
    case None => Ok(NoRating)
    case Some(t) =>
      var text := Strip(t);
      match SearchPattern(text, 0)
      case None => Err(NoMatch(text))
      case Some(span) =>
        var numeral := text[span.start..span.end];
        MatchedFloat(text, span);
        if FloatMiddle(text[span.middle]) then Ok(Rated(numeral)) else Err(NotFloat(numeral))
  }

  /** A rating node fails to match exactly when the pattern matches its
      stripped text nowhere. */
  lemma RatingMatchIff(t: string)
    ensures GetRating(Some(t)) == Err(NoMatch(Strip(t))) <==>
            forall i: nat, k: nat, m: nat :: !PatternAt(Strip(t), i, k, m)
  {
    var s := Strip(t);
    if !(forall i: nat, k: nat, m: nat :: !PatternAt(s, i, k, m)) {
      var i: nat, k: nat, m: nat :| PatternAt(s, i, k, m);
      assert !NoMatchAt(s, i);
    }
  }

  /** A rating node whose text holds no ASCII digit makes get_rating raise. */
  lemma RatingWithoutDigitsFails(t: string)
    requires forall i :: 0 <= i < |t| ==> !IsAsciiDigit(t[i])
    ensures GetRating(Some(t)) == Err(NoMatch(Strip(t)))
  {
    StripIsInfix(t);
    var s := Strip(t);
    forall j | 0 <= j < |s|
      ensures !IsAsciiDigit(s[j])
    {
      assert s[j] == t[TrimStart(t, 0, |t|) + j];
    }
    forall j: nat
      ensures NoMatchAt(s, j)
    {
      if j < |s| {
        assert !IsAsciiDigit(s[j]);
      }
    }
  }

  /** Where the search matches in the three texts below. */
  lemma SpanOfPoint()
    ensures SearchPattern("4.5 out of 5", 0) == Some(Span(0, 1, 3))
  {
    assert DigitRun("4.5 out of 5", 2) == 1;
  }

  lemma SpanOfComma()
    ensures SearchPattern("1,234", 0) == Some(Span(0, 1, 5))
  {
    assert DigitRun("1,234", 2) == 3;
  }

  lemma SpanOfWholeNumbers()
    ensures SearchPattern("4", 0).None?
    ensures SearchPattern("4 stars", 0).None?
  {
    assert DigitRun("4 stars", 0) == 1;
  }

  lemma SpanOfSlash()
    ensures SearchPattern("123/5", 0) == Some(Span(0, 3, 5))
  {
    assert DigitRun("123/5", 0) == 3 && DigitRun("123/5", 4) == 1;
  }

  lemma StripRating()
    ensures Strip(" 4.5 out of 5 ") == "4.5 out of 5"
  {
    assert " 4.5 out of 5 " == " " + "4.5 out of 5" + " ";
    StripPadded(" ", "4.5 out of 5", " ");
  }

  lemma PointNumeral()
    ensures "4.5 out of 5"[0..3] == "4.5" && FloatSyntax("4.5")
  {
    assert "4.5" == "4" + ['.'] + "5";
    FloatOfMatch("4", '.', "5");
  }

  /** A padded "4.5 out of 5" reads as the number before "out of". */
  lemma RatingReads()
    ensures GetRating(Some(" 4.5 out of 5 ")) == Ok(Rated("4.5"))
  {
    StripRating();
    SpanOfPoint();
    PointNumeral();
  }

  /** A match whose middle character is not part of a float literal makes
      float() raise, for a thousands separator as for a fraction. */
  lemma RatingSeparatorFails()
    ensures GetRating(Some("1,234")) == Err(NotFloat("1,234"))
  {
    StripUnchanged("1,234");
    SpanOfComma();
    assert "1,234" == "1" + [','] + "234";
    FloatOfMatch("1", ',', "234");
  }

  /** The first `\d+` is greedy: after "123" the slash is the middle
      character, not the "3", and float() rejects the whole "123/5". */
  lemma RatingGreedy()
    ensures GetRating(Some("123/5")) == Err(NotFloat("123/5"))
  {
    StripUnchanged("123/5");
    SpanOfSlash();
    assert "123/5" == "123" + ['/'] + "5";
    FloatOfMatch("123", '/', "5");
  }

  /** A whole number alone, or followed by a word, has no match. */
  lemma RatingWholeNumberFails()
    ensures GetRating(Some("4")) == Err(NoMatch("4"))
    ensures GetRating(Some("4 stars")) == Err(NoMatch("4 stars"))
  {
    StripUnchanged("4");
    StripUnchanged("4 stars");
    SpanOfWholeNumbers();
  }

  // ---------------------------------------------------------------------
  // get_nutrition_facts
  // ---------------------------------------------------------------------

  /** One row of the nutrition table: the amount cell lower-cased and
      stripped, cut before its grams marker, read as an integer under the
      stripped label cell. */
  function NutritionRow(k: SiteConstants, cells: seq<string>): Result<(string, int), ScrapeError>
  {
    match At(cells, k.amountIndex)
    case None => Err(IndexOutOfRange)
    case Some(a) =>
      var text := Lower(Strip(a));
      match At(cells, k.labelIndex)
      case None => Err(IndexOutOfRange)
      case Some(l) =>
        var amount := if Contains(text, k.grams) then Slice(text, 0, k.gramsIndex) else text;
        match ParseInt(amount)
        case None => Err(BadInteger(amount))
        case Some(n) => Ok((Strip(l), n))
  }

  function RowReader(k: SiteConstants): seq<string> -> Result<(string, int), ScrapeError>
  {
    (cells: seq<string>) => NutritionRow(k, cells)
  }

  /** What get_nutrition_facts returns or raises. */
  function NutritionOf(k: SiteConstants, table: Option<seq<seq<string>>>): Result<Entries<int>, ScrapeError>
  {
    match table
    case None => Err(Missing(NutritionTable))
    case Some(rows) =>
      match MapResult(rows, RowReader(k))
      case Err(e) => Err(e)
      case Ok(ps) => Ok(FromPairs(ps))
  }

  /** get_nutrition_facts: row by row, store the amount under the label. */
  method GetNutritionFacts(k: SiteConstants, table: Option<seq<seq<string>>>)
    returns (r: Result<Entries<int>, ScrapeError>)
    ensures r == NutritionOf(k, table)
  {
    if table.None? {
      return Err(Missing(NutritionTable));
    }
    var rows := table.value;
    var facts: Entries<int> := [];
    ghost var ps: seq<(string, int)> := [];
    for n := 0 to |rows|
      invariant MapResult(rows[..n], RowReader(k)) == Ok(ps)
      invariant facts == FromPairs(ps)
    {
      MapResultStep(rows, RowReader(k), n);
      var cells := rows[n];
      var a := At(cells, k.amountIndex);
      if a.None? {
        MapResultSticks(rows, RowReader(k), n + 1);
        return Err(IndexOutOfRange);
      }
      var amount := Lower(Strip(a.value));
      var l := At(cells, k.labelIndex);
      if l.None? {
        MapResultSticks(rows, RowReader(k), n + 1);
        return Err(IndexOutOfRange);
      }
      var name := Strip(l.value);
      if Contains(amount, k.grams) {
        amount := Slice(amount, 0, k.gramsIndex);
      }
      var value := ParseInt(amount);
      if value.None? {
        MapResultSticks(rows, RowReader(k), n + 1);
        return Err(BadInteger(amount));
      }
      facts := Put(facts, name, value.value);
      assert (ps + [(name, value.value)])[..|ps|] == ps;
      ps := ps + [(name, value.value)];
    }
    assert rows[..|rows|] == rows;
    return Ok(facts);
  }

  /** The stripped label cells of the table. */
  function NutritionLabels(k: SiteConstants, rows: seq<seq<string>>): set<string>
  {
    set i | 0 <= i < |rows| && NutritionRow(k, rows[i]).Ok? :: NutritionRow(k, rows[i]).value.0
  }

  /** When get_nutrition_facts returns, every row parsed, and the facts
      hold each label of the table once and no other key. */
  lemma NutritionKeys(k: SiteConstants, rows: seq<seq<string>>)
    requires NutritionOf(k, Some(rows)).Ok?
    ensures forall i :: 0 <= i < |rows| ==> NutritionRow(k, rows[i]).Ok?
    ensures DistinctKeys(NutritionOf(k, Some(rows)).value)
    ensures Keys(NutritionOf(k, Some(rows)).value) == NutritionLabels(k, rows)
  {
    MappedKeys(rows, RowReader(k));
  }

  /** Folding pairs read from the rows into a dict keeps each row's key
      once and no other key. */
  lemma MappedKeys<A, V, E>(xs: seq<A>, f: A -> Result<(string, V), E>)
    requires MapResult(xs, f).Ok?
    ensures forall i :: 0 <= i < |xs| ==> f(xs[i]).Ok?
    ensures DistinctKeys(FromPairs(MapResult(xs, f).value))
    ensures Keys(FromPairs(MapResult(xs, f).value)) == set i | 0 <= i < |xs| && f(xs[i]).Ok? :: f(xs[i]).value.0
  {
    var ps := MapResult(xs, f).value;
    MapResultAll(xs, f);
    FromPairsKeys(ps);
    PairKeys(xs, f, ps);
  }

  /** The keys of pairs read one per element are the keys read. */
  lemma PairKeys<A, V, E>(xs: seq<A>, f: A -> Result<(string, V), E>, ps: seq<(string, V)>)
    requires |ps| == |xs|
    requires forall i :: 0 <= i < |xs| ==> f(xs[i]).Ok? && ps[i] == f(xs[i]).value
    ensures Keys(ps) == set i | 0 <= i < |xs| && f(xs[i]).Ok? :: f(xs[i]).value.0
  {
    forall x | x in Keys(ps) ensures exists i :: 0 <= i < |xs| && f(xs[i]).Ok? && f(xs[i]).value.0 == x {
      var i :| 0 <= i < |ps| && ps[i].0 == x;
      assert ps[i] == f(xs[i]).value;
    }
    forall i | 0 <= i < |xs| && f(xs[i]).Ok? ensures f(xs[i]).value.0 in Keys(ps) {
      assert ps[i].0 == f(xs[i]).value.0;
    }
  }

  /** Under each label the facts hold the amount of the label's last row. */
  lemma NutritionLast(k: SiteConstants, rows: seq<seq<string>>, i: nat)
    requires NutritionOf(k, Some(rows)).Ok?
    requires i < |rows| && NutritionRow(k, rows[i]).Ok?
    requires forall j :: i < j < |rows| ==>
               NutritionRow(k, rows[j]).Ok? && NutritionRow(k, rows[j]).value.0 != NutritionRow(k, rows[i]).value.0
    ensures Get(NutritionOf(k, Some(rows)).value, NutritionRow(k, rows[i]).value.0) ==
            Some(NutritionRow(k, rows[i]).value.1)
  {
    MappedLast(rows, RowReader(k), i);
  }

  /** Folding pairs read from the rows into a dict keeps, under a key,
      the value of the last row read with it. */
  lemma MappedLast<A, V, E>(xs: seq<A>, f: A -> Result<(string, V), E>, i: nat)
    requires MapResult(xs, f).Ok?
    requires i < |xs| && f(xs[i]).Ok?
    requires forall j :: i < j < |xs| ==> f(xs[j]).Ok? && f(xs[j]).value.0 != f(xs[i]).value.0
    ensures Get(FromPairs(MapResult(xs, f).value), f(xs[i]).value.0) == Some(f(xs[i]).value.1)
  {
    var ps := MapResult(xs, f).value;
    MapResultAll(xs, f);
    assert ps[i] == f(xs[i]).value;
    forall j | i < j < |ps| ensures ps[j].0 != ps[i].0 {
      assert ps[j] == f(xs[j]).value;
    }
    FromPairsLast(ps, i);
  }

  /** A row too short for the amount or the label cell, after rows that
      all parse, ends the extraction with IndexError. */
  lemma NutritionShortRow(k: SiteConstants, rows: seq<seq<string>>, i: nat)
    requires i < |rows| && forall j :: 0 <= j < i ==> NutritionRow(k, rows[j]).Ok?
    requires !(-|rows[i]| <= k.amountIndex < |rows[i]|) || !(-|rows[i]| <= k.labelIndex < |rows[i]|)
    ensures NutritionOf(k, Some(rows)) == Err(IndexOutOfRange)
  {
    MapResultFirstError(rows, RowReader(k), i);
  }

  /** The site's constants for the table: amount in the first cell,
      label in the second, a one-character grams marker cut off the end. */
  predicate TableLayout(k: SiteConstants) {
    k.amountIndex == 0 && k.labelIndex == 1 && k.grams == "g" && k.gramsIndex == -1
  }

  /** The amount cell "150g" reads as 150 once its marker is cut. */
  lemma GramsAmount()
    ensures Lower(Strip("150g")) == "150g" && Contains("150g", "g")
  {
    StripUnchanged("150g");
    assert Lower("150g") == "150g";
    ContainsAt("150g", "g", 3);
  }

  /** Cut before its last character, "150g" reads as 150. */
  lemma GramsCut()
    ensures Slice("150g", 0, -1) == "150" && ParseInt("150") == Some(150)
  {
    SliceRange("150g", 0, -1);
    assert NatToDigits(150) == "150";
    ParseIntNat(150);
  }

  /** A grams amount loses its marker. */
  lemma NutritionRowGrams(k: SiteConstants)
    requires TableLayout(k)
    ensures NutritionRow(k, ["150g", "Fat"]) == Ok(("Fat", 150))
  {
    GramsAmount();
    GramsCut();
    StripUnchanged("Fat");
    NutritionRowOf(k, ["150g", "Fat"], "150g", "Fat", "150", 150);
  }

  /** The padded, upper case amount " 10 G " lowers to "10 g". */
  lemma SpacedAmountLowered()
    ensures Lower(Strip(" 10 G ")) == "10 g"
  {
    assert " 10 G " == " " + "10 G" + " ";
    StripPadded(" ", "10 G", " ");
    LowerTenG();
  }

  lemma LowerTenG()
    ensures Lower("10 G") == "10 g"
  {
    var r := Lower("10 G");
    assert LowerChar('G') == 'g';
    assert r[0] == '1' && r[1] == '0' && r[2] == ' ' && r[3] == 'g';
  }

  /** Cut at its marker, "10 g" leaves "10 ", which parses as 10. */
  lemma SpacedAmountCut()
    ensures Contains("10 g", "g") && Slice("10 g", 0, -1) == "10 "
    ensures ParseInt("10 ") == Some(10)
  {
    ContainsAt("10 g", "g", 3);
    assert "10 " == "" + "10" + " " && NatToDigits(10) == "10";
    ParseIntPadded("", "10", " ");
    ParseIntNat(10);
  }

  /** The padded label loses its trailing blank. */
  lemma SpacedLabel()
    ensures Strip("Protein ") == "Protein"
  {
    assert "Protein " == "" + "Protein" + " ";
    StripPadded("", "Protein", " ");
  }

  /** Padding around the amount and the label is stripped, and an upper
      case marker is lowered before the cut. */
  lemma NutritionRowSpaced(k: SiteConstants)
    requires TableLayout(k)
    ensures NutritionRow(k, [" 10 G ", "Protein "]) == Ok(("Protein", 10))
  {
    SpacedAmountLowered();
    SpacedAmountCut();
    SpacedLabel();
    NutritionRowOf(k, [" 10 G ", "Protein "], " 10 G ", "Protein ", "10 ", 10);
  }

  /** A row reads as its stripped label and the parsed amount, the amount
      being the lowered, stripped cell cut at the marker when it holds
      one. */
  lemma NutritionRowOf(k: SiteConstants, cells: seq<string>, a: string, l: string, amount: string, n: int)
    requires At(cells, k.amountIndex) == Some(a) && At(cells, k.labelIndex) == Some(l)
    requires var text := Lower(Strip(a));
             amount == if Contains(text, k.grams) then Slice(text, 0, k.gramsIndex) else text
    requires ParseInt(amount) == Some(n)
    ensures NutritionRow(k, cells) == Ok((Strip(l), n))
  {
  }

  // ---------------------------------------------------------------------
  // get_date_published
  // ---------------------------------------------------------------------

  /** get_date_published: the words of the stripped date line from the
      `publishedOn`-th on, joined with single spaces. */
  function GetDatePublished(k: SiteConstants, date: Option<string>): (r: Result<string, ScrapeError>)
    ensures r.Err? <==> date.None?
    ensures r.Err? ==> r.error == Missing(DateNode)
  {
    match date
    case None => Err(Missing(DateNode))
    case Some(t) =>
      var ws := Words(Strip(t));
      Ok(Join(Slice(ws, k.publishedOn, |ws|), " "))
  }

  /** The date splits back into exactly the words kept from the line. */
  lemma DateWords(k: SiteConstants, t: string)
    ensures var ws := Words(Strip(t));
            Words(GetDatePublished(k, Some(t)).value) == Slice(ws, k.publishedOn, |ws|)
  {
    var ws := Words(Strip(t));
    WordsAreWords(Strip(t));
    var kept := Slice(ws, k.publishedOn, |ws|);
    assert forall i :: 0 <= i < |kept| ==> kept[i] in ws;
    WordsOfJoin(kept);
  }

  /** A line of words has its first `publishedOn` words dropped. */
  lemma DateAfterPrefix(k: SiteConstants, prefix: seq<string>, ws: seq<string>)
    requires k.publishedOn == |prefix|
    requires forall i :: 0 <= i < |prefix + ws| ==> IsWord((prefix + ws)[i])
    ensures GetDatePublished(k, Some(Join(prefix + ws, " "))) == Ok(Join(ws, " "))
  {
    var line := Join(prefix + ws, " ");
    WordsOfJoin(prefix + ws);
    JoinEnds(prefix + ws);
    StripUnchanged(line);
    assert Slice(prefix + ws, |prefix|, |prefix + ws|) == ws;
  }

  /** Words joined with spaces neither start nor end with whitespace. */
  lemma {:induction false} JoinEnds(ws: seq<string>)
    requires forall i :: 0 <= i < |ws| ==> IsWord(ws[i])
    ensures var t := Join(ws, " "); t == [] || (!IsSpace(t[0]) && !IsSpace(t[|t| - 1]))
  {
    if |ws| > 1 {
      JoinEnds(ws[1..]);
      assert Join(ws, " ") == ws[0] + (" " + Join(ws[1..], " "));
    }
  }

  // ---------------------------------------------------------------------
  // get_categories
  // ---------------------------------------------------------------------

  /** get_categories: the stripped text of each breadcrumb item, in order. */
  function GetCategories(breadcrumb: Option<seq<string>>): (r: Result<seq<string>, ScrapeError>)
    ensures r.Err? <==> breadcrumb.None?
    ensures r.Ok? ==> |r.value| == |breadcrumb.value|
    ensures r.Ok? ==> forall i :: 0 <= i < |r.value| ==> r.value[i] == Strip(breadcrumb.value[i])
  {
    match breadcrumb
    case None => Err(Missing(Breadcrumb))
    case Some(items) => Ok(StrippedTexts(items))
  }

  /** Every category is already stripped. */
  lemma CategoriesStripped(items: seq<string>)
    ensures forall i :: 0 <= i < |items| ==>
              Strip(GetCategories(Some(items)).value[i]) == GetCategories(Some(items)).value[i]
  {
    forall i | 0 <= i < |items| {
      StripIdempotent(items[i]);
    }
  }
}
