/** The scraping loop (All-recipe-web-scraper.py, scraper): each link's
    page is either skipped as not a recipe, scraped into a field mapping
    that becomes a numbered block of the report, or fails and is logged.
    Fetching is left to the caller: a page arrives as its parsed document,
    or as None when make_soup returned None. */
module Scraper {
  import opened Wrappers
  import opened Recipe
  import opened Extractors
  import opened Dicts
  import opened Text

  datatype Page = Page(link: string, document: Option<Document>)

  /** What one pass of the loop body does with a page. */
  datatype Outcome = Skipped | Failed(error: ScrapeError) | Scraped(fields: FieldMap)

  /** A numbered block of the report file. */
  datatype Block = Block(number: nat, fields: FieldMap)

  /** A line of the log: a scraped recipe's number, or a failed link. */
  datatype LogLine = Info(number: nat) | Error(link: string, error: ScrapeError)

  /** A selected extractor's result as a field; an unselected one is not
      called. */
  function Pick<T>(on: bool, r: Result<T, ScrapeError>): Result<Option<T>, ScrapeError>
  {
    if !on then Ok(None)
    else match r
      case Ok(v) => Ok(Some(v))
      case Err(e) => Err(e)
  }

  /** The fields of the first half of the dispatch table. */
  datatype Front = Front(
    title: Option<Cell>, ingredients: Option<seq<string>>,
    details: Option<Entries<Cell>>, reviews: Option<ReviewCount>)

  /** The fields of the second half, up to the link. */
  datatype Back = Back(
    rating: Option<RatingValue>, nutrition: Option<Entries<int>>,
    published: Option<string>, category: Option<seq<string>>)

  /** The first half of the dispatch table, in order. */
  function FrontOf(k: SiteConstants, sel: Selection, doc: Document): Result<Front, ScrapeError>
  {
    var title :- Pick(sel.title, GetTitle(doc));
    var ingredients :- Pick(sel.ingredients, Ok(IngredientsOf(doc.ingredientLists)));
    var details :- Pick(sel.details, DetailsOf(k, doc.detailsGrid));
    var reviews :- Pick(sel.reviews, GetNumReviews(doc.reviews));
    Ok(Front(title, ingredients, details, reviews))
  }

  /** The second half of the dispatch table, in order. */
  function BackOf(k: SiteConstants, sel: Selection, doc: Document): Result<Back, ScrapeError>
  {
    var rating :- Pick(sel.rating, GetRating(doc.rating));
    var nutrition :- Pick(sel.nutrition, NutritionOf(k, doc.nutritionRows));
    var published :- Pick(sel.published, GetDatePublished(k, doc.date));
    var category :- Pick(sel.category, GetCategories(doc.breadcrumb));
    Ok(Back(rating, nutrition, published, category))
  }

  /** The dict comprehension over the dispatch table: every selected
      extractor in table order; the first that raises ends the page. The
      link entry cannot raise. */
  function FieldsOf(k: SiteConstants, sel: Selection, link: string, doc: Document): Result<FieldMap, ScrapeError>
  {
    var f :- FrontOf(k, sel, doc);
    var b :- BackOf(k, sel, doc);
    var link := if sel.link then Some(link) else None;
    Ok(FieldMap(f.title, f.ingredients, f.details, f.reviews, b.rating, b.nutrition,
                b.published, b.category, link, None))
  }

  /** The loop body on one page. */
  function PageOutcome(k: SiteConstants, sel: Selection, page: Page): Outcome
  {
    match page.document
    case None => Failed(NoSoup)
    case Some(doc) =>
      if IngredientsOf(doc.ingredientLists) == [] then Skipped
      else match FieldsOf(k, sel, page.link, doc)
        case Ok(m) => Scraped(m)
        case Err(e) => Failed(e)
  }

  /** The report blocks and log lines the loop has produced after the given
      pages; blocks are numbered from one, in the order recipes succeed. */
  function Run(k: SiteConstants, sel: Selection, pages: seq<Page>): (seq<Block>, seq<LogLine>)
  {
    if pages == [] then ([], [])
    else
      var (report, log) := Run(k, sel, pages[..|pages| - 1]);
      var page := pages[|pages| - 1];
      match PageOutcome(k, sel, page)
      case Skipped => (report, log)
      case Failed(e) => (report, log + [Error(page.link, e)])
      case Scraped(m) =>
        var n := |report| + 1;
        (report + [Block(n, m)], log + [Info(n)])
  }

  /** The first four entries of the comprehension. */
  method ScrapeFront(k: SiteConstants, sel: Selection, doc: Document) returns (r: Result<Front, ScrapeError>)
    ensures r == FrontOf(k, sel, doc)
  {
    var title: Option<Cell> := None;
    if sel.title {
      var t := GetTitle(doc);
      if t.Err? { return Err(t.error); }
      title := Some(t.value);
    }
    var ingredients: Option<seq<string>> := None;
    if sel.ingredients {
      var i := GetIngredients(doc.ingredientLists);
      ingredients := Some(i);
    }
    var details: Option<Entries<Cell>> := None;
    if sel.details {
      var d := GetRecipeDetails(k, doc.detailsGrid);
      if d.Err? { return Err(d.error); }
      details := Some(d.value);
    }
    var reviews: Option<ReviewCount> := None;
    if sel.reviews {
      var v := GetNumReviews(doc.reviews);
      if v.Err? { return Err(v.error); }
      reviews := Some(v.value);
    }
    return Ok(Front(title, ingredients, details, reviews));
  }

  /** The next four entries of the comprehension. */
  method ScrapeBack(k: SiteConstants, sel: Selection, doc: Document) returns (r: Result<Back, ScrapeError>)
    ensures r == BackOf(k, sel, doc)
  {
    var rating: Option<RatingValue> := None;
    if sel.rating {
      var g := GetRating(doc.rating);
      if g.Err? { return Err(g.error); }
      rating := Some(g.value);
    }
    var nutrition: Option<Entries<int>> := None;
    if sel.nutrition {
      var n := GetNutritionFacts(k, doc.nutritionRows);
      if n.Err? { return Err(n.error); }
      nutrition := Some(n.value);
    }
    var published: Option<string> := None;
    if sel.published {
      var p := GetDatePublished(k, doc.date);
      if p.Err? { return Err(p.error); }
      published := Some(p.value);
    }
    var category: Option<seq<string>> := None;
    if sel.category {
      var c := GetCategories(doc.breadcrumb);
      if c.Err? { return Err(c.error); }
      category := Some(c.value);
    }
    return Ok(Back(rating, nutrition, published, category));
  }

  /** The try block on one page: get the ingredients, skip a page without
      any, then build the field mapping in table order. */
  method ScrapePage(k: SiteConstants, sel: Selection, page: Page) returns (outcome: Outcome)
    ensures outcome == PageOutcome(k, sel, page)
  {
    if page.document.None? {
      return Failed(NoSoup);
    }
    var doc := page.document.value;
    var found := GetIngredients(doc.ingredientLists);
    if |found| == 0 {
      return Skipped;
    }
    var front := ScrapeFront(k, sel, doc);
    if front.Err? {
      return Failed(front.error);
    }
    var back := ScrapeBack(k, sel, doc);
    if back.Err? {
      return Failed(back.error);
    }
    var f, b := front.value, back.value;
    var link := if sel.link then Some(page.link) else None;
    return Scraped(FieldMap(f.title, f.ingredients, f.details, f.reviews, b.rating, b.nutrition,
                            b.published, b.category, link, None));
  }

  /** scraper: run the loop body on every link in order, numbering the
      recipes that succeed from one. */
  method RunScraper(k: SiteConstants, sel: Selection, pages: seq<Page>)
    returns (report: seq<Block>, log: seq<LogLine>)
    ensures (report, log) == Run(k, sel, pages)
  {
    var recipesScraped := 1;
    report, log := [], [];
    for n := 0 to |pages|
      invariant (report, log) == Run(k, sel, pages[..n])
      invariant recipesScraped == |report| + 1
    {
      assert pages[..n + 1][..n] == pages[..n];
      var outcome := ScrapePage(k, sel, pages[n]);
      match outcome
      case Skipped =>
      case Failed(e) =>
        log := log + [Error(pages[n].link, e)];
      case Scraped(m) =>
        report := report + [Block(recipesScraped, m)];
        log := log + [Info(recipesScraped)];
        recipesScraped := recipesScraped + 1;
    }
    assert pages[..|pages|] == pages;
  }

  /** How many pages were scraped, and how many failed. */
  function Tally(k: SiteConstants, sel: Selection, pages: seq<Page>): (t: (nat, nat))
  {
    if pages == [] then (0, 0)
    else
      var (ok, bad) := Tally(k, sel, pages[..|pages| - 1]);
      match PageOutcome(k, sel, pages[|pages| - 1])
      case Skipped => (ok, bad)
      case Failed(_) => (ok, bad + 1)
      case Scraped(_) => (ok + 1, bad)
  }

  /** The report has a block per scraped page, numbered from one without
      gaps; the log has a line per scraped or failed page; skipped pages
      leave no trace. */
  lemma {:induction false} RunNumbered(k: SiteConstants, sel: Selection, pages: seq<Page>)
    ensures var (report, log) := Run(k, sel, pages);
            && |report| == Tally(k, sel, pages).0
            && |log| == Tally(k, sel, pages).0 + Tally(k, sel, pages).1
            && forall i :: 0 <= i < |report| ==> report[i].number == i + 1
  {
    if pages != [] {
      RunNumbered(k, sel, pages[..|pages| - 1]);
    }
  }

  lemma FrontSelected(k: SiteConstants, sel: Selection, doc: Document)
    requires FrontOf(k, sel, doc).Ok?
    ensures var f := FrontOf(k, sel, doc).value;
            && f.title.Some? == sel.title && f.ingredients.Some? == sel.ingredients
            && f.details.Some? == sel.details && f.reviews.Some? == sel.reviews
  {
  }

  lemma BackSelected(k: SiteConstants, sel: Selection, doc: Document)
    requires BackOf(k, sel, doc).Ok?
    ensures var b := BackOf(k, sel, doc).value;
            && b.rating.Some? == sel.rating && b.nutrition.Some? == sel.nutrition
            && b.published.Some? == sel.published && b.category.Some? == sel.category
  {
  }

  /** A scraped mapping has exactly the keys of the selected fields. */
  lemma FieldsSelected(k: SiteConstants, sel: Selection, link: string, doc: Document)
    requires FieldsOf(k, sel, link, doc).Ok?
    ensures HasSelectedKeys(FieldsOf(k, sel, link, doc).value, sel)
  {
    FrontSelected(k, sel, doc);
    BackSelected(k, sel, doc);
  }

  /** Every block of the report has exactly the selected keys and is the
      mapping scraped from one of the pages. */
  lemma {:induction false} RunBlocks(k: SiteConstants, sel: Selection, pages: seq<Page>)
    ensures forall i :: 0 <= i < |Run(k, sel, pages).0| ==>
              var m := Run(k, sel, pages).0[i].fields;
              && HasSelectedKeys(m, sel)
              && exists j :: 0 <= j < |pages| && PageOutcome(k, sel, pages[j]) == Scraped(m)
  {
    if pages != [] {
      var init := pages[..|pages| - 1];
      var last := pages[|pages| - 1];
      RunBlocks(k, sel, init);
      forall i | 0 <= i < |Run(k, sel, init).0|
        ensures exists j :: 0 <= j < |pages| && PageOutcome(k, sel, pages[j]) == Scraped(Run(k, sel, init).0[i].fields)
      {
        var j :| 0 <= j < |init| && PageOutcome(k, sel, init[j]) == Scraped(Run(k, sel, init).0[i].fields);
        assert pages[j] == init[j];
      }
      if PageOutcome(k, sel, last).Scraped? {
        FieldsSelected(k, sel, last.link, last.document.value);
      }
    }
  }

  /** A fetched page is skipped exactly when it has no ingredient lists;
      an unfetched page fails. */
  lemma SkippedIff(k: SiteConstants, sel: Selection, page: Page)
    ensures PageOutcome(k, sel, page) == Skipped <==>
            page.document.Some? && page.document.value.ingredientLists == []
    ensures page.document.None? ==> PageOutcome(k, sel, page) == Failed(NoSoup)
  {
    if page.document.Some? {
      var lists := page.document.value.ingredientLists;
      if lists != [] {
        assert |IngredientsOf(lists)| >= 1;
      }
    }
  }

  /** A scraped page with ingredients selected carries a non-empty
      ingredient list, the one that let it through. */
  lemma ScrapedIngredients(k: SiteConstants, sel: Selection, page: Page)
    requires PageOutcome(k, sel, page).Scraped? && sel.ingredients
    ensures var m := PageOutcome(k, sel, page).fields;
            m.ingredients == Some(IngredientsOf(page.document.value.ingredientLists))
            && m.ingredients.value != []
  {
  }

  /** Extractors that are not selected are never consulted: their nodes
      can be anything. */
  lemma UnselectedIgnored(k: SiteConstants, sel: Selection, link: string, doc: Document, other: Document)
    requires doc.ingredientLists == other.ingredientLists
    requires sel.title ==> doc.title == other.title
    requires sel.details ==> doc.detailsGrid == other.detailsGrid
    requires sel.reviews ==> doc.reviews == other.reviews
    requires sel.rating ==> doc.rating == other.rating
    requires sel.nutrition ==> doc.nutritionRows == other.nutritionRows
    requires sel.published ==> doc.date == other.date
    requires sel.category ==> doc.breadcrumb == other.breadcrumb
    ensures FieldsOf(k, sel, link, doc) == FieldsOf(k, sel, link, other)
  {
    assert FrontOf(k, sel, doc) == FrontOf(k, sel, other);
    assert BackOf(k, sel, doc) == BackOf(k, sel, other);
  }

  /** The table order decides which error a page reports: a missing title
      wins over any later failure, and a failing extractor is reported
      only when everything selected before it succeeded. */
  lemma TitleFailsFirst(k: SiteConstants, sel: Selection, link: string, doc: Document)
    requires sel.title && doc.title.None?
    ensures FieldsOf(k, sel, link, doc) == Err(Missing(TitleNode))
  {
  }

  lemma NutritionFailsAfterFront(k: SiteConstants, sel: Selection, link: string, doc: Document)
    requires sel.nutrition && doc.nutritionRows.None?
    ensures FieldsOf(k, sel, link, doc).Err?
    ensures FrontOf(k, sel, doc).Ok? && (sel.rating ==> GetRating(doc.rating).Ok?) ==>
            FieldsOf(k, sel, link, doc) == Err(Missing(NutritionTable))
    ensures FrontOf(k, sel, doc).Ok? && sel.rating && GetRating(doc.rating).Err? ==>
            FieldsOf(k, sel, link, doc) == Err(GetRating(doc.rating).error)
    ensures FrontOf(k, sel, doc).Err? ==> FieldsOf(k, sel, link, doc) == Err(FrontOf(k, sel, doc).error)
  {
  }

  /** A selected rating node that makes get_rating raise, for want of a
      match or because float() rejects it, fails the page, with the
      rating's error once the first half has succeeded. */
  lemma RatingErrorFailsPage(k: SiteConstants, sel: Selection, page: Page)
    requires page.document.Some? && page.document.value.ingredientLists != []
    requires sel.rating && GetRating(page.document.value.rating).Err?
    ensures PageOutcome(k, sel, page).Failed?
    ensures var doc := page.document.value;
            FrontOf(k, sel, doc).Ok? ==>
            PageOutcome(k, sel, page) == Failed(GetRating(doc.rating).error)
  {
    assert |IngredientsOf(page.document.value.ingredientLists)| >= 1;
  }
}
