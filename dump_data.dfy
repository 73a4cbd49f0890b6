/** Writing a scraped recipe to the database and reading it back
    (dump_data.py). The MySQL connection is the in-memory `Database`;
    `write_to_database` inserts on an uncommitted transaction and commits
    at the end, so a KeyError part way leaves the tables as they were. */
module DumpData {
  import opened Wrappers
  import opened Dicts
  import opened Recipe
  import opened Tables
  import Text

  // ---------------------------------------------------------------------
  // check_if_keys_exist
  // ---------------------------------------------------------------------

  /** The dict after check_if_keys_exist: each listed key it lacks is
      added, in list order, with the value None. */
  function WithKeys(d: Entries<Cell>, keys: seq<string>): Entries<Cell>
  {
    if keys == [] then d
    else
      var e := WithKeys(d, keys[..|keys| - 1]);
      var k := keys[|keys| - 1];
      if k in Keys(e) then e else Put(e, k, Null)
  }

  /** check_if_keys_exist: add each missing key with None, in place, and
      hand back the same dict. */
  method CheckIfKeysExist(d: Mapping<Cell>, keys: seq<string>) returns (r: Mapping<Cell>)
    requires d.Valid()
    modifies d
    ensures r == d && d.Valid()
    ensures d.entries == WithKeys(old(d.entries), keys)
  {
    for n := 0 to |keys|
      invariant d.Valid()
      invariant d.entries == WithKeys(old(d.entries), keys[..n])
    {
      assert keys[..n + 1][..n] == keys[..n];
      if !d.Has(keys[n]) {
        d.Set(keys[n], Null);
      }
    }
    assert keys[..|keys|] == keys;
    return d;
  }

  /** Afterwards every listed key is present; keys already present keep
      their values and their places; the only new keys are listed ones,
      and they hold None. */
  lemma {:induction false} WithKeysFacts(d: Entries<Cell>, keys: seq<string>)
    requires DistinctKeys(d)
    ensures var r := WithKeys(d, keys);
            && DistinctKeys(r)
            && (forall k :: k in Keys(r) <==> k in Keys(d) || k in keys)
            && (forall k :: k in Keys(d) ==> Get(r, k) == Get(d, k))
            && (forall k :: k in keys && k !in Keys(d) ==> Get(r, k) == Some(Null))
            && |d| <= |r| && r[..|d|] == d
  {
    if keys != [] {
      var init := keys[..|keys| - 1];
      var e := WithKeys(d, init);
      var k := keys[|keys| - 1];
      WithKeysFacts(d, init);
      assert forall x :: x in keys <==> x in init || x == k;
      if k !in Keys(e) {
        PutFacts(e, k, Null);
        assert Put(e, k, Null)[..|e|] == e;
      }
    }
  }

  /** With every listed key already present, nothing changes. */
  lemma {:induction false} WithKeysPresent(d: Entries<Cell>, keys: seq<string>)
    requires forall k :: k in keys ==> k in Keys(d)
    ensures WithKeys(d, keys) == d
  {
    if keys != [] {
      WithKeysPresent(d, keys[..|keys| - 1]);
    }
  }

  /** A second call with the same keys changes nothing. */
  lemma WithKeysIdempotent(d: Entries<Cell>, keys: seq<string>)
    requires DistinctKeys(d)
    ensures WithKeys(WithKeys(d, keys), keys) == WithKeys(d, keys)
  {
    WithKeysFacts(d, keys);
    WithKeysPresent(WithKeys(d, keys), keys);
  }

  // ---------------------------------------------------------------------
  // write_to_database
  // ---------------------------------------------------------------------

  const DETAIL_KEYS := ["Prep Time:", "Cook Time:", "Total Time:", "Servings:"]

  /** The KeyError `write_to_database` raises: the key it looked up. */
  datatype WriteError = MissingKey(key: string)

  /** A detail column: the value under `key`, None where the dict has no
      such key. */
  function Column(d: Entries<Cell>, key: string): Cell
  {
    match Get(d, key)
    case Some(v) => v
    case None => Null
  }

  function DetailsRowOf(recipe: nat, d: Entries<Cell>): DetailsRow
  {
    var full := WithKeys(d, DETAIL_KEYS);
    DetailsRow(recipe, Column(full, "Prep Time:"), Column(full, "Cook Time:"),
               Column(full, "Total Time:"), Column(full, "Servings:"))
  }

  /** The relationship rows for `n` categories inserted from id `first`. */
  function CategoryLinks(first: nat, n: nat, recipe: nat): (r: seq<LinkRow>)
    ensures |r| == n && forall i :: 0 <= i < n ==> r[i] == LinkRow(first + i, recipe)
  {
    seq(n, i requires 0 <= i < n => LinkRow(first + i, recipe))
  }

  function IngredientRows(recipe: nat, ingredients: seq<string>): (r: seq<IngredientRow>)
    ensures |r| == |ingredients|
    ensures forall i :: 0 <= i < |r| ==> r[i] == IngredientRow(recipe, ingredients[i], false)
  {
    seq(|ingredients|, i requires 0 <= i < |ingredients| => IngredientRow(recipe, ingredients[i], false))
  }

  function InstructionRows(recipe: nat, steps: Entries<string>): (r: seq<InstructionRow>)
    ensures |r| == |steps|
    ensures forall i :: 0 <= i < |r| ==> r[i] == InstructionRow(recipe, steps[i].1)
  {
    seq(|steps|, i requires 0 <= i < |steps| => InstructionRow(recipe, steps[i].1))
  }

  /** Every key write_to_database reads is there. */
  predicate Complete(m: FieldMap)
  {
    && m.link.Some? && m.title.Some? && m.reviews.Some? && m.rating.Some? && m.published.Some?
    && m.details.Some? && m.nutrition.Some?
    && Get(m.nutrition.value, "Calories").Some? && Get(m.nutrition.value, "Fat").Some?
    && Get(m.nutrition.value, "Carbs").Some? && Get(m.nutrition.value, "Protein").Some?
    && m.category.Some? && m.ingredients.Some? && m.instructions.Some?
  }

  /** The first key write_to_database looks up and does not find, in the
      order the code reads them; None exactly when every key is there. */
  function FirstMissing(m: FieldMap): (r: Option<string>)
    ensures r.None? <==> Complete(m)
  {
    if m.link.None? then Some("link")
    else if m.title.None? then Some("title")
    else if m.reviews.None? then Some("reviews")
    else if m.rating.None? then Some("rating")
    else if m.published.None? then Some("published")
    else if m.details.None? then Some("details")
    else if m.nutrition.None? then Some("nutrition")
    else if Get(m.nutrition.value, "Calories").None? then Some("Calories")
    else if Get(m.nutrition.value, "Fat").None? then Some("Fat")
    else if Get(m.nutrition.value, "Carbs").None? then Some("Carbs")
    else if Get(m.nutrition.value, "Protein").None? then Some("Protein")
    else if m.category.None? then Some("category")
    else if m.ingredients.None? then Some("ingredients")
    else if m.instructions.None? then Some("instructions")
    else None
  }

  /** The values write_to_database reads out of the scraped mapping. */
  datatype Scraped = Scraped(
    link: string, title: Cell, reviews: ReviewCount, rating: RatingValue, published: string,
    details: Entries<Cell>, calories: int, fat: int, carbs: int, protein: int,
    categories: seq<string>, ingredients: seq<string>, instructions: Entries<string>)

  /** The key lookups of write_to_database: the values, or the KeyError
      of the first key missing. */
  function Read(m: FieldMap): Result<Scraped, WriteError>
  {
    match FirstMissing(m)
    case Some(k) => Err(MissingKey(k))
    case None =>
      var n := m.nutrition.value;
      Ok(Scraped(m.link.value, m.title.value, m.reviews.value, m.rating.value, m.published.value,
                 m.details.value, Get(n, "Calories").value, Get(n, "Fat").value,
                 Get(n, "Carbs").value, Get(n, "Protein").value,
                 m.category.value, m.ingredients.value, m.instructions.value))
  }

  /** The tables after a write of the values `w`. */
  function Committed(s: Store, w: Scraped): Store
  {
    var recipe := s.recipes.next;
    Store(
      Insert(s.recipes, RecipeRow(w.link, w.title, w.reviews, w.rating, w.published)),
      Insert(s.details, DetailsRowOf(recipe, w.details)),
      Insert(s.nutrition, FactsRow(recipe, w.calories, w.fat, w.carbs, w.protein)),
      InsertAll(s.categories, w.categories),
      InsertAll(s.relationship, CategoryLinks(s.categories.next, |w.categories|, recipe)),
      InsertAll(s.ingredients, IngredientRows(recipe, w.ingredients)),
      InsertAll(s.instructions, InstructionRows(recipe, w.instructions)),
      s.clean)
  }

  /** What write_to_database commits, or the KeyError it raises. */
  function Written(s: Store, m: FieldMap): Result<Store, WriteError>
  {
    match Read(m)
    case Err(e) => Err(e)
    case Ok(w) => Ok(Committed(s, w))
  }

  /** Appending one more category appends one more link. */
  lemma CategoryLinksStep(first: nat, n: nat, recipe: nat)
    ensures CategoryLinks(first, n + 1, recipe) == CategoryLinks(first, n, recipe) + [LinkRow(first + n, recipe)]
  {
  }

  /** The category loop: each category gets a row, and a relationship row
      links its fresh id to the recipe. */
  method InsertCategories(s: Store, categories: seq<string>, recipe: nat) returns (t: Store)
    ensures t == s.(categories := InsertAll(s.categories, categories),
                    relationship := InsertAll(s.relationship, CategoryLinks(s.categories.next, |categories|, recipe)))
  {
    var first := s.categories.next;
    var cats, links := s.categories, s.relationship;
    for n := 0 to |categories|
      invariant cats == InsertAll(s.categories, categories[..n])
      invariant links == InsertAll(s.relationship, CategoryLinks(first, n, recipe))
    {
      assert categories[..n + 1] == categories[..n] + [categories[n]];
      InsertAllStep(s.categories, categories[..n], categories[n]);
      CategoryLinksStep(first, n, recipe);
      InsertAllStep(s.relationship, CategoryLinks(first, n, recipe), LinkRow(first + n, recipe));
      var categoryId := cats.next;  // what lastrowid reports after the insert
      cats := Insert(cats, categories[n]);
      links := Insert(links, LinkRow(categoryId, recipe));
    }
    assert categories[..|categories|] == categories;
    t := s.(categories := cats, relationship := links);
  }

  /** The ingredient loop: one row per ingredient, in list order. */
  method InsertIngredients(s: Store, ingredients: seq<string>, recipe: nat) returns (t: Store)
    ensures t == s.(ingredients := InsertAll(s.ingredients, IngredientRows(recipe, ingredients)))
  {
    t := s;
    for n := 0 to |ingredients|
      invariant t == s.(ingredients := InsertAll(s.ingredients, IngredientRows(recipe, ingredients[..n])))
    {
      var rows := IngredientRows(recipe, ingredients[..n]);
      assert IngredientRows(recipe, ingredients[..n + 1]) == rows + [IngredientRow(recipe, ingredients[n], false)];
      InsertAllStep(s.ingredients, rows, IngredientRow(recipe, ingredients[n], false));
      t := t.(ingredients := Insert(t.ingredients, IngredientRow(recipe, ingredients[n], false)));
    }
    assert ingredients[..|ingredients|] == ingredients;
  }

  /** The instruction loop: one row per entry, in dict order. */
  method InsertInstructions(s: Store, steps: Entries<string>, recipe: nat) returns (t: Store)
    ensures t == s.(instructions := InsertAll(s.instructions, InstructionRows(recipe, steps)))
  {
    t := s;
    for n := 0 to |steps|
      invariant t == s.(instructions := InsertAll(s.instructions, InstructionRows(recipe, steps[..n])))
    {
      var rows := InstructionRows(recipe, steps[..n]);
      assert InstructionRows(recipe, steps[..n + 1]) == rows + [InstructionRow(recipe, steps[n].1)];
      InsertAllStep(s.instructions, rows, InstructionRow(recipe, steps[n].1));
      t := t.(instructions := Insert(t.instructions, InstructionRow(recipe, steps[n].1)));
    }
    assert steps[..|steps|] == steps;
  }

  /** write_to_database: insert the recipe, its details (missing ones as
      None), its nutrition facts, its categories, ingredients and
      instructions, then commit; a missing key raises before the commit. */
  method WriteToDatabase(db: Database, data: FieldMap) returns (r: Result<(), WriteError>)
    requires data.details.Some? ==> DistinctKeys(data.details.value)
    modifies db
    ensures Written(old(db.Snapshot()), data).Err? ==>
              r == Err(Written(old(db.Snapshot()), data).error) && unchanged(db)
    ensures Written(old(db.Snapshot()), data).Ok? ==>
              r == Ok(()) && db.Snapshot() == Written(old(db.Snapshot()), data).value
  {
    var pending := db.Snapshot();
    if data.link.None? { return Err(MissingKey("link")); }
    if data.title.None? { return Err(MissingKey("title")); }
    if data.reviews.None? { return Err(MissingKey("reviews")); }
    if data.rating.None? { return Err(MissingKey("rating")); }
    if data.published.None? { return Err(MissingKey("published")); }
    var recipe := pending.recipes.next;  // what lastrowid reports after the insert
    pending := pending.(recipes := Insert(pending.recipes,
      RecipeRow(data.link.value, data.title.value, data.reviews.value, data.rating.value, data.published.value)));

    if data.details.None? { return Err(MissingKey("details")); }
    var notChecked := new Mapping(data.details.value);
    var details := CheckIfKeysExist(notChecked, DETAIL_KEYS);
    pending := pending.(details := Insert(pending.details,
      DetailsRow(recipe, Column(details.entries, "Prep Time:"), Column(details.entries, "Cook Time:"),
                 Column(details.entries, "Total Time:"), Column(details.entries, "Servings:"))));

    if data.nutrition.None? { return Err(MissingKey("nutrition")); }
    var nutrition := data.nutrition.value;
    var calories := Get(nutrition, "Calories");
    if calories.None? { return Err(MissingKey("Calories")); }
    var fat := Get(nutrition, "Fat");
    if fat.None? { return Err(MissingKey("Fat")); }
    var carbs := Get(nutrition, "Carbs");
    if carbs.None? { return Err(MissingKey("Carbs")); }
    var protein := Get(nutrition, "Protein");
    if protein.None? { return Err(MissingKey("Protein")); }
    pending := pending.(nutrition := Insert(pending.nutrition,
      FactsRow(recipe, calories.value, fat.value, carbs.value, protein.value)));

    if data.category.None? { return Err(MissingKey("category")); }
    pending := InsertCategories(pending, data.category.value, recipe);
    if data.ingredients.None? { return Err(MissingKey("ingredients")); }
    pending := InsertIngredients(pending, data.ingredients.value, recipe);
    if data.instructions.None? { return Err(MissingKey("instructions")); }
    pending := InsertInstructions(pending, data.instructions.value, recipe);
    db.Commit(pending);
    return Ok(());
  }

  /** A committed write leaves a consistent database consistent: every
      row it adds refers to the recipe row it added, and every relationship
      row to the category row added with it. */
  lemma WrittenConsistent(s: Store, w: Scraped)
    requires Consistent(s)
    ensures Consistent(Committed(s, w))
  {
    WrittenKeyed(s, w);
    WrittenLinked(s, w);
  }

  lemma WrittenKeyed(s: Store, w: Scraped)
    requires AllKeyed(s)
    ensures AllKeyed(Committed(s, w))
    ensures Ids(Committed(s, w).recipes) == Ids(s.recipes) + {s.recipes.next}
    ensures forall id :: id in Ids(Committed(s, w).categories) <==>
              id in Ids(s.categories) || s.categories.next <= id < s.categories.next + |w.categories|
  {
    var t := Committed(s, w);
    var recipe := s.recipes.next;
    InsertFacts(s.recipes, RecipeRow(w.link, w.title, w.reviews, w.rating, w.published));
    InsertFacts(s.details, t.details.rows[|s.details.rows|].1);
    InsertFacts(s.nutrition, t.nutrition.rows[|s.nutrition.rows|].1);
    InsertAllFacts(s.categories, w.categories);
    InsertAllFacts(s.relationship, CategoryLinks(s.categories.next, |w.categories|, recipe));
    InsertAllFacts(s.ingredients, IngredientRows(recipe, w.ingredients));
    InsertAllFacts(s.instructions, InstructionRows(recipe, w.instructions));
  }

  lemma WrittenLinked(s: Store, w: Scraped)
    requires Consistent(s)
    ensures Linked(Committed(s, w))
  {
    var t := Committed(s, w);
    var recipe := s.recipes.next;
    WrittenKeyed(s, w);
    var ids := Ids(t.recipes);
    var cats := Ids(t.categories);
    assert recipe in ids;
    assert forall id :: s.categories.next <= id < s.categories.next + |w.categories| ==> id in cats;
    IngredientsLinked(s.ingredients, recipe, w.ingredients, ids);
    InstructionsLinked(s.instructions, recipe, w.instructions, ids);
    RelationshipLinked(s.relationship, s.categories.next, |w.categories|, recipe, ids, cats);
    SingleRowsLinked(s, w);
  }

  lemma SingleRowsLinked(s: Store, w: Scraped)
    requires Consistent(s)
    ensures var t := Committed(s, w);
            && (forall i :: 0 <= i < |t.details.rows| ==> t.details.rows[i].1.recipe in Ids(t.recipes))
            && (forall i :: 0 <= i < |t.nutrition.rows| ==> t.nutrition.rows[i].1.recipe in Ids(t.recipes))
            && (forall i :: 0 <= i < |t.clean.rows| ==> t.clean.rows[i].1.recipe in Ids(t.recipes))
  {
    WrittenKeyed(s, w);
  }

  lemma IngredientsLinked(t: Table<IngredientRow>, recipe: nat, ings: seq<string>, ids: set<nat>)
    requires recipe in ids
    requires forall i :: 0 <= i < |t.rows| ==> t.rows[i].1.recipe in ids
    ensures var u := InsertAll(t, IngredientRows(recipe, ings));
            forall i :: 0 <= i < |u.rows| ==> u.rows[i].1.recipe in ids
  {
    var u := InsertAll(t, IngredientRows(recipe, ings));
    InsertAllRows(t, IngredientRows(recipe, ings));
    forall i | 0 <= i < |u.rows| ensures u.rows[i].1.recipe in ids {
      if i < |t.rows| {
        assert u.rows[i] == u.rows[..|t.rows|][i];
      } else {
        assert u.rows[|t.rows| + (i - |t.rows|)].1 == IngredientRow(recipe, ings[i - |t.rows|], false);
      }
    }
  }

  lemma InstructionsLinked(t: Table<InstructionRow>, recipe: nat, steps: Entries<string>, ids: set<nat>)
    requires recipe in ids
    requires forall i :: 0 <= i < |t.rows| ==> t.rows[i].1.recipe in ids
    ensures var u := InsertAll(t, InstructionRows(recipe, steps));
            forall i :: 0 <= i < |u.rows| ==> u.rows[i].1.recipe in ids
  {
    var u := InsertAll(t, InstructionRows(recipe, steps));
    InsertAllRows(t, InstructionRows(recipe, steps));
    forall i | 0 <= i < |u.rows| ensures u.rows[i].1.recipe in ids {
      if i < |t.rows| {
        assert u.rows[i] == u.rows[..|t.rows|][i];
      } else {
        assert u.rows[|t.rows| + (i - |t.rows|)].1 == InstructionRow(recipe, steps[i - |t.rows|].1);
      }
    }
  }

  lemma RelationshipLinked(t: Table<LinkRow>, first: nat, n: nat, recipe: nat, ids: set<nat>, cats: set<nat>)
    requires recipe in ids
    requires forall id :: first <= id < first + n ==> id in cats
    requires forall i :: 0 <= i < |t.rows| ==> t.rows[i].1.recipe in ids && t.rows[i].1.category in cats
    ensures var u := InsertAll(t, CategoryLinks(first, n, recipe));
            forall i :: 0 <= i < |u.rows| ==> u.rows[i].1.recipe in ids && u.rows[i].1.category in cats
  {
    var u := InsertAll(t, CategoryLinks(first, n, recipe));
    InsertAllRows(t, CategoryLinks(first, n, recipe));
    forall i | 0 <= i < |u.rows| ensures u.rows[i].1.recipe in ids && u.rows[i].1.category in cats {
      if i < |t.rows| {
        assert u.rows[i] == u.rows[..|t.rows|][i];
      } else {
        assert u.rows[|t.rows| + (i - |t.rows|)].1 == LinkRow(first + (i - |t.rows|), recipe);
      }
    }
  }

  /** A committed write adds one recipe row, under the next id, holding
      the scraped link, title, reviews, rating and date; one details row
      and one nutrition row (calories, fat, carbs, protein) carrying that
      id. */
  lemma WrittenRecipeRows(s: Store, w: Scraped)
    ensures var t := Committed(s, w);
            var recipe := s.recipes.next;
            && t.recipes.rows == s.recipes.rows
                 + [(recipe, RecipeRow(w.link, w.title, w.reviews, w.rating, w.published))]
            && t.details.rows == s.details.rows + [(s.details.next, DetailsRowOf(recipe, w.details))]
            && t.nutrition.rows == s.nutrition.rows
                 + [(s.nutrition.next, FactsRow(recipe, w.calories, w.fat, w.carbs, w.protein))]
  {
  }

  /** For each category in order, a category row under the next category
      id. */
  lemma WrittenCategoryRows(s: Store, w: Scraped)
    ensures var u := Committed(s, w).categories;
            var cats := w.categories;
            && |u.rows| == |s.categories.rows| + |cats|
            && u.rows[..|s.categories.rows|] == s.categories.rows
            && (forall i :: 0 <= i < |cats| ==> u.rows[|s.categories.rows| + i] == (s.categories.next + i, cats[i]))
  {
    assert Committed(s, w).categories == InsertAll(s.categories, w.categories);
    InsertAllRows(s.categories, w.categories);
  }

  /** For each category in order, a relationship row linking the category
      id it got to the recipe id. */
  lemma WrittenRelationshipRows(s: Store, w: Scraped)
    ensures var u := Committed(s, w).relationship;
            var n := |w.categories|;
            && |u.rows| == |s.relationship.rows| + n
            && u.rows[..|s.relationship.rows|] == s.relationship.rows
            && (forall i :: |s.relationship.rows| <= i < |u.rows| ==>
                  u.rows[i].1 == LinkRow(s.categories.next + (i - |s.relationship.rows|), s.recipes.next))
  {
    var links := CategoryLinks(s.categories.next, |w.categories|, s.recipes.next);
    assert Committed(s, w).relationship == InsertAll(s.relationship, links);
    InsertAllRows(s.relationship, links);
  }

  /** One ingredient row per ingredient, in list order, carrying the
      recipe id and not yet processed. */
  lemma WrittenIngredientRows(s: Store, w: Scraped)
    ensures var u := Committed(s, w).ingredients;
            var ings := w.ingredients;
            && |u.rows| == |s.ingredients.rows| + |ings|
            && u.rows[..|s.ingredients.rows|] == s.ingredients.rows
            && (forall i :: 0 <= i < |ings| ==> u.rows[|s.ingredients.rows| + i].1 == IngredientRow(s.recipes.next, ings[i], false))
  {
    var rows := IngredientRows(s.recipes.next, w.ingredients);
    assert Committed(s, w).ingredients == InsertAll(s.ingredients, rows);
    InsertAllRows(s.ingredients, rows);
  }

  /** One instruction row per instruction entry, in dict order, carrying
      the recipe id; the clean table is not touched. */
  lemma WrittenInstructionRows(s: Store, w: Scraped)
    ensures var u := Committed(s, w).instructions;
            var steps := w.instructions;
            && |u.rows| == |s.instructions.rows| + |steps|
            && u.rows[..|s.instructions.rows|] == s.instructions.rows
            && (forall i :: 0 <= i < |steps| ==> u.rows[|s.instructions.rows| + i].1 == InstructionRow(s.recipes.next, steps[i].1))
            && Committed(s, w).clean == s.clean
  {
    var rows := InstructionRows(s.recipes.next, w.instructions);
    assert Committed(s, w).instructions == InsertAll(s.instructions, rows);
    InsertAllRows(s.instructions, rows);
  }

  /** Each detail column holds the scraped value under its key, or None
      where the scraped details lack the key. */
  lemma DetailsDefaults(recipe: nat, d: Entries<Cell>)
    requires DistinctKeys(d)
    ensures var row := DetailsRowOf(recipe, d);
            && row.prep == (if "Prep Time:" in Keys(d) then Get(d, "Prep Time:").value else Null)
            && row.cook == (if "Cook Time:" in Keys(d) then Get(d, "Cook Time:").value else Null)
            && row.total == (if "Total Time:" in Keys(d) then Get(d, "Total Time:").value else Null)
            && row.servings == (if "Servings:" in Keys(d) then Get(d, "Servings:").value else Null)
  {
    WithKeysFacts(d, DETAIL_KEYS);
    assert "Prep Time:" in DETAIL_KEYS && "Cook Time:" in DETAIL_KEYS;
    assert "Total Time:" in DETAIL_KEYS && "Servings:" in DETAIL_KEYS;
  }

  /** The scraper never produces the `instructions` key, so writing what
      it scrapes always raises. */
  lemma ScrapedRecipeNotWritable(s: Store, m: FieldMap, sel: Selection)
    requires HasSelectedKeys(m, sel)
    ensures Written(s, m).Err?
  {
  }

  /** A failed write reports a key the mapping lacks, and the keys read
      before it are all there. */
  lemma WrittenErrorIsMissing(s: Store, m: FieldMap)
    requires Written(s, m).Err?
    ensures var k := Written(s, m).error.key;
            && (k == "link" <==> m.link.None?)
            && (k == "instructions" ==> m.link.Some? && m.details.Some? && m.category.Some?
                                        && m.ingredients.Some? && m.instructions.None?)
  {
  }

  // ---------------------------------------------------------------------
  // get_recipe_by_title
  // ---------------------------------------------------------------------

  /** `title = %s` under the database's collation, given by its sort key:
      two strings compare equal when their keys are equal. A NULL title
      matches nothing. */
  predicate TitleMatches(cell: Cell, title: string, collate: string -> string)
  {
    cell.Text? && collate(cell.text) == collate(title)
  }

  /** Under a case-insensitive collation, such as a key that lowercases,
      a title is found whatever its case. */
  lemma TitleMatchesIgnoringCase()
    ensures TitleMatches(Text("Pancakes"), "PANCAKES", Text.Lower)
    ensures !TitleMatches(Text("Pancakes"), "PANCAKES", t => t)
  {
    assert Text.Lower("Pancakes") == "pancakes";
    assert Text.Lower("PANCAKES") == "pancakes";
  }

  /** get_recipe_by_title: the first recipes row, in table order, whose
      title compares equal to the argument; None when there is none. */
  method GetRecipeByTitle(db: Database, title: string, collate: string -> string)
    returns (r: Option<(nat, RecipeRow)>)
    ensures r.None? <==>
            forall i :: 0 <= i < |db.recipes.rows| ==> !TitleMatches(db.recipes.rows[i].1.title, title, collate)
    ensures r.Some? ==> exists i :: 0 <= i < |db.recipes.rows| && r.value == db.recipes.rows[i]
                                   && TitleMatches(r.value.1.title, title, collate)
                                   && forall j :: 0 <= j < i ==> !TitleMatches(db.recipes.rows[j].1.title, title, collate)
    ensures (exists i :: 0 <= i < |db.recipes.rows| && db.recipes.rows[i].1.title == Text(title)) ==> r.Some?
  {
    var rows := db.recipes.rows;
    for n := 0 to |rows|
      invariant forall j :: 0 <= j < n ==> !TitleMatches(rows[j].1.title, title, collate)
    {
      if TitleMatches(rows[n].1.title, title, collate) {
        return Some(rows[n]);
      }
    }
    return None;
  }
}
