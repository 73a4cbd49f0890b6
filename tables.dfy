/** The MySQL tables the scraper and the ingredient cleaner write, held
    in memory: each table keeps its rows in insertion order with their
    auto-increment ids, and the id its next insert gets. */
module Tables {
  import opened Wrappers
  import opened Recipe

  datatype Table<R> = Table(rows: seq<(nat, R)>, next: nat)

  /** A fresh table: AUTO_INCREMENT starts at one. */
  function EmptyTable<R>(): Table<R>
  {
    Table([], 1)
  }

  /** Ids are positive, below the next id, and increase along the rows. */
  predicate WellKeyed<R>(t: Table<R>) {
    && 1 <= t.next
    && (forall i :: 0 <= i < |t.rows| ==> 1 <= t.rows[i].0 < t.next)
    && (forall i, j :: 0 <= i < j < |t.rows| ==> t.rows[i].0 < t.rows[j].0)
  }

  function Ids<R>(t: Table<R>): set<nat>
  {
    set i | 0 <= i < |t.rows| :: t.rows[i].0
  }

  /** INSERT: the row is stored under the next id, which `lastrowid`
      then reports. */
  function Insert<R>(t: Table<R>, r: R): Table<R>
  {
    Table(t.rows + [(t.next, r)], t.next + 1)
  }

  /** Inserting keeps the ids well formed, and the new id is fresh. */
  lemma InsertFacts<R>(t: Table<R>, r: R)
    requires WellKeyed(t)
    ensures WellKeyed(Insert(t, r))
    ensures t.next !in Ids(t)
    ensures Ids(Insert(t, r)) == Ids(t) + {t.next}
  {
    var u := Insert(t, r);
    assert forall i :: 0 <= i < |t.rows| ==> u.rows[i] == t.rows[i];
    assert u.rows[|t.rows|] == (t.next, r);
    assert Ids(u) == Ids(t) + {t.next} by {
      forall id | id in Ids(u) ensures id in Ids(t) + {t.next} {
        var i :| 0 <= i < |u.rows| && u.rows[i].0 == id;
        if i < |t.rows| {
          assert t.rows[i].0 == id;
        }
      }
    }
  }

  /** Rows inserted one after another, each under the next id. */
  function InsertAll<R>(t: Table<R>, rs: seq<R>): (u: Table<R>)
    ensures u.next == t.next + |rs| && |u.rows| == |t.rows| + |rs|
  {
    Table(t.rows + seq(|rs|, i requires 0 <= i < |rs| => (t.next + i, rs[i])), t.next + |rs|)
  }

  /** The old rows stay in front; the `i`-th new row holds `rs[i]` under
      the id `t.next + i`. */
  lemma InsertAllRows<R>(t: Table<R>, rs: seq<R>)
    ensures var u := InsertAll(t, rs);
            && u.rows[..|t.rows|] == t.rows
            && forall i :: 0 <= i < |rs| ==> u.rows[|t.rows| + i] == (t.next + i, rs[i])
  {
  }

  /** Inserting a list is inserting its elements one at a time. */
  lemma InsertAllStep<R>(t: Table<R>, rs: seq<R>, r: R)
    ensures InsertAll(t, rs + [r]) == Insert(InsertAll(t, rs), r)
  {
    var added := seq(|rs|, i requires 0 <= i < |rs| => (t.next + i, rs[i]));
    var rs' := rs + [r];
    var added' := seq(|rs'|, i requires 0 <= i < |rs'| => (t.next + i, rs'[i]));
    assert added' == added + [(t.next + |rs|, r)];
    assert t.rows + added' == (t.rows + added) + [(t.next + |rs|, r)];
  }

  /** Several inserts keep the ids well formed and add exactly the ids
      from the old next id on. */
  lemma {:induction false} InsertAllFacts<R>(t: Table<R>, rs: seq<R>)
    requires WellKeyed(t)
    ensures WellKeyed(InsertAll(t, rs))
    ensures forall id :: id in Ids(InsertAll(t, rs)) <==> id in Ids(t) || t.next <= id < t.next + |rs|
  {
    if rs != [] {
      var init := InsertAll(t, rs[..|rs| - 1]);
      InsertAllFacts(t, rs[..|rs| - 1]);
      InsertFacts(init, rs[|rs| - 1]);
      assert rs[..|rs| - 1] + [rs[|rs| - 1]] == rs;
      InsertAllStep(t, rs[..|rs| - 1], rs[|rs| - 1]);
    } else {
      assert InsertAll(t, rs).rows == t.rows;
    }
  }

  /** A row of `recipes`. */
  datatype RecipeRow = RecipeRow(link: string, title: Cell, reviews: ReviewCount, rating: RatingValue, published: string)

  /** A row of `recipe_details`. */
  datatype DetailsRow = DetailsRow(recipe: nat, prep: Cell, cook: Cell, total: Cell, servings: Cell)

  /** A row of `nutrition_facts`. */
  datatype FactsRow = FactsRow(recipe: nat, calories: int, fat: int, carbs: int, protein: int)

  /** A row of `relationship`, linking a category to a recipe. */
  datatype LinkRow = LinkRow(category: nat, recipe: nat)

  /** A row of `ingredients`, with the flag the ingredient cleaner sets. */
  datatype IngredientRow = IngredientRow(recipe: nat, ingredient: string, processed: bool)

  /** A row of `instructions`. */
  datatype InstructionRow = InstructionRow(recipe: nat, description: string)

  /** A row of `ingredients_clean`. */
  datatype CleanRow = CleanRow(recipe: nat, ingredient: Cell, quantity: Cell)

  /** The whole database at one moment. */
  datatype Store = Store(
    recipes: Table<RecipeRow>,
    details: Table<DetailsRow>,
    nutrition: Table<FactsRow>,
    categories: Table<string>,
    relationship: Table<LinkRow>,
    ingredients: Table<IngredientRow>,
    instructions: Table<InstructionRow>,
    clean: Table<CleanRow>)

  function EmptyStore(): Store
  {
    Store(EmptyTable(), EmptyTable(), EmptyTable(), EmptyTable(), EmptyTable(),
          EmptyTable(), EmptyTable(), EmptyTable())
  }

  predicate AllKeyed(s: Store) {
    && WellKeyed(s.recipes) && WellKeyed(s.details) && WellKeyed(s.nutrition)
    && WellKeyed(s.categories) && WellKeyed(s.relationship) && WellKeyed(s.ingredients)
    && WellKeyed(s.instructions) && WellKeyed(s.clean)
  }

  /** Every foreign key names an existing row. */
  predicate Linked(s: Store) {
    var recipes := Ids(s.recipes);
    && (forall i :: 0 <= i < |s.details.rows| ==> s.details.rows[i].1.recipe in recipes)
    && (forall i :: 0 <= i < |s.nutrition.rows| ==> s.nutrition.rows[i].1.recipe in recipes)
    && (forall i :: 0 <= i < |s.relationship.rows| ==>
          s.relationship.rows[i].1.recipe in recipes
          && s.relationship.rows[i].1.category in Ids(s.categories))
    && (forall i :: 0 <= i < |s.ingredients.rows| ==> s.ingredients.rows[i].1.recipe in recipes)
    && (forall i :: 0 <= i < |s.instructions.rows| ==> s.instructions.rows[i].1.recipe in recipes)
    && (forall i :: 0 <= i < |s.clean.rows| ==> s.clean.rows[i].1.recipe in recipes)
  }

  predicate Consistent(s: Store) {
    AllKeyed(s) && Linked(s)
  }

  /** The empty database is consistent. */
  lemma EmptyConsistent()
    ensures Consistent(EmptyStore())
  {
  }

  /** The database behind a connection: its tables change in place. */
  class Database {
    var recipes: Table<RecipeRow>
    var details: Table<DetailsRow>
    var nutrition: Table<FactsRow>
    var categories: Table<string>
    var relationship: Table<LinkRow>
    var ingredients: Table<IngredientRow>
    var instructions: Table<InstructionRow>
    var clean: Table<CleanRow>

    function Snapshot(): Store
      reads this
    {
      Store(recipes, details, nutrition, categories, relationship, ingredients, instructions, clean)
    }

    constructor (s: Store)
      ensures Snapshot() == s
    {
      recipes, details, nutrition, categories := s.recipes, s.details, s.nutrition, s.categories;
      relationship, ingredients, instructions, clean := s.relationship, s.ingredients, s.instructions, s.clean;
    }

    /** `connection.commit()`: the pending state becomes the database. */
    method Commit(s: Store)
      modifies this
      ensures Snapshot() == s
    {
      recipes, details, nutrition, categories := s.recipes, s.details, s.nutrition, s.categories;
      relationship, ingredients, instructions, clean := s.relationship, s.ingredients, s.instructions, s.clean;
    }
  }
}
