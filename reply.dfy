/** The ingredient cleaner (ChatGPT_API.py): the dictionary text cut out
    of a completion, its split into one piece per dictionary, the
    `ingredients_clean` rows the pieces become, and the loop over the
    unprocessed `ingredients` rows. The completion service and
    `ast.literal_eval` are parameters. */
module Reply {
  import opened Wrappers
  import opened Text
  import opened Recipe
  import opened Tables

  // ---------------------------------------------------------------------
  // api_query: the slice of the completion text
  // ---------------------------------------------------------------------

  /** `text[text.index("{"):text.rindex("}") + 1]`; None where `index` or
      `rindex` raises ValueError. */
  function ReplySlice(text: string): (r: Option<string>)
    ensures r.None? <==> '{' !in text || '}' !in text
  {
    match (IndexOf(text, '{'), RIndexOf(text, '}'))
    case (Some(i), Some(j)) => Some(Slice(text, i, j + 1))
    case _ => None
  }

  /** With the first `{` at `i` and the last `}` at `j`, the slice is the
      text from `i` through `j` when `i <= j`, so it starts with `{` and
      ends with `}`; when the last `}` comes first it is empty. */
  lemma ReplySliceSpan(text: string, i: nat, j: nat)
    requires IndexOf(text, '{') == Some(i) && RIndexOf(text, '}') == Some(j)
    ensures i <= j ==> ReplySlice(text) == Some(text[i..j + 1])
    ensures i <= j ==> text[i..j + 1][0] == '{' && text[i..j + 1][j - i] == '}'
    ensures j < i ==> ReplySlice(text) == Some("")
  {
    assert ReplySlice(text) == Some(Slice(text, i, j + 1));
    SliceWithin(text, i, j + 1);
    if i <= j {
      var d := text[i..j + 1];
      assert d[0] == text[i] && d[j - i] == text[j];
    }
  }

  /** A slice with bounds inside the text. */
  lemma SliceWithin(text: string, lo: nat, hi: nat)
    requires lo < |text| && hi <= |text|
    ensures Slice(text, lo, hi) == if lo < hi then text[lo..hi] else []
  {
    assert SliceBound(|text|, lo) == lo && SliceBound(|text|, hi) == hi;
    SliceRange(text, lo, hi);
  }

  /** A dictionary text wrapped in prose with no `{` before it and no `}`
      after it comes back out whole. */
  lemma ReplyUnwrap(pre: string, d: string, post: string)
    requires |d| >= 2 && d[0] == '{' && d[|d| - 1] == '}'
    requires '{' !in pre && '}' !in post
    ensures ReplySlice(pre + d + post) == Some(d)
  {
    var text := pre + d + post;
    var e := |pre| + |d| - 1;
    assert text[|pre|] == '{' && text[e] == '}';
    assert text[..|pre|] == pre && text[e + 1..] == post;
    FirstAt(text, '{', |pre|);
    LastAt(text, '}', e);
    assert text[|pre|..e + 1] == d;
  }

  /** A character at `i` with none before it is what `index` finds. */
  lemma FirstAt(s: string, c: char, i: nat)
    requires i < |s| && s[i] == c && c !in s[..i]
    ensures IndexOf(s, c) == Some(i)
  {
  }

  /** A character at `j` with none after it is what `rindex` finds. */
  lemma LastAt(s: string, c: char, j: nat)
    requires j < |s| && s[j] == c && c !in s[j + 1..]
    ensures RIndexOf(s, c) == Some(j)
  {
  }

  /** A completion without a `{` (or without a `}`) makes api_query raise. */
  lemma ReplyWithoutBrace(text: string)
    requires '{' !in text
    ensures ReplySlice(text).None?
  {
  }

  // ---------------------------------------------------------------------
  // insert_api_data: pieces and rows
  // ---------------------------------------------------------------------

  /** The dictionary texts insert_api_data evaluates: more than one `{`
      cuts the text after every `},` (rewritten to `} @`, then split on
      `@`); otherwise the whole text is one piece. */
  function Pieces(payload: string): (r: seq<string>)
    ensures |r| >= 1
    ensures multiset(payload)['{'] <= 1 ==> r == [payload]
  {
    if multiset(payload)['{'] > 1 then SplitOn(Replace(payload, "},", "} @"), '@')
    else [payload]
  }

  /** With more than one `{` and no `@` in the text, there is one piece
      more than there are `},` boundaries. */
  lemma PiecesCount(payload: string)
    requires multiset(payload)['{'] > 1 && '@' !in payload
    ensures |Pieces(payload)| == Occurrences(payload, "},") + 1
  {
    var rewritten := Replace(payload, "},", "} @");
    assert multiset("} @")['@'] == 1;
    ReplaceCountChar(payload, "},", "} @", '@');
    SplitOnCount(rewritten, '@');
  }

  /** The first piece runs up to the first `}` and keeps the space the
      rewrite put after it. */
  lemma PiecesCut(x: string, y: string)
    requires '}' !in x && '@' !in x
    requires multiset(x + "}," + y)['{'] > 1
    ensures Pieces(x + "}," + y) == [x + "} "] + SplitOn(Replace(y, "},", "} @"), '@')
  {
    ReplaceSkips(x, "},", "} @", y);
    assert x + "} @" + Replace(y, "},", "} @") == (x + "} ") + ['@'] + Replace(y, "},", "} @");
    SplitOnCut(x + "} ", '@', Replace(y, "},", "} @"));
  }

  /** Two dictionaries separated by `},` give two pieces, the first with a
      trailing space. */
  lemma PiecesOfTwo(x: string, y: string)
    requires '}' !in x && '@' !in x && '@' !in y && !Contains(y, "},")
    requires multiset(x + "}," + y)['{'] > 1
    ensures Pieces(x + "}," + y) == [x + "} ", y]
  {
    PiecesCut(x, y);
    ReplaceAbsent(y, "},", "} @");
    SplitOnAbsent(y, '@');
  }

  /** `ast.literal_eval` of a piece followed by its `ingredient` and
      `quantity` lookups: the two values, or None where any step raises. */
  type Evaluator = string -> Option<(Cell, Cell)>

  /** The clean rows for the pieces, in piece order; None when some piece
      does not evaluate. */
  function CleanRows(recipe: nat, pieces: seq<string>, eval: Evaluator): Option<seq<CleanRow>>
  {
    if pieces == [] then Some([])
    else
      match (CleanRows(recipe, pieces[..|pieces| - 1], eval), eval(pieces[|pieces| - 1]))
      case (Some(rows), Some(d)) => Some(rows + [CleanRow(recipe, d.0, d.1)])
      case _ => None
  }

  /** There are rows exactly when every piece evaluates: one per piece,
      in piece order, all carrying the recipe id. */
  lemma {:induction false} CleanRowsFacts(recipe: nat, pieces: seq<string>, eval: Evaluator)
    ensures var r := CleanRows(recipe, pieces, eval);
            && (r.Some? <==> forall k :: 0 <= k < |pieces| ==> eval(pieces[k]).Some?)
            && (r.Some? ==> |r.value| == |pieces|)
            && (r.Some? ==> forall k :: 0 <= k < |pieces| ==>
                  r.value[k] == CleanRow(recipe, eval(pieces[k]).value.0, eval(pieces[k]).value.1))
  {
    if pieces != [] {
      var init := pieces[..|pieces| - 1];
      CleanRowsFacts(recipe, init, eval);
      assert forall k :: 0 <= k < |init| ==> init[k] == pieces[k];
    }
  }

  /** The `ingredients_clean` table after insert_api_data commits, or None
      when it raises (and nothing is committed). */
  function ApiInserted(t: Table<CleanRow>, payload: string, recipe: nat, eval: Evaluator): Option<Table<CleanRow>>
  {
    match CleanRows(recipe, Pieces(payload), eval)
    case Some(rows) => Some(InsertAll(t, rows))
    case None => None
  }

  /** A payload with at most one `{` becomes exactly one row; in every
      case the rows added are one per piece, in piece order, carrying the
      recipe id and the evaluated ingredient and quantity. */
  lemma ApiInsertedRows(t: Table<CleanRow>, payload: string, recipe: nat, eval: Evaluator)
    requires ApiInserted(t, payload, recipe, eval).Some?
    ensures var u := ApiInserted(t, payload, recipe, eval).value;
            var pieces := Pieces(payload);
            && (multiset(payload)['{'] <= 1 ==> |u.rows| == |t.rows| + 1)
            && |u.rows| == |t.rows| + |pieces|
            && (forall k :: 0 <= k < |pieces| ==> eval(pieces[k]).Some?)
            && u.rows[..|t.rows|] == t.rows
            && forall k :: 0 <= k < |pieces| ==>
                 u.rows[|t.rows| + k] == (t.next + k, CleanRow(recipe, eval(pieces[k]).value.0, eval(pieces[k]).value.1))
  {
    var u := ApiInserted(t, payload, recipe, eval).value;
    CleanRowsFacts(recipe, Pieces(payload), eval);
    InsertAllRows(t, CleanRows(recipe, Pieces(payload), eval).value);
  }

  /** insert_api_data: evaluate each piece and insert its row; commit
      only when every piece went in. */
  method InsertApiData(db: Database, payload: string, recipe: nat, eval: Evaluator) returns (ok: bool)
    modifies db
    ensures ok <==> ApiInserted(old(db.clean), payload, recipe, eval).Some?
    ensures ok ==> db.Snapshot() == old(db.Snapshot()).(clean := ApiInserted(old(db.clean), payload, recipe, eval).value)
    ensures !ok ==> unchanged(db)
  {
    var pieces := Pieces(payload);
    var pending := db.clean;
    ghost var rows: seq<CleanRow> := [];
    for n := 0 to |pieces|
      invariant unchanged(db)
      invariant CleanRows(recipe, pieces[..n], eval) == Some(rows)
      invariant pending == InsertAll(db.clean, rows)
    {
      var d := eval(pieces[n]);
      if d.None? {
        CleanRowsFacts(recipe, pieces, eval);
        return false;
      }
      var row := CleanRow(recipe, d.value.0, d.value.1);
      assert pieces[..n + 1][..n] == pieces[..n];
      InsertAllStep(db.clean, rows, row);
      pending := Insert(pending, row);
      rows := rows + [row];
    }
    assert pieces[..|pieces|] == pieces;
    db.clean := pending;
    return true;
  }

  // ---------------------------------------------------------------------
  // apply_api
  // ---------------------------------------------------------------------

  /** `SELECT ... FROM ingredients WHERE processed = 0`, in table order. */
  function Unprocessed(rows: seq<(nat, IngredientRow)>): seq<(nat, IngredientRow)>
  {
    if rows == [] then []
    else
      var last := rows[|rows| - 1];
      if last.1.processed then Unprocessed(rows[..|rows| - 1])
      else Unprocessed(rows[..|rows| - 1]) + [last]
  }

  /** The selection holds exactly the rows whose flag is clear. */
  lemma {:induction false} UnprocessedSelects(rows: seq<(nat, IngredientRow)>)
    ensures var r := Unprocessed(rows);
            && (forall k :: 0 <= k < |r| ==> !r[k].1.processed && r[k] in rows)
            && (forall k :: 0 <= k < |rows| && !rows[k].1.processed ==> rows[k] in r)
  {
    if rows != [] {
      var init := rows[..|rows| - 1];
      var last := rows[|rows| - 1];
      UnprocessedSelects(init);
      assert rows == init + [last];
      assert forall x :: x in init ==> x in rows;
      var r := Unprocessed(init);
      if !last.1.processed {
        var u := r + [last];
        assert Unprocessed(rows) == u;
        forall k | 0 <= k < |u| ensures !u[k].1.processed && u[k] in rows {
          if k < |r| {
            assert u[k] == r[k];
          }
        }
      }
    }
  }

  /** The selection keeps table order: with the ids increasing along the
      table, they increase along the selected rows. */
  lemma {:induction false} UnprocessedOrdered(rows: seq<(nat, IngredientRow)>)
    requires forall i, j :: 0 <= i < j < |rows| ==> rows[i].0 < rows[j].0
    ensures var r := Unprocessed(rows);
            && (forall i, j :: 0 <= i < j < |r| ==> r[i].0 < r[j].0)
            && (|r| > 0 ==> |rows| > 0 && r[|r| - 1].0 <= rows[|rows| - 1].0)
  {
    if rows != [] {
      var init := rows[..|rows| - 1];
      var last := rows[|rows| - 1];
      assert forall i, j :: 0 <= i < j < |init| ==> init[i].0 < init[j].0;
      UnprocessedOrdered(init);
      var r := Unprocessed(init);
      if |r| > 0 {
        assert init[|init| - 1] == rows[|rows| - 2];
      }
      if !last.1.processed {
        var u := r + [last];
        assert Unprocessed(rows) == u;
        forall i, j | 0 <= i < j < |u| ensures u[i].0 < u[j].0 {
          assert u[i] == r[i];
          if j < |r| {
            assert u[j] == r[j];
          } else if i < |r| - 1 {
            assert r[i].0 < r[|r| - 1].0;
          }
        }
      }
    }
  }

  /** `UPDATE ingredients SET processed = 1 WHERE id = ...` for every id
      in `done`: those rows get the flag; no other row and no other
      column changes. */
  function Marked(t: Table<IngredientRow>, done: set<nat>): (u: Table<IngredientRow>)
    ensures u.next == t.next && |u.rows| == |t.rows|
    ensures forall k :: 0 <= k < |t.rows| ==>
              u.rows[k] == (t.rows[k].0, t.rows[k].1.(processed := t.rows[k].1.processed || t.rows[k].0 in done))
  {
    Table(seq(|t.rows|, k requires 0 <= k < |t.rows| =>
                (t.rows[k].0, t.rows[k].1.(processed := t.rows[k].1.processed || t.rows[k].0 in done))),
          t.next)
  }

  /** Marking one set of ids and then another marks their union. */
  lemma MarkedTwice(t: Table<IngredientRow>, a: set<nat>, b: set<nat>)
    ensures Marked(Marked(t, a), b) == Marked(t, a + b)
  {
    assert Marked(Marked(t, a), b).rows == Marked(t, a + b).rows;
  }

  /** api_query: the completion for the ingredient, cut down to its
      dictionary text; None where the service or the slice raises. */
  function ApiQuery(complete: string -> Option<string>, ingredient: string): (r: Option<string>)
    ensures r.None? <==> (complete(ingredient).None? || '{' !in complete(ingredient).value
                          || '}' !in complete(ingredient).value)
    ensures r.Some? ==> r == ReplySlice(complete(ingredient).value)
  {
    match complete(ingredient)
    case None => None
    case Some(text) => ReplySlice(text)
  }

  /** One row of apply_api: query, insert the clean rows, then mark the
      row; None where any step raises. */
  function ProcessRow(s: Store, row: (nat, IngredientRow), complete: string -> Option<string>, eval: Evaluator): Option<Store>
  {
    match ApiQuery(complete, row.1.ingredient)
    case None => None
    case Some(payload) =>
      match ApiInserted(s.clean, payload, row.1.recipe, eval)
      case None => None
      case Some(clean) => Some(s.(clean := clean, ingredients := Marked(s.ingredients, {row.0})))
  }

  /** One row of apply_api as a function value. */
  function Step(complete: string -> Option<string>, eval: Evaluator): (Store, (nat, IngredientRow)) -> Option<Store>
  {
    (s: Store, row: (nat, IngredientRow)) => ProcessRow(s, row, complete, eval)
  }

  /** A row that goes through has its id marked, and nothing else in the
      `ingredients` table changes. */
  lemma StepMarks(complete: string -> Option<string>, eval: Evaluator)
    ensures forall s: Store, row: (nat, IngredientRow) :: Step(complete, eval)(s, row).Some? ==>
              Step(complete, eval)(s, row).value.ingredients == Marked(s.ingredients, {row.0})
  {
  }

  /** Where apply_api stands: the database, how many of the selected rows
      went through, and whether it stopped on an error. */
  datatype Progress = Progress(store: Store, done: nat, failed: bool)

  /** apply_api over the selected rows: rows go through in order until
      the first one that raises, which stops the loop. */
  function Applied(s: Store, todo: seq<(nat, IngredientRow)>, step: (Store, (nat, IngredientRow)) -> Option<Store>): (p: Progress)
    ensures p.done <= |todo|
    ensures p.failed <==> p.done < |todo|
  {
    if todo == [] then Progress(s, 0, false)
    else
      var p := Applied(s, todo[..|todo| - 1], step);
      if p.failed then p
      else match step(p.store, todo[|todo| - 1])
        case None => Progress(p.store, p.done, true)
        case Some(t) => Progress(t, p.done + 1, false)
  }

  /** The loop after n + 1 rows, from the loop after n rows that all
      went through. */
  lemma AppliedNext(s: Store, todo: seq<(nat, IngredientRow)>, n: nat,
                    step: (Store, (nat, IngredientRow)) -> Option<Store>, t: Store)
    requires n < |todo| && Applied(s, todo[..n], step) == Progress(t, n, false)
    ensures Applied(s, todo[..n + 1], step) ==
            match step(t, todo[n])
            case None => Progress(t, n, true)
            case Some(u) => Progress(u, n + 1, false)
  {
    assert todo[..n + 1][..n] == todo[..n];
  }

  /** Once a row has failed, later rows change nothing. */
  lemma {:induction false} AppliedSticks(s: Store, todo: seq<(nat, IngredientRow)>, k: nat,
                                          step: (Store, (nat, IngredientRow)) -> Option<Store>)
    requires k <= |todo| && Applied(s, todo[..k], step).failed
    ensures Applied(s, todo, step) == Applied(s, todo[..k], step)
    decreases |todo| - k
  {
    if k < |todo| {
      assert todo[..|todo| - 1][..k] == todo[..k];
      AppliedSticks(s, todo[..|todo| - 1], k, step);
    } else {
      assert todo[..k] == todo;
    }
  }

  function IdsOf(rows: seq<(nat, IngredientRow)>): set<nat>
  {
    set k | 0 <= k < |rows| :: rows[k].0
  }

  /** When each row that goes through has its id marked, the
      `ingredients` table after the loop has exactly the ids of the rows
      that went through marked. */
  lemma {:induction false} AppliedMarks(s: Store, todo: seq<(nat, IngredientRow)>,
                                         step: (Store, (nat, IngredientRow)) -> Option<Store>)
    requires forall t: Store, row: (nat, IngredientRow) :: step(t, row).Some? ==>
               step(t, row).value.ingredients == Marked(t.ingredients, {row.0})
    ensures var p := Applied(s, todo, step);
            p.store.ingredients == Marked(s.ingredients, IdsOf(todo[..p.done]))
  {
    if todo == [] {
      assert Marked(s.ingredients, {}).rows == s.ingredients.rows;
    } else {
      var init := todo[..|todo| - 1];
      AppliedMarks(s, init, step);
      var p := Applied(s, init, step);
      assert init[..p.done] == todo[..p.done];
      if !p.failed {
        var row := todo[|todo| - 1];
        if step(p.store, row).Some? {
          MarkedTwice(s.ingredients, IdsOf(todo[..p.done]), {row.0});
          assert IdsOf(todo[..p.done + 1]) == IdsOf(todo[..p.done]) + {row.0} by {
            assert todo[..p.done + 1] == todo[..p.done] + [row];
          }
        }
      }
    }
  }

  /** With the ids increasing along the selected rows (as they do along
      the table), the row that raised and every later one are not among
      the marked ids: they stay unprocessed. */
  lemma AppliedLeavesRest(s: Store, todo: seq<(nat, IngredientRow)>,
                          step: (Store, (nat, IngredientRow)) -> Option<Store>)
    requires forall i, j :: 0 <= i < j < |todo| ==> todo[i].0 < todo[j].0
    ensures var p := Applied(s, todo, step);
            forall i :: p.done <= i < |todo| ==> todo[i].0 !in IdsOf(todo[..p.done])
  {
  }

  /** After apply_api the `ingredients` table has the same rows under the
      same ids; the selected rows before the one that raised are now
      processed, and rows that were processed stay so. */
  lemma ApplyApiProcessed(s: Store, complete: string -> Option<string>, eval: Evaluator)
    ensures var rows := s.ingredients.rows;
            var todo := Unprocessed(rows);
            var p := Applied(s, todo, Step(complete, eval));
            var after := p.store.ingredients.rows;
            && |after| == |rows|
            && (forall k :: 0 <= k < |rows| ==> after[k].0 == rows[k].0)
            && (forall k, i :: 0 <= k < |rows| && 0 <= i < p.done && rows[k].0 == todo[i].0 ==> after[k].1.processed)
            && (forall k :: 0 <= k < |rows| && rows[k].1.processed ==> after[k].1.processed)
  {
    var todo := Unprocessed(s.ingredients.rows);
    var step := Step(complete, eval);
    var p := Applied(s, todo, step);
    StepMarks(complete, eval);
    AppliedMarks(s, todo, step);
    assert forall i :: 0 <= i < p.done ==> todo[i].0 in IdsOf(todo[..p.done]) by {
      forall i | 0 <= i < p.done ensures todo[i].0 in IdsOf(todo[..p.done]) {
        assert todo[..p.done][i] == todo[i];
      }
    }
  }

  /** In a well-keyed table, the selected row that raised and every
      selected row after it are still unprocessed after apply_api. */
  lemma ApplyApiLeavesRest(s: Store, complete: string -> Option<string>, eval: Evaluator)
    requires WellKeyed(s.ingredients)
    ensures var rows := s.ingredients.rows;
            var todo := Unprocessed(rows);
            var p := Applied(s, todo, Step(complete, eval));
            var after := p.store.ingredients.rows;
            && |after| == |rows|
            && forall k, i :: 0 <= k < |rows| && p.done <= i < |todo| && rows[k] == todo[i] ==> !after[k].1.processed
  {
    var todo := Unprocessed(s.ingredients.rows);
    var step := Step(complete, eval);
    StepMarks(complete, eval);
    UnprocessedSelects(s.ingredients.rows);
    UnprocessedOrdered(s.ingredients.rows);
    AppliedMarks(s, todo, step);
    AppliedLeavesRest(s, todo, step);
  }

  /** Marking rows keeps the `ingredients` ids well formed and every row
      pointing at the recipe it pointed at. */
  lemma MarkedKeepsKeys(t: Table<IngredientRow>, done: set<nat>)
    ensures WellKeyed(t) ==> WellKeyed(Marked(t, done))
    ensures forall k :: 0 <= k < |t.rows| ==> Marked(t, done).rows[k].1.recipe == t.rows[k].1.recipe
  {
    var u := Marked(t, done);
    assert forall k :: 0 <= k < |t.rows| ==> u.rows[k].0 == t.rows[k].0;
  }

  /** The clean rows insert_api_data adds name the given recipe, so a
      table whose rows name recipes among `ids` keeps doing so. */
  lemma CleanLinked(t: Table<CleanRow>, payload: string, recipe: nat, eval: Evaluator, ids: set<nat>)
    requires recipe in ids
    requires forall i :: 0 <= i < |t.rows| ==> t.rows[i].1.recipe in ids
    requires ApiInserted(t, payload, recipe, eval).Some?
    ensures var u := ApiInserted(t, payload, recipe, eval).value;
            forall i :: 0 <= i < |u.rows| ==> u.rows[i].1.recipe in ids
  {
    var pieces := Pieces(payload);
    var rows := CleanRows(recipe, pieces, eval).value;
    var u := InsertAll(t, rows);
    CleanRowsFacts(recipe, pieces, eval);
    InsertAllRows(t, rows);
    forall i | 0 <= i < |u.rows| ensures u.rows[i].1.recipe in ids {
      if i < |t.rows| {
        assert u.rows[i] == u.rows[..|t.rows|][i];
      } else {
        var k := i - |t.rows|;
        assert u.rows[|t.rows| + k] == (t.next + k, rows[k]);
      }
    }
  }

  /** insert_api_data on a consistent database, for a recipe that
      exists, keeps it consistent: the clean rows it adds get fresh ids
      and name that recipe. */
  lemma ApiInsertedLinked(s: Store, payload: string, recipe: nat, eval: Evaluator)
    requires Consistent(s) && recipe in Ids(s.recipes)
    requires ApiInserted(s.clean, payload, recipe, eval).Some?
    ensures Consistent(s.(clean := ApiInserted(s.clean, payload, recipe, eval).value))
  {
    InsertAllFacts(s.clean, CleanRows(recipe, Pieces(payload), eval).value);
    CleanLinked(s.clean, payload, recipe, eval, Ids(s.recipes));
  }

  /** A row of apply_api that goes through, for an ingredient of a recipe
      that exists, keeps a consistent database consistent and leaves the
      recipes alone. */
  lemma ProcessRowConsistent(s: Store, row: (nat, IngredientRow), complete: string -> Option<string>, eval: Evaluator)
    requires Consistent(s) && row.1.recipe in Ids(s.recipes)
    requires ProcessRow(s, row, complete, eval).Some?
    ensures Consistent(ProcessRow(s, row, complete, eval).value)
    ensures ProcessRow(s, row, complete, eval).value.recipes == s.recipes
  {
    var payload := ApiQuery(complete, row.1.ingredient).value;
    ApiInsertedLinked(s, payload, row.1.recipe, eval);
    MarkedKeepsKeys(s.ingredients, {row.0});
  }

  /** A step that keeps the database consistent, for rows whose recipe
      exists, keeps it consistent over the whole loop. */
  lemma {:induction false} AppliedConsistent(s: Store, todo: seq<(nat, IngredientRow)>,
                                             step: (Store, (nat, IngredientRow)) -> Option<Store>)
    requires forall t: Store, row: (nat, IngredientRow) ::
               Consistent(t) && row.1.recipe in Ids(t.recipes) && step(t, row).Some? ==>
                 Consistent(step(t, row).value) && step(t, row).value.recipes == t.recipes
    requires Consistent(s)
    requires forall i :: 0 <= i < |todo| ==> todo[i].1.recipe in Ids(s.recipes)
    ensures Consistent(Applied(s, todo, step).store)
    ensures Applied(s, todo, step).store.recipes == s.recipes
  {
    if todo != [] {
      var init := todo[..|todo| - 1];
      assert forall i :: 0 <= i < |init| ==> init[i] == todo[i];
      AppliedConsistent(s, init, step);
    }
  }

  /** apply_api keeps a consistent database consistent: every clean row
      it adds names the recipe of the ingredient it came from, which
      exists. */
  lemma ApplyApiConsistent(s: Store, complete: string -> Option<string>, eval: Evaluator)
    requires Consistent(s)
    ensures Consistent(Applied(s, Unprocessed(s.ingredients.rows), Step(complete, eval)).store)
  {
    var rows := s.ingredients.rows;
    var todo := Unprocessed(rows);
    forall i | 0 <= i < |todo| ensures todo[i].1.recipe in Ids(s.recipes) {
      UnprocessedSelects(rows);
      assert todo[i] in rows;
      var k :| 0 <= k < |rows| && rows[k] == todo[i];
    }
    forall t: Store, row: (nat, IngredientRow) |
      Consistent(t) && row.1.recipe in Ids(t.recipes) && Step(complete, eval)(t, row).Some?
      ensures Consistent(Step(complete, eval)(t, row).value) && Step(complete, eval)(t, row).value.recipes == t.recipes
    {
      ProcessRowConsistent(t, row, complete, eval);
    }
    AppliedConsistent(s, todo, Step(complete, eval));
  }

  /** The body of apply_api's loop for one row: query, insert the clean
      rows, mark the row processed; a row that raises changes nothing. */
  method ApplyRow(db: Database, row: (nat, IngredientRow), complete: string -> Option<string>, eval: Evaluator)
    returns (ok: bool)
    modifies db
    ensures ok <==> ProcessRow(old(db.Snapshot()), row, complete, eval).Some?
    ensures ok ==> db.Snapshot() == ProcessRow(old(db.Snapshot()), row, complete, eval).value
    ensures !ok ==> unchanged(db)
  {
    var payload := ApiQuery(complete, row.1.ingredient);
    if payload.None? {
      return false;
    }
    ok := InsertApiData(db, payload.value, row.1.recipe, eval);
    if ok {
      db.ingredients := Marked(db.ingredients, {row.0});
    }
  }

  /** apply_api: for each row selected as unprocessed, query, insert and
      mark it; the first row that raises stops the loop and its id is
      reported. */
  method ApplyApi(db: Database, complete: string -> Option<string>, eval: Evaluator) returns (error: Option<nat>)
    modifies db
    ensures var todo := Unprocessed(old(db.ingredients.rows));
            var p := Applied(old(db.Snapshot()), todo, Step(complete, eval));
            && db.Snapshot() == p.store
            && (error.Some? <==> p.failed)
            && (p.failed ==> error == Some(todo[p.done].0))
  {
    ghost var s0 := db.Snapshot();
    var todo := Unprocessed(db.ingredients.rows);
    for n := 0 to |todo|
      invariant Applied(s0, todo[..n], Step(complete, eval)) == Progress(db.Snapshot(), n, false)
    {
      ghost var before := db.Snapshot();
      var ok := ApplyRow(db, todo[n], complete, eval);
      AppliedNext(s0, todo, n, Step(complete, eval), before);
      assert Step(complete, eval)(before, todo[n]) == ProcessRow(before, todo[n], complete, eval);
      if !ok {
        AppliedSticks(s0, todo, n + 1, Step(complete, eval));
        return Some(todo[n].0);
      }
    }
    assert todo[..|todo|] == todo;
    return None;
  }
}
