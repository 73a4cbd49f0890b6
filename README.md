# Web-Scraping-allrecipes-Website in Dafny

A model of the logic of a recipe scraper for allrecipes.com. It covers
three parts.

- **Scraper** (`All-recipe-web-scraper.py`):
  - the duration converter `convert_to_minutes`;
  - the `get_*` field extractors, which read a parsed page;
  - the `--all` rule of the command line;
  - the `scraper` loop, which skips, numbers or logs each page.
- **Ingredient cleaner** (`ChatGPT_API.py`):
  - the slice that cuts the dictionary text out of a completion;
  - the split of that text into one piece per dictionary;
  - the `ingredients_clean` rows the pieces become;
  - the `apply_api` loop over the unprocessed `ingredients` rows.
- **Database writer** (`dump_data.py`): `check_if_keys_exist`,
  `write_to_database` and `get_recipe_by_title`, over in-memory tables
  with auto-increment ids.

The modules:

- `wrappers.dfy`: `Option` and `Result`.
- `text.dfy`: the Python `str` operations the code uses. These are
  `strip`, `split()`, `split(c)`, `replace`, `count`, `in`, `lower`,
  `isdigit`, `isnumeric`, `index`, `rindex`, slicing, negative indexing
  and `int()`.
- `dicts.dfy`: the insertion-ordered `dict`.
  - As a value, it is a sequence of key/value pairs.
  - As an object updated in place, it is the class `Mapping`.
- `results.dfy`: a loop that stops at the first exception, as a fold over
  `Result`.
- `recipe.dfy`: the per-recipe field mapping and its kinds of value.
- `duration.dfy`: `convert_to_minutes`.
- `extractors.dfy`: the `get_*` functions.
  - A page is a record of the nodes the extractors read: each `find` is an
    `Option` and each `find_all` a sequence of texts.
  - Every `AttributeError` on a missing node is a `Missing` error; the
    one `.group()` raises on a rating search that finds nothing is
    `NoMatch`, and the `ValueError` float() raises on a match that is not
    a float literal is `NotFloat`.
- `cli.dfy`: `has_other_args` and `validate_args`, on a `Namespace`
  object whose flags validation rewrites.
- `scraper.dfy`: the `scraper` loop, over pages that have already been
  fetched.
- `tables.dfy`: the MySQL database.
  - Each table is a sequence of `(id, row)` pairs plus the next
    auto-increment id.
  - The `Database` object holds the committed state.
  - `Consistent` states that the ids are well formed and every foreign
    key names an existing row, as the `FOREIGN KEY` clauses of
    `database.py` require.
- `dump_data.dfy`: the three functions of `dump_data.py`.
- `reply.dfy`: `api_query`'s slice, `insert_api_data` and `apply_api`.

Constants the code takes from its unseen `constants` module are fixed
where their names say what they are:

- `NEXT_PAIR = 2`, `NEXT_INDEX = 1`, `HOURS = 24`, `MINS = 60`;
- the sentinel `NO_REVIEWS` is the constructor `NoReviews`.

The site-specific constants are fields of a `SiteConstants` parameter:
`TIME`, `SERVINGS`, `GRAMS`, `GRAMS_INDEX`, `AMOUNT_INDEX`, `LABEL_INDEX`
and `PUBLISHED_ON`. The bounds `MIN_ARGS` and `MAX_ARGS` are parameters
of `validate_args`.

`get_ingredients` joins the container texts with no separator before it
marks and splits them (All-recipe-web-scraper.py:51), so containers are
not list boundaries. A block break leaves a trailing space on the piece
before it, and the last line of one container runs into the first line
of the next (`Extractors.IngredientsOfBreak`, `Extractors.IngredientsExample`).

## Model

| member | source | states |
|---|---|---|
| Duration.ConvertToMinutes | All-recipe-web-scraper.py:76-90 | the result is the pair-by-pair total of the whitespace-split words; an empty or all-whitespace string gives 0 |
| Duration.SumPairs | All-recipe-web-scraper.py:78-90 | the loop stepping two tokens at a time computes exactly the pair-by-pair total or its first error |
| Duration.UnitMinutesOfSpelling | All-recipe-web-scraper.py:82-87 | day/days count 1440 minutes, hour/hours/hrs 60, min/mins 1 |
| Duration.UnitMinutesRefuses | All-recipe-web-scraper.py:88-89 | any other unit spelling is refused |
| Duration.MinutesOfPrefix | All-recipe-web-scraper.py:79-87 | well-formed pairs in front add value times factor to whatever the rest gives, error or total |
| Duration.ConvertRendered | All-recipe-web-scraper.py:76-90 | any duration written as space-separated `<int> <unit>` pairs converts to the sum of value times unit factor |
| Duration.InvalidUnitNamed | All-recipe-web-scraper.py:88-89 | after good pairs, an unknown unit raises the error naming that unit |
| Duration.OddTokenCountFails | All-recipe-web-scraper.py:80-81 | after good pairs, a lone trailing value fails for want of a unit |
| Duration.ExampleHoursAndMins | All-recipe-web-scraper.py:76-90 | "2 hours 30 mins" is 150 |
| Duration.ExampleDay | All-recipe-web-scraper.py:82-83 | "1 day" is 1440 |
| Duration.ExampleEmpty | All-recipe-web-scraper.py:77-79 | "" is 0 |
| Duration.ExampleBadUnit | All-recipe-web-scraper.py:88-89 | "3 fortnights" raises naming "fortnights" |
| Extractors.GetTitle | All-recipe-web-scraper.py:28-35 | fails exactly when there is no title node; None exactly when the node has no string; otherwise that string |
| Extractors.StrippedTexts | All-recipe-web-scraper.py:47-48 | one stripped text per container, in page order |
| Extractors.GetIngredients | All-recipe-web-scraper.py:45-52 | the result is the marked-and-split glued text, and it is empty exactly when there are no containers |
| Extractors.IngredientsRejoin | All-recipe-web-scraper.py:51 | no piece holds '?', and rejoining the pieces with '?' gives the glued text with every block break replaced by " ?" |
| Extractors.IngredientsCount | All-recipe-web-scraper.py:51 | the number of pieces is 1 + the '?' already in the text + the block breaks |
| Extractors.IngredientsOfBreak | All-recipe-web-scraper.py:47-51 | two containers, the first with one break: the first piece keeps a trailing space and the second container is glued onto the last line of the first |
| Extractors.IngredientsExample | All-recipe-web-scraper.py:51 | ["2 eggs\n\n\n1 cup", "salt"] gives ["2 eggs ", "1 cupsalt"] |
| Extractors.IngredientsQuestionMark | All-recipe-web-scraper.py:51 | a literal '?' also cuts an ingredient |
| Extractors.CollectDetails | All-recipe-web-scraper.py:63-67 | the first loop stores each stripped label's stripped value text, or raises at a label without a value node |
| Extractors.ConvertValue | All-recipe-web-scraper.py:69-72 | a time key becomes its minutes, the servings key with all-digit text becomes int, anything else is left as it is |
| Extractors.ConvertDetails | All-recipe-web-scraper.py:68-72 | the in-place conversion loop yields every entry converted in dict order, or the first conversion error |
| Extractors.GetRecipeDetails | All-recipe-web-scraper.py:55-73 | the method computes exactly the collected-then-converted dict or the error it raises |
| Extractors.DetailsKeys | All-recipe-web-scraper.py:63-73 | on success the dict holds each stripped grid label once and no other key, so the conversion keeps the key set |
| Extractors.DetailsLast | All-recipe-web-scraper.py:64-72 | under a label is the converted value text of the last grid row bearing that label |
| Extractors.DetailsMissingValue | All-recipe-web-scraper.py:64-67 | a missing value node is reported exactly when some label lacks one |
| Extractors.FirstMissing | All-recipe-web-scraper.py:64-66 | a grid row without a value node makes the first loop raise, whatever follows it |
| Extractors.ConvertKeepsKeys | All-recipe-web-scraper.py:68-72 | a successful conversion keeps the key list, in order |
| Extractors.ConvertErrorKinds | All-recipe-web-scraper.py:68-72 | conversions raise only duration or integer errors |
| Extractors.ServingsSuperscript | All-recipe-web-scraper.py:71-72 | a superscript digit passes isdigit but makes int() raise |
| Extractors.ServingsNumber | All-recipe-web-scraper.py:71-72 | ASCII digits under the servings key become that number |
| Extractors.DurationDetail | All-recipe-web-scraper.py:69-70 | a time key holding a rendered duration becomes its total minutes |
| Extractors.GetNumReviews | All-recipe-web-scraper.py:99-104 | fails exactly without the reviews node; a count exactly when the text has a digit, else the sentinel |
| Extractors.NumericCharsCounts | All-recipe-web-scraper.py:101 | the filter keeps each numeric character as often as it occurs and nothing else |
| Extractors.NumericCharsAppend | All-recipe-web-scraper.py:101 | the filter keeps text order (distributes over concatenation) |
| Extractors.CountedHasDigit | All-recipe-web-scraper.py:100-101 | a counted result is never empty: it holds a digit |
| Extractors.ReviewsSeparated | All-recipe-web-scraper.py:99-104 | digit groups around a separator, then a word, count as the groups run together |
| Extractors.ReviewsExample | All-recipe-web-scraper.py:99-104 | "1,234 Reviews" counts "1234" |
| Extractors.ReviewsFraction | All-recipe-web-scraper.py:100-103 | a lone vulgar fraction is no reviews; next to a digit it is kept |
| Extractors.DigitRun | All-recipe-web-scraper.py:117 | the length of the maximal run of ASCII digits at a position: all digits, then the end or a non-digit |
| Extractors.MatchAt | All-recipe-web-scraper.py:117 | the match `\d+.\d+` finds at a position: None exactly when the pattern (k >= 1 digits, any character but newline, m >= 1 digits) matches there in no way; otherwise a match, with the most digits before its middle character of any match there, and the second run taken to its end, as greedy backtracking gives |
| Extractors.SearchPattern | All-recipe-web-scraper.py:117 | `re.search`: None exactly when the pattern matches at no position; otherwise the match at the leftmost position where it matches |
| Extractors.FloatOfMatch | All-recipe-web-scraper.py:117 | under Python's float literal grammar (digit parts with single underscores, point floats, exponents), digits, one character and digits form a literal exactly when that character is a digit, '.', 'e', 'E' or '_' |
| Extractors.MatchedFloat | All-recipe-web-scraper.py:117 | float() accepts the text of a match exactly when its middle character is one of those |
| Extractors.GetRating | All-recipe-web-scraper.py:107-120 | None (NoRating) without a rating node; with one, the error `.group()` raises exactly when the search on the stripped text finds nothing, and otherwise the matched text when it is a float literal and float()'s ValueError when it is not |
| Extractors.RatingMatchIff | All-recipe-web-scraper.py:114-117 | a present rating node fails for want of a match exactly when the `\d+.\d+` pattern matches its stripped text nowhere |
| Extractors.RatingWithoutDigitsFails | All-recipe-web-scraper.py:117 | a rating text without any ASCII digit makes `.group()` raise |
| Extractors.RatingReads | All-recipe-web-scraper.py:114-117 | " 4.5 out of 5 " reads as "4.5" |
| Extractors.RatingSeparatorFails | All-recipe-web-scraper.py:117 | "1,234" matches whole, and float() rejects it |
| Extractors.RatingGreedy | All-recipe-web-scraper.py:117 | "123/5" matches whole, the slash being the middle character, and float() rejects it |
| Extractors.RatingWholeNumberFails | All-recipe-web-scraper.py:117 | "4" and "4 stars" have no match, so `.group()` raises |
| Extractors.GetNutritionFacts | All-recipe-web-scraper.py:129-138 | the row loop computes exactly the label-to-amount dict or the first error |
| Extractors.NutritionKeys | All-recipe-web-scraper.py:130-137 | on success every row parsed and the dict holds each stripped label once and no other key |
| Extractors.NutritionLast | All-recipe-web-scraper.py:137 | a label holds the amount of its last row |
| Extractors.NutritionShortRow | All-recipe-web-scraper.py:132-134 | a row too short for the amount or label cell raises IndexError |
| Extractors.NutritionRowOf | All-recipe-web-scraper.py:133-137 | a row reads as the stripped label and int of the lowered, stripped amount, cut at GRAMS_INDEX when it holds GRAMS |
| Extractors.NutritionRowGrams | All-recipe-web-scraper.py:133-137 | ["150g", "Fat"] reads as Fat = 150 |
| Extractors.NutritionRowSpaced | All-recipe-web-scraper.py:133-137 | [" 10 G ", "Protein "] reads as Protein = 10 |
| Extractors.GetDatePublished | All-recipe-web-scraper.py:141-149 | fails, with `Missing(DateNode)` for the AttributeError, exactly when there is no date node; what the date then holds (the words of the stripped line from PUBLISHED_ON on) is stated by DateWords and DateAfterPrefix |
| Extractors.DateWords | All-recipe-web-scraper.py:147-148 | the date splits back into exactly the words from PUBLISHED_ON on |
| Extractors.DateAfterPrefix | All-recipe-web-scraper.py:147-148 | a "Published on"-style prefix of PUBLISHED_ON words is dropped and the rest kept |
| Extractors.GetCategories | All-recipe-web-scraper.py:158-159 | fails exactly without the breadcrumb; otherwise one stripped text per item, in order |
| Extractors.CategoriesStripped | All-recipe-web-scraper.py:159 | every category is already stripped |
| Cli.Namespace.HasOtherArgs | All-recipe-web-scraper.py:163-170 | true exactly when some of the nine field flags is set |
| Cli.Namespace.ValidateArgs | All-recipe-web-scraper.py:193-227 | fails with the first failing check and changes nothing; otherwise the flags become the validated selection and --all stays |
| Cli.AllSelectsEverything | All-recipe-web-scraper.py:223-225 | --all alone sets all nine flags |
| Cli.AllWithAnyFlagFails | All-recipe-web-scraper.py:218-220 | --all together with any field flag is refused |
| Cli.ValidatedShape | All-recipe-web-scraper.py:218-227 | the result is the given flags or all nine; without --all the given flags; with --all no field flag was given |
| Cli.ValidatedIdempotent | All-recipe-web-scraper.py:218-227 | validating a validated selection again changes nothing |
| Scraper.ScrapeFront | All-recipe-web-scraper.py:279-290 | title, ingredients, details, reviews: each selected extractor in table order, the first error ends |
| Scraper.ScrapeBack | All-recipe-web-scraper.py:284-290 | rating, nutrition, published, category: each selected extractor in table order, a rating without a number included, and the first error ends |
| Scraper.ScrapePage | All-recipe-web-scraper.py:272-290 | one loop body: skip without ingredients, else the selected fields or the error raised |
| Scraper.RunScraper | All-recipe-web-scraper.py:263-302 | the loop produces exactly the report blocks and log lines of the page outcomes |
| Scraper.RunNumbered | All-recipe-web-scraper.py:269-300 | one block per scraped page, numbered 1, 2, … without gaps; one log line per scraped or failed page; skipped pages leave nothing |
| Scraper.FrontSelected | All-recipe-web-scraper.py:290 | a first-half field is present exactly when selected |
| Scraper.BackSelected | All-recipe-web-scraper.py:290 | a second-half field is present exactly when selected |
| Scraper.FieldsSelected | All-recipe-web-scraper.py:290 | a scraped mapping has exactly the selected keys |
| Scraper.RunBlocks | All-recipe-web-scraper.py:290-296 | every block has exactly the selected keys and is the mapping of one of the pages |
| Scraper.SkippedIff | All-recipe-web-scraper.py:273-276 | a page is skipped exactly when fetched with no ingredient containers; an unfetched page fails |
| Scraper.ScrapedIngredients | All-recipe-web-scraper.py:274-290 | a scraped page with ingredients selected carries its non-empty ingredient list |
| Scraper.UnselectedIgnored | All-recipe-web-scraper.py:290 | unselected extractors are never consulted |
| Scraper.TitleFailsFirst | All-recipe-web-scraper.py:279-290 | a missing title is the error reported whatever else fails |
| Scraper.NutritionFailsAfterFront | All-recipe-web-scraper.py:279-290 | a selected but missing nutrition table always fails the page: with the first-half error or the rating's error when one of those failed first, else as the missing table |
| Scraper.RatingErrorFailsPage | All-recipe-web-scraper.py:279-301 | a page with ingredients whose selected rating raises, for want of a match or in float(), fails, with the rating's error once the first half succeeded |
| Tables.InsertFacts | dump_data.py:18-21 | an insert takes the next id, which is fresh, and keeps the ids well formed |
| Tables.InsertAllStep | dump_data.py:50-53 | inserting a list is inserting its elements one at a time |
| Tables.InsertAllFacts | dump_data.py:39-60 | several inserts keep the ids well formed and add exactly the ids from the old next id on |
| Tables.Database.Commit | dump_data.py:63 | after commit the database holds exactly the given tables |
| Tables.EmptyConsistent | database.py:18-90 | the freshly created schema satisfies every foreign key |
| DumpData.CheckIfKeysExist | dump_data.py:98-109 | the dict is updated in place to the keys-added dict and the same object is returned |
| DumpData.WithKeysFacts | dump_data.py:106-109 | afterwards every listed key is present; old keys keep values and places; new keys are only listed ones and hold None |
| DumpData.WithKeysPresent | dump_data.py:106-108 | with every key present nothing changes |
| DumpData.WithKeysIdempotent | dump_data.py:106-108 | a second call with the same keys changes nothing |
| DumpData.FirstMissing | dump_data.py:16-56 | none exactly when every key the write reads (link, title, reviews, rating, date, details, nutrition, category, ingredients, instructions) is present |
| DumpData.InsertCategories | dump_data.py:38-46 | each category gets a row, and a relationship row links its fresh id (lastrowid) to the recipe |
| DumpData.InsertIngredients | dump_data.py:49-53 | one ingredients row per ingredient, in order, carrying the recipe id |
| DumpData.InsertInstructions | dump_data.py:56-60 | one instructions row per entry, in dict order, carrying the recipe id |
| DumpData.WriteToDatabase | dump_data.py:5-64 | a missing key raises and leaves the tables unchanged; otherwise all the inserts are committed together |
| DumpData.WrittenConsistent | dump_data.py:15-60 | a committed write keeps ids well formed and every foreign key pointing at an existing row |
| DumpData.WrittenLinked | database.py:36-90 | every foreign key of the committed tables names an existing recipe or category row |
| DumpData.WrittenKeyed | dump_data.py:18-46 | exactly one new recipe id (lastrowid) and exactly one new category id per category |
| DumpData.WrittenRecipeRows | dump_data.py:15-35 | one recipes row with link, title, reviews, rating, date under the next id; one details row and one nutrition row carrying it |
| DumpData.WrittenCategoryRows | dump_data.py:38-43 | one categories row per category, in order, under consecutive ids |
| DumpData.WrittenRelationshipRows | dump_data.py:43-46 | one relationship row per category linking its id to the recipe id |
| DumpData.WrittenIngredientRows | dump_data.py:49-53 | one ingredients row per ingredient, in list order, with the recipe id, unprocessed |
| DumpData.WrittenInstructionRows | dump_data.py:56-60 | one instructions row per entry, in dict order, with the recipe id; ingredients_clean untouched |
| DumpData.DetailsDefaults | dump_data.py:24-28 | each detail column holds the scraped value or None where the key is missing |
| DumpData.ScrapedRecipeNotWritable | dump_data.py:56 | a mapping the scraper produces never has `instructions`, so writing it raises |
| DumpData.WrittenErrorIsMissing | dump_data.py:16-56 | a failed write names `link` exactly when the link is missing, and names `instructions` only when link, details, category and ingredients were all there |
| DumpData.GetRecipeByTitle | dump_data.py:75-79 | the first recipes row whose title compares equal to the argument under the collation; None exactly when there is none; a row holding exactly the argument is always found |
| DumpData.TitleMatchesIgnoringCase | dump_data.py:75 | under a case-insensitive collation "PANCAKES" finds "Pancakes", which exact comparison does not |
| Reply.ApiQuery | ChatGPT_API.py:12-41 | None exactly when the completion service raises or its text lacks '{' or '}'; otherwise the slice of the completion from its first '{' through its last '}' |
| Reply.ReplySlice | ChatGPT_API.py:39 | None (ValueError) exactly when the text lacks '{' or '}' |
| Reply.ReplySliceSpan | ChatGPT_API.py:39 | with the first '{' before the last '}', the slice is that span inclusive, starting '{' and ending '}'; otherwise empty |
| Reply.ReplyUnwrap | ChatGPT_API.py:39 | a dictionary text wrapped in brace-free prose comes out whole |
| Reply.ReplyWithoutBrace | ChatGPT_API.py:39 | a completion without '{' raises |
| Reply.Pieces | ChatGPT_API.py:55-57 | at least one piece; at most one '{' gives the whole payload as the one piece |
| Reply.PiecesCount | ChatGPT_API.py:55-57 | with more than one '{' and no '@', one piece more than there are "}," |
| Reply.PiecesCut | ChatGPT_API.py:56-57 | the first piece runs to the first "}" and keeps the space the rewrite adds |
| Reply.PiecesOfTwo | ChatGPT_API.py:55-57 | two dictionaries give two pieces, the first with a trailing space |
| Reply.CleanRowsFacts | ChatGPT_API.py:60-74 | rows exactly when every piece evaluates: one per piece, in order, each with the recipe id and evaluated columns |
| Reply.ApiInsertedRows | ChatGPT_API.py:55-74 | one row for a single-brace payload; one row per piece in piece order under fresh ids, old rows kept |
| Reply.InsertApiData | ChatGPT_API.py:44-76 | commits the new ingredients_clean table exactly when every piece evaluates; otherwise changes nothing |
| Reply.CleanLinked | ChatGPT_API.py:62-72 | every clean row added names the given recipe |
| Reply.ApiInsertedLinked | ChatGPT_API.py:60-75 | inserting clean rows for an existing recipe keeps the database consistent |
| Reply.UnprocessedSelects | ChatGPT_API.py:88-89 | the selection holds exactly the rows with processed = 0 |
| Reply.UnprocessedOrdered | ChatGPT_API.py:88-89 | the selection keeps table order |
| Reply.Marked | ChatGPT_API.py:100 | the UPDATE sets the flag of exactly the given ids and changes nothing else |
| Reply.MarkedTwice | ChatGPT_API.py:100 | marking twice marks the union |
| Reply.StepMarks | ChatGPT_API.py:96-101 | a row that goes through has exactly its own id marked |
| Reply.Applied | ChatGPT_API.py:92-103 | the loop stops short of the end exactly when a row raised |
| Reply.AppliedSticks | ChatGPT_API.py:102-103 | after the first failure later rows change nothing |
| Reply.AppliedMarks | ChatGPT_API.py:92-101 | exactly the ids of the rows that went through get marked |
| Reply.AppliedLeavesRest | ChatGPT_API.py:92-103 | the failing row and later rows are not among the marked ids |
| Reply.ApplyApiProcessed | ChatGPT_API.py:88-103 | same rows and ids afterwards; rows before the failure are processed; processed rows stay so |
| Reply.ApplyApiLeavesRest | ChatGPT_API.py:88-103 | the failing row and all later selected rows stay unprocessed |
| Reply.ProcessRowConsistent | ChatGPT_API.py:96-101 | a row that goes through keeps a consistent database consistent and the recipes unchanged |
| Reply.AppliedConsistent | ChatGPT_API.py:92-103 | a consistency-keeping step keeps the database consistent over the loop |
| Reply.ApplyApiConsistent | ChatGPT_API.py:79-103 | apply_api keeps a consistent database consistent |
| Reply.ApplyRow | ChatGPT_API.py:93-103 | one loop body: query, insert, mark, or change nothing when it raises |
| Reply.ApplyApi | ChatGPT_API.py:79-103 | the database ends in the loop's state; an error exactly when a row raised, naming that row's id |
| Text.IndexOf | ChatGPT_API.py:39 | None exactly when the character is absent; otherwise its first position |
| Text.RIndexOf | ChatGPT_API.py:39 | None exactly when the character is absent; otherwise its last position |
| Text.SliceBound | ChatGPT_API.py:39 | a slice bound counts from the end when negative and is clamped to 0..len |
| Text.Slice | ChatGPT_API.py:39 | Python slicing: the elements between the normalised bounds, in order, and nothing when they cross |
| Text.At | All-recipe-web-scraper.py:133-134 | Python indexing: defined exactly for -len <= k < len, negative from the end |
| Text.LowerChar | All-recipe-web-scraper.py:133 | lowering leaves digits, '_', signs and whitespace as they are, and turns no other character into one of them |
| Text.ParseIntLower | All-recipe-web-scraper.py:133-137 | int() reads a lowered amount exactly as it reads the original |
| Text.StripIsInfix | All-recipe-web-scraper.py:48 | strip removes exactly the leading and trailing whitespace |
| Text.StripIdempotent | All-recipe-web-scraper.py:159 | stripping twice is stripping once |
| Text.WordsEmptyIff | All-recipe-web-scraper.py:77 | split() gives no words exactly for all-whitespace text |
| Text.WordsOfJoin | All-recipe-web-scraper.py:77 | split() of words joined by spaces gives those words back |
| Text.SplitOnCount | All-recipe-web-scraper.py:51 | split(c) gives one piece more than there are c |
| Text.SplitOnJoin | All-recipe-web-scraper.py:51 | joining split(c)'s pieces with c gives the text back |
| Text.ReplaceCountChar | ChatGPT_API.py:56 | replace adds one marker character per occurrence of the pattern |
| Text.ParseIntShow | All-recipe-web-scraper.py:80 | int() reads back any rendered integer |
| Text.ParseIntPadded | All-recipe-web-scraper.py:137 | int() ignores surrounding whitespace, such as the space left before a cut grams suffix |
| Text.ParseIntDigits | All-recipe-web-scraper.py:71-72 | int() of a non-empty ASCII digit string always succeeds |
| Dicts.Put | All-recipe-web-scraper.py:67 | assignment appends a new key, or keeps the key order and changes only that value |
| Dicts.PutFacts | All-recipe-web-scraper.py:67 | assignment keeps keys distinct, adds the key, and changes no other key's value |
| Dicts.FromPairsLast | All-recipe-web-scraper.py:67 | filling a dict keeps the last value written under a key |
| Dicts.Mapping.Has | dump_data.py:107 | `in` is key membership |
| Dicts.Mapping.Set | dump_data.py:108 | assignment in place, keeping keys distinct |
| Results.MapResultFirstError | All-recipe-web-scraper.py:131-137 | the first row that raises ends the loop with its error |

## Left out

- HTTP retrieval and HTML parsing are left out. This covers `make_soup` and `scrape_links`; the latter is not part of this model. A page arrives as the record of nodes the extractors read, or as None when fetching failed.
- Extractors.GetRating: a rating that reads is kept as the matched text float() accepts, not as the float it denotes, because the model does not compute with floating point. Whether float() accepts the match is modelled, by the grammar of unsigned, unpadded decimal float literals; the signs, surrounding whitespace, `inf` and `nan` that float() also accepts cannot occur in a match, which starts and ends with a digit.
- Argument parsing itself is left out: `setup_argparse`, `parse_known_args`, `exit_gracefully`, `logging_setter` and `main`. The argument count, the unknown arguments and the bounds `MIN_ARGS`/`MAX_ARGS` are parameters of validation, and exiting is an error result.
- Log and report output is left out: `logging`, and the text written to `scraping.log`. The scraper keeps only the sequence of numbered blocks with their field mappings, and the log lines as numbers or failed links.
- The completion service is a parameter `complete` that returns the completion text or None when the call raises. The OpenAI call, the prompt and the API key are left out. Because `complete` is a function, two `ingredients` rows with the same text get the same completion, where the real service samples with a temperature; no property of the model depends on this.
- `ast.literal_eval` and the `ingredient`/`quantity` lookups are one opaque parameter `eval`. It returns the two values, or None where evaluation or a lookup raises.
- The MySQL connection, cursor and SQL strings are in-memory tables.
  - Rows are listed in insertion order, which is the order `SELECT` returns.
  - `lastrowid` is the table's next id.
  - Auto-increment ids that MySQL consumes for inserts later rolled back are not modelled: after a failed write the next ids are unchanged.
  - `database.py`'s DDL itself is left out, and so are the `processed` column and the `ingredients_clean` table it lacks. The model follows the columns `ChatGPT_API.py` uses.
- DumpData.WriteToDatabase requires the scraped details to have distinct keys. This holds of every Python dict, and it is what makes the in-place key check a dict update.
- DumpData.WriteToDatabase: the caller's details dict is never updated in the model, whether the write succeeds or fails. `check_if_keys_exist` adds the missing keys with None to that dict in place, but the model hands it a copy, because the field mapping is a value. Only the tables are modelled as the write's effect.
- Reply.ApplyApi: the `UPDATE` and its commit cannot fail in the model. `insert_api_data` commits on its own connection before the update, and the model applies the insert and the mark together.
- DumpData.GetRecipeByTitle: the collation is a parameter `collate`, a sort key, and the server's default collation (case- and accent-insensitive) is not fixed. The 50-character limit of the `title` column is not modelled either: `WriteToDatabase` stores and compares the whole title, where MySQL truncates it or refuses it. Without `ORDER BY`, `fetchone` is taken to return the first matching row in insertion order.
- Text.ParseIntShow: `int()` accepts ASCII digits only (with sign, single underscores and surrounding whitespace). Other Unicode decimal digits are refused.
- Text.Lower: lowercasing, `isdigit`, `isnumeric`, the regular expression class `\d` and the whitespace set are exact only within Latin-1 (the whitespace set is Python's full one).
- Float values (`Cell.Float`) are carried but never computed with.
