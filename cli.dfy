/** The command line of the scraper (All-recipe-web-scraper.py,
    has_other_args and validate_args): the parsed flags as an object whose
    fields validation rewrites in place. */
module Cli {
  import opened Wrappers
  import opened Recipe

  /** Why validation ends the program. */
  datatype ArgsError =
    | NoArguments               // argv no longer than the minimum
    | TooManyArguments          // argv longer than the maximum
    | Unrecognized(args: seq<string>)
    | AllWithOthers             // --all given next to a field flag

  const NOTHING := Selection(false, false, false, false, false, false, false, false, false)
  const EVERYTHING := Selection(true, true, true, true, true, true, true, true, true)

  /** What validation makes of the flags: the first failing check ends the
      program; --all alone selects every field; otherwise the flags stand. */
  function Validated(flags: Selection, all: bool, argc: nat, unknown: seq<string>, minArgs: int, maxArgs: int)
    : Result<Selection, ArgsError>
  {
    if argc <= minArgs then Err(NoArguments)
    else if argc > maxArgs then Err(TooManyArguments)
    else if unknown != [] then Err(Unrecognized(unknown))
    else if all && flags != NOTHING then Err(AllWithOthers)
    else if all then Ok(EVERYTHING)
    else Ok(flags)
  }

  /** The argparse namespace: one flag per field, and --all. */
  class Namespace {
    var title: bool
    var ingredients: bool
    var details: bool
    var reviews: bool
    var rating: bool
    var nutrition: bool
    var published: bool
    var category: bool
    var link: bool
    var all: bool

    constructor (flags: Selection, all: bool)
      ensures Selected() == flags && this.all == all
    {
      title, ingredients, details := flags.title, flags.ingredients, flags.details;
      reviews, rating, nutrition := flags.reviews, flags.rating, flags.nutrition;
      published, category, link := flags.published, flags.category, flags.link;
      this.all := all;
    }

    /** The field flags, in the order the scraper dispatches on them. */
    function Selected(): Selection
      reads this
    {
      Selection(title, ingredients, details, reviews, rating, nutrition, published, category, link)
    }

    /** has_other_args: some field flag is set. */
    function HasOtherArgs(): (b: bool)
      reads this
      ensures b <==> Selected() != NOTHING
    {
      title || ingredients || details || reviews || rating || nutrition || published || category || link
    }

    /** validate_args after parsing: check the argument count and unknown
        arguments, refuse --all next to a field flag, and let --all alone
        set every field flag. On an error nothing is changed (the program
        exits). */
    method ValidateArgs(argc: nat, unknown: seq<string>, minArgs: int, maxArgs: int)
      returns (r: Result<(), ArgsError>)
      modifies this
      ensures r.Err? <==> Validated(old(Selected()), old(all), argc, unknown, minArgs, maxArgs).Err?
      ensures r.Err? ==> r.error == Validated(old(Selected()), old(all), argc, unknown, minArgs, maxArgs).error
      ensures r.Err? ==> unchanged(this)
      ensures r.Ok? ==> Selected() == Validated(old(Selected()), old(all), argc, unknown, minArgs, maxArgs).value
      ensures all == old(all)
    {
      if argc <= minArgs {
        return Err(NoArguments);
      } else if argc > maxArgs {
        return Err(TooManyArguments);
      }
      if unknown != [] {
        return Err(Unrecognized(unknown));
      }
      if all && HasOtherArgs() {
        return Err(AllWithOthers);
      }
      if all {
        title, ingredients, details, reviews, rating := true, true, true, true, true;
        nutrition, published, category, link := true, true, true, true;
      }
      return Ok(());
    }
  }

  /** --all alone selects every field. */
  lemma AllSelectsEverything(argc: nat, minArgs: int, maxArgs: int)
    requires minArgs < argc <= maxArgs
    ensures Validated(NOTHING, true, argc, [], minArgs, maxArgs) == Ok(EVERYTHING)
  {
  }

  /** --all next to any field flag is refused, whatever the flag. */
  lemma AllWithAnyFlagFails(flags: Selection, argc: nat, minArgs: int, maxArgs: int)
    requires minArgs < argc <= maxArgs && flags != NOTHING
    ensures Validated(flags, true, argc, [], minArgs, maxArgs) == Err(AllWithOthers)
  {
  }

  /** A validated selection is the given one or everything; without --all
      it is the given one. */
  lemma ValidatedShape(flags: Selection, all: bool, argc: nat, unknown: seq<string>, minArgs: int, maxArgs: int)
    requires Validated(flags, all, argc, unknown, minArgs, maxArgs).Ok?
    ensures var sel := Validated(flags, all, argc, unknown, minArgs, maxArgs).value;
            && (sel == flags || sel == EVERYTHING)
            && (!all ==> sel == flags)
            && (all ==> flags == NOTHING)
  {
  }

  /** Validating the flags validation produced, without --all, changes
      nothing. */
  lemma ValidatedIdempotent(flags: Selection, all: bool, argc: nat, minArgs: int, maxArgs: int)
    requires Validated(flags, all, argc, [], minArgs, maxArgs).Ok?
    ensures var sel := Validated(flags, all, argc, [], minArgs, maxArgs).value;
            Validated(sel, false, argc, [], minArgs, maxArgs) == Ok(sel)
  {
  }
}
