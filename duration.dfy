/** The duration converter: a string of `<int> <unit>` pairs to a total
    number of minutes (All-recipe-web-scraper.py, convert_to_minutes). */
module Duration {
  import opened Wrappers
  import opened Text

  const NEXT_PAIR := 2
  const NEXT_INDEX := 1
  const HOURS := 24
  const MINS := 60

  datatype DurationError =
    | NotAnInteger(token: string)   // int() raises ValueError on the value token
    | MissingUnit                   // the value token is the last one: IndexError
    | InvalidUnit(unit: string)     // the unit is none of the seven spellings

  /** Minutes per unit for the seven spellings the converter knows. */
  function UnitMinutes(unit: string): Option<int>
  {
    if unit == "day" || unit == "days" then Some(HOURS * MINS)
    else if unit == "mins" || unit == "min" then Some(1)
    else if unit == "hours" || unit == "hour" || unit == "hrs" then Some(MINS)
    else None
  }

  function AddTo(total: int, r: Result<int, DurationError>): Result<int, DurationError>
  {
    match r
    case Ok(t) => Ok(total + t)
    case Err(e) => Err(e)
  }

  /** The total a list of tokens denotes, pair by pair from the front; the
      first bad pair decides the error. */
  function MinutesOf(tokens: seq<string>): Result<int, DurationError>
    decreases |tokens|
  {
    if tokens == [] then Ok(0)
    else match ParseInt(tokens[0])
      case None => Err(NotAnInteger(tokens[0]))
      case Some(value) =>
        if |tokens| < 2 then Err(MissingUnit)
        else match UnitMinutes(tokens[1])
          case None => Err(InvalidUnit(tokens[1]))
          case Some(m) => AddTo(value * m, MinutesOf(tokens[2..]))
  }

  /** The same total, read from position `i` on without slicing. */
  function MinutesFrom(tokens: seq<string>, i: nat): Result<int, DurationError>
    decreases |tokens| - i
  {
    if i >= |tokens| then Ok(0)
    else match ParseInt(tokens[i])
      case None => Err(NotAnInteger(tokens[i]))
      case Some(value) =>
        if i + 1 >= |tokens| then Err(MissingUnit)
        else match UnitMinutes(tokens[i + 1])
          case None => Err(InvalidUnit(tokens[i + 1]))
          case Some(m) => AddTo(value * m, MinutesFrom(tokens, i + 2))
  }

  lemma {:induction false} MinutesFromSuffix(tokens: seq<string>, i: nat)
    requires i <= |tokens|
    ensures MinutesFrom(tokens, i) == MinutesOf(tokens[i..])
    decreases |tokens| - i
  {
    if i < |tokens| {
      var rest := tokens[i..];
      assert rest[0] == tokens[i];
      if i + 1 < |tokens| {
        assert rest[1] == tokens[i + 1];
        if i + 2 <= |tokens| {
          assert rest[2..] == tokens[i + 2..];
          MinutesFromSuffix(tokens, i + 2);
        }
      }
    }
  }

  /** A well-formed pair at position `i` adds its minutes to the rest. */
  lemma MinutesFromStep(tokens: seq<string>, i: nat, value: int, m: int)
    requires i + 1 < |tokens|
    requires ParseInt(tokens[i]) == Some(value) && UnitMinutes(tokens[i + 1]) == Some(m)
    ensures MinutesFrom(tokens, i) == AddTo(value * m, MinutesFrom(tokens, i + 2))
  {
  }

  lemma AddToAssoc(a: int, b: int, r: Result<int, DurationError>)
    ensures AddTo(a, AddTo(b, r)) == AddTo(a + b, r)
  {
    match r
    case Ok(_) =>
    case Err(_) =>
  }

  /** The loop of convert_to_minutes: walk the tokens two at a time,
      adding each value times its unit; the first bad pair ends it. */
  method SumPairs(values: seq<string>) returns (r: Result<int, DurationError>)
    ensures r == MinutesOf(values)
  {
    MinutesFromSuffix(values, 0);
    assert values[0..] == values;
    var total := 0;
    var i := 0;
    while i < |values|
      invariant 0 <= i <= |values|
      invariant MinutesFrom(values, 0) == AddTo(total, MinutesFrom(values, i))
      decreases |values| - i
    {
      var value := ParseInt(values[i]);
      if value.None? {
        return Err(NotAnInteger(values[i]));
      }
      if i + NEXT_INDEX >= |values| {
        return Err(MissingUnit);
      }
      var unit := values[i + NEXT_INDEX];
      var factor := UnitMinutes(unit);
      if factor.None? {
        return Err(InvalidUnit(unit));
      }
      var added := value.value * factor.value;
      MinutesFromStep(values, i, value.value, factor.value);
      AddToAssoc(total, added, MinutesFrom(values, i + NEXT_PAIR));
      total := total + added;
      i := i + NEXT_PAIR;
    }
    return Ok(total);
  }

  /** convert_to_minutes: split the text on whitespace and total its
      pairs; blank text is zero minutes. */
  method ConvertToMinutes(valueStr: string) returns (r: Result<int, DurationError>)
    ensures r == MinutesOf(Words(valueStr))
    ensures AllSpace(valueStr) ==> r == Ok(0)
  {
    var values := Words(valueStr);
    WordsEmptyIff(valueStr);
    r := SumPairs(values);
  }

  // ---------------------------------------------------------------------
  // Rendering durations, the converter's partner
  // ---------------------------------------------------------------------

  /** The seven unit spellings the converter accepts. */
  datatype Unit = Day | Days | Min | Mins | Hour | Hours | Hrs

  function Spelling(u: Unit): string {
    match u
    case Day => "day"
    case Days => "days"
    case Min => "min"
    case Mins => "mins"
    case Hour => "hour"
    case Hours => "hours"
    case Hrs => "hrs"
  }

  /** Minutes per unit, as the unit's name means it. */
  function Factor(u: Unit): int {
    match u
    case Day | Days => 1440
    case Min | Mins => 1
    case Hour | Hours | Hrs => 60
  }

  /** The tokens of a duration written as `<value> <unit>` pairs. */
  function Tokens(pairs: seq<(int, Unit)>): seq<string>
  {
    if pairs == [] then []
    else [Show(pairs[0].0), Spelling(pairs[0].1)] + Tokens(pairs[1..])
  }

  /** The minutes a list of pairs stands for. */
  function Total(pairs: seq<(int, Unit)>): int
  {
    if pairs == [] then 0 else pairs[0].0 * Factor(pairs[0].1) + Total(pairs[1..])
  }

  /** Each of the seven spellings is accepted with the factor its name
      means. */
  lemma UnitMinutesOfSpelling(u: Unit)
    ensures UnitMinutes(Spelling(u)) == Some(Factor(u))
  {
    match u
    case Day => case Days => case Min => case Mins =>
    case Hour => case Hours => case Hrs =>
  }

  /** Any other unit token is refused. */
  lemma UnitMinutesRefuses(unit: string)
    requires forall u :: Spelling(u) != unit
    ensures UnitMinutes(unit).None?
  {
    assert Spelling(Day) != unit && Spelling(Days) != unit;
    assert Spelling(Min) != unit && Spelling(Mins) != unit;
    assert Spelling(Hour) != unit && Spelling(Hours) != unit && Spelling(Hrs) != unit;
  }

  /** One well-formed pair in front adds its minutes. */
  lemma MinutesOfPair(v: int, u: Unit, tail: seq<string>)
    ensures MinutesOf([Show(v), Spelling(u)] + tail) == AddTo(v * Factor(u), MinutesOf(tail))
  {
    var ts := [Show(v), Spelling(u)] + tail;
    assert ts[0] == Show(v) && ts[1] == Spelling(u) && ts[2..] == tail;
    ParseIntShow(v);
    UnitMinutesOfSpelling(u);
  }

  /** Well-formed pairs in front add their minutes to whatever the rest of
      the tokens give, error or total. */
  lemma {:induction false} MinutesOfPrefix(pairs: seq<(int, Unit)>, rest: seq<string>)
    ensures MinutesOf(Tokens(pairs) + rest) == AddTo(Total(pairs), MinutesOf(rest))
  {
    if pairs == [] {
      assert Tokens(pairs) + rest == rest;
      AddToAssoc(0, 0, MinutesOf(rest));
    } else {
      var v, u := pairs[0].0, pairs[0].1;
      var tail := Tokens(pairs[1..]) + rest;
      calc {
        MinutesOf(Tokens(pairs) + rest);
        { assert Tokens(pairs) + rest == [Show(v), Spelling(u)] + tail; }
        MinutesOf([Show(v), Spelling(u)] + tail);
        { MinutesOfPair(v, u, tail); }
        AddTo(v * Factor(u), MinutesOf(tail));
        { MinutesOfPrefix(pairs[1..], rest); }
        AddTo(v * Factor(u), AddTo(Total(pairs[1..]), MinutesOf(rest)));
        { AddToAssoc(v * Factor(u), Total(pairs[1..]), MinutesOf(rest)); }
        AddTo(Total(pairs), MinutesOf(rest));
      }
    }
  }

  lemma {:induction false} TokensAreWords(pairs: seq<(int, Unit)>)
    ensures forall k :: 0 <= k < |Tokens(pairs)| ==> IsWord(Tokens(pairs)[k])
  {
    if pairs != [] {
      TokensAreWords(pairs[1..]);
      var s := Show(pairs[0].0);
      assert IsAsciiDigit(NatToDigits(if pairs[0].0 < 0 then -pairs[0].0 else pairs[0].0)[0]);
      assert forall i :: 0 <= i < |s| ==> s[i] == '-' || IsAsciiDigit(s[i]);
    }
  }

  /** Converting a duration written out as `<value> <unit>` pairs joined by
      spaces gives the sum of value times unit factor. */
  lemma ConvertRendered(pairs: seq<(int, Unit)>)
    ensures MinutesOf(Words(Join(Tokens(pairs), " "))) == Ok(Total(pairs))
  {
    TokensAreWords(pairs);
    WordsOfJoin(Tokens(pairs));
    MinutesOfPrefix(pairs, []);
    assert Tokens(pairs) + [] == Tokens(pairs);
  }

  /** After well-formed pairs, a value token whose unit is not one of the
      seven spellings fails with that unit named. */
  lemma InvalidUnitNamed(pairs: seq<(int, Unit)>, value: int, unit: string, rest: seq<string>)
    requires forall u :: Spelling(u) != unit
    ensures MinutesOf(Tokens(pairs) + [Show(value), unit] + rest) == Err(InvalidUnit(unit))
  {
    UnitMinutesRefuses(unit);
    ParseIntShow(value);
    var tail := [Show(value), unit] + rest;
    assert Tokens(pairs) + [Show(value), unit] + rest == Tokens(pairs) + tail;
    MinutesOfPrefix(pairs, tail);
  }

  /** After well-formed pairs, a lone trailing value has no unit to read. */
  lemma OddTokenCountFails(pairs: seq<(int, Unit)>, value: int)
    ensures MinutesOf(Tokens(pairs) + [Show(value)]) == Err(MissingUnit)
  {
    ParseIntShow(value);
    MinutesOfPrefix(pairs, [Show(value)]);
  }

  /** The worked examples: "2 hours 30 mins" is 150 minutes, "1 day" is
      1440, the empty string is 0, and "3 fortnights" names its bad unit. */
  lemma ExampleHoursAndMins()
    ensures MinutesOf(Words("2 hours 30 mins")) == Ok(150)
  {
    assert Show(2) == "2";
    assert NatToDigits(30) == NatToDigits(3) + ['0'];
    assert Show(30) == "30";
    assert Tokens([(2, Hours), (30, Mins)]) == ["2", "hours", "30", "mins"];
    assert Join(["2", "hours", "30", "mins"], " ") == "2 hours 30 mins";
    ConvertRendered([(2, Hours), (30, Mins)]);
  }

  lemma ExampleDay()
    ensures MinutesOf(Words("1 day")) == Ok(1440)
  {
    assert Show(1) == "1";
    assert Tokens([(1, Day)]) == ["1", "day"];
    assert Join(["1", "day"], " ") == "1 day";
    ConvertRendered([(1, Day)]);
  }

  lemma ExampleEmpty()
    ensures MinutesOf(Words("")) == Ok(0)
  {
  }

  lemma ExampleBadUnit()
    ensures MinutesOf(Words("3 fortnights")) == Err(InvalidUnit("fortnights"))
  {
    assert Show(3) == "3";
    assert Join(["3", "fortnights"], " ") == "3 fortnights";
    assert IsWord("fortnights");
    WordsOfJoin(["3", "fortnights"]);
    InvalidUnitNamed([], 3, "fortnights", []);
    assert Tokens([]) + [Show(3), "fortnights"] + [] == ["3", "fortnights"];
  }
}
