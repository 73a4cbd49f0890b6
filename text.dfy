/** The Python string built-ins the scraper relies on, stated over `string`
    (a sequence of code points): `isspace`, `strip`, `split()`,
    `split(sep)`, `sep.join`, `replace`, `in`, `index`, `rindex`, slicing
    with negative bounds, `lower`, `isdigit`, `isnumeric` and `int(str)`. */
module Text {
  import opened Wrappers

  // ---------------------------------------------------------------------
  // Character classes
  // ---------------------------------------------------------------------

  /** `str.isspace` on one character: the characters Python treats as
      whitespace (bidirectional class WS, B or S, or category Zs). */
  predicate IsSpace(c: char) {
    || c == ' '
    || '\t' <= c <= '\r'
    || '\U{1c}' <= c <= '\U{1f}'
    || c == '\U{85}'
    || c == '\U{a0}'
    || c == '\U{1680}'
    || '\U{2000}' <= c <= '\U{200a}'
    || c == '\U{2028}'
    || c == '\U{2029}'
    || c == '\U{202f}'
    || c == '\U{205f}'
    || c == '\U{3000}'
  }

  predicate IsAsciiDigit(c: char) {
    '0' <= c <= '9'
  }

  /** `str.isdigit` on one character, within Latin-1: the ASCII digits and
      the superscripts one, two and three. */
  predicate IsDigit(c: char) {
    IsAsciiDigit(c) || c == '\U{b2}' || c == '\U{b3}' || c == '\U{b9}'
  }

  /** `str.isnumeric` on one character, within Latin-1: the digits and the
      vulgar fractions one quarter, one half and three quarters. */
  predicate IsNumeric(c: char) {
    IsDigit(c) || '\U{bc}' <= c <= '\U{be}'
  }

  /** `str.isdigit` on a whole string: false for the empty string. */
  predicate IsDigitString(s: string) {
    |s| > 0 && forall i :: 0 <= i < |s| ==> IsDigit(s[i])
  }

  /** The characters `int()` can accept somewhere in its argument. */
  predicate IsIntChar(c: char) {
    IsAsciiDigit(c) || c == '_' || c == '+' || c == '-' || IsSpace(c)
  }

  /** `str.lower` on one character, within Latin-1: it leaves the
      characters of an integer literal as they are and turns no other
      character into one of them. */
  function LowerChar(c: char): (r: char)
    ensures IsIntChar(c) ==> r == c
    ensures IsIntChar(r) <==> IsIntChar(c)
  {
    if 'A' <= c <= 'Z' || ('\U{c0}' <= c <= '\U{de}' && c != '\U{d7}')
    then (c as int + 32) as char
    else c
  }

  function Lower(s: string): (r: string)
    ensures |r| == |s|
    ensures forall i :: 0 <= i < |s| ==> r[i] == LowerChar(s[i])
  {
    seq(|s|, i requires 0 <= i < |s| => LowerChar(s[i]))
  }

  // ---------------------------------------------------------------------
  // strip() and split()
  // ---------------------------------------------------------------------

  /** The first position in `s[lo..hi]` that is not whitespace, or `hi`. */
  function TrimStart(s: string, lo: nat, hi: nat): (k: nat)
    requires lo <= hi <= |s|
    ensures lo <= k <= hi
    decreases hi - lo
  {
    if lo < hi && IsSpace(s[lo]) then TrimStart(s, lo + 1, hi) else lo
  }

  /** The end of `s[lo..hi]` once trailing whitespace is dropped. */
  function TrimEnd(s: string, lo: nat, hi: nat): (k: nat)
    requires lo <= hi <= |s|
    ensures lo <= k <= hi
    decreases hi - lo
  {
    if lo < hi && IsSpace(s[hi - 1]) then TrimEnd(s, lo, hi - 1) else hi
  }

  lemma {:induction false} TrimStartFacts(s: string, lo: nat, hi: nat)
    requires lo <= hi <= |s|
    ensures var k := TrimStart(s, lo, hi);
            && (forall i :: lo <= i < k ==> IsSpace(s[i]))
            && (k == hi || !IsSpace(s[k]))
    decreases hi - lo
  {
    if lo < hi && IsSpace(s[lo]) {
      TrimStartFacts(s, lo + 1, hi);
    }
  }

  lemma {:induction false} TrimEndFacts(s: string, lo: nat, hi: nat)
    requires lo <= hi <= |s|
    ensures var k := TrimEnd(s, lo, hi);
            && (forall i :: k <= i < hi ==> IsSpace(s[i]))
            && (k == lo || !IsSpace(s[k - 1]))
    decreases hi - lo
  {
    if lo < hi && IsSpace(s[hi - 1]) {
      TrimEndFacts(s, lo, hi - 1);
    }
  }

  /** `str.strip()`: whitespace removed from both ends. */
  function Strip(s: string): string
  {
    var lo := TrimStart(s, 0, |s|);
    s[lo..TrimEnd(s, lo, |s|)]
  }

  /** What `strip()` keeps is one contiguous stretch of the input whose
      ends are not whitespace; everything before and after it is. */
  lemma StripIsInfix(s: string)
    ensures var lo := TrimStart(s, 0, |s|);
            var hi := TrimEnd(s, lo, |s|);
            && Strip(s) == s[lo..hi]
            && (forall i :: 0 <= i < lo ==> IsSpace(s[i]))
            && (forall i :: hi <= i < |s| ==> IsSpace(s[i]))
            && (lo == hi || (!IsSpace(s[lo]) && !IsSpace(s[hi - 1])))
  {
    var lo := TrimStart(s, 0, |s|);
    var hi := TrimEnd(s, lo, |s|);
    TrimStartFacts(s, 0, |s|);
    TrimEndFacts(s, lo, |s|);
    if lo < hi {
      assert lo != |s|;
      assert !IsSpace(s[lo]);
      assert hi == |s| || !IsSpace(s[hi - 1]);
    }
  }

  lemma {:induction false} TrimStartStops(t: string, lo: nat, k: nat, hi: nat)
    requires lo <= k <= hi <= |t| && (k == hi || !IsSpace(t[k]))
    requires forall j :: lo <= j < k ==> IsSpace(t[j])
    ensures TrimStart(t, lo, hi) == k
    decreases k - lo
  {
    if lo < k {
      TrimStartStops(t, lo + 1, k, hi);
    }
  }

  lemma {:induction false} TrimEndStops(t: string, lo: nat, k: nat, hi: nat)
    requires lo <= k <= hi <= |t| && (k == lo || !IsSpace(t[k - 1]))
    requires forall j :: k <= j < hi ==> IsSpace(t[j])
    ensures TrimEnd(t, lo, hi) == k
    decreases hi - k
  {
    if k < hi {
      TrimEndStops(t, lo, k, hi - 1);
    }
  }

  /** Whitespace around a text that neither starts nor ends with
      whitespace is exactly what `strip()` removes. */
  lemma StripPadded(pre: string, s: string, post: string)
    requires s != [] && !IsSpace(s[0]) && !IsSpace(s[|s| - 1])
    requires AllSpace(pre) && AllSpace(post)
    ensures Strip(pre + s + post) == s
  {
    var t := pre + s + post;
    TrimStartStops(t, 0, |pre|, |t|);
    TrimEndStops(t, |pre|, |pre| + |s|, |t|);
    assert t[|pre|..|pre| + |s|] == s;
  }

  /** A string with no whitespace at either end is its own strip. */
  lemma StripUnchanged(s: string)
    requires s == [] || (!IsSpace(s[0]) && !IsSpace(s[|s| - 1]))
    ensures Strip(s) == s
  {
    assert s[0..|s|] == s;
  }

  /** Stripping twice is stripping once. */
  lemma StripIdempotent(s: string)
    ensures Strip(Strip(s)) == Strip(s)
  {
    StripIsInfix(s);
    StripUnchanged(Strip(s));
  }

  predicate IsWord(w: string) {
    w != [] && forall i :: 0 <= i < |w| ==> !IsSpace(w[i])
  }

  /** The end of the run of non-whitespace that starts at `i`. */
  function WordEnd(s: string, i: nat): (j: nat)
    requires i <= |s|
    ensures i <= j <= |s|
    decreases |s| - i
  {
    if i < |s| && !IsSpace(s[i]) then WordEnd(s, i + 1) else i
  }

  lemma {:induction false} WordEndFacts(s: string, i: nat)
    requires i <= |s|
    ensures forall k :: i <= k < WordEnd(s, i) ==> !IsSpace(s[k])
    ensures WordEnd(s, i) == |s| || IsSpace(s[WordEnd(s, i)])
    decreases |s| - i
  {
    if i < |s| && !IsSpace(s[i]) {
      WordEndFacts(s, i + 1);
    }
  }

  /** The words of `s` from position `i` on. */
  function WordsFrom(s: string, i: nat): seq<string>
    requires i <= |s|
    decreases |s| - i
  {
    if i == |s| then []
    else if IsSpace(s[i]) then WordsFrom(s, i + 1)
    else
      var j := WordEnd(s, i);
      [s[i..j]] + WordsFrom(s, j)
  }

  /** `str.split()` with no separator: the maximal runs of non-whitespace,
      in order. */
  function Words(s: string): seq<string>
  {
    WordsFrom(s, 0)
  }

  lemma {:induction false} WordsFromAreWords(s: string, i: nat)
    requires i <= |s|
    ensures forall k :: 0 <= k < |WordsFrom(s, i)| ==> IsWord(WordsFrom(s, i)[k])
    decreases |s| - i
  {
    if i < |s| {
      if IsSpace(s[i]) {
        WordsFromAreWords(s, i + 1);
      } else {
        var j := WordEnd(s, i);
        WordEndFacts(s, i);
        WordsFromAreWords(s, j);
      }
    }
  }

  /** Every piece `split()` yields is a genuine word. */
  lemma WordsAreWords(s: string)
    ensures forall k :: 0 <= k < |Words(s)| ==> IsWord(Words(s)[k])
  {
    WordsFromAreWords(s, 0);
  }

  predicate AllSpace(s: string) {
    forall i :: 0 <= i < |s| ==> IsSpace(s[i])
  }

  lemma {:induction false} WordsFromEmptyIff(s: string, i: nat)
    requires i <= |s|
    ensures WordsFrom(s, i) == [] <==> forall k :: i <= k < |s| ==> IsSpace(s[k])
    decreases |s| - i
  {
    if i < |s| && IsSpace(s[i]) {
      WordsFromEmptyIff(s, i + 1);
    }
  }

  /** `split()` yields nothing exactly when the string is empty or all
      whitespace. */
  lemma WordsEmptyIff(s: string)
    ensures Words(s) == [] <==> AllSpace(s)
  {
    WordsFromEmptyIff(s, 0);
  }

  /** `sep.join(ws)`. */
  function Join(ws: seq<string>, sep: string): string
  {
    if ws == [] then ""
    else if |ws| == 1 then ws[0]
    else ws[0] + sep + Join(ws[1..], sep)
  }

  /** A word followed by a space or the end of the text is one run. */
  lemma {:induction false} WordEndOfWord(t: string, i: nat, w: string)
    requires i + |w| <= |t| && t[i..i + |w|] == w && IsWord(w)
    requires i + |w| == |t| || IsSpace(t[i + |w|])
    ensures WordEnd(t, i) == i + |w|
    decreases |w|
  {
    assert t[i] == w[0];
    if |w| > 1 {
      assert t[i + 1..i + |w|] == w[1..];
      WordEndOfWord(t, i + 1, w[1..]);
    }
  }

  lemma {:induction false} WordsFromJoin(t: string, i: nat, ws: seq<string>)
    requires i <= |t| && t[i..] == Join(ws, " ")
    requires forall k :: 0 <= k < |ws| ==> IsWord(ws[k])
    ensures WordsFrom(t, i) == ws
    decreases |ws|
  {
    if ws != [] {
      var w := ws[0];
      assert t[i..i + |w|] == w by {
        if |ws| > 1 {
          assert Join(ws, " ") == w + (" " + Join(ws[1..], " "));
        }
      }
      assert t[i] == w[0];
      if |ws| == 1 {
        WordEndOfWord(t, i, w);
      } else {
        var rest := Join(ws[1..], " ");
        assert t[i..] == w + " " + rest;
        assert t[i + |w|] == ' ';
        WordEndOfWord(t, i, w);
        assert t[i + |w| + 1..] == rest;
        WordsFromJoin(t, i + |w| + 1, ws[1..]);
      }
    }
  }

  /** `split()` undoes `' '.join` over genuine words. */
  lemma WordsOfJoin(ws: seq<string>)
    requires forall k :: 0 <= k < |ws| ==> IsWord(ws[k])
    ensures Words(Join(ws, " ")) == ws
  {
    var t := Join(ws, " ");
    assert t[0..] == t;
    WordsFromJoin(t, 0, ws);
  }

  // ---------------------------------------------------------------------
  // split(sep) for a one-character separator
  // ---------------------------------------------------------------------

  /** `s.split(c)`: the pieces between occurrences of `c`, always at least
      one. */
  function SplitOn(s: string, c: char): (r: seq<string>)
    ensures |r| >= 1
    ensures forall k :: 0 <= k < |r| ==> c !in r[k]
    decreases |s|
  {
    if s == [] then [""]
    else
      var rest := SplitOn(s[1..], c);
      if s[0] == c then [""] + rest
      else [[s[0]] + rest[0]] + rest[1..]
  }

  /** One piece more than there are separators. */
  lemma {:induction false} SplitOnCount(s: string, c: char)
    ensures |SplitOn(s, c)| == multiset(s)[c] + 1
    decreases |s|
  {
    if s != [] {
      SplitOnCount(s[1..], c);
      assert s == [s[0]] + s[1..];
    }
  }

  /** Joining the pieces back with the separator restores the string. */
  lemma {:induction false} SplitOnJoin(s: string, c: char)
    ensures Join(SplitOn(s, c), [c]) == s
    decreases |s|
  {
    if s != [] {
      var rest := SplitOn(s[1..], c);
      SplitOnJoin(s[1..], c);
      if s[0] != c && |rest| > 1 {
        assert rest == [rest[0]] + rest[1..];
      }
    }
  }

  /** A string without the separator is one piece. */
  lemma SplitOnAbsent(s: string, c: char)
    requires c !in s
    ensures SplitOn(s, c) == [s]
  {
    SplitOnCount(s, c);
    SplitOnJoin(s, c);
  }

  /** Cutting at the first separator: the text before it is the first
      piece. */
  lemma {:induction false} SplitOnCut(a: string, c: char, b: string)
    requires c !in a
    ensures SplitOn(a + [c] + b, c) == [a] + SplitOn(b, c)
    decreases |a|
  {
    var s := a + [c] + b;
    if a == [] {
      assert s[1..] == b;
    } else {
      assert s[1..] == a[1..] + [c] + b;
      SplitOnCut(a[1..], c, b);
      assert [a[0]] + a[1..] == a;
    }
  }

  // ---------------------------------------------------------------------
  // replace, in, count
  // ---------------------------------------------------------------------

  predicate IsPrefix(p: string, s: string) {
    |p| <= |s| && s[..|p|] == p
  }

  /** `needle in hay`. */
  predicate Contains(hay: string, needle: string)
    decreases |hay|
  {
    IsPrefix(needle, hay) || (hay != [] && Contains(hay[1..], needle))
  }

  lemma {:induction false} ContainsAt(hay: string, needle: string, k: nat)
    requires k + |needle| <= |hay| && hay[k..k + |needle|] == needle
    ensures Contains(hay, needle)
    decreases k
  {
    if k > 0 {
      assert hay[1..][k - 1..k - 1 + |needle|] == needle;
      ContainsAt(hay[1..], needle, k - 1);
    }
  }

  /** Number of non-overlapping occurrences of `pat` a left-to-right scan
      finds: `s.count(pat)`, and the number of rewrites `replace` makes. */
  function Occurrences(s: string, pat: string): nat
    requires |pat| > 0
    decreases |s|
  {
    if |s| < |pat| then 0
    else if s[..|pat|] == pat then 1 + Occurrences(s[|pat|..], pat)
    else Occurrences(s[1..], pat)
  }

  /** `s.replace(pat, rep)`: left to right, non-overlapping. */
  function Replace(s: string, pat: string, rep: string): string
    requires |pat| > 0
    decreases |s|
  {
    if |s| < |pat| then s
    else if s[..|pat|] == pat then rep + Replace(s[|pat|..], pat, rep)
    else [s[0]] + Replace(s[1..], pat, rep)
  }

  /** When `rep` carries one copy of a character absent from `pat`, every
      rewrite adds exactly one copy of it. */
  lemma {:induction false} ReplaceCountChar(s: string, pat: string, rep: string, c: char)
    requires |pat| > 0 && c !in pat && multiset(rep)[c] == 1
    ensures multiset(Replace(s, pat, rep))[c] == multiset(s)[c] + Occurrences(s, pat)
    decreases |s|
  {
    if |s| < |pat| {
    } else if s[..|pat|] == pat {
      var rest := s[|pat|..];
      ReplaceCountChar(rest, pat, rep, c);
      assert s == pat + rest;
      assert multiset(s)[c] == multiset(rest)[c];
    } else {
      ReplaceCountChar(s[1..], pat, rep, c);
      assert s == [s[0]] + s[1..];
    }
  }

  /** A text without some character of `pat` does not contain `pat`. */
  lemma {:induction false} MissingCharNoMatch(s: string, pat: string, c: char)
    requires c in pat && c !in s
    ensures !Contains(s, pat)
    decreases |s|
  {
    if s != [] {
      MissingCharNoMatch(s[1..], pat, c);
    }
  }

  /** One step of `replace` where the text cannot start with `pat`. */
  lemma ReplaceCopiesHead(s: string, pat: string, rep: string)
    requires |pat| > 0 && s != [] && s[0] != pat[0]
    ensures Replace(s, pat, rep) == [s[0]] + Replace(s[1..], pat, rep)
  {
    if |s| >= |pat| {
      assert s[..|pat|][0] == s[0];
    }
  }

  /** Text before the first occurrence of `pat`, free of `pat`'s first
      character, is copied; the occurrence is rewritten. */
  lemma {:induction false} ReplaceSkips(x: string, pat: string, rep: string, y: string)
    requires |pat| > 0 && pat[0] !in x
    ensures Replace(x + pat + y, pat, rep) == x + rep + Replace(y, pat, rep)
    decreases |x|
  {
    var s := x + pat + y;
    if x == [] {
      assert s[..|pat|] == pat && s[|pat|..] == y;
    } else {
      var r := Replace(y, pat, rep);
      calc {
        Replace(s, pat, rep);
        { assert s[0] == x[0]; ReplaceCopiesHead(s, pat, rep); }
        [x[0]] + Replace(s[1..], pat, rep);
        { assert s[1..] == x[1..] + pat + y; }
        [x[0]] + Replace(x[1..] + pat + y, pat, rep);
        { ReplaceSkips(x[1..], pat, rep, y); }
        [x[0]] + (x[1..] + rep + r);
        { assert [x[0]] + x[1..] == x; }
        x + rep + r;
      }
    }
  }

  /** `replace` changes nothing where `pat` does not occur. */
  lemma {:induction false} ReplaceAbsent(s: string, pat: string, rep: string)
    requires |pat| > 0 && !Contains(s, pat)
    ensures Replace(s, pat, rep) == s && Occurrences(s, pat) == 0
    decreases |s|
  {
    if |s| >= |pat| {
      ReplaceAbsent(s[1..], pat, rep);
    }
  }

  // ---------------------------------------------------------------------
  // index, rindex, slicing
  // ---------------------------------------------------------------------

  /** `s.index(c)`, with None where Python raises ValueError. */
  function IndexOf(s: string, c: char): (r: Option<nat>)
    ensures r.None? <==> c !in s
    ensures r.Some? ==> r.value < |s| && s[r.value] == c && c !in s[..r.value]
  {
    if s == [] then None
    else if s[0] == c then Some(0)
    else match IndexOf(s[1..], c)
      case None => None
      case Some(i) => assert s[..i + 1] == [s[0]] + s[1..][..i]; Some(i + 1)
  }

  /** `s.rindex(c)`, with None where Python raises ValueError. */
  function RIndexOf(s: string, c: char): (r: Option<nat>)
    ensures r.None? <==> c !in s
    ensures r.Some? ==> r.value < |s| && s[r.value] == c && c !in s[r.value + 1..]
  {
    if s == [] then None
    else if s[|s| - 1] == c then Some(|s| - 1)
    else
      var init := s[..|s| - 1];
      assert s == init + [s[|s| - 1]];
      RIndexOf(init, c)
  }

  /** A slice bound as Python normalises it: negative counts from the end,
      and the result is clamped to the sequence. */
  function SliceBound(len: nat, k: int): (b: nat)
    ensures b <= len
    ensures 0 <= k <= len ==> b == k
    ensures -(len as int) <= k < 0 ==> b as int == len as int + k
    ensures k > len ==> b == len
    ensures k < -(len as int) ==> b == 0
  {
    if k < 0 then (if k + len < 0 then 0 else k + len)
    else if k > len then len
    else k
  }

  /** `s[lo:hi]` with Python's rules: never fails, empty when the
      normalised bounds cross. */
  function Slice<T>(s: seq<T>, lo: int, hi: int): (r: seq<T>)
    ensures var a, b := SliceBound(|s|, lo), SliceBound(|s|, hi);
            && |r| == (if a < b then b - a else 0)
            && forall i :: 0 <= i < |r| ==> r[i] == s[a + i]
  {
    var a, b := SliceBound(|s|, lo), SliceBound(|s|, hi);
    if a < b then s[a..b] else []
  }

  /** A slice whose normalised bounds do not cross is that subsequence. */
  lemma SliceRange<T>(s: seq<T>, lo: int, hi: int)
    ensures var a, b := SliceBound(|s|, lo), SliceBound(|s|, hi);
            Slice(s, lo, hi) == if a < b then s[a..b] else []
  {
  }

  /** `s[k]` with Python's rules: negative counts from the end; None where
      Python raises IndexError. */
  function At<T>(s: seq<T>, k: int): (r: Option<T>)
    ensures r.Some? <==> -|s| <= k < |s|
    ensures 0 <= k < |s| ==> r == Some(s[k])
    ensures -|s| <= k < 0 ==> r == Some(s[|s| + k])
  {
    if 0 <= k < |s| then Some(s[k])
    else if -|s| <= k < 0 then Some(s[|s| + k])
    else None
  }

  // ---------------------------------------------------------------------
  // int(str)
  // ---------------------------------------------------------------------

  function DigitValue(c: char): nat
    requires IsAsciiDigit(c)
  {
    c as int - '0' as int
  }

  /** The value of the decimal literal `t[lo..hi]` as `int` accepts it:
      ASCII digits, an underscore allowed only between two digits; None
      for anything else, the empty literal included. */
  function LiteralValue(t: string, lo: nat, hi: nat): Option<nat>
    requires lo <= hi <= |t|
    decreases hi - lo
  {
    if hi == lo || !IsAsciiDigit(t[hi - 1]) then None
    else if hi - 1 == lo then Some(DigitValue(t[lo]))
    else
      var end := if t[hi - 2] == '_' then hi - 2 else hi - 1;
      match LiteralValue(t, lo, end)
      case None => None
      case Some(v) => Some(v * 10 + DigitValue(t[hi - 1]))
  }

  /** An optional sign, then a decimal literal, filling `t[lo..hi]`. */
  function SignedValue(t: string, lo: nat, hi: nat): Option<int>
    requires lo <= hi <= |t|
  {
    if lo < hi && (t[lo] == '+' || t[lo] == '-') then
      match LiteralValue(t, lo + 1, hi)
      case None => None
      case Some(v) => Some(if t[lo] == '-' then -(v as int) else v)
    else
      match LiteralValue(t, lo, hi)
      case None => None
      case Some(v) => Some(v)
  }

  /** `int(s)`: surrounding whitespace ignored, an optional sign, then a
      decimal literal; None where Python raises ValueError. */
  function ParseInt(s: string): Option<int>
  {
    var lo := TrimStart(s, 0, |s|);
    SignedValue(s, lo, TrimEnd(s, lo, |s|))
  }

  /** A literal `int` reads holds only digits and underscores. */
  lemma {:induction false} LiteralChars(t: string, lo: nat, hi: nat)
    requires lo <= hi <= |t| && LiteralValue(t, lo, hi).Some?
    ensures forall j :: lo <= j < hi ==> IsAsciiDigit(t[j]) || t[j] == '_'
    decreases hi - lo
  {
    if hi - 1 > lo {
      var end := if t[hi - 2] == '_' then hi - 2 else hi - 1;
      LiteralChars(t, lo, end);
    }
  }

  /** Whatever `int` accepts is made of whitespace, a sign, digits and
      underscores. */
  lemma ParseIntChars(s: string)
    requires ParseInt(s).Some?
    ensures forall i :: 0 <= i < |s| ==> IsIntChar(s[i])
  {
    var lo := TrimStart(s, 0, |s|);
    var hi := TrimEnd(s, lo, |s|);
    TrimStartFacts(s, 0, |s|);
    TrimEndFacts(s, lo, |s|);
    if lo < hi && (s[lo] == '+' || s[lo] == '-') {
      LiteralChars(s, lo + 1, hi);
    } else {
      LiteralChars(s, lo, hi);
    }
  }

  /** `int` reads a lowered string exactly as it reads the original. */
  lemma ParseIntLower(s: string)
    ensures ParseInt(Lower(s)) == ParseInt(s)
  {
    if forall i :: 0 <= i < |s| ==> IsIntChar(s[i]) {
      assert Lower(s) == s;
    } else {
      var i :| 0 <= i < |s| && !IsIntChar(s[i]);
      if ParseInt(s).Some? {
        ParseIntChars(s);
      }
      if ParseInt(Lower(s)).Some? {
        ParseIntChars(Lower(s));
      }
    }
  }

  /** `int` reads what `strip()` keeps. */
  lemma ParseIntOfStrip(s: string)
    ensures ParseInt(s) == SignedValue(Strip(s), 0, |Strip(s)|)
  {
    var lo := TrimStart(s, 0, |s|);
    var hi := TrimEnd(s, lo, |s|);
    SignedValueShift(s, Strip(s), lo, 0, hi - lo);
  }

  /** The literal's value depends only on its own characters. */
  lemma {:induction false} LiteralValueShift(t: string, u: string, k: nat, lo: nat, hi: nat)
    requires lo <= hi <= |u| && k + hi <= |t|
    requires forall j :: lo <= j < hi ==> t[k + j] == u[j]
    ensures LiteralValue(t, k + lo, k + hi) == LiteralValue(u, lo, hi)
    decreases hi - lo
  {
    if hi > lo + 1 && IsAsciiDigit(u[hi - 1]) {
      var end := if u[hi - 2] == '_' then hi - 2 else hi - 1;
      LiteralValueShift(t, u, k, lo, end);
    }
  }

  lemma SignedValueShift(t: string, u: string, k: nat, lo: nat, hi: nat)
    requires lo <= hi <= |u| && k + hi <= |t|
    requires forall j :: lo <= j < hi ==> t[k + j] == u[j]
    ensures SignedValue(t, k + lo, k + hi) == SignedValue(u, lo, hi)
  {
    LiteralValueShift(t, u, k, lo, hi);
    if lo < hi {
      LiteralValueShift(t, u, k, lo + 1, hi);
    }
  }

  /** Decimal digits of a natural number, most significant first. */
  function NatToDigits(n: nat): (r: string)
    ensures r != [] && forall i :: 0 <= i < |r| ==> IsAsciiDigit(r[i])
  {
    var d := ['0' + (n % 10) as char];
    if n < 10 then d else NatToDigits(n / 10) + d
  }

  /** One more digit at the end of a literal shifts its value one place. */
  lemma LiteralValueAppend(init: string, c: char)
    requires init != [] && IsAsciiDigit(init[|init| - 1]) && IsAsciiDigit(c)
    requires LiteralValue(init, 0, |init|).Some?
    ensures LiteralValue(init + [c], 0, |init| + 1)
            == Some(LiteralValue(init, 0, |init|).value * 10 + DigitValue(c))
  {
    var r := init + [c];
    LiteralValueShift(r, init, 0, 0, |init|);
  }

  lemma {:induction false} LiteralValueOfDigits(n: nat)
    ensures LiteralValue(NatToDigits(n), 0, |NatToDigits(n)|) == Some(n)
  {
    if n >= 10 {
      var init := NatToDigits(n / 10);
      var c := '0' + (n % 10) as char;
      assert NatToDigits(n) == init + [c];
      LiteralValueOfDigits(n / 10);
      LiteralValueAppend(init, c);
    }
  }

  /** `str(n)` for an int. */
  function Show(n: int): (r: string)
    ensures r != []
  {
    if n < 0 then "-" + NatToDigits(-n) else NatToDigits(n)
  }

  lemma ParseIntNat(m: nat)
    ensures ParseInt(NatToDigits(m)) == Some(m)
  {
    var s := NatToDigits(m);
    assert IsAsciiDigit(s[0]) && IsAsciiDigit(s[|s| - 1]);
    assert TrimStart(s, 0, |s|) == 0;
    assert TrimEnd(s, 0, |s|) == |s|;
    LiteralValueOfDigits(m);
  }

  lemma ParseIntNegative(m: nat)
    ensures ParseInt("-" + NatToDigits(m)) == Some(-(m as int))
  {
    var digits := NatToDigits(m);
    var s := "-" + digits;
    assert IsAsciiDigit(s[|s| - 1]);
    assert TrimStart(s, 0, |s|) == 0;
    assert TrimEnd(s, 0, |s|) == |s|;
    LiteralValueOfDigits(m);
    LiteralValueShift(s, digits, 1, 0, |digits|);
  }

  /** `int(str(n))` gives back `n`, for every integer. */
  lemma ParseIntShow(n: int)
    ensures ParseInt(Show(n)) == Some(n)
  {
    if n < 0 {
      ParseIntNegative(-n);
    } else {
      ParseIntNat(n);
    }
  }

  /** `int` ignores whitespace around the number. */
  lemma ParseIntPadded(pre: string, s: string, post: string)
    requires s != [] && !IsSpace(s[0]) && !IsSpace(s[|s| - 1])
    requires AllSpace(pre) && AllSpace(post)
    ensures ParseInt(pre + s + post) == ParseInt(s)
  {
    ParseIntOfStrip(pre + s + post);
    StripPadded(pre, s, post);
    ParseIntOfStrip(s);
    StripUnchanged(s);
  }

  /** A run of ASCII digits is a literal `int` accepts. */
  lemma {:induction false} DigitsAreLiteral(s: string, lo: nat, hi: nat)
    requires lo < hi <= |s| && forall i :: lo <= i < hi ==> IsAsciiDigit(s[i])
    ensures LiteralValue(s, lo, hi).Some?
    decreases hi - lo
  {
    if hi - 1 > lo {
      DigitsAreLiteral(s, lo, hi - 1);
    }
  }

  /** On a non-empty string of ASCII digits, `int` succeeds with the
      literal's value. */
  lemma ParseIntDigits(s: string)
    requires s != [] && forall i :: 0 <= i < |s| ==> IsAsciiDigit(s[i])
    ensures ParseInt(s) == LiteralValue(s, 0, |s|) && ParseInt(s).Some?
  {
    assert TrimStart(s, 0, |s|) == 0;
    assert TrimEnd(s, 0, |s|) == |s|;
    DigitsAreLiteral(s, 0, |s|);
  }
}
