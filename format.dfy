/** The display formatters of site-footer.js: safeText, formatNumber, formatMoney,
    titleCaseRo and formatTipBadge. Amounts are what toNum yields, as integers: None
    stands for its `null` (null, undefined, '' or text that is not a finite number). */
module Format {
  import opened Wrappers
  import opened Text
  import opened Decimal
  import opened Json

  // ----- safeText -----

  /** String(v): the text JavaScript gives a value (an array joins its elements with
      ',', writing null elements as ''). */
  function JsString(v: Json): (r: string)
    ensures v.JStr? ==> r == v.s
    decreases v
  {
    match v
    case JNull => "null"
    case JBool(b) => if b then "true" else "false"
    case JNum(n) => IntToString(n)
    case JStr(s) => s
    case JArr(items) =>
      Join(seq(|items|, i requires 0 <= i < |items| =>
        if items[i].JNull? then "" else JsString(items[i])))
    case JObj(_) => "[object Object]"
  }

  /** safeText(v): `String(v ?? '').trim()`. */
  function SafeText(v: Json): (r: string)
    ensures v.JNull? ==> r == ""
    ensures v.JStr? ==> r == Trim(v.s)
  {
    if v.JNull? then "" else Trim(JsString(v))
  }

  // ----- formatNumber -----

  /** `.replace(/\B(?=(\d{3})+(?!\d))/g, '.')` on a run of digits: a dot before every
      group of three digits counted from the right, except at the front. */
  function GroupDigits(d: string): (r: string)
    requires d != [] && AllDigits(d)
    ensures r != [] && IsDigit(r[0])
    decreases |d|
  {
    if |d| <= 3 then d
    else GroupDigits(d[..|d| - 3]) + "." + d[|d| - 3..]
  }

  /** Dots stand exactly every fourth place counted from the right end, and everything
      else is a digit. */
  lemma {:induction false} GroupDigitsDots(d: string)
    requires d != [] && AllDigits(d)
    ensures var r := GroupDigits(d);
            |r| % 4 != 0
            && (forall i :: 0 <= i < |r| ==> (r[i] == '.' <==> (|r| - i) % 4 == 0))
            && (forall i :: 0 <= i < |r| && r[i] != '.' ==> IsDigit(r[i]))
    decreases |d|
  {
    if |d| > 3 {
      GroupDigitsDots(d[..|d| - 3]);
      GroupStep(GroupDigits(d[..|d| - 3]), d[|d| - 3..]);
    }
  }

  /** Appending a dot and three digits keeps the dots every fourth place from the right. */
  lemma GroupStep(head: string, t: string)
    requires |head| % 4 != 0 && |t| == 3 && AllDigits(t)
    requires forall i :: 0 <= i < |head| ==> (head[i] == '.' <==> (|head| - i) % 4 == 0)
    requires forall i :: 0 <= i < |head| && head[i] != '.' ==> IsDigit(head[i])
    ensures var r := head + "." + t;
            |r| % 4 != 0
            && (forall i :: 0 <= i < |r| ==> (r[i] == '.' <==> (|r| - i) % 4 == 0))
            && (forall i :: 0 <= i < |r| && r[i] != '.' ==> IsDigit(r[i]))
  {
    var r := head + "." + t;
    forall i | 0 <= i < |r|
      ensures (r[i] == '.' <==> (|r| - i) % 4 == 0) && (r[i] != '.' ==> IsDigit(r[i]))
    {
      if i < |head| {
        assert r[i] == head[i] && (|r| - i) % 4 == (|head| - i) % 4;
      } else if i > |head| {
        assert r[i] == t[i - |head| - 1];
      }
    }
  }

  /** The text with its dots deleted. */
  function RemoveDots(s: string): (r: string)
    decreases |s|
  {
    if s == [] then "" else (if s[0] == '.' then "" else [s[0]]) + RemoveDots(s[1..])
  }

  lemma {:induction false} RemoveDotsAppend(a: string, b: string)
    ensures RemoveDots(a + b) == RemoveDots(a) + RemoveDots(b)
    decreases |a|
  {
    if a == [] {
      assert a + b == b;
    } else {
      assert (a + b)[1..] == a[1..] + b;
      RemoveDotsAppend(a[1..], b);
    }
  }

  lemma {:induction false} RemoveDotsOfDigits(d: string)
    requires AllDigits(d)
    ensures RemoveDots(d) == d
    decreases |d|
  {
    if d != [] {
      RemoveDotsOfDigits(d[1..]);
      assert [d[0]] + d[1..] == d;
    }
  }

  /** Deleting the dots gives back the digits. */
  lemma {:induction false} GroupDigitsRoundTrip(d: string)
    requires d != [] && AllDigits(d)
    ensures RemoveDots(GroupDigits(d)) == d
    decreases |d|
  {
    if |d| <= 3 {
      RemoveDotsOfDigits(d);
    } else {
      var h := d[..|d| - 3];
      var t := d[|d| - 3..];
      var g := GroupDigits(h);
      assert GroupDigits(d) == g + "." + t;
      GroupDigitsRoundTrip(h);
      RemoveDotsAppend(g + ".", t);
      RemoveDotsAppend(g, ".");
      RemoveDotsOfDigits(t);
      assert RemoveDots(".") == "";
      assert RemoveDots(g + "." + t) == h + t;
      assert h + t == d;
    }
  }

  /** formatNumber(num): '' for null, else the rounded integer with dot separators. */
  function FormatNumber(num: Option<int>): (r: string)
    ensures num.None? <==> r == ""
    ensures num.Some? ==> (r[0] == '-' <==> num.value < 0)
  {
    match num
    case None => ""
    case Some(n) =>
      if n < 0 then "-" + GroupDigits(NatToString(-n)) else GroupDigits(NatToString(n))
  }

  /** Reads a formatted number back: an optional '-', then digits and dots. */
  function ReadFormatted(s: string): (r: Option<int>)
  {
    if s != [] && s[0] == '-' then
      var d := RemoveDots(s[1..]);
      if d != [] && AllDigits(d) then Some(0 - ParseDigits(d)) else None
    else
      var d := RemoveDots(s);
      if d != [] && AllDigits(d) then Some(ParseDigits(d)) else None
  }

  /** Every integer reads back from its formatted text. */
  lemma FormatNumberRoundTrip(n: int)
    ensures ReadFormatted(FormatNumber(Some(n))) == Some(n)
  {
    if n < 0 {
      NegativeRoundTrip(-n);
    } else {
      NonNegativeRoundTrip(n);
    }
  }

  /** The grouped digits of `m`: they do not start with '-', and without their dots they
      are digits that read as `m`. */
  lemma GroupedReadsBack(m: nat)
    ensures var g := GroupDigits(NatToString(m));
            g != [] && g[0] != '-' && RemoveDots(g) != [] && AllDigits(RemoveDots(g))
            && ParseDigits(RemoveDots(g)) == m
  {
    var d := NatToString(m);
    var g := GroupDigits(d);
    GroupDigitsRoundTrip(d);
    ParseNatToString(m);
  }

  lemma NonNegativeRoundTrip(m: nat)
    ensures ReadFormatted(FormatNumber(Some(m))) == Some(m)
  {
    assert FormatNumber(Some(m)) == GroupDigits(NatToString(m));
    GroupedReadsBack(m);
  }

  lemma NegativeRoundTrip(m: nat)
    requires m > 0
    ensures ReadFormatted(FormatNumber(Some(0 - m))) == Some(0 - m)
  {
    var g := GroupDigits(NatToString(m));
    assert FormatNumber(Some(0 - m)) == "-" + g;
    GroupedReadsBack(m);
    assert ("-" + g)[1..] == g;
  }

  /** Different numbers format differently. */
  lemma FormatNumberInjective(a: int, b: int)
    requires FormatNumber(Some(a)) == FormatNumber(Some(b))
    ensures a == b
  {
    FormatNumberRoundTrip(a);
    FormatNumberRoundTrip(b);
  }

  // ----- formatMoney -----

  /** The `pret_fara_tva` flag: the number 1 or the string "1". */
  predicate TvaFlag(flag: Json)
  {
    flag == JNum(1) || flag == JStr("1")
  }

  const TVA_SUFFIX: string := " + TVA"

  /** The currency symbol: '€' for EUR and for a currency that is missing or blank. */
  function CurrencySymbol(currency: Json): (r: string)
    ensures r != ""
    ensures SafeText(currency) in {"", "EUR"} ==> r == "€"
    ensures SafeText(currency) !in {"", "EUR"} ==> r == SafeText(currency)
  {
    var cur := if SafeText(currency) != "" then SafeText(currency) else "EUR";
    if cur == "EUR" then "€" else cur
  }

  /** formatMoney(amount, currency, pret_fara_tva): None for a missing or zero amount;
      otherwise the formatted number, right after it the currency symbol, and after that
      " + TVA" when the flag is set and nothing when it is not. */
  function FormatMoney(amount: Option<int>, currency: Json, flag: Json): (r: Option<string>)
    ensures r.None? <==> amount.None? || amount.value == 0
    ensures r.Some? ==>
              PriceLayout(r.value, FormatNumber(amount), CurrencySymbol(currency),
                          if TvaFlag(flag) then TVA_SUFFIX else "")
  {
    if amount.None? || amount.value == 0 then None
    else
      var formatted := FormatNumber(amount);
      var symbol := CurrencySymbol(currency);
      if TvaFlag(flag) then
        PriceParts(formatted, symbol, TVA_SUFFIX);
        Some(formatted + symbol + TVA_SUFFIX)
      else
        PriceParts(formatted, symbol, "");
        assert formatted + symbol + "" == formatted + symbol;
        Some(formatted + symbol)
  }

  /** `t` is `number`, then `symbol` right after it, then `suffix` to the end. */
  predicate PriceLayout(t: string, number: string, symbol: string, suffix: string)
  {
    |t| == |number| + |symbol| + |suffix|
    && StartsWith(t, number)
    && OccursAt(t, symbol, |number|)
    && OccursAt(t, suffix, |t| - |suffix|)
  }

  /** The number leads the price text, the symbol follows it and the suffix ends it. */
  lemma PriceParts(a: string, b: string, c: string)
    ensures PriceLayout(a + b + c, a, b, c)
  {
    assert (a + b + c)[..|a|] == a;
    assert (a + b + c)[|a|..|a| + |b|] == b;
    assert (a + b + c)[|a + b|..|a + b + c|] == c;
  }

  /** The amount reads back from the front of the price, up to the symbol, whatever the
      currency and the flag. */
  lemma MoneyShowsAmount(amount: int, currency: Json, flag: Json)
    requires amount != 0
    ensures var t := FormatMoney(Some(amount), currency, flag).value;
            ReadFormatted(t[..|FormatNumber(Some(amount))|]) == Some(amount)
  {
    FormatNumberRoundTrip(amount);
  }

  // ----- titleCaseRo -----

  predicate NoSpace(w: string)
  {
    forall i :: 0 <= i < |w| ==> !IsJsSpace(w[i])
  }

  /** The leading run of non-space characters. */
  function TakeWord(s: string): (w: string)
    ensures |w| <= |s| && w == s[..|w|] && NoSpace(w)
    ensures |w| == |s| || IsJsSpace(s[|w|])
    decreases |s|
  {
    if s == [] || IsJsSpace(s[0]) then ""
    else
      var w := [s[0]] + TakeWord(s[1..]);
      assert w == s[..|w|];
      w
  }

  /** `.split(/\s+/).filter(Boolean)`: the maximal runs of non-space characters. */
  function Words(s: string): (ws: seq<string>)
    decreases |s|
  {
    var t := TrimStart(s);
    if t == [] then []
    else
      var w := TakeWord(t);
      if w == "" then [] else [w] + Words(t[|w|..])
  }

  /** Non-empty, space-free words. */
  predicate AreWords(ws: seq<string>)
  {
    forall i :: 0 <= i < |ws| ==> ws[i] != "" && NoSpace(ws[i])
  }

  /** The split yields words: none is empty and none holds a space. */
  lemma {:induction false} WordsAreWords(s: string)
    ensures AreWords(Words(s))
    decreases |s|
  {
    var t := TrimStart(s);
    if t != [] {
      var w := TakeWord(t);
      if w != "" {
        WordsAreWords(t[|w|..]);
        var rest := Words(t[|w|..]);
        assert Words(s) == [w] + rest;
        forall i | 0 <= i < |[w] + rest| ensures ([w] + rest)[i] != "" && NoSpace(([w] + rest)[i]) {
          if i > 0 { assert ([w] + rest)[i] == rest[i - 1]; }
        }
      }
    }
  }

  /** There are no words exactly when the text is all spaces. */
  lemma WordsEmpty(s: string)
    ensures Words(s) == [] <==> Blank(s)
  {
    var t := TrimStart(s);
    if t != [] {
      assert t[0] == s[|s| - |t|] && !IsJsSpace(t[0]);
      assert TakeWord(t) != "";
    }
  }

  /** `.join(' ')`. */
  function JoinSpace(ws: seq<string>): (r: string)
    decreases |ws|
  {
    if ws == [] then ""
    else if |ws| == 1 then ws[0]
    else ws[0] + " " + JoinSpace(ws[1..])
  }

  /** `w.charAt(0).toUpperCase() + w.slice(1)` on the first word only. */
  function CapitalizeFirst(ws: seq<string>): (r: seq<string>)
    ensures |r| == |ws|
    ensures forall i :: 1 <= i < |r| ==> r[i] == ws[i]
  {
    if ws == [] || ws[0] == "" then ws
    else [[UpperChar(ws[0][0])] + ws[0][1..]] + ws[1..]
  }

  /** Capitalising keeps words words. */
  lemma CapitalizeKeepsWords(ws: seq<string>)
    requires AreWords(ws)
    ensures AreWords(CapitalizeFirst(ws))
  {
    if ws != [] {
      var w := ws[0];
      assert w != "" && NoSpace(w);
      assert !IsJsSpace(w[0]);
      UpperKeepsNonSpace(w[0]);
      var w' := [UpperChar(w[0])] + w[1..];
      assert NoSpace(w') by {
        forall k | 1 <= k < |w'| ensures !IsJsSpace(w'[k]) { assert w'[k] == w[k]; }
      }
      var r := CapitalizeFirst(ws);
      assert r == [w'] + ws[1..];
      forall i | 0 <= i < |r| ensures r[i] != "" && NoSpace(r[i]) {
        if i > 0 { assert r[i] == ws[i]; }
      }
    }
  }

  lemma UpperKeepsNonSpace(c: char)
    requires !IsJsSpace(c)
    ensures !IsJsSpace(UpperChar(c))
  {
  }

  lemma LowerKeepsNonSpace(c: char)
    requires !IsJsSpace(c)
    ensures !IsJsSpace(LowerChar(c))
  {
  }

  /** A non-space first character means no leading space to trim. */
  lemma TrimStartAtWord(s: string)
    requires s != [] && !IsJsSpace(s[0])
    ensures TrimStart(s) == s
  {
  }

  lemma {:induction false} TakeWordOfJoin(w: string, rest: string)
    requires w != "" && NoSpace(w)
    requires rest == [] || IsJsSpace(rest[0])
    ensures TakeWord(w + rest) == w
    decreases |w|
  {
    var s := w + rest;
    assert s[0] == w[0] && !IsJsSpace(s[0]);
    assert TakeWord(s) == [s[0]] + TakeWord(s[1..]);
    if |w| == 1 {
      assert s[1..] == rest;
      assert TakeWord(rest) == "";
      assert [s[0]] == w;
    } else {
      assert s[1..] == w[1..] + rest;
      TakeWordOfJoin(w[1..], rest);
      assert [w[0]] + w[1..] == w;
    }
  }

  /** Splitting words joined by single spaces gives the words back. */
  lemma {:induction false} WordsOfJoin(ws: seq<string>)
    requires AreWords(ws)
    ensures Words(JoinSpace(ws)) == ws
    decreases |ws|
  {
    if |ws| == 1 {
      assert JoinSpace(ws) == ws[0];
      WordsOfOne(ws[0]);
    } else if |ws| > 1 {
      var w, tail := ws[0], ws[1..];
      assert w != "" && NoSpace(w);
      WordsOfJoin(tail);
      JoinStartsWithWord(tail);
      assert JoinSpace(ws) == w + " " + JoinSpace(tail);
      WordsAfterSpace(w, JoinSpace(tail));
      assert ws == [w] + tail;
    }
  }

  /** One word splits into itself. */
  lemma WordsOfOne(w: string)
    requires w != "" && NoSpace(w)
    ensures Words(w) == [w]
  {
    TrimStartAtWord(w);
    TakeWordOfJoin(w, "");
    assert w + "" == w;
    assert w[|w|..] == "";
  }

  /** A word, one space, then text starting with a word: the first word, then the words
      of the rest. */
  lemma WordsAfterSpace(w: string, tail: string)
    requires w != "" && NoSpace(w)
    requires tail != [] && !IsJsSpace(tail[0])
    ensures Words(w + " " + tail) == [w] + Words(tail)
  {
    var s := w + " " + tail;
    assert s == w + (" " + tail);
    TrimStartAtWord(s);
    TakeWordOfJoin(w, " " + tail);
    assert s[|w|..] == " " + tail;
    TrimStartAtWord(tail);
    assert TrimStart(" " + tail) == tail by {
      assert (" " + tail)[1..] == tail;
    }
  }

  lemma JoinStartsWithWord(ws: seq<string>)
    requires ws != [] && AreWords(ws)
    ensures JoinSpace(ws) != [] && JoinSpace(ws)[0] == ws[0][0]
  {
  }

  /** titleCaseRo before its two word replacements: the words of the trimmed, lower-cased
      text, the first one capitalised, joined by single spaces. */
  function TitleWords(s: string): (r: string)
  {
    var lw := Words(Lower(Trim(s)));
    JoinSpace(CapitalizeFirst(lw))
  }

  /** The title keeps the words of the lower-cased text: only the first one's first
      letter changes, and whitespace becomes single spaces. */
  lemma TitleWordsSplit(s: string)
    ensures Words(TitleWords(s)) == CapitalizeFirst(Words(Lower(Trim(s))))
  {
    WordsAreWords(Lower(Trim(s)));
    CapitalizeKeepsWords(Words(Lower(Trim(s))));
    WordsOfJoin(CapitalizeFirst(Words(Lower(Trim(s)))));
  }

  /** A character `\w` matches: [A-Za-z0-9_]. */
  predicate IsWordChar(c: char)
  {
    IsAsciiLower(c) || IsAsciiUpper(c) || IsDigit(c) || c == '_'
  }

  /** `\b<word>\b` under the `i` flag matches at index `i`. */
  predicate WordMatchAt(s: string, word: string, i: nat)
  {
    i + |word| <= |s| && MatchesIgnoringCase(s[i..i + |word|], word)
    && (i == 0 || !IsWordChar(s[i - 1]))
    && (i + |word| == |s| || !IsWordChar(s[i + |word|]))
  }

  /** The first index from `from` on where the word matches. */
  function FirstWordMatch(s: string, word: string, from: nat): (r: Option<nat>)
    ensures r.Some? ==> from <= r.value && WordMatchAt(s, word, r.value)
                        && forall j :: from <= j < r.value ==> !WordMatchAt(s, word, j)
    ensures r.None? ==> forall j :: from <= j ==> !WordMatchAt(s, word, j)
    decreases |s| - from
  {
    if from + |word| > |s| then None
    else if WordMatchAt(s, word, from) then Some(from)
    else FirstWordMatch(s, word, from + 1)
  }

  /** `r` is `s` with its first whole-word match of `word` overwritten by `repl`, and
      equal to `s` when there is none. */
  predicate ReplacedFirst(s: string, word: string, repl: string, r: string)
  {
    |r| == |s|
    && match FirstWordMatch(s, word, 0)
       case None => r == s
       case Some(i) =>
         i + |repl| <= |s| && r[..i] == s[..i] && r[i..i + |repl|] == repl
         && r[i + |repl|..] == s[i + |repl|..]
  }

  /** `.replace(/\b<word>\b/i, repl)`: the first match only. */
  function ReplaceWord(s: string, word: string, repl: string): (r: string)
    requires |repl| == |word|
    ensures |r| == |s|
    ensures ReplacedFirst(s, word, repl, r)
  {
    match FirstWordMatch(s, word, 0)
    case None => s
    case Some(i) =>
      var r := s[..i] + repl + s[i + |word|..];
      assert r[..i] == s[..i] && r[i..i + |repl|] == repl && r[i + |repl|..] == s[i + |word|..];
      r
  }

  /** A replacement by a space-free word leaves the spaces where they were. */
  lemma ReplaceWordSpaces(s: string, word: string, repl: string)
    requires |repl| == |word| && NoSpace(word) && NoSpace(repl)
    ensures forall k :: 0 <= k < |s| ==> (IsJsSpace(ReplaceWord(s, word, repl)[k]) <==> IsJsSpace(s[k]))
  {
    var m := FirstWordMatch(s, word, 0);
    if m.Some? {
      var i := m.value;
      var r := ReplaceWord(s, word, repl);
      assert r[..i] == s[..i] && r[i..i + |word|] == repl && r[i + |word|..] == s[i + |word|..];
      MatchNoSpace(s[i..i + |word|], word);
      SpliceKeepsSpaces(s, r, i, |word|);
    }
  }

  /** What matches a space-free word, ignoring case, is space-free. */
  lemma MatchNoSpace(m: string, word: string)
    requires MatchesIgnoringCase(m, word) && NoSpace(word)
    ensures NoSpace(m)
  {
    forall k | 0 <= k < |m| ensures !IsJsSpace(m[k]) {
      assert LowerChar(m[k]) == word[k];
    }
  }

  /** Overwriting a space-free stretch by a space-free stretch moves no space. */
  lemma SpliceKeepsSpaces(s: string, r: string, i: nat, n: nat)
    requires i + n <= |s| == |r| && r[..i] == s[..i] && r[i + n..] == s[i + n..]
    requires NoSpace(r[i..i + n]) && NoSpace(s[i..i + n])
    ensures forall k :: 0 <= k < |s| ==> (IsJsSpace(r[k]) <==> IsJsSpace(s[k]))
  {
    forall k | 0 <= k < |s| ensures IsJsSpace(r[k]) <==> IsJsSpace(s[k]) {
      if k < i {
        assert r[k] == r[..i][k] == s[..i][k] == s[k];
      } else if k < i + n {
        assert r[k] == r[i..i + n][k - i] && s[k] == s[i..i + n][k - i];
      } else {
        assert r[k] == r[i + n..][k - i - n] == s[i + n..][k - i - n] == s[k];
      }
    }
  }

  const VILA: string := "vila"
  const VILA_RO: string := "vilă"
  const INCHIRIERE: string := "inchiriere"
  const INCHIRIERE_RO: string := "Închiriere"

  /** Each replacement is a space-free word as long as the word it replaces. */
  lemma ReplacementsFit()
    ensures |VILA_RO| == |VILA| && NoSpace(VILA) && NoSpace(VILA_RO)
    ensures |INCHIRIERE_RO| == |INCHIRIERE| && NoSpace(INCHIRIERE) && NoSpace(INCHIRIERE_RO)
  {
  }

  /** The title after its first replacement: the first whole word `vila`, in any case,
      becomes `vilă`. */
  function VilaStage(s: string): (r: string)
    ensures |r| == |TitleWords(s)|
    ensures ReplacedFirst(TitleWords(s), VILA, VILA_RO, r)
  {
    ReplacementsFit();
    ReplaceWord(TitleWords(s), VILA, VILA_RO)
  }

  /** titleCaseRo(s): the title words, then the first whole word `vila` becomes `vilă`
      and the first whole word `inchiriere` becomes `Închiriere`. */
  function TitleCaseRo(s: string): (r: string)
    ensures |r| == |TitleWords(s)|
    ensures forall k :: 0 <= k < |r| ==> (IsJsSpace(r[k]) <==> IsJsSpace(TitleWords(s)[k]))
    ensures ReplacedFirst(VilaStage(s), INCHIRIERE, INCHIRIERE_RO, r)
    ensures (FirstWordMatch(TitleWords(s), VILA, 0).None?
             && FirstWordMatch(TitleWords(s), INCHIRIERE, 0).None?) ==> r == TitleWords(s)
  {
    var t := TitleWords(s);
    ReplacementsFit();
    var a := VilaStage(s);
    ReplaceWordSpaces(t, VILA, VILA_RO);
    var b := ReplaceWord(a, INCHIRIERE, INCHIRIERE_RO);
    ReplaceWordSpaces(a, INCHIRIERE, INCHIRIERE_RO);
    b
  }

  // ----- formatTipBadge -----

  const BADGE_SPECIAL: string := "Proprietate specială"
  const BADGE_HOUSE_VILLA: string := "Casă / Vilă"
  const BADGE_HOUSE: string := "Casă"
  const BADGE_VILLA: string := "Vilă"

  /** formatTipBadge(tip). */
  function FormatTipBadge(tip: Json): (r: string)
    ensures r == "" <==> SafeText(tip) == ""
    ensures var lower := Trim(Lower(SafeText(tip)));
            SafeText(tip) != "" && Contains(lower, "special") ==> r == BADGE_SPECIAL
    ensures var lower := Trim(Lower(SafeText(tip)));
            (SafeText(tip) != "" && !Contains(lower, "special")
             && Contains(lower, "casa") && Contains(lower, "vila")) ==> r == BADGE_HOUSE_VILLA
    ensures var lower := Trim(Lower(SafeText(tip)));
            (SafeText(tip) != "" && !Contains(lower, "special")
             && (Contains(lower, "casa") != Contains(lower, "vila") || lower in {"casă", "vilă"}))
            ==> r == (if Contains(lower, "casa") || lower == "casă" then BADGE_HOUSE else BADGE_VILLA)
    ensures var lower := Trim(Lower(SafeText(tip)));
            (SafeText(tip) != "" && !Contains(lower, "special") && !Contains(lower, "casa")
             && !Contains(lower, "vila") && lower !in {"casă", "vilă"}) ==> r == TitleCaseRo(SafeText(tip))
  {
    var t := SafeText(tip);
    if t == "" then ""
    else
      match KeywordBadge(Trim(Lower(t)))
      case Some(b) => b
      case None =>
        TitleNonEmpty(t);
        TitleCaseRo(t)
  }

  /** The fixed badges, tried in order on the lower-cased text. */
  function KeywordBadge(lower: string): (r: Option<string>)
    ensures r.Some? ==> r.value != ""
    ensures Contains(lower, "special") ==> r == Some(BADGE_SPECIAL)
    ensures !Contains(lower, "special") && Contains(lower, "casa") && Contains(lower, "vila")
            ==> r == Some(BADGE_HOUSE_VILLA)
    ensures !Contains(lower, "special") && (Contains(lower, "casa") != Contains(lower, "vila")
                                            || lower in {"casă", "vilă"})
            ==> r == Some(if Contains(lower, "casa") || lower == "casă" then BADGE_HOUSE else BADGE_VILLA)
    ensures r.None? <==> !Contains(lower, "special") && !Contains(lower, "casa")
                         && !Contains(lower, "vila") && lower !in {"casă", "vilă"}
  {
    SpecialeIsSpecial();
    if lower == "speciale" || Contains(lower, "special") then Some(BADGE_SPECIAL)
    else if Contains(lower, "casa") && Contains(lower, "vila") then Some(BADGE_HOUSE_VILLA)
    else if Contains(lower, "casa") || lower == "casă" then Some(BADGE_HOUSE)
    else if Contains(lower, "vila") || lower == "vilă" then Some(BADGE_VILLA)
    else None
  }

  /** The exact test for `speciale` is subsumed by the substring test. */
  lemma SpecialeIsSpecial()
    ensures Contains("speciale", "special")
  {
    ContainsSlice("speciale", 0, 7);
    assert "speciale"[0..7] == "special";
  }

  /** A text with a non-space character has a non-empty title. */
  lemma TitleNonEmpty(t: string)
    requires t != [] && !IsJsSpace(t[0])
    ensures TitleWords(t) != ""
  {
    var l := Lower(Trim(t));
    assert Trim(t) != [] && !IsJsSpace(Trim(t)[0]) by {
      assert !IsJsSpace(t[0]);
    }
    LowerKeepsNonSpace(Trim(t)[0]);
    assert !Blank(l) by { assert !IsJsSpace(l[0]); }
    WordsEmpty(l);
    WordsAreWords(l);
    CapitalizeKeepsWords(Words(l));
    var cw := CapitalizeFirst(Words(l));
    JoinStartsWithWord(cw);
  }
}
