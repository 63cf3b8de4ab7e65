/** The clean-URL helpers of site-footer.js: slugifyCity, buildResultsCleanUrl,
    buildPropertyCleanUrl and the path half of parsePropertyIdFromUrl. Arguments are
    JavaScript values, given as Json (non-strings are what the `typeof` guards reject). */
module UrlHelpers {
  import opened Wrappers
  import opened Text
  import opened Json
  import opened UriCodec

  /** The Romanian letters with diacritics the slug folds to plain ASCII (after lower-casing). */
  function FoldRo(c: char): (r: char)
    ensures IsSlugAlnum(c) ==> r == c
    ensures c == '-' ==> r == '-'
  {
    if c == 'ă' || c == 'â' then 'a'
    else if c == 'î' then 'i'
    else if c == 'ș' || c == 'ş' then 's'
    else if c == 'ț' || c == 'ţ' then 't'
    else c
  }

  function Fold(s: string): (r: string)
    ensures |r| == |s| && forall i :: 0 <= i < |s| ==> r[i] == FoldRo(s[i])
  {
    seq(|s|, i requires 0 <= i < |s| => FoldRo(s[i]))
  }

  /** Drops the leading characters outside [a-z0-9]. */
  function DropRun(s: string): (r: string)
    ensures |r| <= |s| && r == s[|s| - |r|..]
    ensures r == [] || IsSlugAlnum(r[0])
    ensures forall i :: 0 <= i < |s| - |r| ==> !IsSlugAlnum(s[i])
    decreases |s|
  {
    if s != [] && !IsSlugAlnum(s[0]) then
      var r := DropRun(s[1..]);
      assert s[1..][|s| - 1 - |r|..] == s[|s| - |r|..];
      assert forall i :: 1 <= i < |s| - |r| ==> s[i] == s[1..][i - 1];
      r
    else s
  }

  /** The characters [a-z0-9] of a string, in order. */
  function Alnums(s: string): (r: string)
    decreases |s|
  {
    if s == [] then "" else (if IsSlugAlnum(s[0]) then [s[0]] else "") + Alnums(s[1..])
  }

  predicate IsSlugChar(c: char) { IsSlugAlnum(c) || c == '-' }

  /** Every character is one of [a-z0-9-]. */
  predicate PathChars(s: string)
  {
    forall i :: 0 <= i < |s| ==> IsSlugChar(s[i])
  }

  /** Over [a-z0-9-] with no "--". */
  predicate SlugBody(s: string)
  {
    PathChars(s)
    && (forall i :: 0 <= i < |s| - 1 ==> !(s[i] == '-' && s[i + 1] == '-'))
  }

  /** A slug: a slug body that neither starts nor ends with '-'. */
  predicate IsSlug(s: string)
  {
    SlugBody(s) && (s != [] ==> s[0] != '-' && s[|s| - 1] != '-')
  }

  /** `.replace(/[^a-z0-9]+/g, '-')`: each run of other characters becomes one '-'. */
  function Dashify(s: string): (r: string)
    ensures SlugBody(r)
    ensures r != [] <==> s != []
    ensures r != [] ==> (r[0] == '-' <==> !IsSlugAlnum(s[0]))
    ensures Alnums(r) == Alnums(s)
    decreases |s|
  {
    if s == [] then ""
    else if IsSlugAlnum(s[0]) then [s[0]] + Dashify(s[1..])
    else
      var rest := DropRun(s[1..]);
      DropRunAlnums(s[1..]);
      "-" + Dashify(rest)
  }

  /** What DropRun drops holds no [a-z0-9]. */
  lemma {:induction false} DropRunAlnums(s: string)
    ensures Alnums(DropRun(s)) == Alnums(s)
    decreases |s|
  {
    if s != [] && !IsSlugAlnum(s[0]) {
      DropRunAlnums(s[1..]);
    }
  }

  /** DropRun stops inside `s` when `s` ends with a letter or digit. */
  lemma {:induction false} DropRunAppend(s: string, b: string)
    requires s != [] && IsSlugAlnum(s[|s| - 1])
    ensures DropRun(s) != [] && DropRun(s + b) == DropRun(s) + b
    decreases |s|
  {
    if !IsSlugAlnum(s[0]) {
      assert (s + b)[1..] == s[1..] + b;
      DropRunAppend(s[1..], b);
    }
  }

  /** DropRun removes a whole separator run up to the next letter or digit. */
  lemma {:induction false} DropRunSeparator(sep: string, b: string)
    requires forall i :: 0 <= i < |sep| ==> !IsSlugAlnum(sep[i])
    requires b == [] || IsSlugAlnum(b[0])
    ensures DropRun(sep + b) == b
    decreases |sep|
  {
    if sep == [] {
      assert sep + b == b;
    } else {
      assert (sep + b)[1..] == sep[1..] + b;
      DropRunSeparator(sep[1..], b);
    }
  }

  /** Dashify works piecewise across a boundary after a letter or digit. */
  lemma {:induction false} DashifyAppend(a: string, b: string)
    requires a == [] || IsSlugAlnum(a[|a| - 1])
    ensures Dashify(a + b) == Dashify(a) + Dashify(b)
    decreases |a|
  {
    if a == [] {
      assert a + b == b;
    } else if IsSlugAlnum(a[0]) {
      assert (a + b)[1..] == a[1..] + b;
      DashifyAppend(a[1..], b);
    } else {
      assert (a + b)[1..] == a[1..] + b;
      DropRunAppend(a[1..], b);
      var d := DropRun(a[1..]);
      DashifyAppend(d, b);
    }
  }

  /** A separator run at the front becomes one '-'. */
  lemma DashifyLeadingSeparator(sep: string, b: string)
    requires sep != [] && forall i :: 0 <= i < |sep| ==> !IsSlugAlnum(sep[i])
    requires b == [] || IsSlugAlnum(b[0])
    ensures Dashify(sep + b) == "-" + Dashify(b)
  {
    var s := sep + b;
    assert s[0] == sep[0];
    assert s[1..] == sep[1..] + b;
    DropRunSeparator(sep[1..], b);
  }

  lemma ConcatAssoc<T>(x: seq<T>, y: seq<T>, z: seq<T>)
    ensures x + (y + z) == x + y + z
  {
  }

  /** `.replace(/[^a-z0-9]+/g, '-')` turns a separator run between two words into
      exactly one '-': "cluj napoca" and "cluj--napoca" both give "cluj-napoca". */
  lemma DashifySeparator(a: string, sep: string, b: string)
    requires a == [] || IsSlugAlnum(a[|a| - 1])
    requires sep != [] && forall i :: 0 <= i < |sep| ==> !IsSlugAlnum(sep[i])
    requires b == [] || IsSlugAlnum(b[0])
    ensures Dashify(a + sep + b) == Dashify(a) + "-" + Dashify(b)
  {
    ConcatAssoc(a, sep, b);
    DashifyAppend(a, sep + b);
    DashifyLeadingSeparator(sep, b);
    ConcatAssoc(Dashify(a), "-", Dashify(b));
  }

  function DropLeadingDashes(s: string): (r: string)
    ensures |r| <= |s| && r == s[|s| - |r|..]
    ensures r == [] || r[0] != '-'
    ensures forall i :: 0 <= i < |s| - |r| ==> s[i] == '-'
    decreases |s|
  {
    if s != [] && s[0] == '-' then
      var r := DropLeadingDashes(s[1..]);
      assert s[1..][|s| - 1 - |r|..] == s[|s| - |r|..];
      r
    else s
  }

  function DropTrailingDashes(s: string): (r: string)
    ensures |r| <= |s| && r == s[..|r|]
    ensures r == [] || r[|r| - 1] != '-'
    ensures forall i :: |r| <= i < |s| ==> s[i] == '-'
    decreases |s|
  {
    if s != [] && s[|s| - 1] == '-' then DropTrailingDashes(s[..|s| - 1]) else s
  }

  /** `.replace(/^-+|-+$/g, '')`. */
  function StripDashes(s: string): (r: string)
  {
    DropTrailingDashes(DropLeadingDashes(s))
  }

  /** A slice of a slug body is a slug body. */
  lemma SlugBodySlice(s: string, i: nat, j: nat)
    requires SlugBody(s) && i <= j <= |s|
    ensures SlugBody(s[i..j])
  {
    var t := s[i..j];
    forall k | 0 <= k < |t| - 1 ensures !(t[k] == '-' && t[k + 1] == '-') {
      assert t[k] == s[i + k] && t[k + 1] == s[i + k + 1];
    }
  }

  /** Stripping the dashes of a slug body leaves a slug, with the same letters and digits. */
  lemma StripDashesSlug(s: string)
    requires SlugBody(s)
    ensures IsSlug(StripDashes(s))
  {
    var a := DropLeadingDashes(s);
    SlugBodySlice(s, |s| - |a|, |s|);
    var b := DropTrailingDashes(a);
    SlugBodySlice(a, 0, |b|);
  }

  lemma {:induction false} DropLeadingAlnums(s: string)
    ensures Alnums(DropLeadingDashes(s)) == Alnums(s)
    decreases |s|
  {
    if s != [] && s[0] == '-' {
      DropLeadingAlnums(s[1..]);
    }
  }

  lemma {:induction false} AlnumsAppend(a: string, b: string)
    ensures Alnums(a + b) == Alnums(a) + Alnums(b)
    decreases |a|
  {
    if a == [] {
      assert a + b == b;
    } else {
      var head := if IsSlugAlnum(a[0]) then [a[0]] else "";
      assert (a + b)[0] == a[0] && (a + b)[1..] == a[1..] + b;
      assert Alnums(a + b) == head + Alnums(a[1..] + b);
      AlnumsAppend(a[1..], b);
      assert Alnums(a) == head + Alnums(a[1..]);
    }
  }

  lemma {:induction false} DropTrailingAlnums(s: string)
    ensures Alnums(DropTrailingDashes(s)) == Alnums(s)
    decreases |s|
  {
    if s != [] && s[|s| - 1] == '-' {
      DropTrailingAlnums(s[..|s| - 1]);
      assert s == s[..|s| - 1] + "-";
      AlnumsAppend(s[..|s| - 1], "-");
    }
  }

  /** The slug of a string: trimmed, lower-cased, diacritics folded, runs of other
      characters turned into single dashes, and dashes stripped from both ends. */
  function Slug(s: string): (r: string)
    ensures IsSlug(r)
  {
    var d := Dashify(Fold(Lower(Trim(s))));
    StripDashesSlug(d);
    StripDashes(d)
  }

  /** slugifyCity: '' for a falsy or non-string argument. */
  function SlugifyCity(v: Json): (r: string)
    ensures IsSlug(r) && PathChars(r)
    ensures !Truthy(v) || !v.JStr? ==> r == ""
  {
    if v.JStr? && v.s != "" then Slug(v.s) else ""
  }

  /** The slug keeps exactly the letters and digits of the folded text, in order. */
  lemma SlugKeepsAlnums(s: string)
    requires s != ""
    ensures Alnums(SlugifyCity(JStr(s))) == Alnums(Fold(Lower(Trim(s))))
  {
    var d := Dashify(Fold(Lower(Trim(s))));
    DropLeadingAlnums(d);
    DropTrailingAlnums(DropLeadingDashes(d));
  }

  /** Dashify leaves a slug body that does not end with '-' unchanged. */
  lemma {:induction false} DashifyFixes(s: string)
    requires SlugBody(s) && (s != [] ==> s[|s| - 1] != '-')
    ensures Dashify(s) == s
    decreases |s|
  {
    if s != [] {
      var t := s[1..];
      SlugBodySlice(s, 1, |s|);
      assert t != [] ==> t[|t| - 1] == s[|s| - 1];
      DashifyFixes(t);
      if IsSlugAlnum(s[0]) {
        assert Dashify(s) == [s[0]] + t;
      } else {
        DashAtHead(s);
        assert DropRun(t) == t;
        assert Dashify(s) == "-" + t;
      }
      assert [s[0]] + t == s;
    }
  }

  /** In a slug body that does not end with '-', a leading '-' is followed by a letter or digit. */
  lemma DashAtHead(s: string)
    requires SlugBody(s) && s != [] && s[|s| - 1] != '-' && !IsSlugAlnum(s[0])
    ensures s[0] == '-' && |s| >= 2 && IsSlugAlnum(s[1])
  {
    assert IsSlugChar(s[0]);
    assert |s| >= 2;
    assert IsSlugChar(s[1]) && !(s[0] == '-' && s[1] == '-');
  }

  /** The trim, case and diacritic steps leave a slug unchanged. */
  lemma SlugPrefixFixed(t: string)
    requires IsSlug(t)
    ensures Fold(Lower(Trim(t))) == t
  {
    if t != [] {
      assert !IsJsSpace(t[0]) by { assert IsSlugChar(t[0]); }
      assert TrimStart(t) == t;
      assert !IsJsSpace(t[|t| - 1]) by { assert IsSlugChar(t[|t| - 1]); }
      assert TrimEnd(t) == t;
      assert Trim(t) == t;
    }
    assert Lower(t) == t by {
      forall i | 0 <= i < |t| ensures LowerChar(t[i]) == t[i] { assert IsSlugChar(t[i]); }
    }
    assert Fold(t) == t by {
      forall i | 0 <= i < |t| ensures FoldRo(t[i]) == t[i] { assert IsSlugChar(t[i]); }
    }
  }

  /** Slugifying a slug changes nothing. */
  lemma SlugifyIdempotent(v: Json)
    ensures SlugifyCity(JStr(SlugifyCity(v))) == SlugifyCity(v)
  {
    var t := SlugifyCity(v);
    if t != "" {
      SlugPrefixFixed(t);
      DashifyFixes(t);
      assert DropLeadingDashes(t) == t;
      assert DropTrailingDashes(t) == t;
    }
  }

  // ----- buildResultsCleanUrl -----

  /** TYPE_TO_SLUG. */
  const TYPE_TO_SLUG: map<string, string> := map[
    "apartament" := "apartamente",
    "casa" := "case", "vila" := "case",
    "teren" := "terenuri",
    "spatiu comercial" := "spatii-comerciale", "spațiu comercial" := "spatii-comerciale",
    "birou" := "birouri",
    "hala" := "hale",
    "hotel" := "hoteluri-pensiuni", "pensiune" := "hoteluri-pensiuni",
    "hotel / pensiune" := "hoteluri-pensiuni"
  ]

  lemma PathCharsConcat(a: string, b: string)
    requires PathChars(a) && PathChars(b)
    ensures PathChars(a + b)
  {
    forall i | 0 <= i < |a + b| ensures IsSlugChar((a + b)[i]) {
      if i >= |a| { assert (a + b)[i] == b[i - |a|]; }
    }
  }

  /** The table's slugs are non-empty and over [a-z0-9-]. */
  lemma TypeTableSlugs(k: string)
    requires k in TYPE_TO_SLUG
    ensures TYPE_TO_SLUG[k] != "" && PathChars(TYPE_TO_SLUG[k])
  {
    assert TYPE_TO_SLUG[k] in {"apartamente", "case", "terenuri", "spatii-comerciale", "birouri",
                               "hale", "hoteluri-pensiuni"};
    assert PathChars("apartamente") && PathChars("case") && PathChars("terenuri");
    assert PathChars("spatii-comerciale") && PathChars("birouri") && PathChars("hale");
    assert PathChars("hoteluri-pensiuni");
  }

  /** `.replace(/\s+/g, '-')`. */
  function SpaceRunsToDash(s: string): (r: string)
    ensures forall i :: 0 <= i < |r| ==> !IsJsSpace(r[i])
    decreases |s|
  {
    if s == [] then ""
    else if IsJsSpace(s[0]) then "-" + SpaceRunsToDash(DropSpaces(s[1..]))
    else [s[0]] + SpaceRunsToDash(s[1..])
  }

  function DropSpaces(s: string): (r: string)
    ensures |r| <= |s| && r == s[|s| - |r|..]
    ensures r == [] || !IsJsSpace(r[0])
    decreases |s|
  {
    if s != [] && IsJsSpace(s[0]) then
      var r := DropSpaces(s[1..]);
      assert s[1..][|s| - 1 - |r|..] == s[|s| - |r|..];
      r
    else s
  }

  /** The class `[a-z0-9-]` under the `i` flag. */
  predicate IsUrlWordChar(c: char) { IsAsciiLower(c) || IsAsciiUpper(c) || IsDigit(c) || c == '-' }

  /** `.replace(/[^a-z0-9-]/gi, '')`. */
  function KeepUrlChars(s: string): (r: string)
    ensures forall i :: 0 <= i < |r| ==> IsUrlWordChar(r[i])
    ensures forall i :: 0 <= i < |s| && IsUrlWordChar(s[i]) ==> r != []
    decreases |s|
  {
    if s == [] then "" else (if IsUrlWordChar(s[0]) then [s[0]] else "") + KeepUrlChars(s[1..])
  }

  lemma LowerUrlWordChar(c: char)
    requires IsUrlWordChar(c)
    ensures IsSlugChar(LowerChar(c))
  {
  }

  /** The prefix the type falls back to when the table has no entry. */
  function TypeFallback(typeNorm: string): (r: string)
    ensures PathChars(r)
  {
    var r := Lower(KeepUrlChars(SpaceRunsToDash(typeNorm)));
    forall i | 0 <= i < |r| ensures IsSlugChar(r[i]) {
      LowerUrlWordChar(KeepUrlChars(SpaceRunsToDash(typeNorm))[i]);
    }
    r
  }

  /** The path prefix for a property type: the table entry of the lower-cased, trimmed
      type, else the type made URL-safe, else "proprietati". */
  function TypePrefix(typ: Json): (r: string)
    ensures r != [] && PathChars(r)
    ensures !typ.JStr? ==> r == "proprietati"
    ensures typ.JStr? && Trim(Lower(typ.s)) in TYPE_TO_SLUG ==> r == TYPE_TO_SLUG[Trim(Lower(typ.s))]
    ensures typ.JStr? && typ.s != "" && Trim(Lower(typ.s)) !in TYPE_TO_SLUG ==>
            r == (if TypeFallback(Trim(Lower(typ.s))) != "" then TypeFallback(Trim(Lower(typ.s))) else "proprietati")
  {
    assert PathChars("proprietati");
    if typ.JStr? && typ.s != "" then
      var typeNorm := Trim(Lower(typ.s));
      if typeNorm in TYPE_TO_SLUG then
        TypeTableSlugs(typeNorm);
        TYPE_TO_SLUG[typeNorm]
      else if TypeFallback(typeNorm) != "" then TypeFallback(typeNorm)
      else "proprietati"
    else "proprietati"
  }

  /** The transaction segment: `'rent'` selects the rental path, any other value the sale path. */
  function TransactionSlug(transaction: Json): (r: string)
    ensures r != [] && PathChars(r)
    ensures r == "de-inchiriere" <==> transaction == JStr("rent")
    ensures r == "de-vanzare" <==> transaction != JStr("rent")
  {
    assert PathChars("de-inchiriere") && PathChars("de-vanzare");
    if transaction == JStr("rent") then "de-inchiriere" else "de-vanzare"
  }

  /** A results path over [a-z0-9-] after its leading '/'. */
  lemma PathOfPieces(p: string, t: string, c: string)
    requires PathChars(p) && PathChars(t) && PathChars(c)
    ensures var u := "/" + p + "-" + t + "-" + c; u[0] == '/' && PathChars(u[1..])
  {
    assert PathChars("-");
    PathCharsConcat(p, "-");
    PathCharsConcat(p + "-", t);
    PathCharsConcat(p + "-" + t, "-");
    PathCharsConcat(p + "-" + t + "-", c);
    assert ("/" + p + "-" + t + "-" + c)[1..] == p + "-" + t + "-" + c;
  }

  /** buildResultsCleanUrl({ transaction, type, city }): None for null. */
  function BuildResultsCleanUrl(transaction: Json, typ: Json, city: Json): (r: Option<string>)
    ensures r.Some? <==> Truthy(transaction) && SlugifyCity(city) != ""
    ensures r.Some? ==> |r.value| > 0 && r.value[0] == '/' && PathChars(r.value[1..])
  {
    if !Truthy(transaction) || !Truthy(city) then None
    else
      var trSlug := TransactionSlug(transaction);
      var citySlug := SlugifyCity(city);
      if citySlug == "" then None
      else
        var prefix := TypePrefix(typ);
        PathOfPieces(prefix, trSlug, citySlug);
        Some("/" + prefix + "-" + trSlug + "-" + citySlug)
  }

  /** The pieces of a results path: the head up to the second dash, the transaction
      segment between dashes, and the city's slug at the end. */
  lemma PathPieces(p: string, t: string, c: string)
    ensures var u := "/" + p + "-" + t + "-" + c;
            StartsWith(u, "/" + p + "-" + t + "-") && u[|u| - |c|..] == c
            && |u| == |"/" + p + "-" + t + "-"| + |c|
            && Contains(u, "-" + t + "-")
  {
    var u := "/" + p + "-" + t + "-" + c;
    var h := "/" + p + "-" + t + "-";
    assert u == h + c;
    assert u[..|h|] == h;
    var m := "-" + t + "-";
    assert u[|p| + 1..|p| + 1 + |m|] == m;
    ContainsSlice(u, |p| + 1, |p| + 1 + |m|);
  }

  /** The built path is the type prefix, then the transaction segment between dashes,
      then the city's slug at the end. */
  lemma ResultsUrlParts(transaction: Json, typ: Json, city: Json)
    requires BuildResultsCleanUrl(transaction, typ, city).Some?
    ensures var u := BuildResultsCleanUrl(transaction, typ, city).value;
            var t := TransactionSlug(transaction);
            var c := SlugifyCity(city);
            StartsWith(u, "/" + TypePrefix(typ) + "-" + t + "-") && Contains(u, "-" + t + "-")
            && |u| == |"/" + TypePrefix(typ) + "-" + t + "-"| + |c| && u[|u| - |c|..] == c
  {
    PathPieces(TypePrefix(typ), TransactionSlug(transaction), SlugifyCity(city));
  }

  // ----- property pages -----

  const PROPERTY_ROOT: string := "/proprietate"

  /** buildPropertyCleanUrl(slug). */
  function BuildPropertyCleanUrl(slug: Json): (r: string)
    ensures StartsWith(r, PROPERTY_ROOT)
  {
    if slug.JStr? && slug.s != "" then PROPERTY_ROOT + "/" + EncodeUriComponent(Trim(slug.s))
    else PROPERTY_ROOT
  }

  /** The path half of parsePropertyIdFromUrl: `/^\/proprietate\/([^/]+)$/i`, then the
      capture decoded, or kept as it is when decodeURIComponent throws. */
  function ParsePropertyPath(pathname: string): (r: Option<string>)
  {
    var n := |PROPERTY_ROOT| + 1;
    if |pathname| > n && MatchesIgnoringCase(pathname[..n], PROPERTY_ROOT + "/")
       && forall i :: n <= i < |pathname| ==> pathname[i] != '/'
    then
      var capture := pathname[n..];
      match DecodeUriComponent(capture)
      case Some(d) => Some(d)
      case None => Some(capture)
    else None
  }

  /** The lower-case route prefix matches itself. */
  lemma RootMatchesItself()
    ensures MatchesIgnoringCase(PROPERTY_ROOT + "/", PROPERTY_ROOT + "/")
  {
    var p := PROPERTY_ROOT + "/";
    forall i | 0 <= i < |p| ensures LowerChar(p[i]) == p[i] {
      assert IsAsciiLower(p[i]) || p[i] == '/';
    }
  }

  /** A path made of the route prefix and a non-empty segment without '/' is matched, and
      the segment is what gets decoded. */
  lemma ParseRootAndSegment(e: string)
    requires e != "" && forall i :: 0 <= i < |e| ==> e[i] != '/'
    ensures ParsePropertyPath(PROPERTY_ROOT + "/" + e)
            == match DecodeUriComponent(e) case Some(d) => Some(d) case None => Some(e)
  {
    var u := PROPERTY_ROOT + "/" + e;
    var n := |PROPERTY_ROOT| + 1;
    assert u[..n] == PROPERTY_ROOT + "/";
    assert u[n..] == e;
    RootMatchesItself();
    forall i | n <= i < |u| ensures u[i] != '/' {
      assert u[i] == e[i - n];
    }
  }

  /** Parsing the built URL gives back the trimmed slug. */
  lemma PropertyUrlRoundTrip(slug: string)
    requires Trim(slug) != ""
    ensures ParsePropertyPath(BuildPropertyCleanUrl(JStr(slug))) == Some(Trim(slug))
  {
    var e := EncodeUriComponent(Trim(slug));
    assert BuildPropertyCleanUrl(JStr(slug)) == PROPERTY_ROOT + "/" + e;
    ParseRootAndSegment(e);
    DecodeEncode(Trim(slug));
  }

  /** Without a usable slug the URL is the bare root, which the path pattern rejects. */
  lemma BareRootNotParsed(slug: Json)
    requires !slug.JStr? || Trim(slug.s) == ""
    ensures ParsePropertyPath(BuildPropertyCleanUrl(slug)) == None
  {
  }
}
