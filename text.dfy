/** Character classes and string operations the helpers in site-footer.js lean on:
    JavaScript's trim, case mapping and substring search, stated over seq<char>. */
module Text {

  predicate IsDigit(c: char) { '0' <= c <= '9' }

  predicate IsAsciiLower(c: char) { 'a' <= c <= 'z' }

  predicate IsAsciiUpper(c: char) { 'A' <= c <= 'Z' }

  /** The class `[a-z0-9]` of the slug regular expressions. */
  predicate IsSlugAlnum(c: char) { IsAsciiLower(c) || IsDigit(c) }

  /** ECMAScript WhiteSpace and LineTerminator code points: what `trim` removes and `\s` matches. */
  predicate IsJsSpace(c: char)
  {
    c == '\t' || c == '\n' || c == '\U{0B}' || c == '\U{0C}' || c == '\r' || c == ' '
    || c == '\U{A0}' || c == '\U{1680}' || ('\U{2000}' <= c <= '\U{200A}')
    || c == '\U{2028}' || c == '\U{2029}' || c == '\U{202F}' || c == '\U{205F}'
    || c == '\U{3000}' || c == '\U{FEFF}'
  }

  /** toLowerCase on one character: ASCII letters and the Romanian capitals with diacritics. */
  function LowerChar(c: char): (r: char)
    ensures IsAsciiUpper(c) ==> IsAsciiLower(r)
    ensures !IsAsciiUpper(c) && IsAsciiLower(r) ==> r == c
    ensures IsDigit(r) <==> IsDigit(c)
  {
    if IsAsciiUpper(c) then (c as int + 32) as char
    else if c == 'Ă' then 'ă'
    else if c == 'Â' then 'â'
    else if c == 'Î' then 'î'
    else if c == 'Ș' then 'ș'
    else if c == 'Ş' then 'ş'
    else if c == 'Ț' then 'ț'
    else if c == 'Ţ' then 'ţ'
    else c
  }

  /** toUpperCase on one character: ASCII letters and the Romanian small letters with diacritics. */
  function UpperChar(c: char): (r: char)
    ensures IsAsciiLower(c) ==> IsAsciiUpper(r)
    ensures r != ':' <==> c != ':'
  {
    if IsAsciiLower(c) then (c as int - 32) as char
    else if c == 'ă' then 'Ă'
    else if c == 'â' then 'Â'
    else if c == 'î' then 'Î'
    else if c == 'ș' then 'Ș'
    else if c == 'ş' then 'Ş'
    else if c == 'ț' then 'Ț'
    else if c == 'ţ' then 'Ţ'
    else c
  }

  function Lower(s: string): (r: string)
    ensures |r| == |s|
    ensures forall i :: 0 <= i < |s| ==> r[i] == LowerChar(s[i])
  {
    seq(|s|, i requires 0 <= i < |s| => LowerChar(s[i]))
  }

  function Upper(s: string): (r: string)
    ensures |r| == |s|
    ensures forall i :: 0 <= i < |s| ==> r[i] == UpperChar(s[i])
  {
    seq(|s|, i requires 0 <= i < |s| => UpperChar(s[i]))
  }

  /** Every character is whitespace. */
  predicate Blank(s: string)
  {
    forall i :: 0 <= i < |s| ==> IsJsSpace(s[i])
  }

  function TrimStart(s: string): (r: string)
    ensures |r| <= |s| && r == s[|s| - |r|..]
    ensures r == [] || !IsJsSpace(r[0])
    ensures forall i :: 0 <= i < |s| - |r| ==> IsJsSpace(s[i])
  {
    if s != [] && IsJsSpace(s[0]) then TrimStart(s[1..]) else s
  }

  function TrimEnd(s: string): (r: string)
    ensures |r| <= |s| && r == s[..|r|]
    ensures r == [] || !IsJsSpace(r[|r| - 1])
    ensures forall i :: |r| <= i < |s| ==> IsJsSpace(s[i])
  {
    if s != [] && IsJsSpace(s[|s| - 1]) then TrimEnd(s[..|s| - 1]) else s
  }

  /** String.prototype.trim: the slice of `s` between its leading and its trailing
      whitespace; nothing is left of a string that is all whitespace. */
  function Trim(s: string): (r: string)
    ensures |r| <= |s|
    ensures r == [] || (!IsJsSpace(r[0]) && !IsJsSpace(r[|r| - 1]))
    ensures (exists i :: 0 <= i < |s| && !IsJsSpace(s[i])) <==> r != []
    ensures BlankAround(s, |s| - |TrimStart(s)|, r)
  {
    TrimEnds(s);
    SliceBetweenBlanks(s, TrimStart(s), TrimEnd(TrimStart(s)));
    TrimEnd(TrimStart(s))
  }

  lemma TrimEnds(s: string)
    ensures var t := TrimStart(s);
            var r := TrimEnd(t);
            (r == [] || (!IsJsSpace(r[0]) && !IsJsSpace(r[|r| - 1])))
            && ((exists i :: 0 <= i < |s| && !IsJsSpace(s[i])) <==> r != [])
  {
    var t := TrimStart(s);
    var r := TrimEnd(t);
    if r == [] {
      assert t == [];
    } else {
      assert r[0] == t[0];
      assert !IsJsSpace(s[|s| - |t|]);
    }
  }

  /** `r` sits in `s` at `lo`, with only whitespace before and after it. */
  predicate BlankAround(s: string, lo: int, r: string)
  {
    0 <= lo && lo + |r| <= |s| && r == s[lo..lo + |r|] && Blank(s[..lo]) && Blank(s[lo + |r|..])
  }

  lemma SliceBetweenBlanks(s: string, t: string, r: string)
    requires |t| <= |s| && t == s[|s| - |t|..] && forall i :: 0 <= i < |s| - |t| ==> IsJsSpace(s[i])
    requires |r| <= |t| && r == t[..|r|] && forall i :: |r| <= i < |t| ==> IsJsSpace(t[i])
    ensures BlankAround(s, |s| - |t|, r)
  {
    var lo := |s| - |t|;
    PrefixOfSuffix(s, lo, |r|);
    var head, tail := s[..lo], s[lo + |r|..];
    forall i | 0 <= i < |head| ensures IsJsSpace(head[i]) {
      assert head[i] == s[i];
    }
    forall i | 0 <= i < |tail| ensures IsJsSpace(tail[i]) {
      assert tail[i] == t[|r| + i];
    }
  }

  /** A prefix of a suffix is a middle slice, and what follows it is the rest of the suffix. */
  lemma PrefixOfSuffix<T>(s: seq<T>, lo: nat, n: nat)
    requires lo + n <= |s|
    ensures s[lo..][..n] == s[lo..lo + n] && s[lo..][n..] == s[lo + n..]
  {
  }


  /** `.length` of a JavaScript string: UTF-16 code units, two for a character above
      U+FFFF. */
  function Utf16Length(s: string): (n: nat)
    ensures |s| <= n <= 2 * |s|
  {
    if s == [] then 0 else (if s[0] as int > 0xFFFF then 2 else 1) + Utf16Length(s[1..])
  }

  predicate StartsWith(s: string, prefix: string)
  {
    |prefix| <= |s| && s[..|prefix|] == prefix
  }

  /** String.prototype.includes: `pattern` occurs somewhere in `s` (the empty pattern everywhere). */
  predicate Contains(s: string, pattern: string)
    decreases |s|
  {
    StartsWith(s, pattern) || (s != [] && Contains(s[1..], pattern))
  }

  /** `pattern` occurs in `s` starting at index `i`. */
  predicate OccursAt(s: string, pattern: string, i: int)
  {
    0 <= i <= |s| - |pattern| && s[i..i + |pattern|] == pattern
  }

  /** `Contains` agrees with the position-based reading of "occurs in". */
  lemma {:induction false} ContainsAt(s: string, pattern: string)
    ensures Contains(s, pattern) <==> exists i :: OccursAt(s, pattern, i)
    decreases |s|
  {
    if StartsWith(s, pattern) {
      assert OccursAt(s, pattern, 0);
    } else if s == [] {
    } else {
      ContainsAt(s[1..], pattern);
      if exists i :: OccursAt(s, pattern, i) {
        var i :| OccursAt(s, pattern, i);
        assert i != 0;
        assert OccursAt(s[1..], pattern, i - 1) by {
          assert s[1..][i - 1..i - 1 + |pattern|] == s[i..i + |pattern|];
        }
      }
      if Contains(s[1..], pattern) {
        var i :| OccursAt(s[1..], pattern, i);
        assert OccursAt(s, pattern, i + 1) by {
          assert s[1..][i..i + |pattern|] == s[i + 1..i + 1 + |pattern|];
        }
      }
    }
  }

  /** Occurrence is transitive: a string containing `big` contains every part of `big`. */
  lemma ContainsTransitive(s: string, big: string, small: string)
    requires Contains(s, big) && Contains(big, small)
    ensures Contains(s, small)
  {
    ContainsAt(s, big);
    ContainsAt(big, small);
    var i :| OccursAt(s, big, i);
    var j :| OccursAt(big, small, j);
    forall k | 0 <= k < |small| ensures s[i + j + k] == small[k] {
      assert big[j + k] == small[k];
      assert s[i + j + k] == big[j + k];
    }
    assert OccursAt(s, small, i + j);
    ContainsAt(s, small);
  }

  /** A string contains each of its slices. */
  lemma ContainsSlice(s: string, i: nat, j: nat)
    requires i <= j <= |s|
    ensures Contains(s, s[i..j])
  {
    assert OccursAt(s, s[i..j], i);
    ContainsAt(s, s[i..j]);
  }

  /** What occurs in one part of a concatenation occurs in the whole. */
  lemma ContainsConcatLeft(a: string, b: string, pattern: string)
    requires Contains(a, pattern)
    ensures Contains(a + b, pattern)
  {
    ContainsSlice(a + b, 0, |a|);
    assert (a + b)[0..|a|] == a;
    ContainsTransitive(a + b, a, pattern);
  }

  lemma ContainsConcatRight(a: string, b: string, pattern: string)
    requires Contains(b, pattern)
    ensures Contains(a + b, pattern)
  {
    ContainsSlice(a + b, |a|, |a + b|);
    assert (a + b)[|a|..|a + b|] == b;
    ContainsTransitive(a + b, b, pattern);
  }

  /** A character that never occurs is not contained. */
  lemma {:induction false} AbsentCharNotContained(s: string, c: char)
    requires forall i :: 0 <= i < |s| ==> s[i] != c
    ensures !Contains(s, [c])
    decreases |s|
  {
    if s != [] {
      AbsentCharNotContained(s[1..], c);
      assert s[..1] != [c] by { assert s[..1][0] == s[0]; }
      assert !StartsWith(s, [c]);
    } else {
      assert !StartsWith(s, [c]);
    }
  }

  /** Case-insensitive equality with a lower-case pattern (the regex `i` flag). */
  predicate MatchesIgnoringCase(s: string, lowerPattern: string)
  {
    |s| == |lowerPattern| && forall i :: 0 <= i < |s| ==> LowerChar(s[i]) == lowerPattern[i]
  }
}
