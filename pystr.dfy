/** The Python `str` operations the reader relies on, written out for the
    ASCII range: `split` on one character, `partition`, `strip`/`rstrip` of one
    character, `replace`, `lower`/`upper`, `isdigit`/`isnumeric`, `in` and
    negative slicing. */
module PyStr {

  // ---------------------------------------------------------------------------
  // split / join on a single separator character
  // ---------------------------------------------------------------------------

  /** `s.split(sep)` for a one-character separator: empty fields are kept, so
      the result always has one more field than `s` has separators. */
  function Split(s: string, sep: char): (parts: seq<string>)
    ensures |parts| >= 1
    ensures forall i :: 0 <= i < |parts| ==> sep !in parts[i]
    decreases |s|
  {
    if s == [] then [""]
    else
      var rest := Split(s[1..], sep);
      if s[0] == sep then [""] + rest
      else [[s[0]] + rest[0]] + rest[1..]
  }

  /** `sep.join(parts)`. */
  function Join(parts: seq<string>, sep: char): string
    requires |parts| >= 1
    decreases |parts|
  {
    if |parts| == 1 then parts[0] else parts[0] + [sep] + Join(parts[1..], sep)
  }

  /** Splitting loses nothing: joining the fields back gives the original text. */
  lemma {:induction false} JoinOfSplit(s: string, sep: char)
    ensures Join(Split(s, sep), sep) == s
    decreases |s|
  {
    if s != [] {
      JoinOfSplit(s[1..], sep);
      var rest := Split(s[1..], sep);
      if s[0] == sep {
        assert Split(s, sep)[1..] == rest;
      } else {
        var parts := Split(s, sep);
        if |rest| == 1 {
          assert parts == [[s[0]] + rest[0]];
        } else {
          assert parts[1..] == rest[1..];
          assert Join(rest, sep) == rest[0] + [sep] + Join(rest[1..], sep);
        }
      }
    }
  }

  /** A field without `sep` in front of any text splits off as one field. */
  lemma {:induction false} SplitPrefix(p: string, t: string, sep: char)
    requires sep !in p
    ensures Split(p + t, sep) == [p + Split(t, sep)[0]] + Split(t, sep)[1..]
    decreases |p|
  {
    if p != [] {
      assert (p + t)[1..] == p[1..] + t;
      SplitPrefix(p[1..], t, sep);
      assert [p[0]] + (p[1..] + Split(t, sep)[0]) == p + Split(t, sep)[0];
    } else {
      assert p + t == t;
      assert p + Split(t, sep)[0] == Split(t, sep)[0];
      assert Split(t, sep) == [Split(t, sep)[0]] + Split(t, sep)[1..];
    }
  }

  /** Text without the separator is a single field. */
  lemma {:induction false} SplitWithoutSep(s: string, sep: char)
    requires sep !in s
    ensures Split(s, sep) == [s]
  {
    SplitPrefix(s, "", sep);
    assert s + "" == s;
  }

  /** `s.split(sep)[-1:][0]`: the last field, i.e. the text after the last `sep`. */
  function LastField(s: string, sep: char): string {
    var parts := Split(s, sep);
    parts[|parts| - 1]
  }

  /** The last field is exactly the text after the last separator: a suffix of
      `s` without `sep`, preceded in `s` by `sep` unless it is the whole of `s`. */
  lemma {:induction false} LastFieldIsTextAfterLastSep(s: string, sep: char)
    ensures var f := LastField(s, sep);
      && |f| <= |s| && f == s[|s| - |f|..] && sep !in f
      && (|f| < |s| ==> s[|s| - |f| - 1] == sep)
    decreases |s|
  {
    if s != [] {
      LastFieldIsTextAfterLastSep(s[1..], sep);
      var rest := Split(s[1..], sep);
      var f := LastField(s, sep);
      if s[0] == sep {
        assert f == rest[|rest| - 1];
        assert s[1..][|s| - 1 - |f|..] == s[|s| - |f|..];
      } else if |rest| > 1 {
        assert f == rest[|rest| - 1];
        assert s[1..][|s| - 1 - |f|..] == s[|s| - |f|..];
        if |f| == |s| - 1 {
          assert f == s[1..];
          SplitWithoutSep(s[1..], sep);
          assert false;
        }
      } else {
        JoinOfSplit(s[1..], sep);
        assert rest == [rest[0]];
        assert f == [s[0]] + s[1..];
        assert f == s;
      }
    }
  }

  // ---------------------------------------------------------------------------
  // partition, strip, rstrip, replace
  // ---------------------------------------------------------------------------

  /** `s.partition(sep)` for a one-character separator: the text before the
      first `sep`, whether it occurred, and the text after it. */
  datatype Parts = Parts(before: string, found: bool, after: string)

  function Partition(s: string, sep: char): (p: Parts)
    ensures p.found <==> sep in s
    ensures sep !in p.before
    ensures p.found ==> s == p.before + [sep] + p.after
    ensures !p.found ==> p.before == s && p.after == ""
    decreases |s|
  {
    if s == [] then Parts("", false, "")
    else if s[0] == sep then Parts("", true, s[1..])
    else
      var p := Partition(s[1..], sep);
      Parts([s[0]] + p.before, p.found, p.after)
  }

  /** `s.rstrip(c)`: drops every trailing `c`. */
  function RStrip(s: string, c: char): (r: string)
    ensures |r| <= |s| && r == s[..|r|]
    ensures r == [] || r[|r| - 1] != c
    ensures forall i :: |r| <= i < |s| ==> s[i] == c
    decreases |s|
  {
    if s != [] && s[|s| - 1] == c then RStrip(s[..|s| - 1], c) else s
  }

  /** `s.lstrip(c)`: drops every leading `c`. */
  function LStrip(s: string, c: char): (r: string)
    ensures |r| <= |s| && r == s[|s| - |r|..]
    ensures r == [] || r[0] != c
    ensures forall i :: 0 <= i < |s| - |r| ==> s[i] == c
    decreases |s|
  {
    if s != [] && s[0] == c then LStrip(s[1..], c) else s
  }

  /** `s.strip(c)`: drops every leading and every trailing `c`. */
  function Strip(s: string, c: char): (r: string)
    ensures |r| <= |s|
    ensures r == [] || (r[0] != c && r[|r| - 1] != c)
  {
    RStrip(LStrip(s, c), c)
  }

  /** What `strip` leaves is a slice of the text, and everything it drops
      on either side is `c`. */
  lemma StripIsSlice(s: string, c: char) returns (d: nat)
    ensures d + |Strip(s, c)| <= |s| && Strip(s, c) == s[d..d + |Strip(s, c)|]
    ensures forall i :: 0 <= i < d ==> s[i] == c
    ensures forall i :: d + |Strip(s, c)| <= i < |s| ==> s[i] == c
  {
    var l := LStrip(s, c);
    var r := RStrip(l, c);
    assert Strip(s, c) == r;
    d := |s| - |l|;
    assert l == s[d..];
    assert r == l[..|r|];
    assert l[..|r|] == s[d..d + |r|];
    forall i | d + |r| <= i < |s| ensures s[i] == c {
      assert s[i] == l[i - d];
    }
  }

  /** `s.replace(pat, rep)`: scans left to right and replaces every
      non-overlapping occurrence of `pat`. */
  function Replace(s: string, pat: string, rep: string): (r: string)
    requires pat != []
    ensures |rep| <= |pat| ==> |r| <= |s|
    ensures |rep| == |pat| ==> |r| == |s|
    decreases |s|
  {
    if |s| < |pat| then s
    else if s[..|pat|] == pat then rep + Replace(s[|pat|..], pat, rep)
    else [s[0]] + Replace(s[1..], pat, rep)
  }

  /** An occurrence after the first character is one of the whole text, one place on. */
  lemma InfixAfterHead(s: string, pat: string, k: int)
    requires |s| >= 1
    ensures IsInfixAt(s[1..], pat, k) ==> IsInfixAt(s, pat, k + 1)
  {
    if IsInfixAt(s[1..], pat, k) {
      assert s[k + 1..k + 1 + |pat|] == s[1..][k..k + |pat|];
    }
  }

  /** With no occurrence of the pattern, `replace` returns the text unchanged. */
  lemma {:induction false} ReplaceNoMatch(s: string, pat: string, rep: string)
    requires pat != []
    requires forall k :: !IsInfixAt(s, pat, k)
    ensures Replace(s, pat, rep) == s
    decreases |s|
  {
    if |s| >= |pat| {
      assert !IsInfixAt(s, pat, 0);
      forall k ensures !IsInfixAt(s[1..], pat, k) {
        InfixAfterHead(s, pat, k);
      }
      ReplaceNoMatch(s[1..], pat, rep);
      assert [s[0]] + s[1..] == s;
    }
  }

  /** The first occurrence of the pattern is replaced, the text before it is
      kept, and scanning resumes after it. */
  lemma {:induction false} ReplaceFirstMatch(p: string, pat: string, t: string, rep: string)
    requires pat != []
    requires forall k :: 0 <= k < |p| ==> !IsInfixAt(p + pat + t, pat, k)
    ensures Replace(p + pat + t, pat, rep) == p + rep + Replace(t, pat, rep)
    decreases |p|
  {
    var s := p + pat + t;
    if p == [] {
      assert s[..|pat|] == pat && s[|pat|..] == t;
      assert Replace(s, pat, rep) == rep + Replace(t, pat, rep);
    } else {
      assert s[..|pat|] != pat by { assert !IsInfixAt(s, pat, 0); }
      assert Replace(s, pat, rep) == [s[0]] + Replace(s[1..], pat, rep);
      assert s[1..] == p[1..] + pat + t;
      forall k | 0 <= k < |p[1..]| ensures !IsInfixAt(s[1..], pat, k) {
        InfixAfterHead(s, pat, k);
      }
      ReplaceFirstMatch(p[1..], pat, t, rep);
      assert [p[0]] + (p[1..] + rep + Replace(t, pat, rep)) == p + rep + Replace(t, pat, rep);
    }
  }

  // ---------------------------------------------------------------------------
  // containment, case mapping and digit tests
  // ---------------------------------------------------------------------------

  predicate IsInfixAt(s: string, sub: string, k: int) {
    0 <= k && k + |sub| <= |s| && s[k..k + |sub|] == sub
  }

  /** `sub in s`. */
  predicate Contains(s: string, sub: string) {
    exists k :: 0 <= k <= |s| - |sub| && IsInfixAt(s, sub, k)
  }

  predicate IsUpperLetter(c: char) { 'A' <= c <= 'Z' }
  predicate IsLowerLetter(c: char) { 'a' <= c <= 'z' }

  function LowerChar(c: char): char {
    if IsUpperLetter(c) then (c as int + 32) as char else c
  }

  function UpperChar(c: char): char {
    if IsLowerLetter(c) then (c as int - 32) as char else c
  }

  /** `s.lower()` on the ASCII letters. */
  function Lower(s: string): (r: string)
    ensures |r| == |s| && forall i :: 0 <= i < |s| ==> r[i] == LowerChar(s[i])
  {
    seq(|s|, i requires 0 <= i < |s| => LowerChar(s[i]))
  }

  /** `s.upper()` on the ASCII letters. */
  function Upper(s: string): (r: string)
    ensures |r| == |s| && forall i :: 0 <= i < |s| ==> r[i] == UpperChar(s[i])
  {
    seq(|s|, i requires 0 <= i < |s| => UpperChar(s[i]))
  }

  /** `s` spells `word` (all lower case) in any mixture of cases. */
  predicate SpellsIgnoringCase(s: string, word: string) {
    |s| == |word| &&
    forall i :: 0 <= i < |s| ==> s[i] == word[i] || (IsLowerLetter(word[i]) && s[i] == UpperChar(word[i]))
  }

  /** `s.lower() == word` for a lower-case ASCII `word` holds exactly when `s`
      spells `word` in some mixture of upper and lower case. */
  lemma LowerEqualsIff(s: string, word: string)
    requires forall i :: 0 <= i < |word| ==> !IsUpperLetter(word[i])
    ensures Lower(s) == word <==> SpellsIgnoringCase(s, word)
  {
    if Lower(s) == word {
      forall i | 0 <= i < |s|
        ensures s[i] == word[i] || (IsLowerLetter(word[i]) && s[i] == UpperChar(word[i]))
      {
        assert Lower(s)[i] == LowerChar(s[i]);
      }
    }
    if SpellsIgnoringCase(s, word) {
      forall i | 0 <= i < |s| ensures Lower(s)[i] == word[i] {
        assert Lower(s)[i] == LowerChar(s[i]);
      }
    }
  }

  /** `s.upper() == word.upper()` for a lower-case ASCII `word` holds exactly
      when `s` spells `word` in some mixture of upper and lower case. */
  lemma UpperEqualsIff(s: string, word: string)
    requires forall i :: 0 <= i < |word| ==> IsLowerLetter(word[i])
    ensures Upper(s) == Upper(word) <==> SpellsIgnoringCase(s, word)
  {
    if Upper(s) == Upper(word) {
      forall i | 0 <= i < |s|
        ensures s[i] == word[i] || (IsLowerLetter(word[i]) && s[i] == UpperChar(word[i]))
      {
        assert Upper(s)[i] == UpperChar(s[i]) && Upper(word)[i] == UpperChar(word[i]);
      }
    }
    if SpellsIgnoringCase(s, word) {
      forall i | 0 <= i < |s| ensures Upper(s)[i] == Upper(word)[i] {
        assert Upper(s)[i] == UpperChar(s[i]) && Upper(word)[i] == UpperChar(word[i]);
      }
    }
  }

  /** `c.isdigit()` on the ASCII range. */
  predicate IsDigit(c: char) { '0' <= c <= '9' }

  /** `s.isnumeric()` on the ASCII range: non-empty, digits only. */
  predicate IsNumeric(s: string) {
    |s| > 0 && forall i :: 0 <= i < |s| ==> IsDigit(s[i])
  }

  /** `s[-n:]`: the last `n` characters, or all of `s` when it is shorter. */
  function TakeLast(s: string, n: nat): (r: string)
    ensures |r| == if |s| < n then |s| else n
    ensures r == s[|s| - |r|..]
  {
    if |s| <= n then s else s[|s| - n..]
  }
}
