/** Python's `str.strip()` with no argument, as `get_gpt_response` applies it
    to the service's reply. A Python `str` is a sequence of code points; a
    Dafny `string` is a `seq<char>` of Unicode scalar values, which is the
    same thing except that it cannot hold a lone surrogate (U+D800 to
    U+DFFF). */
module PyStrings {

  /** The characters Python's `str.isspace()` accepts: tab, line feed, vertical
      tab, form feed, carriage return, the four information separators, space,
      NEL, no-break space and the Unicode space separators and line/paragraph
      separators. */
  predicate IsSpace(c: char): (b: bool)
    ensures b <==> c in PythonWhitespace
  {
    c == ' ' || ('\t' <= c <= '\r') || ('\U{1C}' <= c <= '\U{1F}') ||
    c == '\U{85}' || c == '\U{A0}' || c == '\U{1680}' ||
    ('\U{2000}' <= c <= '\U{200A}') || c == '\U{2028}' || c == '\U{2029}' ||
    c == '\U{202F}' || c == '\U{205F}' || c == '\U{3000}'
  }

  /** The same 29 characters, listed one by one. */
  const PythonWhitespace: set<char> := {
    '\t', '\n', '\U{0B}', '\U{0C}', '\r', '\U{1C}', '\U{1D}', '\U{1E}', '\U{1F}', ' ',
    '\U{85}', '\U{A0}', '\U{1680}',
    '\U{2000}', '\U{2001}', '\U{2002}', '\U{2003}', '\U{2004}', '\U{2005}',
    '\U{2006}', '\U{2007}', '\U{2008}', '\U{2009}', '\U{200A}',
    '\U{2028}', '\U{2029}', '\U{202F}', '\U{205F}', '\U{3000}'
  }

  predicate AllSpace(s: string) {
    forall k :: 0 <= k < |s| ==> IsSpace(s[k])
  }

  /** The string has no surrounding whitespace. */
  predicate Trimmed(s: string) {
    s == [] || (!IsSpace(s[0]) && !IsSpace(s[|s| - 1]))
  }

  /** Drops the leading whitespace. */
  function TrimStart(s: string): (r: string)
    ensures |r| <= |s|
    decreases |s|
  {
    if s != [] && IsSpace(s[0]) then TrimStart(s[1..]) else s
  }

  /** What TrimStart leaves is a suffix that does not start with whitespace,
      and everything it dropped is whitespace. */
  lemma {:induction false} TrimStartSpec(s: string)
    ensures var r := TrimStart(s);
      r == s[|s| - |r|..] && AllSpace(s[..|s| - |r|]) && (r == [] || !IsSpace(r[0]))
    decreases |s|
  {
    if s != [] && IsSpace(s[0]) {
      TrimStartSpec(s[1..]);
      var r := TrimStart(s);
      assert s[1..][|s| - 1 - |r|..] == s[|s| - |r|..];
      assert s[..|s| - |r|] == [s[0]] + s[1..][..|s| - 1 - |r|];
    }
  }

  /** Drops the trailing whitespace. */
  function TrimEnd(s: string): (r: string)
    ensures |r| <= |s|
    decreases |s|
  {
    if s != [] && IsSpace(s[|s| - 1]) then TrimEnd(s[..|s| - 1]) else s
  }

  /** What TrimEnd leaves is a prefix that does not end with whitespace, and
      everything it dropped is whitespace. */
  lemma {:induction false} TrimEndSpec(s: string)
    ensures var r := TrimEnd(s);
      r == s[..|r|] && AllSpace(s[|r|..]) && (r == [] || !IsSpace(r[|r| - 1]))
    decreases |s|
  {
    if s != [] && IsSpace(s[|s| - 1]) {
      TrimEndSpec(s[..|s| - 1]);
      var r := TrimEnd(s);
      assert s[..|s| - 1][..|r|] == s[..|r|];
      assert s[|r|..] == s[..|s| - 1][|r|..] + [s[|s| - 1]];
    }
  }

  /** `s` is whitespace before `lo` and from `hi` on, and its slice between
      them has no surrounding whitespace. */
  predicate Flanked(s: string, lo: nat, hi: nat) {
    lo <= hi <= |s| && AllSpace(s[..lo]) && AllSpace(s[hi..]) && Trimmed(s[lo..hi])
  }

  /** `s.strip()`: what is left after removing whitespace at both ends. */
  function Strip(s: string): (r: string)
    ensures |r| <= |s|
  {
    TrimEnd(TrimStart(s))
  }

  /** Strip leaves a slice of `s` with no surrounding whitespace, and the
      parts of `s` before and after it are whitespace only. */
  lemma StripFlanked(s: string)
    ensures var r := Strip(s); var lo := |s| - |TrimStart(s)|;
      lo + |r| <= |s| && r == s[lo..lo + |r|] && Flanked(s, lo, lo + |r|)
  {
    var t := TrimStart(s);
    var r := TrimEnd(t);
    var lo := |s| - |t|;
    TrimStartSpec(s);
    TrimEndSpec(t);
    assert s[lo + |r|..] == t[|r|..];
    assert r != [] ==> r[0] == t[0];
  }

  /** Two flanking slices of the same string are the same slice. */
  lemma FlankedUnique(s: string, lo: nat, hi: nat, lo2: nat, hi2: nat)
    requires Flanked(s, lo, hi) && Flanked(s, lo2, hi2)
    ensures s[lo..hi] == s[lo2..hi2]
  {
    if lo < hi && lo2 < hi2 {
      assert s[lo..hi][0] == s[lo] && s[lo2..hi2][0] == s[lo2];
      assert lo == lo2;
      assert s[lo..hi][hi - 1 - lo] == s[hi - 1] && s[lo2..hi2][hi2 - 1 - lo2] == s[hi2 - 1];
      assert hi == hi2;
    }
  }

  /** Strip's contract determines its result: any slice of `s` with no
      surrounding whitespace, flanked by whitespace only, is `Strip(s)`. */
  lemma StripUnique(s: string, lo: nat, hi: nat)
    requires Flanked(s, lo, hi)
    ensures Strip(s) == s[lo..hi]
  {
    var r := Strip(s);
    var lo' := |s| - |TrimStart(s)|;
    StripFlanked(s);
    FlankedUnique(s, lo, hi, lo', lo' + |r|);
  }

  /** Stripping twice is stripping once. */
  lemma StripIdempotent(s: string)
    ensures Strip(Strip(s)) == Strip(s)
  {
    var r := Strip(s);
    StripFlanked(s);
    assert r[0..|r|] == r && r[..0] == [] && r[|r|..] == [];
    StripUnique(r, 0, |r|);
  }

  /** A reply that already has no surrounding whitespace is returned as is,
      and only such a reply is. */
  lemma StripFixesTrimmed(s: string)
    ensures Strip(s) == s <==> Trimmed(s)
  {
    if Trimmed(s) {
      assert s[0..|s|] == s && s[..0] == [] && s[|s|..] == [];
      StripUnique(s, 0, |s|);
    }
  }
}
