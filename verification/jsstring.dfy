/** The JavaScript string operations the course wizard relies on
    (`includes`, `endsWith`, `indexOf`, `replace` with a string pattern and
    `trim`), stated over `seq<char>`. Indices count characters, not the
    UTF-16 code units JavaScript counts; the strings these operations
    produce are the same either way. */
module JsString {
  import opened Optional

  /** `pat` occurs in `s` starting at index `i`. */
  predicate OccursAt(s: string, pat: string, i: int)
  {
    0 <= i && i + |pat| <= |s| && s[i..i + |pat|] == pat
  }

  /** `s.includes(pat)`: the reference definition, some occurrence exists. */
  predicate Includes(s: string, pat: string)
  {
    exists i :: 0 <= i <= |s| && OccursAt(s, pat, i)
  }

  /** `i` is the leftmost occurrence of `pat` in `s`. */
  predicate FirstAt(s: string, pat: string, i: int)
  {
    OccursAt(s, pat, i) && forall j :: 0 <= j < i ==> !OccursAt(s, pat, j)
  }

  /** `s.endsWith(suffix)`. */
  predicate EndsWith(s: string, suffix: string)
  {
    |suffix| <= |s| && s[|s| - |suffix|..] == suffix
  }

  /** The leftmost occurrence of `pat` in `s` at or after `from`. */
  function IndexOfFrom(s: string, pat: string, from: nat): (r: Option<nat>)
    ensures r.Some? ==> from <= r.value && OccursAt(s, pat, r.value)
    ensures r.Some? ==> forall j :: from <= j < r.value ==> !OccursAt(s, pat, j)
    ensures r.None? ==> forall j :: from <= j ==> !OccursAt(s, pat, j)
    decreases |s| - from
  {
    if from + |pat| > |s| then None
    else if s[from..from + |pat|] == pat then Some(from)
    else IndexOfFrom(s, pat, from + 1)
  }

  /** The search may jump over a stretch holding no copy of the pattern's
      first character. */
  lemma {:induction false} IndexOfFromSkip(s: string, pat: string, from: nat, to: nat)
    requires from <= to <= |s| && |pat| > 0 && pat[0] !in s[from..to]
    ensures IndexOfFrom(s, pat, from) == IndexOfFrom(s, pat, to)
    decreases |s| - from
  {
    if from < to {
      assert s[from] == s[from..to][0];
      if from + |pat| <= |s| {
        assert s[from..from + |pat|][0] == s[from];
      }
      assert s[from + 1..to] == s[from..to][1..];
      IndexOfFromSkip(s, pat, from + 1, to);
    }
  }

  /** The leftmost occurrence of `pat` in `s` (as `s.indexOf(pat)`, counting
      characters rather than UTF-16 code units), with `None` for `-1`. */
  function IndexOf(s: string, pat: string): (r: Option<nat>)
    ensures r.Some? <==> Includes(s, pat)
    ensures r.Some? ==> FirstAt(s, pat, r.value)
  {
    var r := IndexOfFrom(s, pat, 0);
    assert r.None? ==> !Includes(s, pat);
    r
  }

  /** The leftmost occurrence is unique. */
  lemma FirstAtUnique(s: string, pat: string, i: int, k: int)
    requires FirstAt(s, pat, i) && FirstAt(s, pat, k)
    ensures i == k
  {
  }

  /** `s.replace(pat, rep)` with a string pattern: only the leftmost
      occurrence is replaced, and `s` is returned unchanged when there is
      none. */
  function ReplaceFirst(s: string, pat: string, rep: string): (r: string)
    ensures !Includes(s, pat) ==> r == s
    ensures forall i :: FirstAt(s, pat, i) ==> r == s[..i] + rep + s[i + |pat|..]
  {
    match IndexOf(s, pat)
    case None => s
    case Some(i) =>
      assert forall k :: FirstAt(s, pat, k) ==> k == i by {
        forall k | FirstAt(s, pat, k) {
          FirstAtUnique(s, pat, i, k);
        }
      }
      s[..i] + rep + s[i + |pat|..]
  }

  /** The characters `String.prototype.trim` removes: ECMAScript WhiteSpace
      (tab, vertical tab, form feed, space, no-break space, byte order mark
      and the Unicode space separators) and LineTerminator. */
  predicate IsWhitespace(c: char)
  {
    c in {'\t', '\U{000B}', '\U{000C}', ' ', '\U{00A0}', '\U{FEFF}',
          '\n', '\r', '\U{2028}', '\U{2029}',
          '\U{1680}', '\U{2000}', '\U{2001}', '\U{2002}', '\U{2003}',
          '\U{2004}', '\U{2005}', '\U{2006}', '\U{2007}', '\U{2008}',
          '\U{2009}', '\U{200A}', '\U{202F}', '\U{205F}', '\U{3000}'}
  }

  /** Every character of `s` is whitespace (vacuously so when `s` is empty). */
  predicate AllWhitespace(s: string)
  {
    forall i :: 0 <= i < |s| ==> IsWhitespace(s[i])
  }

  /** `s.trimStart()`: drops the longest whitespace prefix. */
  function TrimStart(s: string): (r: string)
    ensures |r| <= |s| && r == s[|s| - |r|..]
    ensures AllWhitespace(s[..|s| - |r|])
    ensures r != [] ==> !IsWhitespace(r[0])
  {
    if s != [] && IsWhitespace(s[0]) then TrimStart(s[1..]) else s
  }

  /** `s.trimEnd()`: drops the longest whitespace suffix. */
  function TrimEnd(s: string): (r: string)
    ensures |r| <= |s| && r == s[..|r|]
    ensures AllWhitespace(s[|r|..])
    ensures r != [] ==> !IsWhitespace(r[|r| - 1])
  {
    if s != [] && IsWhitespace(s[|s| - 1]) then TrimEnd(s[..|s| - 1]) else s
  }

  /** `s.trim()`: both ends. Nothing is left exactly when the string
      holds only whitespace, and what is left neither starts nor ends with
      whitespace. */
  function Trim(s: string): (r: string)
    ensures exists k :: 0 <= k <= |s| - |r| && r == s[k..k + |r|]
                        && AllWhitespace(s[..k]) && AllWhitespace(s[k + |r|..])
    ensures r == "" <==> AllWhitespace(s)
    ensures r != "" ==> !IsWhitespace(r[0]) && !IsWhitespace(r[|r| - 1])
  {
    var e := TrimEnd(s);
    var r := TrimStart(e);
    var k := |e| - |r|;
    assert e == s[..|e|] && r == e[k..] && r == s[k..k + |r|];
    assert s[..k] == e[..k] && s[k + |r|..] == s[|e|..];
    r
  }
}
