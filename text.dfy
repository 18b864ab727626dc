/**
  The .NET string operations the rewriters, readers and scorer rely on, on `string` (= `seq<char>`).
  Comparisons are ordinal; `ToLower` folds ASCII letters only.
 */
module Text {
  import opened Wrappers
  import opened Collections

  /** A `CultureInfo`, identified by its name; the invariant culture has the empty name. */
  type Culture = string

  const InvariantCulture: Culture := ""

  /** `Char.IsWhiteSpace`; the regular-expression class `\s` of .NET matches exactly the same characters. */
  predicate IsWhiteSpace(c: char) {
    var n := c as int;
    (9 <= n <= 13) || n == 32 || n == 0x85 || n == 0xA0 || n == 0x1680
    || (0x2000 <= n <= 0x200A) || n == 0x2028 || n == 0x2029 || n == 0x202F || n == 0x205F || n == 0x3000
  }

  predicate StartsWith(s: string, prefix: string) {
    |prefix| <= |s| && s[..|prefix|] == prefix
  }

  predicate EndsWith(s: string, suffix: string) {
    |suffix| <= |s| && s[|s| - |suffix|..] == suffix
  }

  /** `pat` occurs in `s` starting at index `i`. */
  predicate OccursAt(s: string, pat: string, i: nat) {
    i + |pat| <= |s| && s[i..i + |pat|] == pat
  }

  /** An occurrence one place further in `s` is an occurrence in the rest of `s`. */
  lemma OccursAtTail(s: string, pat: string, j: nat)
    requires |s| > 0
    ensures OccursAt(s, pat, j + 1) == OccursAt(s[1..], pat, j)
  {
    if j + 1 + |pat| <= |s| {
      assert s[j + 1..j + 1 + |pat|] == s[1..][j..j + |pat|];
    }
  }

  predicate Contains(s: string, pat: string) {
    exists i: nat :: i <= |s| && OccursAt(s, pat, i)
  }

  /** `String.IndexOf(pat)` searching from index `from`: the first occurrence at or after `from`, or -1. */
  function IndexOfFrom(s: string, pat: string, from: nat): (r: int)
    decreases |s| - from
    ensures r == -1 || (from <= r && OccursAt(s, pat, r))
    ensures forall j: nat :: from <= j && (r == -1 || j < r) ==> !OccursAt(s, pat, j)
  {
    if |s| < from + |pat| then -1
    else if OccursAt(s, pat, from) then from
    else IndexOfFrom(s, pat, from + 1)
  }

  /** `String.IndexOf(pat)`: the first occurrence of `pat` in `s`, or -1 when there is none. */
  function IndexOf(s: string, pat: string): (r: int)
    ensures -1 <= r
    ensures r == -1 <==> !Contains(s, pat)
    ensures r != -1 ==> OccursAt(s, pat, r) && forall j: nat :: j < r ==> !OccursAt(s, pat, j)
  {
    IndexOfFrom(s, pat, 0)
  }

  /** `String.LastIndexOf(c)`: the last index holding `c`, or -1 when `c` does not occur. */
  function LastIndexOf(s: string, c: char): (r: int)
    ensures -1 <= r < |s|
    ensures r == -1 <==> c !in s
    ensures r != -1 ==> s[r] == c && c !in s[r + 1..]
  {
    if |s| == 0 then -1
    else if s[|s| - 1] == c then |s| - 1
    else
      var r := LastIndexOf(s[..|s| - 1], c);
      assert s[..|s| - 1] + [s[|s| - 1]] == s;
      r
  }

  /**
    `String.Replace(pattern, replacement)`: every non-overlapping occurrence of `pattern`, scanning from the left, is replaced.
    .NET throws for an empty `pattern`; that case is modelled by the callers, here it leaves `s` unchanged.
   */
  function ReplaceAll(s: string, pattern: string, replacement: string): string
    decreases |s|
  {
    if |pattern| == 0 || |s| < |pattern| then s
    else if s[..|pattern|] == pattern then replacement + ReplaceAll(s[|pattern|..], pattern, replacement)
    else [s[0]] + ReplaceAll(s[1..], pattern, replacement)
  }

  lemma {:induction false} ReplaceAllAbsent(s: string, pattern: string, replacement: string)
    requires !Contains(s, pattern)
    ensures ReplaceAll(s, pattern, replacement) == s
    decreases |s|
  {
    if |pattern| == 0 || |s| < |pattern| {
    } else {
      assert !OccursAt(s, pattern, 0);
      forall i: nat ensures !OccursAt(s[1..], pattern, i) {
        if OccursAt(s[1..], pattern, i) {
          assert s[i + 1..i + 1 + |pattern|] == s[1..][i..i + |pattern|];
          assert OccursAt(s, pattern, i + 1);
        }
      }
      ReplaceAllAbsent(s[1..], pattern, replacement);
    }
  }

  /** Removing every occurrence of a one-character string leaves none of that character. */
  lemma {:induction false} RemoveCharRemovesAll(s: string, c: char)
    ensures c !in ReplaceAll(s, [c], "")
    decreases |s|
  {
    if |s| >= 1 {
      RemoveCharRemovesAll(s[1..], c);
    }
  }

  /**
    `String.Split(delims)`: the parts between delimiters, empty parts kept, so a string with `k`
    delimiters yields `k + 1` parts and the empty string yields one empty part.
   */
  function Split(s: string, delims: set<char>): (r: seq<string>)
    ensures |r| >= 1
    ensures forall p :: p in r ==> forall c :: c in p ==> c !in delims
    decreases |s|
  {
    if |s| == 0 then [""]
    else
      var rest := Split(s[1..], delims);
      if s[0] in delims then [""] + rest
      else
        assert rest[0] in rest;
        assert forall p :: p in rest[1..] ==> p in rest;
        assert forall c :: c in [s[0]] + rest[0] ==> c == s[0] || c in rest[0];
        [[s[0]] + rest[0]] + rest[1..]
  }

  /** Splitting at a delimiter splits the parts of either side apart. */
  lemma {:induction false} SplitAtDelimiter(x: string, d: char, y: string, delims: set<char>)
    requires d in delims
    ensures Split(x + [d] + y, delims) == Split(x, delims) + Split(y, delims)
    decreases |x|
  {
    if |x| == 0 {
      assert x + [d] + y == [d] + y;
      assert ([d] + y)[1..] == y;
    } else {
      assert (x + [d] + y)[1..] == x[1..] + [d] + y;
      SplitAtDelimiter(x[1..], d, y, delims);
    }
  }

  /** A string without delimiters is a single part. */
  lemma {:induction false} SplitNoDelimiter(x: string, delims: set<char>)
    requires forall c :: c in x ==> c !in delims
    ensures Split(x, delims) == [x]
    decreases |x|
  {
    if |x| > 0 {
      SplitNoDelimiter(x[1..], delims);
      assert [x[0]] + x[1..] == x;
    }
  }

  /** `Regex.Match(s, @"^\s+").Value`: the leading whitespace of `s` ("" when there is none). */
  function LeadingWhiteSpace(s: string): (r: string)
    ensures StartsWith(s, r)
    ensures forall c :: c in r ==> IsWhiteSpace(c)
    ensures |r| == |s| || !IsWhiteSpace(s[|r|])
  {
    if |s| == 0 || !IsWhiteSpace(s[0]) then ""
    else [s[0]] + LeadingWhiteSpace(s[1..])
  }

  /** `String.TrimStart()`. */
  function TrimStart(s: string): (r: string)
    ensures s == LeadingWhiteSpace(s) + r
  {
    s[|LeadingWhiteSpace(s)|..]
  }

  /** `String.TrimEnd()`. */
  function TrimEnd(s: string): (r: string)
    ensures |r| <= |s| && r == s[..|r|]
    ensures forall i :: |r| <= i < |s| ==> IsWhiteSpace(s[i])
    ensures |r| == 0 || !IsWhiteSpace(r[|r| - 1])
  {
    if |s| == 0 || !IsWhiteSpace(s[|s| - 1]) then s
    else TrimEnd(s[..|s| - 1])
  }

  /** `String.Trim()`: a piece of `s` with no white space at either end. */
  function Trim(s: string): (r: string)
    ensures forall c :: c in r ==> c in s
    ensures |r| == 0 || (!IsWhiteSpace(r[0]) && !IsWhiteSpace(r[|r| - 1]))
  {
    var lead := LeadingWhiteSpace(s);
    var t := TrimStart(s);
    var r := TrimEnd(t);
    assert t == s[|lead|..];
    assert |r| > 0 ==> r[0] == t[0] == s[|lead|] && !IsWhiteSpace(r[0]);
    assert forall c :: c in r ==> c in t;
    assert forall c :: c in t ==> c in s;
    r
  }

  /** `String.IsNullOrEmpty`, `None` standing for null. */
  predicate IsNullOrEmpty(s: Option<string>) {
    s.None? || s.value == ""
  }

  /** `String.IsNullOrWhiteSpace`. */
  predicate IsNullOrWhiteSpace(s: Option<string>) {
    s.None? || forall i :: 0 <= i < |s.value| ==> IsWhiteSpace(s.value[i])
  }

  /** `Char.ToLowerInvariant` restricted to ASCII letters. */
  function LowerChar(c: char): char {
    if 'A' <= c <= 'Z' then (c as int + 32) as char else c
  }

  /** `String.ToLower`: folds every character, keeping the length. */
  function ToLower(s: string): (r: string)
    ensures |r| == |s|
  {
    seq(|s|, i requires 0 <= i < |s| => LowerChar(s[i]))
  }

  lemma ToLowerIdempotent(s: string)
    ensures ToLower(ToLower(s)) == ToLower(s)
  {
  }
}
