/**
  The line-level rules the project follows when it rewrites the generated `.Designer.cs` file of
  a resource set: which lines are comments or class declarations, how braces are counted, which
  indentation a new property gets, and the closed-form results of adding and renaming a property.
  A file is the sequence of its lines.
 */
module DesignerFiles {
  import opened Wrappers
  import opened Text
  import opened Collections

  // ---------------------------------------------------------------------------------------------
  // Line classification

  /** `line.TrimStart().StartsWith("//")`. */
  predicate IsComment(line: string) {
    StartsWith(TrimStart(line), "//")
  }

  /** Trimming the end as well, as the property writer does, gives the same answer. */
  lemma TrimmedCommentTest(line: string)
    ensures StartsWith(Trim(line), "//") <==> IsComment(line)
  {
    var t := TrimStart(line);
    var slash := "//";
    assert !IsWhiteSpace(slash[1]);
    TrimEndKeepsPrefix(t, slash);
  }

  /** `TrimEnd` keeps a prefix that does not end in whitespace, and a prefix of its result is one of the input. */
  lemma TrimEndKeepsPrefix(t: string, p: string)
    requires |p| > 0 && !IsWhiteSpace(p[|p| - 1])
    ensures StartsWith(TrimEnd(t), p) <==> StartsWith(t, p)
  {
    var r := TrimEnd(t);
    if StartsWith(t, p) {
      assert t[|p| - 1] == p[|p| - 1];
      assert |r| >= |p|;
      assert r[..|p|] == t[..|p|];
    }
    if StartsWith(r, p) {
      assert t[..|p|] == r[..|p|];
    }
  }

  /** `Regex.IsMatch(line, @"(?:\sclass|class)\s")`: the word `class` followed by whitespace. */
  predicate ClassLine(line: string) {
    exists i: nat :: i + 5 < |line| && OccursAt(line, "class", i) && IsWhiteSpace(line[i + 5])
  }

  /**
    `Regex.IsMatch(line, @"\s*(?:public|internal) static string " + key)`; `\s*` may match nothing.
    The key is matched as literal text: a key holding regex metacharacters is not modelled.
   */
  predicate PropertyLine(line: string, key: string) {
    Contains(line, "public static string " + key) || Contains(line, "internal static string " + key)
  }

  /**
    `Regex.IsMatch(line, @"\s*return ResourceManager\.GetString\(""KEY"", resourceCulture\);")`,
    with the key matched as literal text.
   */
  predicate ReturnLine(line: string, key: string) {
    Contains(line, "return ResourceManager.GetString(\"" + key + "\", resourceCulture);")
  }

  /** The property pattern has nothing after the key, so it also matches a longer key that starts with it. */
  lemma PropertyLineMatchesLongerKey(indent: string, key: string, suffix: string)
    ensures PropertyLine(indent + "public static string " + key + suffix + " {", key)
  {
    var pat := "public static string " + key;
    var line := indent + "public static string " + key + suffix + " {";
    assert line == indent + pat + (suffix + " {");
    assert line[|indent|..|indent| + |pat|] == pat;
    assert OccursAt(line, pat, |indent|);
  }

  // ---------------------------------------------------------------------------------------------
  // State of the line scan

  /** Whether a class declaration has been seen among the first `k` lines (comments do not count). */
  predicate ClassReadAfter(lines: seq<string>, k: nat)
    requires k <= |lines|
  {
    k > 0 && (ClassReadAfter(lines, k - 1) || (!IsComment(lines[k - 1]) && ClassLine(lines[k - 1])))
  }

  lemma {:induction false} ClassReadMonotone(lines: seq<string>, j: nat, k: nat)
    requires j <= k <= |lines|
    ensures ClassReadAfter(lines, j) ==> ClassReadAfter(lines, k)
    decreases k - j
  {
    if j < k {
      ClassReadMonotone(lines, j, k - 1);
    }
  }

  /** How a line moves the brace counter: +1 for an opening brace, -1 for a closing one, once each. */
  function BraceDelta(line: string, classRead: bool): int {
    if IsComment(line) || !classRead then 0
    else (if '{' in line then 1 else 0) - (if '}' in line then 1 else 0)
  }

  /** The brace counter after the first `k` lines. */
  function BracesAfter(lines: seq<string>, k: nat): int
    requires k <= |lines|
  {
    if k == 0 then 0
    else BracesAfter(lines, k - 1) + BraceDelta(lines[k - 1], ClassReadAfter(lines, k))
  }

  /** A line moves the counter by at most one either way, and a comment line does not move it. */
  lemma BracesStep(lines: seq<string>, k: nat)
    requires k < |lines|
    ensures -1 <= BracesAfter(lines, k + 1) - BracesAfter(lines, k) <= 1
    ensures IsComment(lines[k]) || !ClassReadAfter(lines, k + 1) ==> BracesAfter(lines, k + 1) == BracesAfter(lines, k)
  {
  }

  /** Before the class declaration the counter stays at zero. */
  lemma {:induction false} NoBracesBeforeClass(lines: seq<string>, k: nat)
    requires k <= |lines| && !ClassReadAfter(lines, k)
    ensures BracesAfter(lines, k) == 0
  {
    if k > 0 {
      NoBracesBeforeClass(lines, k - 1);
    }
  }

  /** The leading whitespace of the last non-empty line among the first `k` lines, or "". */
  function IndentBefore(lines: seq<string>, k: nat): (r: string)
    requires k <= |lines|
    ensures forall c :: c in r ==> IsWhiteSpace(c)
  {
    if k == 0 then ""
    else if lines[k - 1] != "" then LeadingWhiteSpace(lines[k - 1])
    else IndentBefore(lines, k - 1)
  }

  /** Line `j` is the last non-empty line before `k`. */
  predicate LastNonEmpty(lines: seq<string>, k: nat, j: int)
    requires k <= |lines|
  {
    0 <= j < k && lines[j] != "" && forall j' :: j < j' < k ==> lines[j'] == ""
  }

  /** The indentation is that of the last non-empty line before `k`, or empty when there is none. */
  lemma {:induction false} IndentBeforeIsLastIndent(lines: seq<string>, k: nat)
    requires k <= |lines|
    ensures IndentBefore(lines, k) == "" || exists j :: LastNonEmpty(lines, k, j) && IndentBefore(lines, k) == LeadingWhiteSpace(lines[j])
  {
    if k > 0 && lines[k - 1] == "" {
      IndentBeforeIsLastIndent(lines, k - 1);
    }
  }

  /** The written file grows by one chunk per line read. */
  lemma WithPropertyStep(lines: seq<string>, k: nat, key: string, text: string)
    requires k < |lines|
    ensures WithProperty(lines, k + 1, key, text) == WithProperty(lines, k, key, text) + Chunk(lines, k, key, text)
  {
  }

  /** The indentation before line `k` from the one before line `k - 1` and line `k - 1` itself. */
  lemma IndentStep(lines: seq<string>, k: nat)
    requires 0 < k <= |lines|
    ensures IndentBefore(lines, k) == if lines[k - 1] != "" then LeadingWhiteSpace(lines[k - 1]) else IndentBefore(lines, k - 1)
  {
  }

  // ---------------------------------------------------------------------------------------------
  // Adding a property

  /** The generated property, each line prefixed with `indent`. */
  function PropertyBlock(indent: string, key: string, text: string): (r: seq<string>)
    ensures |r| == 8
    ensures forall i :: 0 <= i < 8 ==> StartsWith(r[i], indent)
    ensures r[1] == indent + "///     Looks up a localized string similar to " + text + "."
    ensures r[3] == indent + "public static string " + key + " {"
    ensures r[5] == indent + "        return ResourceManager.GetString(\"" + key + "\", resourceCulture);"
  {
    [ indent + "/// <summary>",
      indent + "///     Looks up a localized string similar to " + text + ".",
      indent + "/// </summary>",
      indent + "public static string " + key + " {",
      indent + "    get {",
      indent + "        return ResourceManager.GetString(\"" + key + "\", resourceCulture);",
      indent + "    }",
      indent + "}" ]
  }

  /** A property block goes right before line `k` when, after reading it, the class is open and the counter is 0. */
  predicate InsertsBefore(lines: seq<string>, k: nat)
    requires k < |lines|
  {
    ClassReadAfter(lines, k + 1) && BracesAfter(lines, k + 1) == 0
  }

  /**
    With the class brace on a line of its own, the counter is still 0 after the declaration line,
    so one block goes before the declaration and another before the brace that closes the class.
   */
  lemma OwnLineBraceGetsTwoBlocks()
    ensures var lines := ["class A", "{", "}"];
      InsertsBefore(lines, 0) && !InsertsBefore(lines, 1) && InsertsBefore(lines, 2)
  {
    var lines := ["class A", "{", "}"];
    assert OccursAt(lines[0], "class", 0) && IsWhiteSpace(lines[0][5]);
    assert ClassLine(lines[0]);
  }

  /** What is written for line `k`: possibly a property block, then the line itself. */
  function Chunk(lines: seq<string>, k: nat, key: string, text: string): seq<string>
    requires k < |lines|
  {
    (if InsertsBefore(lines, k) then PropertyBlock(IndentBefore(lines, k), key, text) else []) + [lines[k]]
  }

  /** The file written after the first `m` lines have been read. */
  function WithProperty(lines: seq<string>, m: nat, key: string, text: string): seq<string>
    requires m <= |lines|
  {
    if m == 0 then [] else WithProperty(lines, m - 1, key, text) + Chunk(lines, m - 1, key, text)
  }

  /** How many blocks are inserted among the first `m` lines. */
  function Insertions(lines: seq<string>, m: nat): nat
    requires m <= |lines|
  {
    if m == 0 then 0 else Insertions(lines, m - 1) + (if InsertsBefore(lines, m - 1) then 1 else 0)
  }

  /** Where line `k` lands in the written file. */
  function Position(lines: seq<string>, k: nat, key: string, text: string): nat
    requires k < |lines|
  {
    |WithProperty(lines, k, key, text)| + (if InsertsBefore(lines, k) then 8 else 0)
  }

  /** The output has one line per input line plus eight per inserted block. */
  lemma {:induction false} WithPropertyLength(lines: seq<string>, m: nat, key: string, text: string)
    requires m <= |lines|
    ensures |WithProperty(lines, m, key, text)| == m + 8 * Insertions(lines, m)
  {
    if m > 0 {
      WithPropertyLength(lines, m - 1, key, text);
    }
  }

  /** Reading more lines only appends to what has been written. */
  lemma {:induction false} WithPropertyGrows(lines: seq<string>, j: nat, m: nat, key: string, text: string)
    requires j <= m <= |lines|
    ensures WithProperty(lines, j, key, text) <= WithProperty(lines, m, key, text)
    decreases m - j
  {
    if j < m {
      WithPropertyGrows(lines, j, m - 1, key, text);
    }
  }

  /**
    Every input line is written exactly once and in order: line `k` sits at `Position(k)`,
    positions strictly increase, and what lies between two of them is a whole property block.
   */
  lemma WithPropertyKeepsLines(lines: seq<string>, key: string, text: string, k: nat)
    requires k < |lines|
    ensures Position(lines, k, key, text) < |WithProperty(lines, |lines|, key, text)|
    ensures WithProperty(lines, |lines|, key, text)[Position(lines, k, key, text)] == lines[k]
    ensures k + 1 < |lines| ==> Position(lines, k, key, text) < Position(lines, k + 1, key, text)
    ensures InsertsBefore(lines, k) ==>
      WithProperty(lines, |lines|, key, text)[Position(lines, k, key, text) - 8..Position(lines, k, key, text)]
        == PropertyBlock(IndentBefore(lines, k), key, text)
    ensures !InsertsBefore(lines, k) ==> Position(lines, k, key, text) == |WithProperty(lines, k, key, text)|
  {
    LineAtPosition(lines, key, text, k);
    if k + 1 < |lines| {
      ChunkAt(lines, key, text, k);
      ChunkAt(lines, key, text, k + 1);
    }
  }

  /** Line `k` and the block before it appear in the whole written file at `Position(k)`. */
  lemma LineAtPosition(lines: seq<string>, key: string, text: string, k: nat)
    requires k < |lines|
    ensures Position(lines, k, key, text) < |WithProperty(lines, |lines|, key, text)|
    ensures WithProperty(lines, |lines|, key, text)[Position(lines, k, key, text)] == lines[k]
    ensures InsertsBefore(lines, k) ==>
      WithProperty(lines, |lines|, key, text)[Position(lines, k, key, text) - 8..Position(lines, k, key, text)]
        == PropertyBlock(IndentBefore(lines, k), key, text)
  {
    var upto := WithProperty(lines, k + 1, key, text);
    var p := Position(lines, k, key, text);
    ChunkAt(lines, key, text, k);
    WithPropertyGrows(lines, k + 1, |lines|, key, text);
    PrefixSlice(upto, WithProperty(lines, |lines|, key, text), if InsertsBefore(lines, k) then p - 8 else p, p);
  }

  /** After line `k` is read, it ends the written file at `Position(k)`, right after its block. */
  lemma ChunkAt(lines: seq<string>, key: string, text: string, k: nat)
    requires k < |lines|
    ensures |WithProperty(lines, k + 1, key, text)| == Position(lines, k, key, text) + 1
    ensures WithProperty(lines, k + 1, key, text)[Position(lines, k, key, text)] == lines[k]
    ensures InsertsBefore(lines, k) ==>
      WithProperty(lines, k + 1, key, text)[Position(lines, k, key, text) - 8..Position(lines, k, key, text)]
        == PropertyBlock(IndentBefore(lines, k), key, text)
  {
    var w := WithProperty(lines, k, key, text);
    var block := if InsertsBefore(lines, k) then PropertyBlock(IndentBefore(lines, k), key, text) else [];
    WithPropertyStep(lines, k, key, text);
    assert Chunk(lines, k, key, text) == block + [lines[k]];
    AppendedAt(w, block, lines[k]);
  }

  /** No block is inserted before the class declaration has been read. */
  lemma NoInsertionBeforeClass(lines: seq<string>, k: nat)
    requires k < |lines| && !ClassReadAfter(lines, k + 1)
    ensures !InsertsBefore(lines, k)
  {
  }

  /** A file without a class declaration is written back unchanged. */
  lemma {:induction false} WithoutClassUnchanged(lines: seq<string>, m: nat, key: string, text: string)
    requires m <= |lines| && !ClassReadAfter(lines, |lines|)
    ensures WithProperty(lines, m, key, text) == lines[..m]
  {
    if m > 0 {
      ClassReadMonotone(lines, m, |lines|);
      WithoutClassUnchanged(lines, m - 1, key, text);
      NoInsertionBeforeClass(lines, m - 1);
      WithPropertyStep(lines, m - 1, key, text);
      PrefixGrows(lines, m - 1);
    }
  }

  // ---------------------------------------------------------------------------------------------
  // Renaming a property

  /** Whether line `k` is the property line looked for: inside the class and matching the pattern. */
  predicate IsPropertyMatch(lines: seq<string>, k: nat, key: string)
    requires k < |lines|
  {
    ClassReadAfter(lines, k + 1) && PropertyLine(lines[k], key)
  }

  /** The first matching property line, if any. */
  function FirstPropertyMatch(lines: seq<string>, key: string, from: nat): (r: Option<nat>)
    requires from <= |lines|
    ensures r.Some? ==> from <= r.value < |lines| && IsPropertyMatch(lines, r.value, key)
    ensures forall j :: from <= j < |lines| && (r.None? || j < r.value) ==> !IsPropertyMatch(lines, j, key)
    decreases |lines| - from
  {
    if from == |lines| then None
    else if IsPropertyMatch(lines, from, key) then Some(from)
    else FirstPropertyMatch(lines, key, from + 1)
  }

  /** The first line after which the class declaration has been read (|lines| if never). */
  function ClassStart(lines: seq<string>, from: nat): (r: nat)
    requires from <= |lines|
    ensures from <= r <= |lines|
    ensures r < |lines| ==> ClassReadAfter(lines, r + 1)
    decreases |lines| - from
  {
    if from == |lines| then |lines|
    else if ClassReadAfter(lines, from + 1) then from
    else ClassStart(lines, from + 1)
  }

  /** No class declaration has been read before the one `ClassStart` finds. */
  lemma {:induction false} ClassStartIsFirst(lines: seq<string>, from: nat, j: nat)
    requires from <= |lines| && from < j <= ClassStart(lines, from)
    ensures !ClassReadAfter(lines, j)
    decreases |lines| - from
  {
    if j > from + 1 {
      ClassStartIsFirst(lines, from + 1, j);
    }
  }

  function MinNat(a: nat, b: nat): nat {
    if a < b then a else b
  }

  /** Where the lines held back when the property line is found begin: at most five, all inside the class. */
  function QueueStart(lines: seq<string>, c: nat): (r: nat)
    requires c <= |lines|
    ensures r <= c && c - r <= 5
  {
    if ClassStart(lines, 0) + 5 < c then c - 5 else MinNat(ClassStart(lines, 0), c)
  }

  /** `String.Replace` throws for an empty old value: the rename fails when it reaches such a call. */
  predicate RenameThrows(lines: seq<string>, c: nat, oldKey: string, oldText: string)
    requires c < |lines|
  {
    oldKey == "" || (oldText == "" && HasComment(lines[QueueStart(lines, c)..c]))
  }

  /** Whether some line of `lines` is a comment. */
  predicate HasComment(lines: seq<string>)
  {
    |lines| > 0 && (IsComment(lines[0]) || HasComment(lines[1..]))
  }

  /**
    The renamed file. With no property line of the old key it is the input. Otherwise, with `c`
    the property line: the held-back lines before it get the old text replaced in their comments,
    line `c` gets the key replaced, the next four lines get it replaced in their return statements,
    and every other line is copied. `None` when a `Replace` throws.
   */
  function Renamed(lines: seq<string>, oldKey: string, newKey: string, oldText: string, newText: string): (r: Option<seq<string>>)
    ensures r.Some? ==> |r.value| == |lines|
    ensures FirstPropertyMatch(lines, oldKey, 0).None? ==> r == Some(lines)
    ensures r.None? <==> FirstPropertyMatch(lines, oldKey, 0).Some? && RenameThrows(lines, FirstPropertyMatch(lines, oldKey, 0).value, oldKey, oldText)
    ensures r.Some? && FirstPropertyMatch(lines, oldKey, 0).Some? ==>
      var c := FirstPropertyMatch(lines, oldKey, 0).value;
      forall j :: 0 <= j < |lines| && (j < QueueStart(lines, c) || c + 5 <= j) ==> r.value[j] == lines[j]
  {
    match FirstPropertyMatch(lines, oldKey, 0)
    case None => Some(lines)
    case Some(c) =>
      if RenameThrows(lines, c, oldKey, oldText) then None
      else Some(RenamedAt(lines, c, oldKey, newKey, oldText, newText))
  }

  /** What the rename writes once the property line has been found at `c`. */
  function RenamedAt(lines: seq<string>, c: nat, oldKey: string, newKey: string, oldText: string, newText: string): (r: seq<string>)
    requires c < |lines|
    ensures |r| == |lines|
  {
    var q := QueueStart(lines, c);
    seq(|lines|, j requires 0 <= j < |lines| =>
      if q <= j < c && IsComment(lines[j]) then ReplaceAll(lines[j], oldText, newText)
      else if j == c then ReplaceAll(lines[c], oldKey, newKey)
      else if c < j < c + 5 && ReturnLine(lines[j], oldKey) then ReplaceAll(lines[j], oldKey, newKey)
      else lines[j])
  }

  /** The property line of the renamed file has the old key replaced. */
  lemma RenamedAtPropertyLine(lines: seq<string>, c: nat, oldKey: string, newKey: string, oldText: string, newText: string)
    requires c < |lines|
    ensures RenamedAt(lines, c, oldKey, newKey, oldText, newText)[c] == ReplaceAll(lines[c], oldKey, newKey)
  {
  }

  /** The four lines after the property line have the key replaced in return statements. */
  lemma RenamedAtReturnLine(lines: seq<string>, c: nat, oldKey: string, newKey: string, oldText: string, newText: string, j: nat)
    requires c < j < |lines| && j < c + 5
    ensures RenamedAt(lines, c, oldKey, newKey, oldText, newText)[j]
      == if ReturnLine(lines[j], oldKey) then ReplaceAll(lines[j], oldKey, newKey) else lines[j]
  {
  }

  /** The lines further on are copied. */
  lemma RenamedAtLaterLine(lines: seq<string>, c: nat, oldKey: string, newKey: string, oldText: string, newText: string, j: nat)
    requires c + 5 <= j < |lines|
    ensures RenamedAt(lines, c, oldKey, newKey, oldText, newText)[j] == lines[j]
  {
  }

  /** The lines before the held-back ones are copied. */
  lemma RenamedAtKeepsStart(lines: seq<string>, c: nat, oldKey: string, newKey: string, oldText: string, newText: string)
    requires c < |lines|
    ensures RenamedAt(lines, c, oldKey, newKey, oldText, newText)[..QueueStart(lines, c)] == lines[..QueueStart(lines, c)]
  {
  }

  /** A held-back line gets the old text replaced when it is a comment. */
  lemma RenamedAtHeldLine(lines: seq<string>, c: nat, oldKey: string, newKey: string, oldText: string, newText: string, j: nat)
    requires c < |lines| && QueueStart(lines, c) <= j < c
    ensures RenamedAt(lines, c, oldKey, newKey, oldText, newText)[j]
      == if IsComment(lines[j]) then ReplaceAll(lines[j], oldText, newText) else lines[j]
  {
  }

  /** A key that does not occur in the property line leaves that line as it is. */
  lemma RenameKeepsLinesWithoutKey(lines: seq<string>, c: nat, oldKey: string, newKey: string, oldText: string, newText: string, j: nat)
    requires c < |lines| && j < |lines| && !Contains(lines[j], oldKey) && !Contains(lines[j], oldText)
    ensures RenamedAt(lines, c, oldKey, newKey, oldText, newText)[j] == lines[j]
  {
    ReplaceAllAbsent(lines[j], oldKey, newKey);
    ReplaceAllAbsent(lines[j], oldText, newText);
  }
}
