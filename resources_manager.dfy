/**
  The first version of the extension: a manager bound to one project that keeps a Polish (default)
  and an English `.resx` dictionary side by side, with the generated `.Designer.cs` file next to
  them. It derives the English and designer paths from the Polish one, checks that both
  dictionaries hold the same keys, joins them into Polish/English translations, orders them by
  closeness to a query, and rewrites the designer file with a three-line look-ahead window.

  Each dictionary is the sequence of its `data` nodes (name attribute and `value` text) in file
  order, or `None` when it cannot be loaded. The designer file is the sequence of its lines; a
  line read past the end of the file is `None` (`ReadLine` returning null). Message boxes and file
  dialogs are parameters.
 */
module ResourcesManager {
  import opened Wrappers
  import opened Text
  import opened Collections
  import opened Sorting
  import ResourceFiles

  // ---------------------------------------------------------------------------------------------
  // Values

  /** A `data` node of a dictionary: its `name` attribute and the text of its `value` child. */
  datatype DataEntry = DataEntry(name: string, value: string)

  /** A translation of the manager: the key with its Polish and English texts. */
  datatype Translation = Translation(name: string, polishText: string, englishText: string)

  const CommentPattern := "Looks up a localized string similar to "
  const DesignerSuffix := ".Designer.cs"

  /** `string.Format("public static string {0} ", name)`. */
  function DeclarationPattern(name: string): string {
    "public static string " + name + " "
  }

  // ---------------------------------------------------------------------------------------------
  // Namespace line

  /**
    `GetNamespace`: a line whose trimmed form starts with `namespace` yields the line with every
    `namespace` and every `{` removed, trimmed; any other line yields "" and "not found".
   */
  function GetNamespace(text: string): (r: (string, bool))
    ensures r.1 <==> StartsWith(Trim(text), "namespace")
    ensures !r.1 ==> r.0 == ""
    ensures r.1 ==> '{' !in r.0
    ensures r.1 && |r.0| > 0 ==> !IsWhiteSpace(r.0[0]) && !IsWhiteSpace(r.0[|r.0| - 1])
  {
    if !StartsWith(Trim(text), "namespace") then ("", false)
    else
      var stripped := ReplaceAll(ReplaceAll(text, "namespace", ""), "{", "");
      RemoveCharRemovesAll(ReplaceAll(text, "namespace", ""), '{');
      (Trim(stripped), true)
  }

  /**
    What a sequence of `GetNamespace` results leaves in the `Namespace` property when the calls
    stop at the first result that found a namespace: each call overwrites the property.
   */
  function Scan(results: seq<(string, bool)>, ns: string): (string, bool) {
    if |results| == 0 then (ns, false)
    else
      var before := Scan(results[..|results| - 1], ns);
      if before.1 then before else results[|results| - 1]
  }

  /** The `GetNamespace` results of the lines, in order. */
  function NamespaceResults(ls: seq<string>): (r: seq<(string, bool)>)
    ensures |r| == |ls| && forall i :: 0 <= i < |ls| ==> r[i] == GetNamespace(ls[i])
  {
    seq(|ls|, i requires 0 <= i < |ls| => GetNamespace(ls[i]))
  }

  /** The `Namespace` property after `GetNamespace` has been called on the lines `ls` in order. */
  function ScanNamespace(ls: seq<string>, ns: string): (string, bool) {
    if |ls| == 0 then (ns, false)
    else
      var before := ScanNamespace(ls[..|ls| - 1], ns);
      if before.1 then before else GetNamespace(ls[|ls| - 1])
  }

  /** Scanning the lines is scanning their `GetNamespace` results, so `ScanFindsFirst` applies to it. */
  lemma {:induction false} ScanNamespaceIsScan(ls: seq<string>, ns: string)
    ensures ScanNamespace(ls, ns) == Scan(NamespaceResults(ls), ns)
    decreases |ls|
  {
    if |ls| > 0 {
      ScanNamespaceIsScan(ls[..|ls| - 1], ns);
      assert NamespaceResults(ls)[..|ls| - 1] == NamespaceResults(ls[..|ls| - 1]);
    }
  }

  /**
    The scan finds a namespace exactly when some result found one, and then holds the namespace
    of the first such result; a scan that finds nothing leaves "" behind (the value every result
    that found nothing carries), unless it made no call.
   */
  lemma {:induction false} ScanFindsFirst(results: seq<(string, bool)>, ns: string)
    requires forall i :: 0 <= i < |results| && !results[i].1 ==> results[i].0 == ""
    ensures Scan(results, ns).1 <==> exists i :: 0 <= i < |results| && results[i].1
    ensures Scan(results, ns).1 ==>
      exists i :: 0 <= i < |results| && results[i] == Scan(results, ns) &&
        forall j :: 0 <= j < i ==> !results[j].1
    ensures |results| == 0 ==> Scan(results, ns).0 == ns
    ensures |results| > 0 && !Scan(results, ns).1 ==> Scan(results, ns).0 == ""
    decreases |results|
  {
    if |results| > 0 {
      var init := results[..|results| - 1];
      assert forall i :: 0 <= i < |init| ==> init[i] == results[i];
      ScanFindsFirst(init, ns);
      if Scan(init, ns).1 {
        var i :| 0 <= i < |init| && init[i] == Scan(init, ns) && forall j :: 0 <= j < i ==> !init[j].1;
        assert results[i] == Scan(results, ns);
      } else if !results[|results| - 1].1 {
        forall i | 0 <= i < |results| ensures !results[i].1 {
          if i < |init| {
            assert results[i] == init[i];
          }
        }
      }
    }
  }

  /** One more line read: the property changes only while no namespace has been found. */
  lemma ScanNamespaceStep(ls: seq<string>, line: string, ns: string)
    ensures ScanNamespace(ls + [line], ns) ==
      (if ScanNamespace(ls, ns).1 then ScanNamespace(ls, ns) else GetNamespace(line))
  {
    assert (ls + [line])[..|ls|] == ls;
  }

  // ---------------------------------------------------------------------------------------------
  // Paths

  /** Where the file name starts: after the last `\`, or at 0. */
  function NameStart(path: string): nat {
    LastIndexOf(path, '\\') + 1
  }

  /** The last `.` of a string lies in its file name exactly when the file name has a `.`. */
  lemma {:induction false} LastDotInName(p: string, d: nat)
    requires d <= |p| && '.' in p[d..]
    ensures LastIndexOf(p, '.') == d + LastIndexOf(p[d..], '.')
  {
    var r := LastIndexOf(p[d..], '.');
    var l := LastIndexOf(p, '.');
    assert p[d + r] == '.';
    assert l != -1;
  }

  /** What the English dictionary's name has before the extension of the Polish one's. */
  const EnglishInfix := ".en"

  /**
    The English dictionary expected next to the Polish one: ".en" inserted before the last `.` of
    the file name. A file name without `.` makes `Insert` throw, which is `None`.
   */
  function EnglishPath(polishPath: string): (r: Option<string>)
    ensures r.Some? <==> '.' in polishPath[NameStart(polishPath)..]
    ensures r.Some? ==>
      var k := LastIndexOf(polishPath, '.');
      NameStart(polishPath) <= k && r.value == polishPath[..k] + EnglishInfix + polishPath[k..]
  {
    var d := NameStart(polishPath);
    var name := polishPath[d..];
    var dot := LastIndexOf(name, '.');
    if dot == -1 then None
    else
      LastDotInName(polishPath, d);
      SliceOfRest(polishPath, d, dot);
      ConcatRegroup(polishPath[..d], name[..dot], EnglishInfix, name[dot..]);
      Some(polishPath[..d] + (name[..dot] + EnglishInfix + name[dot..]))
  }

  /**
    The designer file expected next to the Polish dictionary: the last extension of the file name
    replaced by ".Designer.cs". A file name without `.` makes `Substring` throw, which is `None`.
   */
  function DesignerPath(polishPath: string): (r: Option<string>)
    ensures r.Some? <==> '.' in polishPath[NameStart(polishPath)..]
    ensures r.Some? ==>
      var k := LastIndexOf(polishPath, '.');
      NameStart(polishPath) <= k && r.value == polishPath[..k] + DesignerSuffix
  {
    var d := NameStart(polishPath);
    var name := polishPath[d..];
    var dot := LastIndexOf(name, '.');
    if dot == -1 then None
    else
      LastDotInName(polishPath, d);
      SliceOfRest(polishPath, d, dot);
      ConcatAssociative(polishPath[..d], name[..dot], DesignerSuffix);
      Some(polishPath[..d] + (name[..dot] + DesignerSuffix))
  }

  /** `DesignerFileName`: the file name of the designer path with every ".Designer.cs" removed. */
  function DesignerFileName(designerPath: string): string {
    ReplaceAll(designerPath[NameStart(designerPath)..], DesignerSuffix, "")
  }

  /** Removing a pattern whose first occurrence is the suffix leaves what precedes it. */
  lemma {:induction false} ReplaceTrailingPattern(x: string, pat: string)
    requires |pat| > 0
    requires forall j: nat :: j < |x| ==> !OccursAt(x + pat, pat, j)
    ensures ReplaceAll(x + pat, pat, "") == x
    decreases |x|
  {
    if |x| == 0 {
      assert x + pat == pat;
      assert ReplaceAll(pat[|pat|..], pat, "") == "";
    } else {
      assert !OccursAt(x + pat, pat, 0);
      ConcatFirst(x, pat);
      forall j: nat | j < |x[1..]| ensures !OccursAt(x[1..] + pat, pat, j) {
        assert !OccursAt(x + pat, pat, j + 1);
        OccursAtTail(x + pat, pat, j);
      }
      ReplaceTrailingPattern(x[1..], pat);
      SplitFirst(x);
    }
  }

  /**
    The designer file derived from a dictionary `dir\base.ext` gives back `base` as its designer
    file name, provided ".Designer.cs" does not start inside `base`.
   */
  lemma DesignerFileNameOfDerivedPath(polishPath: string)
    requires DesignerPath(polishPath).Some?
    requires var d, k := NameStart(polishPath), LastIndexOf(polishPath, '.');
      forall j: nat :: j < k - d ==> !OccursAt(polishPath[d..k] + DesignerSuffix, DesignerSuffix, j)
    ensures DesignerFileName(DesignerPath(polishPath).value) ==
      polishPath[NameStart(polishPath)..LastIndexOf(polishPath, '.')]
  {
    var d, k := NameStart(polishPath), LastIndexOf(polishPath, '.');
    DesignerPathNameStart(polishPath);
    var base := polishPath[d..k];
    ReplaceTrailingPattern(base, DesignerSuffix);
  }

  /** The derived designer path has its file name where the dictionary's starts. */
  lemma DesignerPathNameStart(polishPath: string)
    requires DesignerPath(polishPath).Some?
    ensures var d, k := NameStart(polishPath), LastIndexOf(polishPath, '.');
      d <= k && NameStart(DesignerPath(polishPath).value) == d &&
      DesignerPath(polishPath).value[d..] == polishPath[d..k] + DesignerSuffix
  {
    var k := LastIndexOf(polishPath, '.');
    NoBackslashInDesignerSuffix();
    SuffixedNameStart(polishPath, k, DesignerSuffix);
  }

  lemma NoBackslashInDesignerSuffix()
    ensures '\\' !in DesignerSuffix
  {
  }

  /** Cutting a path inside its file name and appending a suffix without `\` keeps the name start. */
  lemma SuffixedNameStart(p: string, k: nat, suffix: string)
    requires NameStart(p) <= k <= |p| && '\\' !in suffix
    ensures NameStart(p[..k] + suffix) == NameStart(p)
    ensures (p[..k] + suffix)[NameStart(p)..] == p[NameStart(p)..k] + suffix
  {
    var d := NameStart(p);
    var tail := p[d..k] + suffix;
    assert p[..k] + suffix == p[..d] + tail by {
      assert p[..k] == p[..d] + p[d..k];
    }
    assert '\\' !in tail by {
      assert '\\' !in p[d..];
      assert forall c :: c in p[d..k] ==> c in p[d..];
    }
    assert |p[..d]| == 0 || p[..d][d - 1] == '\\';
    NameStartAfterDirectory(p[..d], tail);
  }

  /** After a directory part ending in `\` (or empty), a name without `\` starts where the directory ends. */
  lemma NameStartAfterDirectory(directory: string, name: string)
    requires |directory| == 0 || directory[|directory| - 1] == '\\'
    requires '\\' !in name
    ensures NameStart(directory + name) == |directory|
    ensures (directory + name)[|directory|..] == name
  {
    var path := directory + name;
    assert path[|directory|..] == name;
    assert path[..|directory|] == directory;
    LastIndexOfPrefix(path, |directory|, '\\');
    if |directory| > 0 {
      assert LastIndexOf(directory, '\\') == |directory| - 1;
    }
  }

  /** Past the last `c` of a prefix, a suffix without `c` does not move the last `c`. */
  lemma {:induction false} LastIndexOfPrefix(s: string, k: nat, c: char)
    requires k <= |s| && c !in s[k..]
    ensures LastIndexOf(s, c) == LastIndexOf(s[..k], c)
    decreases |s|
  {
    if k < |s| {
      assert s[|s| - 1] == s[k..][|s| - 1 - k];
      assert s[..|s| - 1][k..] == s[k..][..|s| - 1 - k];
      LastIndexOfPrefix(s[..|s| - 1], k, c);
      assert s[..|s| - 1][..k] == s[..k];
    } else {
      assert s[..k] == s;
    }
  }

  // ---------------------------------------------------------------------------------------------
  // Key consistency of the two dictionaries

  /** The `name` attributes of the data nodes, in file order. */
  function Names(entries: seq<DataEntry>): (r: seq<string>)
    ensures |r| == |entries| && forall i :: 0 <= i < |r| ==> r[i] == entries[i].name
  {
    seq(|entries|, i requires 0 <= i < |entries| => entries[i].name)
  }

  function KeySet(keys: seq<string>): set<string> {
    set k | k in keys
  }

  /**
    The check made before every operation: the counts agree, the Polish keys are distinct, and no
    Polish key is missing from the English ones (`Except(...).Count() == 0`).
   */
  predicate KeysAgree(polishKeys: seq<string>, englishKeys: seq<string>) {
    |polishKeys| == |englishKeys|
    && |polishKeys| == |KeySet(polishKeys)|
    && |KeySet(polishKeys) - KeySet(englishKeys)| == 0
  }

  /** A list has as many distinct keys as entries exactly when no key repeats; never more. */
  lemma DistinctCount(keys: seq<string>)
    ensures |KeySet(keys)| <= |keys|
    ensures |KeySet(keys)| == |keys| <==> Distinct(keys)
  {
    ResourceFiles.DuplicateKeysCount(keys);
    ResourceFiles.DuplicateKeysEmptyIffDistinct(keys);
  }

  /**
    The check passes exactly when both dictionaries list each key once and hold the same keys,
    although it only tests the Polish list for duplicates.
   */
  lemma KeysAgreeIffSameDistinctKeys(polishKeys: seq<string>, englishKeys: seq<string>)
    ensures KeysAgree(polishKeys, englishKeys) <==>
      Distinct(polishKeys) && Distinct(englishKeys) && KeySet(polishKeys) == KeySet(englishKeys)
  {
    DistinctCount(polishKeys);
    DistinctCount(englishKeys);
    var p, e := KeySet(polishKeys), KeySet(englishKeys);
    if KeysAgree(polishKeys, englishKeys) {
      assert p <= e by {
        forall k | k in p ensures k in e {
          assert k !in p - e;
        }
      }
      assert e == p + (e - p);
      assert |e| == |p| + |e - p|;
      assert e - p == {};
    }
  }

  // ---------------------------------------------------------------------------------------------
  // Joining the dictionaries

  /** The first node named `name`. */
  function FirstNamed(entries: seq<DataEntry>, name: string): (r: Option<nat>)
    ensures r.Some? ==> r.value < |entries| && entries[r.value].name == name
    ensures forall j :: 0 <= j < |entries| && (r.None? || j < r.value) ==> entries[j].name != name
  {
    if |entries| == 0 then None
    else if entries[0].name == name then Some(0)
    else
      match FirstNamed(entries[1..], name)
      case None => None
      case Some(j) => Some(j + 1)
  }

  /** The English text of a key: the value of the first English node of that name, or "". */
  function EnglishTextFor(english: seq<DataEntry>, name: string): string {
    match FirstNamed(english, name)
    case None => ""
    case Some(j) => english[j].value
  }

  /** `GetTranslations`: one translation per Polish node. */
  function Joined(polish: seq<DataEntry>, english: seq<DataEntry>): seq<Translation> {
    seq(|polish|, i requires 0 <= i < |polish| => Translation(polish[i].name, polish[i].value, EnglishTextFor(english, polish[i].name)))
  }

  /**
    The joined list follows the Polish file, duplicates included; the English text comes from the
    first English node with the same name and is "" when there is none.
   */
  lemma JoinedEntry(polish: seq<DataEntry>, english: seq<DataEntry>, i: nat)
    requires i < |polish|
    ensures |Joined(polish, english)| == |polish|
    ensures Joined(polish, english)[i].name == polish[i].name
    ensures Joined(polish, english)[i].polishText == polish[i].value
    ensures (forall j :: 0 <= j < |english| ==> english[j].name != polish[i].name) ==>
      Joined(polish, english)[i].englishText == ""
    ensures forall j :: (0 <= j < |english| && english[j].name == polish[i].name &&
      (forall l :: 0 <= l < j ==> english[l].name != polish[i].name)) ==>
        Joined(polish, english)[i].englishText == english[j].value
  {
    var name := polish[i].name;
    match FirstNamed(english, name)
    case None =>
    case Some(f) =>
      forall j | 0 <= j < |english| && english[j].name == name &&
        (forall l :: 0 <= l < j ==> english[l].name != name)
        ensures english[f].value == english[j].value
      {
        assert j == f;
      }
  }

  // ---------------------------------------------------------------------------------------------
  // Ordering by a query

  /** The sort key: the distance from the query to the Polish text. */
  function ByDistanceFrom(query: string, distance: (string, string) -> real): Translation -> real {
    (t: Translation) => distance(query, t.polishText)
  }

  /**
    The order of `GetAllSimilairTranslations`: file order for a null or empty query, otherwise the
    stable ascending order of the distance from the query to the Polish text (`OrderBy`).
   */
  function SimilarOrder(textToFind: Option<string>, translations: seq<Translation>, distance: (string, string) -> real): (r: seq<Translation>)
    ensures IsNullOrEmpty(textToFind) ==> r == translations
    ensures multiset(r) == multiset(translations)
    ensures !IsNullOrEmpty(textToFind) ==> SortedBy(r, ByDistanceFrom(textToFind.value, distance))
    ensures !IsNullOrEmpty(textToFind) ==> forall k ::
      WithKey(r, ByDistanceFrom(textToFind.value, distance), k) == WithKey(translations, ByDistanceFrom(textToFind.value, distance), k)
  {
    if IsNullOrEmpty(textToFind) then translations
    else
      var key := ByDistanceFrom(textToFind.value, distance);
      forall k ensures WithKey(StableSort(translations, key), key, k) == WithKey(translations, key, k) {
        StableSortIsStable(translations, key, k);
      }
      StableSort(translations, key)
  }

  // ---------------------------------------------------------------------------------------------
  // Designer file: adding a property

  /** The ten lines written after the copied part: the property, then the class and namespace closed. */
  function LegacyPropertyBlock(name: string, text: string): seq<string> {
    [ "\t\t/// <summary>",
      "\t\t/// \t" + CommentPattern + text,
      "\t\t/// </summary>",
      "\t\t" + DeclarationPattern(name) + "{",
      "\t\t\tget {",
      "\t\t\t\treturn ResourceManager.GetString(\"" + name + "\", resourceCulture);",
      "\t\t\t}",
      "\t\t}",
      "\t}",
      "}" ]
  }

  /** `ReadLine`: the line at `pos`, or null past the end. */
  function ReadAt(lines: seq<string>, pos: nat): Option<string> {
    if pos < |lines| then Some(lines[pos]) else None
  }

  /** `WriteLine(line)`: a null line is written as an empty one. */
  function Written(line: Option<string>): string {
    if line.None? then "" else line.value
  }

  /** The lines `AddTranslationInDesigner` copies: all but the last two, and at least the first. */
  function AddKeptLines(lines: seq<string>): seq<string> {
    if |lines| >= 3 then lines[..|lines| - 2] else [Written(ReadAt(lines, 0))]
  }

  /** The lines whose namespace `AddTranslationInDesigner` looks at: the lines before the last three. */
  function AddScannedLines(lines: seq<string>): seq<string> {
    if |lines| >= 3 then lines[..|lines| - 3] else []
  }

  /**
    The new file drops the input's last two lines (the closing braces of the class and of the
    namespace), then adds the property and closes both again, so it keeps the input's other lines
    in place, declares the new key, and ends with the two closing braces.
   */
  lemma AddedDesignerShape(lines: seq<string>, name: string, text: string)
    requires |lines| >= 3
    ensures var r := AddKeptLines(lines) + LegacyPropertyBlock(name, text);
      |r| == |lines| + 8 &&
      r[..|lines| - 2] == lines[..|lines| - 2] &&
      OccursAt(r[|lines| + 1], DeclarationPattern(name), 2) &&
      r[|r| - 2..] == ["\t}", "}"]
  {
    var r := AddKeptLines(lines) + LegacyPropertyBlock(name, text);
    assert r[|lines| + 1] == "\t\t" + DeclarationPattern(name) + "{";
    assert r[|lines| + 1][2..2 + |DeclarationPattern(name)|] == DeclarationPattern(name);
  }

  // ---------------------------------------------------------------------------------------------
  // Designer file: renaming a property

  /** The first line at or after `from` that contains `pattern`. */
  function FirstContaining(lines: seq<string>, pattern: string, from: nat): (r: Option<nat>)
    decreases |lines| - from
    ensures r.Some? ==> from <= r.value < |lines| && Contains(lines[r.value], pattern)
    ensures forall j :: from <= j < |lines| && (r.None? || j < r.value) ==> !Contains(lines[j], pattern)
  {
    if from >= |lines| then None
    else if Contains(lines[from], pattern) then Some(from)
    else FirstContaining(lines, pattern, from + 1)
  }

  /** The key searched for: the old key when renaming, otherwise the key itself. */
  function SearchKey(name: string, oldName: Option<string>): string {
    if oldName.Some? then oldName.value else name
  }

  /**
    The five lines written for a declaration found at line `m`: the comment line two above cut
    after the comment pattern with the new text appended, the line between copied, the key renamed
    on the declaration line, the next line copied, and the key renamed on the line after it.
    `None` when one of these steps throws: the comment cut is past the line's end (`Substring`),
    the key is empty (`Replace`), or the file ends before the second line after the declaration
    (`ReadLine` gives null).
   */
  function RewrittenWindow(lines: seq<string>, m: nat, search: string, name: string, text: string): (r: Option<seq<string>>)
    requires 3 <= m < |lines|
    ensures r.Some? ==> |r.value| == 5 && m + 2 < |lines|
    ensures r.Some? ==> r.value[1] == lines[m - 1] && r.value[3] == lines[m + 1]
  {
    var cut := IndexOf(lines[m - 2], CommentPattern) + |CommentPattern|;
    if cut > |lines[m - 2]| || search == "" || m + 2 >= |lines| then None
    else Some([ lines[m - 2][..cut] + text,
                lines[m - 1],
                ReplaceAll(lines[m], search, name),
                lines[m + 1],
                ReplaceAll(lines[m + 2], search, name) ])
  }

  /**
    The file `UpdateTranslationInDesigner` writes, or `None` when it throws. Only lines from index
    3 on are tested for the declaration. Without a declaration the look-ahead window is never
    written out, so the last two lines are lost.
   */
  function UpdatedDesigner(lines: seq<string>, name: string, text: string, oldName: Option<string>): Option<seq<string>> {
    var search := SearchKey(name, oldName);
    match FirstContaining(lines, DeclarationPattern(search), 3)
    case None => Some(AddKeptLines(lines))
    case Some(m) =>
      match RewrittenWindow(lines, m, search, name, text)
      case None => None
      case Some(w) => Some(lines[..m - 2] + w + lines[m + 3..])
  }

  /** The lines whose namespace `UpdateTranslationInDesigner` looks at: from the second up to the window. */
  function UpdateScannedLines(lines: seq<string>, pattern: string): seq<string> {
    if |lines| < 3 then []
    else
      match FirstContaining(lines, pattern, 3)
      case None => lines[1..|lines| - 2]
      case Some(m) => lines[1..m - 1]
  }

  /** A successful rename keeps the number of lines. */
  lemma UpdateKeepsLineCount(lines: seq<string>, name: string, text: string, oldName: Option<string>)
    requires FirstContaining(lines, DeclarationPattern(SearchKey(name, oldName)), 3).Some?
    requires UpdatedDesigner(lines, name, text, oldName).Some?
    ensures |UpdatedDesigner(lines, name, text, oldName).value| == |lines|
  {
  }

  /** Without a declaration of the key the output is the input minus its last two lines. */
  lemma UpdateWithoutDeclarationDropsLastTwo(lines: seq<string>, name: string, text: string, oldName: Option<string>)
    requires |lines| >= 3
    requires forall j :: 0 <= j < |lines| ==> !Contains(lines[j], DeclarationPattern(SearchKey(name, oldName)))
    ensures UpdatedDesigner(lines, name, text, oldName) == Some(lines[..|lines| - 2])
  {
  }

  /**
    A successful rename at line `m` changes only lines `m - 2`, `m` and `m + 2`: the comment keeps
    its text up to the comment pattern and ends with the new text, and the two other lines have
    the key replaced.
   */
  lemma UpdateChangesOnlyWindow(lines: seq<string>, name: string, text: string, oldName: Option<string>, m: nat)
    requires FirstContaining(lines, DeclarationPattern(SearchKey(name, oldName)), 3) == Some(m)
    requires UpdatedDesigner(lines, name, text, oldName).Some?
    ensures var r, search := UpdatedDesigner(lines, name, text, oldName).value, SearchKey(name, oldName);
      var cut := IndexOf(lines[m - 2], CommentPattern) + |CommentPattern|;
      (forall i :: 0 <= i < |lines| && i != m - 2 && i != m && i != m + 2 ==> r[i] == lines[i]) &&
      0 <= cut <= |lines[m - 2]| &&
      r[m - 2] == lines[m - 2][..cut] + text &&
      r[m] == ReplaceAll(lines[m], search, name) &&
      r[m + 2] == ReplaceAll(lines[m + 2], search, name)
  {
    var search := SearchKey(name, oldName);
    var w := RewrittenWindow(lines, m, search, name, text).value;
    var r := lines[..m - 2] + w + lines[m + 3..];
    assert UpdatedDesigner(lines, name, text, oldName).value == r;
    forall i | 0 <= i < |lines| && i != m - 2 && i != m && i != m + 2 ensures r[i] == lines[i] {
      if i < m - 2 {
      } else if i < m + 3 {
        assert r[i] == w[i - (m - 2)];
      } else {
        assert r[i] == lines[m + 3..][i - (m + 3)];
      }
    }
    var cut := IndexOf(lines[m - 2], CommentPattern) + |CommentPattern|;
    assert r[m - 2] == lines[m - 2][..cut] + text;
  }

  // ---------------------------------------------------------------------------------------------
  // The manager

  /** How the look-up of an expected file ended. */
  datatype PathOutcome =
    | Derived          // the expected file exists and its path was stored
    | Chosen           // the user picked a file in the dialog
    | NotChosen        // the dialog was cancelled
    | Threw            // the Polish file name has no extension

  class TranslationResourcesManager {
    var defaultResPath: Option<string>
    var englishResPath: Option<string>
    var designerPath: Option<string>
    /** The `Namespace` property, read from the designer file while it is rewritten. */
    var namespace: string
    var userAcceptedDifferences: bool

    /** A manager whose Polish dictionary path was read from the project file (or not found). */
    constructor(defaultResPath: Option<string>)
      ensures this.defaultResPath == defaultResPath
      ensures englishResPath.None? && designerPath.None? && namespace == "" && !userAcceptedDifferences
    {
      this.defaultResPath := defaultResPath;
      englishResPath := None;
      designerPath := None;
      namespace := "";
      userAcceptedDifferences := false;
    }

    /**
      `ValidateEnglishResource`: the English dictionary is the derived path when that file exists,
      otherwise the file the user picks; cancelling the dialog fails.
     */
    method ValidateEnglishResource(fileExists: string -> bool, chosen: Option<string>) returns (outcome: PathOutcome)
      requires defaultResPath.Some?
      modifies this
      ensures var expected := EnglishPath(old(defaultResPath).value);
        outcome == (if expected.None? then Threw
                    else if fileExists(expected.value) then Derived
                    else if chosen.Some? then Chosen
                    else NotChosen)
      ensures outcome == Derived ==> englishResPath == EnglishPath(old(defaultResPath).value)
      ensures outcome == Chosen ==> englishResPath == chosen
      ensures outcome == NotChosen || outcome == Threw ==> englishResPath == old(englishResPath)
      ensures defaultResPath == old(defaultResPath) && designerPath == old(designerPath)
      ensures namespace == old(namespace) && userAcceptedDifferences == old(userAcceptedDifferences)
    {
      var expected := EnglishPath(defaultResPath.value);
      if expected.None? {
        return Threw;
      }
      if fileExists(expected.value) {
        englishResPath := expected;
        return Derived;
      }
      if chosen.None? {
        return NotChosen;
      }
      englishResPath := chosen;
      return Chosen;
    }

    /**
      `ValidateDesignerFile` as written: the derived designer path is stored when the file exists,
      but a file the user picks in the dialog is stored as the English dictionary, and the
      designer path stays as it was.
     */
    method ValidateDesignerFileAsWritten(fileExists: string -> bool, chosen: Option<string>) returns (outcome: PathOutcome)
      requires defaultResPath.Some?
      modifies this
      ensures var expected := DesignerPath(old(defaultResPath).value);
        outcome == (if expected.None? then Threw
                    else if fileExists(expected.value) then Derived
                    else if chosen.Some? then Chosen
                    else NotChosen)
      ensures outcome == Derived ==> designerPath == DesignerPath(old(defaultResPath).value) && englishResPath == old(englishResPath)
      ensures outcome == Chosen ==> englishResPath == chosen && designerPath == old(designerPath)
      ensures outcome == NotChosen || outcome == Threw ==> designerPath == old(designerPath) && englishResPath == old(englishResPath)
      ensures defaultResPath == old(defaultResPath)
      ensures namespace == old(namespace) && userAcceptedDifferences == old(userAcceptedDifferences)
    {
      var expected := DesignerPath(defaultResPath.value);
      if expected.None? {
        return Threw;
      }
      if fileExists(expected.value) {
        designerPath := expected;
        return Derived;
      }
      if chosen.None? {
        return NotChosen;
      }
      englishResPath := chosen;
      return Chosen;
    }

    /** `ValidateDesignerFile` corrected: the picked file becomes the designer path. */
    method ValidateDesignerFile(fileExists: string -> bool, chosen: Option<string>) returns (outcome: PathOutcome)
      requires defaultResPath.Some?
      modifies this
      ensures var expected := DesignerPath(old(defaultResPath).value);
        outcome == (if expected.None? then Threw
                    else if fileExists(expected.value) then Derived
                    else if chosen.Some? then Chosen
                    else NotChosen)
      ensures outcome == Derived ==> designerPath == DesignerPath(old(defaultResPath).value)
      ensures outcome == Chosen ==> designerPath == chosen
      ensures outcome == Derived || outcome == Chosen ==> designerPath.Some?
      ensures outcome == NotChosen || outcome == Threw ==> designerPath == old(designerPath)
      ensures defaultResPath == old(defaultResPath) && englishResPath == old(englishResPath)
      ensures namespace == old(namespace) && userAcceptedDifferences == old(userAcceptedDifferences)
    {
      var expected := DesignerPath(defaultResPath.value);
      if expected.None? {
        return Threw;
      }
      if fileExists(expected.value) {
        designerPath := expected;
        return Derived;
      }
      if chosen.None? {
        return NotChosen;
      }
      designerPath := chosen;
      return Chosen;
    }

    /**
      `LoadAndValidateResources`: fails without a Polish path or when a dictionary cannot be
      loaded. Keys that do not agree are reported once; the user's answer is remembered, and
      declining fails.
     */
    method LoadAndValidateResources(polish: Option<seq<DataEntry>>, english: Option<seq<DataEntry>>, userAccepts: bool) returns (ok: bool)
      modifies this
      ensures var loaded := old(defaultResPath).Some? && polish.Some? && english.Some?;
        var asked := loaded && !old(userAcceptedDifferences) && !KeysAgree(Names(polish.value), Names(english.value));
        (ok <==> loaded && (!asked || userAccepts)) &&
        userAcceptedDifferences == (if asked then userAccepts else old(userAcceptedDifferences))
      ensures defaultResPath == old(defaultResPath) && englishResPath == old(englishResPath)
      ensures designerPath == old(designerPath) && namespace == old(namespace)
    {
      if defaultResPath.None? || polish.None? || english.None? {
        return false;
      }
      var polishKeys := Names(polish.value);
      var englishKeys := Names(english.value);
      if !userAcceptedDifferences && !KeysAgree(polishKeys, englishKeys) {
        userAcceptedDifferences := userAccepts;
        if !userAcceptedDifferences {
          return false;
        }
      }
      return true;
    }

    /** `GetTranslations`: walks the Polish nodes and looks each key up among the English ones. */
    method GetTranslations(polish: seq<DataEntry>, english: seq<DataEntry>) returns (translations: seq<Translation>)
      ensures translations == Joined(polish, english)
    {
      translations := [];
      var i := 0;
      while i < |polish|
        invariant 0 <= i <= |polish|
        invariant translations == Joined(polish[..i], english)
      {
        var name := polish[i].name;
        var engTxt := EnglishTextFor(english, name);
        translations := translations + [Translation(name, polish[i].value, engTxt)];
        i := i + 1;
        assert polish[..i][..i - 1] == polish[..i - 1];
      }
      assert polish[..i] == polish;
    }

    /**
      `GetAllSimilairTranslations`: `None` when the dictionaries cannot be used, otherwise the
      joined translations in the order of `SimilarOrder`.
     */
    method GetAllSimilairTranslations(textToFind: Option<string>, polish: Option<seq<DataEntry>>, english: Option<seq<DataEntry>>,
                                      userAccepts: bool, distance: (string, string) -> real)
      returns (r: Option<seq<Translation>>)
      modifies this
      ensures var loaded := old(defaultResPath).Some? && polish.Some? && english.Some?;
        var asked := loaded && !old(userAcceptedDifferences) && !KeysAgree(Names(polish.value), Names(english.value));
        (r.Some? <==> loaded && (!asked || userAccepts)) &&
        userAcceptedDifferences == (if asked then userAccepts else old(userAcceptedDifferences))
      ensures r.Some? ==> r.value == SimilarOrder(textToFind, Joined(polish.value, english.value), distance)
      ensures defaultResPath == old(defaultResPath) && englishResPath == old(englishResPath)
      ensures designerPath == old(designerPath) && namespace == old(namespace)
    {
      var ok := LoadAndValidateResources(polish, english, userAccepts);
      if !ok {
        return None;
      }
      var translations := GetTranslations(polish.value, english.value);
      return Some(SimilarOrder(textToFind, translations, distance));
    }

    /** `if (!namespaceFound) Namespace = GetNamespace(line, out namespaceFound);` */
    method ReadNamespace(line: string, found: bool, ghost scanned: seq<string>, ghost ns0: string) returns (nowFound: bool)
      requires (namespace, found) == ScanNamespace(scanned, ns0)
      modifies this
      ensures (namespace, nowFound) == ScanNamespace(scanned + [line], ns0)
      ensures defaultResPath == old(defaultResPath) && englishResPath == old(englishResPath)
      ensures designerPath == old(designerPath) && userAcceptedDifferences == old(userAcceptedDifferences)
    {
      ScanNamespaceStep(scanned, line, ns0);
      nowFound := found;
      if !found {
        var r := GetNamespace(line);
        namespace, nowFound := r.0, r.1;
      }
    }

    /**
      `AddTranslationInDesigner`: copies the file through a three-line window, so the last two
      lines are never copied, then writes the new property and the closing braces. The namespace
      is read from the lines the window passes over.
     */
    method AddTranslationInDesigner(lines: seq<string>, name: string, text: string) returns (written: seq<string>)
      modifies this
      ensures written == AddKeptLines(lines) + LegacyPropertyBlock(name, text)
      ensures namespace == ScanNamespace(AddScannedLines(lines), old(namespace)).0
      ensures defaultResPath == old(defaultResPath) && englishResPath == old(englishResPath)
      ensures designerPath == old(designerPath) && userAcceptedDifferences == old(userAcceptedDifferences)
    {
      written := CopyThroughWindow(lines);
      written := written + LegacyPropertyBlock(name, text);
    }

    /** The copy loop of `AddTranslationInDesigner`: the window's last two lines are never written. */
    method CopyThroughWindow(lines: seq<string>) returns (written: seq<string>)
      modifies this
      ensures written == AddKeptLines(lines)
      ensures namespace == ScanNamespace(AddScannedLines(lines), old(namespace)).0
      ensures defaultResPath == old(defaultResPath) && englishResPath == old(englishResPath)
      ensures designerPath == old(designerPath) && userAcceptedDifferences == old(userAcceptedDifferences)
    {
      var n := |lines|;
      var currentLine := ReadAt(lines, 0);
      written := [Written(currentLine)];
      var lineAhead := ReadAt(lines, 1);
      var twoLinesAhead := ReadAt(lines, 2);
      if n < 3 {
        return;
      }
      var pos := 3;
      var namespaceFound := false;
      while pos < n
        invariant 3 <= pos <= n
        invariant currentLine == Some(lines[pos - 3]) && written == lines[..pos - 2]
        invariant lineAhead == Some(lines[pos - 2]) && twoLinesAhead == Some(lines[pos - 1])
        invariant (namespace, namespaceFound) == ScanNamespace(lines[..pos - 3], old(namespace))
        invariant defaultResPath == old(defaultResPath) && englishResPath == old(englishResPath)
        invariant designerPath == old(designerPath) && userAcceptedDifferences == old(userAcceptedDifferences)
      {
        namespaceFound := ReadNamespace(currentLine.value, namespaceFound, lines[..pos - 3], old(namespace));
        PrefixGrows(lines, pos - 3);
        currentLine := lineAhead;
        lineAhead := twoLinesAhead;
        twoLinesAhead := ReadAt(lines, pos);
        pos := pos + 1;
        written := written + [Written(currentLine)];
        PrefixGrows(lines, pos - 3);
      }
    }

    /**
      `UpdateTranslationInDesigner`: copies the file through a three-line window until a line
      declares the searched key, rewrites that window, then copies the rest; `None` when a step
      throws, and the designer file is then left as it was.
     */
    method UpdateTranslationInDesigner(lines: seq<string>, name: string, text: string, oldName: Option<string>)
      returns (written: Option<seq<string>>)
      modifies this
      ensures written == UpdatedDesigner(lines, name, text, oldName)
      ensures namespace == ScanNamespace(UpdateScannedLines(lines, DeclarationPattern(SearchKey(name, oldName))), old(namespace)).0
      ensures defaultResPath == old(defaultResPath) && englishResPath == old(englishResPath)
      ensures designerPath == old(designerPath) && userAcceptedDifferences == old(userAcceptedDifferences)
    {
      var pattern := DeclarationPattern(SearchKey(name, oldName));
      if |lines| < 3 {
        written := Some([Written(ReadAt(lines, 0))]);
        return;
      }
      var out, found := SearchThroughWindow(lines, pattern);
      if found.None? {
        written := Some(out);
      } else {
        written := RenameAt(lines, out, found.value, name, text, oldName);
      }
    }

    /**
      The first loop of `UpdateTranslationInDesigner`: the three-line window moves down the file,
      writing out the line that leaves it, until the line entering it declares the key.
     */
    method SearchThroughWindow(lines: seq<string>, pattern: string) returns (out: seq<string>, found: Option<nat>)
      requires |lines| >= 3
      modifies this
      ensures found == FirstContaining(lines, pattern, 3)
      ensures out == lines[..if found.Some? then found.value - 2 else |lines| - 2]
      ensures namespace == ScanNamespace(UpdateScannedLines(lines, pattern), old(namespace)).0
      ensures defaultResPath == old(defaultResPath) && englishResPath == old(englishResPath)
      ensures designerPath == old(designerPath) && userAcceptedDifferences == old(userAcceptedDifferences)
    {
      var n := |lines|;
      var currentLine := ReadAt(lines, 0);
      out := [Written(currentLine)];
      var lineAhead := ReadAt(lines, 1);
      var twoLinesAhead := ReadAt(lines, 2);
      var pos := 3;
      var namespaceFound := false;
      while pos < n
        invariant 3 <= pos <= n
        invariant lineAhead == Some(lines[pos - 2]) && twoLinesAhead == Some(lines[pos - 1])
        invariant out == lines[..pos - 2]
        invariant (namespace, namespaceFound) == ScanNamespace(lines[1..pos - 2], old(namespace))
        invariant FirstContaining(lines, pattern, 3) == FirstContaining(lines, pattern, pos)
        invariant defaultResPath == old(defaultResPath) && englishResPath == old(englishResPath)
        invariant designerPath == old(designerPath) && userAcceptedDifferences == old(userAcceptedDifferences)
      {
        currentLine := lineAhead;
        lineAhead := twoLinesAhead;
        twoLinesAhead := ReadAt(lines, pos);
        pos := pos + 1;
        namespaceFound := ReadNamespace(currentLine.value, namespaceFound, lines[1..pos - 3], old(namespace));
        SliceGrows(lines, 1, pos - 3);
        if Contains(twoLinesAhead.value, pattern) {
          FirstDeclarationAt(lines, pattern, pos - 1);
          found := Some(pos - 1);
          return;
        }
        out := out + [Written(currentLine)];
        PrefixGrows(lines, pos - 3);
      }
      found := None;
    }
  }

  /** The first declaration is the one the window stopped at. */
  lemma FirstDeclarationAt(lines: seq<string>, pattern: string, m: nat)
    requires 3 <= m < |lines| && Contains(lines[m], pattern)
    requires FirstContaining(lines, pattern, 3) == FirstContaining(lines, pattern, m)
    ensures FirstContaining(lines, pattern, 3) == Some(m)
    ensures UpdateScannedLines(lines, pattern) == lines[1..m - 1]
  {
  }

  /** The rename once the declaration is found at `m`: the window is rewritten, then the rest copied. */
  method RenameAt(lines: seq<string>, out: seq<string>, m: nat, name: string, text: string, oldName: Option<string>)
    returns (written: Option<seq<string>>)
    requires 3 <= m < |lines| && out == lines[..m - 2]
    requires FirstContaining(lines, DeclarationPattern(SearchKey(name, oldName)), 3) == Some(m)
    ensures written == UpdatedDesigner(lines, name, text, oldName)
  {
    var window := RewrittenWindow(lines, m, SearchKey(name, oldName), name, text);
    if window.None? {
      return None;
    }
    written := CopyRest(lines, out + window.value, m + 3);
  }

  /** The final loop of the rename: every remaining line is copied. */
  method CopyRest(lines: seq<string>, out: seq<string>, pos: nat) returns (written: Option<seq<string>>)
    requires pos <= |lines|
    ensures written == Some(out + lines[pos..])
  {
    var result := out;
    var i := pos;
    while i < |lines|
      invariant pos <= i <= |lines|
      invariant result == out + lines[pos..i]
    {
      result := result + [lines[i]];
      i := i + 1;
      SliceGrows(lines, pos, i - 1);
    }
    assert lines[pos..i] == lines[pos..];
    written := Some(result);
  }

  /**
    With the dictionary `C:\p\Strings.resx` and no designer file next to it, the designer file the
    user picks ends up as the English dictionary path and the designer path is never set.
   */
  method DesignerChoiceIsLost() returns (m: TranslationResourcesManager)
    ensures m.designerPath.None?
    ensures m.englishResPath == Some("C:\\p\\Strings.Designer.cs")
  {
    m := new TranslationResourcesManager(Some("C:\\p\\Strings.resx"));
    var polishPath := "C:\\p\\Strings.resx";
    assert LastIndexOf(polishPath, '\\') == 4;
    assert '.' in polishPath[NameStart(polishPath)..] by {
      assert polishPath[NameStart(polishPath)..][7] == '.';
    }
    var outcome := m.ValidateDesignerFileAsWritten(_ => false, Some("C:\\p\\Strings.Designer.cs"));
  }
}
