# TranslationExtension — a verified model of the translation core

TranslationExtension is a Visual Studio extension. It adds and renames localized strings in a
project's `.resx` resource files, and it keeps the generated `.Designer.cs` property class in step
with them. This project models the logic underneath that feature and proves properties of it:

- **Fuzzy distance** (`FindClosestString`, `Comparer`, `Sorting`):
  - the Levenshtein table filled by nested loops, proved equal to a recursive edit distance;
  - the word-level best-match sum;
  - the combined `0.8·min + 0.2·max` distance, in exact reals;
  - the comparer that sorts translations by their distance to the text being typed.
- **Resource-project discovery** (`Projects`, `ResourceFiles`):
  - the depth-first directory search, which skips `bin`/`obj` and stops at the first directory
    holding exactly one `.Designer.cs` file and at least one `.resx` file named after it;
  - the ordering of the resource files, with the main resource first;
  - the culture read from a file name;
  - the XML reader that returns the readable `data` nodes and reports duplicate keys.
- **Designer-file rewriters** (`DesignerFiles`, `Projects`, `ResourcesManager`):
  - writing a new property block before every line after which the class declaration has been read and the brace counter is 0 (with the class brace on a line of its own, this includes the declaration line itself);
  - renaming a property through a five-line look-behind queue;
  - the legacy three-line look-ahead window that adds or renames a property.

  Each file is a sequence of lines. Each rewriter is a method that loops over that sequence and
  is proved equal to a line-by-line specification.
- **Per-culture translation DTO** (`TranslationDto`): a dictionary and a list kept in sync, with
  key equality and a key hash.
- **View model** (`ViewModel`, `Translations`): the key validator, and the edit / cancel / save /
  select state machine over mutable `Translation` objects.

`Text` models the .NET string operations the code relies on:

- `Trim`/`TrimStart`/`TrimEnd`, `StartsWith`/`EndsWith`/`Contains`;
- `IndexOf`/`LastIndexOf`, returning −1 when absent;
- replace-all `Replace`, and `Split` keeping empty parts;
- ASCII `ToLower`.

`Collections` holds generic sequence lemmas. `Wrappers` holds `Option` and `Result`.

File contents, dialog answers, file-existence tests and the outcome of operations on code not
modelled here (the XML resource writer, `File.Replace`) are parameters of the methods.

The model follows the code where its description says otherwise:

- The combined distance is **not** symmetric, although the Levenshtein distance is. The word term
  sums over the first string's words only. `FindClosestString.DistanceNotSymmetric` proves 0.52
  against 0.08 on `"a b"` and `"a"`.
- The phrase term `Lev − 0.8·|Δlen|` is never negative, because `Lev ≥ |Δlen|`.

## Model

| member | source | states |
|---|---|---|
| FindClosestString.LevenshteinDistance | src/AddTranslation.Core/FindClosestString/FindClosestString.cs:37-64 | The table-filling loops return the recursive edit distance of the two strings; every filled cell D[i, j] equals the distance of the prefixes; lengths count scalar values (see Left out). |
| FindClosestString.FillColumn | src/AddTranslation.Core/FindClosestString/FindClosestString.cs:52-61 | Filling column j from column j−1 makes every cell of that column the prefix edit distance and leaves the other columns alone. |
| FindClosestString.EditDistanceToEmpty | src/AddTranslation.Core/FindClosestString/FindClosestString.cs:43-48 | The distance to or from the empty string is the other string's length (the initialised row and column). |
| FindClosestString.EditDistanceProperties | src/AddTranslation.Core/FindClosestString/FindClosestString.cs:30-64 | \|\|s\|−\|t\|\| ≤ distance ≤ max(\|s\|, \|t\|), and a string is at distance 0 from itself. |
| FindClosestString.LevUpperBound | src/AddTranslation.Core/FindClosestString/FindClosestString.cs:50-62 | Every table cell is at most the longer prefix length. |
| FindClosestString.LevLowerBound | src/AddTranslation.Core/FindClosestString/FindClosestString.cs:50-62 | Every table cell is at least the difference of the prefix lengths. |
| FindClosestString.LevSelf | src/AddTranslation.Core/FindClosestString/FindClosestString.cs:50-62 | The diagonal of a string against itself is all zeros. |
| FindClosestString.LevSymmetric | src/AddTranslation.Core/FindClosestString/FindClosestString.cs:30-62 | Every cell of the table for (s, t) equals the transposed cell of the table for (t, s). |
| FindClosestString.EditDistanceSymmetric | src/AddTranslation.Core/FindClosestString/FindClosestString.cs:30-64 | The Levenshtein distance is symmetric, as the insert/delete/substitute definition in the doc comment implies. |
| FindClosestString.BestWordMatch | src/AddTranslation.Core/FindClosestString/FindClosestString.cs:75-81 | The inner loop, including its early exit on distance 0, returns the smallest of \|s2\| and the word's distances to the words of s2; lengths count scalar values (see Left out). |
| FindClosestString.BestMatchIsSmallest | src/AddTranslation.Core/FindClosestString/FindClosestString.cs:75-81 | The best match is at most every candidate's distance, and it is either the initial \|s2\| or one of those distances. |
| FindClosestString.BestMatchPrefix | src/AddTranslation.Core/FindClosestString/FindClosestString.cs:76-81 | Looking at more words of s2 never makes the best match worse. |
| FindClosestString.ValueWords | src/AddTranslation.Core/FindClosestString/FindClosestString.cs:66-86 | The nested loops over the words split on space, underscore and hyphen return the sum of the best matches of s1's words; lengths count scalar values (see Left out). |
| FindClosestString.WordsTotalBound | src/AddTranslation.Core/FindClosestString/FindClosestString.cs:73-83 | Each word contributes at most the initial best, so the total is at most (number of words) × \|s2\|. |
| FindClosestString.WordsTotalZero | src/AddTranslation.Core/FindClosestString/FindClosestString.cs:73-83 | When every word of s1 occurs among s2's words the total is 0. |
| FindClosestString.WordsValueProperties | src/AddTranslation.Core/FindClosestString/FindClosestString.cs:66-86 | valueWords(s1, s2) ≤ \|words(s1)\|·\|s2\| and valueWords(s, s) = 0. |
| FindClosestString.GetDistance | src/AddTranslation.Core/FindClosestString/FindClosestString.cs:17-28 | Lower-cases both strings and returns 0.8·min + 0.2·max of the word term and the phrase term Lev − 0.8·\|Δlen\|; lengths count scalar values (see Left out). |
| FindClosestString.PhraseValueLowerBound | src/AddTranslation.Core/FindClosestString/FindClosestString.cs:24 | The phrase term is at least 0.2·\|Δlen\|, so it is never negative. |
| FindClosestString.DistanceNonNegative | src/AddTranslation.Core/FindClosestString/FindClosestString.cs:23-27 | The distance is never negative. |
| FindClosestString.DistanceToSelf | src/AddTranslation.Core/FindClosestString/FindClosestString.cs:21-27 | A string is at distance 0 from itself. |
| FindClosestString.DistanceIgnoresCase | src/AddTranslation.Core/FindClosestString/FindClosestString.cs:21-22 | The distance depends only on the lower-cased inputs. |
| FindClosestString.ExampleEditDistances | src/AddTranslation.Core/FindClosestString/FindClosestString.cs:37-64 | Concrete distances: ("a","a") = 0, ("b","a") = 1, ("a b","a") = ("a","a b") = 2. |
| FindClosestString.ExampleWordsValues | src/AddTranslation.Core/FindClosestString/FindClosestString.cs:66-86 | valueWords("a b", "a") = 1 but valueWords("a", "a b") = 0. |
| FindClosestString.DistanceNotSymmetric | src/AddTranslation.Core/FindClosestString/FindClosestString.cs:23-26 | GetDistance("a b", "a") = 0.52 while GetDistance("a", "a b") = 0.08. |
| Comparer.CompareTexts | src/AddTranslation.Core/FindClosestString/TranslationComparer.cs:12-18 | The result is −1, 0 or 1, and it is −1 / 0 / 1 exactly when the query is nearer to x / as near / farther than to y. |
| Comparer.CompareReflexive | src/AddTranslation.Core/FindClosestString/TranslationComparer.cs:14-17 | Comparing a text with itself gives 0. |
| Comparer.CompareAntisymmetric | src/AddTranslation.Core/FindClosestString/TranslationComparer.cs:14-17 | Compare(x, y) = −Compare(y, x). |
| Comparer.CompareTransitive | src/AddTranslation.Core/FindClosestString/TranslationComparer.cs:12-18 | ≤ and < chain, so the comparer is a total preorder fit for sorting. |
| Comparer.TranslationComparer.constructor | src/AddTranslation.Core/FindClosestString/TranslationComparer.cs:10 | Stores the query text. |
| Comparer.TranslationComparer.Compare | src/AddTranslation.Core/FindClosestString/TranslationComparer.cs:12-18 | Compares the two translations by text only: key and culture are never read. |
| ResourceFiles.FileName | AddTranslationCore/Model/ResourceFile.cs:43 | `Path.GetFileName`: a suffix of the path with no directory separator. |
| ResourceFiles.CultureOf | AddTranslationCore/Model/ResourceFile.cs:40-52 | A main resource gets the invariant culture. Any other file name must split on '.' into at least 3 parts, or the call fails with the missing-culture error. |
| ResourceFiles.CultureOfLocalizedFile | AddTranslationCore/Model/ResourceFile.cs:43-47 | The culture of `dir\base.culture.resx` is `culture`, the second-to-last part. |
| ResourceFiles.SplitThreeParts | AddTranslationCore/Model/ResourceFile.cs:44 | `base.culture.resx` splits into exactly base, culture and "resx". |
| ResourceFiles.NoCultureInShortName | AddTranslationCore/Model/ResourceFile.cs:45 | A non-main `dir\base.resx` has only two parts and fails. |
| ResourceFiles.ResourceFile.constructor | AddTranslationCore/Model/ResourceFile.cs:35-55 | Sets path, main flag and the culture the name gives. |
| ResourceFiles.ResourceFile.New | AddTranslationCore/Model/ResourceFile.cs:35-55 | A missing file fails first. A name without a culture fails next. Otherwise the object records path, main flag and culture. |
| ResourceFiles.ResourceFile.GetTranslation | AddTranslationCore/Model/ResourceFile.cs:69-121 | Returns the key with the text of the first readable node of that name, or empty text when there is none. |
| ResourceFiles.FirstText | AddTranslationCore/Model/ResourceFile.cs:69-121 | None exactly when no readable node has the key; otherwise the text of the first one that has it. |
| ResourceFiles.ResourceFile.GetTranslations | AddTranslationCore/Model/ResourceFile.cs:128-192 | A non-main file throws before reading. Otherwise it returns every readable node in file order, duplicates included, with the duplicated keys listed. |
| ResourceFiles.ReadableEntries | AddTranslationCore/Model/ResourceFile.cs:149-186 | Each returned entry comes from a node with a name and a text value, tagged with the file's culture; nodes without a name, value or text are skipped. |
| ResourceFiles.DuplicateKeysCount | AddTranslationCore/Model/ResourceFile.cs:181-185 | The duplicate list holds one entry per repeated occurrence: its length is the entry count minus the number of distinct keys. |
| ResourceFiles.DuplicateKeysEmptyIffDistinct | AddTranslationCore/Model/ResourceFile.cs:181-190 | No duplicates are reported exactly when the keys are distinct. |
| ResourceFiles.DuplicateKeysRepeated | AddTranslationCore/Model/ResourceFile.cs:181-185 | Every reported key occurs at least twice. |
| TranslationDto.Translation.constructor | AddTranslationCore/DTO/Translation.cs:10-37 | Starts with an empty map and list, which satisfies the invariant. |
| TranslationDto.Translation.AddTranslation | AddTranslationCore/DTO/Translation.cs:39-48 | A present culture returns false and changes nothing. A new one returns true, adds the map entry and appends the culture to the list. The invariant (map keys = list elements, no duplicates) is kept. |
| TranslationDto.Translation.RemoveTranslation | AddTranslationCore/DTO/Translation.cs:50-54 | Removes the culture from the map and its occurrence from the list. An absent culture is a no-op. The invariant is kept. |
| TranslationDto.RemoveFromDistinct | AddTranslationCore/DTO/Translation.cs:52-53 | Removing from a duplicate-free list keeps it duplicate-free and removes exactly that element from its set. |
| TranslationDto.Translation.SetSelectedCultureInfo | AddTranslationCore/DTO/Translation.cs:21-30 | A changed culture sets the selected text to map[value]; an absent culture throws (`ok` false); an unchanged one does nothing. |
| TranslationDto.Translation.Equals | AddTranslationCore/DTO/Translation.cs:56-60 | Null is never equal; otherwise equality is `==`, i.e. equal keys. |
| TranslationDto.OpNotEquals | AddTranslationCore/DTO/Translation.cs:64 | `!=` is the negation of `==`. |
| TranslationDto.EqualsIsEquivalence | AddTranslationCore/DTO/Translation.cs:56-62 | Equality is reflexive, symmetric and transitive. |
| TranslationDto.Translation.HashCode | AddTranslationCore/DTO/Translation.cs:66-71 | 17·31 + hash(key), wrapped to 32 bits; None exactly when the key is null, where the source throws. |
| TranslationDto.EqualsImpliesSameHash | AddTranslationCore/DTO/Translation.cs:56-71 | Equal translations have equal hash codes. |
| TranslationDto.HashIgnoresTranslations | AddTranslationCore/DTO/Translation.cs:66-71 | The hash depends on the key only, not on the culture map. |
| TranslationDto.Wrap32 | AddTranslationCore/DTO/Translation.cs:69 | 32-bit wrap-around: congruent modulo 2^32 and the identity inside the int range. |
| Translations.Translation.constructor | src/AddTranslation.Core/ViewModel/Translation.cs:9-10 | Sets key, text and culture; not under edition. |
| Translations.Translation.Clone | src/AddTranslation.Core/ViewModel/Translation.cs:40 | A fresh object with every field copied. |
| Projects.Combine | src/AddTranslation.Core/ViewModel/Project.cs:112-113 | `Path.Combine` ends with the child name. |
| Projects.DesignerFilesIn | src/AddTranslation.Core/ViewModel/Project.cs:137 | Every selected file ends with `.Designer.cs`. |
| Projects.DesignerFilesInMembers | src/AddTranslation.Core/ViewModel/Project.cs:137 | The selected files are exactly the listed files ending with `.Designer.cs`. |
| Projects.MainIsExactName | src/AddTranslation.Core/ViewModel/Project.cs:151-153 | For a resource file of the set, the case-insensitive main-resource test is plain equality with `base.resx`. |
| Projects.ListedMembers | src/AddTranslation.Core/ViewModel/Project.cs:148-160 | The listing holds exactly the files whose names start with the base name and end with `.resx`. |
| Projects.ListedIsMainsThenOthers | src/AddTranslation.Core/ViewModel/Project.cs:148-160 | The listing is the main resources (last one first) followed by the others in listing order. |
| Projects.MainResourceFirst | src/AddTranslation.Core/ViewModel/Project.cs:154-158 | With one main resource, it is at index 0 and the rest keep their order. |
| Projects.CulturesParsePrefix | src/AddTranslation.Core/ViewModel/Project.cs:148-160 | If every file's culture parses, so does every prefix's: a failure anywhere fails the whole listing. |
| Projects.DirectoryOutcome | src/AddTranslation.Core/ViewModel/Project.cs:132-166 | The only error a directory check raises is a resource name without a culture. |
| Projects.DirectoryOutcomeFound | src/AddTranslation.Core/ViewModel/Project.cs:132-166 | Found exactly when there is one designer file, every matching resource name has a culture, and at least one resource file matches. |
| Projects.SearchIsPreorder | src/AddTranslation.Core/ViewModel/Project.cs:98-120 | The search's outcome is that of the first decisive directory in a pre-order walk that skips `bin` and `obj`. |
| Projects.ChildrenArePreorder | src/AddTranslation.Core/ViewModel/Project.cs:109-118 | The same for the loop over the subdirectories. |
| Projects.SkippedDirectoryIgnored | src/AddTranslation.Core/ViewModel/Project.cs:111-114 | Whatever a `bin` or `obj` subdirectory holds, the search ends the same way. |
| Projects.NotFoundLeavesNoResources | src/AddTranslation.Core/ViewModel/Project.cs:132-166 | A search that finds nothing leaves the resource list empty. |
| Projects.ChildrenNotFoundEmpty | src/AddTranslation.Core/ViewModel/Project.cs:109-118 | The same for the loop over the subdirectories. |
| Projects.Paths | src/AddTranslation.Core/ViewModel/Project.cs:43 | The paths of the resource files, index by index. |
| Projects.Cultures | src/AddTranslation.Core/ViewModel/Project.cs:164 | `AvailableLanguages`: the cultures of the resource files, index by index. |
| Projects.WithCulture | src/AddTranslation.Core/ViewModel/Project.cs:86 | Exactly the resource files of the requested culture; cultures are matched by tag, not by LCID (see Left out). |
| Projects.Project.constructor | src/AddTranslation.Core/ViewModel/Project.cs:45-55 | The fields before the scan. |
| Projects.Project.New | src/AddTranslation.Core/ViewModel/Project.cs:45-51 | A missing directory gives an invalid project. Otherwise the project is valid exactly when the search finds a resource set, and a resource file without a culture makes construction fail. |
| Projects.Project.CheckIfIsCorrectResourcesProject | src/AddTranslation.Core/ViewModel/Project.cs:98-120 | False and nothing changed for a missing directory; otherwise the outcome, designer path, resource list and languages of the specified search. |
| Projects.Project.SearchDirectory | src/AddTranslation.Core/ViewModel/Project.cs:102-119 | A directory is checked before its subdirectories, and the state afterwards is that of the specified search. |
| Projects.Project.SearchSubdirectories | src/AddTranslation.Core/ViewModel/Project.cs:106-118 | The subdirectory loop skips `bin`/`obj`, stops at the first decisive child, and leaves the state the loop specification gives. |
| Projects.Project.SearchChild | src/AddTranslation.Core/ViewModel/Project.cs:111-116 | One pass: a skipped child changes nothing; otherwise a decisive child ends the loop with its state. |
| Projects.Project.CheckIfDirectoryContainsRequiredFiles | src/AddTranslation.Core/ViewModel/Project.cs:132-166 | The outcome is the directory's specified outcome. The designer path and resource list are updated, every listed file knows its main flag and culture, and the languages are set only on success. |
| Projects.Project.ListResourceFiles | src/AddTranslation.Core/ViewModel/Project.cs:148-160 | Fails exactly when some matching name has no culture. Otherwise it lists the matching files with the main one first, each describing its own path. |
| Projects.Project.ListResourceFile | src/AddTranslation.Core/ViewModel/Project.cs:150-159 | One file of that loop extends the listing of the prefix by that file. |
| Projects.Project.SaveTranslation | src/AddTranslation.Core/ViewModel/Project.cs:84-89 | Needs exactly one file of the culture. The designer is rewritten only when the resource file was saved, and the result is both steps' conjunction. |
| Projects.Project.UpdateTranslation | src/AddTranslation.Core/ViewModel/Project.cs:91-96 | Needs exactly one file of the culture. The designer is renamed only after the resource update succeeds, and the result is the conjunction. |
| Projects.Project.WriteNewPropertyToDesignerFile | src/AddTranslation.Core/ViewModel/Project.cs:169-226 | The written file is the line-by-line specification, with one line per input line plus eight per inserted block; a text is one line (see Left out). |
| Projects.ReadDesignerLine | src/AddTranslation.Core/ViewModel/Project.cs:189-211 | Reading line k advances the class flag and the brace counter, and writes the block (if any) followed by the line itself. |
| Projects.ReadClassDeclaration | src/AddTranslation.Core/ViewModel/Project.cs:193-196 | The class flag is set by the first non-comment line declaring a class and stays set. |
| DesignerFiles.TrimmedCommentTest | src/AddTranslation.Core/ViewModel/Project.cs:193 | `Trim().StartsWith("//")` and `TrimStart().StartsWith("//")` agree. |
| DesignerFiles.ClassReadMonotone | src/AddTranslation.Core/ViewModel/Project.cs:195-196 | Once the class declaration has been read, it stays read. |
| DesignerFiles.BracesStep | src/AddTranslation.Core/ViewModel/Project.cs:197-200 | A line changes the counter by at most one either way, and a comment or a line before the class does not change it. |
| DesignerFiles.NoBracesBeforeClass | src/AddTranslation.Core/ViewModel/Project.cs:197-200 | The counter stays 0 until the class declaration. |
| DesignerFiles.IndentBefore | src/AddTranslation.Core/ViewModel/Project.cs:189-190 | The remembered indent is whitespace only. |
| DesignerFiles.IndentBeforeIsLastIndent | src/AddTranslation.Core/ViewModel/Project.cs:184-190 | The indent is the leading whitespace of the last non-empty line read, or "" when there is none. |
| DesignerFiles.PropertyBlock | src/AddTranslation.Core/ViewModel/Project.cs:29-37 | Eight lines, each starting with the indent, with the text in the summary and the key in the declaration and the return. |
| DesignerFiles.WithPropertyLength | src/AddTranslation.Core/ViewModel/Project.cs:202-211 | The output has one line per input line plus eight per inserted block. |
| DesignerFiles.WithPropertyGrows | src/AddTranslation.Core/ViewModel/Project.cs:185-212 | Reading more lines only appends to what has been written. |
| DesignerFiles.WithPropertyKeepsLines | src/AddTranslation.Core/ViewModel/Project.cs:185-212 | Every input line is written exactly once and in order, and a block is inserted just before every line after which the class declaration has been read and the brace counter is 0. Removing the blocks gives back the input. |
| DesignerFiles.OwnLineBraceGetsTwoBlocks | src/AddTranslation.Core/ViewModel/Project.cs:192-203 | With the class brace on its own line, blocks go before the declaration line and before the closing brace, not before the opening brace. |
| DesignerFiles.LineAtPosition | src/AddTranslation.Core/ViewModel/Project.cs:202-211 | Line k lands at its computed position, with its block, if any, right before it. |
| DesignerFiles.NoInsertionBeforeClass | src/AddTranslation.Core/ViewModel/Project.cs:202 | No block is inserted before the class declaration has been read. |
| DesignerFiles.WithoutClassUnchanged | src/AddTranslation.Core/ViewModel/Project.cs:185-212 | A file without a class declaration is written back unchanged. |
| DesignerFiles.PropertyLineMatchesLongerKey | src/AddTranslation.Core/ViewModel/Project.cs:24 | The property pattern also matches a longer key that starts with the searched one. |
| DesignerFiles.FirstPropertyMatch | src/AddTranslation.Core/ViewModel/Project.cs:274-281 | The first line inside the class matching the property pattern; no earlier one matches. |
| DesignerFiles.ClassStart | src/AddTranslation.Core/ViewModel/Project.cs:269-272 | The first line after which the class declaration has been read. |
| DesignerFiles.ClassStartIsFirst | src/AddTranslation.Core/ViewModel/Project.cs:269-272 | No class declaration is read before it. |
| DesignerFiles.QueueStart | src/AddTranslation.Core/ViewModel/Project.cs:250-320 | At most five lines are held back when the property is found. |
| DesignerFiles.Renamed | src/AddTranslation.Core/ViewModel/Project.cs:243-337 | A successful rename keeps the line count. With no matching property line the file is unchanged. It fails exactly when a `Replace` with an empty old value is reached. Lines before the queue and from five lines after the match on are copied. |
| DesignerFiles.RenamedAt | src/AddTranslation.Core/ViewModel/Project.cs:279-323 | Once the property is found, the rewritten file has the input's line count. |
| DesignerFiles.RenamedAtPropertyLine | src/AddTranslation.Core/ViewModel/Project.cs:293-294 | The matched line has old key → new key. |
| DesignerFiles.RenamedAtReturnLine | src/AddTranslation.Core/ViewModel/Project.cs:296-309 | Of the next four lines, only return-pattern lines get the key replaced. |
| DesignerFiles.RenamedAtLaterLine | src/AddTranslation.Core/ViewModel/Project.cs:263-267 | Lines after those are copied verbatim. |
| DesignerFiles.RenamedAtKeepsStart | src/AddTranslation.Core/ViewModel/Project.cs:274-320 | Lines written before the queue are copied verbatim. |
| DesignerFiles.RenamedAtHeldLine | src/AddTranslation.Core/ViewModel/Project.cs:285-292 | A held line gets old text → new text only if it is a comment. |
| DesignerFiles.RenameKeepsLinesWithoutKey | src/AddTranslation.Core/ViewModel/Project.cs:279-311 | A line containing neither the old key nor the old text is unchanged. |
| Projects.Project.UpdatePropertyInDesignerFile | src/AddTranslation.Core/ViewModel/Project.cs:243-337 | The rewritten file is the specified rename, or a failure where `Replace` throws; the old key is matched literally (see Left out). |
| Projects.Project.CopyUntilProperty | src/AddTranslation.Core/ViewModel/Project.cs:259-320 | Copies up to the first matching property line while holding at most five lines back; if none matches, written + held = the input. |
| Projects.CopyOrHoldStep | src/AddTranslation.Core/ViewModel/Project.cs:259-320 | One read before the match: either the first matching property line is found here, with at most five lines held, or the copy-and-hold state advances by one line. |
| Projects.Project.RewriteFoundProperty | src/AddTranslation.Core/ViewModel/Project.cs:281-323 | From the matched line on, the output is the specified rename. |
| Projects.FlushHeldLines | src/AddTranslation.Core/ViewModel/Project.cs:285-292 | Flushing the queue throws exactly when the old text is empty and a held line is a comment; otherwise it writes the specified held lines. |
| Projects.RewriteFollowingLines | src/AddTranslation.Core/ViewModel/Project.cs:296-323 | After the property line, the rest of the output is the specified rename. |
| Projects.FlushHeldLine | src/AddTranslation.Core/ViewModel/Project.cs:286-291 | One dequeued line: a comment gets the old text replaced, which throws exactly when that text is empty. |
| Projects.RewriteReturnLines | src/AddTranslation.Core/ViewModel/Project.cs:296-309 | Writes up to four following lines, stopping early only at the end of the file. |
| Projects.CopyRenamedRest | src/AddTranslation.Core/ViewModel/Project.cs:259-323 | The rest of the file is copied. |
| Projects.WriteOrHoldLine | src/AddTranslation.Core/ViewModel/Project.cs:274-320 | A line before the class is written; a line inside is queued, and the oldest is written when five are held. |
| Projects.HoldLine | src/AddTranslation.Core/ViewModel/Project.cs:315-319 | Queueing a line inside the class writes the oldest held line when five are held, keeping at most five. |
| ResourcesManager.GetNamespace | AddTranslation/TranslationResourcesManagement/TranslationResourcesManager.cs:357-366 | Found exactly when the trimmed line starts with "namespace". Otherwise the name is "". When found, the name has no '{' and no surrounding whitespace. |
| ResourcesManager.ScanFindsFirst | AddTranslation/TranslationResourcesManagement/TranslationResourcesManager.cs:394-401 | The namespace comes from the first line that declares one, and later lines do not change it. |
| ResourcesManager.ScanNamespaceIsScan | AddTranslation/TranslationResourcesManagement/TranslationResourcesManager.cs:400-401 | The per-line scan is the scan of the `GetNamespace` results. |
| ResourcesManager.EnglishPath | AddTranslation/TranslationResourcesManagement/TranslationResourcesManager.cs:619-621 | Defined exactly when the file name has a '.'; then ".en" is inserted before the last '.', in the same directory. |
| ResourcesManager.DesignerPath | AddTranslation/TranslationResourcesManagement/TranslationResourcesManager.cs:654-656 | Defined exactly when the file name has a '.'; then the last extension is replaced by ".Designer.cs". |
| ResourcesManager.DesignerFileNameOfDerivedPath | AddTranslation/TranslationResourcesManagement/TranslationResourcesManager.cs:45-50 | `DesignerFileName` of the derived designer path gives back the dictionary's base name. |
| ResourcesManager.DesignerPathNameStart | AddTranslation/TranslationResourcesManagement/TranslationResourcesManager.cs:654-656 | The derived designer file is in the dictionary's directory. |
| ResourcesManager.Names | AddTranslation/TranslationResourcesManagement/TranslationResourcesManager.cs:300-301 | The key lists, index by index. |
| ResourcesManager.DistinctCount | AddTranslation/TranslationResourcesManagement/TranslationResourcesManager.cs:305 | `Distinct().Count()` equals the length exactly when no key repeats. |
| ResourcesManager.KeysAgreeIffSameDistinctKeys | AddTranslation/TranslationResourcesManagement/TranslationResourcesManager.cs:303-306 | The key check passes exactly when both key lists are duplicate-free with the same key set. |
| ResourcesManager.FirstNamed | AddTranslation/TranslationResourcesManagement/TranslationResourcesManager.cs:262 | The first English node with the name; no earlier one has it. |
| ResourcesManager.JoinedEntry | AddTranslation/TranslationResourcesManagement/TranslationResourcesManager.cs:247-283 | One entry per Polish node in Polish order, with the English text of the first same-named English node, or "" when there is none. |
| ResourcesManager.SimilarOrder | AddTranslation/TranslationResourcesManagement/TranslationResourcesManager.cs:348-349 | A null or empty query keeps file order. Otherwise it returns a permutation sorted by distance to the Polish text that keeps the file order of equal distances (`OrderBy` is stable). |
| Sorting.StableSort | AddTranslation/TranslationResourcesManagement/TranslationResourcesManager.cs:349 | `OrderBy` returns a permutation of its input, sorted by the key. |
| Sorting.StableSortIsStable | AddTranslation/TranslationResourcesManagement/TranslationResourcesManager.cs:349 | `OrderBy` keeps the relative order of elements with equal keys. |
| ResourcesManager.AddedDesignerShape | AddTranslation/TranslationResourcesManagement/TranslationResourcesManager.cs:472-499 | With n ≥ 3 lines the output is the first n−2 lines, then the 10-line block with the declaration of the name, ending with the class and namespace closed. |
| ResourcesManager.FirstContaining | AddTranslation/TranslationResourcesManagement/TranslationResourcesManager.cs:395-403 | The first line from the fourth on containing the declaration; no earlier one does. |
| ResourcesManager.RewrittenWindow | AddTranslation/TranslationResourcesManagement/TranslationResourcesManager.cs:409-414 | Five lines, with the line ahead and the one after the declaration copied. |
| ResourcesManager.UpdateKeepsLineCount | AddTranslation/TranslationResourcesManagement/TranslationResourcesManager.cs:388-425 | When the declaration is found, the rename keeps the line count. |
| ResourcesManager.UpdateWithoutDeclarationDropsLastTwo | AddTranslation/TranslationResourcesManagement/TranslationResourcesManager.cs:395-425 | Without the declaration, the output is the input minus its last two lines: the window is never flushed. |
| ResourcesManager.UpdateChangesOnlyWindow | AddTranslation/TranslationResourcesManagement/TranslationResourcesManager.cs:403-425 | Only lines k−2, k and k+2 change. Line k−2 is cut after the comment pattern and ends with the text. Lines k and k+2 have old → new name. |
| ResourcesManager.TranslationResourcesManager.constructor | AddTranslation/TranslationResourcesManagement/TranslationResourcesManager.cs:22-63 | The path read from the project file, nothing derived yet. |
| ResourcesManager.TranslationResourcesManager.ValidateEnglishResource | AddTranslation/TranslationResourcesManagement/TranslationResourcesManager.cs:616-649 | Uses the derived English path when the file exists, else the chosen file; with no choice it fails and changes nothing. |
| ResourcesManager.TranslationResourcesManager.ValidateDesignerFileAsWritten | AddTranslation/TranslationResourcesManagement/TranslationResourcesManager.cs:651-685 | As written: a file picked in the dialog overwrites the English path and leaves the designer path unset. |
| ResourcesManager.DesignerChoiceIsLost | AddTranslation/TranslationResourcesManagement/TranslationResourcesManager.cs:669-673 | A concrete run where the picked designer file ends up as the English path and the designer path stays null. |
| ResourcesManager.TranslationResourcesManager.ValidateDesignerFile | AddTranslation/TranslationResourcesManagement/TranslationResourcesManager.cs:651-685 | Corrected: the derived or picked file becomes the designer path, and the English path is untouched. |
| ResourcesManager.TranslationResourcesManager.LoadAndValidateResources | AddTranslation/TranslationResourcesManagement/TranslationResourcesManager.cs:291-330 | Fails without a path or a loadable file. The user is asked only when differences were not yet accepted and the keys disagree. The answer is remembered and decides the result. |
| ResourcesManager.TranslationResourcesManager.GetTranslations | AddTranslation/TranslationResourcesManagement/TranslationResourcesManager.cs:243-283 | The loop returns the specified Polish/English join. |
| ResourcesManager.TranslationResourcesManager.GetAllSimilairTranslations | AddTranslation/TranslationResourcesManagement/TranslationResourcesManager.cs:338-350 | Null when loading fails; otherwise the join in the specified order. |
| ResourcesManager.TranslationResourcesManager.ReadNamespace | AddTranslation/TranslationResourcesManagement/TranslationResourcesManager.cs:400-401 | The namespace is updated only until one has been found. |
| ResourcesManager.TranslationResourcesManager.AddTranslationInDesigner | AddTranslation/TranslationResourcesManagement/TranslationResourcesManager.cs:456-523 | Writes the copied lines and then the property block, and sets the namespace from the lines scanned; a text is one line (see Left out). |
| ResourcesManager.TranslationResourcesManager.CopyThroughWindow | AddTranslation/TranslationResourcesManagement/TranslationResourcesManager.cs:472-487 | The window loop writes all but the last two lines, at least the first. |
| ResourcesManager.TranslationResourcesManager.UpdateTranslationInDesigner | AddTranslation/TranslationResourcesManagement/TranslationResourcesManager.cs:368-449 | The written file is the specified legacy rename, and the namespace comes from the lines scanned before the window; a text is one line (see Left out). |
| ResourcesManager.TranslationResourcesManager.SearchThroughWindow | AddTranslation/TranslationResourcesManagement/TranslationResourcesManager.cs:388-422 | Stops at the first declaration from the fourth line on, having written everything before the window. |
| ResourcesManager.CopyRest | AddTranslation/TranslationResourcesManagement/TranslationResourcesManager.cs:424-425 | The final loop appends every remaining line. |
| ResourcesManager.RenameAt | AddTranslation/TranslationResourcesManagement/TranslationResourcesManager.cs:403-425 | Once the declaration is found, rewriting the window and copying the rest gives the specified legacy rename. |
| ViewModel.ValidateTranslationKey | src/AddTranslation.Core/AddTranslationViewModel.cs:297-308 | An empty or whitespace key gets the empty message first, then a key with whitespace gets the whitespace message. The result is one of the four messages, and "" exactly for a valid key. |
| ViewModel.SortedByKeyIsByDistance | src/AddTranslation.Core/AddTranslationViewModel.cs:203-208 | A permutation sorted by the comparer's key is sorted by distance to the typed text. |
| ViewModel.AddTranslationViewModel.constructor | src/AddTranslation.Core/AddTranslationViewModel.cs:34-51 | Empty list, nothing selected, nothing typed, no edition. |
| ViewModel.AddTranslationViewModel.SetTranslationKey | src/AddTranslation.Core/AddTranslationViewModel.cs:87-140 | A changed key sets the error text to the validation result, so the key is correct exactly when it is valid; an unchanged key changes nothing. |
| ViewModel.AddTranslationViewModel.SetTranslationText | src/AddTranslation.Core/AddTranslationViewModel.cs:142-151 | A changed text re-sorts the list by distance to it; the list stays a permutation. |
| ViewModel.AddTranslationViewModel.SortTranslations | src/AddTranslation.Core/AddTranslationViewModel.cs:203-208 | The list becomes a permutation of itself in non-decreasing distance from the typed text. |
| ViewModel.AddTranslationViewModel.SetSelectedTranslation | src/AddTranslation.Core/AddTranslationViewModel.cs:112-128 | Reselecting does nothing. Leaving a translation under edition restores its key and text from the snapshot and clears its flag; with no snapshot that dereference throws. |
| ViewModel.AddTranslationViewModel.EditTranslation | src/AddTranslation.Core/AddTranslationViewModel.cs:275-280 | Marks the translation as under edition and keeps a fresh copy of it. |
| ViewModel.AddTranslationViewModel.CancelTranslationEdit | src/AddTranslation.Core/AddTranslationViewModel.cs:282-289 | Restores key and text from the snapshot, clears the flag and drops the snapshot. With no snapshot it throws and nothing changes. |
| ViewModel.AddTranslationViewModel.EditThenCancel | src/AddTranslation.Core/AddTranslationViewModel.cs:275-289 | Edit followed by cancel, whether or not the translation was already under edition, gives back the key and text, not under edition, no snapshot. |
| ViewModel.AddTranslationViewModel.SaveTranslationEdit | src/AddTranslation.Core/AddTranslationViewModel.cs:243-273 | No language, no snapshot or an invalid key returns with the edit in progress. Otherwise the edition ends, and a failed update reverts key and text. |
| ViewModel.AddTranslationViewModel.SaveNewTranslation | src/AddTranslation.Core/AddTranslationViewModel.cs:210-235 | No language or an existing key saves nothing. A successful save resets key and text to "" and reloads the list. |

## Left out

- `ClosestStringMatch` (the legacy copy of the distance used by `GetAllSimilairTranslations`) is not part of this model; its distance is a function parameter there.
- Reading and writing XML (`TrySaveTranslation`, node creation and update), the `.csproj` handling, message boxes and file dialogs: the files are sequences of lines or of parsed `data` nodes, and dialog answers are parameters.
- `File.Exists`, `Directory.Exists` and `File.Replace`/`Delete`/`Move`: existence is a parameter, and replacing a file is a boolean outcome.
- Null strings other than the validated key and the optional query: names and texts are never null in the model.
- Culture-sensitive `ToLower`, `IndexOf` and `string.Compare(…, true)`: ASCII lower-casing and ordinal comparison only.
- Culture-sensitive `StartsWith(string)` and `EndsWith(string)` (the designer and resource file tests of `Project.cs` lines 137, 151, 193, 269 and 289, and the namespace test of `TranslationResourcesManager.cs` line 359): the model compares ordinally.
- FindClosestString.LevenshteinDistance: a string is a sequence of Unicode scalar values, while `string.Length` and the indexer (`FindClosestString.cs` lines 43-44) count UTF-16 code units; a character outside the Basic Multilingual Plane counts once here and twice in .NET, so distances differ for such text.
- FindClosestString.BestWordMatch: the initial best `s2.Length` (`FindClosestString.cs` line 75) is a count of scalar values, not of UTF-16 code units, for the same reason.
- FindClosestString.ValueWords: inherits the scalar-value length of BestWordMatch and LevenshteinDistance.
- FindClosestString.GetDistance: the length difference (`FindClosestString.cs` line 24) and both inner terms count scalar values, not UTF-16 code units.
- Projects.WithCulture: selects resource files by equal culture tags, while `Project.cs` lines 86 and 93 compare `CultureInfo.LCID`; distinct tags that share an LCID (such as the 4096 .NET gives locales without one of their own) make the source's `Single` throw, and the model selects only the file with the equal tag.
- ResourceFiles.CultureOf: accepts any name part as a culture tag; `new CultureInfo(…)` (`AddTranslationCore/Model/ResourceFile.cs` line 47) throws for a name .NET does not know, and the model does not produce that failure.
- Projects.Project.WriteNewPropertyToDesignerFile: a translation text is taken to be one line. The source writes the text as it is (`Project.cs` line 207), so a text holding a line break writes further file lines, and the later ones lack the `///` prefix; the eight lines per block, the line count and the positions are stated for single-line texts only.
- DesignerFiles.PropertyBlock: eight file lines only for a text without a line break, for the same reason.
- ResourcesManager.TranslationResourcesManager.AddTranslationInDesigner: a translation text is taken to be one line. The source writes it after `/// ` (`TranslationResourcesManager.cs` line 491), so a text holding a line break adds file lines without `///`; the ten-line block and the shape of the output hold for single-line texts only.
- ResourcesManager.LegacyPropertyBlock: ten file lines only for a text without a line break, for the same reason.
- ResourcesManager.TranslationResourcesManager.UpdateTranslationInDesigner: the new text appended to the comment line two ahead of the declaration (`TranslationResourcesManager.cs` line 409) is taken to be one line; with a line break the file gains lines, and the kept line count and the changed positions no longer describe the file.
- ResourcesManager.RewrittenWindow: five file lines only for a new text without a line break, for the same reason.
- DesignerFiles.RenamedAt: the new text that replaces the old one in the held comment lines (`Project.cs` line 290) is taken to be one line; with a line break the kept line count no longer describes the file.
- Projects.Project.UpdatePropertyInDesignerFile: the old key is matched as literal text. The source formats it unescaped into the property and return patterns (`Project.cs` lines 281 and 302), so `.` in a key matches any character (the key `a.b` also finds `a_b`) and a key such as `a(b` makes `Regex` throw, giving false; neither is modelled.
- DesignerFiles.PropertyLine and DesignerFiles.ReturnLine: literal matches of the key, for the same reason.
- Line terminators: a file is its sequence of lines, and the `\n` inside the property format becomes separate lines.
- `CodeDomProvider.IsValidIdentifier` and `String.GetHashCode` are function parameters.
- Floating-point rounding: distances are exact reals.
- The unused `missingEngTranslations` list in the legacy `GetTranslations`.
- ViewModel.AddTranslationViewModel.SaveNewTranslation: does not build the `Translation` object handed to the project; the project's answer and the reloaded list are parameters.
- `SetAvailableLanguages`, `SetTranslations`, `LoadProjects`, `SelectedProject` and the duplicated-keys event: project selection and UI refresh.
- ViewModel.AddTranslationViewModel.SortTranslations: states a sorted permutation and no stability, because `List.Sort` is not stable; the model sorts with a stable insertion sort.
- `CheckIfTranslationKetExists`, `GetTranslation` and `GetTranslations` of `Project` are one-line delegations to the resource file and are not modelled separately.
- Projects.Project.CheckIfIsCorrectResourcesProject: after a failure (an exception from a resource file) the resource list is not stated.

## Findings

| source | as written | input that shows it | evidently intended | confidence | as-written member | corrected member |
|---|---|---|---|---|---|---|
| AddTranslation/TranslationResourcesManagement/TranslationResourcesManager.cs:672 | A designer file picked in the dialog is stored in `_englishResPath`, and `_designerPath` stays null | default path `C:\p\Strings.resx` with no `Strings.Designer.cs` present and `C:\p\Strings.Designer.cs` picked | store the picked file in `_designerPath` | not executed | ResourcesManager.TranslationResourcesManager.ValidateDesignerFileAsWritten, ResourcesManager.DesignerChoiceIsLost | ResourcesManager.TranslationResourcesManager.ValidateDesignerFile |
