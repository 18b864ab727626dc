/**
  A project that holds translations: the search for the directory with the resource set (one
  `.Designer.cs` file and the `.resx` files named after it), the two rewriters of the designer
  file, and the order in which saving and renaming touch the resource file and the designer.
  A directory is a tree value; a file's contents are the sequence of its lines.
 */
module Projects {
  import opened Wrappers
  import opened Text
  import opened DesignerFiles
  import opened ResourceFiles
  import opened Translations
  import opened Collections

  const DesignerExtension := ".Designer.cs"
  const ResExtension := ".resx"
  const BinDirectoryName := "bin"
  const ObjDirectoryName := "obj"

  /** A directory as `Directory.GetFiles` and `Directory.GetDirectories` list it: full paths. */
  datatype Directory = Directory(path: string, files: seq<string>, subdirectories: seq<Directory>)

  /** What the search ends with: a resource set, none, or the exception a resource file throws. */
  datatype ScanOutcome = Found | NotFound | Failed(error: ResourceError)

  // ---------------------------------------------------------------------------------------------
  // One directory

  /** `Path.Combine(directory, name)` for a relative `name`. */
  function Combine(directory: string, name: string): (r: string)
    ensures EndsWith(r, name)
  {
    if |directory| == 0 then name
    else if directory[|directory| - 1] in {'\\', '/', ':'} then directory + name
    else directory + "\\" + name
  }

  /** The search never enters the output folders of the directory it is in. */
  predicate Skipped(parent: string, child: string) {
    child == Combine(parent, BinDirectoryName) || child == Combine(parent, ObjDirectoryName)
  }

  /** The designer files among `files`, in listing order. */
  function DesignerFilesIn(files: seq<string>): (r: seq<string>)
    ensures forall i :: 0 <= i < |r| ==> EndsWith(r[i], DesignerExtension)
  {
    if |files| == 0 then []
    else
      var last := files[|files| - 1];
      DesignerFilesIn(files[..|files| - 1]) + (if EndsWith(last, DesignerExtension) then [last] else [])
  }

  /** The designer files are exactly the files named `*.Designer.cs`. */
  lemma {:induction false} DesignerFilesInMembers(files: seq<string>)
    ensures forall p :: p in DesignerFilesIn(files) <==> p in files && EndsWith(p, DesignerExtension)
  {
    if |files| > 0 {
      var init, last := files[..|files| - 1], files[|files| - 1];
      DesignerFilesInMembers(init);
      SplitLast(files);
    }
  }

  /** The designer's file name without its extension: every resource file name starts with it. */
  function BaseName(designer: string): string
    requires EndsWith(designer, DesignerExtension)
  {
    FileName(designer[..|designer| - |DesignerExtension|])
  }

  /** A resource file of the set: its name starts with the base name and ends with `.resx`. */
  predicate IsResourceOf(path: string, base: string) {
    StartsWith(FileName(path), base) && EndsWith(FileName(path), ResExtension)
  }

  /** `string.Compare(fileName, base + ".resx", true) == 0`. */
  predicate IsMainOf(path: string, base: string) {
    ToLower(FileName(path)) == ToLower(base + ResExtension)
  }

  /** For a resource file, the case-insensitive test is plain equality: the name is `<base>.resx`. */
  lemma MainIsExactName(path: string, base: string)
    requires IsResourceOf(path, base)
    ensures IsMainOf(path, base) <==> FileName(path) == base + ResExtension
  {
    var name := FileName(path);
    if IsMainOf(path, base) {
      assert |name| == |base + ResExtension|;
      assert name == name[..|base|] + name[|base|..];
    }
  }

  /**
    The resource files in the order the scan lists them: reading `files` in order, the main
    resource is put in front and every other one is appended.
   */
  function Listed(files: seq<string>, base: string): (r: seq<string>)
  {
    if |files| == 0 then []
    else
      var last := files[|files| - 1];
      var rest := Listed(files[..|files| - 1], base);
      if !IsResourceOf(last, base) then rest
      else if IsMainOf(last, base) then [last] + rest
      else rest + [last]
  }

  /** The listing holds exactly the resource files of the set. */
  lemma {:induction false} ListedMembers(files: seq<string>, base: string)
    ensures forall p :: p in Listed(files, base) <==> p in files && IsResourceOf(p, base)
  {
    if |files| > 0 {
      var init, last := files[..|files| - 1], files[|files| - 1];
      ListedMembers(init, base);
      SplitLast(files);
    }
  }

  /** The main resource files among `files`, in listing order. */
  function Mains(files: seq<string>, base: string): seq<string> {
    if |files| == 0 then []
    else
      var last := files[|files| - 1];
      Mains(files[..|files| - 1], base) + (if IsResourceOf(last, base) && IsMainOf(last, base) then [last] else [])
  }

  /** The other resource files among `files`, in listing order. */
  function Others(files: seq<string>, base: string): seq<string> {
    if |files| == 0 then []
    else
      var last := files[|files| - 1];
      Others(files[..|files| - 1], base) + (if IsResourceOf(last, base) && !IsMainOf(last, base) then [last] else [])
  }

  function Reverse(s: seq<string>): (r: seq<string>)
    ensures |r| == |s|
  {
    if |s| == 0 then [] else [s[|s| - 1]] + Reverse(s[..|s| - 1])
  }

  /**
    The listing is the main resources, last listed first, followed by the other resource files
    in listing order.
   */
  lemma {:induction false} ListedIsMainsThenOthers(files: seq<string>, base: string)
    ensures Listed(files, base) == Reverse(Mains(files, base)) + Others(files, base)
  {
    if |files| > 0 {
      var init, last := files[..|files| - 1], files[|files| - 1];
      ListedIsMainsThenOthers(init, base);
      var m := Mains(init, base);
      if !IsResourceOf(last, base) {
        assert Listed(files, base) == Listed(init, base);
        assert Mains(files, base) == m && Others(files, base) == Others(init, base);
      } else if IsMainOf(last, base) {
        assert Listed(files, base) == [last] + Listed(init, base);
        assert Mains(files, base) == m + [last] && Others(files, base) == Others(init, base);
        assert (m + [last])[..|m|] == m;
        assert Reverse(m + [last]) == [last] + Reverse(m);
      } else {
        assert Listed(files, base) == Listed(init, base) + [last];
        assert Mains(files, base) == m && Others(files, base) == Others(init, base) + [last];
      }
    }
  }

  /** With one main resource, it comes first and the others follow in listing order. */
  lemma MainResourceFirst(files: seq<string>, base: string, main: string)
    requires Mains(files, base) == [main]
    ensures Listed(files, base) == [main] + Others(files, base)
  {
    ListedIsMainsThenOthers(files, base);
    assert Reverse([main]) == [main] + Reverse([]);
  }

  /** Every non-main resource file of the set names a culture. */
  predicate CulturesParse(files: seq<string>, base: string) {
    |files| == 0 ||
      (CulturesParse(files[..|files| - 1], base) &&
       (IsResourceOf(files[|files| - 1], base) && !IsMainOf(files[|files| - 1], base) ==>
          CultureOf(files[|files| - 1], false).Success?))
  }

  /** Reading file `k` of the listing: it is dropped, put in front, or appended. */
  lemma ListedStep(files: seq<string>, k: nat, base: string)
    requires k < |files|
    ensures Listed(files[..k + 1], base) ==
      if !IsResourceOf(files[k], base) then Listed(files[..k], base)
      else if IsMainOf(files[k], base) then [files[k]] + Listed(files[..k], base)
      else Listed(files[..k], base) + [files[k]]
    ensures CulturesParse(files[..k + 1], base) <==>
      CulturesParse(files[..k], base) &&
      (IsResourceOf(files[k], base) && !IsMainOf(files[k], base) ==> CultureOf(files[k], false).Success?)
  {
    assert files[..k + 1][..k] == files[..k];
  }

  /** A file whose culture cannot be read makes the whole listing fail, whatever follows it. */
  lemma {:induction false} CulturesParsePrefix(files: seq<string>, base: string, k: nat)
    requires k <= |files| && CulturesParse(files, base)
    ensures CulturesParse(files[..k], base)
    decreases |files| - k
  {
    if k < |files| {
      assert files[..|files| - 1][..k] == files[..k];
      CulturesParsePrefix(files[..|files| - 1], base, k);
    } else {
      assert files[..k] == files;
    }
  }

  /**
    `CheckIfDirectoryContainsRequiredFiles`: found when there is exactly one designer file and at
    least one resource file; a resource file without a culture throws.
   */
  function DirectoryOutcome(d: Directory): (r: ScanOutcome)
    ensures r.Failed? ==> r.error == NoCultureInFileName
  {
    var ds := DesignerFilesIn(d.files);
    if |ds| != 1 then NotFound
    else
      var base := BaseName(ds[0]);
      if !CulturesParse(d.files, base) then Failed(NoCultureInFileName)
      else if |Listed(d.files, base)| == 0 then NotFound
      else Found
  }

  /**
    A directory is found to hold the resources exactly when it has one designer file, every
    resource file named after it has a culture, and there is at least one such file.
   */
  lemma DirectoryOutcomeFound(d: Directory)
    ensures DirectoryOutcome(d) == Found <==>
      |DesignerFilesIn(d.files)| == 1 && CulturesParse(d.files, BaseName(DesignerFilesIn(d.files)[0]))
      && exists i :: 0 <= i < |d.files| && IsResourceOf(d.files[i], BaseName(DesignerFilesIn(d.files)[0]))
  {
    var ds := DesignerFilesIn(d.files);
    if |ds| == 1 {
      var base := BaseName(ds[0]);
      ListedMembers(d.files, base);
      if |Listed(d.files, base)| == 0 {
        forall i | 0 <= i < |d.files|
          ensures !IsResourceOf(d.files[i], base)
        {
          assert d.files[i] in d.files;
        }
      } else {
        assert Listed(d.files, base)[0] in Listed(d.files, base);
      }
    }
  }

  // ---------------------------------------------------------------------------------------------
  // The search

  /** The state the scan leaves: its outcome, the designer path, and the resource list. */
  datatype ScanState = ScanState(outcome: ScanOutcome, designer: Option<string>, resources: seq<string>)

  /** The state after checking one directory, starting from designer path `designer`. */
  function CheckedState(d: Directory, designer: Option<string>): ScanState {
    var ds := DesignerFilesIn(d.files);
    if |ds| != 1 then ScanState(NotFound, designer, [])
    else ScanState(DirectoryOutcome(d), Some(ds[0]), Listed(d.files, BaseName(ds[0])))
  }

  /** `CheckIfIsCorrectResourcesProject` on an existing directory. */
  function SearchState(d: Directory, designer: Option<string>): ScanState
    decreases d
  {
    var s := CheckedState(d, designer);
    if s.outcome != NotFound then s else ChildrenState(d.path, d.subdirectories, 0, s)
  }

  /** The loop over the subdirectories from the `i`-th on, after the state `s`. */
  function ChildrenState(parent: string, ds: seq<Directory>, i: nat, s: ScanState): ScanState
    requires i <= |ds|
    decreases ds, |ds| - i
  {
    if i == |ds| then s
    else if Skipped(parent, ds[i].path) then ChildrenState(parent, ds, i + 1, s)
    else
      var s' := SearchState(ds[i], s.designer);
      if s'.outcome != NotFound then s' else ChildrenState(parent, ds, i + 1, s')
  }

  /** The loop over the subdirectories ends with the state it has reached. */
  lemma ChildrenStateDone(parent: string, ds: seq<Directory>, s: ScanState)
    ensures ChildrenState(parent, ds, |ds|, s) == s
  {
  }

  /** One step of the loop over the subdirectories. */
  lemma ChildrenStateStep(parent: string, ds: seq<Directory>, i: nat, s: ScanState)
    requires i < |ds|
    ensures Skipped(parent, ds[i].path) ==> ChildrenState(parent, ds, i, s) == ChildrenState(parent, ds, i + 1, s)
    ensures !Skipped(parent, ds[i].path) ==>
      var s' := SearchState(ds[i], s.designer);
      ChildrenState(parent, ds, i, s) == if s'.outcome != NotFound then s' else ChildrenState(parent, ds, i + 1, s')
  {
  }

  /** The directories in the order the search checks them when none of them decides it. */
  function Visited(d: Directory): seq<Directory>
    decreases d
  {
    [d] + VisitedChildren(d.path, d.subdirectories, 0)
  }

  function VisitedChildren(parent: string, ds: seq<Directory>, i: nat): seq<Directory>
    requires i <= |ds|
    decreases ds, |ds| - i
  {
    if i == |ds| then []
    else (if Skipped(parent, ds[i].path) then [] else Visited(ds[i])) + VisitedChildren(parent, ds, i + 1)
  }

  /** The outcome of the first directory in `ds` that is not `NotFound`. */
  function FirstDecisive(ds: seq<Directory>): ScanOutcome {
    if |ds| == 0 then NotFound
    else if DirectoryOutcome(ds[0]) != NotFound then DirectoryOutcome(ds[0])
    else FirstDecisive(ds[1..])
  }

  lemma {:induction false} FirstDecisiveAppend(a: seq<Directory>, b: seq<Directory>)
    ensures FirstDecisive(a + b) == if FirstDecisive(a) != NotFound then FirstDecisive(a) else FirstDecisive(b)
    decreases |a|
  {
    if |a| == 0 {
      assert a + b == b;
    } else {
      assert (a + b)[1..] == a[1..] + b;
      FirstDecisiveAppend(a[1..], b);
    }
  }

  /**
    The search is a pre-order walk that skips `bin` and `obj` and stops at the first directory that
    holds a resource set or throws.
   */
  lemma {:induction false} SearchIsPreorder(d: Directory, designer: Option<string>)
    ensures SearchState(d, designer).outcome == FirstDecisive(Visited(d))
    decreases d
  {
    var s := CheckedState(d, designer);
    assert s.outcome == DirectoryOutcome(d);
    FirstDecisiveAppend([d], VisitedChildren(d.path, d.subdirectories, 0));
    assert FirstDecisive([d]) == DirectoryOutcome(d) by {
      assert [d][1..] == [];
    }
    if s.outcome == NotFound {
      ChildrenArePreorder(d.path, d.subdirectories, 0, s);
    }
  }

  lemma {:induction false} ChildrenArePreorder(parent: string, ds: seq<Directory>, i: nat, s: ScanState)
    requires i <= |ds| && s.outcome == NotFound
    ensures ChildrenState(parent, ds, i, s).outcome == FirstDecisive(VisitedChildren(parent, ds, i))
    decreases ds, |ds| - i
  {
    if i < |ds| {
      var here := if Skipped(parent, ds[i].path) then [] else Visited(ds[i]);
      FirstDecisiveAppend(here, VisitedChildren(parent, ds, i + 1));
      if Skipped(parent, ds[i].path) {
        ChildrenArePreorder(parent, ds, i + 1, s);
      } else {
        var s' := SearchState(ds[i], s.designer);
        SearchIsPreorder(ds[i], s.designer);
        if s'.outcome == NotFound {
          ChildrenArePreorder(parent, ds, i + 1, s');
        }
      }
    }
  }

  /** Whatever a skipped `bin` or `obj` directory holds, the search ends the same way. */
  lemma {:induction false} SkippedDirectoryIgnored(parent: string, ds: seq<Directory>, k: nat, other: Directory, i: nat, s: ScanState)
    requires k < |ds| && i <= |ds| && Skipped(parent, ds[k].path) && other.path == ds[k].path
    ensures ChildrenState(parent, ds, i, s) == ChildrenState(parent, ds[k := other], i, s)
    decreases |ds| - i
  {
    if i < |ds| {
      SkippedDirectoryIgnored(parent, ds, k, other, i + 1, s);
      if i != k && !Skipped(parent, ds[i].path) {
        var s' := SearchState(ds[i], s.designer);
        if s'.outcome == NotFound {
          SkippedDirectoryIgnored(parent, ds, k, other, i + 1, s');
        }
      }
    }
  }

  /** The scan clears the list first, so it never ends without a resource set and with a non-empty list. */
  lemma {:induction false} NotFoundLeavesNoResources(d: Directory, designer: Option<string>)
    ensures SearchState(d, designer).outcome == NotFound ==> SearchState(d, designer).resources == []
    decreases d
  {
    var s := CheckedState(d, designer);
    if s.outcome == NotFound {
      assert s.resources == [] by {
        var ds := DesignerFilesIn(d.files);
        if |ds| == 1 {
          assert |Listed(d.files, BaseName(ds[0]))| == 0;
        }
      }
      ChildrenNotFoundEmpty(d.path, d.subdirectories, 0, s);
    }
  }

  lemma {:induction false} ChildrenNotFoundEmpty(parent: string, ds: seq<Directory>, i: nat, s: ScanState)
    requires i <= |ds| && s.outcome == NotFound && s.resources == []
    ensures ChildrenState(parent, ds, i, s).outcome == NotFound ==> ChildrenState(parent, ds, i, s).resources == []
    decreases ds, |ds| - i
  {
    if i < |ds| {
      if Skipped(parent, ds[i].path) {
        ChildrenNotFoundEmpty(parent, ds, i + 1, s);
      } else {
        var s' := SearchState(ds[i], s.designer);
        NotFoundLeavesNoResources(ds[i], s.designer);
        if s'.outcome == NotFound {
          ChildrenNotFoundEmpty(parent, ds, i + 1, s');
        }
      }
    }
  }

  // ---------------------------------------------------------------------------------------------
  // The project

  function Paths(files: seq<ResourceFile>): (r: seq<string>)
    ensures |r| == |files| && forall i :: 0 <= i < |files| ==> r[i] == files[i].fullPath
  {
    seq(|files|, i requires 0 <= i < |files| => files[i].fullPath)
  }

  function Cultures(files: seq<ResourceFile>): (r: seq<Culture>)
    ensures |r| == |files| && forall i :: 0 <= i < |files| ==> r[i] == files[i].cultureInfo
  {
    seq(|files|, i requires 0 <= i < |files| => files[i].cultureInfo)
  }

  /** The files of a culture (`Single` throws unless there is exactly one). */
  function WithCulture(files: seq<ResourceFile>, language: Culture): (r: seq<ResourceFile>)
    ensures forall i :: 0 <= i < |r| ==> r[i] in files && r[i].cultureInfo == language
    ensures forall i :: 0 <= i < |files| && files[i].cultureInfo == language ==> files[i] in r
  {
    if |files| == 0 then []
    else
      assert files == [files[0]] + files[1..];
      (if files[0].cultureInfo == language then [files[0]] else []) + WithCulture(files[1..], language)
  }

  /** A listed file knows whether it is the main resource, and its culture is the one its name gives. */
  predicate DescribesFile(file: ResourceFile, base: string)
    reads file
  {
    file.isMainResource == IsMainOf(file.fullPath, base)
    && CultureOf(file.fullPath, file.isMainResource) == Success(file.cultureInfo)
  }

  /** Putting one more file in front of a listing that describes its files. */
  lemma ListingGrowsFront(file: ResourceFile, listed: seq<ResourceFile>, base: string)
    requires DescribesFile(file, base)
    requires forall i :: 0 <= i < |listed| ==> DescribesFile(listed[i], base)
    ensures Paths([file] + listed) == [file.fullPath] + Paths(listed)
    ensures forall i :: 0 <= i < |[file] + listed| ==> DescribesFile(([file] + listed)[i], base)
  {
    var r := [file] + listed;
    assert forall i :: 1 <= i < |r| ==> r[i] == listed[i - 1];
  }

  /** Putting one more file behind a listing that describes its files. */
  lemma ListingGrowsBack(file: ResourceFile, listed: seq<ResourceFile>, base: string)
    requires DescribesFile(file, base)
    requires forall i :: 0 <= i < |listed| ==> DescribesFile(listed[i], base)
    ensures Paths(listed + [file]) == Paths(listed) + [file.fullPath]
    ensures forall i :: 0 <= i < |listed + [file]| ==> DescribesFile((listed + [file])[i], base)
  {
    var r := listed + [file];
    assert forall i :: 0 <= i < |listed| ==> r[i] == listed[i];
  }

  class Project {
    const projectName: string
    const fullPathToProjectFile: string
    var isValidResourcesProject: bool
    var availableLanguages: seq<Culture>
    var designerFullPath: Option<string>
    var resourceFiles: seq<ResourceFile>

    /** The fields before the scan. */
    constructor(fullPathToProjectFile: string, projectName: string)
      ensures this.fullPathToProjectFile == fullPathToProjectFile && this.projectName == projectName
      ensures !isValidResourcesProject && availableLanguages == [] && designerFullPath.None? && resourceFiles == []
    {
      this.fullPathToProjectFile := fullPathToProjectFile;
      this.projectName := projectName;
      isValidResourcesProject := false;
      availableLanguages := [];
      designerFullPath := None;
      resourceFiles := [];
    }

    /**
      `new Project(fullPathToProjectFile, projectName)`: scans the project's directory
      (`None` when it does not exist); an exception from a resource file escapes.
     */
    static method New(fullPathToProjectFile: string, projectName: string, projectDirectory: Option<Directory>)
      returns (r: Result<Project, ResourceError>)
      ensures projectDirectory.None? ==> r.Success? && !r.value.isValidResourcesProject && r.value.resourceFiles == []
      ensures projectDirectory.Some? ==>
        var s := SearchState(projectDirectory.value, None);
        (r.Failure? <==> s.outcome.Failed?)
        && (r.Failure? ==> r.error == s.outcome.error)
        && (r.Success? ==> (fresh(r.value) && r.value.isValidResourcesProject == (s.outcome == Found)
              && r.value.designerFullPath == s.designer && Paths(r.value.resourceFiles) == s.resources
              && r.value.fullPathToProjectFile == fullPathToProjectFile && r.value.projectName == projectName))
    {
      var p := new Project(fullPathToProjectFile, projectName);
      var outcome := p.CheckIfIsCorrectResourcesProject(projectDirectory);
      if outcome.Failed? {
        return Failure(outcome.error);
      }
      p.isValidResourcesProject := outcome == Found;
      return Success(p);
    }

    /** `CheckIfIsCorrectResourcesProject`: false for a missing directory, otherwise the search. */
    method CheckIfIsCorrectResourcesProject(directory: Option<Directory>) returns (outcome: ScanOutcome)
      modifies this
      ensures directory.None? ==> (outcome == NotFound && resourceFiles == old(resourceFiles)
        && designerFullPath == old(designerFullPath) && availableLanguages == old(availableLanguages))
      ensures directory.Some? ==>
        var s := SearchState(directory.value, old(designerFullPath));
        outcome == s.outcome && designerFullPath == s.designer
        && (!outcome.Failed? ==> Paths(resourceFiles) == s.resources)
        && availableLanguages == if outcome == Found then Cultures(resourceFiles) else old(availableLanguages)
      ensures isValidResourcesProject == old(isValidResourcesProject)
    {
      if directory.None? {
        return NotFound;
      }
      outcome := SearchDirectory(directory.value);
    }

    /** The recursion of `CheckIfIsCorrectResourcesProject` below the existence test. */
    method SearchDirectory(d: Directory) returns (outcome: ScanOutcome)
      modifies this
      ensures var s := SearchState(d, old(designerFullPath));
        outcome == s.outcome && designerFullPath == s.designer
        && (!outcome.Failed? ==> Paths(resourceFiles) == s.resources)
        && availableLanguages == if outcome == Found then Cultures(resourceFiles) else old(availableLanguages)
      ensures isValidResourcesProject == old(isValidResourcesProject)
      decreases d, 2
    {
      outcome := CheckIfDirectoryContainsRequiredFiles(d);
      if outcome != NotFound {
        return;
      }
      outcome := SearchSubdirectories(d, CheckedState(d, old(designerFullPath)));
    }

    /** The loop of `CheckIfIsCorrectResourcesProject` over the subdirectories, skipping `bin` and `obj`. */
    method SearchSubdirectories(d: Directory, ghost start: ScanState) returns (outcome: ScanOutcome)
      modifies this
      requires start.outcome == NotFound && designerFullPath == start.designer && Paths(resourceFiles) == start.resources
      ensures var s := ChildrenState(d.path, d.subdirectories, 0, start);
        outcome == s.outcome && designerFullPath == s.designer
        && (!outcome.Failed? ==> Paths(resourceFiles) == s.resources)
        && availableLanguages == if outcome == Found then Cultures(resourceFiles) else old(availableLanguages)
      ensures isValidResourcesProject == old(isValidResourcesProject)
      decreases d, 1
    {
      ghost var current := start;
      outcome := NotFound;
      var i := 0;
      while i < |d.subdirectories|
        invariant i <= |d.subdirectories|
        invariant current.outcome == NotFound && outcome == NotFound
        invariant ChildrenState(d.path, d.subdirectories, i, current) == ChildrenState(d.path, d.subdirectories, 0, start)
        invariant designerFullPath == current.designer && Paths(resourceFiles) == current.resources
        invariant availableLanguages == old(availableLanguages) && isValidResourcesProject == old(isValidResourcesProject)
      {
        outcome, current := SearchChild(d, i, current);
        if outcome != NotFound {
          return;
        }
        i := i + 1;
      }
      ChildrenStateDone(d.path, d.subdirectories, current);
    }

    /** One pass of that loop: a `bin` or `obj` directory is skipped, any other one searched. */
    method SearchChild(d: Directory, i: nat, ghost current: ScanState) returns (outcome: ScanOutcome, ghost next: ScanState)
      modifies this
      requires i < |d.subdirectories|
      requires current.outcome == NotFound && designerFullPath == current.designer && Paths(resourceFiles) == current.resources
      ensures outcome != NotFound ==>
        var s := ChildrenState(d.path, d.subdirectories, i, current);
        outcome == s.outcome && designerFullPath == s.designer
        && (!outcome.Failed? ==> Paths(resourceFiles) == s.resources)
        && availableLanguages == if outcome == Found then Cultures(resourceFiles) else old(availableLanguages)
      ensures outcome == NotFound ==>
        next.outcome == NotFound && designerFullPath == next.designer && Paths(resourceFiles) == next.resources
        && ChildrenState(d.path, d.subdirectories, i, current) == ChildrenState(d.path, d.subdirectories, i + 1, next)
        && availableLanguages == old(availableLanguages)
      ensures isValidResourcesProject == old(isValidResourcesProject)
      decreases d, 0
    {
      var subdirectory := d.subdirectories[i];
      ChildrenStateStep(d.path, d.subdirectories, i, current);
      if subdirectory.path == Combine(d.path, BinDirectoryName) || subdirectory.path == Combine(d.path, ObjDirectoryName) {
        return NotFound, current;
      }
      outcome := SearchDirectory(subdirectory);
      next := SearchState(subdirectory, current.designer);
    }

    /**
      `CheckIfDirectoryContainsRequiredFiles`: clears the list; with exactly one designer file,
      records its path and lists the resource files named after it, main resource first.
     */
    method CheckIfDirectoryContainsRequiredFiles(d: Directory) returns (outcome: ScanOutcome)
      modifies this
      ensures outcome == DirectoryOutcome(d)
      ensures var s := CheckedState(d, old(designerFullPath));
        designerFullPath == s.designer && (!outcome.Failed? ==> Paths(resourceFiles) == s.resources)
      ensures outcome == Found ==>
        var base := BaseName(DesignerFilesIn(d.files)[0]);
        forall i :: 0 <= i < |resourceFiles| ==> DescribesFile(resourceFiles[i], base)
      ensures availableLanguages == if outcome == Found then Cultures(resourceFiles) else old(availableLanguages)
      ensures isValidResourcesProject == old(isValidResourcesProject)
    {
      resourceFiles := [];
      var designerFiles := DesignerFilesIn(d.files);
      if |designerFiles| == 0 {
        return NotFound;
      }
      if |designerFiles| > 1 {
        return NotFound;
      }
      var designerFile := designerFiles[0];
      designerFullPath := Some(designerFile);
      var baseFileName := FileName(designerFile[..|designerFile| - |DesignerExtension|]);
      assert baseFileName == BaseName(designerFile);
      var listed, failed := ListResourceFiles(d.files, baseFileName);
      resourceFiles := listed;
      if failed {
        return Failed(NoCultureInFileName);
      }
      if |resourceFiles| <= 0 {
        return NotFound;
      }
      availableLanguages := Cultures(resourceFiles);
      return Found;
    }

    /**
      The loop of `CheckIfDirectoryContainsRequiredFiles` over the files: it stops at the first
      file whose culture cannot be read.
     */
    static method ListResourceFiles(files: seq<string>, baseFileName: string) returns (listed: seq<ResourceFile>, failed: bool)
      ensures failed <==> !CulturesParse(files, baseFileName)
      ensures !failed ==> Paths(listed) == Listed(files, baseFileName)
      ensures !failed ==> forall i :: 0 <= i < |listed| ==> DescribesFile(listed[i], baseFileName)
    {
      listed := [];
      for k := 0 to |files|
        invariant Paths(listed) == Listed(files[..k], baseFileName)
        invariant CulturesParse(files[..k], baseFileName)
        invariant forall i :: 0 <= i < |listed| ==> DescribesFile(listed[i], baseFileName)
      {
        listed, failed := ListResourceFile(files, k, baseFileName, listed);
        if failed {
          return listed, true;
        }
      }
      assert files[..|files|] == files;
      return listed, false;
    }

    /**
      One pass of that loop: a resource file named `<base>.resx` (in any case) goes in front, any
      other resource file at the end.
     */
    static method ListResourceFile(files: seq<string>, k: nat, baseFileName: string, listed: seq<ResourceFile>)
      returns (listed': seq<ResourceFile>, failed: bool)
      requires k < |files|
      requires Paths(listed) == Listed(files[..k], baseFileName) && CulturesParse(files[..k], baseFileName)
      requires forall i :: 0 <= i < |listed| ==> DescribesFile(listed[i], baseFileName)
      ensures failed ==> !CulturesParse(files, baseFileName)
      ensures !failed ==> Paths(listed') == Listed(files[..k + 1], baseFileName) && CulturesParse(files[..k + 1], baseFileName)
      ensures !failed ==> forall i :: 0 <= i < |listed'| ==> DescribesFile(listed'[i], baseFileName)
    {
      var path := files[k];
      ListedStep(files, k, baseFileName);
      var fileName := FileName(path);
      listed' := listed;
      if StartsWith(fileName, baseFileName) && EndsWith(fileName, ResExtension) {
        var isMainResource := ToLower(fileName) == ToLower(baseFileName + ResExtension);
        var created := ResourceFile.New(path, isMainResource, true);
        if created.Failure? {
          assert !CulturesParse(files, baseFileName) by {
            if CulturesParse(files, baseFileName) {
              CulturesParsePrefix(files, baseFileName, k + 1);
            }
          }
          return listed, true;
        }
        var file := created.value;
        if isMainResource {
          ListingGrowsFront(file, listed, baseFileName);
          listed' := [file] + listed;
        } else {
          ListingGrowsBack(file, listed, baseFileName);
          listed' := listed + [file];
        }
      }
      return listed', false;
    }

    // -------------------------------------------------------------------------------------------
    // Saving

    /**
      `SaveTranslation`: the file of the culture saves the translation, and only then the designer
      gets the new property. `None` when the culture has no file or several (`Single` throws);
      `resourceSaved` and `designerReplaced` are what the file write and the file swap report.
     */
    method SaveTranslation(language: Culture, newTranslation: Translation, designer: seq<string>,
                           resourceSaved: bool, designerReplaced: bool)
      returns (ok: Option<bool>, newDesigner: seq<string>)
      ensures |WithCulture(resourceFiles, language)| != 1 ==> ok.None? && newDesigner == designer
      ensures |WithCulture(resourceFiles, language)| == 1 ==> ok == Some(resourceSaved && designerReplaced)
      ensures newDesigner == if ok == Some(true) then WithProperty(designer, |designer|, newTranslation.key, newTranslation.text) else designer
    {
      if |WithCulture(resourceFiles, language)| != 1 {
        return None, designer;
      }
      if !resourceSaved {
        return Some(false), designer;
      }
      var written := WriteNewPropertyToDesignerFile(designer, newTranslation.key, newTranslation.text);
      if !designerReplaced {
        return Some(false), designer;
      }
      return Some(true), written;
    }

    /**
      `UpdateTranslation`: the file of the culture renames the translation, and only then the
      designer's property is renamed; the rename fails when a `Replace` throws.
     */
    method UpdateTranslation(language: Culture, newTranslation: Translation, originalTranslation: Translation,
                             designer: seq<string>, resourceUpdated: bool, designerReplaced: bool)
      returns (ok: Option<bool>, newDesigner: seq<string>)
      ensures |WithCulture(resourceFiles, language)| != 1 ==> ok.None? && newDesigner == designer
      ensures |WithCulture(resourceFiles, language)| == 1 ==>
        ok == Some(resourceUpdated && designerReplaced
          && Renamed(designer, originalTranslation.key, newTranslation.key, originalTranslation.text, newTranslation.text).Some?)
      ensures newDesigner == if ok == Some(true)
        then Renamed(designer, originalTranslation.key, newTranslation.key, originalTranslation.text, newTranslation.text).value
        else designer
    {
      if |WithCulture(resourceFiles, language)| != 1 {
        return None, designer;
      }
      if !resourceUpdated {
        return Some(false), designer;
      }
      var renamed := UpdatePropertyInDesignerFile(designer, originalTranslation.key, newTranslation.key,
                                                  originalTranslation.text, newTranslation.text);
      if renamed.None? || !designerReplaced {
        return Some(false), designer;
      }
      return Some(true), renamed.value;
    }

    // -------------------------------------------------------------------------------------------
    // The designer rewriters

    /**
      `WriteNewPropertyToDesignerFile`: copies the designer line by line and writes the property
      block before every line after which the class is open with no brace left unclosed.
     */
    method WriteNewPropertyToDesignerFile(lines: seq<string>, key: string, text: string) returns (written: seq<string>)
      ensures written == WithProperty(lines, |lines|, key, text)
      ensures |written| == |lines| + 8 * Insertions(lines, |lines|)
    {
      var classDeclarationRead := false;
      var openedBraces := 0;
      var line := "";
      var indentLineBefore := "";
      written := [];
      for k := 0 to |lines|
        invariant classDeclarationRead == ClassReadAfter(lines, k)
        invariant openedBraces == BracesAfter(lines, k)
        invariant line == if k == 0 then "" else lines[k - 1]
        invariant indentLineBefore == IndentBefore(lines, if k == 0 then 0 else k - 1)
        invariant written == WithProperty(lines, k, key, text)
      {
        if line != "" {
          indentLineBefore := LeadingWhiteSpace(line);
        }
        if k > 0 {
          IndentStep(lines, k);
        }
        line := lines[k];
        var block;
        classDeclarationRead, openedBraces, block :=
          ReadDesignerLine(lines, k, classDeclarationRead, openedBraces, indentLineBefore, key, text);
        WithPropertyStep(lines, k, key, text);
        ConcatAssociative(written, block, [line]);
        written := written + block + [line];
      }
      WithPropertyLength(lines, |lines|, key, text);
    }

    /**
      `UpdatePropertyInDesignerFile`: copies the designer, holding back up to five lines of the
      class; at the first property line of the old key it rewrites the held lines, that line and
      the four after it, and copies the rest.
     */
    method UpdatePropertyInDesignerFile(lines: seq<string>, oldKey: string, newKey: string, oldText: string, newText: string)
      returns (r: Option<seq<string>>)
      ensures r == Renamed(lines, oldKey, newKey, oldText, newText)
    {
      var written, queue, k, propertyFound := CopyUntilProperty(lines, oldKey);
      if propertyFound {
        r := RewriteFoundProperty(lines, k, written, queue, oldKey, newKey, oldText, newText);
        return;
      }
      while |queue| > 0
        invariant written + queue == lines
      {
        written := written + [queue[0]];
        queue := queue[1..];
      }
      assert written == lines;
      r := Some(written);
    }

    /**
      The loop of `UpdatePropertyInDesignerFile` until the property line: lines before the class
      are written, lines of the class are held back, at most five of them.
     */
    method CopyUntilProperty(lines: seq<string>, oldKey: string)
      returns (written: seq<string>, queue: seq<string>, k: nat, propertyFound: bool)
      ensures propertyFound ==> (k < |lines| && FirstPropertyMatch(lines, oldKey, 0) == Some(k)
        && written == lines[..QueueStart(lines, k)] && queue == lines[QueueStart(lines, k)..k])
      ensures !propertyFound ==> FirstPropertyMatch(lines, oldKey, 0).None? && written + queue == lines
      ensures |queue| <= 5
    {
      written, queue := [], [];
      var classDeclarationRead := false;
      k := 0;
      while k < |lines|
        invariant CopiedUntil(lines, oldKey, k, classDeclarationRead, written, queue)
      {
        var found;
        classDeclarationRead, written, queue, found := CopyOrHoldStep(lines, oldKey, k, classDeclarationRead, written, queue);
        if found {
          return written, queue, k, true;
        }
        k := k + 1;
      }
      PrefixAndRest(lines, |written|);
      return written, queue, k, false;
    }

    /** The part of `UpdatePropertyInDesignerFile` from the property line at `c` on. */
    method RewriteFoundProperty(lines: seq<string>, c: nat, written: seq<string>, queue: seq<string>,
                                oldKey: string, newKey: string, oldText: string, newText: string)
      returns (r: Option<seq<string>>)
      requires c < |lines| && FirstPropertyMatch(lines, oldKey, 0) == Some(c)
      requires written == lines[..QueueStart(lines, c)] && queue == lines[QueueStart(lines, c)..c]
      ensures r == Renamed(lines, oldKey, newKey, oldText, newText)
    {
      var out, threw := FlushHeldLines(lines, c, written, queue, oldKey, newKey, oldText, newText);
      if threw {
        return None;
      }
      if oldKey == "" {
        return None;
      }
      RenamedAtPropertyLine(lines, c, oldKey, newKey, oldText, newText);
      out := out + [ReplaceAll(lines[c], oldKey, newKey)];
      out := RewriteFollowingLines(lines, c, out, oldKey, newKey, oldText, newText);
      r := Some(out);
    }
  }

  /** Writes the held-back lines, with the old text replaced in comments; `threw` when that `Replace` throws. */
  method FlushHeldLines(lines: seq<string>, c: nat, written: seq<string>, queue: seq<string>,
                        oldKey: string, newKey: string, oldText: string, newText: string)
    returns (out: seq<string>, threw: bool)
    requires c < |lines|
    requires written == lines[..QueueStart(lines, c)] && queue == lines[QueueStart(lines, c)..c]
    ensures threw <==> oldText == "" && HasComment(queue)
    ensures !threw ==> out == RenamedAt(lines, c, oldKey, newKey, oldText, newText)[..c]
  {
    ghost var target := RenamedAt(lines, c, oldKey, newKey, oldText, newText);
    RenamedAtKeepsStart(lines, c, oldKey, newKey, oldText, newText);
    out := written;
    var held := queue;
    while |held| > 0
      invariant QueueStart(lines, c) <= |out| <= c && out == target[..|out|] && held == lines[|out|..c]
      invariant oldText == "" ==> (HasComment(held) <==> HasComment(queue))
    {
      out, held, threw := FlushHeldLine(lines, c, out, held, oldKey, newKey, oldText, newText);
      if threw {
        return out, true;
      }
    }
    return out, false;
  }

  /** One held-back line: a comment gets the old text replaced, which throws when that text is empty. */
  method FlushHeldLine(lines: seq<string>, c: nat, out: seq<string>, held: seq<string>,
                       oldKey: string, newKey: string, oldText: string, newText: string)
    returns (out': seq<string>, held': seq<string>, threw: bool)
    requires c < |lines| && QueueStart(lines, c) <= |out| < c && held == lines[|out|..c]
    requires out == RenamedAt(lines, c, oldKey, newKey, oldText, newText)[..|out|]
    ensures threw <==> oldText == "" && IsComment(held[0])
    ensures !threw ==> QueueStart(lines, c) <= |out'| <= c && held' == held[1..] && held' == lines[|out'|..c]
    ensures !threw ==> out' == RenamedAt(lines, c, oldKey, newKey, oldText, newText)[..|out'|]
  {
    var lineFromQueue := held[0];
    ghost var j := |out|;
    ghost var renamed := RenamedAt(lines, c, oldKey, newKey, oldText, newText);
    assert lineFromQueue == lines[j];
    RenamedAtHeldLine(lines, c, oldKey, newKey, oldText, newText, j);
    held' := held[1..];
    assert held' == lines[j + 1..c];
    var isComment := IsComment(lineFromQueue);
    if isComment {
      if oldText == "" {
        return out, held', true;
      }
      lineFromQueue := ReplaceAll(lineFromQueue, oldText, newText);
    }
    assert lineFromQueue == renamed[j];
    PrefixGrows(renamed, j);
    out' := out + [lineFromQueue];
    threw := false;
  }

  /** Writes the four lines after the property line, with the key replaced in return statements, then the rest. */
  method RewriteFollowingLines(lines: seq<string>, c: nat, written: seq<string>,
                               oldKey: string, newKey: string, oldText: string, newText: string)
    returns (out: seq<string>)
    requires c < |lines| && written == RenamedAt(lines, c, oldKey, newKey, oldText, newText)[..c + 1]
    ensures out == RenamedAt(lines, c, oldKey, newKey, oldText, newText)
  {
    var k;
    out, k := RewriteReturnLines(lines, c, written, oldKey, newKey, oldText, newText);
    out := CopyRenamedRest(lines, c, k, out, oldKey, newKey, oldText, newText);
  }

  /** Writes up to four lines after the property line, with the key replaced in return statements. */
  method RewriteReturnLines(lines: seq<string>, c: nat, written: seq<string>,
                            oldKey: string, newKey: string, oldText: string, newText: string)
    returns (out: seq<string>, k: nat)
    requires c < |lines| && written == RenamedAt(lines, c, oldKey, newKey, oldText, newText)[..c + 1]
    ensures c + 1 <= k <= |lines| && (k < c + 5 ==> k == |lines|)
    ensures out == RenamedAt(lines, c, oldKey, newKey, oldText, newText)[..k]
  {
    ghost var target := RenamedAt(lines, c, oldKey, newKey, oldText, newText);
    out := written;
    k := c + 1;
    var i := 0;
    while k < |lines| && i < 4
      invariant k == c + 1 + i && i <= 4 && k <= |lines|
      invariant out == target[..k]
    {
      var innerLine := lines[k];
      RenamedAtReturnLine(lines, c, oldKey, newKey, oldText, newText, k);
      if ReturnLine(innerLine, oldKey) {
        innerLine := ReplaceAll(innerLine, oldKey, newKey);
      }
      PrefixGrows(target, k);
      out := out + [innerLine];
      k := k + 1;
      i := i + 1;
    }
  }

  /** Copies the lines from `k` on, which lie five or more lines after the property line. */
  method CopyRenamedRest(lines: seq<string>, c: nat, k: nat, written: seq<string>,
                         oldKey: string, newKey: string, oldText: string, newText: string)
    returns (out: seq<string>)
    requires c + 1 <= k <= |lines| && (k < c + 5 ==> k == |lines|)
    requires written == RenamedAt(lines, c, oldKey, newKey, oldText, newText)[..k]
    ensures out == RenamedAt(lines, c, oldKey, newKey, oldText, newText)
  {
    ghost var target := RenamedAt(lines, c, oldKey, newKey, oldText, newText);
    out := written;
    var j := k;
    while j < |lines|
      invariant k <= j <= |lines| && out == target[..j]
    {
      RenamedAtLaterLine(lines, c, oldKey, newKey, oldText, newText, j);
      PrefixGrows(target, j);
      out := out + [lines[j]];
      j := j + 1;
    }
    assert out == target;
  }

  /**
    One pass of the loop of `WriteNewPropertyToDesignerFile` over line `k`: updates the class
    flag and the brace counter and returns the block to write before the line, if any.
   */
  method ReadDesignerLine(lines: seq<string>, k: nat, classDeclarationRead: bool, openedBraces: int,
                          indentLineBefore: string, key: string, text: string)
    returns (classRead: bool, braces: int, block: seq<string>)
    requires k < |lines|
    requires classDeclarationRead == ClassReadAfter(lines, k) && openedBraces == BracesAfter(lines, k)
    requires indentLineBefore == IndentBefore(lines, k)
    ensures classRead == ClassReadAfter(lines, k + 1) && braces == BracesAfter(lines, k + 1)
    ensures Chunk(lines, k, key, text) == block + [lines[k]]
  {
    var line := lines[k];
    TrimmedCommentTest(line);
    var isComment := StartsWith(Trim(line), "//");
    classRead := classDeclarationRead;
    if !isComment && ClassLine(line) {
      classRead := true;
    }
    braces := openedBraces;
    if !isComment && classRead && '{' in line {
      braces := braces + 1;
    }
    if !isComment && classRead && '}' in line {
      braces := braces - 1;
    }
    block := [];
    if classRead && braces == 0 {
      block := PropertyBlock(indentLineBefore, key, text);
    }
  }

  /** The class flag after line `k`: set by a line that is not a comment and declares a class. */
  method ReadClassDeclaration(lines: seq<string>, k: nat, classDeclarationRead: bool) returns (classRead: bool)
    requires k < |lines| && classDeclarationRead == ClassReadAfter(lines, k)
    ensures classRead == ClassReadAfter(lines, k + 1)
  {
    var line := lines[k];
    var isComment := StartsWith(TrimStart(line), "//");
    classRead := classDeclarationRead;
    if !isComment && ClassLine(line) {
      classRead := true;
    }
  }

  /**
    The state of the copy loop of `UpdatePropertyInDesignerFile` after `k` lines: the class flag,
    no property line of the old key yet, the lines before the held ones written, the rest held.
   */
  predicate CopiedUntil(lines: seq<string>, oldKey: string, k: nat, classRead: bool, written: seq<string>, queue: seq<string>) {
    k <= |lines| && classRead == ClassReadAfter(lines, k)
    && FirstPropertyMatch(lines, oldKey, 0) == FirstPropertyMatch(lines, oldKey, k)
    && |written| == HeldFrom(lines, k) && |queue| <= 5
    && written == lines[..|written|] && queue == lines[|written|..k]
  }

  /**
    One pass of the copy loop over line `k`: reads the class flag, stops at the property line,
    otherwise writes or holds the line.
   */
  method CopyOrHoldStep(lines: seq<string>, oldKey: string, k: nat, classRead: bool, written: seq<string>, queue: seq<string>)
    returns (classRead': bool, written': seq<string>, queue': seq<string>, found: bool)
    requires k < |lines| && CopiedUntil(lines, oldKey, k, classRead, written, queue)
    ensures found ==> FirstPropertyMatch(lines, oldKey, 0) == Some(k)
    ensures found ==> written' == lines[..QueueStart(lines, k)] && queue' == lines[QueueStart(lines, k)..k]
    ensures found ==> |queue'| <= 5
    ensures !found ==> CopiedUntil(lines, oldKey, k + 1, classRead', written', queue')
  {
    var line := lines[k];
    classRead' := ReadClassDeclaration(lines, k, classRead);
    if classRead' && PropertyLine(line, oldKey) {
      HeldStep(lines, k);
      return classRead', written, queue, true;
    }
    written', queue' := WriteOrHoldLine(lines, k, written, queue);
    found := false;
  }

  /** A line before the class is written; a line of the class is held back. */
  method WriteOrHoldLine(lines: seq<string>, k: nat, written: seq<string>, queue: seq<string>)
    returns (written': seq<string>, queue': seq<string>)
    requires k < |lines|
    requires |written| == HeldFrom(lines, k) && written == lines[..|written|] && queue == lines[|written|..k]
    ensures |written'| == HeldFrom(lines, k + 1) && written' == lines[..|written'|] && queue' == lines[|written'|..k + 1]
    ensures |queue'| <= 5
  {
    HeldStep(lines, k);
    if !ClassReadAfter(lines, k + 1) {
      PrefixGrows(lines, k);
      return written + [lines[k]], queue;
    }
    written', queue' := HoldLine(lines, k, written, queue);
  }

  /**
    A line of the class that is not the property line is held back; when five lines are held
    already, the oldest is written first.
   */
  method HoldLine(lines: seq<string>, k: nat, written: seq<string>, queue: seq<string>)
    returns (written': seq<string>, queue': seq<string>)
    requires k < |lines| && ClassReadAfter(lines, k + 1)
    requires |written| == HeldFrom(lines, k) && written == lines[..|written|] && queue == lines[|written|..k]
    ensures |written'| == HeldFrom(lines, k + 1) && written' == lines[..|written'|] && queue' == lines[|written'|..k + 1]
    ensures |queue'| <= 5
  {
    HeldStep(lines, k);
    written', queue' := written, queue;
    if |queue'| == 5 {
      PrefixGrows(lines, |written|);
      written' := written' + [queue'[0]];
      queue' := queue'[1..];
    }
    queue' := queue' + [lines[k]];
  }

  /** Where the held-back lines begin after `k` lines have been read. */
  function HeldFrom(lines: seq<string>, k: nat): nat
    requires k <= |lines|
  {
    if ClassStart(lines, 0) < k then QueueStart(lines, k) else k
  }

  /** The class has been read after `k` lines exactly when its declaration is among them. */
  lemma ClassReadIffStarted(lines: seq<string>, k: nat)
    requires k <= |lines|
    ensures ClassReadAfter(lines, k) <==> ClassStart(lines, 0) < k
  {
    var cs := ClassStart(lines, 0);
    if cs < k {
      ClassReadMonotone(lines, cs + 1, k);
    } else if 0 < k {
      ClassStartIsFirst(lines, 0, k);
    }
  }

  /** Reading line `k` moves the start of the held lines by at most one and keeps at most five held. */
  lemma HeldStep(lines: seq<string>, k: nat)
    requires k < |lines|
    ensures ClassReadAfter(lines, k) <==> ClassStart(lines, 0) < k
    ensures ClassReadAfter(lines, k + 1) <==> ClassStart(lines, 0) < k + 1
    ensures k - HeldFrom(lines, k) <= 5 && HeldFrom(lines, k) <= k
    ensures ClassReadAfter(lines, k + 1) ==> HeldFrom(lines, k) == QueueStart(lines, k) || HeldFrom(lines, k) == k
    ensures ClassReadAfter(lines, k + 1) ==>
      HeldFrom(lines, k + 1) == if k - HeldFrom(lines, k) == 5 then HeldFrom(lines, k) + 1 else HeldFrom(lines, k)
    ensures !ClassReadAfter(lines, k + 1) ==> HeldFrom(lines, k + 1) == k + 1
    ensures ClassReadAfter(lines, k + 1) ==> QueueStart(lines, k) == HeldFrom(lines, k)
  {
    ClassReadIffStarted(lines, k);
    ClassReadIffStarted(lines, k + 1);
  }
}
