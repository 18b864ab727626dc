/**
  A single `.resx` dictionary file: its culture, taken from the file name, and the readers that
  walk its `data` nodes. The XML document is given as the sequence of its `data` nodes, in file
  order, each with its optional `name` attribute and what the reader finds in its `value` child.
 */
module ResourceFiles {
  import opened Wrappers
  import opened Text
  import opened Collections

  /** What the reader finds inside a `data` node's `value` child. */
  datatype NodeValue =
    | NoValue                   // no `value` child, or nothing can be read after it
    | TextValue(text: string)   // a text node
    | OtherContent              // a node of another type (element, CDATA, ...)

  datatype DataNode = DataNode(name: Option<string>, value: NodeValue)

  /** The translation record the readers produce: key, text and the file's culture. */
  datatype Entry = Entry(key: string, text: string, culture: Culture)

  datatype ResourceError =
    | FileNotFound           // ArgumentException("Directory does not exist.")
    | NoCultureInFileName    // InvalidOperationException from the constructor
    | NotMainResource        // InvalidOperationException from GetTranslations

  /** `Path.GetFileName`: the text after the last directory separator. */
  function FileName(path: string): (r: string)
    ensures EndsWith(path, r)
    ensures '\\' !in r && '/' !in r
  {
    if |path| == 0 then ""
    else if path[|path| - 1] == '\\' || path[|path| - 1] == '/' then ""
    else
      var r := FileName(path[..|path| - 1]) + [path[|path| - 1]];
      assert path[..|path| - 1][|path| - 1 - (|r| - 1)..] + [path[|path| - 1]] == path[|path| - |r|..];
      r
  }

  /**
    The culture of a resource file: the invariant culture for the main resource; otherwise the
    second-to-last '.'-separated part of the file name, which needs at least three parts.
   */
  function CultureOf(fullPath: string, isMainResource: bool): (r: Result<Culture, ResourceError>)
    ensures isMainResource ==> r == Success(InvariantCulture)
    ensures !isMainResource && r.Success? ==> |Split(FileName(fullPath), {'.'})| >= 3 && '.' !in r.value
    ensures !isMainResource && r.Failure? ==> |Split(FileName(fullPath), {'.'})| < 3 && r.error == NoCultureInFileName
  {
    if isMainResource then Success(InvariantCulture)
    else
      var parts := Split(FileName(fullPath), {'.'});
      if |parts| < 3 then Failure(NoCultureInFileName)
      else
        assert parts[|parts| - 2] in parts;
        Success(parts[|parts| - 2])
  }

  /** A file named `<base>.<culture>.resx` has culture `<culture>`, whatever the directory. */
  lemma CultureOfLocalizedFile(directory: string, base: string, culture: string)
    requires forall c :: c in base ==> c != '.' && c != '\\' && c != '/'
    requires forall c :: c in culture ==> c != '.' && c != '\\' && c != '/'
    ensures CultureOf(directory + "\\" + base + "." + culture + ".resx", false) == Success(culture)
  {
    var name := base + "." + culture + ".resx";
    assert directory + "\\" + base + "." + culture + ".resx" == directory + "\\" + name;
    FileNameOfSuffix(directory, name);
    SplitThreeParts(base, culture);
  }

  lemma SplitThreeParts(base: string, culture: string)
    requires forall c :: c in base ==> c != '.'
    requires forall c :: c in culture ==> c != '.'
    ensures Split(base + "." + culture + ".resx", {'.'}) == [base, culture, "resx"]
  {
    assert base + "." + culture + ".resx" == base + ['.'] + (culture + ['.'] + "resx");
    SplitAtDelimiter(base, '.', culture + ['.'] + "resx", {'.'});
    SplitAtDelimiter(culture, '.', "resx", {'.'});
    SplitNoDelimiter(base, {'.'});
    SplitNoDelimiter(culture, {'.'});
    SplitNoDelimiter("resx", {'.'});
  }

  /** A file name with a single '.' (such as `Resources.resx`) carries no culture. */
  lemma NoCultureInShortName(directory: string, base: string)
    requires forall c :: c in base ==> c != '.' && c != '\\' && c != '/'
    ensures CultureOf(directory + "\\" + base + ".resx", false) == Failure(NoCultureInFileName)
  {
    var name := base + ".resx";
    assert directory + "\\" + base + ".resx" == directory + "\\" + name;
    FileNameOfSuffix(directory, name);
    assert name == base + ['.'] + "resx";
    SplitAtDelimiter(base, '.', "resx", {'.'});
    SplitNoDelimiter(base, {'.'});
    SplitNoDelimiter("resx", {'.'});
  }

  lemma {:induction false} FileNameOfSuffix(directory: string, name: string)
    requires '\\' !in name && '/' !in name
    ensures FileName(directory + "\\" + name) == name
    decreases |name|
  {
    var path := directory + "\\" + name;
    if |name| > 0 {
      assert path[..|path| - 1] == directory + "\\" + name[..|name| - 1];
      assert name[|name| - 1] in name;
      FileNameOfSuffix(directory, name[..|name| - 1]);
      assert name[..|name| - 1] + [name[|name| - 1]] == name;
    }
  }

  class ResourceFile {
    const fullPath: string
    const cultureInfo: Culture
    var isMainResource: bool

    /** The constructor once its checks have passed; `New` performs the checks. */
    constructor(fullPath: string, isMainResource: bool, cultureInfo: Culture)
      requires CultureOf(fullPath, isMainResource) == Success(cultureInfo)
      ensures this.fullPath == fullPath && this.isMainResource == isMainResource
      ensures this.cultureInfo == cultureInfo
    {
      this.fullPath := fullPath;
      this.isMainResource := isMainResource;
      this.cultureInfo := cultureInfo;
    }

    /**
      `new ResourceFile(fullPath, isMainResource)`: fails when the file does not exist, then when a
      non-main file name carries no culture.
     */
    static method New(fullPath: string, isMainResource: bool, fileExists: bool) returns (r: Result<ResourceFile, ResourceError>)
      ensures !fileExists ==> r == Failure(FileNotFound)
      ensures fileExists && CultureOf(fullPath, isMainResource).Failure? ==> r == Failure(NoCultureInFileName)
      ensures fileExists && CultureOf(fullPath, isMainResource).Success? ==>
        r.Success? && fresh(r.value) && r.value.fullPath == fullPath && r.value.isMainResource == isMainResource
        && r.value.cultureInfo == CultureOf(fullPath, isMainResource).value
    {
      if !fileExists {
        return Failure(FileNotFound);
      }
      var culture := CultureOf(fullPath, isMainResource);
      if culture.Failure? {
        return Failure(culture.error);
      }
      var file := new ResourceFile(fullPath, isMainResource, culture.value);
      return Success(file);
    }

    /**
      `GetTranslation`: reads the nodes in order and returns the first readable text of a node
      named `translationName`; without one, the key with empty text.
     */
    method GetTranslation(nodes: seq<DataNode>, translationName: string) returns (translation: Entry)
      ensures translation.key == translationName && translation.culture == cultureInfo
      ensures translation.text == match FirstText(nodes, translationName)
        case Some(t) => t
        case None => ""
    {
      translation := Entry(translationName, "", cultureInfo);
      var i := 0;
      while i < |nodes|
        invariant 0 <= i <= |nodes|
        invariant FirstText(nodes, translationName) == FirstText(nodes[i..], translationName)
        invariant translation == Entry(translationName, "", cultureInfo)
      {
        var node := nodes[i];
        assert nodes[i..] == [node] + nodes[i + 1..];
        i := i + 1;
        if node.name.None? {
          continue;
        }
        if node.name.value != translationName {
          continue;
        }
        if !node.value.TextValue? {
          continue;
        }
        translation := translation.(text := node.value.text);
        return;
      }
    }

    /**
      `GetTranslations`: only for the main resource. Every readable node becomes an entry, in file
      order and duplicates included; a key already read is reported once per repetition.
     */
    method GetTranslations(nodes: seq<DataNode>) returns (r: Result<seq<Entry>, ResourceError>, duplicatedKeys: seq<string>)
      ensures !isMainResource ==> r == Failure(NotMainResource) && duplicatedKeys == []
      ensures isMainResource ==> r == Success(ReadableEntries(nodes, cultureInfo))
      ensures isMainResource ==> duplicatedKeys == DuplicateKeys(Keys(r.value))
    {
      if !isMainResource {
        return Failure(NotMainResource), [];
      }
      var translations: seq<Entry> := [];
      var duplicates: seq<string> := [];
      for i := 0 to |nodes|
        invariant translations == ReadableEntries(nodes[..i], cultureInfo)
        invariant duplicates == DuplicateKeys(Keys(translations))
      {
        var node := nodes[i];
        ReadableEntriesAppend(nodes[..i], node, cultureInfo);
        assert nodes[..i + 1] == nodes[..i] + [node];
        if node.name.None? {
          continue;
        }
        if !node.value.TextValue? {
          continue;
        }
        var translation := Entry(node.name.value, node.value.text, cultureInfo);
        KeysAppend(translations, translation);
        DuplicateKeysAppend(Keys(translations), translation.key);
        if exists j :: 0 <= j < |translations| && translations[j].key == translation.key {
          duplicates := duplicates + [translation.key];
        }
        translations := translations + [translation];
      }
      assert nodes[..|nodes|] == nodes;
      return Success(translations), duplicates;
    }
  }

  predicate Readable(node: DataNode) {
    node.name.Some? && node.value.TextValue?
  }

  /** The text of the first node named `key` whose value is text, if any. */
  function FirstText(nodes: seq<DataNode>, key: string): (r: Option<string>)
    ensures r.None? <==> forall i :: 0 <= i < |nodes| ==> !(Readable(nodes[i]) && nodes[i].name.value == key)
    ensures r.Some? ==> exists i :: (0 <= i < |nodes| && Readable(nodes[i]) && nodes[i].name.value == key
      && nodes[i].value.text == r.value
      && forall j :: 0 <= j < i ==> !(Readable(nodes[j]) && nodes[j].name.value == key))
  {
    if |nodes| == 0 then None
    else if Readable(nodes[0]) && nodes[0].name.value == key then
      Some(nodes[0].value.text)
    else
      var r := FirstText(nodes[1..], key);
      assert forall i :: 1 <= i < |nodes| ==> nodes[1..][i - 1] == nodes[i];
      if r.Some? then
        var i :| 0 <= i < |nodes[1..]| && Readable(nodes[1..][i]) && nodes[1..][i].name.value == key
          && nodes[1..][i].value.text == r.value
          && forall j :: 0 <= j < i ==> !(Readable(nodes[1..][j]) && nodes[1..][j].name.value == key);
        assert Readable(nodes[i + 1]) && nodes[i + 1].name.value == key && nodes[i + 1].value.text == r.value;
        assert forall j :: 0 <= j < i + 1 ==> !(Readable(nodes[j]) && nodes[j].name.value == key);
        r
      else
        r
  }

  /** One entry per readable node, in file order. */
  function ReadableEntries(nodes: seq<DataNode>, culture: Culture): (r: seq<Entry>)
    ensures |r| <= |nodes|
    ensures forall e :: e in r ==> e.culture == culture && exists i :: 0 <= i < |nodes| && nodes[i] == DataNode(Some(e.key), TextValue(e.text))
  {
    if |nodes| == 0 then []
    else
      var init := nodes[..|nodes| - 1];
      var last := nodes[|nodes| - 1];
      var r := ReadableEntries(init, culture) + (if Readable(last) then [Entry(last.name.value, last.value.text, culture)] else []);
      assert forall i :: 0 <= i < |init| ==> init[i] == nodes[i];
      r
  }

  lemma ReadableEntriesAppend(nodes: seq<DataNode>, node: DataNode, culture: Culture)
    ensures ReadableEntries(nodes + [node], culture)
      == ReadableEntries(nodes, culture) + (if Readable(node) then [Entry(node.name.value, node.value.text, culture)] else [])
  {
    assert (nodes + [node])[..|nodes|] == nodes;
  }

  function Keys(entries: seq<Entry>): (r: seq<string>)
    ensures |r| == |entries| && forall i :: 0 <= i < |entries| ==> r[i] == entries[i].key
  {
    seq(|entries|, i requires 0 <= i < |entries| => entries[i].key)
  }

  lemma KeysAppend(entries: seq<Entry>, e: Entry)
    ensures Keys(entries + [e]) == Keys(entries) + [e.key]
    ensures e.key in Keys(entries) <==> exists j :: 0 <= j < |entries| && entries[j].key == e.key
  {
    assert Keys(entries + [e]) == Keys(entries) + [e.key];
  }

  lemma DuplicateKeysAppend(keys: seq<string>, k: string)
    ensures DuplicateKeys(keys + [k]) == DuplicateKeys(keys) + (if k in keys then [k] else [])
  {
    assert (keys + [k])[..|keys|] == keys;
  }

  /** Each key once per occurrence after its first. */
  function DuplicateKeys(keys: seq<string>): seq<string> {
    if |keys| == 0 then []
    else
      var init := keys[..|keys| - 1];
      DuplicateKeys(init) + (if keys[|keys| - 1] in init then [keys[|keys| - 1]] else [])
  }


  /** The duplicates number the keys minus the distinct keys. */
  lemma {:induction false} DuplicateKeysCount(keys: seq<string>)
    ensures |DuplicateKeys(keys)| == |keys| - |set k | k in keys|
  {
    if |keys| > 0 {
      var init, last := keys[..|keys| - 1], keys[|keys| - 1];
      DuplicateKeysCount(init);
      assert keys == init + [last];
      assert (set k | k in keys) == (set k | k in init) + {last};
      if last !in init {
        assert last !in (set k | k in init);
      }
    }
  }

  /** No key is reported exactly when the keys are pairwise distinct. */
  lemma {:induction false} DuplicateKeysEmptyIffDistinct(keys: seq<string>)
    ensures DuplicateKeys(keys) == [] <==> Distinct(keys)
  {
    if |keys| > 0 {
      var init, last := keys[..|keys| - 1], keys[|keys| - 1];
      DuplicateKeysEmptyIffDistinct(init);
      if last in init {
        var i :| 0 <= i < |init| && init[i] == last;
        assert keys[i] == keys[|keys| - 1];
      } else if Distinct(init) {
        forall i, j | 0 <= i < j < |keys| ensures keys[i] != keys[j] {
          if j == |keys| - 1 {
            assert keys[i] == init[i];
          } else {
            assert keys[i] == init[i] && keys[j] == init[j];
          }
        }
      } else {
        var i, j :| 0 <= i < j < |init| && init[i] == init[j];
        assert keys[i] == keys[j];
      }
    }
  }

  /** Every reported duplicate is a key that was read more than once. */
  lemma {:induction false} DuplicateKeysRepeated(keys: seq<string>, k: string)
    requires k in DuplicateKeys(keys)
    ensures exists i, j :: 0 <= i < j < |keys| && keys[i] == k && keys[j] == k
  {
    var init, last := keys[..|keys| - 1], keys[|keys| - 1];
    if k in DuplicateKeys(init) {
      DuplicateKeysRepeated(init, k);
      var i, j :| 0 <= i < j < |init| && init[i] == k && init[j] == k;
      assert keys[i] == k && keys[j] == k;
    } else {
      var i :| 0 <= i < |init| && init[i] == last;
      assert keys[i] == k && keys[|keys| - 1] == k;
    }
  }
}
