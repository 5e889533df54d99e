/**
 The string parser of StringSheet: reads `<string>` entries out of the
 `values*` directories of an Android `res` tree into `{language: {id: text}}`,
 turns that into spreadsheet rows, and reads spreadsheet rows back.

 Directory listings and XML parsing are inputs here: a directory is a name and
 its files in listing order, a file is a name and its parsed root element.
 */
module Parser {
  import opened Wrappers
  import opened Text
  import opened Xml

  /** A spreadsheet cell: None or a string. Element text has the same shape. */
  type Cell = Option<string>

  /** `{id: text}` for one language. */
  type Strings = map<string, Cell>

  /** `{language: {id: text}}`. */
  type StringsByLanguage = map<string, Strings>

  type Row = seq<Cell>

  type Sheet = seq<Row>

  datatype File = File(name: string, root: Element)

  datatype Dir = Dir(name: string, files: seq<File>)

  // ---------------------------------------------------------------------------
  // One file
  // ---------------------------------------------------------------------------

  predicate IsRootValid(root: Element)
  {
    root.tag == "resources" && IsTranslatable(root)
  }

  predicate IsStringValid(e: Element)
  {
    e.tag == "string" && "name" in e.attrib && IsTranslatable(e)
  }

  /** The name under which `parse_file` stores `e`: its `name` if it is a valid `<string>`, else None. */
  function StringName(e: Element): Option<string>
  {
    if IsStringValid(e) then Some(e.attrib["name"]) else None
  }

  function ElementText(e: Element): Cell
  {
    e.text
  }

  /**
   `parse_file`: nothing when the root is not a translatable `<resources>`;
   otherwise name to text of its valid `<string>` children, in document order
   (the dict comprehension keeps the last child with a repeated name).
   */
  function ParseFile(root: Element): Strings
  {
    if !IsRootValid(root) then map[] else LastWins(root.children, StringName, ElementText)
  }

  /** `es[i]` is a valid `<string>` named `id` and no later child is. */
  predicate LastDefinition(es: seq<Element>, id: string, i: int)
  {
    && 0 <= i < |es| && IsStringValid(es[i]) && es[i].attrib["name"] == id
    && forall j :: i < j < |es| ==> !(IsStringValid(es[j]) && es[j].attrib["name"] == id)
  }

  /**
   An id is present iff the root is valid and some valid `<string>` child has
   that name; its text is that of the last such child.
   */
  lemma ParseFileSpec(root: Element)
    ensures !IsRootValid(root) ==> ParseFile(root) == map[]
    ensures forall id :: id in ParseFile(root) <==>
      IsRootValid(root) && exists i :: 0 <= i < |root.children| && IsStringValid(root.children[i]) && root.children[i].attrib["name"] == id
    ensures forall id :: id in ParseFile(root) ==>
      exists i :: LastDefinition(root.children, id, i) && ParseFile(root)[id] == root.children[i].text
  {
    if IsRootValid(root) {
      var es := root.children;
      LastWinsSpec(es, StringName, ElementText);
      forall id | id in ParseFile(root)
        ensures exists i :: LastDefinition(es, id, i) && ParseFile(root)[id] == es[i].text
      {
        var i :| IsLastWith(es, StringName, id, i) && ParseFile(root)[id] == ElementText(es[i]);
        assert LastDefinition(es, id, i) by {
          forall j | i < j < |es|
            ensures !(IsStringValid(es[j]) && es[j].attrib["name"] == id)
          {
            assert StringName(es[j]) != Some(id);
          }
        }
      }
      forall id | exists i :: 0 <= i < |es| && IsStringValid(es[i]) && es[i].attrib["name"] == id
        ensures id in ParseFile(root)
      {
        var i :| 0 <= i < |es| && IsStringValid(es[i]) && es[i].attrib["name"] == id;
        assert StringName(es[i]) == Some(id);
      }
    }
  }

  /** A reference such as "@string/app_name" is kept: only the resource model filters on '@' and '?'. */
  lemma ParseFileKeepsReferences(text: string)
    ensures var root := Element("resources", map[], None,
                                [Element("string", map["name" := "ref"], Some(text), [])]);
            ParseFile(root) == map["ref" := Some(text)]
  {
    var child := Element("string", map["name" := "ref"], Some(text), []);
    var root := Element("resources", map[], None, [child]);
    assert Lower("true") == "true";
    assert IsRootValid(root);
    assert StringName(child) == Some("ref");
    assert root.children[..0] == [];
    assert LastWins(root.children, StringName, ElementText) == LastWins([], StringName, ElementText)["ref" := Some(text)];
  }

  // ---------------------------------------------------------------------------
  // One directory
  // ---------------------------------------------------------------------------

  predicate IsFileValid(name: string)
  {
    EndsWith(name, ".xml") && name != "donottranslate.xml"
  }

  predicate IsXmlFile(f: File)
  {
    IsFileValid(f.name)
  }

  /** What one listed file adds: its strings if it is a valid XML file, nothing otherwise. */
  function FileStrings(f: File): Strings
  {
    if IsFileValid(f.name) then ParseFile(f.root) else map[]
  }

  /** The strings of one directory: `strings.update(...)` over its files in listing order. */
  function DirectoryStrings(files: seq<File>): Strings
  {
    UnionAll(files, FileStrings)
  }

  /** File `i` is valid, has `id`, and no later valid file has it. */
  predicate LastFileWith(files: seq<File>, id: string, i: int)
  {
    && 0 <= i < |files| && IsFileValid(files[i].name) && id in ParseFile(files[i].root)
    && forall j :: i < j < |files| && IsFileValid(files[j].name) ==> id !in ParseFile(files[j].root)
  }

  /** An id comes from the last valid file defining it; invalid files never contribute. */
  lemma DirectoryStringsSpec(files: seq<File>)
    ensures forall id :: id in DirectoryStrings(files) <==>
      exists i :: 0 <= i < |files| && IsFileValid(files[i].name) && id in ParseFile(files[i].root)
    ensures forall id :: id in DirectoryStrings(files) ==>
      exists i :: LastFileWith(files, id, i) && DirectoryStrings(files)[id] == ParseFile(files[i].root)[id]
  {
    UnionAllKeys(files, FileStrings);
    UnionAllLast(files, FileStrings);
    forall id | id in DirectoryStrings(files)
      ensures exists i :: LastFileWith(files, id, i) && DirectoryStrings(files)[id] == ParseFile(files[i].root)[id]
    {
      var i :| IsLastHolding(files, FileStrings, id, i) && DirectoryStrings(files)[id] == FileStrings(files[i])[id];
      assert LastFileWith(files, id, i) by {
        forall j | i < j < |files| && IsFileValid(files[j].name)
          ensures id !in ParseFile(files[j].root)
        {
          assert id !in FileStrings(files[j]);
        }
      }
    }
    forall id | exists i :: 0 <= i < |files| && IsFileValid(files[i].name) && id in ParseFile(files[i].root)
      ensures id in DirectoryStrings(files)
    {
      var i :| 0 <= i < |files| && IsFileValid(files[i].name) && id in ParseFile(files[i].root);
      assert id in FileStrings(files[i]);
    }
  }

  /** `parse_directory`: merges the valid XML files in listing order. */
  method ParseDirectory(files: seq<File>) returns (strings: Strings)
    ensures strings == DirectoryStrings(files)
  {
    var xmlFiles := Filter(files, IsXmlFile);
    strings := map[];
    for i := 0 to |xmlFiles|
      invariant strings == UnionAll(xmlFiles[..i], FileStrings)
    {
      assert xmlFiles[..i + 1][..i] == xmlFiles[..i];
      assert xmlFiles[i] in xmlFiles;
      strings := strings + ParseFile(xmlFiles[i].root);
    }
    assert xmlFiles[..|xmlFiles|] == xmlFiles;
    UnionAllFilter(files, IsXmlFile, FileStrings);
  }

  // ---------------------------------------------------------------------------
  // Language codes and the res tree
  // ---------------------------------------------------------------------------

  /** `_is_language_valid`: "default", a two-letter code, or a two-letter code, "-r" and a two-letter region. */
  predicate IsLanguageValid(language: string)
  {
    language == "default" ||
    var (code, sep, country) := Partition(language, "-r");
    !(sep != [] && (country == [] || |country| != 2)) && |code| == 2
  }

  /** The accepted codes, stated without `partition`: "default", any two characters but "-r", or xx-rYY. */
  lemma LanguageValidIff(s: string)
    ensures IsLanguageValid(s) <==>
      || s == "default"
      || (|s| == 2 && s != "-r")
      || (|s| == 6 && s[2..4] == "-r" && s[..2] != "-r")
  {
    var p := Partition(s, "-r");
    match Find(s, "-r")
    case None =>
      assert !OccursAt(s, "-r", 0);
      assert !OccursAt(s, "-r", 2);
    case Some(i) =>
      assert OccursAt(s, "-r", i);
      assert p.0 == s[..i];
      if |s| == 6 && s[2..4] == "-r" && s[..2] != "-r" {
        assert OccursAt(s, "-r", 2);
        assert !OccursAt(s, "-r", 0);
        assert s[2] == '-';
        assert !OccursAt(s, "-r", 1);
      }
  }

  /** "default", a bare two-letter code and a code with a region are accepted. */
  lemma LanguagesAccepted()
    ensures IsLanguageValid("default") && IsLanguageValid("en") && IsLanguageValid("en-rUS")
  {
    assert IsLanguageValid("en") by {
      LanguageValidIff("en");
    }
    assert IsLanguageValid("en-rUS") by {
      LanguageValidIff("en-rUS");
      assert "en-rUS"[2..4] == "-r" && "en-rUS"[..2] == "en";
    }
  }

  /** A one-letter code, a missing or one-letter region and a three-letter code are refused. */
  lemma LanguagesRefused()
    ensures !IsLanguageValid("e") && !IsLanguageValid("en-r") && !IsLanguageValid("en-rU") && !IsLanguageValid("enr-US")
  {
    LanguageValidIff("e");
    LanguageValidIff("en-r");
    LanguageValidIff("en-rU");
    LanguageValidIff("enr-US");
    assert "enr-US"[2] == 'r';
  }

  /** The language a `values*` directory stands for: "default" for `values`, else the text after the first '-'. */
  function LanguageOf(dirName: string): string
  {
    if dirName == "values" then "default" else Partition(dirName, "-").2
  }

  /** The directory is read, and what it yields is stored under `language`. */
  predicate Contributes(d: Dir, language: string)
  {
    && StartsWith(d.name, "values")
    && LanguageOf(d.name) == language
    && IsLanguageValid(language)
    && DirectoryStrings(d.files) != map[]
  }

  /** The language under which `parse_resources` stores a directory, None if it skips it. */
  function DirLanguage(d: Dir): Option<string>
  {
    if Contributes(d, LanguageOf(d.name)) then Some(LanguageOf(d.name)) else None
  }

  function DirStrings(d: Dir): Strings
  {
    DirectoryStrings(d.files)
  }

  /** The result of `parse_resources` over a listing of the res directory. */
  function ResourceStrings(dirs: seq<Dir>): StringsByLanguage
  {
    LastWins(dirs, DirLanguage, DirStrings)
  }

  predicate LastDirFor(dirs: seq<Dir>, language: string, i: int)
  {
    0 <= i < |dirs| && Contributes(dirs[i], language) && forall j :: i < j < |dirs| ==> !Contributes(dirs[j], language)
  }

  /**
   Only `values*` directories with a valid language code and at least one
   string appear, under their language; two directories naming the same
   language leave the later one's strings.
   */
  lemma ResourceStringsSpec(dirs: seq<Dir>)
    ensures forall l :: l in ResourceStrings(dirs) ==> IsLanguageValid(l) && ResourceStrings(dirs)[l] != map[]
    ensures forall l :: l in ResourceStrings(dirs) <==> exists i :: 0 <= i < |dirs| && Contributes(dirs[i], l)
    ensures forall l :: l in ResourceStrings(dirs) ==>
      exists i :: LastDirFor(dirs, l, i) && ResourceStrings(dirs)[l] == DirectoryStrings(dirs[i].files)
  {
    var r := ResourceStrings(dirs);
    LastWinsSpec(dirs, DirLanguage, DirStrings);
    forall l | l in r
      ensures exists i :: LastDirFor(dirs, l, i) && r[l] == DirectoryStrings(dirs[i].files)
    {
      var i :| IsLastWith(dirs, DirLanguage, l, i) && r[l] == DirStrings(dirs[i]);
      assert LastDirFor(dirs, l, i) by {
        forall j | i < j < |dirs|
          ensures !Contributes(dirs[j], l)
        {
          assert DirLanguage(dirs[j]) != Some(l);
        }
      }
    }
    forall l | exists i :: 0 <= i < |dirs| && Contributes(dirs[i], l)
      ensures l in r
    {
      var i :| 0 <= i < |dirs| && Contributes(dirs[i], l);
      assert DirLanguage(dirs[i]) == Some(l);
    }
  }

  /** `parse_resources`: reads every `values*` directory with a valid language code. */
  method ParseResources(dirs: seq<Dir>) returns (strings: StringsByLanguage)
    ensures strings == ResourceStrings(dirs)
  {
    strings := map[];
    for i := 0 to |dirs|
      invariant strings == ResourceStrings(dirs[..i])
    {
      LastWinsPrefix(dirs, DirLanguage, DirStrings, i);
      var childDir := dirs[i];
      if !StartsWith(childDir.name, "values") {
        continue;
      }
      var language;
      if childDir.name == "values" {
        language := "default";
      } else {
        var (_, _, rest) := Partition(childDir.name, "-");
        language := rest;
      }
      if !IsLanguageValid(language) {
        continue;
      }
      var languageStrings := ParseDirectory(childDir.files);
      if languageStrings != map[] {
        strings := strings[language := languageStrings];
      }
    }
    assert dirs[..|dirs|] == dirs;
  }

  // ---------------------------------------------------------------------------
  // Export: strings to spreadsheet rows
  // ---------------------------------------------------------------------------

  /** `get_languages`: the languages other than "default", ascending, each once. */
  ghost function GetLanguages(strings: StringsByLanguage): (r: seq<string>)
    ensures forall l :: l in r <==> l in strings && l != "default"
    ensures StrictlyAscending(r)
  {
    SortedSet(strings.Keys - {"default"})
  }

  function Lookup(m: Strings, id: string): Cell
  {
    if id in m then m[id] else None
  }

  /** One header cell per language, in order. */
  function LanguageCells(languages: seq<string>): (r: Row)
    ensures |r| == |languages|
    ensures forall k :: 0 <= k < |languages| ==> r[k] == Some(languages[k])
    decreases |languages|
  {
    if languages == [] then []
    else LanguageCells(languages[..|languages| - 1]) + [Some(languages[|languages| - 1])]
  }

  /** `['id', 'comment', 'default'] + languages`. */
  function Header(languages: seq<string>): Row
  {
    [Some("id"), Some("comment"), Some("default")] + LanguageCells(languages)
  }

  /** `strings[language][id]`, None where either is missing. */
  function TextOf(strings: StringsByLanguage, language: string, id: string): Cell
  {
    if language in strings then Lookup(strings[language], id) else None
  }

  /** The text of `id` in each language, None where a language lacks it. */
  function TextCells(strings: StringsByLanguage, languages: seq<string>, id: string): (r: Row)
    ensures |r| == |languages|
    ensures forall k :: 0 <= k < |languages| ==> r[k] == TextOf(strings, languages[k], id)
    decreases |languages|
  {
    if languages == [] then []
    else
      TextCells(strings, languages[..|languages| - 1], id)
        + [TextOf(strings, languages[|languages| - 1], id)]
  }

  /** `[id, None, default text] + [text or None for each language]`. */
  function SheetRow(strings: StringsByLanguage, languages: seq<string>, id: string): Row
  {
    [Some(id), None, TextOf(strings, "default", id)] + TextCells(strings, languages, id)
  }

  /** A row holds the id, no comment, the default text, then each language's text of the id or None. */
  lemma SheetRowCells(strings: StringsByLanguage, languages: seq<string>, id: string)
    requires "default" in strings && id in strings["default"]
    requires forall k :: 0 <= k < |languages| ==> languages[k] in strings
    ensures var row := SheetRow(strings, languages, id);
            && |row| == 3 + |languages|
            && row[0] == Some(id)
            && row[1] == None
            && row[2] == strings["default"][id]
            && forall k :: 0 <= k < |languages| ==> row[3 + k] == Lookup(strings[languages[k]], id)
  {
    var row := SheetRow(strings, languages, id);
    forall k | 0 <= k < |languages|
      ensures row[3 + k] == Lookup(strings[languages[k]], id)
    {
      assert row[3 + k] == TextCells(strings, languages, id)[k];
    }
  }

  /** One row per id, in the order of `ids`. */
  function SheetRows(strings: StringsByLanguage, languages: seq<string>, ids: seq<string>): (r: Sheet)
    ensures |r| == |ids|
    ensures forall i :: 0 <= i < |ids| ==> r[i] == SheetRow(strings, languages, ids[i])
    decreases |ids|
  {
    if ids == [] then []
    else SheetRows(strings, languages, ids[..|ids| - 1]) + [SheetRow(strings, languages, ids[|ids| - 1])]
  }

  /** The header for `languages`, then one row per id of `ids`, in that order. */
  function SheetValues(strings: StringsByLanguage, languages: seq<string>, ids: seq<string>): Sheet
  {
    [Header(languages)] + SheetRows(strings, languages, ids)
  }

  /** Row 0 is the header, row `i` the row of id `i - 1`. */
  lemma SheetValuesAt(strings: StringsByLanguage, languages: seq<string>, ids: seq<string>, i: nat)
    requires 1 <= i <= |ids|
    ensures |SheetValues(strings, languages, ids)| == 1 + |ids|
    ensures SheetValues(strings, languages, ids)[i] == SheetRow(strings, languages, ids[i - 1])
  {
    assert SheetValues(strings, languages, ids)[i] == SheetRows(strings, languages, ids)[i - 1];
  }

  /** The rows `create_spreadsheet_values` returns: all languages, ids in `sorted` order. */
  ghost function SpreadsheetValues(strings: StringsByLanguage): Sheet
    requires "default" in strings
  {
    SheetValues(strings, GetLanguages(strings), SortedSet(strings["default"].Keys))
  }

  /** The rows `create_language_sheet_values` returns: one language, ids in `sorted` order. */
  ghost function LanguageSheetValues(strings: StringsByLanguage, language: string): Sheet
    requires "default" in strings
    requires strings["default"] != map[] ==> language in strings
  {
    SheetValues(strings, [language], SortedSet(strings["default"].Keys))
  }

  /** For any order of languages and ids: one header row and one row per id; the header names "id", "comment", "default" and the languages. */
  lemma SheetValuesHeader(strings: StringsByLanguage, languages: seq<string>, ids: seq<string>)
    ensures var v := SheetValues(strings, languages, ids);
            && |v| == 1 + |ids|
            && |v[0]| == 3 + |languages|
            && v[0][0] == Some("id") && v[0][1] == Some("comment") && v[0][2] == Some("default")
            && forall k :: 0 <= k < |languages| ==> v[0][3 + k] == Some(languages[k])
  {
    var h := Header(languages);
    assert SheetValues(strings, languages, ids)[0] == h;
    forall k | 0 <= k < |languages|
      ensures h[3 + k] == Some(languages[k])
    {
      assert h[3 + k] == LanguageCells(languages)[k];
    }
  }

  /** For any order of languages and ids: row `i` holds id `i - 1`, no comment, its default text and its text in each language. */
  lemma SheetValuesRow(strings: StringsByLanguage, languages: seq<string>, ids: seq<string>, i: nat)
    requires "default" in strings && forall j :: 0 <= j < |ids| ==> ids[j] in strings["default"]
    requires forall k :: 0 <= k < |languages| ==> languages[k] in strings
    requires 1 <= i <= |ids|
    ensures var row := SheetValues(strings, languages, ids)[i];
            && |row| == 3 + |languages|
            && row[0] == Some(ids[i - 1])
            && row[1] == None
            && row[2] == strings["default"][ids[i - 1]]
            && forall k :: 0 <= k < |languages| ==> row[3 + k] == Lookup(strings[languages[k]], ids[i - 1])
  {
    assert SheetValues(strings, languages, ids)[i] == SheetRow(strings, languages, ids[i - 1]);
    SheetRowCells(strings, languages, ids[i - 1]);
  }

  /** `get_languages` lists languages of `strings`, so a sheet for them only looks up existing languages. */
  lemma GetLanguagesExist(strings: StringsByLanguage)
    ensures forall k :: 0 <= k < |GetLanguages(strings)| ==> GetLanguages(strings)[k] in strings
  {
    var languages := GetLanguages(strings);
    forall k | 0 <= k < |languages|
      ensures languages[k] in strings
    {
      assert languages[k] in languages;
    }
  }

  /** The default ids in `sorted` order are default ids. */
  lemma SortedIdsExist(strings: StringsByLanguage)
    requires "default" in strings
    ensures var ids := SortedSet(strings["default"].Keys);
            forall i :: 0 <= i < |ids| ==> ids[i] in strings["default"]
  {
    var ids := SortedSet(strings["default"].Keys);
    forall i | 0 <= i < |ids|
      ensures ids[i] in strings["default"]
    {
      assert ids[i] in ids;
    }
  }

  /** The exported header: "id", "comment", "default", then every language but "default", in ascending order. */
  lemma SpreadsheetHeader(strings: StringsByLanguage)
    requires "default" in strings
    ensures var v := SpreadsheetValues(strings);
            var languages := GetLanguages(strings);
            && |v[0]| == 3 + |languages|
            && v[0][0] == Some("id") && v[0][1] == Some("comment") && v[0][2] == Some("default")
            && forall k :: 0 <= k < |languages| ==> v[0][3 + k] == Some(languages[k])
  {
    SheetValuesHeader(strings, GetLanguages(strings), SortedSet(strings["default"].Keys));
  }

  /**
   Every exported row below the header: a default id, an empty comment, the
   default text and one cell per language, None where that language lacks the id.
   */
  lemma SpreadsheetRow(strings: StringsByLanguage, i: nat)
    requires "default" in strings && 1 <= i < |SpreadsheetValues(strings)|
    ensures var row := SpreadsheetValues(strings)[i];
            var languages := GetLanguages(strings);
            && |row| == 3 + |languages|
            && row[0].Some? && row[0].value in strings["default"]
            && row[1] == None
            && row[2] == strings["default"][row[0].value]
            && forall k :: 0 <= k < |languages| ==> row[3 + k] == Lookup(strings[languages[k]], row[0].value)
  {
    var languages := GetLanguages(strings);
    var ids := SortedSet(strings["default"].Keys);
    GetLanguagesExist(strings);
    SortedIdsExist(strings);
    assert |SpreadsheetValues(strings)| == 1 + |ids|;
    SheetValuesRow(strings, languages, ids, i);
    assert ids[i - 1] in ids;
  }

  /** For any order of ids: the first cell of row `i` is id `i - 1`. */
  lemma SheetValuesIdColumn(strings: StringsByLanguage, languages: seq<string>, ids: seq<string>)
    ensures var v := SheetValues(strings, languages, ids);
            && |v| == 1 + |ids|
            && forall i :: 1 <= i < |v| ==> |v[i]| >= 3 && v[i][0] == Some(ids[i - 1])
  {
    var v := SheetValues(strings, languages, ids);
    forall i | 1 <= i < |v|
      ensures |v[i]| >= 3 && v[i][0] == Some(ids[i - 1])
    {
      assert v[i] == SheetRow(strings, languages, ids[i - 1]);
    }
  }

  /** With the ids in sorted order, the rows hold each default id once, ascending, and no other id. */
  lemma SheetValuesIds(strings: StringsByLanguage, languages: seq<string>, ids: seq<string>)
    requires "default" in strings && IsSortedListing(ids, strings["default"].Keys)
    ensures var v := SheetValues(strings, languages, ids);
            && |v| == 1 + |ids|
            && (forall i :: 1 <= i < |v| ==> |v[i]| >= 3 && v[i][0].Some?)
            && (forall i, j :: 1 <= i < j < |v| ==> Less(v[i][0].value, v[j][0].value))
            && (forall id :: id in strings["default"] <==> exists i :: 1 <= i < |v| && v[i][0] == Some(id))
  {
    var v := SheetValues(strings, languages, ids);
    SheetValuesIdColumn(strings, languages, ids);
    forall id | id in strings["default"]
      ensures exists i :: 1 <= i < |v| && v[i][0] == Some(id)
    {
      var i :| 0 <= i < |ids| && ids[i] == id;
      assert v[i + 1][0] == Some(id);
    }
  }

  /**
   The rows below the header hold the default ids, each exactly once, in
   strictly ascending order; ids that only other languages have never appear.
   */
  lemma SpreadsheetIds(strings: StringsByLanguage)
    requires "default" in strings
    ensures var v := SpreadsheetValues(strings);
            && |v| == 1 + |strings["default"]|
            && (forall i :: 1 <= i < |v| ==> |v[i]| >= 3 && v[i][0].Some?)
            && (forall i, j :: 1 <= i < j < |v| ==> Less(v[i][0].value, v[j][0].value))
            && (forall id :: id in strings["default"] <==> exists i :: 1 <= i < |v| && v[i][0] == Some(id))
  {
    var ids := SortedSet(strings["default"].Keys);
    assert |ids| == |strings["default"].Keys| == |strings["default"]|;
    GetLanguagesExist(strings);
    SheetValuesIds(strings, GetLanguages(strings), ids);
  }

  /** Appending a language appends its header cell. */
  lemma HeaderSnoc(languages: seq<string>, k: nat)
    requires k < |languages|
    ensures Header(languages[..k + 1]) == Header(languages[..k]) + [Some(languages[k])]
  {
    assert languages[..k + 1][..k] == languages[..k];
  }

  /** Appending a language appends its text of `id` to the row. */
  lemma SheetRowSnoc(strings: StringsByLanguage, languages: seq<string>, k: nat, id: string)
    requires k < |languages|
    ensures SheetRow(strings, languages[..k + 1], id) == SheetRow(strings, languages[..k], id) + [TextOf(strings, languages[k], id)]
  {
    assert languages[..k + 1][..k] == languages[..k];
  }

  /** Appending an id appends its row. */
  lemma SheetValuesSnoc(strings: StringsByLanguage, languages: seq<string>, ids: seq<string>, i: nat)
    requires i < |ids|
    ensures SheetValues(strings, languages, ids[..i + 1]) == SheetValues(strings, languages, ids[..i]) + [SheetRow(strings, languages, ids[i])]
  {
    assert ids[..i + 1][..i] == ids[..i];
  }

  /** `create_spreadsheet_values`. */
  method CreateSpreadsheetValues(strings: StringsByLanguage) returns (result: Sheet)
    requires "default" in strings
    ensures result == SpreadsheetValues(strings)
  {
    var languages := SortedKeys(strings.Keys - {"default"});
    forall k | 0 <= k < |languages|
      ensures languages[k] in strings
    {
      assert languages[k] in languages;
    }
    var columnNames := [Some("id"), Some("comment"), Some("default")];
    for k := 0 to |languages|
      invariant columnNames == Header(languages[..k])
    {
      HeaderSnoc(languages, k);
      columnNames := columnNames + [Some(languages[k])];
    }
    assert languages[..|languages|] == languages;
    result := [columnNames];

    var defaultStrings := strings["default"];
    var ids := SortedKeys(defaultStrings.Keys);
    for i := 0 to |ids|
      invariant result == SheetValues(strings, languages, ids[..i])
    {
      var stringId := ids[i];
      assert stringId in ids;
      var column := [Some(stringId), None, defaultStrings[stringId]];
      for k := 0 to |languages|
        invariant column == SheetRow(strings, languages[..k], stringId)
      {
        SheetRowSnoc(strings, languages, k, stringId);
        var languageStrings := strings[languages[k]];
        if stringId in languageStrings {
          column := column + [languageStrings[stringId]];
        } else {
          column := column + [None];
        }
      }
      assert languages[..|languages|] == languages;
      SheetValuesSnoc(strings, languages, ids, i);
      result := result + [column];
    }
    assert ids[..|ids|] == ids;
    SortedListingUnique(languages, strings.Keys - {"default"});
    SortedListingUnique(ids, defaultStrings.Keys);
  }

  /**
   For any order of ids: the single-language sheet is the full sheet cut
   down to the id, comment, default and `languages[k]` columns, row for row.
   */
  lemma SheetValuesColumn(strings: StringsByLanguage, languages: seq<string>, ids: seq<string>, k: nat)
    requires k < |languages|
    ensures var full := SheetValues(strings, languages, ids);
            var one := SheetValues(strings, [languages[k]], ids);
            && |one| == |full|
            && forall i :: 0 <= i < |one| ==> |full[i]| > 3 + k && one[i] == full[i][..3] + [full[i][3 + k]]
  {
    var full := SheetValues(strings, languages, ids);
    var one := SheetValues(strings, [languages[k]], ids);
    forall i | 0 <= i < |one|
      ensures |full[i]| > 3 + k && one[i] == full[i][..3] + [full[i][3 + k]]
    {
      if i == 0 {
        HeaderColumn(languages, k);
      } else {
        SheetValuesAt(strings, [languages[k]], ids, i);
        SheetValuesAt(strings, languages, ids, i);
        SheetRowColumn(strings, languages, k, ids[i - 1]);
      }
    }
  }

  lemma HeaderColumn(languages: seq<string>, k: nat)
    requires k < |languages|
    ensures |Header(languages)| > 3 + k
    ensures Header([languages[k]]) == Header(languages)[..3] + [Header(languages)[3 + k]]
  {
    var h := Header(languages);
    assert LanguageCells([languages[k]]) == [Some(languages[k])];
    assert h[..3] == [Some("id"), Some("comment"), Some("default")];
  }

  lemma SheetRowColumn(strings: StringsByLanguage, languages: seq<string>, k: nat, id: string)
    requires k < |languages|
    ensures |SheetRow(strings, languages, id)| > 3 + k
    ensures SheetRow(strings, [languages[k]], id)
            == SheetRow(strings, languages, id)[..3] + [SheetRow(strings, languages, id)[3 + k]]
  {
    var row := SheetRow(strings, languages, id);
    assert TextCells(strings, [languages[k]], id) == [TextOf(strings, languages[k], id)];
    assert row[..3] == [Some(id), None, TextOf(strings, "default", id)];
  }

  /**
   The single-language sheet is the full sheet cut down to the id, comment,
   default and `language` columns, row for row.
   */
  lemma LanguageSheetIsColumnOfSpreadsheet(strings: StringsByLanguage, language: string, k: nat)
    requires "default" in strings
    requires k < |GetLanguages(strings)| && GetLanguages(strings)[k] == language
    ensures var full := SpreadsheetValues(strings);
            var one := LanguageSheetValues(strings, language);
            && |one| == |full|
            && forall i :: 0 <= i < |one| ==> |full[i]| > 3 + k && one[i] == full[i][..3] + [full[i][3 + k]]
  {
    assert language in GetLanguages(strings);
    SheetValuesColumn(strings, GetLanguages(strings), SortedSet(strings["default"].Keys), k);
  }

  /**
   `create_language_sheet_values`. The source looks the language up inside
   the row loop, so the language must exist only when there is a default id.
   */
  method CreateLanguageSheetValues(strings: StringsByLanguage, language: string) returns (result: Sheet)
    requires "default" in strings
    requires strings["default"] != map[] ==> language in strings
    ensures result == LanguageSheetValues(strings, language)
  {
    result := [[Some("id"), Some("comment"), Some("default"), Some(language)]];
    assert result[0] == Header([language]);
    var defaultStrings := strings["default"];
    var ids := SortedKeys(defaultStrings.Keys);
    for i := 0 to |ids|
      invariant result == SheetValues(strings, [language], ids[..i])
    {
      var stringId := ids[i];
      assert stringId in ids;
      var row := [Some(stringId), None, defaultStrings[stringId]];
      var languageStrings := strings[language];
      if stringId in languageStrings {
        row := row + [languageStrings[stringId]];
      } else {
        row := row + [None];
      }
      assert row == SheetRow(strings, [language], stringId);
      SheetValuesSnoc(strings, [language], ids, i);
      result := result + [row];
    }
    assert ids[..|ids|] == ids;
    SortedListingUnique(ids, defaultStrings.Keys);
  }

  // ---------------------------------------------------------------------------
  // Import: spreadsheet rows to strings
  // ---------------------------------------------------------------------------

  /** Python truthiness of a cell: neither None nor "". */
  predicate Truthy(c: Cell)
  {
    c.Some? && c.value != ""
  }

  /** A row that ends the data region: too short, no id, no default text, or a space in the id. */
  predicate Stops(row: Row)
  {
    |row| < 3 || !Truthy(row[0]) || !Truthy(row[2]) || ' ' in row[0].value
  }

  /** The number of rows before the first row that ends the data region. */
  function DataRowCount(rows: Sheet): (n: nat)
    ensures n <= |rows|
    ensures forall j :: 0 <= j < n ==> !Stops(rows[j])
    ensures n < |rows| ==> Stops(rows[n])
    decreases |rows|
  {
    if rows == [] || Stops(rows[0]) then 0 else 1 + DataRowCount(rows[1..])
  }

  /** The cell of a language column, "" when the row is too short to have it. */
  function Translation(row: Row, column: nat): Cell
  {
    if |row| > column then row[column] else Some("")
  }

  function RowId(row: Row): string
    requires !Stops(row)
  {
    row[0].value
  }

  /** The id under which `parse_spreadsheet_values` stores a row, None for a row that ends the data region. */
  function RowKey(row: Row): Option<string>
  {
    if Stops(row) then None else Some(RowId(row))
  }

  /** Reads the cell of one language column from a row. */
  function CellAt(column: nat): Row -> Cell
  {
    row => Translation(row, column)
  }

  /** The ids of the data region. */
  function DataIds(rows: Sheet): set<string>
  {
    set j | 0 <= j < DataRowCount(rows) :: RowId(rows[j])
  }

  /** One language's strings: id to cell over the data region, later rows overwriting earlier ones. */
  function LanguageStrings(rows: Sheet, column: nat): Strings
  {
    LastWins(rows[..DataRowCount(rows)], RowKey, CellAt(column))
  }

  /**
   A language holds exactly the ids of the data region, each with the cell of
   the last data row carrying that id ("" where that row is too short).
   */
  lemma LanguageStringsSpec(rows: Sheet, column: nat)
    ensures LanguageStrings(rows, column).Keys == DataIds(rows)
    ensures forall id :: id in LanguageStrings(rows, column) ==>
      exists j :: IsLastWith(rows[..DataRowCount(rows)], RowKey, id, j)
               && LanguageStrings(rows, column)[id] == Translation(rows[j], column)
  {
    var n := DataRowCount(rows);
    var data := rows[..n];
    LastWinsSpec(data, RowKey, CellAt(column));
    assert forall j :: 0 <= j < n ==> data[j] == rows[j];
    forall id | id in DataIds(rows)
      ensures id in LanguageStrings(rows, column)
    {
      var j :| 0 <= j < n && RowId(rows[j]) == id;
      assert RowKey(data[j]) == Some(id);
    }
    forall id | id in LanguageStrings(rows, column)
      ensures id in DataIds(rows)
    {
      var j :| 0 <= j < n && RowKey(data[j]) == Some(id);
    }
  }

  /** `header[column]` is `c` for no later language column before `upto`. */
  predicate LastColumnFor(header: Row, c: Cell, column: int, upto: int)
    requires upto <= |header|
  {
    2 <= column < upto && header[column] == c && forall k :: column < k < upto ==> header[k] != c
  }

  /** The outer loop over the language columns `2 <= column < upto`: each column overwrites the entry of its header cell. */
  function ParseColumns(header: Row, rows: Sheet, upto: nat): map<Cell, Strings>
    requires upto <= |header|
    decreases upto
  {
    if upto <= 2 then map[]
    else ParseColumns(header, rows, upto - 1)[header[upto - 1] := LanguageStrings(rows, upto - 1)]
  }

  /** One entry per header cell of the columns before `upto`, holding the strings of the last such column. */
  lemma {:induction false} ParseColumnsSpec(header: Row, rows: Sheet, upto: nat)
    requires upto <= |header|
    ensures forall c :: c in ParseColumns(header, rows, upto) <==> exists column :: 2 <= column < upto && header[column] == c
    ensures forall c :: c in ParseColumns(header, rows, upto) ==>
      exists column :: LastColumnFor(header, c, column, upto) && ParseColumns(header, rows, upto)[c] == LanguageStrings(rows, column)
    decreases upto
  {
    if upto > 2 {
      ParseColumnsSpec(header, rows, upto - 1);
      var prev := ParseColumns(header, rows, upto - 1);
      var r := ParseColumns(header, rows, upto);
      assert LastColumnFor(header, header[upto - 1], upto - 1, upto);
      forall c | c in r && c != header[upto - 1]
        ensures exists column :: LastColumnFor(header, c, column, upto) && r[c] == LanguageStrings(rows, column)
      {
        var column :| LastColumnFor(header, c, column, upto - 1) && prev[c] == LanguageStrings(rows, column);
        assert LastColumnFor(header, c, column, upto);
      }
    }
  }

  /** What `parse_spreadsheet_values` returns. */
  function ParseSheet(values: Sheet): map<Cell, Strings>
    requires |values| > 0
  {
    ParseColumns(values[0], values[1..], |values[0]|)
  }

  /**
   One entry per header cell from the third on, holding the strings of the
   last column with that header; every entry holds the same ids, those of the
   rows before the first row that ends the data region.
   */
  lemma ParseSheetSpec(values: Sheet)
    requires |values| > 0
    ensures forall c :: c in ParseSheet(values) <==> exists column :: 2 <= column < |values[0]| && values[0][column] == c
    ensures forall c :: c in ParseSheet(values) ==>
      exists column :: LastColumnFor(values[0], c, column, |values[0]|)
                    && ParseSheet(values)[c] == LanguageStrings(values[1..], column)
    ensures forall c :: c in ParseSheet(values) ==> ParseSheet(values)[c].Keys == DataIds(values[1..])
  {
    ParseColumnsSpec(values[0], values[1..], |values[0]|);
    forall c | c in ParseSheet(values)
      ensures ParseSheet(values)[c].Keys == DataIds(values[1..])
    {
      var column :| LastColumnFor(values[0], c, column, |values[0]|)
                  && ParseSheet(values)[c] == LanguageStrings(values[1..], column);
      LanguageStringsSpec(values[1..], column);
    }
  }

  /** The first row that ends the data region, or the end of the rows, is where the data region stops. */
  lemma {:induction false} DataRowCountAt(rows: Sheet, j: nat)
    requires j <= |rows|
    requires forall k :: 0 <= k < j ==> !Stops(rows[k])
    requires j == |rows| || Stops(rows[j])
    ensures DataRowCount(rows) == j
  {
    if j > 0 {
      assert !Stops(rows[0]);
      assert forall k :: 0 <= k < j - 1 ==> rows[1..][k] == rows[k + 1];
      DataRowCountAt(rows[1..], j - 1);
    }
  }

  /** The inner loop of `parse_spreadsheet_values`: one language column, read until the first row that ends the data region. */
  method ParseLanguageColumn(rows: Sheet, column: nat) returns (languageStrings: Strings)
    ensures languageStrings == LanguageStrings(rows, column)
  {
    languageStrings := map[];
    var j := 0;
    while j < |rows|
      invariant 0 <= j <= |rows|
      invariant forall k :: 0 <= k < j ==> !Stops(rows[k])
      invariant languageStrings == LastWins(rows[..j], RowKey, CellAt(column))
    {
      var row := rows[j];
      if |row| < 3 {
        break;
      }
      var translation := if |row| > column then row[column] else Some("");
      var stringId := row[0];
      var defaultText := row[2];
      if !Truthy(stringId) || !Truthy(defaultText) {
        break;
      }
      if ' ' in stringId.value {
        break;
      }
      LastWinsPrefix(rows, RowKey, CellAt(column), j);
      languageStrings := languageStrings[stringId.value := translation];
      j := j + 1;
    }
    DataRowCountAt(rows, j);
  }

  /** `parse_spreadsheet_values`. The source reads `values[0]`, so the sheet must have a header row. */
  method ParseSpreadsheetValues(values: Sheet) returns (stringsByLanguage: map<Cell, Strings>)
    requires |values| > 0
    ensures stringsByLanguage == ParseSheet(values)
  {
    var titleRow := values[0];
    var rows := values[1..];
    stringsByLanguage := map[];
    var column := 2;
    while column < |titleRow|
      invariant 2 <= column
      invariant column <= |titleRow| || (column == 2 && stringsByLanguage == map[])
      invariant column <= |titleRow| ==> stringsByLanguage == ParseColumns(titleRow, rows, column)
    {
      var language := titleRow[column];
      var languageStrings := ParseLanguageColumn(rows, column);
      stringsByLanguage := stringsByLanguage[language := languageStrings];
      column := column + 1;
    }
  }
}
