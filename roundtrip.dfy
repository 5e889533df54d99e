/**
 Export followed by import. `create_spreadsheet_values` writes the strings of
 every language to rows; `parse_spreadsheet_values` reads such rows back. The
 import stops at the first row without an id, without a default text or with
 a space in its id, so the strings come back unchanged exactly when no default
 id produces such a row.
 */
module RoundTrip {
  import opened Wrappers
  import opened Text
  import opened Parser

  /** Ids whose exported rows the import reads on: non-empty, without a space, with a non-empty default text. */
  predicate ExportableIds(strings: StringsByLanguage, ids: seq<string>)
  {
    forall i :: 0 <= i < |ids| ==> ids[i] != "" && ' ' !in ids[i] && Truthy(TextOf(strings, "default", ids[i]))
  }

  /** `m` holds exactly the ids of `ids`, each with the text `language` has for it (None where it lacks the id). */
  ghost predicate ColumnTexts(m: Strings, ids: seq<string>, strings: StringsByLanguage, language: string)
  {
    && (forall id :: id in m <==> id in ids)
    && (forall id :: id in m ==> m[id] == TextOf(strings, language, id))
  }

  /** Every column from the third on is headed by a language, and row `i` holds that language's text of id `i - 1`. */
  lemma SheetCell(strings: StringsByLanguage, languages: seq<string>, ids: seq<string>, column: nat, i: nat)
    requires 2 <= column < 3 + |languages|
    requires 1 <= i <= |ids|
    ensures var v := SheetValues(strings, languages, ids);
            && |v| == 1 + |ids|
            && |v[0]| == 3 + |languages|
            && |v[i]| == 3 + |languages|
            && v[0][column].Some?
            && v[i][column] == TextOf(strings, v[0][column].value, ids[i - 1])
  {
    SheetValuesAt(strings, languages, ids, i);
    if column > 2 {
      assert SheetRow(strings, languages, ids[i - 1])[column] == TextCells(strings, languages, ids[i - 1])[column - 3];
    }
  }

  /** No exported row ends the data region: the import reads them all, and row `j` carries id `j`. */
  lemma ExportedRowsAreData(strings: StringsByLanguage, languages: seq<string>, ids: seq<string>)
    requires ExportableIds(strings, ids)
    ensures var rows := SheetValues(strings, languages, ids)[1..];
            && |rows| == |ids|
            && DataRowCount(rows) == |rows|
            && forall j :: 0 <= j < |rows| ==> RowKey(rows[j]) == Some(ids[j])
  {
    var rows := SheetValues(strings, languages, ids)[1..];
    SheetValuesHeader(strings, languages, ids);
    forall j | 0 <= j < |rows|
      ensures !Stops(rows[j]) && RowKey(rows[j]) == Some(ids[j])
    {
      SheetValuesAt(strings, languages, ids, j + 1);
      assert rows[j] == SheetRow(strings, languages, ids[j]);
    }
    DataRowCountAt(rows, |rows|);
  }

  /** In an exported column, data row `j` carries id `j` and the text of the language heading the column. */
  lemma ExportedColumnCells(strings: StringsByLanguage, languages: seq<string>, ids: seq<string>, column: nat)
    requires ExportableIds(strings, ids)
    requires 2 <= column < 3 + |languages|
    ensures var v := SheetValues(strings, languages, ids);
            && |v| == 1 + |ids|
            && |v[0]| == 3 + |languages|
            && v[0][column].Some?
            && forall j :: 0 <= j < |ids| ==>
                 RowKey(v[1..][j]) == Some(ids[j]) && CellAt(column)(v[1..][j]) == TextOf(strings, v[0][column].value, ids[j])
  {
    var v := SheetValues(strings, languages, ids);
    var rows := v[1..];
    SheetValuesHeader(strings, languages, ids);
    if column > 2 {
      assert v[0][column] == LanguageCells(languages)[column - 3];
    }
    ExportedRowsAreData(strings, languages, ids);
    forall j | 0 <= j < |ids|
      ensures RowKey(rows[j]) == Some(ids[j]) && CellAt(column)(rows[j]) == TextOf(strings, v[0][column].value, ids[j])
    {
      assert rows[j] == v[j + 1];
      SheetCell(strings, languages, ids, column, j + 1);
    }
  }

  /** Reading back one exported column gives, for every exported id, the text of the language that heads the column. */
  lemma ExportedColumn(strings: StringsByLanguage, languages: seq<string>, ids: seq<string>, column: nat)
    requires ExportableIds(strings, ids)
    requires 2 <= column < 3 + |languages|
    ensures var v := SheetValues(strings, languages, ids);
            && |v[0]| == 3 + |languages|
            && v[0][column].Some?
            && ColumnTexts(LanguageStrings(v[1..], column), ids, strings, v[0][column].value)
  {
    var v: Sheet := SheetValues(strings, languages, ids);
    var rows := v[1..];
    ExportedColumnCells(strings, languages, ids, column);
    var x := v[0][column].value;
    ExportedRowsAreData(strings, languages, ids);
    assert rows[..DataRowCount(rows)] == rows;
    LastWinsListing(rows, ids, RowKey, CellAt(column), id => TextOf(strings, x, id));
  }

  /**
   For any order of languages and ids whose rows the import reads: importing
   the exported rows gives one entry for "default" and one per language, each
   holding every exported id with that language's text of it (None where the
   language lacks the id).
   */
  lemma ParseExportedSheet(strings: StringsByLanguage, languages: seq<string>, ids: seq<string>)
    requires ExportableIds(strings, ids)
    ensures var r := ParseSheet(SheetValues(strings, languages, ids));
            && (forall c :: c in r <==> c == Some("default") || exists k :: 0 <= k < |languages| && c == Some(languages[k]))
            && (forall c :: c in r ==> c.Some? && ColumnTexts(r[c], ids, strings, c.value))
  {
    var v := SheetValues(strings, languages, ids);
    var r := ParseSheet(v);
    SheetValuesHeader(strings, languages, ids);
    ParseSheetSpec(v);
    forall c | c in r
      ensures c == Some("default") || exists k :: 0 <= k < |languages| && c == Some(languages[k])
      ensures c.Some? && ColumnTexts(r[c], ids, strings, c.value)
    {
      var column :| LastColumnFor(v[0], c, column, |v[0]|) && r[c] == LanguageStrings(v[1..], column);
      ExportedColumn(strings, languages, ids, column);
      if column > 2 {
        assert c == Some(languages[column - 3]);
      }
    }
    assert v[0][2] == Some("default");
    forall k | 0 <= k < |languages|
      ensures Some(languages[k]) in r
    {
      assert v[0][3 + k] == Some(languages[k]);
    }
  }

  /** Every default id is non-empty, has no space and has a non-empty text. */
  predicate RoundTripSafe(strings: StringsByLanguage)
  {
    && "default" in strings
    && forall id :: id in strings["default"] ==> id != "" && ' ' !in id && Truthy(strings["default"][id])
  }

  /**
   Importing the exported spreadsheet gives back one entry per language,
   "default" included; the default strings come back unchanged, and every
   other language comes back with exactly the default ids, holding its own
   text where it has the id and None where it lacks it (ids only that
   language had are dropped).
   */
  lemma RoundTrip(strings: StringsByLanguage)
    requires RoundTripSafe(strings)
    ensures var r := ParseSheet(SpreadsheetValues(strings));
            && (forall c :: c in r <==> c.Some? && c.value in strings)
            && Some("default") in r && r[Some("default")] == strings["default"]
            && forall l :: l in strings && l != "default" ==>
                 Some(l) in r && r[Some(l)] == map id | id in strings["default"] :: Lookup(strings[l], id)
  {
    var ids := SortedSet(strings["default"].Keys);
    RoundTripLanguages(strings);
    var r := ParseSheet(SpreadsheetValues(strings));
    DefaultColumnBack(strings, ids, r[Some("default")]);
    forall l | l in strings && l != "default"
      ensures r[Some(l)] == map id | id in strings["default"] :: Lookup(strings[l], id)
    {
      LanguageColumnBack(strings, l, ids, r[Some(l)]);
    }
  }

  /** The default ids in `sorted` order are ids whose rows the import reads on. */
  lemma SortedIdsExportable(strings: StringsByLanguage)
    requires RoundTripSafe(strings)
    ensures ExportableIds(strings, SortedSet(strings["default"].Keys))
  {
    var ids := SortedSet(strings["default"].Keys);
    forall i | 0 <= i < |ids|
      ensures ids[i] != "" && ' ' !in ids[i] && Truthy(TextOf(strings, "default", ids[i]))
    {
      assert ids[i] in ids;
    }
  }

  /** Importing the export gives one entry per language, "default" included, each over the default ids in `sorted` order. */
  lemma RoundTripLanguages(strings: StringsByLanguage)
    requires RoundTripSafe(strings)
    ensures var r := ParseSheet(SpreadsheetValues(strings));
            var ids := SortedSet(strings["default"].Keys);
            && (forall c :: c in r <==> c.Some? && c.value in strings)
            && (forall c :: c in r ==> c.Some? && ColumnTexts(r[c], ids, strings, c.value))
  {
    var languages := GetLanguages(strings);
    var ids := SortedSet(strings["default"].Keys);
    SortedIdsExportable(strings);
    ParseExportedSheet(strings, languages, ids);
    var r := ParseSheet(SpreadsheetValues(strings));
    forall c: Cell | c.Some? && c.value in strings
      ensures c in r
    {
      if c.value != "default" {
        assert c.value in languages;
        var k :| 0 <= k < |languages| && languages[k] == c.value;
      }
    }
    forall c | c in r
      ensures c.Some? && c.value in strings
    {
      if c != Some("default") {
        var k :| 0 <= k < |languages| && c == Some(languages[k]);
        assert languages[k] in languages;
      }
    }
  }

  /** The default column read back over a listing of the default ids is the default strings. */
  lemma DefaultColumnBack(strings: StringsByLanguage, ids: seq<string>, m: Strings)
    requires "default" in strings
    requires forall id :: id in ids <==> id in strings["default"]
    requires ColumnTexts(m, ids, strings, "default")
    ensures m == strings["default"]
  {
    assert m.Keys == strings["default"].Keys;
    forall id | id in m
      ensures m[id] == strings["default"][id]
    {
    }
  }

  /** A language column read back over a listing of the default ids: its own text or None for each default id. */
  lemma LanguageColumnBack(strings: StringsByLanguage, language: string, ids: seq<string>, m: Strings)
    requires "default" in strings && language in strings
    requires forall id :: id in ids <==> id in strings["default"]
    requires ColumnTexts(m, ids, strings, language)
    ensures m == map id | id in strings["default"] :: Lookup(strings[language], id)
  {
    var expected := map id | id in strings["default"] :: Lookup(strings[language], id);
    assert m.Keys == expected.Keys;
    forall id | id in m
      ensures m[id] == expected[id]
    {
    }
  }

  /** One non-default language read back: exactly the default ids, with its own text or None. */
  lemma LanguageRoundTrip(strings: StringsByLanguage, language: string)
    requires RoundTripSafe(strings)
    requires language in strings && language != "default"
    ensures var r := ParseSheet(SpreadsheetValues(strings));
            Some(language) in r && r[Some(language)] == map id | id in strings["default"] :: Lookup(strings[language], id)
  {
    RoundTrip(strings);
  }

  /**
   Two languages, French lacking "b": French comes back with both default
   ids, "b" holding None (not "").
   */
  lemma TwoLanguageRoundTrip(hello: string, world: string, bonjour: string)
    requires hello != "" && world != ""
    ensures var strings := map["default" := map["a" := Some(hello), "b" := Some(world)],
                               "fr" := map["a" := Some(bonjour)]];
            var r := ParseSheet(SpreadsheetValues(strings));
            && Some("fr") in r && r[Some("fr")] == map["a" := Some(bonjour), "b" := None]
  {
    var strings := map["default" := map["a" := Some(hello), "b" := Some(world)],
                       "fr" := map["a" := Some(bonjour)]];
    assert RoundTripSafe(strings) by {
      assert strings["default"].Keys == {"a", "b"};
    }
    FrenchColumn(strings["default"], strings["fr"], hello, world, bonjour);
    LanguageRoundTrip(strings, "fr");
  }

  /** The French column of the two-language example, computed from the round-trip formula. */
  lemma FrenchColumn(d: Strings, f: Strings, hello: string, world: string, bonjour: string)
    requires d == map["a" := Some(hello), "b" := Some(world)] && f == map["a" := Some(bonjour)]
    ensures (map id | id in d :: Lookup(f, id)) == map["a" := Some(bonjour), "b" := None]
  {
    var fr := map id | id in d :: Lookup(f, id);
    assert fr.Keys == {"a", "b"};
  }

  /** A row whose id is empty ends the data region: the rows after it are not read. */
  lemma ImportStopsAtEmptyRow()
    ensures var values := [[Some("id"), Some("comment"), Some("default"), Some("fr")],
                           [Some("a"), Some(""), Some("Hello"), Some("Bonjour")],
                           [Some(""), None, None, None],
                           [Some("b"), Some(""), Some("World"), Some("Monde")]];
            ParseSheet(values) == map[Some("default") := map["a" := Some("Hello")],
                                      Some("fr") := map["a" := Some("Bonjour")]]
  {
    var values := [[Some("id"), Some("comment"), Some("default"), Some("fr")],
                   [Some("a"), Some(""), Some("Hello"), Some("Bonjour")],
                   [Some(""), None, None, None],
                   [Some("b"), Some(""), Some("World"), Some("Monde")]];
    var rows := values[1..];
    assert Stops(rows[1]);
    DataRowCountAt(rows, 1);
    assert rows[..1] == [rows[0]];
    assert [rows[0]][..0] == [];
    assert RowKey(rows[0]) == Some("a");
    assert CellAt(2)(rows[0]) == Some("Hello") && CellAt(3)(rows[0]) == Some("Bonjour");
    assert LastWins([rows[0]], RowKey, CellAt(2)) == map["a" := Some("Hello")];
    assert LastWins([rows[0]], RowKey, CellAt(3)) == map["a" := Some("Bonjour")];
    assert LanguageStrings(rows, 2) == map["a" := Some("Hello")];
    assert LanguageStrings(rows, 3) == map["a" := Some("Bonjour")];
    assert ParseColumns(values[0], rows, 3) == map[Some("default") := map["a" := Some("Hello")]];
  }
}
