# StringSheet core, modelled in Dafny

StringSheet keeps the string resources of an Android project in step with a
spreadsheet. Its core has two parts.

- **The resource model** (`stringsheet/model.py`). It covers the `<string>`, `<string-array>` and
  `<plurals>` entries of one language, their validity tests, the `Resources`
  container with its counts, sorted views, lookups and `add_*` updates, and
  the `ResourceContainer` of all languages.
- **The parser** (`stringsheet/parser.py`). It:
  - reads the `<string>` entries of the `values*` directories of a `res` tree into `{language: {id: text}}`;
  - writes that dictionary out as spreadsheet rows (a header, then one row per default id);
  - reads such rows back, stopping at the first row that cannot be a string.

Files:

- `wrappers.dfy`: `Option`.
- `text.dfy` (module `Text`): Python's `<` on `str`; `sorted()` over a set of names; `startswith`, `endswith` and `partition`; dicts filled in a loop, where the last write wins; sums over name-keyed maps.
- `xml.dfy` (module `Xml`): an already parsed XML element (tag, attributes, text, children) and the `translatable` test.
- `model.dfy` (module `Model`): `stringsheet/model.py`. `StringArray`, `PluralString`, `Resources` and `ResourceContainer` are classes whose methods update their fields in place. Entries, validity tests, counts, sorted views and lookups are functions.
- `parser.dfy` (module `Parser`): `stringsheet/parser.py`. The loops of `parse_directory`, `parse_resources`, `create_*_sheet_values` and `parse_spreadsheet_values` are methods. Each is proved equal to a specification function, and the properties are stated as lemmas about that function.
- `roundtrip.dfy` (module `RoundTrip`): export followed by import.

A sheet cell is `Option<string>`: `None` is Python's `None`. A spreadsheet is a
sequence of rows of cells.

## Model

| member | source | states |
|---|---|---|
| Xml.TranslatableIff | stringsheet/model.py:7-8 | An element is translatable iff it has no `translatable` attribute or the attribute spells "true" in any letter case. |
| Model.StringIsValidIff | stringsheet/model.py:19-24 | A `<string>` element is accepted iff it has tag `string`, has a `name`, its `translatable` attribute is absent or spells "true", and its text does not start with '@' or '?'. |
| Model.ValidKindsExclusive | stringsheet/model.py:19-121 | No element passes two of the five `is_valid` tests. |
| Model.StringArray.constructor | stringsheet/model.py:38-41 | A new array has the given name and comment and no items. |
| Model.StringArray.Length | stringsheet/model.py:43-44 | `len(array)` is the number of items. |
| Model.StringArray.Get | stringsheet/model.py:46-47 | `array[i]` is item `i` for `i >= 0`, and item `len + i` for a negative `i`, as Python counts from the end; either way an item of the array. |
| Model.StringArray.AddItem | stringsheet/model.py:49-51 | The item is appended. The length grows by exactly one. Index `len-1` and index `-1` both hold the new item. Every earlier index keeps its item. |
| Model.InsertByQuantityCorrect | stringsheet/model.py:94-97 | Inserting into a sequence ordered by quantity key adds exactly that item (multiset) and keeps the order. |
| Model.SortByQuantityCorrect | stringsheet/model.py:94-97 | The stable sort by `quantity_order` returns a permutation of its input, non-decreasing in the key. |
| Model.PluralString.constructor | stringsheet/model.py:77-80 | A new plural set has the given name and comment and no items. |
| Model.PluralString.Get | stringsheet/model.py:82-83 | `plural[q]` is the item stored for `q`. |
| Model.PluralString.Contains | stringsheet/model.py:91-92 | `q in plural` iff `q` is a stored quantity. |
| Model.PluralString.Length | stringsheet/model.py:88-89 | `len(plural)` is the number of distinct stored quantities. |
| Model.PluralString.Set | stringsheet/model.py:85-86 | `plural[q] = item` overwrites the entry for `q`. Afterwards `q in plural` holds and `plural[q]` is the item. The length is the number of distinct quantities set. Other quantities keep their membership. |
| Model.PluralString.SortedItems | stringsheet/model.py:94-97 | `sorted_items` is a permutation of the stored items, with one element per quantity. Every stored item occurs, nothing else occurs, and the order is non-decreasing in `quantity_order`. |
| Model.Resources.constructor | stringsheet/model.py:109-112 | The three maps start empty, and the container is valid: every entry is stored under its own name. |
| Model.Resources.Contains | stringsheet/model.py:114-117 | `name in resources` iff the name is used by a string, an array or a plural set. |
| Model.Resources.CountNames | stringsheet/model.py:151-157 | `count()` is at least the number of distinct names. It equals that number iff the three namespaces are pairwise disjoint, so a name used twice counts twice. |
| Model.Resources.ItemCountBounds | stringsheet/model.py:159-175 | `item_count()` is at least the number of strings. When no array or plural set is empty, it is at least `count()`. |
| Model.Resources.SortedStrings | stringsheet/model.py:123-130 | Every stored string occurs exactly once, nothing else occurs, and names are strictly ascending. |
| Model.Resources.SortedArrays | stringsheet/model.py:132-140 | Every stored array occurs exactly once, nothing else occurs, and names are strictly ascending. |
| Model.Resources.SortedPlurals | stringsheet/model.py:142-149 | Every stored plural set occurs exactly once, nothing else occurs, and names are strictly ascending. |
| Model.Resources.GetStringText | stringsheet/model.py:177-179 | The stored string's text, or "" when the name is absent. |
| Model.Resources.GetArrayTextAsWritten | stringsheet/model.py:181-184 | The code as written: "" for an absent name, and AttributeError for every stored name. |
| Model.Resources.GetArrayText | stringsheet/model.py:181-184 | The corrected lookup: "" for an absent name, otherwise the text of the item at `index`, counting a negative index from the end. |
| Model.Resources.GetPluralText | stringsheet/model.py:186-190 | "" when the name is absent, and "" when the quantity is absent. Otherwise the stored item's text. |
| Model.Resources.AddString | stringsheet/model.py:192-193 | The string is stored under its name. `get_string_text` of that name gives the text, and of every other name gives what it gave before. Arrays and plurals are unchanged. `count()` and `item_count()` grow by one unless the name was already a string. Validity is kept. |
| Model.Resources.AddArray | stringsheet/model.py:195-196 | The array replaces any array of that name, and strings and plurals are unchanged. `count()` grows by one for a new name. `item_count()` grows by the array's length, minus the replaced array's length. Validity is kept. |
| Model.Resources.AddPlural | stringsheet/model.py:198-199 | The same as `AddArray`, for plural sets. |
| Model.ArrayTextScenario | stringsheet/model.py:181-184 | For an array holding one item: the code as written raises, and the corrected lookup returns the item's text. |
| Model.PluralTextScenario | stringsheet/model.py:186-199 | A plural set filled with `plural[q] = item` and stored with `add_plural`: `get_plural_text` returns each stored quantity's text, and "" for a missing quantity or a missing name. |
| Model.ResourceContainer.constructor | stringsheet/model.py:209-210 | A new container holds no language. |
| Model.ResourceContainer.Get | stringsheet/model.py:212-213 | `container[l]` is the resources stored for `l`. |
| Model.ResourceContainer.Contains | stringsheet/model.py:218-219 | `l in container` iff `l` is a stored language. |
| Model.ResourceContainer.Length | stringsheet/model.py:221-222 | `len(container)` is the number of distinct stored languages. |
| Model.ResourceContainer.Set | stringsheet/model.py:215-216 | `container[l] = r` stores `r` under `l`, replacing any earlier value. The length is the number of distinct languages. |
| Model.ResourceContainer.Languages | stringsheet/model.py:224-231 | `languages()` lists exactly the stored languages other than "default", strictly ascending (no duplicates). |
| Text.SortedKeys | stringsheet/parser.py:159 | `sorted()` over a set of names: each name exactly once, strictly ascending. |
| Text.SortedListingUnique | stringsheet/parser.py:123-124 | A strictly ascending listing of a set is unique. It is the `sorted()` of the set. |
| Text.Partition | stringsheet/parser.py:78 | `str.partition`: the three parts concatenate to the input. The separator is empty iff it does not occur. Otherwise the first part holds no occurrence. |
| Text.LastWinsSpec | stringsheet/parser.py:39-43 | A dict filled in order holds exactly the keys produced, each with the value of the last element producing it. |
| Text.UnionAllKeys | stringsheet/parser.py:65-68 | Repeated `dict.update` holds exactly the keys of the merged dicts. |
| Text.UnionAllLast | stringsheet/parser.py:65-68 | After repeated `dict.update`, each key has the value from the last dict that holds it. |
| Parser.ParseFileSpec | stringsheet/parser.py:20-43 | `{}` when the root is not a translatable `<resources>`. Otherwise an id is present iff some translatable `<string>` child with a `name` has it. Its text comes from the last such child. |
| Parser.ParseFileKeepsReferences | stringsheet/parser.py:37-43 | A string whose text is a reference such as "@string/x" is kept. The parser does no '@'/'?' filtering. |
| Parser.DirectoryStringsSpec | stringsheet/parser.py:46-69 | Only `.xml` files other than `donottranslate.xml` contribute. An id is present iff such a file has it, and its text comes from the last such file in listing order. |
| Parser.ParseDirectory | stringsheet/parser.py:50-69 | The filter-and-update loop computes exactly the merged dictionary above. |
| Parser.LanguageValidIff | stringsheet/parser.py:72-86 | A code is valid iff it is "default", or two characters other than "-r", or two characters then "-r" then two characters. |
| Parser.LanguagesAccepted | stringsheet/parser.py:72-86 | "default", "en" and "en-rUS" are valid. |
| Parser.LanguagesRefused | stringsheet/parser.py:72-86 | "e", "en-r", "en-rU" and "enr-US" are invalid. |
| Parser.ResourceStringsSpec | stringsheet/parser.py:89-120 | Every result key is a valid language with a non-empty dict. A language is present iff some `values*` directory maps to it (`values` maps to "default", otherwise the text after the first '-') and yields strings. The last such directory wins. |
| Parser.ParseResources | stringsheet/parser.py:89-120 | The loop with its `continue`s computes exactly that dictionary. |
| Parser.GetLanguages | stringsheet/parser.py:123-124 | Exactly the languages other than "default", strictly ascending. |
| Parser.SheetValuesHeader | stringsheet/parser.py:154-156 | For any order of languages and ids: one header row plus one row per id. The header is "id", "comment", "default", then the languages. |
| Parser.SheetValuesRow | stringsheet/parser.py:158-167 | Row `i` has `3 + #languages` cells: the id, `None`, the default text, then each language's text of the id or `None`. |
| Parser.SpreadsheetHeader | stringsheet/parser.py:154-156 | The exported header is "id", "comment", "default", then the non-default languages in ascending order. |
| Parser.SpreadsheetRow | stringsheet/parser.py:158-167 | Every exported row holds a default id, a `None` comment, the default text, and one cell per language, `None` where the language lacks the id. |
| Parser.SheetValuesIds | stringsheet/parser.py:158-159 | For a sorted listing of the default ids, the data rows hold each default id once, strictly ascending, and no other id. |
| Parser.SpreadsheetIds | stringsheet/parser.py:158-159 | There is one exported row per default id, strictly ascending. Ids that only other languages have never appear. |
| Parser.CreateSpreadsheetValues | stringsheet/parser.py:144-169 | The nested append loops build exactly the exported sheet described above. |
| Parser.LanguageSheetIsColumnOfSpreadsheet | stringsheet/parser.py:127-141 | The one-language sheet is the full sheet cut down to the id, comment, default and that language's columns, row for row. |
| Parser.CreateLanguageSheetValues | stringsheet/parser.py:127-141 | The loop builds exactly the one-language sheet. The language must exist only when there is a default id. |
| Parser.DataRowCount | stringsheet/parser.py:189-206 | The length of the data region: no row before it ends the region, and the row at it does. |
| Parser.DataRowCountAt | stringsheet/parser.py:189-206 | The first row with fewer than 3 cells, an empty id, an empty default text or a space in its id, or else the end, is where the data region stops. |
| Parser.LanguageStringsSpec | stringsheet/parser.py:188-208 | A language holds exactly the ids of the data region. Each has the cell of the last row with that id, or "" where that row is too short. |
| Parser.ParseColumnsSpec | stringsheet/parser.py:185-210 | One entry per header cell from index 2 on, holding the strings of the last column with that header. |
| Parser.ParseSheetSpec | stringsheet/parser.py:172-212 | The keys are exactly the header cells at index ≥ 2. Each entry comes from the last column with that header. Every entry has the same id set: the ids of the data region. |
| Parser.ParseLanguageColumn | stringsheet/parser.py:188-208 | The inner loop with its `break`s computes exactly one language's strings, as described above. |
| Parser.ParseSpreadsheetValues | stringsheet/parser.py:172-212 | The nested loops with their `break`s compute exactly that result. |
| RoundTrip.ExportedRowsAreData | stringsheet/parser.py:189-206 | When the ids are non-empty and space-free and their default texts are non-empty, no exported row ends the data region. Row `j` carries id `j`. |
| RoundTrip.ExportedColumn | stringsheet/parser.py:185-210 | Importing one exported column gives exactly the exported ids, each with the text of the column's language, `None` where that language lacks it. |
| RoundTrip.ParseExportedSheet | stringsheet/parser.py:144-212 | For any order of languages and importable ids: the import of the export has one entry for "default" and one per language. Each holds exactly those ids with that language's text. |
| RoundTrip.RoundTripLanguages | stringsheet/parser.py:144-212 | The import of `create_spreadsheet_values` has one entry per language, "default" included, over the default ids. |
| RoundTrip.RoundTrip | stringsheet/parser.py:144-212 | If every default id is non-empty and space-free and every default text is non-empty, export then import returns: "default" unchanged; every other language over exactly the default ids, with its own text or `None`. |
| RoundTrip.LanguageRoundTrip | stringsheet/parser.py:144-212 | Under the same conditions, one non-default language comes back over exactly the default ids, with its own text where it has the id and `None` where it lacks it. |
| RoundTrip.TwoLanguageRoundTrip | stringsheet/parser.py:144-212 | Exporting "default" = {a: hello, b: world} and "fr" = {a: bonjour}, then importing, gives "fr" = {a: bonjour, b: None}: the missing translation comes back as `None`, not "". |
| RoundTrip.ImportStopsAtEmptyRow | stringsheet/parser.py:189-201 | A row with an empty id ends the import: the rows after it are not read. |

## Left out

- XML parsing (`etree.parse`) is left out. A file is its name and its parsed root element. Malformed XML is the library's concern.
- `os.listdir` and path joining are left out. A directory is its name and its files in listing order, given as input. Every property holds for any listing order.
- `stringsheet/main.py` is not part of this model. It drives the Google Sheets API, printing and the writer, none of which are modelled.
- `comparator.quantity_order` is not part of this model. It is a parameter `order: string -> int`.
- Model.PluralString.SortedItems: ties in `quantity_order` are not broken by dict insertion order, which is not modelled. The items enter the stable sort ordered by quantity name, so only the permutation and key-order promises are stated.
- Xml.IsTranslatable: `str.lower()` is modelled for ASCII letters only. Other Unicode case mappings are not modelled.
- Model.StringIsValid: the source raises when an element that passes the first three tests has no text (`None.startswith`). The model requires such an element to have text instead of modelling the exception.
- Model.Resources.CountNames: `count()` follows the code. It adds up the three map sizes, so it is not the number of distinct names when namespaces overlap, as described in the lemma.
- Model.Resources.GetArrayText: the source's `get_array_text` fails for every stored name (see Findings). The corrected member indexes the array's items with Python's negative-index rule. Its `requires` asks for an index inside the array, where Python would raise IndexError.
- Model.Resources.SortedStrings: the sorted views are ghost functions, since `sorted()` over a set is specified by the least-element choice. The compiled counterpart for the parser's use is `Text.SortedKeys`, proved equal to it.
- Model.Resources.ItemCount, Model.ResourceContainer.Languages, Model.PluralString.SortedItems and Parser.GetLanguages are ghost functions too. They are built on `Text.SortedSet` (the least-element choice) or on `Text.SumValues` (a sum over a map that picks an arbitrary key). Their contracts are stated and proved, but these members have no compiled form.
- Model.StringArray.Get: the `requires` asks for an index inside the array. Python raises IndexError outside it, and that error path is not modelled.
- Model.PluralString.Get: the `requires` asks for a stored quantity. Python raises KeyError for any other, and that error path is not modelled.
- Model.ResourceContainer.Get: the `requires` asks for a stored language. Python raises KeyError for any other, and that error path is not modelled.
- Parser.ParseSheet and Parser.ParseSpreadsheetValues: the `requires` asks for at least the header row. On an empty sheet `values[0]` raises IndexError, and that error path is not modelled.
- Parser.LanguageSheetValues and Parser.CreateLanguageSheetValues: the `requires` asks for a "default" entry, and for the language to exist when there is a default id. Otherwise `strings['default']` or `strings[language]` raises KeyError, and that error path is not modelled.
- Parser.SpreadsheetValues and Parser.CreateSpreadsheetValues: the `requires` asks for a "default" entry. Without one, `strings['default']` raises KeyError, and that error path is not modelled.
- Parser.TextOf returns `None` for an absent language as well as an absent id. The exporters only ask for existing languages, which their `requires` and the `GetLanguagesExist` lemma ensure.
- RoundTrip.RoundTrip: the round trip is stated only for default ids that are non-empty and space-free and default texts that are non-empty. For other inputs the import stops early at the offending row, as `Parser.ParseSheetSpec` describes.
- Python's `sorted()` order on `str` is modelled as lexicographic order by code point (`Text.Less`), with a proper prefix first.

## Findings

| source | as written | input that shows it | evidently intended | confidence | as-written member | corrected member |
|---|---|---|---|---|---|---|
| stringsheet/model.py:184 | `self._arrays[name].sorted_items[index].text`, but `StringArray` has no `sorted_items`, so every stored name raises AttributeError | one array named "a" with one item, `get_array_text("a", 0)` | `self._arrays[name][index].text`, the text of the item at `index` | high (not executed) | Model.ArrayTextScenario | Model.Resources.GetArrayText |
