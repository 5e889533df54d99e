/**
 The resource model of one Android project: `<string>`, `<string-array>` and
 `<plurals>` entries of one language (Resources), and the languages of a
 project (ResourceContainer). Strings and items are values; arrays, plural sets
 and the two containers are objects the source updates in place.
 */
module Model {
  import opened Wrappers
  import opened Text
  import opened Xml

  // ---------------------------------------------------------------------------
  // Which elements of a resource file the model accepts
  // ---------------------------------------------------------------------------

  /** `text.startswith(('@', '?'))`: a reference to another resource or theme attribute. */
  predicate StartsWithSigil(text: string)
  {
    |text| > 0 && (text[0] == '@' || text[0] == '?')
  }

  /**
   `String.is_valid`. The source calls `startswith` on the element text only
   when the first three tests pass; an element without text reaching that
   point raises, so such an element is outside what a caller may pass.
   */
  predicate StringIsValid(e: Element)
    requires e.tag == "string" && "name" in e.attrib && IsTranslatable(e) ==> e.text.Some?
  {
    e.tag == "string" && "name" in e.attrib && IsTranslatable(e) && !StartsWithSigil(e.text.value)
  }

  predicate StringArrayIsValid(e: Element)
  {
    e.tag == "string-array" && "name" in e.attrib && IsTranslatable(e)
  }

  predicate PluralItemIsValid(e: Element)
  {
    e.tag == "item" && "quantity" in e.attrib
  }

  predicate PluralStringIsValid(e: Element)
  {
    e.tag == "plurals" && "name" in e.attrib && IsTranslatable(e)
  }

  predicate ResourcesIsValid(e: Element)
  {
    e.tag == "resources" && IsTranslatable(e)
  }

  /**
   A `<string>` is accepted iff it has a name, its `translatable` attribute is
   absent or spells "true" in any letter case, and its text is not a reference.
   */
  lemma StringIsValidIff(e: Element)
    requires e.tag == "string" && "name" in e.attrib && IsTranslatable(e) ==> e.text.Some?
    ensures StringIsValid(e) <==>
      && e.tag == "string"
      && "name" in e.attrib
      && ("translatable" !in e.attrib || SpellsTrue(e.attrib["translatable"]))
      && e.text.Some? && !(|e.text.value| > 0 && (e.text.value[0] == '@' || e.text.value[0] == '?'))
  {
    TranslatableIff(e);
  }

  /** No element is accepted as two different kinds of entry. */
  lemma ValidKindsExclusive(e: Element)
    requires e.tag == "string" && "name" in e.attrib && IsTranslatable(e) ==> e.text.Some?
    ensures StringIsValid(e) ==> !StringArrayIsValid(e) && !PluralItemIsValid(e) && !PluralStringIsValid(e) && !ResourcesIsValid(e)
    ensures StringArrayIsValid(e) ==> !PluralItemIsValid(e) && !PluralStringIsValid(e) && !ResourcesIsValid(e)
    ensures PluralItemIsValid(e) ==> !PluralStringIsValid(e) && !ResourcesIsValid(e)
    ensures PluralStringIsValid(e) ==> !ResourcesIsValid(e)
  {
  }

  // ---------------------------------------------------------------------------
  // Entries
  // ---------------------------------------------------------------------------

  datatype String = String(name: string, text: string, comment: string)

  datatype StringArrayItem = StringArrayItem(text: string, comment: string)

  datatype PluralItem = PluralItem(quantity: string, text: string, comment: string)

  /** An exception the source raises instead of returning a text. */
  datatype PyError = AttributeError

  datatype TextOrError = Text(value: string) | Raised(error: PyError)

  /** An ordered list of items under one name. */
  class StringArray {
    const name: string
    const comment: string
    var items: seq<StringArrayItem>

    constructor (name: string, comment: string)
      ensures this.name == name && this.comment == comment
      ensures items == []
    {
      this.name := name;
      this.comment := comment;
      items := [];
    }

    /** `len(array)`: the number of items added so far. */
    function Length(): (r: nat)
      reads this
      ensures r == |items|
    {
      |items|
    }

    /** `array[index]`, where a negative index counts from the end as in Python. */
    function Get(index: int): (r: StringArrayItem)
      reads this
      requires -|items| <= index < |items|
      ensures index >= 0 ==> r == items[index]
      ensures index < 0 ==> r == items[|items| + index]
      ensures r in items
    {
      if index < 0 then items[|items| + index] else items[index]
    }

    method AddItem(text: string, comment: string)
      modifies this
      ensures items == old(items) + [StringArrayItem(text, comment)]
      ensures Length() == old(Length()) + 1
      ensures Get(old(Length())) == StringArrayItem(text, comment) && Get(-1) == StringArrayItem(text, comment)
      ensures forall i :: 0 <= i < old(Length()) ==> Get(i) == old(Get(i))
    {
      items := items + [StringArrayItem(text, comment)];
    }
  }

  // ---------------------------------------------------------------------------
  // Plural sets and their canonical order
  // ---------------------------------------------------------------------------

  /** The sort key of an item: the comparator's `quantity_order` of its quantity. */
  function Key(item: PluralItem, order: string -> int): int
  {
    order(item.quantity)
  }

  predicate ByQuantity(s: seq<PluralItem>, order: string -> int)
  {
    forall i, j :: 0 <= i < j < |s| ==> Key(s[i], order) <= Key(s[j], order)
  }

  /** Puts `x` before the first element whose key is not smaller, so equal keys keep their order. */
  function InsertByQuantity(x: PluralItem, s: seq<PluralItem>, order: string -> int): (r: seq<PluralItem>)
    ensures |r| == |s| + 1
    decreases |s|
  {
    if s == [] || Key(x, order) <= Key(s[0], order) then [x] + s
    else [s[0]] + InsertByQuantity(x, s[1..], order)
  }

  lemma {:induction false} InsertByQuantityCorrect(x: PluralItem, s: seq<PluralItem>, order: string -> int)
    requires ByQuantity(s, order)
    ensures multiset(InsertByQuantity(x, s, order)) == multiset(s) + multiset{x}
    ensures ByQuantity(InsertByQuantity(x, s, order), order)
    decreases |s|
  {
    if s != [] && Key(x, order) > Key(s[0], order) {
      var rest := InsertByQuantity(x, s[1..], order);
      InsertByQuantityCorrect(x, s[1..], order);
      InsertKeepsLowerBound(x, s[1..], order, Key(s[0], order));
      assert s == [s[0]] + s[1..];
      assert InsertByQuantity(x, s, order) == [s[0]] + rest;
      assert multiset([s[0]] + rest) == multiset{s[0]} + multiset(rest);
      assert multiset(s) == multiset{s[0]} + multiset(s[1..]);
      ByQuantityCons(s[0], rest, order);
    }
  }

  /** Inserting an item no lighter than `bound` into items no lighter than `bound` keeps them so. */
  lemma {:induction false} InsertKeepsLowerBound(x: PluralItem, s: seq<PluralItem>, order: string -> int, bound: int)
    requires forall k :: 0 <= k < |s| ==> bound <= Key(s[k], order)
    requires bound <= Key(x, order)
    ensures forall k :: 0 <= k < |s| + 1 ==> bound <= Key(InsertByQuantity(x, s, order)[k], order)
    decreases |s|
  {
    if s != [] && Key(x, order) > Key(s[0], order) {
      InsertKeepsLowerBound(x, s[1..], order, bound);
      var r := InsertByQuantity(x, s, order);
      forall k | 0 <= k < |s| + 1
        ensures bound <= Key(r[k], order)
      {
        if k > 0 {
          assert r[k] == InsertByQuantity(x, s[1..], order)[k - 1];
        }
      }
    }
  }

  /** An item no heavier than every item of a sorted sequence can go in front of it. */
  lemma ByQuantityCons(x: PluralItem, s: seq<PluralItem>, order: string -> int)
    requires ByQuantity(s, order)
    requires forall k :: 0 <= k < |s| ==> Key(x, order) <= Key(s[k], order)
    ensures ByQuantity([x] + s, order)
  {
    forall i, j | 0 <= i < j < |[x] + s|
      ensures Key(([x] + s)[i], order) <= Key(([x] + s)[j], order)
    {
      if i > 0 {
        assert ([x] + s)[i] == s[i - 1];
      }
      assert ([x] + s)[j] == s[j - 1];
    }
  }

  /** Python's stable `sorted(items, key=...)`, as an insertion sort. */
  function SortByQuantity(s: seq<PluralItem>, order: string -> int): seq<PluralItem>
    decreases |s|
  {
    if s == [] then []
    else InsertByQuantity(s[0], SortByQuantity(s[1..], order), order)
  }

  /** The sort returns a permutation of its input, ordered by the quantity key. */
  lemma {:induction false} SortByQuantityCorrect(s: seq<PluralItem>, order: string -> int)
    ensures multiset(SortByQuantity(s, order)) == multiset(s)
    ensures ByQuantity(SortByQuantity(s, order), order)
    ensures |SortByQuantity(s, order)| == |s|
    decreases |s|
  {
    if s != [] {
      SortByQuantityCorrect(s[1..], order);
      InsertByQuantityCorrect(s[0], SortByQuantity(s[1..], order), order);
      assert s == [s[0]] + s[1..];
    }
  }

  /** The items of one `<plurals>` entry, keyed by quantity. */
  class PluralString {
    const name: string
    const comment: string
    var items: map<string, PluralItem>

    constructor (name: string, comment: string)
      ensures this.name == name && this.comment == comment
      ensures items == map[]
    {
      this.name := name;
      this.comment := comment;
      items := map[];
    }

    /** `plural[quantity]`: the item stored for the quantity. */
    function Get(quantity: string): (r: PluralItem)
      reads this
      requires quantity in items
      ensures r == items[quantity] && r in items.Values
    {
      items[quantity]
    }

    /** `quantity in plural`. */
    predicate Contains(quantity: string): (r: bool)
      reads this
      ensures r <==> quantity in items.Keys
    {
      quantity in items
    }

    /** `len(plural)`: the number of distinct quantities stored. */
    function Length(): (r: nat)
      reads this
      ensures r == |items.Keys|
    {
      |items|
    }

    /** `plural[quantity] = item` overwrites whatever the quantity held. */
    method Set(quantity: string, item: PluralItem)
      modifies this
      ensures items == old(items)[quantity := item]
      ensures Contains(quantity) && Get(quantity) == item
      ensures Length() == |old(items).Keys + {quantity}|
      ensures forall q :: q != quantity ==> (Contains(q) <==> old(Contains(q)))
    {
      items := items[quantity := item];
      assert items.Keys == old(items).Keys + {quantity};
    }

    /** `sorted_items`: the stored items, ordered by the quantity key. */
    ghost function SortedItems(order: string -> int): (r: seq<PluralItem>)
      reads this
      ensures |r| == Length()
      ensures multiset(r) == multiset(ValuesByKey(items))
      ensures forall q :: q in items ==> items[q] in r
      ensures forall k :: 0 <= k < |r| ==> r[k] in items.Values
      ensures ByQuantity(r, order)
    {
      var values := ValuesByKey(items);
      var r := SortByQuantity(values, order);
      SortByQuantityCorrect(values, order);
      assert forall q :: q in items ==> items[q] in r by {
        forall q | q in items ensures items[q] in r {
          assert items[q] in multiset(values);
          assert items[q] in multiset(r);
        }
      }
      assert forall k :: 0 <= k < |r| ==> r[k] in items.Values by {
        forall k | 0 <= k < |r| ensures r[k] in items.Values {
          assert r[k] in multiset(r);
          assert r[k] in multiset(values);
          var i :| 0 <= i < |values| && values[i] == r[k];
        }
      }
      r
    }
  }

  // ---------------------------------------------------------------------------
  // One language
  // ---------------------------------------------------------------------------

  /** The number of items of each named array. */
  ghost function ArrayLengthsOf(arrays: map<string, StringArray>): map<string, nat>
    reads arrays.Values
  {
    map n | n in arrays :: |arrays[n].items|
  }

  /** The number of items of each named plural set. */
  ghost function PluralLengthsOf(plurals: map<string, PluralString>): map<string, nat>
    reads plurals.Values
  {
    map n | n in plurals :: |plurals[n].items|
  }

  lemma ArrayLengthsOfUpdate(arrays: map<string, StringArray>, name: string, a: StringArray)
    ensures ArrayLengthsOf(arrays[name := a]) == ArrayLengthsOf(arrays)[name := |a.items|]
  {
  }

  /** The item counts of arrays the heap change did not touch stay as they were. */
  twostate lemma ArrayLengthsFramed(arrays: map<string, StringArray>)
    requires unchanged(arrays.Values)
    ensures ArrayLengthsOf(arrays) == old(ArrayLengthsOf(arrays))
  {
  }

  twostate lemma PluralLengthsFramed(plurals: map<string, PluralString>)
    requires unchanged(plurals.Values)
    ensures PluralLengthsOf(plurals) == old(PluralLengthsOf(plurals))
  {
  }

  lemma PluralLengthsOfUpdate(plurals: map<string, PluralString>, name: string, p: PluralString)
    ensures PluralLengthsOf(plurals[name := p]) == PluralLengthsOf(plurals)[name := |p.items|]
  {
  }

  /** Storing an array under its name replaces the old array's item count by the new one's. */
  lemma ArraySumUpdate(arrays: map<string, StringArray>, a: StringArray)
    ensures SumValues(ArrayLengthsOf(arrays[a.name := a]))
            == SumValues(ArrayLengthsOf(arrays)) + |a.items| - (if a.name in arrays then |arrays[a.name].items| else 0)
  {
    ArrayLengthsOfUpdate(arrays, a.name, a);
    SumUpdate(ArrayLengthsOf(arrays), a.name, |a.items|);
  }

  /** Storing a plural set under its name replaces the old set's item count by the new one's. */
  lemma PluralSumUpdate(plurals: map<string, PluralString>, p: PluralString)
    ensures SumValues(PluralLengthsOf(plurals[p.name := p]))
            == SumValues(PluralLengthsOf(plurals)) + |p.items| - (if p.name in plurals then |plurals[p.name].items| else 0)
  {
    PluralLengthsOfUpdate(plurals, p.name, p);
    SumUpdate(PluralLengthsOf(plurals), p.name, |p.items|);
  }

  /** Storing under a fresh key adds one entry; storing under a used key replaces one. */
  lemma StoreSize<V>(m: map<string, V>, key: string, v: V)
    ensures |m[key := v]| == |m| + (if key in m then 0 else 1)
  {
    if key !in m {
      assert m[key := v].Keys == m.Keys + {key};
    } else {
      assert m[key := v].Keys == m.Keys;
    }
  }

  /** The `<resources>` of one language: three name-keyed maps. */
  class Resources {
    var strings: map<string, String>
    var arrays: map<string, StringArray>
    var plurals: map<string, PluralString>

    /** Every entry is stored under its own name. */
    ghost predicate Valid()
      reads this
    {
      && (forall n :: n in strings ==> strings[n].name == n)
      && (forall n :: n in arrays ==> arrays[n].name == n)
      && (forall n :: n in plurals ==> plurals[n].name == n)
    }

    constructor ()
      ensures Valid()
      ensures strings == map[] && arrays == map[] && plurals == map[]
    {
      strings, arrays, plurals := map[], map[], map[];
    }

    /** `name in resources`: the name is used in any of the three namespaces. */
    predicate Contains(name: string): (r: bool)
      reads this
      ensures r <==> name in Names()
    {
      name in strings || name in arrays || name in plurals
    }

    ghost function Names(): set<string>
      reads this
    {
      strings.Keys + arrays.Keys + plurals.Keys
    }

    /** `count()`: the sizes of the three maps added up. */
    function Count(): nat
      reads this
    {
      |strings| + |arrays| + |plurals|
    }

    /**
     A name used in two namespaces is counted twice, so the count is at least
     the number of distinct names, and equals it exactly when the namespaces
     do not overlap.
     */
    lemma CountNames()
      ensures Count() >= |Names()|
      ensures Count() == |Names()| <==> strings.Keys !! arrays.Keys && strings.Keys !! plurals.Keys && arrays.Keys !! plurals.Keys
    {
      CardUnion3(strings.Keys, arrays.Keys, plurals.Keys);
    }

    ghost function ArrayLengths(): map<string, nat>
      reads this`arrays, arrays.Values
    {
      ArrayLengthsOf(arrays)
    }

    ghost function PluralLengths(): map<string, nat>
      reads this`plurals, plurals.Values
    {
      PluralLengthsOf(plurals)
    }

    /** `item_count()`: one per string, plus the length of every array and of every plural set. */
    ghost function ItemCount(): nat
      reads this, arrays.Values, plurals.Values
    {
      |strings| + SumValues(ArrayLengths()) + SumValues(PluralLengths())
    }

    /** The item count is at least the string count, and at least the entry count when no array or plural set is empty. */
    lemma ItemCountBounds()
      ensures ItemCount() >= |strings|
      ensures (forall a :: a in arrays.Values ==> |a.items| > 0) && (forall p :: p in plurals.Values ==> |p.items| > 0)
              ==> ItemCount() >= Count()
    {
      var al := ArrayLengths();
      var pl := PluralLengths();
      SumAtLeastSize(al);
      SumAtLeastSize(pl);
      assert al.Keys == arrays.Keys && pl.Keys == plurals.Keys;
      if forall a :: a in arrays.Values ==> |a.items| > 0 {
        forall k | k in al ensures al[k] >= 1 {
          assert arrays[k] in arrays.Values;
        }
      }
      if forall p :: p in plurals.Values ==> |p.items| > 0 {
        forall k | k in pl ensures pl[k] >= 1 {
          assert plurals[k] in plurals.Values;
        }
      }
    }

    /** `sorted_strings`: every stored string once, in ascending name order. */
    ghost function SortedStrings(): (r: seq<String>)
      reads this
      requires Valid()
      ensures |r| == |strings|
      ensures forall k :: 0 <= k < |r| ==> r[k].name in strings && strings[r[k].name] == r[k]
      ensures forall n :: n in strings ==> strings[n] in r
      ensures forall i, j :: 0 <= i < j < |r| ==> Less(r[i].name, r[j].name)
    {
      ValuesByKey(strings)
    }

    /** `sorted_arrays`: every stored array once, in ascending name order. */
    ghost function SortedArrays(): (r: seq<StringArray>)
      reads this
      requires Valid()
      ensures |r| == |arrays|
      ensures forall k :: 0 <= k < |r| ==> r[k].name in arrays && arrays[r[k].name] == r[k]
      ensures forall n :: n in arrays ==> arrays[n] in r
      ensures forall i, j :: 0 <= i < j < |r| ==> Less(r[i].name, r[j].name)
    {
      ValuesByKey(arrays)
    }

    /** `sorted_plurals`: every stored plural set once, in ascending name order. */
    ghost function SortedPlurals(): (r: seq<PluralString>)
      reads this
      requires Valid()
      ensures |r| == |plurals|
      ensures forall k :: 0 <= k < |r| ==> r[k].name in plurals && plurals[r[k].name] == r[k]
      ensures forall n :: n in plurals ==> plurals[n] in r
      ensures forall i, j :: 0 <= i < j < |r| ==> Less(r[i].name, r[j].name)
    {
      ValuesByKey(plurals)
    }

    /** `get_string_text`: the text of the named string, "" when there is none. */
    function GetStringText(name: string): (t: string)
      reads this
      ensures name !in strings ==> t == ""
      ensures name in strings ==> t == strings[name].text
    {
      if name in strings then strings[name].text else ""
    }

    /**
     `get_array_text` as written: the absent name gives "", but a present name
     reaches `.sorted_items`, which a StringArray does not have.
     */
    function GetArrayTextAsWritten(name: string, index: int): (t: TextOrError)
      reads this
      ensures name !in arrays ==> t == Text("")
      ensures name in arrays ==> t == Raised(AttributeError)
    {
      if name !in arrays then Text("") else Raised(AttributeError)
    }

    /** `get_array_text` as intended: the text of the item at `index` (Python indexing), "" for an absent name. */
    function GetArrayText(name: string, index: int): (t: string)
      reads this, arrays.Values
      requires name in arrays ==> -(arrays[name].Length() as int) <= index < arrays[name].Length()
      ensures name !in arrays ==> t == ""
      ensures name in arrays && 0 <= index ==> t == arrays[name].items[index].text
      ensures name in arrays && index < 0 ==> t == arrays[name].items[|arrays[name].items| + index].text
    {
      if name !in arrays then "" else arrays[name].Get(index).text
    }

    /** `get_plural_text`: the text for the quantity, "" when the name or the quantity is absent. */
    function GetPluralText(name: string, quantity: string): (t: string)
      reads this, plurals.Values
      ensures name !in plurals ==> t == ""
      ensures name in plurals && quantity !in plurals[name].items ==> t == ""
      ensures name in plurals && quantity in plurals[name].items ==> t == plurals[name].items[quantity].text
    {
      if name !in plurals then ""
      else
        var plural := plurals[name];
        if plural.Contains(quantity) then plural.Get(quantity).text else ""
    }

    /** `add_string`: stores a new String under its name, replacing an older one. */
    method AddString(name: string, text: string, comment: string)
      requires Valid()
      modifies this
      ensures Valid()
      ensures strings == old(strings)[name := String(name, text, comment)]
      ensures arrays == old(arrays) && plurals == old(plurals)
      ensures GetStringText(name) == text && Contains(name)
      ensures forall n :: n != name ==> GetStringText(n) == old(GetStringText(n))
      ensures Count() == old(Count()) + (if name in old(strings) then 0 else 1)
      ensures ItemCount() == old(ItemCount()) + (if name in old(strings) then 0 else 1)
    {
      strings := strings[name := String(name, text, comment)];
      ArrayLengthsFramed(arrays);
      PluralLengthsFramed(plurals);
      StoreSize(old(strings), name, String(name, text, comment));
    }

    /** `add_array`: stores the array object under its name, replacing an older one. */
    method AddArray(stringArray: StringArray)
      requires Valid()
      modifies this
      ensures Valid()
      ensures arrays == old(arrays)[stringArray.name := stringArray]
      ensures strings == old(strings) && plurals == old(plurals)
      ensures Contains(stringArray.name)
      ensures Count() == old(Count()) + (if stringArray.name in old(arrays) then 0 else 1)
      ensures ItemCount() == old(ItemCount()) + |stringArray.items|
                             - (if stringArray.name in old(arrays) then old(|arrays[stringArray.name].items|) else 0)
    {
      arrays := arrays[stringArray.name := stringArray];
      PluralLengthsFramed(plurals);
      ArrayLengthsFramed(old(arrays));
      ArraySumUpdate(old(arrays), stringArray);
      StoreSize(old(arrays), stringArray.name, stringArray);
    }

    /** `add_plural`: stores the plural object under its name, replacing an older one. */
    method AddPlural(plural: PluralString)
      requires Valid()
      modifies this
      ensures Valid()
      ensures plurals == old(plurals)[plural.name := plural]
      ensures strings == old(strings) && arrays == old(arrays)
      ensures Contains(plural.name)
      ensures Count() == old(Count()) + (if plural.name in old(plurals) then 0 else 1)
      ensures ItemCount() == old(ItemCount()) + |plural.items|
                             - (if plural.name in old(plurals) then old(|plurals[plural.name].items|) else 0)
    {
      plurals := plurals[plural.name := plural];
      ArrayLengthsFramed(arrays);
      PluralLengthsFramed(old(plurals));
      PluralSumUpdate(old(plurals), plural);
      StoreSize(old(plurals), plural.name, plural);
    }
  }

  /**
   The `get_array_text` defect on a concrete object graph: one array with one
   item. The source as written raises; the intended lookup returns the item.
   */
  method ArrayTextScenario(name: string, text: string, comment: string) returns (asWritten: TextOrError, intended: string)
    ensures asWritten == Raised(AttributeError)
    ensures intended == text
  {
    var resources := new Resources();
    var stringArray := new StringArray(name, comment);
    stringArray.AddItem(text, comment);
    resources.AddArray(stringArray);
    asWritten := resources.GetArrayTextAsWritten(name, 0);
    intended := resources.GetArrayText(name, 0);
  }

  /**
   A plural set filled through `plural[quantity] = item` and stored with
   `add_plural`: `get_plural_text` finds each stored quantity's text, and ""
   for a missing quantity or a missing name.
   */
  method PluralTextScenario(name: string, other: string, text: string, oneText: string)
      returns (stored: string, storedOne: string, missingQuantity: string, missingName: string)
    requires name != other
    ensures stored == text && storedOne == oneText
    ensures missingQuantity == "" && missingName == ""
  {
    var resources := new Resources();
    var plural := new PluralString(name, "");
    plural.Set("other", PluralItem("other", text, ""));
    plural.Set("one", PluralItem("one", oneText, ""));
    ghost var items := plural.items;
    assert "other" in items && items["other"].text == text;
    assert "one" in items && items["one"].text == oneText;
    assert "few" !in items;
    resources.AddPlural(plural);
    assert plural.items == items;
    assert name in resources.plurals && resources.plurals[name] == plural && other !in resources.plurals;
    stored := resources.GetPluralText(name, "other");
    storedOne := resources.GetPluralText(name, "one");
    missingQuantity := resources.GetPluralText(name, "few");
    missingName := resources.GetPluralText(other, "other");
  }

  // ---------------------------------------------------------------------------
  // All languages
  // ---------------------------------------------------------------------------

  /** Resources by language; "default" is the project's primary language. */
  class ResourceContainer {
    var byLanguage: map<string, Resources>

    constructor ()
      ensures byLanguage == map[]
    {
      byLanguage := map[];
    }

    /** `container[language]`: the resources stored for the language. */
    function Get(language: string): (r: Resources)
      reads this
      requires language in byLanguage
      ensures r == byLanguage[language] && r in byLanguage.Values
    {
      byLanguage[language]
    }

    /** `language in container`. */
    predicate Contains(language: string): (r: bool)
      reads this
      ensures r <==> language in byLanguage.Keys
    {
      language in byLanguage
    }

    /** `len(container)`: the number of distinct languages stored. */
    function Length(): (r: nat)
      reads this
      ensures r == |byLanguage.Keys|
    {
      |byLanguage|
    }

    /** `container[language] = resources` replaces whatever the language held. */
    method Set(language: string, resources: Resources)
      modifies this
      ensures byLanguage == old(byLanguage)[language := resources]
      ensures Contains(language) && Get(language) == resources
      ensures Length() == |old(byLanguage).Keys + {language}|
    {
      byLanguage := byLanguage[language := resources];
      assert byLanguage.Keys == old(byLanguage).Keys + {language};
    }

    /** `languages()`: the stored languages other than "default", ascending, each once. */
    ghost function Languages(): (r: seq<string>)
      reads this
      ensures forall l :: l in r <==> l in byLanguage && l != "default"
      ensures "default" !in r
      ensures StrictlyAscending(r)
      ensures |r| == |byLanguage| - (if "default" in byLanguage then 1 else 0)
    {
      SortedSet(byLanguage.Keys - {"default"})
    }
  }
}
