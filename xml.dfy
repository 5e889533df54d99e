/**
 An already parsed XML element of an Android string resource file, as the
 element tree hands it over: its tag, its attributes, its text (None for an
 element without text) and its child elements in document order.
 */
module Xml {
  import opened Wrappers

  datatype Element = Element(
    tag: string,
    attrib: map<string, string>,
    text: Option<string>,
    children: seq<Element>)

  /** `element.get(key, default)`. */
  function Get(e: Element, key: string, default: string): string
  {
    if key in e.attrib then e.attrib[key] else default
  }

  /** `str.lower()`, restricted to ASCII letters. */
  function LowerChar(c: char): char
  {
    if 'A' <= c <= 'Z' then (c as int + 32) as char else c
  }

  function Lower(s: string): string
  {
    if s == [] then [] else [LowerChar(s[0])] + Lower(s[1..])
  }

  lemma {:induction false} LowerLength(s: string)
    ensures |Lower(s)| == |s|
  {
    if s != [] {
      LowerLength(s[1..]);
    }
  }

  /** `element.get('translatable', 'true').lower() == 'true'`. */
  predicate IsTranslatable(e: Element)
  {
    Lower(Get(e, "translatable", "true")) == "true"
  }

  /** The four letters of "true", each in either case. */
  predicate SpellsTrue(v: string)
  {
    |v| == 4 && (v[0] == 't' || v[0] == 'T') && (v[1] == 'r' || v[1] == 'R')
    && (v[2] == 'u' || v[2] == 'U') && (v[3] == 'e' || v[3] == 'E')
  }

  /** An element is translatable unless its `translatable` attribute spells something other than "true". */
  lemma TranslatableIff(e: Element)
    ensures IsTranslatable(e) <==> "translatable" !in e.attrib || SpellsTrue(e.attrib["translatable"])
  {
    var v := Get(e, "translatable", "true");
    if |v| == 4 {
      assert v[3..][1..] == [];
      assert Lower(v[3..]) == [LowerChar(v[3])];
      assert v[2..][1..] == v[3..];
      assert Lower(v[2..]) == [LowerChar(v[2]), LowerChar(v[3])];
      assert v[1..][1..] == v[2..];
      assert Lower(v[1..]) == [LowerChar(v[1]), LowerChar(v[2]), LowerChar(v[3])];
      assert Lower(v) == [LowerChar(v[0]), LowerChar(v[1]), LowerChar(v[2]), LowerChar(v[3])];
    } else if |v| > 4 {
      assert |Lower(v)| > 4 by { LowerLength(v); }
    } else {
      LowerLength(v);
    }
  }
}
