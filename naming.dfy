/** Class-name derivation shared by both converters. */
module Naming {

  /** `toUpperCase` on one character, restricted to ASCII letters. */
  function UpperChar(c: char): char {
    if 'a' <= c <= 'z' then (c as int - 32) as char else c
  }

  /** An upper-cased character is never a lower-case ASCII letter. */
  lemma UpperCharNotLower(c: char)
    ensures !('a' <= UpperChar(c) <= 'z')
  {
  }

  /** `toPascalCase`: the first character upper-cased, the rest unchanged. */
  function ToPascalCase(s: string): (r: string)
    ensures |r| == |s|
    ensures |s| > 0 ==> r[0] == UpperChar(s[0])
    ensures forall i :: 0 < i < |s| ==> r[i] == s[i]
  {
    if s == [] then [] else [UpperChar(s[0])] + s[1..]
  }

  /** `key.endsWith('s')` */
  predicate EndsWithS(key: string) {
    |key| > 0 && key[|key| - 1] == 's'
  }

  /** The class name for the items of an array held under `key`: a
      trailing `s` is dropped, otherwise `Item` is appended. */
  function ItemClassName(key: string): string {
    ToPascalCase(if EndsWithS(key) then key[..|key| - 1] else key + "Item")
  }

  /** Upper-casing the first character twice is upper-casing it once. */
  lemma PascalCaseIdempotent(s: string)
    ensures ToPascalCase(ToPascalCase(s)) == ToPascalCase(s)
  {
  }

  /** Only the head of a name is touched, so a suffix passes through. */
  lemma {:induction false} PascalCaseAppend(a: string, b: string)
    requires |a| > 0
    ensures ToPascalCase(a + b) == ToPascalCase(a) + b
  {
    assert (a + b)[0] == a[0];
    assert (a + b)[1..] == a[1..] + b;
  }

  /** The plural and the singular rule of item-class naming: `items`
      gives `Item`, `thing` gives `ThingItem`. */
  lemma {:induction false} ItemClassNaming(stem: string, key: string)
    ensures ItemClassName(stem + "s") == ToPascalCase(stem)
    ensures !EndsWithS(key) ==> ItemClassName(key) == ToPascalCase(key) + "Item"
  {
    var plural := stem + "s";
    assert EndsWithS(plural);
    assert plural[..|plural| - 1] == stem;
    if !EndsWithS(key) {
      if |key| > 0 {
        PascalCaseAppend(key, "Item");
      } else {
        assert key + "Item" == "Item";
      }
    }
  }
}
