/** `attributesToString` and the void element an image becomes. */
module Html {
  import opened Text
  import opened Attributes

  /** `key="value"` for one attribute. */
  function AttrText(p: (string, string)): string {
    p.0 + "=\"" + p.1 + "\""
  }

  function AttrTexts(a: Attrs): (r: seq<string>)
    ensures |r| == |a| && forall i :: 0 <= i < |a| ==> r[i] == AttrText(a[i])
  {
    if |a| == 0 then [] else [AttrText(a[0])] + AttrTexts(a[1..])
  }

  /** `attributesToString(attributes)`: nothing for an empty map, otherwise a space and
      the `key="value"` texts joined by single spaces, in the map's order. */
  function AttributesToString(a: Attrs): string
  {
    if |a| == 0 then "" else " " + Join(AttrTexts(a), " ")
  }

  /** Every attribute contributes ` key="value"`, in order. */
  function EachAttribute(a: Attrs): string
  {
    if |a| == 0 then "" else " " + AttrText(a[0]) + EachAttribute(a[1..])
  }

  lemma {:induction false} AttributesToStringIsEach(a: Attrs)
    ensures AttributesToString(a) == EachAttribute(a)
  {
    if |a| > 1 {
      AttributesToStringIsEach(a[1..]);
      assert AttrTexts(a)[1..] == AttrTexts(a[1..]);
      assert Join(AttrTexts(a), " ") == AttrText(a[0]) + " " + Join(AttrTexts(a[1..]), " ");
      AppendAssoc(" " + AttrText(a[0]), " ", Join(AttrTexts(a[1..]), " "));
    } else if |a| == 1 {
      assert EachAttribute(a[1..]) == "";
    }
  }

  /** `<img ...>`: the element `createHTMLElement('image', attributes, '')` gives. */
  function ImageElement(a: Attrs): string
  {
    "<img" + AttributesToString(a) + ">"
  }
}
