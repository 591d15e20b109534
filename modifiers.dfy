/** `applyModifier` and `applyFormElementModifier`: what one chained `.name(param)`
    does to already-rendered content. Plain content is wrapped in a pair of tags;
    a `<button`/`<input` element instead gains a `style` or `class` attribute in
    its opening tag; an `<img ` element is left alone. A chain is folded left to
    right, so its first modifier ends up innermost. */
module Modifiers {
  import opened Text
  import opened Styles
  import opened Scanners

  // ---------------------------------------------------------------------
  // applyModifier on ordinary content
  // ---------------------------------------------------------------------

  /** Content that `applyModifier` treats as ordinary text: neither an image nor a
      form element. */
  predicate Plain(content: string) {
    !StartsWith(content, "<img ") && !StartsWith(content, "<button") && !StartsWith(content, "<input")
  }

  predicate IsFormElement(content: string) {
    StartsWith(content, "<button") || StartsWith(content, "<input")
  }

  /** An element put around content: `<tag attrs>` before it, `</tag>` after it. */
  datatype Wrapper = Wrapper(tag: string, attrs: string)

  function Open(w: Wrapper): string {
    "<" + w.tag + w.attrs + ">"
  }

  function Close(w: Wrapper): string {
    "</" + w.tag + ">"
  }

  /** The element the `switch` of `applyModifier` puts around ordinary content; `None`
      where it returns the content unchanged. */
  function WrapperOf(name: string, param: string): (r: Option<Wrapper>)
    ensures r.Some? ==> r.value.tag in {"strong", "em", "u", "code", "s", "mark", "span"}
  {
    if name == "bold" then Some(Wrapper("strong", ""))
    else if name == "italic" then Some(Wrapper("em", ""))
    else if name == "underline" then Some(Wrapper("u", ""))
    else if name == "code" then Some(Wrapper("code", ""))
    else if name == "strikethrough" then Some(Wrapper("s", ""))
    else if name == "highlight" then
      (if param != "" then Some(Wrapper("mark", " style=\"background-color: " + StripDot(param) + "\""))
       else Some(Wrapper("mark", "")))
    else if name == "font" then
      (if param != "" then
         var f := FontFor(StripDot(param));
         Some(Wrapper("span", " style=\"font-family: " + f.0 + "\" class=\"" + f.1 + "\""))
       else None)
    else if name == "textcolor" then
      (if param != "" then Some(Wrapper("span", " style=\"color: " + StripDot(param) + "\"")) else None)
    else if name == "size" then
      (if param != "" && |SizePairs(param)| > 0
       then Some(Wrapper("span", " style=\"" + JoinedDeclarations(SizePairs(param)) + "\""))
       else None)
    else if name == "fill" then
      (if param != "" && IsFillMode(Trim(param))
       then Some(Wrapper("span", " style=\"object-fit: " + Trim(param) + "; display: inline-block\""))
       else None)
    else if name == "radius" then
      (if param != "" then Some(Wrapper("span", " style=\"border-radius: " + param + "\"")) else None)
    else Some(Wrapper("span", " class=\"" + name + "\""))
  }

  function Wrap(content: string, w: Option<Wrapper>): string {
    match w
    case Some(w) => Open(w) + content + Close(w)
    case None => content
  }

  /** The names the `switch` of `applyModifier` knows. */
  predicate KnownModifier(name: string) {
    name in {"bold", "italic", "underline", "code", "strikethrough", "highlight", "font",
             "textcolor", "size", "fill", "radius"}
  }

  /** `applyModifier(content, name, param)`; an absent parameter is `""`. */
  function ApplyModifier(content: string, name: string, param: string): string
  {
    if StartsWith(content, "<img ") then content
    else if IsFormElement(content) then ApplyFormElementModifier(content, name, param)
    else Wrap(content, WrapperOf(name, param))
  }

  /** Ordinary content is wrapped, never dropped or altered, and the result is ordinary
      content again, so the next modifier of a chain wraps it in turn. */
  lemma PlainIsWrapped(content: string, name: string, param: string)
    requires Plain(content)
    ensures ApplyModifier(content, name, param) == Wrap(content, WrapperOf(name, param))
    ensures Plain(ApplyModifier(content, name, param))
  {
    match WrapperOf(name, param)
    case Some(w) =>
      var r := Open(w) + content + Close(w);
      assert r[1] == w.tag[0];
      assert "<img "[1] == 'i' && "<button"[1] == 'b' && "<input"[1] == 'i';
      assert !StartsWith(r, "<img ") && !StartsWith(r, "<button") && !StartsWith(r, "<input") by {
        assert w.tag[0] in "seucm";
      }
    case None =>
  }

  // ---------------------------------------------------------------------
  // applyFormElementModifier
  // ---------------------------------------------------------------------

  /** Where `/<(button|input)/` first matches, and the length of the matched tag. */
  function FormTag(content: string): (r: Option<(nat, nat)>)
    ensures r.Some? ==> r.value.0 + r.value.1 <= |content|
    ensures r.Some? ==> At(content, r.value.0, if r.value.1 == 7 then "<button" else "<input")
  {
    match (IndexOf(content, "<button"), IndexOf(content, "<input"))
    case (Some(b), Some(i)) => if b <= i then Some((b, 7)) else Some((i, 6))
    case (Some(b), None) => Some((b, 7))
    case (None, Some(i)) => Some((i, 6))
    case (None, None) => None
  }

  /** `content.replace(/<(button|input)/, '<$1 ' + attr)`. */
  function InsertAfterTag(content: string, attr: string): string
  {
    match FormTag(content)
    case Some((p, n)) => content[..p + n] + " " + attr + content[p + n..]
    case None => content
  }

  /** The first match of `/attr="([^"]*)"/`: where it starts, where its value starts
      and where the closing quote is. The first `attr="` decides: when no quote follows
      it, none follows any later occurrence either. */
  function QuotedAttr(content: string, attr: string): (r: Option<(nat, nat, nat)>)
    ensures r.Some? ==> r.value.0 + |attr| + 2 == r.value.1 <= r.value.2 < |content|
    ensures r.Some? ==> At(content, r.value.0, attr + "=\"") && content[r.value.2] == '"'
    ensures r.Some? ==> forall j :: r.value.1 <= j < r.value.2 ==> content[j] != '"'
    ensures r.Some? ==> forall j :: 0 <= j < r.value.0 ==> !At(content, j, attr + "=\"")
    ensures r.None? ==> forall j :: At(content, j, attr + "=\"") ==> !Occurs(content[j + |attr| + 2..], '"')
  {
    match IndexOf(content, attr + "=\"")
    case None => None
    case Some(p) =>
      var v := p + |attr| + 2;
      var n := RunWithout(content[v..], '"');
      if v + n < |content| then Some((p, v, v + n)) else None
  }

  /** `styleMatch ? styleMatch[1] : ''`. */
  function CurrentStyle(content: string): string
  {
    match QuotedAttr(content, "style")
    case Some((_, v, q)) => content[v..q]
    case None => ""
  }

  /** `content.replace(/attr="([^"]*)"/, 'attr="' + value + '"')`. */
  function ReplaceQuoted(content: string, attr: string, value: string): string
  {
    match QuotedAttr(content, attr)
    case Some((_, v, q)) => content[..v] + value + content[q..]
    case None => content
  }

  /** A class added to a form element: a new `class` attribute after the tag when the
      content has no `class="`, otherwise ` c` before the closing quote of the first
      class value (nothing when that value is never closed). */
  function AddFormClass(content: string, c: string): string
  {
    if !Includes(content, "class=\"") then InsertAfterTag(content, "class=\"" + c + "\"")
    else match QuotedAttr(content, "class")
      case Some((_, _, q)) => content[..q] + " " + c + content[q..]
      case None => content
  }

  /** The names the `switch` of `applyFormElementModifier` turns into style. */
  predicate FormStyleModifier(name: string) {
    name in {"textcolor", "bgcolor", "font", "radius", "size"}
  }

  /** The style text a form-element modifier contributes (`newStyle`). */
  function FormStyle(name: string, param: string): string
    requires FormStyleModifier(name)
  {
    if param == "" then ""
    else if name == "textcolor" then "color: " + StripDot(param) + ";"
    else if name == "bgcolor" then "background-color: " + StripDot(param) + ";"
    else if name == "font" then "font-family: " + FontFor(StripDot(param)).0 + ";"
    else if name == "radius" then "border-radius: " + param + ";"
    else Declarations(SizePairs(param))
  }

  /** `applyFormElementModifier(content, name, param)`. The current style is read
      before the font class is added, as in the source. */
  function ApplyFormElementModifier(content: string, name: string, param: string): string
  {
    if !FormStyleModifier(name) then AddFormClass(content, name)
    else SpliceStyle(CurrentStyle(content), FontClassed(content, name, param), FormStyle(name, param))
  }

  /** The font modifier with a parameter also adds the font's class. */
  function FontClassed(content: string, name: string, param: string): string
  {
    if name == "font" && param != "" then AddFormClass(content, FontFor(StripDot(param)).1) else content
  }

  /** The new style joins a non-empty current style after a space, or becomes a new
      `style` attribute after the tag. */
  function SpliceStyle(cur: string, content: string, newStyle: string): string
  {
    if cur != "" then ReplaceQuoted(content, "style", cur + " " + newStyle)
    else InsertAfterTag(content, "style=\"" + newStyle + "\"")
  }

  // ---------------------------------------------------------------------
  // Chains
  // ---------------------------------------------------------------------

  /** The modifiers applied in order, each to the previous result. */
  function ApplyChain(content: string, ms: seq<Mod>): string
    decreases |ms|
  {
    if |ms| == 0 then content else ApplyChain(ApplyModifier(content, ms[0].name, ms[0].param), ms[1..])
  }

  /** The `exec` loop over a modifier chain's text shared by every snippet form. */
  method ApplyModifierChain(content: string, modifiers: string) returns (result: string)
    ensures result == ApplyChain(content, ScanModifiers(modifiers))
  {
    result := content;
    var pos := 0;
    while pos < |modifiers|
      invariant pos <= |modifiers|
      invariant ApplyChain(result, ScanFrom(modifiers, pos)) == ApplyChain(content, ScanModifiers(modifiers))
      decreases |modifiers| - pos
    {
      match ElementFrom(modifiers, pos)
      case Some((m, e)) =>
        result := ApplyModifier(result, m.name, m.param);
        pos := e;
      case None =>
        pos := pos + 1;
    }
  }

  function OpenOf(w: Option<Wrapper>): string {
    match w case Some(w) => Open(w) case None => ""
  }

  function CloseOf(w: Option<Wrapper>): string {
    match w case Some(w) => Close(w) case None => ""
  }

  /** The opening tags of a chain on ordinary content, outermost first: the last
      modifier's tag comes first. */
  function Openings(ms: seq<Mod>): string
  {
    if |ms| == 0 then "" else Openings(ms[1..]) + OpenOf(WrapperOf(ms[0].name, ms[0].param))
  }

  /** The closing tags of a chain, innermost first. */
  function Closings(ms: seq<Mod>): string
  {
    if |ms| == 0 then "" else CloseOf(WrapperOf(ms[0].name, ms[0].param)) + Closings(ms[1..])
  }

  /** On ordinary content a chain nests its elements with the first modifier innermost. */
  lemma {:induction false} ChainNests(content: string, ms: seq<Mod>)
    requires Plain(content)
    ensures ApplyChain(content, ms) == Openings(ms) + content + Closings(ms)
    decreases |ms|
  {
    if |ms| > 0 {
      var w := WrapperOf(ms[0].name, ms[0].param);
      var inner := ApplyModifier(content, ms[0].name, ms[0].param);
      PlainIsWrapped(content, ms[0].name, ms[0].param);
      var a, b := OpenOf(w), CloseOf(w);
      assert inner == a + content + b;
      ChainNests(inner, ms[1..]);
      var o, c := Openings(ms[1..]), Closings(ms[1..]);
      assert ApplyChain(content, ms) == o + (a + content + b) + c;
      NestStep(o, a, content, b, c);
    }
  }

  lemma NestStep(o: string, a: string, x: string, b: string, c: string)
    ensures o + (a + x + b) + c == (o + a) + x + (b + c)
  {
  }

  /** Appending a modifier to a chain applies it to the chain's result. */
  lemma {:induction false} ChainSnoc(content: string, ms: seq<Mod>, m: Mod)
    ensures ApplyChain(content, ms + [m]) == ApplyModifier(ApplyChain(content, ms), m.name, m.param)
    decreases |ms|
  {
    if |ms| > 0 {
      assert (ms + [m])[1..] == ms[1..] + [m];
      ChainSnoc(ApplyModifier(content, ms[0].name, ms[0].param), ms[1..], m);
    } else {
      assert [m][1..] == [];
    }
  }

  /** `.bold.italic` is read as `bold` then `italic`. */
  lemma ScanBoldItalic()
    ensures ScanModifiers(".bold.italic") == [Mod("bold", ""), Mod("italic", "")]
  {
    var s := ".bold.italic";
    WordEndExact(s, 1, 5);
    assert ElementFrom(s, 0) == Some((Mod("bold", ""), 5)) by {
      assert s[1..5] == "bold";
    }
    WordEndExact(s, 6, 12);
    assert ElementFrom(s, 5) == Some((Mod("italic", ""), 12)) by {
      assert s[6..12] == "italic";
    }
    assert ScanFrom(s, 12) == [];
  }

  /** `.bold.italic[x]` renders as `<em><strong>x</strong></em>`. */
  lemma BoldItalic(x: string)
    requires Plain(x)
    ensures ApplyChain(x, ScanModifiers(".bold.italic")) == "<em><strong>" + x + "</strong></em>"
  {
    ScanBoldItalic();
    ChainNests(x, [Mod("bold", ""), Mod("italic", "")]);
    BoldItalicTags();
  }

  lemma BoldItalicTags()
    ensures Openings([Mod("bold", ""), Mod("italic", "")]) == "<em><strong>"
    ensures Closings([Mod("bold", ""), Mod("italic", "")]) == "</strong></em>"
  {
    var ms := [Mod("bold", ""), Mod("italic", "")];
    assert WrapperOf("bold", "") == Some(Wrapper("strong", ""));
    assert WrapperOf("italic", "") == Some(Wrapper("em", ""));
    assert ms[1..] == [Mod("italic", "")] && ms[1..][1..] == [];
  }

  // ---------------------------------------------------------------------
  // Properties of applyModifier
  // ---------------------------------------------------------------------

  /** An image is never changed by a modifier. */
  lemma ImageUnchanged(content: string, name: string, param: string)
    requires StartsWith(content, "<img ")
    ensures ApplyModifier(content, name, param) == content
  {
  }

  /** The cases in which `applyModifier` returns ordinary content unchanged: `font`,
      `textcolor` and `radius` without a parameter, `size` without any complete
      `prop:value` pair, and `fill` with a mode outside the five `object-fit` values. */
  lemma ModifierFallbacks(content: string, name: string, param: string)
    requires Plain(content)
    requires (name in {"font", "textcolor", "radius"} && param == "")
      || (name == "size" && |SizePairs(param)| == 0)
      || (name == "fill" && !IsFillMode(Trim(param)))
    ensures ApplyModifier(content, name, param) == content
  {
    assert WrapperOf(name, param) == None;
  }

  /** A name the `switch` does not know wraps ordinary content in a span of that class. */
  lemma UnknownModifierIsClass(content: string, name: string, param: string)
    requires Plain(content) && !KnownModifier(name)
    ensures ApplyModifier(content, name, param) == "<span class=\"" + name + "\">" + content + "</span>"
  {
    var w := Wrapper("span", " class=\"" + name + "\"");
    assert WrapperOf(name, param) == Some(w);
    SpanClassText(name);
  }

  lemma SpanClassText(name: string)
    ensures Open(Wrapper("span", " class=\"" + name + "\"")) == "<span class=\"" + name + "\">"
    ensures Close(Wrapper("span", " class=\"" + name + "\"")) == "</span>"
  {
  }

  /** A leading dot on the colour or font parameter makes no difference. */
  lemma LeadingDotIgnored(content: string, name: string, p: string)
    requires name in {"highlight", "textcolor", "font"}
    requires p != "" && !StartsWith(p, ".")
    ensures ApplyModifier(content, name, "." + p) == ApplyModifier(content, name, p)
  {
    assert StripDot("." + p) == p;
  }

  // ---------------------------------------------------------------------
  // Properties of applyFormElementModifier
  // ---------------------------------------------------------------------

  /** The tag a form element starts with. */
  function TagOf(content: string): (t: string)
    requires IsFormElement(content)
    ensures StartsWith(content, t) && (t == "<button" || t == "<input")
  {
    if StartsWith(content, "<button") then "<button" else "<input"
  }

  lemma FormTagAtStart(content: string)
    requires IsFormElement(content)
    ensures FormTag(content) == Some((0, |TagOf(content)| as nat))
  {
    var b, i := IndexOf(content, "<button"), IndexOf(content, "<input");
    assert At(content, 0, TagOf(content));
    if StartsWith(content, "<button") {
      assert b == Some(0);
    } else {
      assert i == Some(0);
      assert !At(content, 0, "<button") by {
        assert content[1] == 'i';
      }
    }
  }

  lemma AtFirst(s: string, i: int, sub: string)
    requires At(s, i, sub) && |sub| > 0
    ensures s[i] == sub[0]
  {
    assert s[i..i + |sub|][0] == s[i];
  }

  /** No `attr="` starts inside the tag: neither `s` nor `c` occurs in it. */
  lemma QuotedAttrAfterTag(content: string, attr: string)
    requires IsFormElement(content) && attr in {"style", "class"}
    ensures QuotedAttr(content, attr).Some? ==> QuotedAttr(content, attr).value.0 >= |TagOf(content)|
  {
    var t := TagOf(content);
    if QuotedAttr(content, attr).Some? {
      var p := QuotedAttr(content, attr).value.0;
      AtFirst(content, p, attr + "=\"");
      assert attr[0] == 's' || attr[0] == 'c';
      TagLetters(content, t);
    }
  }

  /** The letters of a form tag, which include neither `s` nor `c`. */
  lemma TagLetters(content: string, t: string)
    requires StartsWith(content, t) && (t == "<button" || t == "<input")
    ensures forall i :: 0 <= i < |t| ==> content[i] != 's' && content[i] != 'c'
  {
    forall i | 0 <= i < |t| ensures content[i] != 's' && content[i] != 'c' {
      assert content[i] == t[i];
    }
  }

  /** Inserting after the tag of a form element. */
  lemma InsertAfterFormTag(content: string, attr: string)
    requires IsFormElement(content)
    ensures var t := TagOf(content);
      InsertAfterTag(content, attr) == t + " " + attr + content[|t|..]
  {
    FormTagAtStart(content);
    assert content[..|TagOf(content)|] == TagOf(content);
  }

  /** A form element stays a form element with the same tag: every change is spliced
      in after the tag. */
  lemma FormStaysForm(content: string, name: string, param: string)
    requires IsFormElement(content)
    ensures var r := ApplyFormElementModifier(content, name, param);
      IsFormElement(r) && TagOf(r) == TagOf(content)
  {
    if !FormStyleModifier(name) {
      AddFormClassKeepsTag(content, name);
    } else {
      var styled := FontClassed(content, name, param);
      if name == "font" && param != "" {
        AddFormClassKeepsTag(content, FontFor(StripDot(param)).1);
      }
      SpliceStyleKeepsTag(CurrentStyle(content), styled, FormStyle(name, param));
    }
  }

  lemma SpliceStyleKeepsTag(cur: string, content: string, newStyle: string)
    requires IsFormElement(content)
    ensures var r := SpliceStyle(cur, content, newStyle);
      IsFormElement(r) && TagOf(r) == TagOf(content)
  {
    if cur != "" {
      ReplaceQuotedKeepsTag(content, "style", cur + " " + newStyle);
    } else {
      InsertKeepsTag(content, "style=\"" + newStyle + "\"");
    }
  }

  lemma InsertKeepsTag(content: string, attr: string)
    requires IsFormElement(content)
    ensures var r := InsertAfterTag(content, attr);
      IsFormElement(r) && TagOf(r) == TagOf(content)
  {
    var t := TagOf(content);
    InsertAfterFormTag(content, attr);
    var r := InsertAfterTag(content, attr);
    assert r[..|t|] == t;
    SameTag(content, r);
  }

  /** Two texts that start with the same tag have the same tag. */
  lemma SameTag(a: string, b: string)
    requires IsFormElement(a) && StartsWith(b, TagOf(a))
    ensures IsFormElement(b) && TagOf(b) == TagOf(a)
  {
    assert "<button"[1] == 'b' && "<input"[1] == 'i';
    assert b[1] == TagOf(a)[1];
  }

  lemma AddFormClassKeepsTag(content: string, c: string)
    requires IsFormElement(content)
    ensures var r := AddFormClass(content, c);
      IsFormElement(r) && TagOf(r) == TagOf(content)
  {
    var t := TagOf(content);
    var r := AddFormClass(content, c);
    if !Includes(content, "class=\"") {
      InsertKeepsTag(content, "class=\"" + c + "\"");
    } else {
      QuotedAttrAfterTag(content, "class");
      if QuotedAttr(content, "class").Some? {
        assert r[..|t|] == content[..|t|];
      }
      SameTag(content, r);
    }
  }

  lemma ReplaceQuotedKeepsTag(content: string, attr: string, value: string)
    requires IsFormElement(content) && attr in {"style", "class"}
    ensures var r := ReplaceQuoted(content, attr, value);
      IsFormElement(r) && TagOf(r) == TagOf(content)
  {
    var t := TagOf(content);
    var r := ReplaceQuoted(content, attr, value);
    QuotedAttrAfterTag(content, attr);
    if QuotedAttr(content, attr).Some? {
      assert r[..|t|] == content[..|t|];
    }
    SameTag(content, r);
  }

  /** A name `applyFormElementModifier` does not style becomes a class: a new `class`
      attribute right after the tag when there is none, else one more name at the end of
      the first class value; the rest of the element is untouched. */
  lemma FormUnknownIsClass(content: string, name: string, param: string)
    requires IsFormElement(content) && !FormStyleModifier(name)
    ensures var t := TagOf(content);
      !Includes(content, "class=\"") ==>
        ApplyFormElementModifier(content, name, param) == t + " class=\"" + name + "\"" + content[|t|..]
    ensures QuotedAttr(content, "class").Some? ==>
      var q := QuotedAttr(content, "class").value.2;
      ApplyFormElementModifier(content, name, param) == content[..q] + " " + name + content[q..]
  {
    AddFormClassCases(content, name);
  }

  lemma AddFormClassCases(content: string, c: string)
    requires IsFormElement(content)
    ensures var t := TagOf(content);
      !Includes(content, "class=\"") ==>
        AddFormClass(content, c) == t + " class=\"" + c + "\"" + content[|t|..]
    ensures QuotedAttr(content, "class").Some? ==>
      var q := QuotedAttr(content, "class").value.2;
      AddFormClass(content, c) == content[..q] + " " + c + content[q..]
  {
    if !Includes(content, "class=\"") {
      AddFormClassNew(content, c);
    }
    if QuotedAttr(content, "class").Some? {
      var p := QuotedAttr(content, "class").value.0;
      assert At(content, p, "class=\"");
    }
  }

  lemma AddFormClassNew(content: string, c: string)
    requires IsFormElement(content) && !Includes(content, "class=\"")
    ensures var t := TagOf(content);
      AddFormClass(content, c) == t + " class=\"" + c + "\"" + content[|t|..]
  {
    var t := TagOf(content);
    InsertAfterFormTag(content, "class=\"" + c + "\"");
    AttrText(t, "class", c, content[|t|..]);
  }

  /** The text `<tag attr="value"` spelled two ways. */
  lemma AttrText(t: string, attr: string, value: string, rest: string)
    requires attr in {"class", "style"}
    ensures t + " " + (attr + "=\"" + value + "\"") + rest == t + " " + attr + "=\"" + value + "\"" + rest
    ensures attr == "class" ==> t + " " + attr + "=\"" + value + "\"" + rest == t + " class=\"" + value + "\"" + rest
    ensures attr == "style" ==> t + " " + attr + "=\"" + value + "\"" + rest == t + " style=\"" + value + "\"" + rest
  {
  }

  /** A styling modifier on a form element without a style inserts a `style` attribute
      right after the tag. */
  lemma FormStyleInserted(content: string, name: string, param: string)
    requires IsFormElement(content) && FormStyleModifier(name) && name != "font"
    requires CurrentStyle(content) == ""
    ensures var t := TagOf(content);
      ApplyFormElementModifier(content, name, param)
        == t + " style=\"" + FormStyle(name, param) + "\"" + content[|t|..]
  {
    assert FontClassed(content, name, param) == content;
    SpliceInserts(content, FormStyle(name, param));
  }

  lemma SpliceInserts(content: string, newStyle: string)
    requires IsFormElement(content)
    ensures var t := TagOf(content);
      SpliceStyle("", content, newStyle) == t + " style=\"" + newStyle + "\"" + content[|t|..]
  {
    var t := TagOf(content);
    InsertAfterFormTag(content, "style=\"" + newStyle + "\"");
    AttrText(t, "style", newStyle, content[|t|..]);
  }

  /** With a non-empty style already present, the new declaration is appended to it
      after a space, and nothing else changes. */
  lemma FormStyleAppended(content: string, name: string, param: string)
    requires IsFormElement(content) && FormStyleModifier(name) && name != "font"
    requires CurrentStyle(content) != ""
    ensures QuotedAttr(content, "style").Some?
    ensures var q := QuotedAttr(content, "style").value.2;
      ApplyFormElementModifier(content, name, param) == content[..q] + " " + FormStyle(name, param) + content[q..]
  {
    assert FontClassed(content, name, param) == content;
    SpliceAppends(content, FormStyle(name, param));
  }

  lemma SpliceAppends(content: string, newStyle: string)
    requires CurrentStyle(content) != ""
    ensures QuotedAttr(content, "style").Some?
    ensures var q := QuotedAttr(content, "style").value.2;
      SpliceStyle(CurrentStyle(content), content, newStyle) == content[..q] + " " + newStyle + content[q..]
  {
    var (_, v, q) := QuotedAttr(content, "style").value;
    var cur := content[v..q];
    assert content[..v] + (cur + " " + newStyle) + content[q..] == (content[..v] + cur) + " " + newStyle + content[q..];
    assert content[..v] + cur == content[..q];
  }
}
