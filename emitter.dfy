/** `createHTMLElement` and `processListContent`: how one parsed element, with its
    attribute map and its already-rendered content, becomes HTML text. */
module Emitter {
  import opened Text
  import opened Escapes
  import opened Attributes
  import opened Html
  import opened Inline

  /** The element names the language knows and the HTML tag each becomes. */
  const ElementMap: map<string, string> := map[
    "heading1" := "h1", "heading2" := "h2", "heading3" := "h3",
    "heading4" := "h4", "heading5" := "h5", "heading6" := "h6",
    "paragraph" := "p", "group" := "div", "span" := "span",
    "list" := "ul", "orderedlist" := "ol", "item" := "li",
    "link" := "a", "image" := "img", "divider" := "hr",
    "linebreak" := "br", "quote" := "blockquote",
    "code" := "code", "preformatted" := "pre",
    "table" := "table", "row" := "tr", "cell" := "td", "header" := "th",
    "button" := "button", "input" := "input", "form" := "form"
  ]

  /** `elementMap[name] || name`: a known name's tag, any other name as its own tag. */
  function TagFor(name: string): (tag: string)
    ensures name in ElementMap ==> tag == ElementMap[name]
    ensures name !in ElementMap ==> tag == name
  {
    if name in ElementMap then ElementMap[name] else name
  }

  /** The tags written without a closing tag or content. */
  predicate IsVoidTag(tag: string) {
    tag == "img" || tag == "br" || tag == "hr" || tag == "input"
  }

  // ---------------------------------------------------------------------
  // parseInt(count, 10) and the line-break count
  // ---------------------------------------------------------------------

  /** `parseInt(s, 10)`: leading white space, an optional sign, then the longest run
      of decimal digits; `None` stands for `NaN`, when no digit follows. */
  function ParseIntPrefix(s: string): Option<int>
  {
    var t := TrimStart(s);
    if |t| > 0 && t[0] == '-' then
      match LeadingDigits(t[1..])
      case Some(v) => Some(-v)
      case None => None
    else if |t| > 0 && t[0] == '+' then LeadingDigits(t[1..])
    else LeadingDigits(t)
  }

  /** The value of the longest run of digits at the start of `u`, if there is one. */
  function LeadingDigits(u: string): (r: Option<int>)
    ensures r.Some? ==> r.value >= 0
  {
    var n := DigitRun(u);
    if n == 0 then None
    else
      assert AllDigits(u[..n]) by {
        forall i | 0 <= i < n ensures IsDigit(u[..n][i]) {
          assert u[..n][i] == u[i];
        }
      }
      Some(DigitsValue(u[..n]))
  }

  /** `Math.max(1, Math.min(parseInt(count, 10) || 1, 10))`: the parsed number kept
      between 1 and 10, and 1 when it is 0 or not a number. */
  function LinebreakCount(count: string): (n: nat)
    ensures 1 <= n <= 10
    ensures var p := ParseIntPrefix(count);
      && (p.Some? && 1 <= p.value <= 10 ==> n == p.value)
      && (p.Some? && p.value > 10 ==> n == 10)
      && (p.None? || p.value < 1 ==> n == 1)
  {
    var p := ParseIntPrefix(count);
    var c := if p.None? || p.value == 0 then 1 else p.value;
    if c < 1 then 1 else if c > 10 then 10 else c
  }

  /** A string of digits parses as its decimal value. */
  lemma ParseIntOfDigits(s: string)
    requires |s| > 0 && AllDigits(s)
    ensures ParseIntPrefix(s) == Some(DigitsValue(s))
  {
    assert !IsSpace(s[0]) && s[0] != '-' && s[0] != '+';
    assert TrimStart(s) == s;
    assert s[..DigitRun(s)] == s;
  }

  /** A count written as digits is used as it is, kept between 1 and 10. */
  lemma LinebreakCountOfDigits(s: string)
    requires |s| > 0 && AllDigits(s)
    ensures LinebreakCount(s) == if DigitsValue(s) == 0 then 1 else if DigitsValue(s) > 10 then 10 else DigitsValue(s)
  {
    ParseIntOfDigits(s);
  }

  /** A negative count gives a single break. */
  lemma LinebreakCountOfNegative(s: string)
    requires |s| > 0 && AllDigits(s)
    ensures LinebreakCount("-" + s) == 1
  {
    var t := "-" + s;
    assert TrimStart(t) == t;
    assert t[1..] == s;
    assert s[..DigitRun(s)] == s;
  }

  /** A count that does not start with a number gives a single break. */
  lemma LinebreakCountOfText(s: string)
    requires |s| > 0 && !IsSpace(s[0]) && !IsDigit(s[0]) && s[0] != '-' && s[0] != '+'
    ensures LinebreakCount(s) == 1
  {
    assert TrimStart(s) == s;
  }

  // ---------------------------------------------------------------------
  // Void elements
  // ---------------------------------------------------------------------

  /** A divider with a `thickness` becomes a rule of that height in the text colour. */
  function ThickRule(thickness: string): string {
    "<hr style=\"height: " + thickness + "; border: none; background-color: currentColor;\">"
  }

  function VoidElement(name: string, tag: string, a: Attrs): string {
    if name == "linebreak" && ValueOf(a, "count") != "" then
      Repeat("<br>", LinebreakCount(ValueOf(a, "count")))
    else if name == "divider" && ValueOf(a, "thickness") != "" then
      ThickRule(ValueOf(a, "thickness"))
    else "<" + tag + AttributesToString(a) + ">"
  }

  // ---------------------------------------------------------------------
  // Buttons with a navigate/open action become links
  // ---------------------------------------------------------------------

  /** `/^https?:\/\//i`. */
  predicate HasProtocol(t: string) {
    StartsWith(Lower(t), "http://") || StartsWith(Lower(t), "https://")
  }

  /** The link a target becomes: kept when it has a protocol or starts with `/`,
      otherwise given `https://`. */
  function Href(target: string): string {
    if HasProtocol(target) || StartsWith(target, "/") then target else "https://" + target
  }

  /** The anchor's attributes: the button's own, then `href`, then for `open` a new
      tab without opener, and the `button-link` class. */
  function AnchorAttrs(a: Attrs, kind: string, target: string): Attrs {
    LinkAttrs(a, kind, Href(target))
  }

  /** The anchor's attributes for a given `href`. */
  function LinkAttrs(a: Attrs, kind: string, href: string): Attrs {
    AddClass(WithTab(Put(a, "href", href), kind), "button-link")
  }

  /** `open` adds `target="_blank"` and `rel="noopener noreferrer"`. */
  function WithTab(linked: Attrs, kind: string): Attrs {
    if kind == "open" then Put(Put(linked, "target", "_blank"), "rel", "noopener noreferrer") else linked
  }

  /** The action type and target of `data-action`, split at its colons. */
  function ActionParts(action: string): (string, string) {
    var parts := Split(action, ':');
    (parts[0], if |parts| > 1 then parts[1] else "")
  }

  /** A button whose `data-action` is `navigate:target` or `open:target` becomes an
      anchor holding the button's content; any other element is `None` here. */
  function ButtonAnchor(name: string, a: Attrs, content: string): Option<string> {
    if name != "button" || ValueOf(a, "data-action") == "" then None
    else
      var (kind, target) := ActionParts(ValueOf(a, "data-action"));
      if (kind == "navigate" || kind == "open") && target != "" then
        Some("<a" + AttributesToString(AnchorAttrs(a, kind, target)) + ">" + content + "</a>")
      else None
  }

  // ---------------------------------------------------------------------
  // Lists and the general case
  // ---------------------------------------------------------------------

  /** One list line: trimmed, formatted inline and wrapped in `<li>`. */
  function ListItem(line: string): string {
    "<li>" + InlineFormatting(Trim(line)) + "</li>"
  }

  /** The items of `lines`, concatenated in order. */
  function ListItems(lines: seq<string>): string {
    if |lines| == 0 then "" else ListItem(lines[0]) + ListItems(lines[1..])
  }

  /** `processListContent`: one item per non-blank line of the content. */
  function ProcessListContent(content: string): string {
    ListItems(NonBlank(Split(content, '\n')))
  }

  /** `<tag attrs>body</tag>`. */
  function Element(tag: string, a: Attrs, body: string): string {
    "<" + tag + AttributesToString(a) + ">" + body + "</" + tag + ">"
  }

  /** `createHTMLElement(name, attributes, content)`. */
  function CreateElement(name: string, a: Attrs, content: string): string {
    var tag := TagFor(name);
    if IsVoidTag(tag) then VoidElement(name, tag, a)
    else
      var anchor := ButtonAnchor(name, a, content);
      if anchor.Some? then anchor.value
      else if name == "list" || name == "orderedlist" then
        Element(if name == "orderedlist" then "ol" else "ul", a, ProcessListContent(content))
      else if name == "code" || name == "preformatted" then Element(tag, a, EscapeHtml(content))
      else Element(tag, a, content)
  }

  // ---------------------------------------------------------------------
  // Properties
  // ---------------------------------------------------------------------

  /** Text that starts with `<` and ends with `>`. */
  predicate IsMarkup(r: string) {
    |r| >= 2 && r[0] == '<' && r[|r| - 1] == '>'
  }

  /** Every element is written as markup: it starts with `<` and ends with `>`. */
  lemma CreateElementIsMarkup(name: string, a: Attrs, content: string)
    ensures IsMarkup(CreateElement(name, a, content))
  {
    var tag := TagFor(name);
    if IsVoidTag(tag) {
      VoidIsMarkup(name, tag, a);
    } else if ButtonAnchor(name, a, content).Some? {
      AnchorIsMarkup(name, a, content);
    } else if name == "list" || name == "orderedlist" {
      ElementIsMarkup(if name == "orderedlist" then "ol" else "ul", a, ProcessListContent(content));
    } else if name == "code" || name == "preformatted" {
      ElementIsMarkup(tag, a, EscapeHtml(content));
    } else {
      ElementIsMarkup(tag, a, content);
    }
  }

  lemma ElementIsMarkup(tag: string, a: Attrs, body: string)
    ensures IsMarkup(Element(tag, a, body))
  {
  }

  lemma AnchorIsMarkup(name: string, a: Attrs, content: string)
    requires ButtonAnchor(name, a, content).Some?
    ensures IsMarkup(ButtonAnchor(name, a, content).value)
  {
  }

  lemma VoidIsMarkup(name: string, tag: string, a: Attrs)
    ensures IsMarkup(VoidElement(name, tag, a))
  {
    if name == "linebreak" && ValueOf(a, "count") != "" {
      RepeatIsMarkup(LinebreakCount(ValueOf(a, "count")));
    }
  }

  lemma {:induction false} RepeatIsMarkup(n: nat)
    requires n >= 1
    ensures IsMarkup(Repeat("<br>", n))
  {
    if n > 1 {
      RepeatIsMarkup(n - 1);
    }
  }

  /** A void element has no content: whatever content is passed is dropped. */
  lemma VoidIgnoresContent(name: string, a: Attrs, c1: string, c2: string)
    requires IsVoidTag(TagFor(name))
    ensures CreateElement(name, a, c1) == CreateElement(name, a, c2)
  {
  }

  /** An image is exactly the `<img>` element the inline image pass writes. */
  lemma ImageIsImgElement(a: Attrs, content: string)
    ensures CreateElement("image", a, content) == ImageElement(a)
  {
    ImageTag();
    assert "<" + "img" == "<img";
  }

  lemma LinebreakTag()
    ensures TagFor("linebreak") == "br"
  {
  }

  lemma ImageTag()
    ensures TagFor("image") == "img"
  {
  }

  /** A line break with a count repeats `<br>` between one and ten times. */
  lemma LinebreakRepeats(a: Attrs, content: string)
    requires ValueOf(a, "count") != ""
    ensures exists n :: 1 <= n <= 10 && CreateElement("linebreak", a, content) == Repeat("<br>", n)
  {
    LinebreakTag();
    var n := LinebreakCount(ValueOf(a, "count"));
    assert CreateElement("linebreak", a, content) == Repeat("<br>", n);
  }

  /** Code and preformatted content is escaped: no markup character of the content
      reaches the output unescaped. */
  lemma CodeIsEscaped(name: string, a: Attrs, content: string)
    requires name == "code" || name == "preformatted"
    ensures CreateElement(name, a, content) == Element(TagFor(name), a, EscapeHtml(content))
    ensures forall i :: 0 <= i < |EscapeHtml(content)| ==> !IsHtmlSpecial(EscapeHtml(content)[i])
  {
    assert TagFor(name) == (if name == "code" then "code" else "pre");
    EscapeHtmlIsSafe(content);
  }

  /** Every other element keeps its content as it is, between its tags. */
  lemma OtherContentVerbatim(name: string, a: Attrs, content: string)
    requires !IsVoidTag(TagFor(name)) && name != "button"
    requires name != "list" && name != "orderedlist" && name != "code" && name != "preformatted"
    ensures CreateElement(name, a, content) == Element(TagFor(name), a, content)
  {
  }

  /** The link's `href` is the target, with `https://` added unless it starts with `/`. */
  lemma AnchorHref(a: Attrs, kind: string, target: string)
    requires !Occurs(target, ':')
    ensures Lookup(AnchorAttrs(a, kind, target), "href")
         == Some(if StartsWith(target, "/") then target else "https://" + target)
  {
    NoProtocolWithoutColon(target);
    LinkHref(a, kind, Href(target));
  }

  /** The link keeps the button's classes and adds `button-link`. */
  lemma AnchorClass(a: Attrs, kind: string, target: string)
    ensures Lookup(AnchorAttrs(a, kind, target), "class")
         == Some(if ValueOf(a, "class") == "" then "button-link" else ValueOf(a, "class") + " button-link")
  {
    LinkClass(a, kind, Href(target));
  }

  /** `open` opens a new tab without opener; `navigate` leaves `target` and `rel` alone. */
  lemma AnchorNewTab(a: Attrs, kind: string, target: string)
    ensures var r := AnchorAttrs(a, kind, target);
      && (kind == "open" ==> Lookup(r, "target") == Some("_blank") && Lookup(r, "rel") == Some("noopener noreferrer"))
      && (kind != "open" ==> Lookup(r, "target") == Lookup(a, "target") && Lookup(r, "rel") == Lookup(a, "rel"))
  {
    LinkTab(a, kind, Href(target));
  }

  /** No other attribute of the button changes. */
  lemma AnchorKeepsOthers(a: Attrs, kind: string, target: string, k: string)
    requires k != "href" && k != "class" && k != "target" && k != "rel"
    ensures Lookup(AnchorAttrs(a, kind, target), k) == Lookup(a, k)
  {
    LinkOthers(a, kind, Href(target), k);
  }

  lemma LinkHref(a: Attrs, kind: string, href: string)
    ensures Lookup(LinkAttrs(a, kind, href), "href") == Some(href)
  {
    var linked := Put(a, "href", href);
    PutLaws(a, "href", href);
    TabLaws(linked, kind);
    ClassLaws(WithTab(linked, kind));
  }

  lemma LinkClass(a: Attrs, kind: string, href: string)
    ensures Lookup(LinkAttrs(a, kind, href), "class")
         == Some(if ValueOf(a, "class") == "" then "button-link" else ValueOf(a, "class") + " button-link")
  {
    var linked := Put(a, "href", href);
    PutLaws(a, "href", href);
    TabLaws(linked, kind);
    var withTab := WithTab(linked, kind);
    assert Lookup(withTab, "class") == Lookup(a, "class");
    ClassLaws(withTab);
  }

  lemma LinkTab(a: Attrs, kind: string, href: string)
    ensures kind == "open" ==> (Lookup(LinkAttrs(a, kind, href), "target") == Some("_blank")
                             && Lookup(LinkAttrs(a, kind, href), "rel") == Some("noopener noreferrer"))
    ensures kind != "open" ==> (Lookup(LinkAttrs(a, kind, href), "target") == Lookup(a, "target")
                             && Lookup(LinkAttrs(a, kind, href), "rel") == Lookup(a, "rel"))
  {
    var linked := Put(a, "href", href);
    var withTab := WithTab(linked, kind);
    ClassLaws(withTab);
    assert Lookup(LinkAttrs(a, kind, href), "target") == Lookup(withTab, "target");
    assert Lookup(LinkAttrs(a, kind, href), "rel") == Lookup(withTab, "rel");
    if kind == "open" {
      TabLaws(linked, kind);
    } else {
      PutLaws(a, "href", href);
    }
  }

  lemma LinkOthers(a: Attrs, kind: string, href: string, k: string)
    requires k != "href" && k != "class" && k != "target" && k != "rel"
    ensures Lookup(LinkAttrs(a, kind, href), k) == Lookup(a, k)
  {
    var linked := Put(a, "href", href);
    PutLaws(a, "href", href);
    TabLaws(linked, kind);
    ClassLaws(WithTab(linked, kind));
  }

  lemma TabLaws(linked: Attrs, kind: string)
    ensures kind == "open" ==> (Lookup(WithTab(linked, kind), "target") == Some("_blank")
                             && Lookup(WithTab(linked, kind), "rel") == Some("noopener noreferrer"))
    ensures forall k :: k != "target" && k != "rel" ==> Lookup(WithTab(linked, kind), k) == Lookup(linked, k)
  {
    if kind == "open" {
      PutLaws(linked, "target", "_blank");
      PutLaws(Put(linked, "target", "_blank"), "rel", "noopener noreferrer");
    }
  }

  lemma ButtonLinkText(cls: string)
    ensures cls + " " + "button-link" == cls + " button-link"
  {
    AppendAssoc(cls, " ", "button-link");
  }

  lemma ClassLaws(a: Attrs)
    ensures Lookup(AddClass(a, "button-link"), "class")
      == Some(if ValueOf(a, "class") == "" then "button-link" else ValueOf(a, "class") + " button-link")
    ensures forall k :: k != "class" ==> Lookup(AddClass(a, "button-link"), k) == Lookup(a, k)
  {
    var cls := ValueOf(a, "class");
    ButtonLinkText(cls);
    PutLaws(a, "class", if cls == "" then "button-link" else cls + " button-link");
  }

  /** The protocol test in front of `https://` can never succeed: the target is a
      colon-separated field of `data-action`, and `http://` holds a colon. */
  lemma NoProtocolWithoutColon(target: string)
    requires !Occurs(target, ':')
    ensures !HasProtocol(target)
  {
    if |target| >= 7 {
      assert target[4] != ':';
      assert Lower(target)[..7][4] == LowerChar(target[4]) != ':';
    }
    if |target| >= 8 {
      assert target[5] != ':';
      assert Lower(target)[..8][5] == LowerChar(target[5]) != ':';
    }
  }

  /** The action `kind:target` of a button is split at its single colon. */
  lemma ActionPartsOf(kind: string, target: string)
    requires !Occurs(kind, ':') && !Occurs(target, ':')
    ensures ActionParts(kind + ":" + target) == (kind, target)
  {
    SplitAround(kind, target, ':');
    SplitNoSeparator(target, ':');
    assert kind + ":" + target == kind + [':'] + target;
  }

  /** A button with `data-action` `navigate:target` or `open:target` is written as an
      anchor around its content. */
  lemma ButtonBecomesLink(a: Attrs, kind: string, target: string, content: string)
    requires kind == "navigate" || kind == "open"
    requires target != "" && !Occurs(target, ':')
    requires ValueOf(a, "data-action") == kind + ":" + target
    ensures CreateElement("button", a, content)
         == "<a" + AttributesToString(AnchorAttrs(a, kind, target)) + ">" + content + "</a>"
  {
    ActionPartsOf(kind, target);
    ButtonTag();
  }

  /** Any other action leaves the button a button. */
  lemma OtherButtonStays(a: Attrs, content: string)
    requires var (kind, target) := ActionParts(ValueOf(a, "data-action"));
      (kind != "navigate" && kind != "open") || target == ""
    ensures CreateElement("button", a, content) == Element("button", a, content)
  {
    ButtonTag();
  }

  lemma ButtonTag()
    ensures TagFor("button") == "button"
  {
  }

  /** Keeping only non-blank lines does nothing to lines that are all non-blank. */
  lemma {:induction false} NonBlankKeepsAll(lines: seq<string>)
    requires forall k :: 0 <= k < |lines| ==> Trim(lines[k]) != ""
    ensures NonBlank(lines) == lines
  {
    if |lines| > 0 {
      NonBlankKeepsAll(lines[1..]);
      assert [lines[0]] + lines[1..] == lines;
    }
  }

  /** Lines joined by newlines come back as one item per non-blank line, in order:
      blank lines make no item. */
  lemma ListOfLines(lines: seq<string>)
    requires |lines| >= 1 && forall k :: 0 <= k < |lines| ==> !Occurs(lines[k], '\n')
    ensures ProcessListContent(Join(lines, "\n")) == ListItems(NonBlank(lines))
  {
    SplitJoin(lines, '\n');
  }

  /** The items of two runs of lines, one after the other, are the items of the first
      run followed by those of the second. */
  lemma {:induction false} ListItemsAppend(xs: seq<string>, ys: seq<string>)
    ensures ListItems(xs + ys) == ListItems(xs) + ListItems(ys)
  {
    if |xs| > 0 {
      ListItemsAppend(xs[1..], ys);
      ListItemsCons(xs, ys);
    } else {
      assert xs + ys == ys;
    }
  }

  lemma ListItemsCons(xs: seq<string>, ys: seq<string>)
    requires |xs| > 0
    requires ListItems(xs[1..] + ys) == ListItems(xs[1..]) + ListItems(ys)
    ensures ListItems(xs + ys) == ListItems(xs) + ListItems(ys)
  {
    assert (xs + ys)[1..] == xs[1..] + ys;
    assert (xs + ys)[0] == xs[0];
    AppendAssoc(ListItem(xs[0]), ListItems(xs[1..]), ListItems(ys));
  }
}
