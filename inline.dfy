/** `parseInlineFormatting`: the passes that turn the inline markup of one line into
    HTML, in the order the parser runs them — images with chained modifiers, direct
    modifier chains `.bold[text]`, `snippet[text].chain`, plain `snippet[text]`, the
    legacy `{bold}...{/bold}` tags, and `[br]`. Each pass reads its input from left
    to right, replaces every match it finds and copies every other character. */
module Inline {
  import opened Text
  import opened Scanners
  import opened Attributes
  import opened Modifiers
  import opened Html

  // ---------------------------------------------------------------------
  // Pass 1: image(...)chain
  // ---------------------------------------------------------------------

  /** One step of a left-to-right pass: the output so far grows by the piece the
      current position becomes. */
  lemma PassStep(out: string, cur: string, whole: string, piece: string, rest: string)
    requires out + cur == whole && cur == piece + rest
    ensures (out + piece) + rest == whole
  {
    AppendAssoc(out, piece, rest);
  }

  /** The image expression starting at position `i`, if one does. */
  function ImageMatchFrom(s: string, i: nat): (r: Option<ImageMatch>)
    requires i <= |s|
    ensures r.Some? ==> At(s, i, "image") && 0 < r.value.len <= |s| - i
  {
    if StartsWith(s[i..], "image") then
      assert s[i..][..5] == s[i..i + 5];
      ImageAt(s[i..], false)
    else None
  }

  /** The `<img>` element an image match becomes: its class text and parameters
      give the attributes, its chain adjusts them. */
  function ImageHtml(m: ImageMatch): string {
    ImageElement(ImageModifiersSpec(ParseAttributesSpec(m.mods, m.params), m.chain))
  }

  function ImagePass(s: string, i: nat): string
    requires i <= |s|
    decreases |s| - i
  {
    if i == |s| then "" else ImageText(s, i) + ImagePass(s, ImageNext(s, i))
  }

  /** What the text at `i` becomes: an image element, or the character itself. */
  function ImageText(s: string, i: nat): string
    requires i < |s|
  {
    var r := ImageMatchFrom(s, i);
    if r.Some? then ImageHtml(r.value) else [s[i]]
  }

  /** Where the image pass goes on after position `i`. */
  function ImageNext(s: string, i: nat): (n: nat)
    requires i < |s|
    ensures i < n <= |s|
  {
    var r := ImageMatchFrom(s, i);
    if r.Some? then i + r.value.len else i + 1
  }

  lemma ImageStep(s: string, i: nat, m: ImageMatch, element: string)
    requires i < |s| && ImageMatchFrom(s, i) == Some(m) && element == ImageHtml(m)
    ensures ImagePass(s, i) == element + ImagePass(s, ImageNext(s, i))
  {
    assert ImagePass(s, i) == ImageText(s, i) + ImagePass(s, ImageNext(s, i));
    assert ImageText(s, i) == element;
  }

  /** The image loop: every image expression becomes an `<img>` element. */
  method ReplaceImages(text: string) returns (out: string)
    ensures out == ImagePass(text, 0)
  {
    out := "";
    var pos := 0;
    while pos < |text|
      invariant pos <= |text|
      invariant out + ImagePass(text, pos) == ImagePass(text, 0)
      decreases |text| - pos
    {
      var found := ImageMatchFrom(text, pos);
      var piece;
      if found.Some? {
        var m := found.value;
        var attributes := ParseAttributes(m.mods, m.params);
        ProcessImageModifiers(attributes, m.chain);
        piece := ImageElement(attributes.entries);
        ImageStep(text, pos, m, piece);
      } else {
        piece := [text[pos]];
      }
      var next := ImageNext(text, pos);
      PassStep(out, ImagePass(text, pos), ImagePass(text, 0), piece, ImagePass(text, next));
      out := out + piece;
      pos := next;
    }
  }

  // ---------------------------------------------------------------------
  // Chains applied to bracketed content (passes 2 and 3)
  // ---------------------------------------------------------------------

  /** A match whose bracketed `content` gets the modifier `chain`; `lead` is kept in
      front of the result and `end` is the position just after the match. */
  datatype Span = Span(lead: string, chain: string, content: string, end: nat)

  /** `(\s|^)(chain)\[content\]` at position `i`: one whitespace character, or the
      very start of the text, then a chain of at least one modifier, then a
      bracketed content with up to two levels of nested brackets. */
  function DirectMatch(s: string, i: nat): (r: Option<Span>)
    requires i < |s|
    ensures r.Some? ==> i < r.value.end <= |s| && Occurs(s, '[')
  {
    var lead := if IsSpace(s[i]) then 1 else 0;
    if lead == 0 && i != 0 then None
    else
      var c := i + lead;
      var e := ChainEnd(s, c);
      if c < e && e < |s| && s[e] == '[' then
        match BracketBody(s[e + 1..])
        case Some((content, n)) => Some(Span(s[i..c], s[c..e], content, e + 1 + n))
        case None => None
      else None
  }

  /** What a chain match becomes: its lead, then its content under its chain. */
  function Rendered(m: Span): string {
    m.lead + ApplyChain(m.content, ScanModifiers(m.chain))
  }

  function DirectPass(s: string, i: nat): string
    requires i <= |s|
    decreases |s| - i
  {
    if i == |s| then "" else DirectText(s, i) + DirectPass(s, DirectNext(s, i))
  }

  function DirectText(s: string, i: nat): string
    requires i < |s|
  {
    var r := DirectMatch(s, i);
    if r.Some? then Rendered(r.value) else [s[i]]
  }

  function DirectNext(s: string, i: nat): (n: nat)
    requires i < |s|
    ensures i < n <= |s|
  {
    var r := DirectMatch(s, i);
    if r.Some? then r.value.end else i + 1
  }

  /** `snippet\s*\[content\]` at position `i`: the content and the position just
      after its closing bracket. */
  function SnippetAt(s: string, i: nat): (r: Option<(string, nat)>)
    requires i <= |s|
    ensures r.Some? ==> i < r.value.1 <= |s| && Occurs(s, '[')
  {
    if At(s, i, "snippet") then
      var k := SpaceEnd(s, i + 7);
      if k < |s| && s[k] == '[' then
        match BracketBody(s[k + 1..])
        case Some((content, n)) => Some((content, k + 1 + n))
        case None => None
      else None
    else None
  }

  /** A snippet followed by a chain of at least one modifier. */
  function SnippetChainMatch(s: string, i: nat): (r: Option<Span>)
    requires i <= |s|
    ensures r.Some? ==> i < r.value.end <= |s| && Occurs(s, '[')
  {
    match SnippetAt(s, i)
    case Some((content, e)) =>
      var f := ChainEnd(s, e);
      if e < f then Some(Span("", s[e..f], content, f)) else None
    case None => None
  }

  function SnippetChainPass(s: string, i: nat): string
    requires i <= |s|
    decreases |s| - i
  {
    if i == |s| then "" else SnippetChainText(s, i) + SnippetChainPass(s, SnippetChainNext(s, i))
  }

  function SnippetChainText(s: string, i: nat): string
    requires i < |s|
  {
    var r := SnippetChainMatch(s, i);
    if r.Some? then Rendered(r.value) else [s[i]]
  }

  function SnippetChainNext(s: string, i: nat): (n: nat)
    requires i < |s|
    ensures i < n <= |s|
  {
    var r := SnippetChainMatch(s, i);
    if r.Some? then r.value.end else i + 1
  }

  /** The direct-modifier loop: each match is replaced by its leading whitespace
      followed by its content under its chain. */
  method ReplaceDirectModifiers(text: string) returns (out: string)
    ensures out == DirectPass(text, 0)
  {
    out := "";
    var pos := 0;
    while pos < |text|
      invariant pos <= |text|
      invariant out + DirectPass(text, pos) == DirectPass(text, 0)
      decreases |text| - pos
    {
      var found := DirectMatch(text, pos);
      var piece;
      if found.Some? {
        var m := found.value;
        var result := ApplyModifierChain(m.content, m.chain);
        piece := m.lead + result;
      } else {
        piece := [text[pos]];
      }
      var next := DirectNext(text, pos);
      assert DirectPass(text, pos) == piece + DirectPass(text, next) by {
        assert DirectText(text, pos) == piece;
      }
      PassStep(out, DirectPass(text, pos), DirectPass(text, 0), piece, DirectPass(text, next));
      out := out + piece;
      pos := next;
    }
  }

  /** The snippet loop: each snippet with a chain is replaced by its content under
      its chain. */
  method ReplaceModifiedSnippets(text: string) returns (out: string)
    ensures out == SnippetChainPass(text, 0)
  {
    out := "";
    var pos := 0;
    while pos < |text|
      invariant pos <= |text|
      invariant out + SnippetChainPass(text, pos) == SnippetChainPass(text, 0)
      decreases |text| - pos
    {
      var found := SnippetChainMatch(text, pos);
      var piece;
      if found.Some? {
        var m := found.value;
        var result := ApplyModifierChain(m.content, m.chain);
        piece := m.lead + result;
      } else {
        piece := [text[pos]];
      }
      var next := SnippetChainNext(text, pos);
      assert SnippetChainPass(text, pos) == piece + SnippetChainPass(text, next) by {
        assert SnippetChainText(text, pos) == piece;
      }
      PassStep(out, SnippetChainPass(text, pos), SnippetChainPass(text, 0), piece, SnippetChainPass(text, next));
      out := out + piece;
      pos := next;
    }
  }

  // ---------------------------------------------------------------------
  // Pass 4: snippet[content] not followed by a dot
  // ---------------------------------------------------------------------

  function PlainSnippetMatch(s: string, i: nat): (r: Option<(string, nat)>)
    requires i <= |s|
    ensures r.Some? ==> i < r.value.1 <= |s| && Occurs(s, '[')
  {
    match SnippetAt(s, i)
    case Some((content, e)) => if e < |s| && s[e] == '.' then None else Some((content, e))
    case None => None
  }

  function PlainSnippetPass(s: string, i: nat): string
    requires i <= |s|
    decreases |s| - i
  {
    if i == |s| then ""
    else
      var r := PlainSnippetMatch(s, i);
      if r.Some? then r.value.0 + PlainSnippetPass(s, r.value.1)
      else [s[i]] + PlainSnippetPass(s, i + 1)
  }

  // ---------------------------------------------------------------------
  // Pass 5: {name}...{/name}
  // ---------------------------------------------------------------------

  /** The lazy `.*?` before `close`: the first position at or after `j` where
      `close` starts, provided no line terminator comes before it. */
  function CloseFrom(s: string, j: nat, close: string): (r: Option<nat>)
    requires j <= |s|
    ensures r.Some? ==> j <= r.value && At(s, r.value, close)
    ensures r.Some? ==> forall k :: j <= k < r.value ==> !At(s, k, close) && !IsLineTerminator(s[k])
    decreases |s| - j
  {
    if At(s, j, close) then Some(j)
    else if j == |s| || IsLineTerminator(s[j]) then None
    else CloseFrom(s, j + 1, close)
  }

  /** `{name}` at `i` and its closing `{/name}` on the same line: the enclosed text
      and the position just after the closing tag. */
  function LegacyMatch(s: string, i: nat, name: string): (r: Option<(string, nat)>)
    requires i <= |s|
    ensures r.Some? ==> i < r.value.1 <= |s| && s[i] == '{'
  {
    var open := "{" + name + "}";
    if At(s, i, open) then
      assert s[i] == open[0];
      match CloseFrom(s, i + |open|, "{/" + name + "}")
      case Some(p) => Some((s[i + |open|..p], p + |name| + 3))
      case None => None
    else None
  }

  function LegacyPass(s: string, i: nat, name: string, tag: string): string
    requires i <= |s|
    decreases |s| - i
  {
    if i == |s| then "" else LegacyText(s, i, name, tag) + LegacyPass(s, LegacyNext(s, i, name), name, tag)
  }

  /** `<tag>text</tag>`. */
  function Tagged(tag: string, text: string): string {
    "<" + tag + ">" + text + "</" + tag + ">"
  }

  function LegacyText(s: string, i: nat, name: string, tag: string): string
    requires i < |s|
  {
    var r := LegacyMatch(s, i, name);
    if r.Some? then Tagged(tag, r.value.0) else [s[i]]
  }

  function LegacyNext(s: string, i: nat, name: string): (n: nat)
    requires i < |s|
    ensures i < n <= |s|
  {
    var r := LegacyMatch(s, i, name);
    if r.Some? then r.value.1 else i + 1
  }

  // ---------------------------------------------------------------------
  // Pass 6: [br]
  // ---------------------------------------------------------------------

  /** `replace(/\[br\]/g, '<br>')`; the two texts have the same length, so the
      result is as long as the input. */
  function BrPass(s: string, i: nat): (r: string)
    requires i <= |s|
    ensures |r| == |s| - i
    decreases |s| - i
  {
    if i == |s| then ""
    else if At(s, i, "[br]") then "<br>" + BrPass(s, i + 4)
    else [s[i]] + BrPass(s, i + 1)
  }

  // ---------------------------------------------------------------------
  // The whole of parseInlineFormatting
  // ---------------------------------------------------------------------

  /** The passes that run as global `replace` calls, after the two exec loops. */
  function ReplaceAllPasses(t: string): string {
    var a := PlainSnippetPass(t, 0);
    var b := LegacyPass(a, 0, "bold", "strong");
    var c := LegacyPass(b, 0, "italic", "em");
    var d := LegacyPass(c, 0, "underline", "u");
    var e := LegacyPass(d, 0, "code", "code");
    BrPass(e, 0)
  }

  function InlineFormatting(text: string): string {
    if text == "" then ""
    else ReplaceAllPasses(SnippetChainPass(DirectPass(ImagePass(text, 0), 0), 0))
  }

  method ParseInlineFormatting(text: string) returns (r: string)
    ensures r == InlineFormatting(text)
  {
    if text == "" {
      return "";
    }
    var processed := ReplaceImages(text);
    processed := ReplaceDirectModifiers(processed);
    processed := ReplaceModifiedSnippets(processed);
    r := ReplaceAllPasses(processed);
  }

  // ---------------------------------------------------------------------
  // Text without markup is left alone
  // ---------------------------------------------------------------------

  /** Text with no bracket, no brace and no `image` passes through unchanged. */
  predicate NoMarkup(s: string) {
    !Occurs(s, '[') && !Occurs(s, '{') && !Includes(s, "image")
  }

  lemma {:induction false} ImagePassPlain(s: string, i: nat)
    requires i <= |s| && !Includes(s, "image")
    ensures ImagePass(s, i) == s[i..]
    decreases |s| - i
  {
    if i < |s| {
      ImagePassPlain(s, i + 1);
      assert [s[i]] + s[i + 1..] == s[i..];
    }
  }

  lemma {:induction false} DirectPassPlain(s: string, i: nat)
    requires i <= |s| && !Occurs(s, '[')
    ensures DirectPass(s, i) == s[i..]
    decreases |s| - i
  {
    if i < |s| {
      DirectPassPlain(s, i + 1);
      assert [s[i]] + s[i + 1..] == s[i..];
    }
  }

  lemma {:induction false} SnippetChainPassPlain(s: string, i: nat)
    requires i <= |s| && !Occurs(s, '[')
    ensures SnippetChainPass(s, i) == s[i..]
    decreases |s| - i
  {
    if i < |s| {
      SnippetChainPassPlain(s, i + 1);
      assert [s[i]] + s[i + 1..] == s[i..];
    }
  }

  lemma {:induction false} PlainSnippetPassPlain(s: string, i: nat)
    requires i <= |s| && !Occurs(s, '[')
    ensures PlainSnippetPass(s, i) == s[i..]
    decreases |s| - i
  {
    if i < |s| {
      PlainSnippetPassPlain(s, i + 1);
      assert [s[i]] + s[i + 1..] == s[i..];
    }
  }

  lemma {:induction false} LegacyPassPlain(s: string, i: nat, name: string, tag: string)
    requires i <= |s| && !Occurs(s, '{')
    ensures LegacyPass(s, i, name, tag) == s[i..]
    decreases |s| - i
  {
    if i < |s| {
      LegacyPassPlain(s, i + 1, name, tag);
      assert [s[i]] + s[i + 1..] == s[i..];
    }
  }

  lemma {:induction false} BrPassPlain(s: string, i: nat)
    requires i <= |s| && !Occurs(s, '[')
    ensures BrPass(s, i) == s[i..]
    decreases |s| - i
  {
    if i < |s| {
      assert !At(s, i, "[br]") by {
        assert s[i] != '[';
        if i + 4 <= |s| {
          assert s[i..i + 4][0] == s[i];
        }
      }
      BrPassPlain(s, i + 1);
      assert [s[i]] + s[i + 1..] == s[i..];
    }
  }

  /** Prose with no bracket, no brace and no `image` comes out exactly as it went in. */
  lemma InlinePlain(s: string)
    requires NoMarkup(s)
    ensures InlineFormatting(s) == s
  {
    if s != "" {
      ImagePassPlain(s, 0);
      DirectPassPlain(s, 0);
      SnippetChainPassPlain(s, 0);
      PlainSnippetPassPlain(s, 0);
      LegacyPassPlain(s, 0, "bold", "strong");
      LegacyPassPlain(s, 0, "italic", "em");
      LegacyPassPlain(s, 0, "underline", "u");
      LegacyPassPlain(s, 0, "code", "code");
      BrPassPlain(s, 0);
    }
  }

  // ---------------------------------------------------------------------
  // What each pass does to its own markup
  // ---------------------------------------------------------------------

  /** The lazy search finds the first closing tag when nothing before it on the line
      could start one. */
  lemma {:induction false} CloseFromFinds(s: string, j: nat, close: string, p: nat)
    requires j <= p && At(s, p, close) && |close| > 0 && close[0] == '{'
    requires forall k :: j <= k < p ==> s[k] != '{' && !IsLineTerminator(s[k])
    ensures CloseFrom(s, j, close) == Some(p)
    decreases p - j
  {
    if j < p {
      assert !At(s, j, close) by {
        assert s[j] != close[0];
      }
      CloseFromFinds(s, j + 1, close, p);
    }
  }

  /** `{name}text{/name}` becomes `<tag>text</tag>` when the text holds no brace and
      no line break. */
  lemma LegacyWraps(name: string, tag: string, a: string)
    requires !Occurs(a, '{') && forall k :: 0 <= k < |a| ==> !IsLineTerminator(a[k])
    ensures LegacyPass(("{" + name + "}") + a + ("{/" + name + "}"), 0, name, tag) == Tagged(tag, a)
  {
    var open, close := "{" + name + "}", "{/" + name + "}";
    var s := open + a + close;
    assert s[..|open|] == open;
    var p := |open| + |a|;
    assert s[p..p + |close|] == close;
    forall k | |open| <= k < p ensures s[k] != '{' && !IsLineTerminator(s[k]) {
      assert s[k] == a[k - |open|];
    }
    CloseFromFinds(s, |open|, close, p);
    assert s[|open|..p] == a;
    assert LegacyMatch(s, 0, name) == Some((a, |s|));
    assert LegacyText(s, 0, name, tag) == Tagged(tag, a);
    assert LegacyPass(s, |s|, name, tag) == "";
    assert LegacyPass(s, 0, name, tag) == Tagged(tag, a) + "";
    assert Tagged(tag, a) + "" == Tagged(tag, a);
  }

  /** `snippet[text]` with bracket-free text becomes the text itself. */
  lemma PlainSnippetUnwraps(a: string)
    requires !Occurs(a, '[') && !Occurs(a, ']')
    ensures PlainSnippetPass("snippet[" + a + "]", 0) == a
  {
    var s := "snippet[" + a + "]";
    assert s[..7] == "snippet";
    assert SpaceEnd(s, 7) == 7;
    assert s[8..] == a + "]" + "";
    BracketBodyPlain(a, "");
    assert PlainSnippetMatch(s, 0) == Some((a, |s|));
    assert PlainSnippetPass(s, |s|) == "";
  }

  /** A snippet followed by a dot is left for the chain pass: the plain pass does not
      take it. */
  lemma SnippetBeforeDotIsKept(a: string, rest: string)
    requires !Occurs(a, '[') && !Occurs(a, ']')
    ensures PlainSnippetMatch("snippet[" + a + "]." + rest, 0) == None
  {
    var s := "snippet[" + a + "]." + rest;
    assert s[..7] == "snippet";
    assert SpaceEnd(s, 7) == 7;
    assert s[8..] == a + "]" + ("." + rest);
    BracketBodyPlain(a, "." + rest);
    assert s[8 + |a| + 1] == '.';
  }

  /** `.bold.italic[text]` at the start of a line renders as nested `<em><strong>`. */
  lemma DirectBoldItalic(x: string)
    requires !Occurs(x, '[') && !Occurs(x, ']') && Plain(x)
    ensures DirectPass(".bold.italic[" + x + "]", 0) == "<em><strong>" + x + "</strong></em>"
  {
    var s := ".bold.italic[" + x + "]";
    BoldItalicMatch(x);
    BoldItalic(x);
    var out := "<em><strong>" + x + "</strong></em>";
    assert DirectText(s, 0) == out by {
      assert DirectText(s, 0) == "" + ApplyChain(x, ScanModifiers(".bold.italic"));
    }
    var n := DirectNext(s, 0);
    assert n == |s|;
    assert DirectPass(s, n) == "";
    assert DirectPass(s, 0) == out + "";
  }

  lemma BoldItalicMatch(x: string)
    requires !Occurs(x, '[') && !Occurs(x, ']')
    ensures var s := ".bold.italic[" + x + "]"; DirectMatch(s, 0) == Some(Span("", ".bold.italic", x, |s|))
  {
    var s := ".bold.italic[" + x + "]";
    assert s[..12] == ".bold.italic" && s[12] == '[';
    WordEndExact(s, 1, 5);
    WordEndExact(s, 6, 12);
    assert ElementEnd(s, 12) == 12;
    assert ChainEnd(s, 12) == 12;
    assert ElementEnd(s, 5) == 12;
    assert ChainEnd(s, 5) == 12;
    assert ElementEnd(s, 0) == 5;
    assert ChainEnd(s, 0) == 12;
    assert s[13..] == x + "]" + "";
    BracketBodyPlain(x, "");
  }

  /** Outside a `[br]` match the pass copies characters: a character of the result
      other than `<` and `>` is the input's character at the same place. */
  lemma {:induction false} BrCopies(s: string, i: nat)
    requires i <= |s|
    ensures forall k :: (0 <= k < |s| - i && BrPass(s, i)[k] != '<' && BrPass(s, i)[k] != '>'
      ==> BrPass(s, i)[k] == s[i + k])
    decreases |s| - i
  {
    if i < |s| {
      var at := At(s, i, "[br]");
      var next := if at then i + 4 else i + 1;
      var piece := if at then "<br>" else [s[i]];
      BrCopies(s, next);
      var r, rest := BrPass(s, i), BrPass(s, next);
      assert r == piece + rest;
      forall k | 0 <= k < |s| - i && r[k] != '<' && r[k] != '>' ensures r[k] == s[i + k] {
        if k >= |piece| {
          assert r[k] == rest[k - |piece|];
        } else if at {
          assert s[i..i + 4] == "[br]";
          assert s[i + k] == "[br]"[k];
        }
      }
    }
  }

  lemma AtAfter(p: string, q: string, k: nat, t: string)
    requires |p| <= k
    ensures At(p + q, k, t) == At(q, k - |p|, t)
  {
    if k + |t| <= |p + q| {
      assert (p + q)[k..k + |t|] == q[k - |p|..k - |p| + |t|];
    }
  }

  /** No `[br]` survives the line-break pass. */
  lemma {:induction false} BrPassClears(s: string, i: nat)
    requires i <= |s|
    ensures !Includes(BrPass(s, i), "[br]")
    decreases |s| - i
  {
    if i < |s| {
      var at := At(s, i, "[br]");
      var next := if at then i + 4 else i + 1;
      var piece := if at then "<br>" else [s[i]];
      BrPassClears(s, next);
      BrCopies(s, i);
      var r, rest := BrPass(s, i), BrPass(s, next);
      assert r == piece + rest;
      forall k | 0 <= k <= |r| - 4 ensures !At(r, k, "[br]") {
        if k >= |piece| {
          AtAfter(piece, rest, k, "[br]");
        } else if at {
          assert r[k..k + 4][0] == r[k] == piece[k] != '[';
        } else {
          assert s[i..i + 4] != "[br]";
          assert exists j :: 0 <= j < 4 && s[i..i + 4][j] != "[br]"[j];
          var j :| 0 <= j < 4 && s[i..i + 4][j] != "[br]"[j];
          assert r[k..k + 4][j] == r[j] != "[br]"[j];
        }
      }
    }
  }
}
