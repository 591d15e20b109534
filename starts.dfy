/** `parseElementStart`: which of the five header shapes a trimmed line takes, and
    the element name, attributes and first content it yields. */
module Starts {
  import opened Text
  import opened Scanners
  import opened Attributes
  import opened Emitter

  /** How an element continues: its whole content is on the line (`Inline`, also
      used for the self-closing shapes), or a block of lines follows, with or
      without text after the `[` (`Block`). */
  datatype Shape = Inline | Block(initial: bool)

  /** What `parseElementStart` returns. */
  datatype Start = Start(element: string, attributes: Attrs, content: string, shape: Shape)

  /** Elements that may stand on a line without brackets: the four self-closing
      names, and the names whose tag is a void tag (the names `img`, `hr` and `br`
      are not in the element map, so they are their own tags). */
  predicate IsSelfClosing(name: string) {
    name in {"image", "divider", "linebreak", "input", "img", "hr", "br"}
  }

  /** The set above is the source's test: a self-closing name, or a name whose
      mapped tag is `img`, `hr`, `br` or `input`. */
  lemma SelfClosingByNameOrTag(name: string)
    ensures IsSelfClosing(name)
      <==> (name == "image" || name == "divider" || name == "linebreak" || name == "input"
            || IsVoidTag(TagFor(name)))
  {
  }

  /** Text a JavaScript `.*` can match in full. */
  predicate NoLineTerminator(s: string) {
    forall i :: 0 <= i < |s| ==> !IsLineTerminator(s[i])
  }

  /** The text after the `[` that follows a header and optional white space. */
  function BracketRest(line: string, h: Header): (r: Option<string>)
    requires h.end <= |line|
    ensures r.Some? ==> EndsWith(line, "[" + r.value)
  {
    var p := SpaceEnd(line, h.end);
    if p < |line| && line[p] == '[' then
      assert line[p..] == "[" + line[p + 1..];
      Some(line[p + 1..])
    else None
  }

  /** `parseElementStart(line)`. The shapes are tried in the source's order:
      `name [content]`, `name [content`, `name [`, then the self-closing shape with
      an optional chain of modifiers (which also covers the bare self-closing shape). */
  function ElementStart(line: string): (r: Option<Start>)
    ensures r.Some? ==> IsWord(r.value.element) && StartsWith(line, r.value.element)
    ensures r.Some? ==> r.value.element == line[..WordEnd(line, 0)]
  {
    var hd := HeaderAt(line);
    if hd.None? then None
    else
      var h := hd.value;
      var attributes := ParseAttributesSpec(h.mods, h.params);
      var rest := BracketRest(line, h);
      assert IsWord(h.name) by {
        forall k | 0 <= k < |h.name| ensures IsWordChar(h.name[k]) {
          WordRunPrefix(line, k);
        }
      }
      if rest.Some? && NoLineTerminator(rest.value) then Some(BracketStart(h.name, attributes, rest.value))
      else if ChainEnd(line, h.end) == |line| && IsSelfClosing(h.name) then
        var chain := line[h.end..];
        var withChain := if chain != "" && h.name == "image" then ImageModifiersSpec(attributes, chain) else attributes;
        Some(Start(h.name, withChain, "", Inline))
      else None
  }

  /** The three bracket shapes, told apart by the text `t` after the `[`: it ends
      in `]` (`name [content]`), it is not empty (`name [content`) or it is empty
      (`name [`). */
  function BracketStart(name: string, attributes: Attrs, t: string): Start {
    if |t| > 0 && t[|t| - 1] == ']' then Start(name, attributes, t[..|t| - 1], Inline)
    else if |t| > 0 then Start(name, attributes, t, Block(true))
    else Start(name, attributes, "", Block(false))
  }

  lemma WordRunPrefix(line: string, k: nat)
    requires k < WordEnd(line, 0)
    ensures IsWordChar(line[k])
  {
    WordEndFrom(line, 0, k);
  }

  lemma {:induction false} WordEndFrom(line: string, i: nat, k: nat)
    requires i <= |line| && i <= k < WordEnd(line, i)
    ensures IsWordChar(line[k])
    decreases k - i
  {
    if i < k {
      WordEndFrom(line, i + 1, k);
    }
  }

  /** `parseElementStart` as the source runs it: the attribute map is built by
      `parseAttributes` and, for an image with a chain, extended in place. */
  method ParseElementStart(line: string) returns (r: Option<Start>)
    ensures r == ElementStart(line)
  {
    var hd := HeaderAt(line);
    if hd.None? {
      return None;
    }
    var h := hd.value;
    var rest := BracketRest(line, h);
    if rest.Some? && NoLineTerminator(rest.value) {
      var attributes := ParseAttributes(h.mods, h.params);
      r := Some(BracketStart(h.name, attributes.entries, rest.value));
    } else if ChainEnd(line, h.end) == |line| && IsSelfClosing(h.name) {
      var attributes := ParseAttributes(h.mods, h.params);
      var chain := line[h.end..];
      if chain != "" && h.name == "image" {
        ProcessImageModifiers(attributes, chain);
      }
      r := Some(Start(h.name, attributes.entries, "", Inline));
    } else {
      r := None;
    }
  }

  // ---------------------------------------------------------------------
  // Properties
  // ---------------------------------------------------------------------

  /** The empty class text and parameter text give the empty attribute map. */
  lemma NoAttributes()
    ensures ParseAttributesSpec("", "") == []
  {
    assert Split("", '.') == [""];
    assert Trim("") == "";
  }

  /** A word followed by nothing, or by a character that cannot continue a header,
      is a header with no classes and no parameters. */
  lemma HeaderOfName(name: string, tail: string, line: string)
    requires IsWord(name) && line == name + tail
    requires tail == [] || (tail[0] != '.' && tail[0] != '(' && !IsWordChar(tail[0]))
    ensures HeaderAt(line) == Some(Header(name, "", "", |name|))
  {
    WordEndExact(line, 0, |name|);
    assert line[..|name|] == name;
  }

  /** A line whose bracket rest is free of line terminators is one of the three
      bracket shapes, whatever the name. */
  lemma BracketLine(line: string, h: Header, t: string)
    requires HeaderAt(line) == Some(h) && BracketRest(line, h) == Some(t) && NoLineTerminator(t)
    ensures ElementStart(line) == Some(BracketStart(h.name, ParseAttributesSpec(h.mods, h.params), t))
  {
  }

  /** After `name [`, the bracket rest is the text that follows the `[`. */
  lemma BracketRestAfterName(name: string, t: string, line: string)
    requires IsWord(name) && line == name + " [" + t
    ensures |name| <= |line|
    ensures BracketRest(line, Header(name, "", "", |name|)) == Some(t)
  {
    assert SpaceEnd(line, |name|) == |name| + 1 by {
      assert line[|name|] == ' ' && line[|name| + 1] == '[';
    }
    assert line[|name| + 2..] == t;
  }

  /** `name [t` with `t` free of line terminators is a bracket shape with no
      attributes. */
  lemma NameBracket(name: string, t: string, line: string)
    requires IsWord(name) && NoLineTerminator(t) && line == name + " [" + t
    ensures ElementStart(line) == Some(BracketStart(name, [], t))
  {
    HeaderOfName(name, " [" + t, line);
    NoAttributes();
    BracketRestAfterName(name, t, line);
    BracketLine(line, Header(name, "", "", |name|), t);
  }

  /** `name [content]` is read back as the inline element `name` holding `content`. */
  lemma InlineStart(name: string, content: string)
    requires IsWord(name) && NoLineTerminator(content)
    ensures ElementStart(name + " [" + content + "]") == Some(Start(name, [], content, Inline))
  {
    var t := content + "]";
    assert NoLineTerminator(t) by {
      forall i | 0 <= i < |t| ensures !IsLineTerminator(t[i]) {
        if i < |content| { assert t[i] == content[i]; }
      }
    }
    NameBracket(name, t, name + " [" + content + "]");
    assert t[..|t| - 1] == content;
  }

  /** `name [` opens a block with no text on its first line. */
  lemma BlockStart(name: string)
    requires IsWord(name)
    ensures ElementStart(name + " [") == Some(Start(name, [], "", Block(false)))
  {
    NameBracket(name, "", name + " [");
  }

  /** `name [text`, where `text` does not end in `]`, opens a block whose first
      line holds `text`. */
  lemma BlockStartWithText(name: string, text: string)
    requires IsWord(name) && NoLineTerminator(text)
    requires text != [] && text[|text| - 1] != ']'
    ensures ElementStart(name + " [" + text) == Some(Start(name, [], text, Block(true)))
  {
    NameBracket(name, text, name + " [" + text);
  }

  /** A bare name is an element exactly when it is self-closing. */
  lemma BareName(name: string)
    requires IsWord(name)
    ensures ElementStart(name).Some? <==> IsSelfClosing(name)
    ensures IsSelfClosing(name) ==> ElementStart(name) == Some(Start(name, [], "", Inline))
  {
    var h := Header(name, "", "", |name|);
    HeaderOfName(name, "", name);
    NoAttributes();
    AtTextEnd(name);
    HeaderOnly(name, h);
  }

  /** A line that is all header, with no bracket and no chain, is an element
      exactly when its name is self-closing. */
  lemma HeaderOnly(line: string, h: Header)
    requires HeaderAt(line) == Some(h) && h.end == |line|
    requires BracketRest(line, h).None? && ChainEnd(line, h.end) == |line|
    ensures ElementStart(line).Some? <==> IsSelfClosing(h.name)
    ensures IsSelfClosing(h.name) ==>
      ElementStart(line) == Some(Start(h.name, ParseAttributesSpec(h.mods, h.params), "", Inline))
  {
    assert line[h.end..] == "";
  }

  /** Without a `[` on the line only the self-closing shapes can match, and they
      carry no content. */
  lemma NoBracketIsSelfClosing(line: string)
    requires !Occurs(line, '[')
    ensures ElementStart(line).Some? ==>
      IsSelfClosing(ElementStart(line).value.element)
      && ElementStart(line).value.content == ""
      && ElementStart(line).value.shape == Inline
  {
    var hd := HeaderAt(line);
    if hd.Some? {
      var p := SpaceEnd(line, hd.value.end);
      assert !(p < |line| && line[p] == '[');
    }
  }
}
