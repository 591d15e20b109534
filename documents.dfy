/** What `parseElements` makes of whole documents of a few simple shapes. */
module Documents {
  import opened Text
  import opened Scanners
  import opened Attributes
  import opened Inline
  import opened Emitter
  import opened Starts
  import opened Blocks

  /** Text followed by its newline trims back to the text. */
  lemma TrimNewline(x: string)
    requires x != [] && !IsSpace(x[0]) && !IsSpace(x[|x| - 1])
    ensures Trim(x + "\n") == x
  {
    var t := x + "\n";
    assert TrimStart(t) == t;
    assert t[..|t| - 1] == x;
    assert TrimEnd(t) == TrimEnd(x);
  }

  /** A trimmed text followed by its newline trims back to the text. */
  lemma TrimmedNewline(x: string)
    requires x != [] && Trim(x) == x
    ensures Trim(x + "\n") == x
  {
    TrimNewline(x);
  }

  /** An element's markup followed by its newline trims back to the markup. */
  lemma TrimElement(name: string, a: Attrs, content: string)
    ensures Trim(CreateElement(name, a, content) + "\n") == CreateElement(name, a, content)
  {
    CreateElementIsMarkup(name, a, content);
    TrimNewline(CreateElement(name, a, content));
  }

  /** A one-line input is what its single turn of the loop appends, trimmed. */
  lemma OneLine(t: string)
    requires !Occurs(t, '\n')
    ensures Split(t, '\n') == [t] && Elements(t) == Trim(LineText(t, [t], 0))
  {
    SplitNoSeparator(t, '\n');
    var lines := [t];
    var n := LineNext(lines, 0);
    assert ElementsFrom(t, lines, n) == "";
    assert ElementsFrom(t, lines, 0) == LineText(t, lines, 0) + ElementsFrom(t, lines, n);
    assert ElementsFrom(t, lines, 0) == LineText(t, lines, 0);
  }

  /** A line without a `.` is never an image with chained modifiers. */
  lemma NoDotNoImage(line: string)
    requires !Occurs(line, '.')
    ensures ImageLine(line).None?
  {
  }

  /** The loop's turn for a line that is neither blank, nor `]`, nor an image, nor
      an element: the formatted line, when it is not blank. */
  lemma LineTextProse(input: string, lines: seq<string>, i: nat)
    requires lines == Split(input, '\n') && i < |lines|
    requires var line := Trim(lines[i]);
      line != "" && line != "]" && ImageLine(line).None? && ElementStart(line).None?
    ensures var p := InlineFormatting(Trim(lines[i]));
      LineText(input, lines, i) == if Trim(p) != "" then p + "\n" else ""
  {
  }

  /** The loop's turn for a line holding a whole element. */
  lemma LineTextInline(input: string, lines: seq<string>, i: nat, s: Start)
    requires lines == Split(input, '\n') && i < |lines|
    requires var line := Trim(lines[i]);
      line != "" && line != "]" && ImageLine(line).None? && ElementStart(line) == Some(s)
    requires s.shape == Inline
    ensures LineText(input, lines, i)
      == CreateElement(s.element, s.attributes, if s.element == "code" then s.content else InlineFormatting(s.content)) + "\n"
  {
  }

  /** A line with no `[` whose first word is not self-closing starts no element. */
  lemma ProseIsNoElement(t: string)
    requires !Occurs(t, '[') && !IsSelfClosing(t[..WordEnd(t, 0)])
    ensures ElementStart(t).None?
  {
    NoBracketIsSelfClosing(t);
  }

  /** A single line of prose, with no markup and not starting with the name of a
      self-closing element, comes out unchanged. */
  lemma PlainParagraph(t: string)
    requires t != [] && t != "]" && Trim(t) == t
    requires !Occurs(t, '\n') && NoMarkup(t)
    requires !IsSelfClosing(t[..WordEnd(t, 0)])
    ensures Elements(t) == t
  {
    OneLine(t);
    ProseLine(t);
    TrimmedNewline(t);
  }

  /** The loop's turn for such a line appends the line and a newline. */
  lemma ProseLine(t: string)
    requires t != [] && t != "]" && Trim(t) == t
    requires Split(t, '\n') == [t] && NoMarkup(t)
    requires !IsSelfClosing(t[..WordEnd(t, 0)])
    ensures LineText(t, [t], 0) == t + "\n"
  {
    NoImageWord(t);
    ProseIsNoElement(t);
    InlinePlain(t);
    LineTextProse(t, [t], 0);
  }

  /** A line that does not contain `image` is no image line. */
  lemma NoImageWord(t: string)
    requires !Includes(t, "image")
    ensures ImageLine(t).None?
  {
    if StartsWith(t, "image") {
      assert At(t, 0, "image");
    }
  }

  /** `name [text]` on its own line is the element `name` holding the formatted
      text (the unformatted text for `code`). */
  lemma InlineElementLine(name: string, x: string)
    requires IsWord(name) && !StartsWith(name, "image")
    requires NoLineTerminator(x)
    ensures Elements(name + " [" + x + "]")
      == CreateElement(name, [], if name == "code" then x else InlineFormatting(x))
  {
    var line := name + " [" + x + "]";
    InlineLineShape(name, x);
    OneLine(line);
    InlineStart(name, x);
    LineTextInline(line, [line], 0, Start(name, [], x, Inline));
    TrimElement(name, [], if name == "code" then x else InlineFormatting(x));
  }

  /** Such a line is one trimmed line that is no image line. */
  lemma InlineLineShape(name: string, x: string)
    requires IsWord(name) && !StartsWith(name, "image")
    requires NoLineTerminator(x)
    ensures var line := name + " [" + x + "]";
      !Occurs(line, '\n') && Trim(line) == line && ImageLine(line).None?
  {
    var line := name + " [" + x + "]";
    assert !Occurs(line, '\n') by {
      forall k | 0 <= k < |line| ensures line[k] != '\n' {
        if |name| + 2 <= k < |line| - 1 { assert line[k] == x[k - |name| - 2]; }
      }
    }
    assert line[0] == name[0] && IsWordChar(name[0]);
    TrimOfTrimmed(line);
    assert line == name + (" [" + x + "]");
    NotImagePrefix(name, " [" + x + "]");
  }

  /** A word that does not start with `image`, followed by a space, does not
      start with `image` either. */
  lemma NotImagePrefix(name: string, rest: string)
    requires !StartsWith(name, "image") && rest != [] && rest[0] == ' '
    ensures !StartsWith(name + rest, "image")
  {
    if |name| >= 5 {
      assert (name + rest)[..5] == name[..5];
    } else {
      assert (name + rest)[|name|] == ' ';
    }
  }

  /** An input whose first line is the whole of the loop's work is what that line
      becomes, trimmed. */
  lemma FirstLineOnly(input: string)
    requires LineNext(Split(input, '\n'), 0) >= |Split(input, '\n')|
    ensures Elements(input) == Trim(LineText(input, Split(input, '\n'), 0))
  {
    var lines := Split(input, '\n');
    var n := LineNext(lines, 0);
    assert ElementsFrom(input, lines, n) == "";
    assert ElementsFrom(input, lines, 0) == LineText(input, lines, 0) + ElementsFrom(input, lines, n);
    assert ElementsFrom(input, lines, 0) == LineText(input, lines, 0);
  }

  /** The loop's turn for a line that opens a block. */
  lemma LineTextBlock(input: string, lines: seq<string>, i: nat, s: Start)
    requires lines == Split(input, '\n') && i < |lines|
    requires var line := Trim(lines[i]);
      line != "" && line != "]" && ImageLine(line).None? && ElementStart(line) == Some(s)
    requires s.shape.Block?
    ensures LineText(input, lines, i) == CreateElement(s.element, s.attributes, BlockBody(input, lines, i, s)) + "\n"
    ensures LineNext(lines, i) == BlockEnd(lines, i + 1, 1) + 1
  {
  }

  /** `name [`, a line of text, and `]` split into these three lines. */
  lemma BlockLines(name: string, t: string)
    requires IsWord(name) && !Occurs(t, '\n')
    ensures Split(name + " [\n" + t + "\n]", '\n') == [name + " [", t, "]"]
  {
    var head := name + " [";
    assert !Occurs(head, '\n') by {
      forall k | 0 <= k < |head| ensures head[k] != '\n' {
        if k < |name| { assert head[k] == name[k] && IsWordChar(name[k]); }
      }
    }
    assert name + " [\n" + t + "\n]" == head + ['\n'] + (t + ['\n'] + "]");
    SplitAround(head, t + ['\n'] + "]", '\n');
    SplitAround(t, "]", '\n');
    SplitNoSeparator("]", '\n');
  }

  /** No `[` on a line leaves no bracket open. */
  lemma {:induction false} NoOpenBracket(line: string, i: nat)
    requires i <= |line| && !Occurs(line, '[')
    ensures OpenFrom(line, i) == 0
    decreases |line| - i
  {
    if i < |line| {
      NoOpenBracket(line, i + 1);
    }
  }

  /** A block whose one line of text opens nothing ends at the next line's `]`. */
  lemma OneLineBlockEnd(lines: seq<string>)
    requires |lines| == 3 && !Closes(lines[1]) && !Occurs(lines[1], '[') && lines[2] == "]"
    ensures BlockEnd(lines, 1, 1) == 2
  {
    NoOpenBracket(lines[1], 0);
    assert Step(1, lines[1]) == 1;
    assert Closes(lines[2]) by {
      assert AllSpaces(lines[2][1..]);
    }
  }

  /** The header line `name [` is no image and opens a block with no text. */
  lemma BlockHeadShape(name: string)
    requires IsWord(name) && !StartsWith(name, "image")
    ensures var head := name + " [";
      Trim(head) == head && ImageLine(head).None?
      && ElementStart(head) == Some(Start(name, [], "", Block(false)))
  {
    HeadTrimmed(name);
    NotImagePrefix(name, " [");
    BlockStart(name);
  }

  /** The header line `name [` is trimmed. */
  lemma HeadTrimmed(name: string)
    requires IsWord(name)
    ensures Trim(name + " [") == name + " ["
  {
    var head := name + " [";
    assert head[0] == name[0] && IsWordChar(name[0]);
    TrimOfTrimmed(head);
  }

  /** `name [`, one line of text and `]` make the element `name` around what the
      text becomes (around the text itself for `preformatted`). */
  lemma BlockAroundLine(name: string, t: string)
    requires IsWord(name) && !StartsWith(name, "image")
    requires !Occurs(t, '\n') && !Occurs(t, '[') && !Closes(t)
    ensures Elements(name + " [\n" + t + "\n]")
      == CreateElement(name, [], if name == "preformatted" then Trim(t) else Elements(Trim(t)))
  {
    var input := name + " [\n" + t + "\n]";
    var body := if name == "preformatted" then Trim(t) else Elements(Trim(t));
    BlockAroundLineTurn(name, t);
    FirstLineOnly(input);
    TrimElement(name, [], body);
  }

  /** The loop's one turn over such an input. */
  lemma BlockAroundLineTurn(name: string, t: string)
    requires IsWord(name) && !StartsWith(name, "image")
    requires !Occurs(t, '\n') && !Occurs(t, '[') && !Closes(t)
    ensures var input := name + " [\n" + t + "\n]";
      var lines := Split(input, '\n');
      lines == [name + " [", t, "]"]
      && LineNext(lines, 0) == 3
      && LineText(input, lines, 0)
        == CreateElement(name, [], if name == "preformatted" then Trim(t) else Elements(Trim(t))) + "\n"
  {
    var input := name + " [\n" + t + "\n]";
    var lines := [name + " [", t, "]"];
    var st := Start(name, [], "", Block(false));
    BlockLines(name, t);
    BlockHeadShape(name);
    HeadTrimmed(name);
    OneLineBlockEnd(lines);
    LineTextBlock(input, lines, 0, st);
    BareBlockBody(input, lines, st);
  }

  /** The body of a bare block of three lines: what its middle line becomes. */
  lemma BareBlockBody(input: string, lines: seq<string>, s: Start)
    requires lines == Split(input, '\n') && |lines| == 3 && Trim(lines[0]) != ""
    requires s.shape == Block(false) && BlockEnd(lines, 1, 1) == 2
    ensures BlockBody(input, lines, 0, s)
      == if s.element == "preformatted" then Trim(lines[1]) else Elements(Trim(lines[1]))
  {
    MiddleLineText(lines);
  }

  /** The text between the first and the last of three lines is the middle line. */
  lemma MiddleLineText(lines: seq<string>)
    requires |lines| == 3
    ensures Trim(Terminated(lines[1..2])) == Trim(lines[1])
  {
    var t := lines[1];
    assert lines[1..2] == [t];
    assert Terminated([t]) == t + "\n" by {
      assert [t][..0] == [];
    }
    TrimDropsTrailingSpace(t, '\n');
  }
}
