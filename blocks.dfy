/** `parseElements` and `findBlockEnd`: the line loop that turns the whole input
    into HTML, element by element, descending into the lines of each block. */
module Blocks {
  import opened Text
  import opened Scanners
  import opened Attributes
  import opened Inline
  import opened Emitter
  import opened Starts

  // ---------------------------------------------------------------------
  // findBlockEnd
  // ---------------------------------------------------------------------

  /** The matches of `/\[(?![^\]]*])/g` from position `i`: the `[` characters
      with no `]` anywhere after them on the line. */
  function OpenFrom(line: string, i: nat): nat
    requires i <= |line|
    decreases |line| - i
  {
    if i == |line| then 0
    else (if line[i] == '[' && !Occurs(line[i + 1..], ']') then 1 else 0) + OpenFrom(line, i + 1)
  }

  /** How many brackets a line leaves open. */
  function OpenCount(line: string): nat {
    OpenFrom(line, 0)
  }

  /** The same count read from the end of the line: the `[` after the last `]`. */
  function Unclosed(s: string): nat {
    if |s| == 0 then 0
    else if s[|s| - 1] == ']' then 0
    else Unclosed(s[..|s| - 1]) + (if s[|s| - 1] == '[' then 1 else 0)
  }

  /** Every character is white space. */
  predicate AllSpaces(s: string) {
    forall k :: 0 <= k < |s| ==> IsSpace(s[k])
  }

  /** A closing line: white space, one `]`, white space. */
  predicate Closes(line: string) {
    if line == [] then false
    else if IsSpace(line[0]) then Closes(line[1..])
    else line[0] == ']' && AllSpaces(line[1..])
  }

  /** A line closes a block exactly when it trims to `]`. */
  lemma {:induction false} ClosesIsTrim(line: string)
    ensures Closes(line) <==> Trim(line) == "]"
  {
    if line == [] {
    } else if IsSpace(line[0]) {
      ClosesIsTrim(line[1..]);
    } else {
      assert TrimStart(line) == line;
      var r := TrimEnd(line);
      if r == "]" {
        assert AllSpaces(line[1..]) by {
          forall k | 0 <= k < |line| - 1 ensures IsSpace(line[1..][k]) {
            assert line[1..][k] == line[k + 1];
          }
        }
      }
      if Closes(line) {
        assert r != [];
        assert |r| == 1;
        assert r == line[..1];
      }
    }
  }

  /** `line.trim() === ']'`. */
  method IsClosing(line: string) returns (b: bool)
    ensures b == Closes(line)
  {
    ClosesIsTrim(line);
    b := Trim(line) == "]";
  }

  /** The depth after one line: a closing line closes one level, any other line
      opens as many as it leaves open. */
  function Step(depth: int, line: string): int {
    if Closes(line) then depth - 1 else depth + OpenCount(line)
  }

  /** The depth after reading `ls`, starting inside one open block. */
  function Depth(ls: seq<string>): int {
    if |ls| == 0 then 1 else Step(Depth(ls[..|ls| - 1]), ls[|ls| - 1])
  }

  /** The depth after the lines from `s` through `k`. */
  function DepthThrough(lines: seq<string>, s: nat, k: nat): int
    requires s <= k < |lines|
  {
    Depth(lines[s..k + 1])
  }

  /** The index `findBlockEnd` stops at, scanning from line `i` at depth `depth`:
      the line whose `]` closes the block, or the number of lines. */
  function BlockEnd(lines: seq<string>, i: nat, depth: int): nat
    requires i <= |lines| && depth > 0
    decreases |lines| - i
  {
    if i == |lines| then i
    else if Closes(lines[i]) && depth == 1 then i
    else BlockEnd(lines, i + 1, Step(depth, lines[i]))
  }

  /** The scan stops at a line index, or at the number of lines. */
  lemma {:induction false} BlockEndBounds(lines: seq<string>, i: nat, depth: int)
    requires i <= |lines| && depth > 0
    ensures i <= BlockEnd(lines, i, depth) <= |lines|
    decreases |lines| - i
  {
    if i < |lines| && !(Closes(lines[i]) && depth == 1) {
      BlockEndBounds(lines, i + 1, Step(depth, lines[i]));
    }
  }

  /** Each line followed by a newline, as `content += line + '\n'` builds it. */
  function Terminated(ls: seq<string>): string {
    if |ls| == 0 then "" else Terminated(ls[..|ls| - 1]) + ls[|ls| - 1] + "\n"
  }

  /** `findBlockEnd(lines, startIndex)`: the end index and the trimmed text of the
      lines between the block's first line and its closing line. */
  method FindBlockEnd(lines: seq<string>, startIndex: nat) returns (endIndex: nat, blockContent: string)
    requires startIndex < |lines|
    ensures endIndex == BlockEnd(lines, startIndex + 1, 1)
    ensures startIndex < endIndex <= |lines|
    ensures blockContent == Trim(Terminated(lines[startIndex + 1..endIndex]))
  {
    var depth := 1;
    var content := "";
    var i := startIndex + 1;
    while i < |lines| && depth > 0
      invariant startIndex + 1 <= i <= |lines|
      invariant depth > 0
      invariant BlockEnd(lines, i, depth) == BlockEnd(lines, startIndex + 1, 1)
      invariant content == Terminated(lines[startIndex + 1..i])
      decreases |lines| - i
    {
      var line := lines[i];
      var closes := IsClosing(line);
      ghost var before := depth;
      if closes {
        depth := depth - 1;
        if depth == 0 {
          break;
        }
      } else {
        var openBrackets := OpenCount(line);
        depth := depth + openBrackets;
      }
      BlockEndStep(lines, i, before);
      if depth > 0 {
        TerminatedSnoc(lines, startIndex + 1, i);
        content := content + line + "\n";
      }
      i := i + 1;
    }
    endIndex := i;
    blockContent := Trim(content);
  }

  /** One line of the scan: the end index is found from the next line at the new depth. */
  lemma BlockEndStep(lines: seq<string>, i: nat, depth: int)
    requires i < |lines| && depth > 0 && !(Closes(lines[i]) && depth == 1)
    ensures Step(depth, lines[i]) > 0
    ensures BlockEnd(lines, i, depth) == BlockEnd(lines, i + 1, Step(depth, lines[i]))
  {
  }

  lemma TerminatedSnoc(lines: seq<string>, a: nat, i: nat)
    requires a <= i < |lines|
    ensures Terminated(lines[a..i + 1]) == Terminated(lines[a..i]) + lines[i] + "\n"
  {
    assert lines[a..i + 1][..i - a] == lines[a..i];
  }

  // ---------------------------------------------------------------------
  // parseElements
  // ---------------------------------------------------------------------

  /** A line that is a whole image with chained modifiers, as the first test of
      the loop recognises it. */
  function ImageLine(line: string): Option<ImageMatch> {
    if StartsWith(line, "image") then ImageAt(line, true) else None
  }

  /** The attribute map of such an image. */
  function ImageAttrs(m: ImageMatch): Attrs {
    ImageModifiersSpec(ParseAttributesSpec(m.mods, m.params), m.chain)
  }

  /** `parseElements(input)`: the output of the line loop, trimmed. */
  function Elements(input: string): string
    decreases |input|, 2, 0
  {
    Trim(ElementsFrom(input, Split(input, '\n'), 0))
  }

  /** The output of the line loop from line `i` on. */
  function ElementsFrom(input: string, lines: seq<string>, i: nat): string
    requires lines == Split(input, '\n') && i <= |lines| + 1
    decreases |input|, 1, |lines| + 1 - i
  {
    if i >= |lines| then ""
    else LineText(input, lines, i) + ElementsFrom(input, lines, LineNext(lines, i))
  }

  /** What one turn of the loop appends for the line at `i`. */
  function LineText(input: string, lines: seq<string>, i: nat): string
    requires lines == Split(input, '\n') && i < |lines|
    decreases |input|, 0, 1
  {
    var line := Trim(lines[i]);
    if line == "" then "\n"
    else if line == "]" then ""
    else if ImageLine(line).Some? then CreateElement("image", ImageAttrs(ImageLine(line).value), "") + "\n"
    else
      var st := ElementStart(line);
      if st.None? then
        var processedLine := InlineFormatting(line);
        if Trim(processedLine) != "" then processedLine + "\n" else ""
      else if st.value.shape == Inline then
        var s := st.value;
        CreateElement(s.element, s.attributes, if s.element == "code" then s.content else InlineFormatting(s.content)) + "\n"
      else
        CreateElement(st.value.element, st.value.attributes, BlockBody(input, lines, i, st.value)) + "\n"
  }

  /** The content of a block element: the block's lines parsed as elements (kept
      verbatim for `preformatted`), after the formatted text of its first line. */
  function BlockBody(input: string, lines: seq<string>, i: nat, s: Start): string
    requires lines == Split(input, '\n') && i < |lines| && Trim(lines[i]) != ""
    requires s.shape.Block?
    decreases |input|, 0, 0
  {
    var e := BlockEnd(lines, i + 1, 1);
    BlockEndBounds(lines, i + 1, 1);
    var block := Trim(Terminated(lines[i + 1..e]));
    if s.element == "preformatted" then
      if s.shape.initial then s.content + "\n" + block else block
    else
      BlockShorter(input, lines, i, e);
      if s.shape.initial then InlineFormatting(s.content) + "\n" + Elements(block)
      else Elements(block)
  }

  /** The line the loop goes on with after line `i`: the next one, or the one after
      the closing line of the block opened at `i`. */
  function LineNext(lines: seq<string>, i: nat): (r: nat)
    requires i < |lines|
    ensures i < r <= |lines| + 1
  {
    var line := Trim(lines[i]);
    if line == "" || line == "]" || ImageLine(line).Some? then i + 1
    else
      var st := ElementStart(line);
      if st.Some? && st.value.shape.Block? then
        BlockEndBounds(lines, i + 1, 1);
        BlockEnd(lines, i + 1, 1) + 1
      else i + 1
  }

  /** `parseElements`: the `while` loop over the line index. */
  method ParseElements(input: string) returns (result: string)
    ensures result == Elements(input)
    decreases |input|, 2
  {
    var lines := Split(input, '\n');
    result := "";
    var i := 0;
    while i < |lines|
      invariant i <= |lines| + 1
      invariant result + ElementsFrom(input, lines, i) == ElementsFrom(input, lines, 0)
      decreases |lines| + 1 - i
    {
      var piece, next := ParseLine(input, lines, i);
      PassStep(result, ElementsFrom(input, lines, i), ElementsFrom(input, lines, 0), piece, ElementsFrom(input, lines, next));
      result := result + piece;
      i := next;
    }
    assert ElementsFrom(input, lines, i) == "";
    assert result + "" == result;
    result := Trim(result);
  }

  /** One turn of `parseElements`' loop: the text it appends for line `i` and the
      index it continues with. */
  method ParseLine(input: string, lines: seq<string>, i: nat) returns (piece: string, next: nat)
    requires lines == Split(input, '\n') && i < |lines|
    ensures piece == LineText(input, lines, i) && next == LineNext(lines, i)
    decreases |input|, 1
  {
    var line := Trim(lines[i]);
    if line == "" {
      return "\n", i + 1;
    }
    if line == "]" {
      return "", i + 1;
    }
    var image := ImageLine(line);
    if image.Some? {
      var attributes := ParseAttributes(image.value.mods, image.value.params);
      ProcessImageModifiers(attributes, image.value.chain);
      return CreateElement("image", attributes.entries, "") + "\n", i + 1;
    }
    var elementMatch := ParseElementStart(line);
    if elementMatch.None? {
      var processedLine := ParseInlineFormatting(line);
      piece := if Trim(processedLine) != "" then processedLine + "\n" else "";
      return piece, i + 1;
    }
    var st := elementMatch.value;
    if st.shape == Inline {
      var content := st.content;
      if st.element != "code" {
        content := ParseInlineFormatting(st.content);
      }
      return CreateElement(st.element, st.attributes, content) + "\n", i + 1;
    }
    piece, next := ParseBlock(input, lines, i, st);
  }

  /** The block branch of the loop: find the block's end, parse its text and wrap
      it in the element. */
  method ParseBlock(input: string, lines: seq<string>, i: nat, st: Start) returns (piece: string, next: nat)
    requires lines == Split(input, '\n') && i < |lines| && Trim(lines[i]) != "" && st.shape.Block?
    ensures piece == CreateElement(st.element, st.attributes, BlockBody(input, lines, i, st)) + "\n"
    ensures next == BlockEnd(lines, i + 1, 1) + 1
    decreases |input|, 0
  {
    var endIndex, blockContent := FindBlockEnd(lines, i);
    var fullContent;
    if st.element == "preformatted" {
      fullContent := if st.shape.initial then st.content + "\n" + blockContent else blockContent;
    } else {
      BlockShorter(input, lines, i, endIndex);
      var nested := ParseElements(blockContent);
      if st.shape.initial {
        var first := ParseInlineFormatting(st.content);
        fullContent := first + "\n" + nested;
      } else {
        fullContent := nested;
      }
    }
    piece := CreateElement(st.element, st.attributes, fullContent) + "\n";
    next := endIndex + 1;
  }

  // ---------------------------------------------------------------------
  // Termination: a block's text is shorter than the input it came from
  // ---------------------------------------------------------------------

  lemma {:induction false} TerminatedAppend(a: seq<string>, b: seq<string>)
    ensures Terminated(a + b) == Terminated(a) + Terminated(b)
    decreases |b|
  {
    if |b| > 0 {
      assert (a + b)[..|a + b| - 1] == a + b[..|b| - 1];
      TerminatedAppend(a, b[..|b| - 1]);
    } else {
      assert a + b == a;
    }
  }

  lemma {:induction false} JoinTerminated(ls: seq<string>)
    requires |ls| >= 1
    ensures Join(ls, "\n") + "\n" == Terminated(ls)
    decreases |ls|
  {
    if |ls| == 1 {
      assert ls[..0] == [];
    } else {
      JoinTerminated(ls[1..]);
      TerminatedAppend([ls[0]], ls[1..]);
      assert [ls[0]] + ls[1..] == ls;
      assert [ls[0]][..0] == [];
    }
  }

  /** The text of the lines after line `i` is shorter than the whole input, so the
      recursive `parseElements` on a block's content terminates. */
  lemma BlockShorter(input: string, lines: seq<string>, i: nat, e: nat)
    requires lines == Split(input, '\n') && i < e <= |lines| && Trim(lines[i]) != ""
    ensures |Trim(Terminated(lines[i + 1..e]))| < |input|
  {
    var t := Terminated(lines[i + 1..e]);
    TerminatedInput(input);
    assert |Terminated(lines)| == |input| + 1;
    TerminatedThree(lines, i + 1, e);
    TerminatedLine(lines, i);
    assert |lines[i]| >= 1 by {
      assert |Trim(lines[i])| <= |lines[i]|;
    }
    assert |Terminated(lines[..i + 1])| >= 2;
    assert |t| < |input|;
    assert |Trim(t)| <= |t|;
  }

  /** The lines of the input, each terminated, are the input and one newline. */
  lemma TerminatedInput(input: string)
    ensures |Terminated(Split(input, '\n'))| == |input| + 1
  {
    JoinSplit(input, '\n');
    JoinTerminated(Split(input, '\n'));
  }

  /** The text of the lines through line `i` holds that line and its newline. */
  lemma TerminatedLine(lines: seq<string>, i: nat)
    requires i < |lines|
    ensures |Terminated(lines[..i + 1])| >= |lines[i]| + 1
  {
    assert lines[..i + 1][..i] == lines[..i];
  }

  /** The text of the lines, cut in three pieces, is the text of the pieces. */
  lemma TerminatedThree(ls: seq<string>, a: nat, b: nat)
    requires a <= b <= |ls|
    ensures |Terminated(ls)| == |Terminated(ls[..a])| + |Terminated(ls[a..b])| + |Terminated(ls[b..])|
  {
    assert ls == (ls[..a] + ls[a..b]) + ls[b..];
    TerminatedAppend(ls[..a] + ls[a..b], ls[b..]);
    TerminatedAppend(ls[..a], ls[a..b]);
  }

  // ---------------------------------------------------------------------
  // Properties
  // ---------------------------------------------------------------------

  /** Counting from the left with the look-ahead and counting from the right after
      the last `]` agree. */
  lemma OpenCountIsUnclosed(line: string)
    ensures OpenCount(line) == Unclosed(line)
  {
    OpenFromIsUnclosed(line, 0);
  }

  lemma {:induction false} OpenFromIsUnclosed(line: string, i: nat)
    requires i <= |line|
    ensures OpenFrom(line, i) == Unclosed(line[i..])
    decreases |line| - i
  {
    if i < |line| {
      OpenFromIsUnclosed(line, i + 1);
      assert line[i..] == [line[i]] + line[i + 1..];
      UnclosedCons(line[i], line[i + 1..]);
    }
  }

  /** One character in front: a `[` counts exactly when no `]` follows it. */
  lemma {:induction false} UnclosedCons(c: char, t: string)
    ensures Unclosed([c] + t) == (if c == '[' && !Occurs(t, ']') then 1 else 0) + Unclosed(t)
    decreases |t|
  {
    if |t| > 0 {
      var u := t[..|t| - 1];
      var d := t[|t| - 1];
      assert ([c] + t)[..|t|] == [c] + u;
      UnclosedCons(c, u);
      if d != ']' {
        assert Occurs(t, ']') <==> Occurs(u, ']') by {
          if Occurs(t, ']') {
            var k :| 0 <= k < |t| && t[k] == ']';
            assert u[k] == ']';
          }
          if Occurs(u, ']') {
            var k :| 0 <= k < |u| && u[k] == ']';
            assert t[k] == ']';
          }
        }
      } else {
        assert t[|t| - 1] == ']';
      }
    } else {
      assert !Occurs(t, ']');
    }
  }

  /** `findBlockEnd` stops at the first line where the depth, counted from 1 over
      the lines after the block's first line, reaches 0; every line before it
      leaves the block open. With no such line it runs to the end. */
  lemma BlockEndIsFirstClose(lines: seq<string>, first: nat)
    requires first <= |lines|
    ensures var e := BlockEnd(lines, first, 1);
      && first <= e <= |lines|
      && (forall k :: first <= k < e ==> DepthThrough(lines, first, k) > 0)
      && (e < |lines| ==> Trim(lines[e]) == "]" && DepthThrough(lines, first, e) == 0)
  {
    BlockEndBounds(lines, first, 1);
    assert lines[first..first] == [];
    BlockEndFrom(lines, first, first, 1);
    var e := BlockEnd(lines, first, 1);
    if e < |lines| {
      ClosesIsTrim(lines[e]);
    }
  }

  lemma {:induction false} BlockEndFrom(lines: seq<string>, s: nat, i: nat, depth: int)
    requires s <= i <= |lines| && depth > 0 && depth == Depth(lines[s..i])
    requires forall k :: s <= k < i ==> DepthThrough(lines, s, k) > 0
    ensures var e := BlockEnd(lines, i, depth);
      && i <= e <= |lines|
      && (forall k :: s <= k < e ==> DepthThrough(lines, s, k) > 0)
      && (e < |lines| ==> Closes(lines[e]) && DepthThrough(lines, s, e) == 0)
    decreases |lines| - i
  {
    BlockEndBounds(lines, i, depth);
    if i < |lines| {
      assert lines[s..i + 1][..i - s] == lines[s..i];
      assert DepthThrough(lines, s, i) == Step(depth, lines[i]);
      if !(Closes(lines[i]) && depth == 1) {
        BlockEndFrom(lines, s, i + 1, Step(depth, lines[i]));
      }
    }
  }
}
