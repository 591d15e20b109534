/** `processStandaloneSnippets`: the pre-pass that expands a `snippet[content].mod…`
    standing alone on its line, after first breaking a line that holds several
    such snippets separated by white space into one line per snippet. */
module Snippets {
  import opened Text
  import opened Scanners
  import opened Modifiers

  lemma PassStep(out: string, cur: string, whole: string, piece: string, rest: string)
    requires out + cur == whole && cur == piece + rest
    ensures (out + piece) + rest == whole
  {
    AppendAssoc(out, piece, rest);
  }

  // ---------------------------------------------------------------------
  // Recognisers
  // ---------------------------------------------------------------------

  /** `snippet\s*\[([^\]]+)\]` followed by a chain of at least one modifier: the
      content, where the chain starts and where it ends. The chain is the longest
      one; every use below needs white space, a line end or `(` after it, and no
      shorter chain is followed by any of those. */
  datatype Head = Head(content: string, chainStart: nat, end: nat)

  function SnippetHead(s: string, i: nat): (r: Option<Head>)
    requires i <= |s|
    ensures r.Some? ==> i < r.value.chainStart < r.value.end <= |s|
    ensures r.Some? ==> At(s, i, "snippet")
  {
    if !At(s, i, "snippet") then None
    else
      var b := SpaceEnd(s, i + 7);
      if !(b < |s| && s[b] == '[') then None
      else
        var j := CharFrom(s, b + 1, ']');
        if j == |s| || j == b + 1 then None
        else
          var c := ChainEnd(s, j + 1);
          if c == j + 1 then None else Some(Head(s[b + 1..j], j + 1, c))
  }

  /** The last line terminator in `s[lo..hi]`, where a multi-line `$` can match
      when the white space after a snippet does not reach the end of the text. */
  function LastTerminator(s: string, lo: nat, hi: nat): (r: Option<nat>)
    requires lo <= hi <= |s|
    ensures r.Some? ==> lo <= r.value < hi && IsLineTerminator(s[r.value])
    ensures r.None? ==> forall k :: lo <= k < hi ==> !IsLineTerminator(s[k])
    decreases hi - lo
  {
    if hi == lo then None
    else if IsLineTerminator(s[hi - 1]) then Some(hi - 1)
    else LastTerminator(s, lo, hi - 1)
  }

  /** One match of the standalone expression
      `^(\s*)snippet\s*\[([^\]]+)\]((?:\.\w+(?:\([^)]*\))?)+)(\s*)$` (multi-line):
      the indent, content, chain and trailing white space, and where it ends. */
  datatype Standalone = Standalone(indent: string, content: string, chain: string, trailing: string, end: nat)

  /** The standalone match at position `p`, if any. `^` needs the start of the
      text or a line terminator just before `p`; `\s` also matches line
      terminators, so the indent and the trailing white space may span lines;
      the trailing part stops at the end of the text or, backing off, just before
      the last line terminator of the white-space run. */
  function StandaloneAt(s: string, p: nat): (r: Option<Standalone>)
    requires p <= |s|
    ensures r.Some? ==> p < r.value.end <= |s|
    ensures r.Some? ==> exists a :: p <= a <= |s| && At(s, a, "snippet")
  {
    if !(p == 0 || IsLineTerminator(s[p - 1])) then None
    else
      var a := SpaceEnd(s, p);
      match SnippetHead(s, a)
      case None => None
      case Some(h) =>
        var w := SpaceEnd(s, h.end);
        var k := if w == |s| then Some(w) else LastTerminator(s, h.end, w);
        if k.None? then None
        else Some(Standalone(s[p..a], h.content, s[h.chainStart..h.end], s[h.end..k.value], k.value))
  }

  /** What a standalone match becomes: its indent, its content under its chain
      (first modifier innermost), its trailing white space. */
  function Expanded(m: Standalone): string {
    m.indent + ApplyChain(m.content, ScanModifiers(m.chain)) + m.trailing
  }

  /** The global replacement of standalone snippets, scanning from `i`. */
  function StandalonePass(s: string, i: nat): string
    requires i <= |s|
    decreases |s| - i
  {
    if i == |s| then "" else StandaloneText(s, i) + StandalonePass(s, StandaloneNext(s, i))
  }

  function StandaloneText(s: string, i: nat): string
    requires i < |s|
  {
    var r := StandaloneAt(s, i);
    if r.Some? then Expanded(r.value) else [s[i]]
  }

  function StandaloneNext(s: string, i: nat): (n: nat)
    requires i < |s|
    ensures i < n <= |s|
  {
    var r := StandaloneAt(s, i);
    if r.Some? then r.value.end else i + 1
  }

  /** The `replace` callback over every standalone snippet; the modifiers are
      applied by the same `exec` loop as everywhere else. */
  method ExpandStandalone(text: string) returns (out: string)
    ensures out == StandalonePass(text, 0)
  {
    out := "";
    var pos := 0;
    while pos < |text|
      invariant pos <= |text|
      invariant out + StandalonePass(text, pos) == StandalonePass(text, 0)
      decreases |text| - pos
    {
      var found := StandaloneAt(text, pos);
      var piece;
      if found.Some? {
        var m := found.value;
        var result := ApplyModifierChain(m.content, m.chain);
        piece := m.indent + result + m.trailing;
      } else {
        piece := [text[pos]];
      }
      var next := StandaloneNext(text, pos);
      PassStep(out, StandalonePass(text, pos), StandalonePass(text, 0), piece, StandalonePass(text, next));
      out := out + piece;
      pos := next;
    }
  }

  // ---------------------------------------------------------------------
  // Lines holding several snippets
  // ---------------------------------------------------------------------

  /** A snippet with a chain, white space, then a second snippet with a chain,
      starting at `i`. */
  predicate TwoSnippetsAt(s: string, i: nat)
    requires i <= |s|
  {
    match SnippetHead(s, i)
    case None => false
    case Some(h) =>
      var q := SpaceEnd(s, h.end);
      q > h.end && SnippetHead(s, q).Some?
  }

  /** The unanchored search for two adjacent snippets, from position `i` on. */
  predicate TwoSnippetsFrom(s: string, i: nat)
    requires i <= |s|
    decreases |s| - i
  {
    TwoSnippetsAt(s, i) || (i < |s| && TwoSnippetsFrom(s, i + 1))
  }

  /** The look-behind `(?<=(?:\.\w+(?:\([^)]*\))?)+)` at `q`, where `s[q]` is white
      space: some modifier ends exactly at `q`. */
  predicate AfterModifier(s: string, q: nat)
    requires q <= |s|
  {
    exists x :: 0 <= x < q && ElementEnd(s, x) == q
  }

  /** The separator `(\s+)(?=snippet\s*\[)` at `q` behind a modifier: where the
      white space ends. */
  function SeparatorAt(s: string, q: nat): (r: Option<nat>)
    requires q <= |s|
    ensures r.Some? ==> q < r.value <= |s|
  {
    var e := SpaceEnd(s, q);
    if e == q || !AfterModifier(s, q) then None
    else if At(s, e, "snippet") && SpaceEnd(s, e + 7) < |s| && s[SpaceEnd(s, e + 7)] == '[' then Some(e)
    else None
  }

  /** `s.split(separator)` with the captured separators kept, scanning from `q`
      with the current piece starting at `p`. */
  function SplitPieces(s: string, p: nat, q: nat): (r: seq<string>)
    requires p <= q <= |s|
    ensures |r| >= 1
    decreases |s| - q
  {
    if q == |s| then [s[p..]]
    else match SeparatorAt(s, q)
      case Some(e) => [s[p..q], s[q..e]] + SplitPieces(s, e, e)
      case None => SplitPieces(s, p, q + 1)
  }

  /** The pieces that start with `snippet` once trimmed, each behind `indent`. */
  function Kept(indent: string, pieces: seq<string>): (r: seq<string>)
    ensures |r| <= |pieces|
  {
    if pieces == [] then []
    else
      var rest := Kept(indent, pieces[1..]);
      if StartsWith(Trim(pieces[0]), "snippet") then [indent + pieces[0]] + rest else rest
  }

  /** Every line kept is the indent followed by a piece that starts with
      `snippet` once trimmed. */
  lemma {:induction false} KeptShape(indent: string, pieces: seq<string>)
    ensures forall k :: 0 <= k < |Kept(indent, pieces)| ==>
      StartsWith(Kept(indent, pieces)[k], indent)
      && StartsWith(Trim(Kept(indent, pieces)[k][|indent|..]), "snippet")
  {
    if pieces != [] {
      KeptShape(indent, pieces[1..]);
      assert (indent + pieces[0])[|indent|..] == pieces[0];
      if StartsWith(Trim(pieces[0]), "snippet") {
        var r := Kept(indent, pieces);
        var rest := Kept(indent, pieces[1..]);
        assert r == [indent + pieces[0]] + rest;
        forall k | 0 < k < |r| ensures r[k] == rest[k - 1] { }
      }
    }
  }

  /** The lines one input line becomes. A line with two adjacent snippets is split
      into its indent and the rest of the line up to any line terminator
      (`(\s*)(.+)`); the rest is cut at the separators and each snippet piece gets
      the indent. The fallback for a line with no non-space character is not
      reached, since such a line holds no snippet. */
  function LineOut(line: string): seq<string>
  {
    var a := SpaceEnd(line, 0);
    if TwoSnippetsFrom(line, 0) && a < |line| then Kept(line[..a], SplitPieces(LineBody(line, a), 0, 0))
    else [line]
  }

  /** What `.+` spans from `a`: the text up to the first line terminator. */
  function LineBody(line: string, a: nat): string
    requires a <= |line|
  {
    line[a..a + LineRun(line[a..])]
  }

  function SplitLines(lines: seq<string>): seq<string>
  {
    if lines == [] then [] else LineOut(lines[0]) + SplitLines(lines[1..])
  }

  /** The whole pre-pass: expand, break up lines with several snippets, expand again. */
  function ProcessSnippets(input: string): string {
    var once := StandalonePass(input, 0);
    StandalonePass(Join(SplitLines(Split(once, '\n')), "\n"), 0)
  }

  /** The inner `for` loop: push every piece that starts with `snippet`, behind the indent. */
  method PushSnippetPieces(indent: string, snippets: seq<string>, processed: seq<string>) returns (out: seq<string>)
    ensures out == processed + Kept(indent, snippets)
  {
    out := processed;
    var i := 0;
    while i < |snippets|
      invariant i <= |snippets|
      invariant out + Kept(indent, snippets[i..]) == processed + Kept(indent, snippets)
      decreases |snippets| - i
    {
      assert snippets[i..][1..] == snippets[i + 1..];
      if StartsWith(Trim(snippets[i]), "snippet") {
        out := out + [indent + snippets[i]];
      }
      i := i + 1;
    }
  }

  /** One pass of the outer `for` loop: the lines `line` becomes, pushed. */
  method PushLine(line: string, processed: seq<string>) returns (out: seq<string>)
    ensures out == processed + LineOut(line)
  {
    var a := SpaceEnd(line, 0);
    if TwoSnippetsFrom(line, 0) && a < |line| {
      out := PushSnippetPieces(line[..a], SplitPieces(LineBody(line, a), 0, 0), processed);
    } else {
      out := processed + [line];
    }
  }

  /** The outer `for` loop over the lines. */
  method SplitSnippetLines(lines: seq<string>) returns (processedLines: seq<string>)
    ensures processedLines == SplitLines(lines)
  {
    processedLines := [];
    var i := 0;
    while i < |lines|
      invariant i <= |lines|
      invariant processedLines + SplitLines(lines[i..]) == SplitLines(lines)
      decreases |lines| - i
    {
      var next := PushLine(lines[i], processedLines);
      SplitLinesStep(lines, i, processedLines, next);
      processedLines := next;
      i := i + 1;
    }
    assert lines[i..] == [];
  }

  lemma SplitLinesStep(lines: seq<string>, i: nat, done: seq<string>, next: seq<string>)
    requires i < |lines| && next == done + LineOut(lines[i])
    ensures done + SplitLines(lines[i..]) == next + SplitLines(lines[i + 1..])
  {
    var l := lines[i..];
    assert SplitLines(l) == LineOut(l[0]) + SplitLines(l[1..]);
    assert l[1..] == lines[i + 1..];
    AppendAssoc(done, LineOut(lines[i]), SplitLines(lines[i + 1..]));
  }

  /** `processStandaloneSnippets`. */
  method ProcessStandaloneSnippets(input: string) returns (out: string)
    ensures out == ProcessSnippets(input)
  {
    var processedInput := ExpandStandalone(input);
    var processedLines := SplitSnippetLines(Split(processedInput, '\n'));
    out := ExpandStandalone(Join(processedLines, "\n"));
  }

  // ---------------------------------------------------------------------
  // Properties
  // ---------------------------------------------------------------------

  /** The split loses nothing: its pieces and separators, concatenated, are the text. */
  function Concat(pieces: seq<string>): string {
    if pieces == [] then "" else pieces[0] + Concat(pieces[1..])
  }

  lemma {:induction false} SplitPiecesConcat(s: string, p: nat, q: nat)
    requires p <= q <= |s|
    ensures Concat(SplitPieces(s, p, q)) == s[p..]
    decreases |s| - q
  {
    if q < |s| {
      var r := SeparatorAt(s, q);
      if r.Some? {
        var e := r.value;
        var rest := SplitPieces(s, e, e);
        SplitPiecesConcat(s, e, e);
        assert SplitPieces(s, p, q) == [s[p..q], s[q..e]] + rest;
        ConcatTwo(s[p..q], s[q..e], rest);
        SliceJoin(s, p, q, e);
      } else {
        assert SplitPieces(s, p, q) == SplitPieces(s, p, q + 1);
        SplitPiecesConcat(s, p, q + 1);
      }
    }
  }

  lemma SliceJoin(s: string, p: nat, q: nat, e: nat)
    requires p <= q <= e <= |s|
    ensures s[p..q] + s[q..e] + s[e..] == s[p..]
  {
  }

  lemma ConcatTwo(a: string, b: string, rest: seq<string>)
    ensures Concat([a, b] + rest) == a + b + Concat(rest)
  {
    var ps := [a, b] + rest;
    assert ps[1..] == [b] + rest;
    assert ps[1..][1..] == rest;
  }

  /** Text with no `[`, or with no `snippet`, cannot hold a snippet. */
  predicate NoSnippet(s: string) {
    !Occurs(s, '[') || !Includes(s, "snippet")
  }

  /** Text that cannot hold a snippet is not touched by the standalone pass. */
  lemma {:induction false} StandalonePassPlain(s: string, i: nat)
    requires i <= |s| && NoSnippet(s)
    ensures StandalonePass(s, i) == s[i..]
    decreases |s| - i
  {
    if i < |s| {
      NoHead(s, SpaceEnd(s, i));
      StandalonePassPlain(s, i + 1);
      assert [s[i]] + s[i + 1..] == s[i..];
    }
  }

  lemma NoHead(s: string, i: nat)
    requires i <= |s| && NoSnippet(s)
    ensures SnippetHead(s, i).None?
  {
    if At(s, i, "snippet") {
      var b := SpaceEnd(s, i + 7);
      assert Includes(s, "snippet");
      assert !(b < |s| && s[b] == '[');
    }
  }

  lemma {:induction false} NoTwoSnippets(s: string, i: nat)
    requires i <= |s| && NoSnippet(s)
    ensures !TwoSnippetsFrom(s, i)
    decreases |s| - i
  {
    NoHead(s, i);
    if i < |s| {
      NoTwoSnippets(s, i + 1);
    }
  }

  /** Lines that cannot hold a snippet are passed through one for one. */
  lemma {:induction false} SplitLinesPlain(lines: seq<string>)
    requires forall k :: 0 <= k < |lines| ==> NoSnippet(lines[k])
    ensures SplitLines(lines) == lines
  {
    if lines != [] {
      NoTwoSnippets(lines[0], 0);
      assert LineOut(lines[0]) == [lines[0]];
      SplitLinesPlain(lines[1..]);
      assert SplitLines(lines) == [lines[0]] + lines[1..];
    }
  }

  /** A single line without the word `snippet` is left unchanged. */
  lemma OneLineUnchanged(s: string)
    requires !Occurs(s, '\n') && !Includes(s, "snippet")
    ensures ProcessSnippets(s) == s
  {
    StandalonePassPlain(s, 0);
    assert s[0..] == s;
    SplitNoSeparator(s, '\n');
    SplitLinesPlain([s]);
    assert Join([s], "\n") == s;
  }

  /** A character absent from a text is absent from each of its lines. */
  lemma {:induction false} SplitKeepsAbsent(s: string, c: char, x: char)
    requires !Occurs(s, x)
    ensures forall k :: 0 <= k < |Split(s, c)| ==> !Occurs(Split(s, c)[k], x)
  {
    if |s| > 0 {
      assert !Occurs(s[1..], x) by {
        forall i | 0 <= i < |s[1..]| ensures s[1..][i] != x { assert s[1..][i] == s[i + 1]; }
      }
      SplitKeepsAbsent(s[1..], c, x);
      var rest := Split(s[1..], c);
      if s[0] != c {
        var first := [s[0]] + rest[0];
        assert !Occurs(first, x) by {
          forall i | 0 <= i < |first| ensures first[i] != x {
            if i > 0 { assert first[i] == rest[0][i - 1]; }
          }
        }
      }
    }
  }

  /** Text without a `[` holds no snippet, and the pre-pass leaves it unchanged. */
  lemma PlainTextUnchanged(s: string)
    requires !Occurs(s, '[')
    ensures ProcessSnippets(s) == s
  {
    StandalonePassPlain(s, 0);
    assert s[0..] == s;
    SplitKeepsAbsent(s, '\n', '[');
    var lines := Split(s, '\n');
    assert forall k :: 0 <= k < |lines| ==> NoSnippet(lines[k]);
    SplitLinesPlain(lines);
    JoinSplit(s, '\n');
    StandalonePassPlain(s, 0);
  }

  /** `snippet[x].name` on a line of its own becomes `x` under the modifier `name`. */
  lemma StandaloneLine(x: string, name: string)
    requires x != [] && !Occurs(x, ']') && IsWord(name)
    ensures StandalonePass("snippet[" + x + "]." + name, 0) == ApplyModifier(x, name, "")
  {
    var s := "snippet[" + x + "]." + name;
    var m := Standalone("", x, "." + name, "", |s|);
    StandaloneLineMatch(x, name);
    assert StandaloneNext(s, 0) == |s|;
    assert StandaloneText(s, 0) == Expanded(m);
    ChainOfName(name);
    ChainOfOne(x, Mod(name, ""));
    assert Expanded(m) == "" + ApplyChain(x, [Mod(name, "")]) + "";
    assert StandalonePass(s, 0) == StandaloneText(s, 0) + StandalonePass(s, |s|);
  }

  lemma ChainOfOne(content: string, m: Mod)
    ensures ApplyChain(content, [m]) == ApplyModifier(content, m.name, m.param)
  {
    assert [m][1..] == [];
  }

  lemma StandaloneLineMatch(x: string, name: string)
    requires x != [] && !Occurs(x, ']') && IsWord(name)
    ensures var s := "snippet[" + x + "]." + name;
      StandaloneAt(s, 0) == Some(Standalone("", x, "." + name, "", |s|))
  {
    var s := "snippet[" + x + "]." + name;
    LineHead(x, name);
    assert SpaceEnd(s, 0) == 0 by { assert s[0] == 's'; }
    assert s[9 + |x|..|s|] == "." + name;
    assert s[0..0] == "" && s[|s|..|s|] == "";
  }

  lemma LineHead(x: string, name: string)
    requires x != [] && !Occurs(x, ']') && IsWord(name)
    ensures var s := "snippet[" + x + "]." + name;
      SnippetHead(s, 0) == Some(Head(x, 9 + |x|, |s|))
  {
    var s := "snippet[" + x + "]." + name;
    var j := 8 + |x|;
    assert s[..7] == "snippet";
    assert SpaceEnd(s, 7) == 7 by { assert s[7] == '['; }
    assert CharFrom(s, 8, ']') == j by {
      forall k | 8 <= k < j ensures s[k] != ']' { assert s[k] == x[k - 8]; }
      CharFromExact(s, 8, ']', j);
    }
    assert s[8..j] == x;
    ChainToEnd(s, j + 1, name);
  }

  lemma ChainToEnd(s: string, i: nat, name: string)
    requires IsWord(name) && i + 1 + |name| == |s| && s[i..] == "." + name
    ensures ChainEnd(s, i) == |s|
  {
    forall k | i + 1 <= k < |s| ensures IsWordChar(s[k]) { assert s[k] == s[i..][k - i]; }
    WordEndExact(s, i + 1, |s|);
    assert ElementEnd(s, i) == |s|;
  }

  lemma ChainOfName(name: string)
    requires IsWord(name)
    ensures ScanModifiers("." + name) == [Mod(name, "")]
  {
    var c := "." + name;
    forall k | 1 <= k < |c| ensures IsWordChar(c[k]) { assert c[k] == name[k - 1]; }
    WordEndExact(c, 1, |c|);
    assert ElementEnd(c, 0) == |c|;
    assert c[1..|c|] == name;
    assert ElementFrom(c, 0) == Some((Mod(name, ""), |c|));
    assert ScanFrom(c, |c|) == [];
  }
}
