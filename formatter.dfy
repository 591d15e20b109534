/** The indentation loop of the editor's `formatCode`: every line is trimmed and
    re-indented by two spaces per open block; a line ending in `[` with no `]`
    opens a block, a line that is just `]` closes one. */
module Formatter {
  import opened Text

  /** A trimmed line that opens a block. */
  predicate Opens(t: string) {
    EndsWith(t, "[") && !Occurs(t, ']')
  }

  /** The level the trimmed line `t` is printed at: a closing `]` first steps
      out one level, never below 0. */
  function PrintLevel(level: nat, t: string): nat {
    if t == "]" then (if level - 1 > 0 then level - 1 else 0) else level
  }

  /** The level after the trimmed line `t`. */
  function NextLevel(level: nat, t: string): nat {
    if t == "]" then PrintLevel(level, t) else if Opens(t) then level + 1 else level
  }

  /** The level after all of `lines`, starting at `level`. */
  function FinalLevel(lines: seq<string>, level: nat): nat
    decreases |lines|
  {
    if lines == [] then level else FinalLevel(lines[1..], NextLevel(level, Trim(lines[0])))
  }

  /** The level in force when line `k` is reached. */
  function LevelAt(lines: seq<string>, level: nat, k: nat): nat
    requires k <= |lines|
  {
    FinalLevel(lines[..k], level)
  }

  /** The text the loop appends for `lines`, starting at `level`. */
  function FormatLines(lines: seq<string>, level: nat): string
    decreases |lines|
  {
    if lines == [] then ""
    else
      var t := Trim(lines[0]);
      Repeat("  ", PrintLevel(level, t)) + t + "\n" + FormatLines(lines[1..], NextLevel(level, t))
  }

  /** What `formatCode` puts back into the editor. */
  function Formatted(code: string): string {
    Trim(FormatLines(Split(code, '\n'), 0))
  }

  /** `formatCode`: split the editor text at line breaks, re-indent every line,
      and trim the whole result. */
  method FormatCode(code: string) returns (result: string)
    ensures result == Formatted(code)
  {
    var lines := Split(code, '\n');
    var formatted := IndentLines(lines);
    result := Trim(formatted);
  }

  /** The loop of `formatCode`, with `indentLevel` and the growing `formatted`. */
  method IndentLines(lines: seq<string>) returns (formatted: string)
    ensures formatted == FormatLines(lines, 0)
  {
    formatted := "";
    var indentLevel: nat := 0;
    var i := 0;
    while i < |lines|
      invariant i <= |lines|
      invariant formatted + FormatLines(lines[i..], indentLevel) == FormatLines(lines, 0)
      decreases |lines| - i
    {
      var piece, next := FormatLine(Trim(lines[i]), indentLevel);
      FormatLinesStep(lines, i, indentLevel, formatted);
      formatted := formatted + piece;
      indentLevel := next;
      i := i + 1;
    }
    assert lines[i..] == [];
  }

  /** One pass of the loop: the text appended for the trimmed line and the new level. */
  method FormatLine(trimmed: string, indentLevel: nat) returns (piece: string, next: nat)
    ensures piece == Repeat("  ", PrintLevel(indentLevel, trimmed)) + trimmed + "\n"
    ensures next == NextLevel(indentLevel, trimmed)
  {
    if trimmed == "]" {
      next := if indentLevel - 1 > 0 then indentLevel - 1 else 0;
      piece := Repeat("  ", next) + trimmed + "\n";
    } else {
      piece := Repeat("  ", indentLevel) + trimmed + "\n";
      next := indentLevel;
      if EndsWith(trimmed, "[") && !Occurs(trimmed, ']') {
        next := indentLevel + 1;
      }
    }
  }

  /** The text still to come for `lines[i..]` is the text for line `i` followed by
      the text for the rest, at the level line `i` leaves. */
  lemma FormatLinesStep(lines: seq<string>, i: nat, level: nat, done: string)
    requires i < |lines|
    ensures done + FormatLines(lines[i..], level)
      == (done + (Repeat("  ", PrintLevel(level, Trim(lines[i]))) + Trim(lines[i]) + "\n"))
         + FormatLines(lines[i + 1..], NextLevel(level, Trim(lines[i])))
  {
    assert lines[i..][1..] == lines[i + 1..];
  }

  // ---------------------------------------------------------------------
  // Properties
  // ---------------------------------------------------------------------

  /** A line moves the level by at most one: it rises by one exactly after a line
      ending in `[` that holds no `]`, and only a `]` line lowers it (by one, from
      a positive level). A line is never printed deeper than the level in force. */
  lemma LevelSteps(level: nat, t: string)
    ensures PrintLevel(level, t) <= level
    ensures NextLevel(level, t) == level + 1 <==> Opens(t)
    ensures NextLevel(level, t) < level <==> t == "]" && level > 0
    ensures level - 1 <= NextLevel(level, t) <= level + 1
  {
    CloserDoesNotOpen(t);
  }

  /** A `]` line never opens a block. */
  lemma CloserDoesNotOpen(t: string)
    ensures t == "]" ==> !Opens(t)
  {
    if t == "]" {
      assert t[0] == ']';
    }
  }

  lemma {:induction false} FinalLevelAppend(a: seq<string>, b: seq<string>, level: nat)
    ensures FinalLevel(a + b, level) == FinalLevel(b, FinalLevel(a, level))
    decreases |a|
  {
    if a != [] {
      assert (a + b)[1..] == a[1..] + b;
      FinalLevelAppend(a[1..], b, NextLevel(level, Trim(a[0])));
    } else {
      assert a + b == b;
    }
  }

  /** Number of lines that open a block, and number of lines that are just `]`. */
  function Openers(lines: seq<string>): nat {
    if lines == [] then 0 else (if Opens(Trim(lines[0])) then 1 else 0) + Openers(lines[1..])
  }

  function Closers(lines: seq<string>): nat {
    if lines == [] then 0 else (if Trim(lines[0]) == "]" then 1 else 0) + Closers(lines[1..])
  }

  /** The final level is at most the start plus the openers, and at least the
      start plus the openers minus the closers (clamping at 0 only raises it). */
  lemma {:induction false} FinalLevelBounds(lines: seq<string>, level: nat)
    ensures level + Openers(lines) - Closers(lines) <= FinalLevel(lines, level) <= level + Openers(lines)
    decreases |lines|
  {
    if lines != [] {
      var t := Trim(lines[0]);
      LevelSteps(level, t);
      FinalLevelBounds(lines[1..], NextLevel(level, t));
    }
  }

  /** A block whose body comes back to the inner level ends at the level it was
      opened at, and its closing `]` is printed at the level of its opening line. */
  lemma BlockClosesAtOpenerLevel(h: string, body: seq<string>, c: string, level: nat)
    requires Opens(Trim(h)) && Trim(c) == "]"
    requires FinalLevel(body, level + 1) == level + 1
    ensures var lines := [h] + body + [c];
      LevelAt(lines, level, |lines| - 1) == level + 1
      && PrintLevel(LevelAt(lines, level, |lines| - 1), Trim(c)) == PrintLevel(level, Trim(h)) == level
      && FinalLevel(lines, level) == level
  {
    var lines := [h] + body + [c];
    LevelSteps(level, Trim(h));
    CloserDoesNotOpen(Trim(h));
    assert lines[..|lines| - 1] == [h] + body;
    FinalLevelAppend([h], body, level);
    FinalLevelAppend([h] + body, [c], level);
  }

  /** The output lines before the final trim: line `k` is two spaces per level in
      force, then the trimmed input line. */
  function OutputLines(lines: seq<string>, level: nat): (r: seq<string>)
    ensures |r| == |lines|
    decreases |lines|
  {
    if lines == [] then []
    else
      var t := Trim(lines[0]);
      [Repeat("  ", PrintLevel(level, t)) + t] + OutputLines(lines[1..], NextLevel(level, t))
  }

  /** Splitting what the loop appends at its line breaks gives the output lines
      and an empty tail. */
  lemma {:induction false} FormatLinesSplit(lines: seq<string>, level: nat)
    requires forall k :: 0 <= k < |lines| ==> !Occurs(lines[k], '\n')
    ensures Split(FormatLines(lines, level), '\n') == OutputLines(lines, level) + [""]
    decreases |lines|
  {
    if lines == [] {
      assert Split("", '\n') == [""];
    } else {
      var t := Trim(lines[0]);
      var next := NextLevel(level, t);
      var head := Repeat("  ", PrintLevel(level, t)) + t;
      TrimKeepsAbsent(lines[0], '\n');
      RepeatSpaces(PrintLevel(level, t));
      assert !Occurs(head, '\n') by {
        forall i | 0 <= i < |head| ensures head[i] != '\n' {
          if i >= |Repeat("  ", PrintLevel(level, t))| {
            assert head[i] == t[i - |Repeat("  ", PrintLevel(level, t))|];
          }
        }
      }
      FormatLinesSplit(lines[1..], next);
      SplitAround(head, FormatLines(lines[1..], next), '\n');
      assert FormatLines(lines, level) == head + ['\n'] + FormatLines(lines[1..], next);
      assert OutputLines(lines, level) == [head] + OutputLines(lines[1..], next);
      assert [head] + (OutputLines(lines[1..], next) + [""]) == OutputLines(lines, level) + [""];
    }
  }

  /** Every character of `n` copies of two spaces is a space. */
  lemma {:induction false} RepeatSpaces(n: nat)
    ensures forall i :: 0 <= i < |Repeat("  ", n)| ==> Repeat("  ", n)[i] == ' '
  {
    if n > 0 {
      RepeatSpaces(n - 1);
      assert Repeat("  ", n) == "  " + Repeat("  ", n - 1);
    }
  }

  /** Trimming cannot bring in a character. */
  lemma TrimKeepsAbsent(s: string, c: char)
    requires !Occurs(s, c)
    ensures !Occurs(Trim(s), c)
  {
    var a := TrimStart(s);
    TrimStartSuffix(s);
    forall i | 0 <= i < |a| ensures a[i] != c { assert a[i] == s[|s| - |a| + i]; }
    var b := TrimEnd(a);
    forall i | 0 <= i < |b| ensures b[i] != c { assert b[i] == a[i]; }
  }

  /** Line `k` of the output is printed at the level in force when it is reached. */
  lemma {:induction false} OutputLineAt(lines: seq<string>, level: nat, k: nat)
    requires k < |lines|
    ensures OutputLines(lines, level)[k]
      == Repeat("  ", PrintLevel(LevelAt(lines, level, k), Trim(lines[k])) as nat) + Trim(lines[k])
    decreases k
  {
    var t := Trim(lines[0]);
    if k > 0 {
      OutputLineAt(lines[1..], NextLevel(level, t), k - 1);
      LevelAtStep(lines, level, k);
      assert lines[1..][k - 1] == lines[k];
    } else {
      assert lines[..0] == [];
    }
  }

  lemma LevelAtStep(lines: seq<string>, level: nat, k: nat)
    requires 0 < k <= |lines|
    ensures LevelAt(lines, level, k) == LevelAt(lines[1..], NextLevel(level, Trim(lines[0])), k - 1)
  {
    assert lines[..k][1..] == lines[1..][..k - 1];
  }
}
