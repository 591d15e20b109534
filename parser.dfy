/** `parse`: the whole translation, as the composition of its stages — comments
    out, escapes protected, standalone snippets expanded, the line loop, escapes
    restored. */
module Parser {
  import opened Text
  import opened Escapes
  import opened Scanners
  import opened Inline
  import opened Starts
  import opened Blocks
  import opened Documents
  import opened Snippets
  import opened Emitter

  /** The HTML fragment `parse(input)` returns. */
  function ParseSpec(input: string): string {
    Restore(Elements(ProcessSnippets(Protect(StripComments(input)))))
  }

  /** `parse`, stage by stage. */
  method Parse(input: string) returns (html: string)
    ensures html == ParseSpec(input)
  {
    var text := StripComments(input);
    text := Protect(text);
    text := ProcessStandaloneSnippets(text);
    html := ParseElements(text);
    html := Restore(html);
  }

  // ---------------------------------------------------------------------
  // Properties
  // ---------------------------------------------------------------------

  /** A comment contributes nothing to the output, whatever it holds. */
  lemma CommentContributesNothing(body: string, rest: string)
    requires !Occurs(body, ')')
    ensures ParseSpec("<--(" + body + ")" + rest) == ParseSpec(rest)
  {
    CommentIsRemoved(body, rest);
  }

  /** A line of ordinary prose — no brackets, braces, escapes, comments or marker
      text, not starting with a self-closing name — comes out as itself. */
  lemma PlainParagraphUnchanged(t: string)
    requires t != [] && t != "]" && Trim(t) == t
    requires !Occurs(t, '\n') && NoMarkup(t)
    requires !IsSelfClosing(t[..WordEnd(t, 0)])
    requires !Occurs(t, '\\') && !Includes(t, "<--(") && !Includes(t, MarkerOpen)
    ensures ParseSpec(t) == t
  {
    ProtectPlain(t);
    PlainTextUnchanged(t);
    PlainParagraph(t);
    RestorePlain(t);
  }

  /** An element on one line, `name [x]`, is the element holding `x` (inline
      formatted, except in `code`), with escape markers turned back into characters. */
  lemma InlineElementParsed(name: string, x: string)
    requires IsWord(name) && !StartsWith(name, "image") && NoLineTerminator(x)
    requires var line := name + " [" + x + "]";
      !Occurs(line, '\\') && !Includes(line, "<--(") && !Includes(line, "snippet")
    ensures ParseSpec(name + " [" + x + "]")
      == Restore(CreateElement(name, [], if name == "code" then x else InlineFormatting(x)))
  {
    var line := name + " [" + x + "]";
    ProtectPlain(line);
    assert !Occurs(line, '\n') by {
      forall i | 0 <= i < |line| ensures line[i] != '\n' {
        if i < |name| {
          assert line[i] == name[i];
        } else if |name| + 2 <= i < |line| - 1 {
          assert line[i] == x[i - |name| - 2];
        }
      }
    }
    OneLineUnchanged(line);
    InlineElementLine(name, x);
  }

  /** Without a backslash the escape pass changes nothing. */
  lemma {:induction false} ProtectPlain(s: string)
    requires !Occurs(s, '\\')
    ensures Protect(s) == s
  {
    if |s| > 0 {
      assert !Occurs(s[1..], '\\') by {
        forall i | 0 <= i < |s[1..]| ensures s[1..][i] != '\\' { assert s[1..][i] == s[i + 1]; }
      }
      ProtectPlain(s[1..]);
      assert [s[0]] + s[1..] == s;
    }
  }

  /** Without marker text the restore pass changes nothing. */
  lemma {:induction false} RestorePlain(s: string)
    requires !Includes(s, MarkerOpen)
    ensures Restore(s) == s
  {
    if |s| > 0 {
      assert !StartsWith(s, MarkerOpen) by {
        if StartsWith(s, MarkerOpen) { assert At(s, 0, MarkerOpen); }
      }
      NoOpenerAfter(s, 1);
      RestorePlain(s[1..]);
      assert [s[0]] + s[1..] == s;
    }
  }
}
