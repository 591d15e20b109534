/** The character-level passes of `parse` and the emitter: comment removal,
    the protection of backslash escapes behind `__ESCAPED_<code>__` markers
    and their restoration, and HTML escaping for literal content. */
module Escapes {
  import opened Text

  // ---------------------------------------------------------------------
  // HTML escaping (escapeHtml)
  // ---------------------------------------------------------------------

  /** `s.replace(/c/g, r)` for a single character `c`. */
  function ReplaceChar(s: string, c: char, r: string): string
  {
    if |s| == 0 then "" else (if s[0] == c then r else [s[0]]) + ReplaceChar(s[1..], c, r)
  }

  /** `escapeHtml`: five global replacements, the ampersand first. */
  function EscapeHtml(s: string): string
  {
    var amp := ReplaceChar(s, '&', "&amp;");
    var lt := ReplaceChar(amp, '<', "&lt;");
    var gt := ReplaceChar(lt, '>', "&gt;");
    var quot := ReplaceChar(gt, '"', "&quot;");
    ReplaceChar(quot, '\'', "&#039;")
  }

  /** The entity one character escapes to. */
  function EscapeChar(c: char): string
  {
    if c == '&' then "&amp;"
    else if c == '<' then "&lt;"
    else if c == '>' then "&gt;"
    else if c == '"' then "&quot;"
    else if c == '\'' then "&#039;"
    else [c]
  }

  /** Character-by-character reference definition of escaping. */
  function EscapeEach(s: string): string
  {
    if |s| == 0 then "" else EscapeChar(s[0]) + EscapeEach(s[1..])
  }

  lemma {:induction false} ReplaceCharAppend(a: string, b: string, c: char, r: string)
    ensures ReplaceChar(a + b, c, r) == ReplaceChar(a, c, r) + ReplaceChar(b, c, r)
  {
    if |a| > 0 {
      assert (a + b)[0] == a[0];
      assert (a + b)[1..] == a[1..] + b;
      ReplaceCharAppend(a[1..], b, c, r);
    } else {
      assert a + b == b;
    }
  }

  lemma EscapeHtmlAppend(a: string, b: string)
    ensures EscapeHtml(a + b) == EscapeHtml(a) + EscapeHtml(b)
  {
    ReplaceCharAppend(a, b, '&', "&amp;");
    var a1, b1 := ReplaceChar(a, '&', "&amp;"), ReplaceChar(b, '&', "&amp;");
    ReplaceCharAppend(a1, b1, '<', "&lt;");
    var a2, b2 := ReplaceChar(a1, '<', "&lt;"), ReplaceChar(b1, '<', "&lt;");
    ReplaceCharAppend(a2, b2, '>', "&gt;");
    var a3, b3 := ReplaceChar(a2, '>', "&gt;"), ReplaceChar(b2, '>', "&gt;");
    ReplaceCharAppend(a3, b3, '"', "&quot;");
    var a4, b4 := ReplaceChar(a3, '"', "&quot;"), ReplaceChar(b3, '"', "&quot;");
    ReplaceCharAppend(a4, b4, '\'', "&#039;");
  }

  /** The five sequential replacements escape each character independently. */
  lemma {:induction false} EscapeHtmlIsPerCharacter(s: string)
    ensures EscapeHtml(s) == EscapeEach(s)
  {
    if |s| > 0 {
      assert s == [s[0]] + s[1..];
      EscapeHtmlAppend([s[0]], s[1..]);
      EscapeHtmlIsPerCharacter(s[1..]);
      EscapeOneChar(s[0]);
    }
  }

  lemma EscapeOneChar(c: char)
    ensures EscapeHtml([c]) == EscapeChar(c)
  {
    var e := EscapeChar(c);
    ReplaceCharSingle(c, '&', "&amp;");
    if c == '&' {
      ReplaceCharAbsent(e, '<', "&lt;");
      ReplaceCharAbsent(e, '>', "&gt;");
      ReplaceCharAbsent(e, '"', "&quot;");
      ReplaceCharAbsent(e, '\'', "&#039;");
    } else if c == '<' {
      ReplaceCharSingle(c, '<', "&lt;");
      ReplaceCharAbsent(e, '>', "&gt;");
      ReplaceCharAbsent(e, '"', "&quot;");
      ReplaceCharAbsent(e, '\'', "&#039;");
    } else if c == '>' {
      ReplaceCharSingle(c, '<', "&lt;");
      ReplaceCharSingle(c, '>', "&gt;");
      ReplaceCharAbsent(e, '"', "&quot;");
      ReplaceCharAbsent(e, '\'', "&#039;");
    } else if c == '"' {
      ReplaceCharSingle(c, '<', "&lt;");
      ReplaceCharSingle(c, '>', "&gt;");
      ReplaceCharSingle(c, '"', "&quot;");
      ReplaceCharAbsent(e, '\'', "&#039;");
    } else {
      ReplaceCharSingle(c, '<', "&lt;");
      ReplaceCharSingle(c, '>', "&gt;");
      ReplaceCharSingle(c, '"', "&quot;");
      ReplaceCharSingle(c, '\'', "&#039;");
    }
  }

  lemma ReplaceCharSingle(x: char, c: char, r: string)
    ensures ReplaceChar([x], c, r) == if x == c then r else [x]
  {
    assert [x][1..] == [];
  }

  lemma {:induction false} ReplaceCharAbsent(s: string, c: char, r: string)
    requires forall i :: 0 <= i < |s| ==> s[i] != c
    ensures ReplaceChar(s, c, r) == s
  {
    if |s| > 0 {
      ReplaceCharAbsent(s[1..], c, r);
      assert [s[0]] + s[1..] == s;
    }
  }

  predicate IsHtmlSpecial(c: char) {
    c == '<' || c == '>' || c == '"' || c == '\''
  }

  /** The five entities escaping produces. */
  predicate EntityAt(s: string, i: int) {
    At(s, i, "&amp;") || At(s, i, "&lt;") || At(s, i, "&gt;") || At(s, i, "&quot;") || At(s, i, "&#039;")
  }

  /** Escaped text has no markup character left, and each ampersand in it starts an entity. */
  lemma EscapeHtmlIsSafe(s: string)
    ensures forall i :: 0 <= i < |EscapeHtml(s)| ==> !IsHtmlSpecial(EscapeHtml(s)[i])
    ensures forall i :: 0 <= i < |EscapeHtml(s)| && EscapeHtml(s)[i] == '&' ==> EntityAt(EscapeHtml(s), i)
  {
    EscapeHtmlIsPerCharacter(s);
    EscapeEachIsSafe(s);
  }

  lemma {:induction false} EscapeEachIsSafe(s: string)
    ensures forall i :: 0 <= i < |EscapeEach(s)| ==> !IsHtmlSpecial(EscapeEach(s)[i])
    ensures forall i :: 0 <= i < |EscapeEach(s)| && EscapeEach(s)[i] == '&' ==> EntityAt(EscapeEach(s), i)
  {
    if |s| > 0 {
      EscapeEachIsSafe(s[1..]);
      var e, rest := EscapeChar(s[0]), EscapeEach(s[1..]);
      var t := e + rest;
      assert t == EscapeEach(s);
      EscapeCharIsSafe(s[0]);
      forall i | 0 <= i < |t| ensures !IsHtmlSpecial(t[i]) && (t[i] == '&' ==> EntityAt(t, i)) {
        if i < |e| {
          assert t[i] == e[i];
          if t[i] == '&' {
            EntityPrefix(e, rest);
          }
        } else {
          assert t[i] == rest[i - |e|];
          if t[i] == '&' {
            EntityShift(e, rest, i - |e|);
          }
        }
      }
    }
  }

  /** The escape of one character has no markup character, and an ampersand only at
      its head, where it starts an entity. */
  lemma EscapeCharIsSafe(c: char)
    ensures forall i :: 0 <= i < |EscapeChar(c)| ==> !IsHtmlSpecial(EscapeChar(c)[i])
    ensures forall i :: 0 < i < |EscapeChar(c)| ==> EscapeChar(c)[i] != '&'
    ensures EscapeChar(c)[0] == '&' ==> EntityAt(EscapeChar(c), 0)
  {
  }

  lemma EntityPrefix(e: string, rest: string)
    requires EntityAt(e, 0)
    ensures EntityAt(e + rest, 0)
  {
    var t := e + rest;
    forall sub: string | At(e, 0, sub) ensures At(t, 0, sub) {
      assert t[..|sub|] == e[..|sub|];
    }
  }

  lemma EntityShift(e: string, rest: string, j: int)
    requires EntityAt(rest, j)
    ensures EntityAt(e + rest, j + |e|)
  {
    var t := e + rest;
    forall sub: string | At(rest, j, sub) ensures At(t, j + |e|, sub) {
      assert t[j + |e|..j + |e| + |sub|] == rest[j..j + |sub|];
    }
  }

  /** The character an entity at the head of `s` stands for, and the entity's length. */
  function EntityHead(s: string): Option<(char, nat)>
  {
    if StartsWith(s, "&amp;") then Some(('&', 5))
    else if StartsWith(s, "&lt;") then Some(('<', 4))
    else if StartsWith(s, "&gt;") then Some(('>', 4))
    else if StartsWith(s, "&quot;") then Some(('"', 6))
    else if StartsWith(s, "&#039;") then Some(('\'', 6))
    else None
  }

  /** Turns the five entities back into their characters. */
  function DecodeEntities(s: string): string
  {
    if |s| == 0 then ""
    else if s[0] == '&' && EntityHead(s).Some? && EntityHead(s).value.1 <= |s| then
      [EntityHead(s).value.0] + DecodeEntities(s[EntityHead(s).value.1..])
    else [s[0]] + DecodeEntities(s[1..])
  }

  /** Decoding the entities recovers the escaped text. */
  lemma EscapeHtmlRoundTrip(s: string)
    ensures DecodeEntities(EscapeHtml(s)) == s
  {
    EscapeHtmlIsPerCharacter(s);
    DecodeEscapeEach(s);
  }

  lemma {:induction false} DecodeEscapeEach(s: string)
    ensures DecodeEntities(EscapeEach(s)) == s
  {
    if |s| > 0 {
      DecodeEscapeEach(s[1..]);
      DecodeOne(s[0], EscapeEach(s[1..]));
      assert [s[0]] + s[1..] == s;
    }
  }

  lemma DecodeOne(c: char, rest: string)
    ensures DecodeEntities(EscapeChar(c) + rest) == [c] + DecodeEntities(rest)
  {
    if c == '&' || c == '<' || c == '>' || c == '"' || c == '\'' {
      DecodeEntity(EscapeChar(c), c, rest);
    } else {
      var t := [c] + rest;
      assert t[0] == c;
      assert t[1..] == rest;
    }
  }

  /** Each entity at the head of the text is recognised as itself and no other. */
  lemma DecodeEntity(e: string, c: char, rest: string)
    requires c == '&' || c == '<' || c == '>' || c == '"' || c == '\''
    requires e == EscapeChar(c)
    ensures DecodeEntities(e + rest) == [c] + DecodeEntities(rest)
  {
    var t := e + rest;
    assert t[..|e|] == e;
    assert t[|e|..] == rest;
    assert t[0] == '&' && t[1] == e[1];
    if c == '"' || c == '\'' {
      assert t[2] == e[2];
    }
  }

  // ---------------------------------------------------------------------
  // Comments: input.replace(/<--\([^)]*\)/g, '')
  // ---------------------------------------------------------------------

  /** Deletes every `<--( ... )` span; the first `)` closes a comment, and an
      opener with no `)` after it is ordinary text. */
  function StripComments(s: string): (r: string)
    ensures |r| <= |s|
    ensures !Includes(s, "<--(") ==> r == s
  {
    if |s| == 0 then ""
    else if StartsWith(s, "<--(") && RunWithout(s[4..], ')') < |s| - 4 then
      assert At(s, 0, "<--(");
      NoOpenerInSuffix(s, 5 + RunWithout(s[4..], ')'));
      StripComments(s[5 + RunWithout(s[4..], ')')..])
    else
      NoOpenerInSuffix(s, 1);
      [s[0]] + StripComments(s[1..])
  }

  lemma NoOpenerInSuffix(s: string, k: nat)
    requires k <= |s|
    ensures !Includes(s, "<--(") ==> !Includes(s[k..], "<--(")
  {
    if Includes(s[k..], "<--(") {
      var i :| 0 <= i <= |s[k..]| - 4 && At(s[k..], i, "<--(");
      assert s[k + i..k + i + 4] == s[k..][i..i + 4];
      assert At(s, k + i, "<--(");
    }
  }

  /** A comment is removed together with its closing parenthesis, whatever it holds. */
  lemma CommentIsRemoved(body: string, rest: string)
    requires !Occurs(body, ')')
    ensures StripComments("<--(" + body + ")" + rest) == StripComments(rest)
  {
    var s := "<--(" + body + ")" + rest;
    assert s[4..] == body + (")" + rest);
    assert RunWithout(s[4..], ')') == |body| by {
      RunWithoutPrefix(body, ")" + rest, ')');
    }
    assert s[5 + |body|..] == rest;
  }

  lemma {:induction false} RunWithoutPrefix(a: string, b: string, c: char)
    requires !Occurs(a, c) && |b| > 0 && b[0] == c
    ensures RunWithout(a + b, c) == |a|
  {
    if |a| > 0 {
      assert (a + b)[1..] == a[1..] + b;
      assert !Occurs(a[1..], c) by {
        forall i | 0 <= i < |a[1..]| ensures a[1..][i] != c { assert a[1..][i] == a[i + 1]; }
      }
      assert a[0] != c;
      RunWithoutPrefix(a[1..], b, c);
    } else {
      assert a + b == b;
    }
  }

  // ---------------------------------------------------------------------
  // Escape markers: \X  ->  __ESCAPED_<code of X>__  ->  X
  // ---------------------------------------------------------------------

  const MarkerOpen: string := "__ESCAPED_"

  function DigitChar(d: nat): char
    requires d < 10
  {
    ('0' as int + d) as char
  }

  /** The decimal text of a natural number, as `String(n)` writes it. */
  function Decimal(n: nat): (r: string)
    ensures |r| >= 1 && AllDigits(r)
    decreases n
  {
    if n < 10 then [DigitChar(n)] else Decimal(n / 10) + [DigitChar(n % 10)]
  }

  /** `parseInt` of a run of decimal digits. */
  function DigitsValue(ds: string): nat
    requires AllDigits(ds)
  {
    if |ds| == 0 then 0 else 10 * DigitsValue(ds[..|ds| - 1]) + (ds[|ds| - 1] as int - '0' as int)
  }

  lemma {:induction false} DecimalRoundTrip(n: nat)
    ensures DigitsValue(Decimal(n)) == n
    decreases n
  {
    if n >= 10 {
      DecimalRoundTrip(n / 10);
      var d := Decimal(n);
      assert d[..|d| - 1] == Decimal(n / 10);
    }
  }

  /** The marker that stands for an escaped character. */
  function Marker(c: char): string
  {
    MarkerOpen + Decimal(c as int) + "__"
  }

  /** `input.replace(/\\(.)/g, ...)`: a backslash followed by a character other
      than a line terminator becomes the marker of that character. */
  function Protect(s: string): string
  {
    if |s| >= 2 && s[0] == '\\' && !IsLineTerminator(s[1]) then Marker(s[1]) + Protect(s[2..])
    else if |s| == 0 then ""
    else [s[0]] + Protect(s[1..])
  }

  /** The characters the escape pass stands for: each escape `\X` replaced by `X`. */
  function Unescape(s: string): string
  {
    if |s| >= 2 && s[0] == '\\' && !IsLineTerminator(s[1]) then [s[1]] + Unescape(s[2..])
    else if |s| == 0 then ""
    else [s[0]] + Unescape(s[1..])
  }

  /** Codes `String.fromCharCode` turns into a character of this model. */
  predicate IsScalarCode(n: int) {
    (0 <= n < 0xD800) || (0xE000 <= n < 0x11_0000)
  }

  /** The marker `__ESCAPED_(\d+)__` at the start of `s`, if there is one and its code is a
      character: the character and the marker's length. */
  function MarkerAt(s: string): (r: Option<(char, nat)>)
    ensures r.Some? ==> 12 < r.value.1 <= |s|
  {
    if !StartsWith(s, MarkerOpen) then None
    else
      var k := DigitRun(s[10..]);
      if k == 0 || !StartsWith(s[10 + k..], "__") then None
      else
        var code := DigitsValue(s[10..10 + k]);
        if IsScalarCode(code) then Some((code as char, 12 + k)) else None
  }

  /** `html.replace(/__ESCAPED_(\d+)__/g, ...)`. */
  function Restore(s: string): string
  {
    if |s| == 0 then ""
    else
      match MarkerAt(s)
      case Some((c, n)) => [c] + Restore(s[n..])
      case None => [s[0]] + Restore(s[1..])
  }

  /** The marker of a character is recognised with exactly its own length, whatever follows. */
  lemma MarkerIsRecognised(c: char, rest: string)
    ensures MarkerAt(Marker(c) + rest) == Some((c, |Marker(c)|))
  {
    var d := Decimal(c as int);
    var s := Marker(c) + rest;
    assert s == MarkerOpen + (d + ("__" + rest));
    assert s[10..] == d + ("__" + rest);
    DigitRunOfDigits(d, "__" + rest);
    assert s[10..10 + |d|] == d;
    assert s[10 + |d|..] == "__" + rest;
    DecimalRoundTrip(c as int);
  }

  lemma {:induction false} DigitRunOfDigits(d: string, rest: string)
    requires AllDigits(d) && |rest| > 0 && !IsDigit(rest[0])
    ensures DigitRun(d + rest) == |d|
  {
    if |d| > 0 {
      assert (d + rest)[1..] == d[1..] + rest;
      DigitRunOfDigits(d[1..], rest);
    } else {
      assert d + rest == rest;
    }
  }

  /** If the protected text starts with a string that has no two adjacent underscores
      and does not end in one, that string was ordinary text of the input. */
  lemma {:induction false} ProtectRawPrefix(t: string, p: string)
    requires StartsWith(Protect(t), p)
    requires forall j :: 0 <= j < |p| - 1 ==> !(p[j] == '_' && p[j + 1] == '_')
    requires |p| > 0 ==> p[|p| - 1] != '_'
    ensures StartsWith(t, p)
  {
    if |p| > 0 {
      if |t| >= 2 && t[0] == '\\' && !IsLineTerminator(t[1]) {
        MarkerStartsWithUnderscores(t[1], Protect(t[2..]));
        assert false;
      } else {
        assert |t| > 0;
        assert Protect(t) == [t[0]] + Protect(t[1..]);
        assert StartsWith(Protect(t[1..]), p[1..]);
        ProtectRawPrefix(t[1..], p[1..]);
        assert t[..|p|] == [t[0]] + t[1..][..|p| - 1];
      }
    }
  }

  lemma MarkerStartsWithUnderscores(c: char, rest: string)
    ensures (Marker(c) + rest)[0] == '_' && (Marker(c) + rest)[1] == '_'
  {
  }

  /** Restoring the markers undoes the escape pass: the result is the input with every
      escape `\\X` replaced by `X`, for input that holds no marker text of its own. */
  lemma {:induction false} RestoreProtect(s: string)
    requires !Includes(s, MarkerOpen)
    ensures Restore(Protect(s)) == Unescape(s)
  {
    if |s| >= 2 && s[0] == '\\' && !IsLineTerminator(s[1]) {
      NoOpenerAfter(s, 2);
      RestoreProtect(s[2..]);
      RestoreMarker(s[1], Protect(s[2..]));
    } else if |s| > 0 {
      NoOpenerAfter(s, 1);
      RestoreProtect(s[1..]);
      NoMarkerAtPlainChar(s);
    }
  }

  lemma RestoreMarker(c: char, rest: string)
    ensures Restore(Marker(c) + rest) == [c] + Restore(rest)
  {
    MarkerIsRecognised(c, rest);
    assert (Marker(c) + rest)[|Marker(c)|..] == rest;
  }

  /** A character the escape pass copies cannot be the start of a marker. */
  lemma NoMarkerAtPlainChar(s: string)
    requires |s| > 0 && !(|s| >= 2 && s[0] == '\\' && !IsLineTerminator(s[1]))
    requires !Includes(s, MarkerOpen)
    ensures MarkerAt([s[0]] + Protect(s[1..])).None?
  {
    var out := [s[0]] + Protect(s[1..]);
    if MarkerAt(out).Some? {
      var q := Protect(s[1..]);
      assert out[..10] == MarkerOpen;
      assert IsDigit(out[10]) by {
        assert out[10..][0] == out[10];
      }
      var p := "_ESCAPED_" + [out[10]];
      assert q[..10] == p by {
        assert out[1..11] == q[..10];
        assert out[1..10] == MarkerOpen[1..];
      }
      ProtectRawPrefix(s[1..], p);
      assert s[..10] == [s[0]] + s[1..][..9];
      assert At(s, 0, MarkerOpen);
      assert false;
    }
  }

  lemma NoOpenerAfter(s: string, k: nat)
    requires k <= |s| && !Includes(s, MarkerOpen)
    ensures !Includes(s[k..], MarkerOpen)
  {
    if Includes(s[k..], MarkerOpen) {
      var i :| 0 <= i <= |s[k..]| - 10 && At(s[k..], i, MarkerOpen);
      assert s[k + i..k + i + 10] == s[k..][i..i + 10];
      assert At(s, k + i, MarkerOpen);
    }
  }
}
