/** Recognisers for the textual shapes the parser's regular expressions accept:
    modifier chains `.name(param)`, bracketed content with two levels of nesting,
    element headers `name.classes(params)` and image headers. Each recogniser
    returns the groups the regular expression captures and the length it consumes;
    where the expression backtracks, the recogniser makes the same choice. */
module Scanners {
  import opened Text

  /** One modifier `.name` or `.name(param)`. An empty `param` stands both for
      a missing group and for `()`: the parser treats the two alike. */
  datatype Mod = Mod(name: string, param: string)

  predicate IsWord(s: string) {
    |s| >= 1 && forall i :: 0 <= i < |s| ==> IsWordChar(s[i])
  }

  /** End of the run of word characters starting at `i`. */
  function WordEnd(s: string, i: nat): (r: nat)
    requires i <= |s|
    ensures i <= r <= |s|
    decreases |s| - i
  {
    if i < |s| && IsWordChar(s[i]) then WordEnd(s, i + 1) else i
  }

  /** The first position at or after `i` holding `c`, or `|s|`. */
  function CharFrom(s: string, i: nat, c: char): (r: nat)
    requires i <= |s|
    ensures i <= r <= |s|
    decreases |s| - i
  {
    if i < |s| && s[i] != c then CharFrom(s, i + 1, c) else i
  }

  /** The first position at or after `i` holding `(` or `[`, or `|s|`: the end of the
      `[^(\[]+` class group. */
  function ModsEnd(s: string, i: nat): (r: nat)
    requires i <= |s|
    ensures i <= r <= |s|
    decreases |s| - i
  {
    if i < |s| && s[i] != '(' && s[i] != '[' then ModsEnd(s, i + 1) else i
  }

  lemma {:induction false} WordEndExact(s: string, i: nat, e: nat)
    requires i <= e <= |s|
    requires forall k :: i <= k < e ==> IsWordChar(s[k])
    requires e == |s| || !IsWordChar(s[e])
    ensures WordEnd(s, i) == e
    decreases e - i
  {
    if i < e {
      WordEndExact(s, i + 1, e);
    }
  }

  lemma {:induction false} CharFromExact(s: string, i: nat, c: char, e: nat)
    requires i <= e <= |s|
    requires forall k :: i <= k < e ==> s[k] != c
    requires e == |s| || s[e] == c
    ensures CharFrom(s, i, c) == e
    decreases e - i
  {
    if i < e {
      CharFromExact(s, i + 1, c, e);
    }
  }

  /** End of the modifier starting at `i`, or `i` itself when none starts there. */
  function ElementEnd(s: string, i: nat): (r: nat)
    requires i <= |s|
    ensures r == i || i + 2 <= r <= |s|
  {
    if i + 1 < |s| && s[i] == '.' && IsWordChar(s[i + 1]) then
      var k := WordEnd(s, i + 1);
      if k < |s| && s[k] == '(' && CharFrom(s, k + 1, ')') < |s| then CharFrom(s, k + 1, ')') + 1
      else k
    else i
  }

  /** `\.(\w+)(?:\(([^)]*)\))?` at position `i` of `s`: the modifier and the position
      just after it. */
  function ElementFrom(s: string, i: nat): (r: Option<(Mod, nat)>)
    requires i <= |s|
    ensures r.None? <==> ElementEnd(s, i) == i
    ensures r.Some? ==> r.value.1 == ElementEnd(s, i)
  {
    var e := ElementEnd(s, i);
    if e == i then None
    else
      var k := WordEnd(s, i + 1);
      Some((Mod(s[i + 1..k], if k < e then s[k + 1..e - 1] else ""), e))
  }

  /** End of the greedy chain `(?:\.\w+(?:\([^)]*\))?)*` starting at `i`. */
  function ChainEnd(s: string, i: nat): (r: nat)
    requires i <= |s|
    ensures i <= r <= |s|
    decreases |s| - i
  {
    var e := ElementEnd(s, i);
    if e == i then i else ChainEnd(s, e)
  }

  /** At the end of the text no white space and no chain follow. */
  lemma AtTextEnd(s: string)
    ensures SpaceEnd(s, |s|) == |s| && ChainEnd(s, |s|) == |s|
  {
  }

  /** The modifiers of the chain starting at `i`, in order. */
  function ChainMods(s: string, i: nat): (r: seq<Mod>)
    requires i <= |s|
    ensures |r| == 0 <==> ChainEnd(s, i) == i
    decreases |s| - i
  {
    match ElementFrom(s, i)
    case None => []
    case Some((m, e)) => [m] + ChainMods(s, e)
  }

  /** The global `exec` loop over `/\.(\w+)(?:\(([^)]*)\))?/g`: every modifier found
      scanning `s` left to right, moving one character on where none starts. */
  function ScanModifiers(s: string): seq<Mod>
  {
    ScanFrom(s, 0)
  }

  function ScanFrom(s: string, i: nat): seq<Mod>
    requires i <= |s|
    decreases |s| - i
  {
    if i == |s| then []
    else match ElementFrom(s, i)
      case Some((m, e)) => [m] + ScanFrom(s, e)
      case None => ScanFrom(s, i + 1)
  }

  /** On text that is a chain up to its end, the global scan finds exactly the
      chain's own modifiers: no modifier is skipped and none is invented. */
  lemma {:induction false} ScanOfChain(s: string, i: nat)
    requires i <= |s| && ChainEnd(s, i) == |s|
    ensures ScanFrom(s, i) == ChainMods(s, i)
    decreases |s| - i
  {
    match ElementFrom(s, i)
    case None =>
    case Some((m, e)) => ScanOfChain(s, e);
  }

  // ---------------------------------------------------------------------
  // Bracketed content with at most two further levels of nesting:
  // (?:[^\[\]]|\[(?:[^\[\]]|\[[^\[\]]*\])*\])*
  // ---------------------------------------------------------------------

  /** Length of the greedy content run with `depth` levels of nested groups allowed. */
  function ContentRun(s: string, depth: nat): (n: nat)
    ensures n <= |s|
    decreases |s|
  {
    if |s| == 0 then 0
    else if s[0] != '[' && s[0] != ']' then 1 + ContentRun(s[1..], depth)
    else if s[0] == '[' && depth > 0 then
      var k := ContentRun(s[1..], depth - 1);
      if 1 + k < |s| && s[1 + k] == ']' then 2 + k + ContentRun(s[2 + k..], depth) else 0
    else 0
  }

  /** The content of a `[ ... ]` whose `[` has just been read, and the length up to and
      including the closing `]`. */
  function BracketBody(s: string): (r: Option<(string, nat)>)
    ensures r.Some? ==> r.value.1 == |r.value.0| + 1 <= |s| && s[|r.value.0|] == ']'
    ensures r.Some? ==> r.value.0 == s[..|r.value.0|]
  {
    var n := ContentRun(s, 2);
    if n < |s| && s[n] == ']' then Some((s[..n], n + 1)) else None
  }

  /** Text without brackets is a complete content run. */
  lemma {:induction false} ContentRunPlain(s: string, depth: nat)
    requires !Occurs(s, '[') && !Occurs(s, ']')
    ensures ContentRun(s, depth) == |s|
  {
    if |s| > 0 {
      assert !Occurs(s[1..], '[') && !Occurs(s[1..], ']') by {
        forall i | 0 <= i < |s[1..]| ensures s[1..][i] != '[' && s[1..][i] != ']' {
          assert s[1..][i] == s[i + 1];
        }
      }
      ContentRunPlain(s[1..], depth);
    }
  }

  lemma {:induction false} ContentRunStops(a: string, b: string, depth: nat)
    requires !Occurs(a, '[') && !Occurs(a, ']')
    requires |b| > 0 && b[0] == ']'
    ensures ContentRun(a + b, depth) == |a|
  {
    if |a| > 0 {
      assert (a + b)[1..] == a[1..] + b;
      assert a[0] != '[' && a[0] != ']';
      assert !Occurs(a[1..], '[') && !Occurs(a[1..], ']') by {
        forall i | 0 <= i < |a[1..]| ensures a[1..][i] != '[' && a[1..][i] != ']' {
          assert a[1..][i] == a[i + 1];
        }
      }
      ContentRunStops(a[1..], b, depth);
    } else {
      assert a + b == b;
    }
  }

  /** Bracket-free content is read up to the first `]`. */
  lemma BracketBodyPlain(a: string, rest: string)
    requires !Occurs(a, '[') && !Occurs(a, ']')
    ensures BracketBody(a + "]" + rest) == Some((a, |a| + 1))
  {
    ContentRunStops(a, "]" + rest, 2);
    assert a + "]" + rest == a + ("]" + rest);
    assert (a + "]" + rest)[..|a|] == a;
  }

  // ---------------------------------------------------------------------
  // Element headers: ^(\w+)(?:\.([^(\[]+))?(?:\(([^)]*)\))?
  // ---------------------------------------------------------------------

  /** The groups of an element header and the position just after it; `mods` and
      `params` are empty when their group did not take part. */
  datatype Header = Header(name: string, mods: string, params: string, end: nat)

  /** The element header at the start of a line. It is `None` exactly when no header
      shape can match: a missing name, a `.` not followed by class text, or a `(` with
      no `)` after it. */
  function HeaderAt(line: string): (r: Option<Header>)
    ensures r.Some? ==> r.value.end <= |line| && |r.value.name| > 0
    ensures r.Some? ==> r.value.name == line[..WordEnd(line, 0)]
  {
    var k := WordEnd(line, 0);
    if k == 0 then None
    else
      var name := line[..k];
      var dot := k < |line| && line[k] == '.';
      if dot && ModsEnd(line, k + 1) == k + 1 then None
      else
        var q := if dot then ModsEnd(line, k + 1) else k;
        var mods := if dot then line[k + 1..q] else "";
        if q < |line| && line[q] == '(' then
          var e := CharFrom(line, q + 1, ')');
          if e == |line| then None
          else Some(Header(name, mods, line[q + 1..e], e + 1))
        else Some(Header(name, mods, "", q))
  }

  // ---------------------------------------------------------------------
  // Images: image(?:\.([^(\[]+))?(?:\(([^)]*)\))?((?:\.\w+(?:\([^)]*\))?)+)
  // ---------------------------------------------------------------------

  /** The groups of an image match: class text, parameters, the chain text, and
      the length of the whole match. */
  datatype ImageMatch = ImageMatch(mods: string, params: string, chain: string, len: nat)

  /** A chain of at least one modifier starts at `i` (and runs to the end of `s` if `toEnd`). */
  predicate FitsAt(s: string, i: nat, toEnd: bool)
    requires i <= |s|
  {
    i < ChainEnd(s, i) && (!toEnd || ChainEnd(s, i) == |s|)
  }

  /** The largest class length `l` in `[1, len]` after which the text at `start + l`
      begins a chain (running to the end of `s` if `toEnd`). */
  function ShorterMods(s: string, start: nat, len: nat, toEnd: bool): (r: Option<nat>)
    requires start + len <= |s|
    ensures r.Some? ==> 1 <= r.value <= len
    decreases len
  {
    if len == 0 then None
    else if FitsAt(s, start + len, toEnd) then Some(len)
    else ShorterMods(s, start, len - 1, toEnd)
  }

  /** Optional `(params)` at `q` followed by a chain: the parameters and the chain's
      start, trying the parameters first as the greedy `?` does. */
  function ParamsThenChain(s: string, q: nat, toEnd: bool): (r: Option<(string, nat)>)
    requires q <= |s|
    ensures r.Some? ==> q <= r.value.1 <= |s|
  {
    if q < |s| && s[q] == '(' && CharFrom(s, q + 1, ')') < |s| then
      var e := CharFrom(s, q + 1, ')');
      if FitsAt(s, e + 1, toEnd) then Some((s[q + 1..e], e + 1)) else None
    else if FitsAt(s, q, toEnd) then Some(("", q))
    else None
  }

  /** The groups of an image match whose chain starts at `c`, if one does. */
  function ImageMatchAt(s: string, mods: string, params: string, c: nat, toEnd: bool): (r: Option<ImageMatch>)
    requires c <= |s|
    ensures r.Some? <==> FitsAt(s, c, toEnd)
    ensures r.Some? ==> 0 < |r.value.chain| && r.value.len == c + |r.value.chain| <= |s|
    ensures r.Some? && toEnd ==> r.value.len == |s|
    ensures r.Some? ==> c < |s| && s[c] == '.'
  {
    if FitsAt(s, c, toEnd) then
      var e := ChainEnd(s, c);
      Some(ImageMatch(mods, params, s[c..e], e))
    else None
  }

  /** The image regular expression at the start of `s` (which must begin with `image`),
      with the backtracking order of the engine: the longest class text first, then
      shorter class texts, then no class text. With `toEnd` the match must reach the
      end of `s`, as the anchored form used for whole lines requires. */
  function ImageAt(s: string, toEnd: bool): (r: Option<ImageMatch>)
    requires StartsWith(s, "image")
    ensures r.Some? ==> 5 < r.value.len <= |s| && |r.value.chain| > 0
    ensures r.Some? && toEnd ==> r.value.len == |s|
    ensures r.Some? ==> Occurs(s, '.')
  {
    var q := if 5 < |s| && s[5] == '.' then ModsEnd(s, 6) else 0;
    if q > 6 && ImageWithMods(s, q, toEnd).Some? then ImageWithMods(s, q, toEnd)
    else ImageWithoutMods(s, toEnd)
  }

  /** The image alternatives in which the class group `s[6..q]` (or a shorter prefix
      of it) takes part, longest class text first. */
  function ImageWithMods(s: string, q: nat, toEnd: bool): (r: Option<ImageMatch>)
    requires 6 < q <= |s|
    ensures r.Some? ==> 6 < r.value.len <= |s| && |r.value.chain| > 0
    ensures r.Some? && toEnd ==> r.value.len == |s|
    ensures r.Some? ==> Occurs(s, '.')
  {
    var full := if q < |s| && s[q] == '(' then ParamsThenChain(s, q, toEnd) else None;
    if full.Some? then
      ImageMatchAt(s, s[6..q], full.value.0, full.value.1, toEnd)
    else
      match ShorterMods(s, 6, q - 7, toEnd)
      case Some(l) => ImageMatchAt(s, s[6..6 + l], "", 6 + l, toEnd)
      case None => None
  }

  /** The image alternative in which the class group does not take part. */
  function ImageWithoutMods(s: string, toEnd: bool): (r: Option<ImageMatch>)
    requires StartsWith(s, "image")
    ensures r.Some? ==> 5 < r.value.len <= |s| && |r.value.chain| > 0
    ensures r.Some? && toEnd ==> r.value.len == |s|
    ensures r.Some? ==> Occurs(s, '.')
  {
    match ParamsThenChain(s, 5, toEnd)
    case Some((params, c)) => ImageMatchAt(s, "", params, c, toEnd)
    case None => None
  }

  // ---------------------------------------------------------------------
  // Parameters: /(\w+):\s*["']([^"']+)["']/g
  // ---------------------------------------------------------------------

  predicate IsQuote(c: char) {
    c == '"' || c == '\''
  }

  /** End of the run of `\s` characters starting at `i`. */
  function SpaceEnd(s: string, i: nat): (r: nat)
    requires i <= |s|
    ensures i <= r <= |s|
    decreases |s| - i
  {
    if i < |s| && IsSpace(s[i]) then SpaceEnd(s, i + 1) else i
  }

  /** The first position at or after `i` holding either quote, or `|s|`. */
  function QuoteFrom(s: string, i: nat): (r: nat)
    requires i <= |s|
    ensures i <= r <= |s|
    decreases |s| - i
  {
    if i < |s| && !IsQuote(s[i]) then QuoteFrom(s, i + 1) else i
  }

  /** A `key: "value"` parameter at position `i`: the key, the value and the position
      just after the closing quote. Either quote may open or close the value, and
      the value is not empty. */
  function ParamAt(s: string, i: nat): (r: Option<(string, string, nat)>)
    requires i <= |s|
    ensures r.Some? ==> i < r.value.2 <= |s| && r.value.0 != "" && r.value.1 != ""
  {
    var k := WordEnd(s, i);
    if k == i || k == |s| || s[k] != ':' then None
    else
      var j := SpaceEnd(s, k + 1);
      if j == |s| || !IsQuote(s[j]) then None
      else
        var e := QuoteFrom(s, j + 1);
        if e == j + 1 || e == |s| then None
        else Some((s[i..k], s[j + 1..e], e + 1))
  }

  /** The global `exec` loop over the parameter expression from position `i`: every
      `key: "value"` pair, left to right. */
  function ScanParams(s: string, i: nat): (r: seq<(string, string)>)
    requires i <= |s|
    ensures forall n :: 0 <= n < |r| ==> r[n].0 != "" && r[n].1 != ""
    decreases |s| - i
  {
    if i == |s| then []
    else match ParamAt(s, i)
      case Some((k, v, e)) => [(k, v)] + ScanParams(s, e)
      case None => ScanParams(s, i + 1)
  }

  /** Text without a colon holds no parameter. */
  lemma {:induction false} ScanParamsNoColon(s: string, i: nat)
    requires i <= |s| && !Occurs(s, ':')
    ensures ScanParams(s, i) == []
    decreases |s| - i
  {
    if i < |s| {
      var k := WordEnd(s, i);
      assert k < |s| ==> s[k] != ':';
      ScanParamsNoColon(s, i + 1);
    }
  }
}
