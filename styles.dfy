/** The style fragments shared by the modifier passes: the `size(prop:value,...)`
    parameter, the font table, the `object-fit` modes and the leading-dot rule for
    colour and font parameters. */
module Styles {
  import opened Text

  /** `p.startsWith('.') ? p.substring(1) : p`. */
  function StripDot(p: string): (r: string)
    ensures StartsWith(p, ".") ==> p == "." + r
    ensures !StartsWith(p, ".") ==> r == p
  {
    if |p| > 0 && p[0] == '.' then p[1..] else p
  }

  /** The `object-fit` values the `fill` modifier accepts. */
  predicate IsFillMode(m: string) {
    m == "cover" || m == "contain" || m == "fill" || m == "scale-down" || m == "none"
  }

  /** One `prop:value` field of a `size` parameter, both sides trimmed; a missing
      value is empty. */
  function SizeField(part: string): (r: (string, string))
    ensures r.0 == Trim(Split(part, ':')[0])
  {
    var f := Split(part, ':');
    (Trim(f[0]), if |f| > 1 then Trim(f[1]) else "")
  }

  /** The `prop: value` pairs of a `size` parameter, in order, keeping only the fields
      whose property and value are both non-empty. */
  function SizePairs(param: string): (r: seq<(string, string)>)
  {
    KeepSizeFields(Split(param, ','))
  }

  function KeepSizeFields(parts: seq<string>): (r: seq<(string, string)>)
    ensures |r| <= |parts|
  {
    if |parts| == 0 then []
    else
      var f := SizeField(parts[0]);
      var rest := KeepSizeFields(parts[1..]);
      if f.0 != "" && f.1 != "" then [f] + rest else rest
  }

  /** A pair is kept exactly when it is the field of one of the parts and both of
      its sides are non-empty. */
  lemma {:induction false} KeptFields(parts: seq<string>, p: (string, string))
    ensures p in KeepSizeFields(parts)
      <==> p.0 != "" && p.1 != "" && p in Fields(parts)
    decreases |parts|
  {
    if |parts| > 0 {
      KeptFields(parts[1..], p);
      assert Fields(parts) == [SizeField(parts[0])] + Fields(parts[1..]);
    }
  }

  /** The field of every part, in order. */
  function Fields(parts: seq<string>): (r: seq<(string, string)>)
    ensures |r| == |parts|
    ensures forall k :: 0 <= k < |parts| ==> r[k] == SizeField(parts[k])
  {
    if |parts| == 0 then [] else [SizeField(parts[0])] + Fields(parts[1..])
  }

  /** `prop: value; ` for every pair, concatenated: the form used on image
      attributes and form elements. */
  function Declarations(pairs: seq<(string, string)>): (r: string)
    ensures |pairs| == 0 <==> r == ""
  {
    if |pairs| == 0 then "" else pairs[0].0 + ": " + pairs[0].1 + "; " + Declarations(pairs[1..])
  }

  /** `prop: value` for every pair, joined by `; `: the form used on wrapping spans. */
  function JoinedDeclarations(pairs: seq<(string, string)>): (r: string)
    ensures |pairs| > 0 ==> StartsWith(r, pairs[0].0)
  {
    if |pairs| == 0 then ""
    else if |pairs| == 1 then pairs[0].0 + ": " + pairs[0].1
    else pairs[0].0 + ": " + pairs[0].1 + "; " + JoinedDeclarations(pairs[1..])
  }

  /** Text written back as a `size` field: trimmed, non-empty, and free of the
      separators. */
  predicate PlainField(s: string) {
    s != "" && Trim(s) == s && !Occurs(s, ',') && !Occurs(s, ':')
  }

  /** The text `p1:v1,p2:v2,...` for a list of pairs. */
  function SizeText(pairs: seq<(string, string)>): string
  {
    if |pairs| == 0 then ""
    else if |pairs| == 1 then pairs[0].0 + ":" + pairs[0].1
    else pairs[0].0 + ":" + pairs[0].1 + "," + SizeText(pairs[1..])
  }

  /** Reading a written-out size list gives back its pairs. */
  lemma {:induction false} SizePairsOfSizeText(pairs: seq<(string, string)>)
    requires |pairs| > 0
    requires forall k :: 0 <= k < |pairs| ==> PlainField(pairs[k].0) && PlainField(pairs[k].1)
    ensures SizePairs(SizeText(pairs)) == pairs
  {
    var parts := FieldTexts(pairs);
    SizeTextIsJoin(pairs);
    forall k | 0 <= k < |parts| ensures !Occurs(parts[k], ',') {
      FieldTextHasNoComma(pairs[k]);
    }
    SplitJoin(parts, ',');
    KeepFieldTexts(pairs);
  }

  function FieldText(p: (string, string)): string {
    p.0 + ":" + p.1
  }

  function FieldTexts(pairs: seq<(string, string)>): (r: seq<string>)
    ensures |r| == |pairs|
    ensures forall k :: 0 <= k < |pairs| ==> r[k] == FieldText(pairs[k])
  {
    if |pairs| == 0 then [] else [FieldText(pairs[0])] + FieldTexts(pairs[1..])
  }

  lemma {:induction false} SizeTextIsJoin(pairs: seq<(string, string)>)
    requires |pairs| > 0
    ensures SizeText(pairs) == Join(FieldTexts(pairs), [','])
  {
    if |pairs| > 1 {
      SizeTextIsJoin(pairs[1..]);
      assert FieldTexts(pairs)[1..] == FieldTexts(pairs[1..]);
    }
  }

  lemma FieldTextHasNoComma(p: (string, string))
    requires !Occurs(p.0, ',') && !Occurs(p.1, ',')
    ensures !Occurs(FieldText(p), ',')
  {
    var t := FieldText(p);
    forall i | 0 <= i < |t| ensures t[i] != ',' {
      if i < |p.0| {
        assert t[i] == p.0[i];
      } else if i > |p.0| {
        assert t[i] == p.1[i - |p.0| - 1];
      }
    }
  }

  lemma {:induction false} KeepFieldTexts(pairs: seq<(string, string)>)
    requires forall k :: 0 <= k < |pairs| ==> PlainField(pairs[k].0) && PlainField(pairs[k].1)
    ensures KeepSizeFields(FieldTexts(pairs)) == pairs
  {
    if |pairs| > 0 {
      var p, rest := pairs[0], pairs[1..];
      forall k | 0 <= k < |rest| ensures PlainField(rest[k].0) && PlainField(rest[k].1) {
        assert rest[k] == pairs[k + 1];
      }
      KeepFieldTexts(rest);
      KeepFieldTextsStep(p, rest);
      assert [p] + rest == pairs;
    }
  }

  /** One written-out field in front of the others is read back in front of them. */
  lemma KeepFieldTextsStep(p: (string, string), rest: seq<(string, string)>)
    requires PlainField(p.0) && PlainField(p.1)
    ensures KeepSizeFields(FieldTexts([p] + rest)) == [p] + KeepSizeFields(FieldTexts(rest))
  {
    var texts := [FieldText(p)] + FieldTexts(rest);
    assert ([p] + rest)[1..] == rest;
    assert FieldTexts([p] + rest) == texts;
    SizeFieldOfFieldText(p);
    assert texts[1..] == FieldTexts(rest);
    KeepSizeFieldsCons(texts);
  }

  lemma KeepSizeFieldsCons(parts: seq<string>)
    requires |parts| > 0 && SizeField(parts[0]).0 != "" && SizeField(parts[0]).1 != ""
    ensures KeepSizeFields(parts) == [SizeField(parts[0])] + KeepSizeFields(parts[1..])
  {
  }

  lemma SizeFieldOfFieldText(p: (string, string))
    requires PlainField(p.0) && PlainField(p.1)
    ensures SizeField(FieldText(p)) == p
  {
    SplitAround(p.0, p.1, ':');
    SplitNoSeparator(p.1, ':');
    assert Split(FieldText(p), ':') == [p.0, p.1];
  }

  /** The CSS family and the class of a font name, compared without regard to case;
      an unknown name is used as the family itself, with its case kept. */
  function FontFor(fontType: string): (r: (string, string))
    ensures Lower(fontType) == "sans" ==> r == ("\"IBM Plex Sans\", sans-serif", "bs-font-sans")
    ensures Lower(fontType) == "serif" ==> r == ("\"IBM Plex Serif\", serif", "bs-font-serif")
    ensures Lower(fontType) == "monospace" ==> r == ("\"IBM Plex Mono\", monospace", "bs-font-mono")
    ensures r.1 == "bs-font-custom" <==> Lower(fontType) !in {"sans", "serif", "monospace"}
    ensures r.1 == "bs-font-custom" ==> r.0 == fontType
  {
    var key := Lower(fontType);
    if key == "sans" then ("\"IBM Plex Sans\", sans-serif", "bs-font-sans")
    else if key == "serif" then ("\"IBM Plex Serif\", serif", "bs-font-serif")
    else if key == "monospace" then ("\"IBM Plex Mono\", monospace", "bs-font-mono")
    else (fontType, "bs-font-custom")
  }
}
