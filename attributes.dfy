/** The attribute object an element is built from: an ordered map from names to
    values in which a new name is appended and an existing one keeps its place, as
    the properties of a JavaScript object do. `parseAttributes` fills a fresh map
    from the class text and the parameter text of a header, and
    `processImageModifiers` extends the `style` and `class` of an image's map in
    place. */
module Attributes {
  import opened Text
  import opened Styles
  import opened Scanners

  type Attrs = seq<(string, string)>

  predicate UniqueKeys(a: Attrs) {
    forall i, j :: 0 <= i < j < |a| ==> a[i].0 != a[j].0
  }

  /** The names of `a`, in order. */
  function Keys(a: Attrs): (r: seq<string>)
    ensures |r| == |a| && forall i :: 0 <= i < |a| ==> r[i] == a[i].0
  {
    if |a| == 0 then [] else [a[0].0] + Keys(a[1..])
  }

  /** The position of name `k` in `a`, searching from `i`. */
  function KeyFrom(a: Attrs, k: string, i: nat): (r: Option<nat>)
    requires i <= |a|
    ensures r.Some? ==> i <= r.value < |a| && a[r.value].0 == k
    ensures r.Some? ==> forall j :: i <= j < r.value ==> a[j].0 != k
    ensures r.None? ==> forall j :: i <= j < |a| ==> a[j].0 != k
    decreases |a| - i
  {
    if i == |a| then None else if a[i].0 == k then Some(i) else KeyFrom(a, k, i + 1)
  }

  /** The value of `k`, if `a` has it. */
  function Lookup(a: Attrs, k: string): (r: Option<string>)
    ensures r.Some? <==> k in Keys(a)
    ensures r.Some? ==> exists i :: 0 <= i < |a| && a[i] == (k, r.value)
  {
    match KeyFrom(a, k, 0)
    case Some(i) => Some(a[i].1)
    case None => None
  }

  /** `attributes[k]` as a condition sees it: a missing name reads as the empty string,
      and both are false. */
  function ValueOf(a: Attrs, k: string): string
  {
    match Lookup(a, k)
    case Some(v) => v
    case None => ""
  }

  /** `attributes[k] = v`: an existing name is updated where it stands, a new one is
      appended. */
  function Put(a: Attrs, k: string, v: string): Attrs
  {
    match KeyFrom(a, k, 0)
    case Some(i) => a[i := (k, v)]
    case None => a + [(k, v)]
  }

  /** After `Put` the name holds the new value, every other name keeps its value and
      its place, and a new name goes last. */
  lemma PutLaws(a: Attrs, k: string, v: string)
    ensures UniqueKeys(a) ==> UniqueKeys(Put(a, k, v))
    ensures Lookup(Put(a, k, v), k) == Some(v)
    ensures forall k' :: k' != k ==> Lookup(Put(a, k, v), k') == Lookup(a, k')
    ensures k in Keys(a) ==> Keys(Put(a, k, v)) == Keys(a)
    ensures k !in Keys(a) ==> Keys(Put(a, k, v)) == Keys(a) + [k]
  {
    match KeyFrom(a, k, 0)
    case Some(i) => PutLookups(a, Put(a, k, v), k, v, i);
    case None => PutLookups(a, Put(a, k, v), k, v, |a|);
  }

  lemma PutLookups(a: Attrs, r: Attrs, k: string, v: string, i: nat)
    requires KeyFrom(a, k, 0) == (if i < |a| then Some(i) else None)
    requires i < |a| ==> r == a[i := (k, v)]
    requires i >= |a| ==> i == |a| && r == a + [(k, v)]
    ensures UniqueKeys(a) ==> UniqueKeys(r)
    ensures Lookup(r, k) == Some(v)
    ensures forall k' :: k' != k ==> Lookup(r, k') == Lookup(a, k')
    ensures i < |a| ==> Keys(r) == Keys(a)
    ensures i >= |a| ==> Keys(r) == Keys(a) + [k]
  {
    KeyFromIs(r, k, i);
    forall k' | k' != k ensures Lookup(r, k') == Lookup(a, k') {
      KeyFromSame(a, r, k', k, i);
    }
    PutKeys(a, r, k, i);
  }

  lemma PutKeys(a: Attrs, r: Attrs, k: string, i: nat)
    requires |r| == |a| || (|r| == |a| + 1 && i == |a|)
    requires i < |r| && r[i].0 == k
    requires forall j :: 0 <= j < |a| && j != i ==> r[j] == a[j]
    requires i < |a| ==> a[i].0 == k
    requires i == |a| ==> forall j :: 0 <= j < |a| ==> a[j].0 != k
    ensures UniqueKeys(a) ==> UniqueKeys(r)
    ensures i < |a| ==> Keys(r) == Keys(a)
    ensures i >= |a| ==> Keys(r) == Keys(a) + [k]
  {
    if UniqueKeys(a) {
      forall x, y | 0 <= x < y < |r| ensures r[x].0 != r[y].0 {
        if x != i && y != i {
          assert r[x] == a[x] && r[y] == a[y];
        } else if x == i {
          assert r[y] == a[y];
        } else {
          assert r[x] == a[x];
        }
      }
    }
    if i < |a| {
      assert Keys(r) == Keys(a) by {
        forall j | 0 <= j < |a| ensures Keys(r)[j] == Keys(a)[j] {
          if j != i { assert r[j] == a[j]; }
        }
      }
    } else {
      assert Keys(r) == Keys(a) + [k] by {
        forall j | 0 <= j < |a| ensures Keys(r)[j] == Keys(a)[j] {
          assert r[j] == a[j];
        }
      }
    }
  }

  /** The first position holding `k` is the one the search finds. */
  lemma KeyFromIs(a: Attrs, k: string, i: nat)
    requires i < |a| && a[i].0 == k
    requires forall j :: 0 <= j < i ==> a[j].0 != k
    ensures KeyFrom(a, k, 0) == Some(i)
  {
  }

  /** A search for another name sees the same positions before and after the update. */
  lemma KeyFromSame(a: Attrs, r: Attrs, k': string, k: string, i: nat)
    requires k' != k && i <= |a|
    requires |r| == |a| || |r| == |a| + 1
    requires forall j :: 0 <= j < |a| && j != i ==> r[j] == a[j]
    requires i < |r| ==> r[i].0 == k
    requires |r| == |a| + 1 ==> i == |a|
    requires i < |a| ==> a[i].0 == k
    ensures KeyFrom(r, k', 0) == KeyFrom(a, k', 0)
  {
    var p := KeyFrom(a, k', 0);
    if p.Some? {
      assert p.value != i;
      assert r[p.value] == a[p.value];
      forall j | 0 <= j < p.value ensures r[j].0 != k' {
        if j != i { assert r[j] == a[j]; }
      }
      KeyFromIs(r, k', p.value);
    } else {
      KeyFromNone(r, k') by {
        forall j | 0 <= j < |r| ensures r[j].0 != k' {
          if j != i { assert r[j] == a[j]; }
        }
      }
    }
  }

  lemma KeyFromNone(a: Attrs, k: string)
    requires forall j :: 0 <= j < |a| ==> a[j].0 != k
    ensures KeyFrom(a, k, 0) == None
  {
  }

  /** `attributes.style += x` after `if (!attributes.style) attributes.style = ''`. */
  function AppendStyle(a: Attrs, x: string): Attrs
  {
    Put(a, "style", ValueOf(a, "style") + x)
  }

  /** `class = c` when there is no class yet, `class += ' ' + c` otherwise. */
  function AddClass(a: Attrs, c: string): Attrs
  {
    var cur := ValueOf(a, "class");
    Put(a, "class", if cur == "" then c else cur + " " + c)
  }

  // ---------------------------------------------------------------------
  // parseAttributes
  // ---------------------------------------------------------------------

  /** The non-blank dot-separated pieces of the class text, untrimmed. */
  function ClassNames(mods: string): seq<string>
  {
    NonBlank(Split(mods, '.'))
  }

  /** The map holding only the class, when the class text names any. */
  function ClassAttrs(mods: string): (r: Attrs)
    ensures |r| <= 1
  {
    var names := ClassNames(mods);
    if |names| > 0 then [("class", Join(names, " "))] else []
  }

  /** A parameter text without a colon that is the word `divider` or a number once trimmed. */
  predicate IsCountParam(params: string) {
    !Occurs(params, ':') && (Trim(params) == "divider" || (Trim(params) != "" && AllDigits(Trim(params))))
  }

  /** The names of the event handler parameters, which are written in lower case. */
  predicate IsHandlerKey(k: string) {
    k in {"onClick", "onChange", "onInput", "onSubmit", "onBlur", "onFocus"}
  }

  /** The keys that extend `style` instead of naming an attribute. */
  predicate IsStyleKey(k: string) {
    k == "textcolor" || k == "bgcolor" || k == "radius"
  }

  /** The attribute a parameter key is stored under. */
  function Rename(k: string): (r: string)
    ensures k == "target" ==> r == "href"
    ensures k == "source" ==> r == "src"
    ensures k == "do" ==> r == "data-action"
    ensures k == "on" ==> r == "data-action-event"
    ensures IsStyleKey(k) ==> r == "style"
    ensures IsHandlerKey(k) ==> r == Lower(k)
    ensures !IsHandlerKey(k) && !IsStyleKey(k) && k !in {"target", "source", "do", "on"} ==> r == k
  {
    if k == "target" then "href"
    else if k == "source" then "src"
    else if k == "do" then "data-action"
    else if k == "on" then "data-action-event"
    else if IsStyleKey(k) then "style"
    else if k == "onClick" then LoweredClick(); "onclick"
    else if k == "onChange" then LoweredChange(); "onchange"
    else if k == "onInput" then LoweredInput(); "oninput"
    else if k == "onSubmit" then LoweredSubmit(); "onsubmit"
    else if k == "onBlur" then LoweredBlur(); "onblur"
    else if k == "onFocus" then LoweredFocus(); "onfocus"
    else k
  }

  /** Each handler name, lowered, is the attribute name it is stored under. */
  lemma LoweredClick()
    ensures Lower("onClick") == "onclick"
  {
    var r := Lower("onClick");
    assert r[2] == 'c';
  }

  lemma LoweredChange()
    ensures Lower("onChange") == "onchange"
  {
    var r := Lower("onChange");
    assert r[2] == 'c';
  }

  lemma LoweredInput()
    ensures Lower("onInput") == "oninput"
  {
    var r := Lower("onInput");
    assert r[2] == 'i';
  }

  lemma LoweredSubmit()
    ensures Lower("onSubmit") == "onsubmit"
  {
    var r := Lower("onSubmit");
    assert r[2] == 's';
  }

  lemma LoweredBlur()
    ensures Lower("onBlur") == "onblur"
  {
    var r := Lower("onBlur");
    assert r[2] == 'b';
  }

  lemma LoweredFocus()
    ensures Lower("onFocus") == "onfocus"
  {
    var r := Lower("onFocus");
    assert r[2] == 'f';
  }

  /** The CSS declaration a style key contributes. */
  function StyleDeclaration(k: string, v: string): string
    requires IsStyleKey(k)
  {
    (if k == "textcolor" then "color: " else if k == "bgcolor" then "background-color: " else "border-radius: ")
    + v + "; "
  }

  /** The effect of one `key: "value"` parameter on the map. */
  function ApplyParam(a: Attrs, k: string, v: string): Attrs
  {
    if IsStyleKey(k) then AppendStyle(a, StyleDeclaration(k, v))
    else Put(a, Rename(k), ParamValue(k, v))
  }

  /** The value stored for a non-style key: `required` and `disabled` become a flag
      that is set only by the value `true`. */
  function ParamValue(k: string, v: string): (r: string)
    ensures k == "required" ==> (r == "required" <==> v == "true") && (r == "" <==> v != "true")
    ensures k == "disabled" ==> (r == "disabled" <==> v == "true") && (r == "" <==> v != "true")
    ensures k != "required" && k != "disabled" ==> r == v
  {
    if k == "required" then (if v == "true" then "required" else "")
    else if k == "disabled" then (if v == "true" then "disabled" else "")
    else v
  }

  /** The parameters applied in order. */
  function ApplyParams(a: Attrs, ps: seq<(string, string)>): Attrs
    decreases |ps|
  {
    if |ps| == 0 then a else ApplyParams(ApplyParam(a, ps[0].0, ps[0].1), ps[1..])
  }

  /** `parseAttributes(modifiers, params)` as a value. */
  function ParseAttributesSpec(mods: string, params: string): Attrs
  {
    var base := ClassAttrs(mods);
    if params == "" then base
    else if IsCountParam(params) then Put(base, "count", Trim(params))
    else ApplyParams(base, ScanParams(params, 0))
  }

  // ---------------------------------------------------------------------
  // processImageModifiers
  // ---------------------------------------------------------------------

  /** The style text one chained modifier appends to an image's style, if any. */
  function ImageStyleOf(m: Mod): (r: Option<string>)
    ensures r.Some? ==> m.param != "" && m.name in {"size", "fill", "radius", "font"}
  {
    if m.param == "" then None
    else if m.name == "size" then
      (if |SizePairs(m.param)| > 0 then Some(Declarations(SizePairs(m.param))) else None)
    else if m.name == "fill" then
      (if IsFillMode(Trim(m.param)) then Some("object-fit: " + Trim(m.param) + "; ") else None)
    else if m.name == "radius" then Some("border-radius: " + m.param + "; ")
    else if m.name == "font" then Some("font-family: " + FontFor(StripDot(m.param)).0 + "; ")
    else None
  }

  /** The class one chained modifier adds to an image, if any: the font class for
      `font`, the modifier's own name for every name the switch does not know. */
  function ImageClassOf(m: Mod): (r: Option<string>)
    ensures m.name !in {"size", "fill", "radius", "font"} ==> r == Some(m.name)
  {
    if m.name == "font" then (if m.param != "" then Some(FontFor(StripDot(m.param)).1) else None)
    else if m.name in {"size", "fill", "radius"} then None
    else Some(m.name)
  }

  /** The effect of one chained modifier on an image's map: its style text first,
      then its class. */
  function ImageModifierStep(a: Attrs, m: Mod): Attrs
  {
    ImageClassStep(ImageStyleStep(a, m), m)
  }

  function ImageStyleStep(a: Attrs, m: Mod): Attrs
  {
    match ImageStyleOf(m) case Some(x) => AppendStyle(a, x) case None => a
  }

  function ImageClassStep(a: Attrs, m: Mod): Attrs
  {
    match ImageClassOf(m) case Some(c) => AddClass(a, c) case None => a
  }

  /** The first modifier of a non-empty chain, then the rest of the chain. */
  function FirstThenRest(a: Attrs, ms: seq<Mod>): Attrs
    requires |ms| > 0
    decreases |ms|, 0
  {
    ImageModifierSteps(ImageModifierStep(a, ms[0]), ms[1..])
  }

  /** The chain applied in order, first modifier first. */
  function ImageModifierSteps(a: Attrs, ms: seq<Mod>): Attrs
    decreases |ms|, 1
  {
    if |ms| == 0 then a else FirstThenRest(a, ms)
  }

  /** `if (!attributes.style) attributes.style = ''`. */
  function WithStyle(a: Attrs): Attrs
  {
    if ValueOf(a, "style") == "" then Put(a, "style", "") else a
  }

  /** `processImageModifiers(attributes, modifiersString)` as a value. */
  function ImageModifiersSpec(a: Attrs, mods: string): Attrs
  {
    if mods == "" then a else ImageModifierSteps(WithStyle(a), ScanModifiers(mods))
  }

  // ---------------------------------------------------------------------
  // The mutable map
  // ---------------------------------------------------------------------

  /** The attribute object of one element, updated in place. */
  class AttributeMap {
    var entries: Attrs

    constructor ()
      ensures entries == []
    {
      entries := [];
    }

    function Get(k: string): string
      reads this
    {
      ValueOf(entries, k)
    }

    method Set(k: string, v: string)
      modifies this
      ensures entries == Put(old(entries), k, v)
    {
      entries := Put(entries, k, v);
    }

    method AppendToStyle(x: string)
      modifies this
      ensures entries == AppendStyle(old(entries), x)
    {
      Set("style", Get("style") + x);
    }

    /** One `key: "value"` parameter, as the `switch` of `parseAttributes` stores it. */
    method ApplyParameter(k: string, v: string)
      modifies this
      ensures entries == ApplyParam(old(entries), k, v)
    {
      if IsStyleKey(k) {
        AppendToStyle(StyleDeclaration(k, v));
      } else {
        Set(Rename(k), ParamValue(k, v));
      }
    }

    /** The `exec` loop of `parseAttributes` over the parameter text. */
    method ApplyParameters(params: string)
      modifies this
      ensures entries == ApplyParams(old(entries), ScanParams(params, 0))
    {
      var pos := 0;
      while pos < |params|
        invariant pos <= |params|
        invariant ApplyParams(entries, ScanParams(params, pos)) == ApplyParams(old(entries), ScanParams(params, 0))
        decreases |params| - pos
      {
        match ParamAt(params, pos)
        case Some((k, v, e)) =>
          ApplyParameter(k, v);
          pos := e;
        case None =>
          pos := pos + 1;
      }
    }

    method AddToClass(c: string)
      modifies this
      ensures entries == AddClass(old(entries), c)
    {
      if Get("class") == "" {
        Set("class", c);
      } else {
        Set("class", Get("class") + " " + c);
      }
    }
  }

  /** `parseAttributes`: a fresh map filled from the class text and the parameters. */
  method ParseAttributes(mods: string, params: string) returns (attributes: AttributeMap)
    ensures fresh(attributes)
    ensures attributes.entries == ParseAttributesSpec(mods, params)
  {
    attributes := new AttributeMap();
    var classes := ClassNames(mods);
    if |classes| > 0 {
      attributes.Set("class", Join(classes, " "));
    }
    assert attributes.entries == ClassAttrs(mods);
    if params == "" {
      return;
    }
    if !Occurs(params, ':') {
      var t := Trim(params);
      if t == "divider" || (t != "" && AllDigits(t)) {
        attributes.Set("count", t);
        return;
      }
    }
    attributes.ApplyParameters(params);
  }

  /** `processImageModifiers`: extends the image's `style` and `class` in place. */
  method ProcessImageModifiers(attributes: AttributeMap, mods: string)
    modifies attributes
    ensures attributes.entries == ImageModifiersSpec(old(attributes.entries), mods)
  {
    if mods == "" {
      return;
    }
    if attributes.Get("style") == "" {
      attributes.Set("style", "");
    }
    var pos := 0;
    while pos < |mods|
      invariant pos <= |mods|
      invariant ImageModifierSteps(attributes.entries, ScanFrom(mods, pos)) == ImageModifiersSpec(old(attributes.entries), mods)
      decreases |mods| - pos
    {
      match ElementFrom(mods, pos)
      case Some((m, e)) =>
        ApplyImageModifier(attributes, m);
        pos := e;
      case None =>
        pos := pos + 1;
    }
  }

  /** One turn of the modifier loop of `processImageModifiers`. */
  method ApplyImageModifier(attributes: AttributeMap, m: Mod)
    modifies attributes
    ensures attributes.entries == ImageModifierStep(old(attributes.entries), m)
  {
    match ImageStyleOf(m) {
      case Some(x) => attributes.AppendToStyle(x);
      case None =>
    }
    match ImageClassOf(m) {
      case Some(c) => attributes.AddToClass(c);
      case None =>
    }
  }

  // ---------------------------------------------------------------------
  // Properties
  // ---------------------------------------------------------------------

  /** `r` is `a` with at most the names in `changed` assigned: the names of `a` keep
      their places at the front, names stay unique, and every other name keeps its value. */
  ghost predicate KeepsOthers(a: Attrs, r: Attrs, changed: set<string>) {
    Keys(a) <= Keys(r)
    && (UniqueKeys(a) ==> UniqueKeys(r))
    && forall k :: k !in changed ==> Lookup(r, k) == Lookup(a, k)
  }

  lemma PutKeepsOthers(a: Attrs, k: string, v: string)
    ensures KeepsOthers(a, Put(a, k, v), {k})
  {
    PutLaws(a, k, v);
  }

  lemma KeepsOthersTrans(a: Attrs, b: Attrs, c: Attrs, s1: set<string>, s2: set<string>, s: set<string>)
    requires KeepsOthers(a, b, s1) && KeepsOthers(b, c, s2) && s1 + s2 <= s
    ensures KeepsOthers(a, c, s)
  {
  }

  /** The names the parameters assign: each renamed key, `style` for the style keys. */
  ghost function ParamNames(ps: seq<(string, string)>): set<string>
  {
    if |ps| == 0 then {} else {Rename(ps[0].0)} + ParamNames(ps[1..])
  }

  lemma ApplyParamKeepsOthers(a: Attrs, k: string, v: string)
    ensures KeepsOthers(a, ApplyParam(a, k, v), {Rename(k)})
  {
    if IsStyleKey(k) {
      PutKeepsOthers(a, "style", ValueOf(a, "style") + StyleDeclaration(k, v));
    } else {
      PutKeepsOthers(a, Rename(k), ParamValue(k, v));
    }
  }

  lemma {:induction false} ApplyParamsKeepsOthers(a: Attrs, ps: seq<(string, string)>)
    ensures KeepsOthers(a, ApplyParams(a, ps), ParamNames(ps))
    decreases |ps|
  {
    if |ps| > 0 {
      var b := ApplyParam(a, ps[0].0, ps[0].1);
      ApplyParamKeepsOthers(a, ps[0].0, ps[0].1);
      ApplyParamsKeepsOthers(b, ps[1..]);
      KeepsOthersTrans(a, b, ApplyParams(b, ps[1..]), {Rename(ps[0].0)}, ParamNames(ps[1..]), ParamNames(ps));
    }
  }

  /** `parseAttributes` never produces a name twice. */
  lemma ParseAttributesUniqueKeys(mods: string, params: string)
    ensures UniqueKeys(ParseAttributesSpec(mods, params))
  {
    if params != "" && !IsCountParam(params) {
      ApplyParamsKeepsOthers(ClassAttrs(mods), ScanParams(params, 0));
    }
  }

  /** The class is the non-blank dot-separated class names joined by single spaces, in
      order, and it is the first attribute, unless a parameter named `class` reassigns it. */
  lemma ParseAttributesClass(mods: string, params: string)
    requires |ClassNames(mods)| > 0
    requires "class" !in ParamNames(ScanParams(params, 0))
    ensures var r := ParseAttributesSpec(mods, params);
      |r| > 0 && r[0].0 == "class" && Lookup(r, "class") == Some(Join(ClassNames(mods), " "))
  {
    var base := ClassAttrs(mods);
    assert Keys(base) == ["class"];
    assert Lookup(base, "class") == Some(Join(ClassNames(mods), " "));
    if params != "" {
      if IsCountParam(params) {
        PutKeepsOthers(base, "count", Trim(params));
      } else {
        ApplyParamsKeepsOthers(base, ScanParams(params, 0));
      }
    }
  }

  /** A colon-free parameter text that trims to `divider` or to digits yields only
      `count`, holding the trimmed text, after the class. */
  lemma ParseAttributesCount(mods: string, params: string)
    requires params != "" && !Occurs(params, ':')
    requires Trim(params) == "divider" || (Trim(params) != "" && AllDigits(Trim(params)))
    ensures ParseAttributesSpec(mods, params) == ClassAttrs(mods) + [("count", Trim(params))]
  {
    var base := ClassAttrs(mods);
    assert KeyFrom(base, "count", 0) == None;
  }

  /** Any other colon-free parameter text adds nothing but the class. */
  lemma ParseAttributesNoColon(mods: string, params: string)
    requires !Occurs(params, ':') && !IsCountParam(params)
    ensures ParseAttributesSpec(mods, params) == ClassAttrs(mods)
  {
    ScanParamsNoColon(params, 0);
  }

  /** The last parameter given for a name decides its value: its key is renamed and its
      value stored (as a flag for `required`/`disabled`). */
  lemma {:induction false} ApplyParamsLastWins(a: Attrs, ps: seq<(string, string)>)
    requires |ps| > 0 && !IsStyleKey(ps[|ps| - 1].0)
    requires forall i :: 0 <= i < |ps| - 1 ==> Rename(ps[i].0) != Rename(ps[|ps| - 1].0)
    ensures Lookup(ApplyParams(a, ps), Rename(ps[|ps| - 1].0)) == Some(ParamValue(ps[|ps| - 1].0, ps[|ps| - 1].1))
    decreases |ps|
  {
    var last := ps[|ps| - 1];
    if |ps| == 1 {
      assert ApplyParams(a, ps) == ApplyParam(a, last.0, last.1);
      PutLaws(a, Rename(last.0), ParamValue(last.0, last.1));
    } else {
      var b := ApplyParam(a, ps[0].0, ps[0].1);
      assert ps[1..][|ps[1..]| - 1] == last;
      forall i | 0 <= i < |ps[1..]| - 1 ensures Rename(ps[1..][i].0) != Rename(last.0) {
        assert ps[1..][i] == ps[i + 1];
      }
      ApplyParamsLastWins(b, ps[1..]);
    }
  }

  /** The style text the style keys among `ps` contribute, in order. */
  function StyleText(ps: seq<(string, string)>): string
  {
    if |ps| == 0 then ""
    else (if IsStyleKey(ps[0].0) then StyleDeclaration(ps[0].0, ps[0].1) else "") + StyleText(ps[1..])
  }

  /** `textcolor`, `bgcolor` and `radius` append their declarations to the style and
      never overwrite it: only a parameter literally named `style` could. */
  lemma {:induction false} ApplyParamsStyle(a: Attrs, ps: seq<(string, string)>)
    requires forall i :: 0 <= i < |ps| ==> ps[i].0 != "style"
    ensures ValueOf(ApplyParams(a, ps), "style") == ValueOf(a, "style") + StyleText(ps)
    decreases |ps|
  {
    if |ps| > 0 {
      var p, rest := ps[0], ps[1..];
      var b := ApplyParam(a, p.0, p.1);
      var d := if IsStyleKey(p.0) then StyleDeclaration(p.0, p.1) else "";
      ApplyParamStyle(a, p.0, p.1);
      assert forall i :: 0 <= i < |rest| ==> rest[i].0 != "style" by {
        forall i | 0 <= i < |rest| ensures rest[i].0 != "style" {
          assert rest[i] == ps[i + 1];
        }
      }
      ApplyParamsStyle(b, rest);
      assert ApplyParams(a, ps) == ApplyParams(b, rest);
      assert StyleText(ps) == d + StyleText(rest);
      var x, y := ValueOf(a, "style"), StyleText(rest);
      assert ValueOf(b, "style") == x + d;
      AppendAssoc(x, d, y);
    }
  }

  lemma ApplyParamStyle(a: Attrs, k: string, v: string)
    requires k != "style"
    ensures ValueOf(ApplyParam(a, k, v), "style")
      == ValueOf(a, "style") + (if IsStyleKey(k) then StyleDeclaration(k, v) else "")
  {
    if IsStyleKey(k) {
      PutLaws(a, "style", ValueOf(a, "style") + StyleDeclaration(k, v));
    } else {
      assert Rename(k) != "style";
      PutLaws(a, Rename(k), ParamValue(k, v));
    }
  }

  /** `r`'s value for `k` extends `a`'s. */
  predicate Extends(a: Attrs, r: Attrs, k: string) {
    StartsWith(ValueOf(r, k), ValueOf(a, k))
  }

  lemma ImageStepKeepsOthers(a: Attrs, m: Mod)
    ensures KeepsOthers(a, ImageModifierStep(a, m), {"style", "class"})
    ensures Extends(a, ImageModifierStep(a, m), "style") && Extends(a, ImageModifierStep(a, m), "class")
  {
    var b := ImageStyleStep(a, m);
    var r := ImageClassStep(b, m);
    ImageStyleStepKeepsOthers(a, m);
    ImageClassStepKeepsOthers(b, m);
    KeepsOthersTrans(a, b, r, {"style", "class"}, {"style", "class"}, {"style", "class"});
    StartsWithTrans(ValueOf(r, "style"), ValueOf(b, "style"), ValueOf(a, "style"));
    StartsWithTrans(ValueOf(r, "class"), ValueOf(b, "class"), ValueOf(a, "class"));
  }

  lemma ImageStyleStepKeepsOthers(a: Attrs, m: Mod)
    ensures KeepsOthers(a, ImageStyleStep(a, m), {"style", "class"})
    ensures Extends(a, ImageStyleStep(a, m), "style") && Extends(a, ImageStyleStep(a, m), "class")
  {
    StartsWithAppend(ValueOf(a, "style"), "");
    StartsWithAppend(ValueOf(a, "class"), "");
    if ImageStyleOf(m).Some? {
      var cur := ValueOf(a, "style");
      StartsWithAppend(cur, ImageStyleOf(m).value);
      PutExtends(a, "style", cur + ImageStyleOf(m).value, "class", {"style", "class"});
    }
  }

  lemma ImageClassStepKeepsOthers(a: Attrs, m: Mod)
    ensures KeepsOthers(a, ImageClassStep(a, m), {"style", "class"})
    ensures Extends(a, ImageClassStep(a, m), "style") && Extends(a, ImageClassStep(a, m), "class")
  {
    StartsWithAppend(ValueOf(a, "style"), "");
    StartsWithAppend(ValueOf(a, "class"), "");
    if ImageClassOf(m).Some? {
      var c := ImageClassOf(m).value;
      var cur := ValueOf(a, "class");
      if cur == "" {
        StartsWithAppend(c, "");
      } else {
        StartsWithAppend(cur, " ");
        StartsWithAppend(cur + " ", c);
        StartsWithTrans(cur + " " + c, cur + " ", cur);
      }
      PutExtends(a, "class", if cur == "" then c else cur + " " + c, "style", {"style", "class"});
    }
  }

  /** Setting `k` to an extension of its current value keeps the others and extends both
      `k` and any other name `o`. */
  lemma PutExtends(a: Attrs, k: string, v: string, o: string, changed: set<string>)
    requires StartsWith(v, ValueOf(a, k)) && k in changed && o != k
    ensures KeepsOthers(a, Put(a, k, v), changed)
    ensures Extends(a, Put(a, k, v), k) && Extends(a, Put(a, k, v), o)
  {
    PutLaws(a, k, v);
    StartsWithAppend(ValueOf(a, o), "");
  }

  lemma AppendStyleKeepsOthers(a: Attrs, x: string)
    ensures KeepsOthers(a, AppendStyle(a, x), {"style"}) && Extends(a, AppendStyle(a, x), "style")
  {
    PutKeepsOthers(a, "style", ValueOf(a, "style") + x);
  }

  lemma {:induction false} ImageStepsKeepOthers(a: Attrs, ms: seq<Mod>)
    ensures KeepsOthers(a, ImageModifierSteps(a, ms), {"style", "class"})
    ensures Extends(a, ImageModifierSteps(a, ms), "style") && Extends(a, ImageModifierSteps(a, ms), "class")
    decreases |ms|
  {
    if |ms| > 0 {
      var b := ImageModifierStep(a, ms[0]);
      var r := ImageModifierSteps(a, ms);
      ImageStepKeepsOthers(a, ms[0]);
      ImageStepsKeepOthers(b, ms[1..]);
      KeepsOthersTrans(a, b, r, {"style", "class"}, {"style", "class"}, {"style", "class"});
      StartsWithTrans(ValueOf(r, "style"), ValueOf(b, "style"), ValueOf(a, "style"));
      StartsWithTrans(ValueOf(r, "class"), ValueOf(b, "class"), ValueOf(a, "class"));
    }
  }

  lemma StartsWithTrans(s: string, t: string, u: string)
    requires StartsWith(s, t) && StartsWith(t, u)
    ensures StartsWith(s, u)
  {
    assert s[..|u|] == t[..|u|];
  }

  /** `processImageModifiers` only extends `style` and `class`: the names already there
      keep their places, names stay unique, every other attribute keeps its value, the
      old style and class texts are prefixes of the new ones, and a non-empty chain
      always leaves a `style` attribute. */
  lemma ImageModifiersOnlyExtend(a: Attrs, mods: string)
    ensures var r := ImageModifiersSpec(a, mods);
      KeepsOthers(a, r, {"style", "class"}) && Extends(a, r, "style") && Extends(a, r, "class")
      && (mods != "" ==> "style" in Keys(r))
  {
    if mods != "" {
      var w := WithStyle(a);
      var r := ImageModifierSteps(w, ScanModifiers(mods));
      WithStyleKeepsOthers(a);
      ImageStepsKeepOthers(w, ScanModifiers(mods));
      KeepsOthersTrans(a, w, r, {"style", "class"}, {"style", "class"}, {"style", "class"});
      StartsWithTrans(ValueOf(r, "style"), ValueOf(w, "style"), ValueOf(a, "style"));
      StartsWithTrans(ValueOf(r, "class"), ValueOf(w, "class"), ValueOf(a, "class"));
      PrefixKeys(Keys(w), Keys(r), "style");
    } else {
      StartsWithAppend(ValueOf(a, "style"), "");
      StartsWithAppend(ValueOf(a, "class"), "");
    }
  }

  lemma WithStyleKeepsOthers(a: Attrs)
    ensures KeepsOthers(a, WithStyle(a), {"style", "class"})
    ensures Extends(a, WithStyle(a), "style") && Extends(a, WithStyle(a), "class")
    ensures "style" in Keys(WithStyle(a))
  {
    StartsWithAppend(ValueOf(a, "style"), "");
    StartsWithAppend(ValueOf(a, "class"), "");
    if ValueOf(a, "style") == "" {
      PutExtends(a, "style", "", "class", {"style", "class"});
      PutLaws(a, "style", "");
    }
  }

  lemma PrefixKeys(p: seq<string>, q: seq<string>, k: string)
    requires p <= q && k in p
    ensures k in q
  {
    var i :| 0 <= i < |p| && p[i] == k;
    assert q[i] == k;
  }
}
