/** The editor's suggestion lists: the fuzzy in-order filter with its ranking
    (`getElementSuggestions`, `getModifierSuggestions`, `getParameterSuggestions`),
    the substring filters of the suggestion popup and its wrap-around selection. */
module Suggestions {
  import opened Text
  import opened Scanners

  datatype Kind = Element | Modifier | Param

  /** A suggestion: the text it is matched on, the text it is shown as, its kind. */
  datatype Suggestion = Suggestion(text: string, display: string, kind: Kind)

  const ElementTable: seq<Suggestion> := [
    Suggestion("heading1", "heading1", Element),
    Suggestion("heading2", "heading2", Element),
    Suggestion("heading3", "heading3", Element),
    Suggestion("heading4", "heading4", Element),
    Suggestion("heading5", "heading5", Element),
    Suggestion("heading6", "heading6", Element),
    Suggestion("title", "title", Element),
    Suggestion("subtitle", "subtitle", Element),
    Suggestion("paragraph", "paragraph", Element),
    Suggestion("list", "list", Element),
    Suggestion("orderedlist", "orderedlist", Element),
    Suggestion("item", "item", Element),
    Suggestion("image", "image", Element),
    Suggestion("link", "link", Element),
    Suggestion("divider", "divider", Element),
    Suggestion("divider with thickness", "divider with thickness", Element),
    Suggestion("linebreak", "linebreak", Element),
    Suggestion("linebreak with count", "linebreak with count", Element),
    Suggestion("linebreak multiple", "linebreak(3)", Element),
    Suggestion("quote", "quote", Element),
    Suggestion("code", "code", Element),
    Suggestion("preformatted", "preformatted", Element),
    Suggestion("group", "group", Element),
    Suggestion("span", "span", Element),
    Suggestion("table", "table", Element),
    Suggestion("button", "button", Element),
    Suggestion("form", "form", Element),
    Suggestion("input", "input", Element)
  ]

  const ModifierTable: seq<Suggestion> := [
    Suggestion("bold", ".bold", Modifier),
    Suggestion("italic", ".italic", Modifier),
    Suggestion("underline", ".underline", Modifier),
    Suggestion("code", ".code", Modifier),
    Suggestion("strikethrough", ".strikethrough", Modifier),
    Suggestion("highlight", ".highlight", Modifier),
    Suggestion("highlight with color", ".highlight(...)", Modifier),
    Suggestion("textcolor", ".textcolor(...)", Modifier),
    Suggestion("font", ".font(...)", Modifier),
    Suggestion("font sans", ".font(.sans)", Modifier),
    Suggestion("font serif", ".font(.serif)", Modifier),
    Suggestion("font monospace", ".font(.monospace)", Modifier),
    Suggestion("size", ".size(...)", Modifier),
    Suggestion("radius", ".radius(...)", Modifier)
  ]

  const ParameterTable: seq<Suggestion> := [
    Suggestion("target", "target: \"...\"", Param),
    Suggestion("source", "source: \"...\"", Param),
    Suggestion("alt", "alt: \"...\"", Param),
    Suggestion("width", "width: \"...\"", Param),
    Suggestion("height", "height: \"...\"", Param),
    Suggestion("color", "color: \"...\"", Param),
    Suggestion("size", "size: \"...\"", Param),
    Suggestion("type", "type: \"...\"", Param),
    Suggestion("placeholder", "placeholder: \"...\"", Param),
    Suggestion("textcolor", "textcolor: \"...\"", Param),
    Suggestion("bgcolor", "bgcolor: \"...\"", Param),
    Suggestion("radius", "radius: \"...\"", Param),
    Suggestion("thickness", "thickness: \"...\"", Param),
    Suggestion("count", "count: \"...\"", Param),
    Suggestion("id", "id: \"...\"", Param),
    Suggestion("do", "do: \"...\"", Param)
  ]

  // ---------------------------------------------------------------------
  // In-order matching
  // ---------------------------------------------------------------------

  /** `t.indexOf(c, j)`: the first position at or after `j` holding `c`. */
  function IndexOfChar(t: string, c: char, j: nat): (r: Option<nat>)
    requires j <= |t|
    ensures r.Some? ==> j <= r.value < |t| && t[r.value] == c
    ensures r.Some? ==> forall p :: j <= p < r.value ==> t[p] != c
    ensures r.None? ==> forall p :: j <= p < |t| ==> t[p] != c
    decreases |t| - j
  {
    if j == |t| then None else if t[j] == c then Some(j) else IndexOfChar(t, c, j + 1)
  }

  /** `f` places the characters of `w` at increasing positions of `t`. */
  predicate IsEmbedding(f: seq<int>, w: string, t: string) {
    |f| == |w|
    && (forall k :: 0 <= k < |f| ==> 0 <= f[k] < |t| && t[f[k]] == w[k])
    && (forall a, b :: 0 <= a < b < |f| ==> f[a] < f[b])
  }

  /** The letters of `w` occur in `t` in order, not necessarily next to each other. */
  ghost predicate InOrder(w: string, t: string) {
    exists f :: IsEmbedding(f, w, t)
  }

  /** The filter callback: the greedy `indexOf` scan decides exactly whether the
      word's letters occur in order in the text. */
  method FuzzyMatch(word: string, text: string) returns (found: bool)
    ensures found <==> InOrder(word, text)
  {
    var j := 0;
    ghost var f: seq<int> := [];
    var i := 0;
    while i < |word|
      invariant 0 <= i <= |word| && 0 <= j <= |text|
      invariant IsEmbedding(f, word[..i], text)
      invariant forall k :: 0 <= k < |f| ==> f[k] < j
      invariant forall g :: IsEmbedding(g, word, text) ==> forall k :: i <= k < |word| ==> g[k] >= j
      decreases |word| - i
    {
      var r := IndexOfChar(text, word[i], j);
      if r.None? {
        EmbeddedLetter(word, text, i, j);
        return false;
      }
      GreedyStep(word, text, i, j, r.value);
      EmbeddingSnoc(f, word, text, i, r.value);
      f := f + [r.value];
      j := r.value + 1;
      i := i + 1;
    }
    assert word[..i] == word;
    return true;
  }

  /** Any embedding places `word[i]` somewhere from `j` on. */
  lemma EmbeddedLetter(word: string, text: string, i: nat, j: nat)
    requires i < |word|
    requires forall g :: IsEmbedding(g, word, text) ==> forall k :: i <= k < |word| ==> g[k] >= j
    ensures InOrder(word, text) ==> exists p :: j <= p < |text| && text[p] == word[i]
  {
    if InOrder(word, text) {
      var g :| IsEmbedding(g, word, text);
      assert j <= g[i] < |text| && text[g[i]] == word[i];
    }
  }

  /** Taking the first occurrence `p` of `word[i]` leaves every embedding of the
      rest of the word after `p`. */
  lemma GreedyStep(word: string, text: string, i: nat, j: nat, p: nat)
    requires i < |word| && j <= p < |text| && text[p] == word[i]
    requires forall q :: j <= q < p ==> text[q] != word[i]
    requires forall g :: IsEmbedding(g, word, text) ==> forall k :: i <= k < |word| ==> g[k] >= j
    ensures forall g :: IsEmbedding(g, word, text) ==> forall k :: i + 1 <= k < |word| ==> g[k] >= p + 1
  {
    forall g | IsEmbedding(g, word, text) ensures forall k :: i + 1 <= k < |word| ==> g[k] >= p + 1 {
      assert g[i] >= j && text[g[i]] == word[i];
      assert g[i] >= p;
      forall k | i + 1 <= k < |word| ensures g[k] >= p + 1 {
        assert g[i] < g[k];
      }
    }
  }

  lemma EmbeddingSnoc(f: seq<int>, word: string, text: string, i: nat, p: nat)
    requires i < |word| && p < |text| && text[p] == word[i]
    requires IsEmbedding(f, word[..i], text)
    requires forall k :: 0 <= k < |f| ==> f[k] < p
    ensures IsEmbedding(f + [p], word[..i + 1], text)
  {
    assert word[..i + 1] == word[..i] + [word[i]];
  }

  // ---------------------------------------------------------------------
  // Ranking: prefix matches first, then shorter texts, stable
  // ---------------------------------------------------------------------

  /** 0 for a text that starts with the word, 1 otherwise. */
  function Rank(x: Suggestion, word: string): nat {
    if StartsWith(Lower(x.text), word) then 0 else 1
  }

  /** The comparator's verdict `cmp(x, y) <= 0`: `x` may stay in front of `y`. */
  predicate Before(x: Suggestion, y: Suggestion, word: string) {
    Rank(x, word) < Rank(y, word) || (Rank(x, word) == Rank(y, word) && |x.text| <= |y.text|)
  }

  predicate Ranked(xs: seq<Suggestion>, word: string) {
    forall a, b :: 0 <= a < b < |xs| ==> Before(xs[a], xs[b], word)
  }

  /** `x` placed after every element of the ranked `s` that may stay in front of it. */
  function InsertRanked(s: seq<Suggestion>, x: Suggestion, word: string): seq<Suggestion>
    decreases |s|
  {
    if s == [] || Before(s[|s| - 1], x, word) then s + [x]
    else InsertRanked(s[..|s| - 1], x, word) + [s[|s| - 1]]
  }

  /** `Array.prototype.sort` with the ranking comparator; the sort is stable. */
  function RankSort(xs: seq<Suggestion>, word: string): seq<Suggestion>
    decreases |xs|
  {
    if xs == [] then [] else InsertRanked(RankSort(xs[..|xs| - 1], word), xs[|xs| - 1], word)
  }

  lemma {:induction false} InsertRankedPermutes(s: seq<Suggestion>, x: Suggestion, word: string)
    ensures multiset(InsertRanked(s, x, word)) == multiset(s) + multiset{x}
    decreases |s|
  {
    if !(s == [] || Before(s[|s| - 1], x, word)) {
      InsertRankedPermutes(s[..|s| - 1], x, word);
      assert s == s[..|s| - 1] + [s[|s| - 1]];
    }
  }

  lemma {:induction false} InsertRankedKeepsOrder(s: seq<Suggestion>, x: Suggestion, word: string)
    requires Ranked(s, word)
    ensures Ranked(InsertRanked(s, x, word), word)
    decreases |s|
  {
    if s != [] {
      var last := s[|s| - 1];
      if Before(last, x, word) {
        var r := s + [x];
        forall a, b | 0 <= a < b < |r| ensures Before(r[a], r[b], word) {
          if b == |s| && a < |s| - 1 {
            assert Before(s[a], last, word);
          }
        }
      } else {
        var init := s[..|s| - 1];
        assert Ranked(init, word);
        InsertRankedKeepsOrder(init, x, word);
        InsertRankedPermutes(init, x, word);
        AppendBehind(InsertRanked(init, x, word), init, x, last, word);
      }
    }
  }

  /** Appending `last` keeps the order when every element is allowed in front of it. */
  lemma AppendBehind(r: seq<Suggestion>, init: seq<Suggestion>, x: Suggestion, last: Suggestion, word: string)
    requires Ranked(r, word) && multiset(r) == multiset(init) + multiset{x}
    requires forall k :: 0 <= k < |init| ==> Before(init[k], last, word)
    requires !Before(last, x, word)
    ensures Ranked(r + [last], word)
  {
    var t := r + [last];
    forall a, b | 0 <= a < b < |t| ensures Before(t[a], t[b], word) {
      if b == |r| {
        var y := r[a];
        assert y in multiset(r);
        if y != x {
          assert y in multiset(init);
          assert y in init;
        }
      }
    }
  }

  /** The sort only reorders. */
  lemma {:induction false} RankSortPermutes(xs: seq<Suggestion>, word: string)
    ensures multiset(RankSort(xs, word)) == multiset(xs)
    decreases |xs|
  {
    if xs != [] {
      RankSortPermutes(xs[..|xs| - 1], word);
      InsertRankedPermutes(RankSort(xs[..|xs| - 1], word), xs[|xs| - 1], word);
      assert xs == xs[..|xs| - 1] + [xs[|xs| - 1]];
    }
  }

  /** After the sort every prefix match comes first, and texts within each group
      come in non-decreasing length. */
  lemma {:induction false} RankSortRanks(xs: seq<Suggestion>, word: string)
    ensures Ranked(RankSort(xs, word), word)
    decreases |xs|
  {
    if xs != [] {
      RankSortRanks(xs[..|xs| - 1], word);
      InsertRankedKeepsOrder(RankSort(xs[..|xs| - 1], word), xs[|xs| - 1], word);
    }
  }

  /** The elements of `xs` with the given rank and text length, in order. */
  function WithKey(xs: seq<Suggestion>, rank: nat, len: nat, word: string): seq<Suggestion>
    decreases |xs|
  {
    if xs == [] then []
    else
      var x := xs[|xs| - 1];
      WithKey(xs[..|xs| - 1], rank, len, word) + (if Rank(x, word) == rank && |x.text| == len then [x] else [])
  }

  lemma {:induction false} InsertRankedStable(s: seq<Suggestion>, x: Suggestion, rank: nat, len: nat, word: string)
    ensures WithKey(InsertRanked(s, x, word), rank, len, word)
      == WithKey(s, rank, len, word) + (if Rank(x, word) == rank && |x.text| == len then [x] else [])
    decreases |s|
  {
    if s == [] || Before(s[|s| - 1], x, word) {
      assert (s + [x])[..|s|] == s;
    } else {
      var init, last := s[..|s| - 1], s[|s| - 1];
      InsertRankedStable(init, x, rank, len, word);
      var t := InsertRanked(init, x, word);
      assert (t + [last])[..|t|] == t;
    }
  }

  /** The sort is stable: among suggestions with the same rank and length, the
      table order is kept. */
  lemma {:induction false} RankSortStable(xs: seq<Suggestion>, rank: nat, len: nat, word: string)
    ensures WithKey(RankSort(xs, word), rank, len, word) == WithKey(xs, rank, len, word)
    decreases |xs|
  {
    if xs != [] {
      RankSortStable(xs[..|xs| - 1], rank, len, word);
      InsertRankedStable(RankSort(xs[..|xs| - 1], word), xs[|xs| - 1], rank, len, word);
    }
  }

  // ---------------------------------------------------------------------
  // The suggestion functions
  // ---------------------------------------------------------------------

  /** The items the fuzzy filter keeps, in their table order. */
  ghost function FuzzyFiltered(items: seq<Suggestion>, word: string): (r: seq<Suggestion>)
    ensures multiset(r) <= multiset(items)
  {
    if items == [] then []
    else
      var rest := FuzzyFiltered(items[1..], word);
      assert items == [items[0]] + items[1..];
      if InOrder(word, Lower(items[0].text)) then [items[0]] + rest else rest
  }

  /** What a suggestion function returns for the typed `word`, if any: the whole
      table when there is none, the filtered and sorted table otherwise. */
  ghost function SuggestionsFor(table: seq<Suggestion>, word: Option<string>): seq<Suggestion> {
    if word.None? then table else RankSort(FuzzyFiltered(table, word.value), word.value)
  }

  /** The `filter(...).sort(...)` composition, and the whole table without a word. */
  method Suggest(table: seq<Suggestion>, word: Option<string>) returns (r: seq<Suggestion>)
    ensures r == SuggestionsFor(table, word)
  {
    if word.None? {
      return table;
    }
    var w := word.value;
    var kept: seq<Suggestion> := [];
    var i := 0;
    while i < |table|
      invariant i <= |table|
      invariant kept + FuzzyFiltered(table[i..], w) == FuzzyFiltered(table, w)
      decreases |table| - i
    {
      FuzzyFilteredStep(table, i, w);
      var keep := FuzzyMatch(w, Lower(table[i].text));
      if keep {
        kept := kept + [table[i]];
      }
      i := i + 1;
    }
    assert table[i..] == [];
    assert kept == FuzzyFiltered(table, w);
    r := RankSort(kept, w);
  }

  lemma FuzzyFilteredStep(table: seq<Suggestion>, i: nat, w: string)
    requires i < |table|
    ensures FuzzyFiltered(table[i..], w)
      == (if InOrder(w, Lower(table[i].text)) then [table[i]] else []) + FuzzyFiltered(table[i + 1..], w)
  {
    assert table[i..][1..] == table[i + 1..];
  }

  /** `text.match(/\w+$/)`, lowered: the word being typed at the end of the line. */
  function ElementWord(text: string): (r: Option<string>)
    ensures r.Some? ==> r.value != []
  {
    var n := TrailingWordRun(text);
    if n == 0 then None else Some(Lower(text[|text| - n..]))
  }

  /** The non-empty word after a final `.` (`/\.(\w*)$/`), lowered. */
  function ModifierWord(text: string): (r: Option<string>)
    ensures r.Some? ==> r.value != []
  {
    WordAfter(text, '.')
  }

  /** The non-empty word after a final `(` (`/\((\w*)$/`), lowered. */
  function ParameterWord(text: string): (r: Option<string>)
    ensures r.Some? ==> r.value != []
  {
    WordAfter(text, '(')
  }

  /** The word characters that end `text`, when `c` comes right before them and
      there is at least one. */
  function WordAfter(text: string, c: char): (r: Option<string>)
    ensures r.Some? ==> r.value != []
  {
    var n := TrailingWordRun(text);
    if n == 0 || n == |text| || text[|text| - n - 1] != c then None else Some(Lower(text[|text| - n..]))
  }

  method GetElementSuggestions(text: string) returns (r: seq<Suggestion>)
    ensures r == SuggestionsFor(ElementTable, ElementWord(text))
  {
    r := Suggest(ElementTable, ElementWord(text));
  }

  method GetModifierSuggestions(text: string) returns (r: seq<Suggestion>)
    ensures r == SuggestionsFor(ModifierTable, ModifierWord(text))
  {
    r := Suggest(ModifierTable, ModifierWord(text));
  }

  method GetParameterSuggestions(text: string) returns (r: seq<Suggestion>)
    ensures r == SuggestionsFor(ParameterTable, ParameterWord(text))
  {
    r := Suggest(ParameterTable, ParameterWord(text));
  }

  /** An item survives the fuzzy filter exactly when the word's letters occur in
      order in its lowered text. */
  lemma {:induction false} FuzzyFilteredMembers(items: seq<Suggestion>, word: string, x: Suggestion)
    ensures x in FuzzyFiltered(items, word) <==> x in items && InOrder(word, Lower(x.text))
  {
    if items != [] {
      FuzzyFilteredMembers(items[1..], word, x);
      assert items == [items[0]] + items[1..];
    }
  }

  /** With a word, the result is a reordering of the surviving items: no item is
      invented or repeated, every survivor appears, and the order is the ranking. */
  lemma SuggestionsWithWord(table: seq<Suggestion>, w: string)
    ensures var r := SuggestionsFor(table, Some(w));
      multiset(r) == multiset(FuzzyFiltered(table, w))
      && multiset(r) <= multiset(table)
      && Ranked(r, w)
  {
    RankSortPermutes(FuzzyFiltered(table, w), w);
    RankSortRanks(FuzzyFiltered(table, w), w);
  }

  /** A suggestion is offered for the word exactly when it is in the table and
      the word's letters occur in order in its text. */
  lemma SuggestedIff(table: seq<Suggestion>, w: string, x: Suggestion)
    ensures x in SuggestionsFor(table, Some(w)) <==> x in table && InOrder(w, Lower(x.text))
  {
    var f := FuzzyFiltered(table, w);
    RankSortPermutes(f, w);
    assert x in RankSort(f, w) <==> x in multiset(RankSort(f, w));
    assert x in f <==> x in multiset(f);
    FuzzyFilteredMembers(table, w, x);
  }

  /** Prefix matches come first: a suggestion starting with the word is never
      placed after one that does not. */
  lemma PrefixMatchesFirst(table: seq<Suggestion>, w: string, a: nat, b: nat)
    requires var r := SuggestionsFor(table, Some(w)); a < b < |r|
    ensures var r := SuggestionsFor(table, Some(w));
      (StartsWith(Lower(r[b].text), w) ==> StartsWith(Lower(r[a].text), w))
      && (StartsWith(Lower(r[a].text), w) == StartsWith(Lower(r[b].text), w) ==> |r[a].text| <= |r[b].text|)
  {
    RankSortRanks(FuzzyFiltered(table, w), w);
  }

  /** The element word is missing exactly when the text does not end in a word
      character, and then the whole table is offered in its order. */
  lemma NoElementWord(text: string)
    ensures ElementWord(text).None? <==> text == [] || !IsWordChar(text[|text| - 1])
    ensures ElementWord(text).None? ==> SuggestionsFor(ElementTable, ElementWord(text)) == ElementTable
  {
  }

  /** The word after a final `.` or `(` is what follows it, lowered; with nothing
      after it there is no word and the whole table is offered. */
  lemma WordAfterMark(prefix: string, c: char, w: string)
    requires !IsWordChar(c) && (w == [] || IsWord(w))
    ensures WordAfter(prefix + [c] + w, c) == if w == [] then None else Some(Lower(w))
  {
    var t := prefix + [c] + w;
    if w != [] {
      forall p | |t| - |w| <= p < |t| ensures IsWordChar(t[p]) { assert t[p] == w[p - (|t| - |w|)]; }
      TrailingRunExact(t, |w|);
      assert t[|t| - |w|..] == w;
    } else {
      assert t[|t| - 1] == c;
    }
  }

  lemma {:induction false} TrailingRunExact(t: string, n: nat)
    requires n < |t| && !IsWordChar(t[|t| - n - 1])
    requires forall p :: |t| - n <= p < |t| ==> IsWordChar(t[p])
    ensures TrailingWordRun(t) == n
    decreases n
  {
    if n > 0 {
      var u := t[..|t| - 1];
      assert u[|u| - (n - 1) - 1] == t[|t| - n - 1];
      TrailingRunExact(u, n - 1);
    }
  }

  // ---------------------------------------------------------------------
  // The popup's substring filters
  // ---------------------------------------------------------------------

  /** `items.filter(x => x.text.toLowerCase().includes(prefix.toLowerCase()))`, or
      all items for an empty prefix. */
  function IncludesFiltered(items: seq<Suggestion>, prefix: string): (r: seq<Suggestion>)
    ensures prefix == "" ==> r == items
  {
    if prefix == "" then items else ContainsFiltered(items, Lower(prefix))
  }

  function ContainsFiltered(items: seq<Suggestion>, w: string): (r: seq<Suggestion>)
    ensures |r| <= |items|
  {
    if items == [] then []
    else if Includes(Lower(items[0].text), w) then [items[0]] + ContainsFiltered(items[1..], w)
    else ContainsFiltered(items[1..], w)
  }

  /** A substring match is also an in-order match: the popup's filter keeps
      nothing the fuzzy filter would drop. */
  lemma ContainsIsInOrder(t: string, w: string)
    requires Includes(t, w)
    ensures InOrder(w, t)
  {
    var i :| 0 <= i <= |t| - |w| && At(t, i, w);
    var f := seq(|w|, k => i + k);
    forall k | 0 <= k < |w| ensures t[f[k]] == w[k] {
      assert t[i..i + |w|][k] == t[i + k];
    }
    assert IsEmbedding(f, w, t);
  }

  /** An item passes the substring filter exactly when its lowered text contains
      the word. */
  lemma {:induction false} ContainsFilteredMembers(items: seq<Suggestion>, w: string, x: Suggestion)
    ensures x in ContainsFiltered(items, w) <==> x in items && Includes(Lower(x.text), w)
  {
    if items != [] {
      ContainsFilteredMembers(items[1..], w, x);
      assert items == [items[0]] + items[1..];
    }
  }

  lemma SubstringWithinFuzzy(items: seq<Suggestion>, w: string, x: Suggestion)
    requires x in ContainsFiltered(items, w)
    ensures x in FuzzyFiltered(items, w)
  {
    ContainsFilteredMembers(items, w, x);
    ContainsIsInOrder(Lower(x.text), w);
    FuzzyFilteredMembers(items, w, x);
  }

  // ---------------------------------------------------------------------
  // Selection
  // ---------------------------------------------------------------------

  function NextIndex(i: int, n: nat): int {
    if n == 0 then i else (i + 1) % n
  }

  function PreviousIndex(i: int, n: nat): int {
    if n == 0 then i else (i - 1 + n) % n
  }

  /** The popup's list and the highlighted entry. */
  class SuggestionList {
    var suggestions: seq<Suggestion>
    var selectedIndex: int

    predicate Valid()
      reads this
    {
      |suggestions| == 0 || 0 <= selectedIndex < |suggestions|
    }

    constructor()
      ensures suggestions == [] && selectedIndex == 0 && Valid()
    {
      suggestions := [];
      selectedIndex := 0;
    }

    /** `show`: a new list with its first entry highlighted. */
    method Show(items: seq<Suggestion>)
      modifies this
      ensures suggestions == items && selectedIndex == 0 && Valid()
    {
      suggestions := items;
      selectedIndex := 0;
    }

    /** `selectNext`: one entry down, from the last back to the first. */
    method SelectNext()
      requires Valid()
      modifies this
      ensures Valid() && suggestions == old(suggestions)
      ensures selectedIndex == NextIndex(old(selectedIndex), |suggestions|)
    {
      if |suggestions| == 0 {
        return;
      }
      selectedIndex := (selectedIndex + 1) % |suggestions|;
    }

    /** `selectPrevious`: one entry up, from the first back to the last. */
    method SelectPrevious()
      requires Valid()
      modifies this
      ensures Valid() && suggestions == old(suggestions)
      ensures selectedIndex == PreviousIndex(old(selectedIndex), |suggestions|)
    {
      if |suggestions| == 0 {
        return;
      }
      selectedIndex := (selectedIndex - 1 + |suggestions|) % |suggestions|;
    }
  }

  // ---------------------------------------------------------------------
  // Selection properties
  // ---------------------------------------------------------------------

  /** Both moves stay within the list. */
  lemma MovesStayInRange(i: int, n: nat)
    requires 0 <= i < n
    ensures 0 <= NextIndex(i, n) < n && 0 <= PreviousIndex(i, n) < n
  {
  }

  /** Moving down then up, or up then down, comes back to the same entry. */
  lemma MovesUndoEachOther(i: int, n: nat)
    requires 0 <= i < n
    ensures PreviousIndex(NextIndex(i, n), n) == i
    ensures NextIndex(PreviousIndex(i, n), n) == i
  {
    MovesWrap(i, n);
    var j, k := NextIndex(i, n), PreviousIndex(i, n);
    MovesWrap(j, n);
    MovesWrap(k, n);
  }

  /** Both ends wrap around; elsewhere a move is one step. */
  lemma MovesWrap(i: int, n: nat)
    requires 0 <= i < n
    ensures NextIndex(i, n) == if i == n - 1 then 0 else i + 1
    ensures PreviousIndex(i, n) == if i == 0 then n - 1 else i - 1
  {
    if i == n - 1 {
      ModOfSelf(n);
    } else {
      ModBelow(i + 1, n);
    }
    if i == 0 {
      ModBelow(n - 1, n);
    } else {
      ModAbove(i - 1 + n, n);
    }
  }

  lemma ModBelow(a: int, n: nat)
    requires 0 <= a < n
    ensures a % n == a
  {
  }

  lemma ModOfSelf(n: nat)
    requires n > 0
    ensures n % n == 0
  {
  }

  lemma ModAbove(a: int, n: nat)
    requires n <= a < 2 * n
    ensures a % n == a - n
  {
  }
}
