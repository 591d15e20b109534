# Butterscript, modelled in Dafny

Butterscript is a line-oriented markup that is translated into an HTML fragment.
- Headers such as `name.mod.mod(p) [content]`, `name [` … `]` and `image.round(source: "x.png")` become elements.
- `.class` names and `key: "value"` parameters become attributes.
- Chained modifiers such as `.bold.italic[text]` become nested wrappers.
- A handful of inline forms are rewritten inside the text: images, modifier spans, `snippet[...]`, legacy `{bold}` tags and `[br]`.

The browser editor around the translator suggests completions for the word being typed. It keeps a highlighted entry in its suggestion popup and re-indents the text on demand.

This project models the translator (`ButterscriptParser`) stage by stage:
- **Text** holds the string primitives the translator relies on: trim, split, join, lower and indexOf.
- **Escapes** models three things:
  - HTML escaping and its decoding;
  - comment removal;
  - protection of `\X` escapes as `__ESCAPED_<code>__` markers, and their restoration.
- **Scanners** and **Starts** recognise header shapes and modifier chains. Each regular expression of the source is replaced by an explicit deterministic scanner that keeps the engine's backtracking order. **Starts** also models `parseElementStart`.
- **Snippets** models the expansion of standalone `snippet[...]` lines.
- **Attributes** models the ordered attribute map, in two forms:
  - a value `seq<(string, string)>` with unique keys in JavaScript insertion order;
  - the class `AttributeMap`, whose methods update it in place.
  It also models `parseAttributes` and `processImageModifiers`.
- **Styles** and **Modifiers** model `applyModifier` and `applyFormElementModifier`, and the folding of a modifier chain.
- **Html** and **Emitter** model `attributesToString`, `createHTMLElement` and `processListContent`.
- **Inline** models the six passes of `parseInlineFormatting`.
- **Blocks** models `findBlockEnd` and `parseElements`, as loops with their invariants and a termination measure.
- **Documents** states properties of whole documents.
- **Parser** models `parse`, the composition of all of them.

From the editor (`butterscript-codemirror.js`) it models:
- the fuzzy in-order filter and the prefix-then-length ranking of element, modifier and parameter suggestions;
- the substring filters of the popup;
- the popup's wrap-around selection, as the class `SuggestionList`;
- the indentation loop of `formatCode`.

Operations that work step by step in the source are methods. Each method is proved against a function that specifies it: the line loop, the depth counter, the attribute-filling loop, the snippet-splitting loop, the greedy `indexOf` scan and the indentation loop. Expression-level string building is written as functions, and lemmas state what they guarantee.

The button-to-link rule follows the code rather than the project's description of it. The description says `do: "navigate:https://x.com"` keeps `https://x.com` as the link. The code, however, splits the action at every `:` and takes only the second field, `https`. Because that field cannot hold `://`, the `https?://` test never succeeds, and the link becomes `https://https`. `Emitter.NoProtocolWithoutColon` and `Emitter.AnchorHref` state this behaviour.

## Model

| member | source | states |
|---|---|---|
| Text.Trim | butterscript-js/butterscript-parser.js:507 | `trim()` never lengthens the text and leaves no white space at either end |
| Text.TrimIsMiddle | butterscript-js/butterscript-parser.js:507 | `trim()` returns a slice of its input, with only white space before it and only white space after it |
| Text.TrimEmptyIff | butterscript-js/butterscript-parser.js:509 | a line trims to nothing exactly when it is all white space |
| Text.Split | butterscript-js/butterscript-parser.js:502 | `split` yields at least one piece, and no piece holds the separator |
| Text.JoinSplit | butterscript-js/butterscript-parser.js:502 | joining the pieces of a split with the separator gives back the text |
| Text.SplitJoin | butterscript-js/butterscript-parser.js:814 | splitting pieces joined by a separator they do not hold gives back the pieces |
| Text.NonBlank | butterscript-js/butterscript-parser.js:618 | filtering with `trim()` keeps only pieces that are not blank |
| Text.Lower | butterscript-js/butterscript-codemirror.js:1094 | lowering keeps the length and lowers each character on its own |
| Text.IndexOf | butterscript-js/butterscript-parser.js:208-209 | the first match of a fixed text is found the first occurrence, and reports none only when there is none |
| Escapes.EscapeHtmlIsPerCharacter | butterscript-js/butterscript-parser.js:938-945 | the five global replacements, ampersand first, escape each character on its own |
| Escapes.EscapeOneChar | butterscript-js/butterscript-parser.js:938-945 | a single character escapes to its entity: `&amp;`, `&lt;`, `&gt;`, `&quot;`, `&#039;`, or itself |
| Escapes.EscapeHtmlAppend | butterscript-js/butterscript-parser.js:938-945 | escaping a concatenation is the concatenation of the escapes |
| Escapes.ReplaceCharAppend | butterscript-js/butterscript-parser.js:940-944 | a global single-character replacement distributes over concatenation |
| Escapes.ReplaceCharAbsent | butterscript-js/butterscript-parser.js:940-944 | replacing a character that does not occur changes nothing |
| Escapes.EscapeHtmlIsSafe | butterscript-js/butterscript-parser.js:938-945 | escaped text holds no `<`, `>`, `"` or `'`, and every `&` in it starts one of the five entities |
| Escapes.EscapeCharIsSafe | butterscript-js/butterscript-parser.js:938-945 | one character's escape holds no markup character, and an ampersand only at its head, where an entity starts |
| Escapes.EscapeHtmlRoundTrip | butterscript-js/butterscript-parser.js:938-945 | decoding the five entities gives back the text that was escaped |
| Escapes.DecodeEntity | butterscript-js/butterscript-parser.js:938-945 | each entity at the head of escaped text decodes to its own character and no other |
| Escapes.StripComments | butterscript-js/butterscript-parser.js:20-21 | removing comments never lengthens the input, and input without `<--(` is unchanged |
| Escapes.CommentIsRemoved | butterscript-js/butterscript-parser.js:20-21 | a comment `<--(...)` is removed with its closing parenthesis, whatever it holds |
| Escapes.Decimal | butterscript-js/butterscript-parser.js:24 | the decimal text of a character code is a non-empty run of digits |
| Escapes.DecimalRoundTrip | butterscript-js/butterscript-parser.js:24-32 | `parseInt` of the decimal text of a code gives back the code |
| Escapes.MarkerAt | butterscript-js/butterscript-parser.js:32 | a recognised marker is longer than its fixed text and lies within the input |
| Escapes.MarkerIsRecognised | butterscript-js/butterscript-parser.js:24-32 | the marker written for a character is recognised as that character, with exactly its own length, whatever follows |
| Escapes.ProtectRawPrefix | butterscript-js/butterscript-parser.js:24 | a prefix of the protected text with no two adjacent underscores, not ending in one, was ordinary text of the input |
| Escapes.RestoreProtect | butterscript-js/butterscript-parser.js:23-32 | for input with no marker text of its own, restoring the markers undoes the escape pass: each `\X` becomes `X` |
| Escapes.RestoreMarker | butterscript-js/butterscript-parser.js:32 | a marker at the head of the text is restored to its character |
| Escapes.NoMarkerAtPlainChar | butterscript-js/butterscript-parser.js:24-32 | a character the escape pass copies never starts a marker |
| Scanners.ElementEnd | butterscript-js/butterscript-parser.js:45 | a modifier, when one starts at the position, is at least a dot and one word character long |
| Scanners.ElementFrom | butterscript-js/butterscript-parser.js:45 | `\.(\w+)(?:\(([^)]*)\))?` matches at a position exactly when the modifier there is non-empty, and ends where it does |
| Scanners.ChainMods | butterscript-js/butterscript-parser.js:40 | a chain has no modifiers exactly when it is empty |
| Scanners.ScanOfChain | butterscript-js/butterscript-parser.js:45-50 | on text that is a chain up to its end the global scan finds exactly the chain's own modifiers, none skipped and none invented |
| Scanners.BracketBody | butterscript-js/butterscript-parser.js:850 | the content of `[ ... ]`, with up to two levels of nested brackets, is a prefix of the text and is followed by its closing `]` |
| Scanners.ContentRunPlain | butterscript-js/butterscript-parser.js:850 | text without brackets is content in full |
| Scanners.BracketBodyPlain | butterscript-js/butterscript-parser.js:850 | bracket-free content is read up to the first `]` |
| Scanners.HeaderAt | butterscript-js/butterscript-parser.js:301 | a header's name is the run of word characters at the start of the line, and the header lies within the line |
| Scanners.ImageMatchAt | butterscript-js/butterscript-parser.js:522 | an image match whose chain starts at a position exists exactly when a chain fits there, and it ends after a non-empty chain |
| Scanners.ImageAt | butterscript-js/butterscript-parser.js:522 | an image match is longer than `image`, has a non-empty chain, and reaches the end of the line when anchored |
| Scanners.ParamAt | butterscript-js/butterscript-parser.js:639 | a `key: "value"` match has a non-empty key and a non-empty value |
| Scanners.ScanParams | butterscript-js/butterscript-parser.js:639-642 | every parameter the `exec` loop finds has a non-empty key and value |
| Scanners.ScanParamsNoColon | butterscript-js/butterscript-parser.js:639 | text without a colon holds no parameter |
| Starts.SelfClosingByNameOrTag | butterscript-js/butterscript-parser.js:361-363 | the self-closing test is a self-closing name, or a name whose mapped tag is `img`, `hr`, `br` or `input` |
| Starts.BracketRest | butterscript-js/butterscript-parser.js:301 | what follows the bracket is the tail of the line after a `[` |
| Starts.ElementStart | butterscript-js/butterscript-parser.js:298-406 | any element found is named by the run of word characters at the start of the line |
| Starts.ParseElementStart | butterscript-js/butterscript-parser.js:298-406 | the shapes are tried in the source's order and the attribute object is built by `parseAttributes` and extended in place for an image chain |
| Starts.NoAttributes | butterscript-js/butterscript-parser.js:613-635 | no class text and no parameter text give no attributes |
| Starts.HeaderOfName | butterscript-js/butterscript-parser.js:301 | a word followed by nothing that can continue a header is a header with no classes and no parameters |
| Starts.BracketLine | butterscript-js/butterscript-parser.js:301-351 | a line whose bracket tail has no line terminator is one of the three bracket shapes |
| Starts.NameBracket | butterscript-js/butterscript-parser.js:301-351 | `name [t` is a bracket shape with no attributes |
| Starts.InlineStart | butterscript-js/butterscript-parser.js:301-315 | `name [content]` is read as the inline element `name` holding `content` |
| Starts.BlockStart | butterscript-js/butterscript-parser.js:336-351 | `name [` opens a block with no text on its first line |
| Starts.BlockStartWithText | butterscript-js/butterscript-parser.js:318-333 | `name [text`, with `text` not ending in `]`, opens a block whose first line holds `text` |
| Starts.BareName | butterscript-js/butterscript-parser.js:383-403 | a bare name is an element exactly when it is self-closing, and then it has no attributes and no content |
| Starts.HeaderOnly | butterscript-js/butterscript-parser.js:353-403 | a line that is all header is an element exactly when its name is self-closing |
| Starts.NoBracketIsSelfClosing | butterscript-js/butterscript-parser.js:353-403 | without a `[` only the self-closing shapes can match, and they carry no content |
| Snippets.SnippetHead | butterscript-js/butterscript-parser.js:40 | a snippet head starts with `snippet` and its chain is non-empty and within the text |
| Snippets.LastTerminator | butterscript-js/butterscript-parser.js:40 | the position found is the last line terminator of the range, and with none found the range has none |
| Snippets.StandaloneAt | butterscript-js/butterscript-parser.js:40 | a standalone match is non-empty and holds the word `snippet` |
| Snippets.StandaloneNext | butterscript-js/butterscript-parser.js:42-54 | the standalone pass always moves forward, and stays within the text |
| Snippets.ExpandStandalone | butterscript-js/butterscript-parser.js:42-54 | each standalone snippet is replaced by its indent, its content under its chain and its trailing white space |
| Snippets.SeparatorAt | butterscript-js/butterscript-parser.js:72 | a separator is non-empty white space within the text |
| Snippets.SplitPieces | butterscript-js/butterscript-parser.js:72 | the split always yields at least one piece |
| Snippets.SplitPiecesConcat | butterscript-js/butterscript-parser.js:72 | the pieces of the split, separators included, concatenate back to the text |
| Snippets.Kept | butterscript-js/butterscript-parser.js:74-78 | no more lines are kept than there are pieces |
| Snippets.KeptShape | butterscript-js/butterscript-parser.js:74-78 | every line kept is the indent followed by a piece that starts with `snippet` once trimmed |
| Snippets.PushSnippetPieces | butterscript-js/butterscript-parser.js:74-78 | the inner loop appends the kept pieces, in order |
| Snippets.PushLine | butterscript-js/butterscript-parser.js:64-84 | one pass of the outer loop appends the lines that one input line becomes |
| Snippets.SplitSnippetLines | butterscript-js/butterscript-parser.js:60-87 | the outer loop computes the split lines for every input line, in order |
| Snippets.ProcessStandaloneSnippets | butterscript-js/butterscript-parser.js:38-103 | the pre-pass expands standalone snippets, splits lines with several snippets, and expands again |
| Snippets.StandalonePassPlain | butterscript-js/butterscript-parser.js:40-54 | text that cannot hold a snippet is not touched by the standalone pass |
| Snippets.SplitLinesPlain | butterscript-js/butterscript-parser.js:60-87 | lines that cannot hold a snippet are passed through one for one |
| Snippets.OneLineUnchanged | butterscript-js/butterscript-parser.js:38-103 | a single line without the word `snippet` is left unchanged |
| Snippets.PlainTextUnchanged | butterscript-js/butterscript-parser.js:38-103 | text without a `[` holds no snippet, and the pre-pass leaves it unchanged |
| Snippets.StandaloneLine | butterscript-js/butterscript-parser.js:40-54 | `snippet[x].name` on a line of its own becomes `x` under the modifier `name` |
| Snippets.ChainOfName | butterscript-js/butterscript-parser.js:45 | `.name` is read as the one modifier `name` with no parameter |
| Attributes.PutLaws | butterscript-js/butterscript-parser.js:644-730 | after `attributes[key] = value` the key holds the new value, every other key keeps its value and position, a new key goes last (object insertion order), and keys stay unique |
| Attributes.ClassAttrs | butterscript-js/butterscript-parser.js:617-622 | the class text contributes at most one attribute |
| Attributes.Rename | butterscript-js/butterscript-parser.js:644-730 | `target` is stored as `href`, `source` as `src`, `do` as `data-action`, `on` as `data-action-event`, the style keys go to `style`, camel-case handlers are lower-cased, and any other key is kept as written |
| Attributes.ParamValue | butterscript-js/butterscript-parser.js:669-674 | `required`/`disabled` hold their own name exactly when the value is `true` and are empty otherwise; every other key stores the value unchanged |
| Attributes.ImageStyleOf | butterscript-js/butterscript-parser.js:425-489 | only `size`, `fill`, `radius` and `font` with a non-empty parameter add style text |
| Attributes.ImageClassOf | butterscript-js/butterscript-parser.js:490-497 | every modifier name the switch does not know is added as a class under its own name |
| Attributes.AttributeMap.constructor | butterscript-js/butterscript-parser.js:614 | a new attribute object is empty |
| Attributes.AttributeMap.Set | butterscript-js/butterscript-parser.js:729 | the new entries are the old ones with the key assigned (`Put`, whose laws are `PutLaws`) |
| Attributes.AttributeMap.AppendToStyle | butterscript-js/butterscript-parser.js:682-691 | `style` is created empty if missing and the text appended to it |
| Attributes.AttributeMap.ApplyParameter | butterscript-js/butterscript-parser.js:644-730 | the entries after one parameter are `ApplyParam` of the old entries |
| Attributes.AttributeMap.ApplyParameters | butterscript-js/butterscript-parser.js:639-731 | the `exec` loop applies the scanned `key: "value"` pairs in order |
| Attributes.AttributeMap.AddToClass | butterscript-js/butterscript-parser.js:482-486 | the class is set when absent, otherwise a space and the name are appended |
| Attributes.ParseAttributes | butterscript-js/butterscript-parser.js:613-735 | the filling loop builds a new map holding exactly `ParseAttributesSpec`: its class, its count rule and its key renamings are stated by `ParseAttributesClass`, `ParseAttributesCount`, `ParseAttributesNoColon` and `ParseAttributesUniqueKeys` |
| Attributes.ProcessImageModifiers | butterscript-js/butterscript-parser.js:409-499 | the loop over the chained modifiers updates the map in place to `ImageModifiersSpec`, which only extends style and class and keeps every other attribute (`ImageModifiersOnlyExtend`, `ImageStepsKeepOthers`) |
| Attributes.ApplyImageModifier | butterscript-js/butterscript-parser.js:425-497 | one turn of the modifier loop: style text first, then the class |
| Attributes.ApplyParamKeepsOthers | butterscript-js/butterscript-parser.js:644-730 | one parameter changes only the attribute its key is renamed to |
| Attributes.ApplyParamsKeepsOthers | butterscript-js/butterscript-parser.js:641-731 | the parameter loop changes only the attributes its keys are renamed to |
| Attributes.ParseAttributesUniqueKeys | butterscript-js/butterscript-parser.js:613-735 | `parseAttributes` never produces a name twice |
| Attributes.ParseAttributesClass | butterscript-js/butterscript-parser.js:617-622 | with at least one non-blank class name and no `class` parameter, the class is the first attribute and holds the names joined by single spaces |
| Attributes.ParseAttributesCount | butterscript-js/butterscript-parser.js:627-636 | a colon-free parameter that trims to `divider` or to digits yields only `count` holding the trimmed text, after the class |
| Attributes.ParseAttributesNoColon | butterscript-js/butterscript-parser.js:627-641 | any other colon-free parameter text adds nothing but the class |
| Attributes.ApplyParamsLastWins | butterscript-js/butterscript-parser.js:641-730 | the last parameter for a name decides its value, renamed and flag-converted |
| Attributes.ApplyParamStyle | butterscript-js/butterscript-parser.js:681-692 | a style key appends its declaration to `style`; any other key except `style` itself leaves it alone |
| Attributes.ApplyParamsStyle | butterscript-js/butterscript-parser.js:681-692 | without a literal `style` parameter the final style is the old style followed by every style declaration in order |
| Attributes.ImageStepKeepsOthers | butterscript-js/butterscript-parser.js:425-497 | one chained modifier changes only `style` and `class`, and only by extending them |
| Attributes.ImageStepsKeepOthers | butterscript-js/butterscript-parser.js:421-498 | the whole chain changes only `style` and `class`, and only by extending them |
| Attributes.WithStyleKeepsOthers | butterscript-js/butterscript-parser.js:412-415 | initialising `style` changes nothing else and leaves a `style` attribute |
| Attributes.ImageModifiersOnlyExtend | butterscript-js/butterscript-parser.js:409-499 | `processImageModifiers` keeps every other attribute and every position, only extends `style` and `class`, and a non-empty chain always leaves a `style` attribute |
| Styles.StripDot | butterscript-js/butterscript-parser.js:130 | a parameter starting with `.` loses exactly that dot; any other parameter is kept |
| Styles.SizeField | butterscript-js/butterscript-parser.js:172 | the property is the trimmed text before the first `:` |
| Styles.KeptFields | butterscript-js/butterscript-parser.js:168-176 | a `prop:value` pair of a `size` parameter is kept exactly when it is the trimmed field of one of its comma-separated parts and both sides are non-empty |
| Styles.Fields | butterscript-js/butterscript-parser.js:168-172 | there is one field per comma-separated part, in order |
| Styles.Declarations | butterscript-js/butterscript-parser.js:431-436 | the `prop: value; ` text is empty exactly when there are no pairs |
| Styles.JoinedDeclarations | butterscript-js/butterscript-parser.js:178-179 | the joined declarations start with the first property |
| Styles.SizePairsOfSizeText | butterscript-js/butterscript-parser.js:168-176 | reading back a written-out list of plain `prop:value` pairs gives the pairs, in order |
| Styles.FontFor | butterscript-js/butterscript-parser.js:136-155 | `sans`, `serif` and `monospace`, in any case, give their IBM Plex family and class; any other name is used as the family, with case kept, and gets `bs-font-custom` |
| Modifiers.WrapperOf | butterscript-js/butterscript-parser.js:117-202 | every wrapper the switch puts around content is one of `strong`, `em`, `u`, `code`, `s`, `mark`, `span` |
| Modifiers.PlainIsWrapped | butterscript-js/butterscript-parser.js:106-203 | ordinary content is wrapped, never dropped or altered, and the result is ordinary content again |
| Modifiers.FormTag | butterscript-js/butterscript-parser.js:254 | `/<(button|input)/` matches at a `<button` or `<input` within the content |
| Modifiers.QuotedAttr | butterscript-js/butterscript-parser.js:208-209 | `attr="([^"]*)"` is matched at its first occurrence, its value holds no `"`, and when there is no match no quote follows any `attr="` |
| Modifiers.ApplyModifierChain | butterscript-js/butterscript-parser.js:44-50 | the `exec` loop applies the modifiers of the chain in order, the first one innermost |
| Modifiers.ChainNests | butterscript-js/butterscript-parser.js:44-50 | on ordinary content a chain nests its elements with the first modifier innermost |
| Modifiers.ChainSnoc | butterscript-js/butterscript-parser.js:48-50 | one more modifier at the end of a chain is applied to the chain's result |
| Modifiers.ScanBoldItalic | butterscript-js/butterscript-parser.js:45 | `.bold.italic` is read as `bold` followed by `italic` |
| Modifiers.BoldItalic | butterscript-js/butterscript-parser.js:117-121 | `.bold.italic` on ordinary text gives `<em><strong>text</strong></em>` |
| Modifiers.BoldItalicTags | butterscript-js/butterscript-parser.js:117-121 | the openings of `bold` then `italic` are `<em><strong>` and the closings `</strong></em>` |
| Modifiers.ImageUnchanged | butterscript-js/butterscript-parser.js:107-110 | content starting with `<img ` is never changed by a modifier |
| Modifiers.ModifierFallbacks | butterscript-js/butterscript-parser.js:134-199 | `font`, `textcolor` and `radius` without a parameter, `size` without a complete pair and `fill` with an unknown mode return ordinary content unchanged |
| Modifiers.UnknownModifierIsClass | butterscript-js/butterscript-parser.js:200-201 | a name the switch does not know wraps ordinary content in a span of that class |
| Modifiers.LeadingDotIgnored | butterscript-js/butterscript-parser.js:128-164 | a leading dot on the `highlight`, `textcolor` or `font` parameter makes no difference |
| Modifiers.TagOf | butterscript-js/butterscript-parser.js:113 | a form element starts with `<button` or `<input` |
| Modifiers.FormTagAtStart | butterscript-js/butterscript-parser.js:254 | on a form element the tag regular expression matches at the start |
| Modifiers.QuotedAttrAfterTag | butterscript-js/butterscript-parser.js:208-209 | no `style="` or `class="` starts inside the tag of a form element |
| Modifiers.InsertAfterFormTag | butterscript-js/butterscript-parser.js:254 | replacing the tag inserts the attribute right after the tag and keeps the rest |
| Modifiers.FormStaysForm | butterscript-js/butterscript-parser.js:206-296 | a form element stays a form element with the same tag |
| Modifiers.FormUnknownIsClass | butterscript-js/butterscript-parser.js:278-285 | a name the form switch does not style becomes a new `class` right after the tag when there is none, else one more name at the end of the first class value |
| Modifiers.FormStyleInserted | butterscript-js/butterscript-parser.js:288-293 | without a current style, a styling modifier inserts a `style` attribute right after the tag |
| Modifiers.FormStyleAppended | butterscript-js/butterscript-parser.js:288-290 | with a current style, the new declaration is appended to it after a space and nothing else changes |
| Modifiers.AddFormClassCases | butterscript-js/butterscript-parser.js:253-257 | the font class goes into a new `class` after the tag, or at the end of the first class value |
| Blocks.ClosesIsTrim | butterscript-js/butterscript-parser.js:593-595 | the character-level closing test holds exactly when the line trims to `]` |
| Blocks.IsClosing | butterscript-js/butterscript-parser.js:593-595 | the loop that checks a line decides exactly the closing test |
| Blocks.BlockEndBounds | butterscript-js/butterscript-parser.js:586-611 | the scan ends at a line index or at the number of lines |
| Blocks.FindBlockEnd | butterscript-js/butterscript-parser.js:586-611 | the end index is past the first line and at most the number of lines, and the content is the lines strictly between, each with its newline, trimmed |
| Blocks.BlockEndStep | butterscript-js/butterscript-parser.js:591-607 | a line that does not close the block continues the scan at the next line with a positive depth |
| Blocks.BlockEndIsFirstClose | butterscript-js/butterscript-parser.js:586-611 | the scan stops at the first line where the depth counted from 1 reaches 0, that line trims to `]`, and every earlier line leaves the block open |
| Blocks.OpenCountIsUnclosed | butterscript-js/butterscript-parser.js:600 | counting `[` not followed by a `]` with the look-ahead equals counting the `[` after the last `]` |
| Blocks.UnclosedCons | butterscript-js/butterscript-parser.js:600 | a leading `[` counts exactly when no `]` follows it |
| Blocks.LineNext | butterscript-js/butterscript-parser.js:506-580 | every turn of the loop advances the line index, by at most one past the number of lines |
| Blocks.ParseElements | butterscript-js/butterscript-parser.js:501-584 | the `while` loop over the lines, whose index strictly increases, builds `Elements`: each line's piece in order, a block consuming the lines up to its closing line, the whole trimmed |
| Blocks.ParseLine | butterscript-js/butterscript-parser.js:507-580 | one turn of the loop appends that line's text and moves to that line's successor |
| Blocks.ParseBlock | butterscript-js/butterscript-parser.js:551-567 | a block becomes its element around the parsed block text, and the loop resumes after the closing line |
| Blocks.BlockShorter | butterscript-js/butterscript-parser.js:560-563 | a block's text is shorter than the input, so the recursive `parseElements` terminates |
| Documents.OneLine | butterscript-js/butterscript-parser.js:501-584 | a one-line input is what its single turn appends, trimmed |
| Documents.NoDotNoImage | butterscript-js/butterscript-parser.js:522-525 | a line without a `.` is never an image with chained modifiers |
| Documents.NoImageWord | butterscript-js/butterscript-parser.js:522-525 | a line that does not contain `image` is no image line |
| Documents.ProseIsNoElement | butterscript-js/butterscript-parser.js:298-406 | a line with no `[` whose first word is not self-closing starts no element |
| Documents.ProseLine | butterscript-js/butterscript-parser.js:573-580 | a line of prose without markup appends itself and a newline |
| Documents.PlainParagraph | butterscript-js/butterscript-parser.js:501-584 | a single line of prose without markup comes out unchanged |
| Documents.InlineElementLine | butterscript-js/butterscript-parser.js:542-550 | `name [text]` on its own line is the element holding the formatted text, or the raw text for `code` |
| Documents.FirstLineOnly | butterscript-js/butterscript-parser.js:501-584 | an input whose first turn consumes every line is that turn's text, trimmed |
| Documents.OneLineBlockEnd | butterscript-js/butterscript-parser.js:586-611 | a block whose single line of text opens nothing ends at the next line's `]` |
| Documents.BlockAroundLine | butterscript-js/butterscript-parser.js:551-567 | `name [`, a line and `]` make the element around what the line becomes, or around the raw line for `preformatted` |
| Documents.BlockAroundLineTurn | butterscript-js/butterscript-parser.js:551-567 | such an input is three lines, handled by one turn that skips past the closing line |
| Documents.BareBlockBody | butterscript-js/butterscript-parser.js:554-564 | the body of a bare three-line block is what its middle line becomes (the trimmed line itself for `preformatted`) |
| Html.AttributesToStringIsEach | butterscript-js/butterscript-parser.js:930-936 | `attributesToString` is nothing for an empty map and otherwise ` key="value"` for every attribute, in the map's order |
| Emitter.TagFor | butterscript-js/butterscript-parser.js:3-13 | a name in the element map gets its tag, any other name is its own tag |
| Emitter.LinebreakCount | butterscript-js/butterscript-parser.js:745-748 | the count is between 1 and 10: the parsed number when in range, 10 above it, 1 for zero, negatives and text that is not a number |
| Emitter.ParseIntOfDigits | butterscript-js/butterscript-parser.js:746 | `parseInt` of a string of digits is its decimal value |
| Emitter.LinebreakCountOfDigits | butterscript-js/butterscript-parser.js:745-748 | a count written as digits is used as it is, kept between 1 and 10 |
| Emitter.LinebreakCountOfNegative | butterscript-js/butterscript-parser.js:746-747 | a negative count gives a single break |
| Emitter.LinebreakCountOfText | butterscript-js/butterscript-parser.js:746 | a count that does not start with a number gives a single break |
| Emitter.CreateElementIsMarkup | butterscript-js/butterscript-parser.js:737-811 | every element is written as markup: it starts with `<` and ends with `>` |
| Emitter.VoidIgnoresContent | butterscript-js/butterscript-parser.js:741-758 | `img`, `br`, `hr` and `input` drop whatever content they are given |
| Emitter.ImageIsImgElement | butterscript-js/butterscript-parser.js:741-757 | an image is exactly `<img` followed by its attributes and `>` |
| Emitter.LinebreakRepeats | butterscript-js/butterscript-parser.js:745-749 | a line break with a count is `<br>` repeated between one and ten times |
| Emitter.CodeIsEscaped | butterscript-js/butterscript-parser.js:804-810 | code and preformatted content is escaped, so no markup character of it reaches the output |
| Emitter.OtherContentVerbatim | butterscript-js/butterscript-parser.js:802-810 | every other non-void element keeps its content unchanged between its tags |
| Emitter.AnchorHref | butterscript-js/butterscript-parser.js:766-775 | the link's `href` is the target, with `https://` in front unless it starts with `/` |
| Emitter.AnchorClass | butterscript-js/butterscript-parser.js:782-787 | the link keeps the button's classes and adds `button-link` |
| Emitter.AnchorNewTab | butterscript-js/butterscript-parser.js:777-780 | `open` sets `target="_blank"` and `rel="noopener noreferrer"`, `navigate` leaves both as they were |
| Emitter.AnchorKeepsOthers | butterscript-js/butterscript-parser.js:774 | every other attribute of the button is copied unchanged |
| Emitter.NoProtocolWithoutColon | butterscript-js/butterscript-parser.js:762-769 | the protocol test never succeeds, because the target is a colon-separated field and `http://` holds a colon |
| Emitter.ActionPartsOf | butterscript-js/butterscript-parser.js:762-764 | `kind:target` splits into its kind and its target |
| Emitter.ButtonBecomesLink | butterscript-js/butterscript-parser.js:761-791 | a button whose action is `navigate:target` or `open:target` becomes an anchor around its content |
| Emitter.OtherButtonStays | butterscript-js/butterscript-parser.js:761-810 | any other action, or one without a target, leaves the button a `<button>` element |
| Emitter.ListOfLines | butterscript-js/butterscript-parser.js:813-819 | lines joined by newlines give one `<li>` per non-blank line, in order, and none for blank lines |
| Emitter.NonBlankKeepsAll | butterscript-js/butterscript-parser.js:814 | filtering out blank lines keeps every line that is not blank |
| Emitter.ListItemsAppend | butterscript-js/butterscript-parser.js:815-818 | the items of two runs of lines are the items of the first run followed by those of the second |
| Inline.ImageMatchFrom | butterscript-js/butterscript-parser.js:828 | a match of the image expression starts with `image` at that position and is non-empty and within the text |
| Inline.ImageNext | butterscript-js/butterscript-parser.js:831-845 | the image pass always moves forward, and stays within the text |
| Inline.ImageStep | butterscript-js/butterscript-parser.js:831-845 | at a match, the pass emits the `<img>` element and goes on after the match |
| Inline.ReplaceImages | butterscript-js/butterscript-parser.js:828-845 | the image loop replaces every image expression by the `<img>` element built from its class, parameters and chain |
| Inline.DirectMatch | butterscript-js/butterscript-parser.js:850 | a direct-modifier match ends after its start and within the text, and the text holds a `[` |
| Inline.DirectNext | butterscript-js/butterscript-parser.js:854-880 | the direct-modifier pass always moves forward, and stays within the text |
| Inline.ReplaceDirectModifiers | butterscript-js/butterscript-parser.js:850-880 | each direct-modifier match is replaced by its leading whitespace and its content under its chain |
| Inline.SnippetAt | butterscript-js/butterscript-parser.js:883 | a matched `snippet[...]` ends after its start and within the text |
| Inline.SnippetChainMatch | butterscript-js/butterscript-parser.js:883 | a snippet followed by a chain ends after its start and within the text |
| Inline.SnippetChainNext | butterscript-js/butterscript-parser.js:888-913 | the snippet-chain pass always moves forward, and stays within the text |
| Inline.ReplaceModifiedSnippets | butterscript-js/butterscript-parser.js:883-913 | each snippet with a chain is replaced by its content under its chain |
| Inline.PlainSnippetMatch | butterscript-js/butterscript-parser.js:916 | a plain snippet match ends after its start and within the text |
| Inline.CloseFrom | butterscript-js/butterscript-parser.js:919-922 | the lazy `.*?` finds the first closing tag at or after the position, with no line terminator before it |
| Inline.LegacyMatch | butterscript-js/butterscript-parser.js:919-922 | a legacy tag match starts at a `{` and ends within the text |
| Inline.LegacyNext | butterscript-js/butterscript-parser.js:919-922 | each legacy pass always moves forward, and stays within the text |
| Inline.BrPass | butterscript-js/butterscript-parser.js:925 | replacing `[br]` by `<br>` keeps the length of the text |
| Inline.ParseInlineFormatting | butterscript-js/butterscript-parser.js:821-928 | empty text gives empty text; otherwise the passes run in the parser's order: images, direct modifiers, snippet chains, plain snippets, legacy tags, `[br]` |
| Inline.ImagePassPlain | butterscript-js/butterscript-parser.js:828-845 | text without `image` passes through the image pass unchanged |
| Inline.DirectPassPlain | butterscript-js/butterscript-parser.js:850-880 | text without `[` passes through the direct-modifier pass unchanged |
| Inline.SnippetChainPassPlain | butterscript-js/butterscript-parser.js:883-913 | text without `[` passes through the snippet-chain pass unchanged |
| Inline.PlainSnippetPassPlain | butterscript-js/butterscript-parser.js:916 | text without `[` passes through the plain snippet pass unchanged |
| Inline.LegacyPassPlain | butterscript-js/butterscript-parser.js:919-922 | text without `{` passes through a legacy pass unchanged |
| Inline.BrPassPlain | butterscript-js/butterscript-parser.js:925 | text without `[` passes through the line-break pass unchanged |
| Inline.InlinePlain | butterscript-js/butterscript-parser.js:821-928 | prose with no bracket, no brace and no `image` comes out exactly as it went in |
| Inline.CloseFromFinds | butterscript-js/butterscript-parser.js:919-922 | the lazy search finds the first closing tag when nothing before it on the line could start one |
| Inline.LegacyWraps | butterscript-js/butterscript-parser.js:919-922 | `{name}text{/name}` becomes `<tag>text</tag>` when the text holds no brace and no line break |
| Inline.PlainSnippetUnwraps | butterscript-js/butterscript-parser.js:916 | `snippet[text]` with bracket-free text becomes the text itself |
| Inline.SnippetBeforeDotIsKept | butterscript-js/butterscript-parser.js:916 | a snippet followed by a dot is left alone by the plain snippet pass |
| Inline.DirectBoldItalic | butterscript-js/butterscript-parser.js:850-880 | `.bold.italic[text]` at the start of a line renders as `<em><strong>text</strong></em>` |
| Inline.BoldItalicMatch | butterscript-js/butterscript-parser.js:850 | `.bold.italic[text]` is one direct match with no leading whitespace, the chain `.bold.italic` and the content `text` |
| Inline.BrCopies | butterscript-js/butterscript-parser.js:925 | outside a `[br]` the line-break pass copies the input character at the same place |
| Inline.BrPassClears | butterscript-js/butterscript-parser.js:925 | no `[br]` survives the line-break pass |
| Parser.Parse | butterscript-js/butterscript-parser.js:19-35 | the stages run in order: comments removed, escapes protected, standalone snippets expanded, lines parsed, escapes restored |
| Parser.CommentContributesNothing | butterscript-js/butterscript-parser.js:20-21 | a comment contributes nothing to the output, whatever it holds |
| Parser.PlainParagraphUnchanged | butterscript-js/butterscript-parser.js:19-35 | a line of ordinary prose with no markup, escapes, comments or marker text comes out as itself |
| Parser.InlineElementParsed | butterscript-js/butterscript-parser.js:19-35 | `name [x]` on one line is the element holding `x`, formatted except in `code`, with escapes restored |
| Parser.ProtectPlain | butterscript-js/butterscript-parser.js:24 | without a backslash the escape pass changes nothing |
| Parser.RestorePlain | butterscript-js/butterscript-parser.js:32 | without marker text the restore pass changes nothing |
| Formatter.FormatCode | butterscript-js/butterscript-codemirror.js:563-590 | the editor text is split at line breaks, every line re-indented, and the whole result trimmed |
| Formatter.IndentLines | butterscript-js/butterscript-codemirror.js:567-583 | the loop with `indentLevel` and the growing text computes the formatted lines from level 0 |
| Formatter.FormatLine | butterscript-js/butterscript-codemirror.js:571-582 | one pass appends two spaces per level in force, the trimmed line and a newline, and moves to the next level |
| Formatter.FormatLinesStep | butterscript-js/butterscript-codemirror.js:570-583 | the text still to come is that of the current line followed by that of the rest, at the level the line leaves |
| Formatter.LevelSteps | butterscript-js/butterscript-codemirror.js:573-582 | a line is never printed deeper than the level in force; the level rises by one exactly after a line ending in `[` with no `]`, and falls (by one) only at a `]` line from a positive level |
| Formatter.CloserDoesNotOpen | butterscript-js/butterscript-codemirror.js:573-581 | a `]` line never opens a block |
| Formatter.FinalLevelAppend | butterscript-js/butterscript-codemirror.js:570-583 | the level after two runs of lines is the level after the second, started from the level after the first |
| Formatter.FinalLevelBounds | butterscript-js/butterscript-codemirror.js:570-583 | the final level is at most the start plus the openers, and at least the start plus the openers minus the closers |
| Formatter.BlockClosesAtOpenerLevel | butterscript-js/butterscript-codemirror.js:570-583 | a block whose body returns to the inner level ends at the level it was opened at, and its `]` is printed at the level of its opening line |
| Formatter.OutputLines | butterscript-js/butterscript-codemirror.js:575-577 | there is one output line per input line |
| Formatter.FormatLinesSplit | butterscript-js/butterscript-codemirror.js:570-583 | splitting the appended text at its line breaks gives the output lines and an empty tail |
| Formatter.OutputLineAt | butterscript-js/butterscript-codemirror.js:570-583 | output line `k` is the trimmed input line `k`, indented by two spaces per level in force when it is reached |
| Formatter.RepeatSpaces | butterscript-js/butterscript-codemirror.js:575-577 | the indentation consists of spaces only |
| Suggestions.IndexOfChar | butterscript-js/butterscript-codemirror.js:1102 | `indexOf` finds the first position at or after the start holding the character, and reports none only when there is none |
| Suggestions.FuzzyMatch | butterscript-js/butterscript-codemirror.js:1097-1106 | the greedy `indexOf` scan accepts exactly when the word's letters occur in order in the text |
| Suggestions.GreedyStep | butterscript-js/butterscript-codemirror.js:1100-1105 | taking the first occurrence of the next letter loses no embedding of the rest of the word |
| Suggestions.EmbeddingSnoc | butterscript-js/butterscript-codemirror.js:1100-1105 | the positions found so far, extended by the next occurrence, embed one more letter of the word |
| Suggestions.InsertRankedPermutes | butterscript-js/butterscript-codemirror.js:1107-1119 | inserting into the ranked list only adds the new item |
| Suggestions.InsertRankedKeepsOrder | butterscript-js/butterscript-codemirror.js:1107-1119 | inserting into a ranked list keeps it ranked |
| Suggestions.RankSortPermutes | butterscript-js/butterscript-codemirror.js:1107-1119 | the sort only reorders |
| Suggestions.RankSortRanks | butterscript-js/butterscript-codemirror.js:1107-1119 | after the sort every prefix match comes first, and each group is in non-decreasing text length |
| Suggestions.RankSortStable | butterscript-js/butterscript-codemirror.js:1107-1119 | the sort is stable: items with the same rank and length keep their table order |
| Suggestions.FuzzyFiltered | butterscript-js/butterscript-codemirror.js:1097-1106 | the filter keeps only items of the table |
| Suggestions.Suggest | butterscript-js/butterscript-codemirror.js:1093-1122 | with a word, the loop filters the table and the result is sorted; without one, the whole table is returned |
| Suggestions.ElementWord | butterscript-js/butterscript-codemirror.js:1092-1094 | the word typed at the end of the line is non-empty when present |
| Suggestions.ModifierWord | butterscript-js/butterscript-codemirror.js:1146-1148 | the word after a final `.` is used only when non-empty |
| Suggestions.ParameterWord | butterscript-js/butterscript-codemirror.js:1201-1203 | the word after a final `(` is used only when non-empty |
| Suggestions.GetElementSuggestions | butterscript-js/butterscript-codemirror.js:1059-1123 | the element table filtered and ranked by the word typed at the end of the line |
| Suggestions.GetModifierSuggestions | butterscript-js/butterscript-codemirror.js:1126-1177 | the modifier table filtered and ranked by the word after a final `.` |
| Suggestions.GetParameterSuggestions | butterscript-js/butterscript-codemirror.js:1180-1232 | the parameter table filtered and ranked by the word after a final `(` |
| Suggestions.FuzzyFilteredMembers | butterscript-js/butterscript-codemirror.js:1097-1106 | an item survives the filter exactly when the word's letters occur in order in its lowered text |
| Suggestions.SuggestionsWithWord | butterscript-js/butterscript-codemirror.js:1097-1119 | with a word the result is a reordering of the survivors, no item invented or repeated, in ranked order |
| Suggestions.SuggestedIff | butterscript-js/butterscript-codemirror.js:1097-1119 | an item is offered exactly when it is in the table and the word's letters occur in order in its text |
| Suggestions.PrefixMatchesFirst | butterscript-js/butterscript-codemirror.js:1107-1118 | an item starting with the word is never placed after one that does not, and within a group shorter texts come first |
| Suggestions.NoElementWord | butterscript-js/butterscript-codemirror.js:1092-1122 | without a word at the end of the line the whole element table is offered in its order |
| Suggestions.WordAfterMark | butterscript-js/butterscript-codemirror.js:1146-1148 | the word after a final `.` or `(` is what follows it, lowered, and nothing when nothing follows |
| Suggestions.IncludesFiltered | butterscript-js/butterscript-codemirror.js:356-360 | an empty prefix returns every item |
| Suggestions.ContainsFilteredMembers | butterscript-js/butterscript-codemirror.js:358-360 | an item passes the substring filter exactly when its lowered text contains the lowered prefix |
| Suggestions.ContainsIsInOrder | butterscript-js/butterscript-codemirror.js:358-360 | a substring match is also an in-order match |
| Suggestions.SubstringWithinFuzzy | butterscript-js/butterscript-codemirror.js:356-413 | the popup's substring filter keeps nothing the fuzzy filter would drop |
| Suggestions.SuggestionList.constructor | butterscript-js/butterscript-codemirror.js:63 | a new list is empty with the first entry selected |
| Suggestions.SuggestionList.Show | butterscript-js/butterscript-codemirror.js:124-127 | showing a list selects its first entry |
| Suggestions.SuggestionList.SelectNext | butterscript-js/butterscript-codemirror.js:214-223 | selection moves one entry down, from the last back to the first, and the list is unchanged |
| Suggestions.SuggestionList.SelectPrevious | butterscript-js/butterscript-codemirror.js:225-234 | selection moves one entry up, from the first back to the last, and the list is unchanged |
| Suggestions.MovesStayInRange | butterscript-js/butterscript-codemirror.js:214-234 | both moves stay within the list |
| Suggestions.MovesUndoEachOther | butterscript-js/butterscript-codemirror.js:214-234 | moving down then up, or up then down, returns to the same entry |
| Suggestions.MovesWrap | butterscript-js/butterscript-codemirror.js:220-231 | both ends wrap around, and elsewhere a move is one step |

## Left out

- Inline.ParseInlineFormatting: in the model, each of the first three passes rewrites the output of the pass before it, left to right. In the source, those three passes (images, direct modifier spans, snippets with modifiers) find their matches in the original input text (`butterscript-parser.js:831, 854, 886`). Each match is then spliced into the partly rewritten text with `replace(fullMatch, …)` (844, 879, 910), at the first place that text occurs. So when an earlier pass has already rewritten a match's text, the source finds nothing to replace and leaves the match as it was, while the model rewrites it. For example, `x .bold[image.round]` gives `x .bold[<img style="" class="round">]` in the source, but `x <img style="" class="round">` in the model, where the span's modifier leaves the image as it is. Likewise `snippet[ .bold[x]].italic` gives `snippet[ <strong>x</strong>].italic` in the source and `<em> <strong>x</strong></em>` in the model. The two also differ when the same text occurs earlier in the line, because the source splices at that first place rather than at the match. The last three passes (plain snippets, legacy tags, `[br]`) are global replacements on the rewritten text in the source too, and the model matches them.
- `$`-patterns (`$&`, `$1`, …) that a replacement string might contain are not interpreted. The model inserts replacement text literally.
- JavaScript object semantics beyond insertion order are not modelled. This covers integer-like keys, which JavaScript enumerates first, and `__proto__` and other inherited names seen by lookups in the element table.
- Characters are abstract. `Text.Lower` lowers ASCII letters only. The character class `\s` and the set `trim()` removes are the full JavaScript white-space set (`Text.IsSpace`). UTF-16 code units and surrogate pairs are not told apart from characters. `String.fromCharCode` would reduce a marker's number modulo 65536; the model instead leaves a `__ESCAPED_<n>__` marker as it is when its number is not a character code.
- `parseElements` has a branch for an element that is neither inline nor opens a block (`butterscript-parser.js:572-575`). The model has no such branch, because every shape `parseElementStart` returns is one or the other. `findBlockEnd` tests `if (depth > 0)` after its loop (604); the test holds whenever it is reached, and the model does not repeat it.
- The fallback in the standalone-snippet split loop for a line where `(\s*)(.+)` fails (`butterscript-parser.js:78-80`) can never fire. A line holding two snippets always has a character for `.+` to match, so the model has no branch for it.
- Suggestion entries keep only their text, display text and kind. Icons, snippet bodies, cursor offsets and icon types are carried but never inspected by the modelled code.
- `show`, `selectNext` and `selectPrevious` are modelled only for the list and the highlighted index. Building the popup's DOM, `scrollIntoView` and visibility are left out.
- `getSnippetSuggestions`, `applySelected`, the popup positioning and the keyboard and editor event wiring are browser glue and are left out.
- `Formatter.FormatCode` takes the editor text as a parameter and returns the new text. `getValue`/`setValue`, the toast and the call to the original `formatCode` are left out.
- `Suggestions.IncludesFiltered`: the popup class's `getElementSuggestions`, `getModifierSuggestions` and `getParameterSuggestions` (`butterscript-codemirror.js:324-413`) are modelled as the substring filter over the same tables. How they extract the word from the cursor line is not modelled separately.
- `butterscript-js/butterscript-actions.js` is not part of this model. It consists of DOM actions, `form.submit`, `window.open` and the clipboard.
- Everything in `butterscript-parser.js` from line 948 on is left out: preview updating, copying and downloading, toasts, shortcuts, find and replace, and the autocomplete class. The CodeMirror highlighting mode (`butterscript-codemirror.js:7-56`) is also left out.
- `Styles.SizePairs` carries no contract of its own. What it keeps is stated by `Styles.KeptFields`, and `Styles.SizePairsOfSizeText` states its round trip.
