# marcus core in Dafny

This project models `lib/core` of marcus, a small translator from a Markdown-like markup to HTML
or to ANSI terminal text, and proves properties of that model. The markup has five types:
`**bold**`, `_italic_`, `` `monospaced` ``, a ```` ``` ```` preformatted block, and a blank line
(`\n\n`) as a paragraph break.

The modules follow the source files:

- `results.dfy` (`Results`): `Option` and `Result`, standing for `null`/`undefined` and for a
  thrown error.
- `utils.dfy` (`Utils`), for `lib/core/utils.js`:
  - `SortedList` is a class whose `items` sequence `Push` inserts into. It is specified by the
    functions `Insert`/`InsertAll`.
  - `Find`, `Split` (with the imperative `SplitArray` proved equal to it) and `Toggle`.
- `constants.dfy` (`Constants`), for `lib/core/constants.js`:
  - the types and delimiters, and the marker widths;
  - each regular expression of `PATTERNS` written as a position predicate (`PatternAt`) over
    ASCII character classes;
  - the HTML and ANSI decoration tables.
- `tokenizer.dfy` (`Tokenizer`), for lines 8-58 of `lib/core/parser.js`:
  - `Token` is a class whose `SetFlank` grows its label list in place.
  - `Match`/`MatchPattern`/`Tokenize` are loops over a shared `SortedList<Token>`. Each is proved
    to leave the contents of the list equal to a function on token values (`RecordAll`,
    `MatchFlanks`, `Tokens`).
  - The `exec` loop of a `g` regex is the function `Hits`: the first match at or after
    `lastIndex`, then resume one marker width later.
- `parser.dfy` (`Parser`), for the rest of `lib/core/parser.js`:
  - `preProcess`;
  - the three passes (`evalPref`/`evalPrefScope`, `evalParagraph`, `evalDelimeters` with
    `checkNested`) as methods over a shared `SortedList<TokenValue>`, each proved against a
    function (`PrefPass`, `ParagraphPass`, `DelimPass`);
  - `parse`, proved against `ParseSpec`.
- `compiler.dfy` (`Compiler`), for `lib/core/compiler.js`:
  - `TypeCompiler` is the closure `createCompiler` returns, with its counter `i`.
  - `Compiler` holds one decorator per type, kept from one call to the next.
  - `Compile` is proved against `CompileSpec`.

Where the code and its tests disagree, the model follows the code, except in the two places listed under "Findings":

- `preProcess` does not trim. The sanitization test expects leading and trailing spaces removed.
- The tests build `new Token(5, BOLD, LEFT, RIGHT)`, but the constructor takes one flank, so the
  expected token has only the left label. `tokenize` itself gives such a token both labels
  (`Tokenizer.TokensBothExample`, `Tokenizer.TokensBothItalicExample`,
  `Tokenizer.TokensBothMonospacedExample`). The same holds for the underscores at 1 and 12 of the
  nested test, expected with only their first label (`Tokenizer.TokensNestedExample`).
- The tests import `sanitize`, `createTokensList` and `evalPreformatted`, which `parser.js` does
  not export. `evalPref` is the preformatted pass.
- Two places where the code does not do what was evidently meant are listed under "Findings".
  The model uses the corrected behaviour and keeps the code as written beside it.

## Model

| member | source | states |
|---|---|---|
| Utils.Find | lib/core/utils.js:26-32 | the result is the first position at or after `skip` whose item satisfies the strategy, with that item; `NotFound` exactly when no position from `skip` on satisfies it |
| Utils.FindExample | test/utils.test.js:14-33 | on `[1,2,3,3]`, looking for 3 from 0 gives position 2 and from 3 gives 3; looking for 4 gives nothing |
| Utils.Slice | lib/core/compiler.js:11 | JavaScript `slice` on non-negative bounds: the ordinary sub-sequence when `start <= end <= length`, the rest from `start` when the end is past the length, empty when the start is at or past the end or the length |
| Utils.InsertionPoint | lib/core/utils.js:13 | the `findIndex` position lies in the list, every key in front of it is at most the value's key, and the key at it is strictly greater |
| Utils.InsertSplits | lib/core/utils.js:13-15 | inserting at such a position is splicing the value in there |
| Utils.InsertPlacement | lib/core/utils.js:13-15 | `push` puts a value after every element with an equal or smaller key and in front of the first strictly greater one |
| Utils.InsertSorted | lib/core/utils.js:11-16 | one insertion keeps the list ordered by the strategy's key |
| Utils.InsertStrictlySorted | lib/core/utils.js:11-16 | inserting a value whose key is not present keeps a strictly ordered list strictly ordered |
| Utils.InsertMultiset | lib/core/utils.js:14-15 | one insertion adds exactly the value: the multiset grows by it |
| Utils.InsertAllSorted | lib/core/utils.js:11-18 | `push(...values)` keeps the list ordered |
| Utils.InsertAllMultiset | lib/core/utils.js:11-18 | `push(...values)` adds exactly the pushed values, and the length grows by their number |
| Utils.InsertAllAppend | lib/core/utils.js:11-16 | pushing `a` and then `b` is pushing `a + b` |
| Utils.InsertAllCount | lib/core/utils.js:11-16 | after a push, the count of elements with any property is the old count plus the pushed ones that have it |
| Utils.SortedList.constructor | lib/core/utils.js:6-9 | a new list is empty and keeps the given strategy |
| Utils.SortedList.Push | lib/core/utils.js:11-18 | the loop of in-place `splice`/`push` leaves the items equal to the reference insertion of every value in order, keeps them ordered, and returns the new length |
| Utils.SortedList.Clone | lib/core/utils.js:20-23 | `clone` returns a fresh EMPTY list with the same strategy; no element is copied |
| Utils.SortedListExample | test/utils.test.js:5-12 | pushing 4, 2, 1, 3, 5 gives 1, 2, 3, 4, 5 |
| Utils.Split | lib/core/utils.js:34-44 | `splitArray` with k positions gives exactly k + 1 slices |
| Utils.SplitOne | lib/core/utils.js:34-44 | one cut position gives the part in front of it and the part behind it, without the element at it |
| Utils.SplitTwo | lib/core/utils.js:34-44 | two cut positions give the part in front, the part between and the part behind, without the two boundary elements |
| Utils.SplitArray | lib/core/utils.js:34-44 | the loop that moves `start` past each boundary returns exactly the reference slices |
| Utils.SplitFront | lib/core/utils.js:34-44 | the slices of all cuts but the last are those of the prefix in front of the last cut, and the last slice is everything behind it |
| Utils.SplitRebuilds | lib/core/utils.js:34-44 | for increasing in-range positions, the slices interleaved with the boundary elements rebuild the array |
| Utils.SplitLengths | lib/core/utils.js:34-44 | for k increasing in-range positions, the slice lengths sum to the array length minus k |
| Utils.SplitMembers | lib/core/utils.js:39 | every element of a slice is an element of the array |
| Utils.SplitExample | test/utils.test.js:35-43 | `[1..8]` cut at 2 and 5 gives `[1,2]`, `[4,5]`, `[7,8]` |
| Utils.Toggle | lib/core/utils.js:46 | the result is 0 or 1, and it is 1 exactly when the argument is 0 |
| Utils.ToggleTwice | lib/core/utils.js:46 | on 0 and 1, toggling twice gives the value back |
| Constants.Marking | lib/core/constants.js:55-61 | every marker is non-empty |
| Constants.MarkerAtMarking | lib/core/constants.js:18-61 | the literal part of each pattern is the type's marker, and the marker widths are 2, 1, 1, 3 and 2 |
| Constants.FlankedAreDelimiters | lib/core/constants.js:16-53 | a pattern has left and right rules exactly when its type is one of the three delimiters, and every type is in `TYPES` |
| Constants.FlankNotFacingSpace | lib/core/constants.js:20-43 | a left-flanked delimiter is never followed by a separator, and a right-flanked one is never preceded by one |
| Constants.IntrawordNotFlanked | lib/core/constants.js:20-43 | a delimiter between two letters or digits matches neither rule (`snake_case`, `2**2`, ``d`Arc``) |
| Constants.PatternsExclusive | lib/core/constants.js:18-53 | no position is matched by the patterns of two different types |
| Constants.Mapping | lib/core/constants.js:63-77 | the decoration list of paragraph has four entries and every other list two |
| Constants.DecorationShapes | lib/core/constants.js:63-77 | paragraph's two boundary entries are equal; in HTML they are `</p><p>` with `<p>`/`</p>` around the document; in ANSI the boundary is the paragraph marker itself and the document wrap is empty |
| Tokenizer.NewValue | lib/core/parser.js:13-17 | a new token holds its index and type, and is left- or right-flanked exactly when created with that flank |
| Tokenizer.Token.constructor | lib/core/parser.js:13-17 | a new token object holds what `NewValue` describes |
| Tokenizer.Token.SetFlank | lib/core/parser.js:31-33 | the setter appends one label in place and changes nothing else |
| Tokenizer.CreateTokensList | lib/core/parser.js:8 | a fresh empty list ordered by token index |
| Tokenizer.ValuesInsert | lib/core/parser.js:8 | inserting a token object by index and inserting its contents by index agree |
| Tokenizer.Exec | lib/core/parser.js:39 | `exec` returns a matching position at or after `lastIndex` |
| Tokenizer.ExecFirst | lib/core/parser.js:39 | it is the first such position, and `null` comes back exactly when there is none |
| Tokenizer.Hits | lib/core/parser.js:36-45 | every position the `exec` loop visits matches and lies in the text |
| Tokenizer.HitsSpaced | lib/core/parser.js:39 | the visited positions are increasing, each at least a marker's width past the one before, so matches never overlap |
| Tokenizer.HitsComplete | lib/core/parser.js:39 | a matching position is skipped only when the marker of the hit just before covers it |
| Tokenizer.HitsFirst | lib/core/parser.js:39 | the first match is the first hit, and the scan resumes one marker width past it |
| Tokenizer.RecordFound | lib/core/parser.js:41-42 | a hit at an index that already has a token only appends the label to that token |
| Tokenizer.RecordNotFound | lib/core/parser.js:41-43 | a hit at a new index inserts a new token in index order |
| Tokenizer.MatchStep | lib/core/parser.js:39-44 | one turn of the `exec` loop leaves the outcome of the whole loop unchanged |
| Tokenizer.AddFlank | lib/core/parser.js:41-42 | setting the flank of the token `find` returned changes the list's contents as `Record` says, and leaves the list itself alone |
| Tokenizer.PushToken | lib/core/parser.js:43 | pushing a new token keeps the list strictly ordered and changes its contents as `Record` says |
| Tokenizer.RecordHit | lib/core/parser.js:40-43 | the loop body changes the contents as `Record` says and keeps the list strictly ordered |
| Tokenizer.Match | lib/core/parser.js:36-45 | `match` leaves the contents equal to every hit of the scan recorded in turn |
| Tokenizer.MatchPattern | lib/core/parser.js:50-55 | one pattern is matched under each of its labels in order |
| Tokenizer.Tokenize | lib/core/parser.js:47-58 | `tokenize` returns a fresh list, strictly ordered by index, whose contents are `Tokens(src)` |
| Tokenizer.MatchesMatch | lib/core/parser.js:36-45 | every hit is a position where the pattern, lookarounds included, matches |
| Tokenizer.ScansExclusive | lib/core/parser.js:47-58 | no position of a text is hit by the patterns of two types |
| Tokenizer.RecordWellFormed | lib/core/parser.js:40-43 | recording a hit keeps the list strictly ordered with every token visited |
| Tokenizer.MatchPatternsWellFormed | lib/core/parser.js:47-58 | running any sequence of patterns keeps that invariant |
| Tokenizer.TokensSorted | lib/core/parser.js:47-58 | `tokenize` yields tokens in strictly ascending index, so at most one per index |
| Tokenizer.SameIndexSamePosition | lib/core/parser.js:41 | in such a list, an index determines the position, so `find` by index finds that token |
| Tokenizer.TokensSound | lib/core/parser.js:47-58 | every token's type is that of a pattern hit at its index, and its pattern matches there under every label it carries |
| Tokenizer.TokensComplete | lib/core/parser.js:47-58 | wherever a pattern hits under one of its labels, a token of that type carries that label |
| Tokenizer.TokenLabelsExact | lib/core/parser.js:17-33 | a delimiter token carries a label exactly when its pattern was hit at its index under that label |
| Tokenizer.TokenHasLabel | lib/core/parser.js:41-42 | a hit under a label at a delimiter token's index gives the token that label |
| Tokenizer.Labels | lib/core/parser.js:50-53 | a delimiter is run under the labels left and right, any other pattern under the empty label |
| Tokenizer.PatternOf | lib/core/parser.js:49 | every type has its pattern in `PATTERNS` |
| Tokenizer.TokensUnfold | lib/core/parser.js:47-58 | `tokenize` is the eight (pattern, label) scans recorded in `PATTERNS` order |
| Tokenizer.AbsentMarker | lib/core/parser.js:36-45 | a pattern whose marker occurs nowhere is never hit |
| Tokenizer.TokensEmpty | lib/core/parser.js:47-58 | the empty text has no tokens |
| Tokenizer.TokensExample | test/parser.test.js:52-54 | `**bold` gives one left-flanked bold token at 0 |
| Tokenizer.BothExampleMatches | test/parser.test.js:89-91 | on `left.**.right` the bold pattern hits at 5 under both labels and nothing else hits |
| Tokenizer.TokensBothExample | test/parser.test.js:89-91 | `left.**.right` gives ONE bold token at 5 carrying both labels |
| Tokenizer.HitsTwo | lib/core/parser.js:39 | two matches at least a marker's width apart, and nothing else, are visited both, in order |
| Tokenizer.MatchesNone | lib/core/parser.js:36-45 | a pattern that matches at no position of the text is never hit |
| Tokenizer.MatchesOne | lib/core/parser.js:36-45 | a pattern that matches at one position only is hit there once |
| Tokenizer.MatchesTwo | lib/core/parser.js:36-45 | a pattern that matches at two positions only, a marker apart, is hit at both |
| Tokenizer.TokensNone | lib/core/parser.js:47-58 | a text no pattern hits has no tokens |
| Tokenizer.TokensOne | lib/core/parser.js:47-58 | a text one pattern hits once, under one label, has exactly that token |
| Tokenizer.TokensPair | lib/core/parser.js:47-58 | a delimiter opened at `p` and closed at a later `q`, and nothing else, gives the two tokens in index order |
| Tokenizer.TokensBoth | lib/core/parser.js:40-43 | a delimiter hit at one index under both labels, and nothing else, gives ONE token carrying both |
| Tokenizer.TokensBlockPair | lib/core/parser.js:47-58 | a block marker hit at `p` and a later `q`, and nothing else, gives two unlabelled tokens in index order |
| Tokenizer.TokensThrough | lib/core/parser.js:47-58 | with no block marker, the tokens are what the bold, italic and monospaced runs leave, in that order |
| Tokenizer.NestedTokens | lib/core/parser.js:47-58 | backticks around underscores around a bold pair give six tokens in index order, each underscore carrying both labels |
| Tokenizer.NestedBoldRecords | lib/core/parser.js:40-43 | a bold opener and a later closer are recorded as two tokens in index order |
| Tokenizer.NestedItalicRecords | lib/core/parser.js:40-43 | the italic left run inserts a token on each side of the bold pair, and the right run adds its label to both |
| Tokenizer.NestedMonospacedRecords | lib/core/parser.js:40-43 | the monospaced hits are inserted before and after the four inner tokens |
| Tokenizer.TokensLeftItalicExample | test/parser.test.js:46-48 | `_italic` gives one left-flanked italic token at 0 |
| Tokenizer.TokensRightItalicExample | test/parser.test.js:49-51 | `italic_` gives one right-flanked italic token at 6 |
| Tokenizer.TokensRightBoldExample | test/parser.test.js:55-57 | `bold**` gives one right-flanked bold token at 4 |
| Tokenizer.TokensLeftMonospacedExample | test/parser.test.js:58-60 | `` `monospaced `` gives one left-flanked monospaced token at 0 |
| Tokenizer.TokensRightMonospacedExample | test/parser.test.js:61-63 | `` monospaced` `` gives one right-flanked monospaced token at 10 |
| Tokenizer.TokensUnpairedPreformattedExample | test/parser.test.js:64-66 | ```` ```preformatted ```` gives one unlabelled preformatted token at 0, and no monospaced token |
| Tokenizer.TokensItalicExample | test/parser.test.js:68-71 | `_italic_` gives an italic opener at 0 and an italic closer at 7 |
| Tokenizer.TokensBoldExample | test/parser.test.js:72-75 | `**bold**` gives a bold opener at 0 and a bold closer at 6 |
| Tokenizer.TokensMonospacedExample | test/parser.test.js:76-79 | the backticked word gives a monospaced opener at 0 and a closer at 11 |
| Tokenizer.TokensPreformattedExample | test/parser.test.js:80-83 | ```` ```preformatted``` ```` gives two preformatted tokens, at 0 and 15, and no monospaced token |
| Tokenizer.TokensParagraphExample | test/parser.test.js:84-87 | `\n\nparagraph\n\n` gives two paragraph tokens, at 0 and 11 |
| Tokenizer.TokensBothItalicExample | test/parser.test.js:92-94 | `left._.right` gives ONE italic token at 5 carrying both labels |
| Tokenizer.TokensBothMonospacedExample | test/parser.test.js:95-97 | ``left.`.right`` gives ONE monospaced token at 5 carrying both labels |
| Tokenizer.NestedBoldMatches | test/parser.test.js:99-106 | in the nested text bold opens at 2 and closes at 10 |
| Tokenizer.NestedItalicMatches | test/parser.test.js:99-106 | in the nested text the underscores at 1 and 12 are hit under both labels |
| Tokenizer.NestedMonospacedMatches | test/parser.test.js:99-106 | in the nested text the backticks open at 0 and close at 13, and no block marker occurs |
| Tokenizer.TokensNestedExample | test/parser.test.js:99-106 | `` `_**nested**_` `` gives six tokens with the indices and types the test lists: monospaced left at 0, italic at 1, bold left at 2, bold right at 10, italic at 12, monospaced right at 13; both italic tokens carry both labels |
| Tokenizer.TokensNonItalicExample | test/parser.test.js:108 | `____ snake_case ____` gives no token |
| Tokenizer.TokensNonBoldExample | test/parser.test.js:109 | `2 ** 2 = 4, 2**2=4` gives no token |
| Tokenizer.TokensNonMonospacedExample | test/parser.test.js:110 | the text with doubled backticks around ``d`Arc`` gives no token |
| Tokenizer.InnerTokens | lib/core/parser.js:47-58 | a bold marker on each side of an italic pair, and nothing else, gives those four tokens in index order |
| Tokenizer.TokensInnerExample | test/compiler.test.js:17 | `**_nested_**` gives a bold opener at 0, an italic opener at 2, an italic closer at 9 and a bold closer at 10 |
| Tokenizer.TokensTwoParagraphsExample | test/compiler.test.js:8 | `paragraph1\n\nparagraph2` gives one paragraph token at 10 |
| Parser.LeadingNewlines | lib/core/parser.js:152 | the count of leading newlines: all of those characters are newlines, and the next one is not |
| Parser.PreProcess | lib/core/parser.js:152 | the result is no longer than the text and keeps its first character |
| Parser.PreProcessNoTriple | lib/core/parser.js:152 | after `preProcess` no three consecutive newlines remain |
| Parser.PreProcessIdentity | lib/core/parser.js:152 | a text without three consecutive newlines is left as it is |
| Parser.PreProcessIdempotent | lib/core/parser.js:152 | applying `preProcess` twice changes nothing more |
| Parser.PreProcessExample | test/parser.test.js:36-42 | `bar\n\n\n baz` becomes `bar\n\n baz` |
| Parser.PreProcessSpacesExample | test/parser.test.js:36-42 | the spaces around `  foo ` are kept, because nothing trims them |
| Parser.ThenAssoc | lib/core/parser.js:79-83 | running pass pieces is associative, which is how the `do ... while` loop regroups |
| Parser.NextPref | lib/core/parser.js:60-65 | the next preformatted position found is a preformatted token at or after the start |
| Parser.NextPrefSkips | lib/core/parser.js:63-65 | no preformatted token is skipped |
| Parser.FindPref | lib/core/parser.js:63-65 | `find(scope, prefStrat, from)` finds exactly what `NextPref` names |
| Parser.PrefScope | lib/core/parser.js:62-73 | the slice behind a cut is shorter than the scope, so the loop ends |
| Parser.EvalPrefScope | lib/core/parser.js:62-73 | `evalPrefScope` throws the unpaired error of `PrefScope`, or returns its part and slice after pushing its two tokens |
| Parser.EvalPref | lib/core/parser.js:75-86 | `evalPref` throws exactly the error of `PrefPass`, or returns its scopes after pushing its tokens |
| Parser.PrefPassErr | lib/core/parser.js:75-86 | an error in the first scopes is the error of the whole pass |
| Parser.PrefRestNone | lib/core/parser.js:63-64 | a scope without preformatted tokens is handed on whole |
| Parser.PrefRestLone | lib/core/parser.js:65-69 | a scope with one preformatted token fails as unpaired preformatted at that token's index |
| Parser.PrefRestPair | lib/core/parser.js:70-72 | the first two preformatted tokens are pushed, the part in front is handed on, the tokens between are dropped, and the cut goes on behind the closer |
| Parser.PrefScopeParts | lib/core/parser.js:71-72 | the part and slice are the first and third of the three slices `splitArray` makes at the pair |
| Parser.PrefRestPushed | lib/core/parser.js:70 | cutting a scope pushes exactly its preformatted tokens, in order |
| Parser.PrefRestOdd | lib/core/parser.js:62-86 | cutting a scope fails exactly when it holds an odd number of preformatted tokens |
| Parser.PrefRestErrAt | lib/core/parser.js:66-69 | a failing cut reports the last preformatted token of the scope |
| Parser.PrefRestClean | lib/core/parser.js:71-72 | no part handed on holds a preformatted token |
| Parser.PrefRestIdentity | lib/core/parser.js:64 | a scope without preformatted tokens passes through unchanged |
| Parser.PrefPassOne | lib/core/parser.js:77-78 | over one scope the pass is the cut of that scope, and an empty scope is dropped |
| Parser.PrefPassPushed | lib/core/parser.js:75-86 | the pass pushes exactly the preformatted tokens of its scopes, in order |
| Parser.PrefPassClean | lib/core/parser.js:75-86 | no scope handed on holds a preformatted token |
| Parser.PrefPassOdd | lib/core/parser.js:75-86 | the pass fails exactly when some scope holds an odd number of preformatted tokens |
| Parser.PrefPassExample | test/parser.test.js:113-139 | the block between the tokens at 2 and 15 is cut out: those two are pushed, `[bold]` and `[paragraph]` handed on |
| Parser.PrefUnpairedExample | test/parser.test.js:140-147 | a lone preformatted token at 0 is reported unpaired at 0 |
| Parser.ParagraphIndexes | lib/core/parser.js:92-95 | the `reduce` collects positions inside the scope |
| Parser.ParagraphIndexesExact | lib/core/parser.js:92-95 | the positions are increasing and are exactly those of the paragraph tokens |
| Parser.ParagraphPickedPrefix | lib/core/parser.js:92-96 | the tokens at the collected positions are the paragraph tokens, in order |
| Parser.ParagraphScopeSpec | lib/core/parser.js:92-98 | one scope with k paragraph tokens pushes them in order and yields k + 1 parts with no paragraph token, which with the tokens between them rebuild the scope |
| Parser.ParagraphScopeKeeps | lib/core/parser.js:97 | a type absent from a scope is absent from its parts |
| Parser.ParagraphPassSpec | lib/core/parser.js:88-101 | the pass pushes exactly the paragraph tokens in order, hands on no paragraph token, and no type its input lacks |
| Parser.EvalParagraph | lib/core/parser.js:88-101 | `evalParagraph` returns the scopes of `ParagraphPass` and pushes its tokens |
| Parser.ParagraphPassExample | test/parser.test.js:150-184 | the tokens at 9 and 20 are pushed, and two scopes become four, the third empty |
| Parser.ParagraphScopeOne | lib/core/parser.js:92-98 | a scope with one paragraph token is cut in two around it |
| Parser.ParagraphPassTwo | lib/core/parser.js:90-99 | the pass over two non-empty scopes joins their passes |
| Parser.NextFlanked | lib/core/parser.js:106-115 | the position found holds a token of the type carrying the label, at or after the start |
| Parser.NextFlankedSkips | lib/core/parser.js:106-115 | no such token in front of it is skipped |
| Parser.FindFlanked | lib/core/parser.js:106-115 | the two `find` calls of `checkNested` find exactly what `NextFlanked` names |
| Parser.NestedPair | lib/core/parser.js:106-118 | the position reported holds a right-flanked token of the type |
| Parser.NestedPairExists | lib/core/parser.js:106-118 | a type has a nested pair exactly when a left-flanked token of it is followed by a right-flanked one |
| Parser.FirstNested | lib/core/parser.js:105-119 | the type found is one of those searched, and the position holds a token of that type |
| Parser.FirstNestedDelimiters | lib/core/parser.js:105 | over the three delimiters, some pair is found exactly when one of them has one |
| Parser.NestedErrorAsWritten | lib/core/parser.js:117 | as written, the error reports a position inside the slice checked |
| Parser.NestedError | lib/core/parser.js:103-120 | the corrected error reports the source index of a token of the slice |
| Parser.NestedErrorIff | lib/core/parser.js:103-120 | `checkNested` throws exactly when the slice holds a left-flanked delimiter followed by a right-flanked one of the same type, naming a delimiter type and the index of a right-flanked token of it |
| Parser.CheckNested | lib/core/parser.js:103-120 | the method's two `find` calls per delimiter throw exactly the corrected error |
| Parser.NestedIndexExample | test/parser.test.js:223-235 | in the nested test the closer at 10 is reported as 1 as written, as 10 corrected |
| Parser.IndexOf | lib/core/parser.js:135-136 | `indexOf` gives the first position holding the token, and -1 exactly when it is absent |
| Parser.IndexOfSorted | lib/core/parser.js:135-136 | in a scope ordered by index, `indexOf` finds a token at its own position |
| Parser.DelimStep | lib/core/parser.js:127-140 | one token of the inner loop leaves any open token at or before it |
| Parser.DelimScope | lib/core/parser.js:126-141 | the token left open by the loop is one of those already passed |
| Parser.DelimScopeErr | lib/core/parser.js:130-133 | an error ends the loop over a scope: later tokens change nothing |
| Parser.DelimEndErr | lib/core/parser.js:130-133 | an error inside a scope is the error of the scope |
| Parser.DelimPassErr | lib/core/parser.js:124-146 | an error in the first scopes is the error of the whole pass |
| Parser.DelimOpens | lib/core/parser.js:128-133 | with no open token, a left-flanked token opens and any other is unpaired at its own index |
| Parser.DelimCloses | lib/core/parser.js:134-140 | a closer of the open type throws the nested error of the tokens between, or pushes the pair |
| Parser.DelimPasses | lib/core/parser.js:134 | any other token while one is open is passed over and never pushed |
| Parser.EvalDelimScope | lib/core/parser.js:126-145 | one scope throws exactly the error of `DelimScopeEnd`, or pushes its pairs |
| Parser.DelimTokens | lib/core/parser.js:126-141 | the `for` loop throws at the first unpaired or nested token, or ends in the state the inner loop reaches |
| Parser.DelimEnd | lib/core/parser.js:142-145 | a token still open at the end of a scope is unpaired at its own index |
| Parser.ClosePair | lib/core/parser.js:134-140 | the close branch throws the nested error, or pushes the opener and the closer |
| Parser.DelimClose | lib/core/parser.js:134-140 | the close branch throws the error the whole scope ends in, or pushes the opener and the closer on top of the scope's earlier pairs |
| Parser.DelimToken | lib/core/parser.js:127-140 | one turn of the inner loop throws the error the whole scope ends in, or moves to the state of the next token with the pushed pairs in step |
| Parser.EvalDelimiters | lib/core/parser.js:122-148 | `evalDelimeters` throws exactly the error of `DelimPass`, or returns its scopes unchanged after pushing its tokens |
| Parser.PairedJoin | lib/core/parser.js:138 | runs of pairs joined are a run of pairs |
| Parser.DelimScopePaired | lib/core/parser.js:126-141 | inside a scope the pushed tokens come in left/right pairs of one type, all tokens of the scope, and an open token is left-flanked |
| Parser.DelimPassPaired | lib/core/parser.js:122-148 | the pass pushes pairs of tokens of its scopes, so a type absent from them is absent from what it pushes |
| Parser.DelimFirstUnpaired | lib/core/parser.js:128-133 | a scope whose first token is not left-flanked fails at that token |
| Parser.DelimClosesSorted | lib/core/parser.js:134-140 | in an ordered scope, closing fails exactly when the tokens strictly between hold a nested pair, and then with a nested error |
| Parser.NestedInner | lib/core/parser.js:137 | a nested pair of the slice between opener and closer is one of the scope between them |
| Parser.IndexOfFirst | lib/core/parser.js:135-136 | `indexOf` finds a token at its first occurrence |
| Parser.DelimAdjacentPair | lib/core/parser.js:128-140 | an opener followed straight away by a closer of its type is pushed as a pair |
| Parser.DelimTwoPairsExample | test/parser.test.js:187-206 | the first scope of the delimiter tests has both its pairs pushed |
| Parser.DelimBoldExample | test/parser.test.js:195-221 | the bold pair at 22 and 25 is pushed; the bold opener alone is unpaired at 22 |
| Parser.DelimPassOne | lib/core/parser.js:124-146 | a pass over one scope is that scope's loop |
| Parser.DelimPassTwo | lib/core/parser.js:124-146 | a pass over two scopes, when the first passes, adds the second's pairs or fails with its error |
| Parser.DelimPassExample | test/parser.test.js:186-222 | with the bold pair every token is pushed; with the bold opener alone the pass fails unpaired bold at 22 |
| Parser.DelimNestedExample | test/parser.test.js:223-235 | the monospaced pair inside the italic pair fails nested monospaced at 10 |
| Parser.ParseSpec | lib/core/parser.js:154-160 | the text `parse` returns has no three consecutive newlines |
| Parser.Collect | lib/core/parser.js:157-159 | `parse` returns the preprocessed text unchanged beside its tokens |
| Parser.PairedEven | lib/core/parser.js:138 | pairs hold every type an even number of times |
| Parser.DelimPassErrKind | lib/core/parser.js:122-148 | the delimiter pass reports only a delimiter type or a type of its scopes |
| Parser.PrefStage | lib/core/parser.js:75-86 | over all tokens, the preformatted pass pushes the preformatted tokens, an even number of them, and hands on none |
| Parser.ResolveEven | lib/core/parser.js:150-158 | every type but paragraph is pushed by the pipeline an even number of times |
| Parser.ResolvePrefOdd | lib/core/parser.js:66-69 | with an odd number of preformatted tokens the pipeline fails on the last of them |
| Parser.ResolveAfterPref | lib/core/parser.js:150-158 | once the preformatted pass succeeds, their number was even and no later pass reports a preformatted token |
| Parser.PrefPassErrOdd | lib/core/parser.js:75-86 | the preformatted pass fails only on an odd number of preformatted tokens |
| Parser.ResolvePrefErr | lib/core/parser.js:150-158 | a preformatted token is reported only when their number is odd |
| Parser.CollectSorted | lib/core/parser.js:157-159 | `parse` returns its tokens in index order, exactly the tokens the passes accepted |
| Parser.CollectEven | lib/core/parser.js:157-159 | bold, italic, monospaced and preformatted tokens each come out of `parse` an even number of times |
| Parser.CollectPrefUnpaired | lib/core/parser.js:154-160 | `parse` fails on an unpaired preformatted token exactly when their number is odd, and reports the last one |
| Parser.ParseProperties | lib/core/parser.js:154-160 | for `parse` itself: sorted tokens, a text preprocessing leaves alone, even counts, and the unpaired preformatted error exactly on an odd count |
| Parser.Parse | lib/core/parser.js:154-160 | `parse` throws exactly the error of `ParseSpec`, or returns a fresh ordered list holding its tokens and its text |
| Parser.ParseEmpty | lib/core/parser.js:154-160 | the empty text parses to no tokens |
| Parser.ParagraphIndexesNone | lib/core/parser.js:92-95 | a scope without paragraph tokens collects no paragraph index |
| Parser.ParagraphPassWhole | lib/core/parser.js:88-101 | a non-empty scope without paragraph tokens passes whole, with nothing pushed |
| Parser.ResolveDelimPair | lib/core/parser.js:150-158 | a left-flanked opener followed by a right-flanked closer of one delimiter type is pushed as a pair by the pipeline |
| Parser.ParseDelimPair | lib/core/parser.js:154-160 | a text that tokenizes to such a pair parses to those two tokens and itself |
| Parser.PrefPassPair | lib/core/parser.js:62-86 | two preformatted tokens are pushed and leave two empty scopes |
| Parser.ResolvePrefPair | lib/core/parser.js:150-158 | the pipeline pushes two preformatted tokens as a pair |
| Parser.ParsePrefPair | lib/core/parser.js:154-160 | a text that tokenizes to two preformatted tokens parses to those tokens and itself |
| Parser.ResolveLone | lib/core/parser.js:66-69 | a lone token that is not a paragraph break fails the pipeline, unpaired at its own index |
| Parser.ParseLone | lib/core/parser.js:154-160 | a text that tokenizes to one such token fails to parse, unpaired at that token |
| Parser.ResolveParagraph | lib/core/parser.js:88-101 | a lone paragraph token is pushed and nothing fails |
| Parser.ParseParagraph | lib/core/parser.js:154-160 | a text that tokenizes to one paragraph token parses to that token and itself |
| Parser.InnerNested | lib/core/parser.js:103-120 | an italic pair alone is a nested italic pair, at the closer's index corrected and at 1 as written |
| Parser.DelimInner | lib/core/parser.js:126-145 | a bold pair around an italic pair fails nested italic at the italic closer |
| Parser.ResolveInner | lib/core/parser.js:150-158 | the pipeline fails on a bold pair around an italic pair with nested italic at the italic closer's index, where the code as written reports 1 |
| Parser.ParseItalicExample | test/compiler.test.js:30-33 | `_italic_` parses to italic tokens at 0 and 7 |
| Parser.ParseBoldExample | test/compiler.test.js:34-37 | `**bold**` parses to bold tokens at 0 and 6 |
| Parser.ParseMonospacedExample | test/compiler.test.js:38-41 | `` `monospaced` `` parses to monospaced tokens at 0 and 11 |
| Parser.ParsePreformattedExample | test/compiler.test.js:46-49 | ```` ```preformatted``` ```` parses to preformatted tokens at 0 and 15 |
| Parser.ParseUnpairedBoldExample | test/compiler.test.js:67-68 | `**bold` fails unpaired bold at 0, `bold**` at 4 |
| Parser.ParseUnpairedItalicExample | test/compiler.test.js:69-70 | `_italic` fails unpaired italic at 0, `italic_` at 6 |
| Parser.ParseUnpairedMonospacedExample | test/compiler.test.js:71-72 | `` `monospaced `` fails unpaired monospaced at 0, `` monospaced` `` at 10 |
| Parser.ParseUnpairedPreformattedExample | test/compiler.test.js:73 | ```` ```preformatted ```` fails unpaired preformatted at 0 |
| Parser.ParseInnerExample | test/compiler.test.js:75-77 | `**_nested_**` fails nested italic at 9 |
| Parser.ParseTwoParagraphsExample | test/compiler.test.js:42-45 | `paragraph1\n\nparagraph2` parses to one paragraph token at 10 and itself |
| Compiler.Zeros | lib/core/compiler.js:8 | every counter starts at 0 |
| Compiler.TypeCompiler.constructor | lib/core/compiler.js:7-9 | a decorator starts with its counter at 0 |
| Compiler.TypeCompiler.Apply | lib/core/compiler.js:10-15 | a call returns the slice up to the token and the decoration the counter selects, then flips the counter |
| Compiler.CountersAfter | lib/core/compiler.js:30-35 | the counters stay 0 or 1 through the loop |
| Compiler.Render | lib/core/compiler.js:27-37 | rendering keeps the counters 0 or 1 |
| Compiler.CompileSpec | lib/core/compiler.js:26-38 | a call fails exactly when `parse` fails, with its error |
| Compiler.CompileAsWritten | lib/core/compiler.js:29-36 | with the defect of reading `sanitized` as written, every call throws: the parse error, or the `TypeError` exactly when parsing succeeds; it runs over the corrected parse, so it models only that defect |
| Compiler.CreateCompilers | lib/core/compiler.js:18-21 | one fresh decorator per type, each distinct, each with its counter at 0 |
| Compiler.Compiler.Counters | lib/core/compiler.js:7-16 | the counters the decorators hold are each 0 or 1 |
| Compiler.Compiler.constructor | lib/core/compiler.js:23-25 | `compile(map)` makes the decorators once, all counters at 0 |
| Compiler.Compiler.Compile | lib/core/compiler.js:26-38 | a call returns what `CompileSpec` does; a failing call leaves every counter unchanged, a successful one leaves the counters the walk reaches |
| Compiler.Compiler.Walk | lib/core/compiler.js:30-35 | the loop appends each token's decorator output and ends at the offset past the last marker, with each counter flipped once per token of its type |
| Compiler.Compiler.Dispatch | lib/core/compiler.js:31-32 | only the decorator of the token's type is called, and only its counter moves |
| Compiler.CompileHTML | lib/core/compiler.js:41 | `compileHTML` is made once, with zero counters |
| Compiler.CompileANSI | lib/core/compiler.js:42 | `compileANSI` is made once, with zero counters |
| Compiler.WalkCounters | lib/core/compiler.js:13 | after the loop each counter is its start plus the number of tokens of its type, modulo 2 |
| Compiler.WalkStep | lib/core/compiler.js:30-35 | one more token appends that token's decorator output and flips only its type's counter |
| Compiler.CompileCountersKept | lib/core/compiler.js:23-38 | after a successful call every counter but paragraph's is back at its starting value, so calls do not affect each other |
| Compiler.CompileOk | lib/core/compiler.js:26-38 | a call on a text that parses renders the parsed text |
| Compiler.CompileValue | lib/core/compiler.js:26-38 | a successful call's output is the document open string, the loop's output, the rest of the text and the document close string |
| Compiler.RenderCountersKept | lib/core/compiler.js:30-35 | a type with an even number of tokens leaves its counter where it was |
| Compiler.ParagraphCounterUnseen | lib/core/compiler.js:12 | the paragraph counter never shows in the output: both of its decorations are the same |
| Compiler.AnsiParagraphCopies | lib/core/compiler.js:11-12 | in ANSI, a paragraph decorator call copies the text up to the end of its marker |
| Compiler.MarkerAhead | lib/core/compiler.js:33 | paragraph markers in order lie ahead of the offset, and the walk resumes behind each one |
| Compiler.AnsiWalkStep | lib/core/compiler.js:30-35 | in ANSI, a paragraph token extends the copied prefix of the text to the end of its marker |
| Compiler.AnsiWalkCopies | lib/core/compiler.js:30-35 | in ANSI, the walk over paragraph tokens copies the text up to the last marker's end |
| Compiler.RenderText | lib/core/compiler.js:27-37 | the output is the document open string, the loop's output, the text behind the last marker and the document close string |
| Compiler.AnsiParagraphsIdentity | lib/core/compiler.js:23-38 | in ANSI, a text whose only tokens are paragraph breaks compiles to itself |
| Compiler.RenderOne | lib/core/compiler.js:27-37 | one token: the text in front, its decoration, the text behind, and its counter flips |
| Compiler.WalkTwo | lib/core/compiler.js:30-35 | two tokens: the first call's output, then the second's, with the counters and offset the first left |
| Compiler.WalkPair | lib/core/compiler.js:30-35 | a pair of one type from counter 0 gives text, opening decoration, text between, closing decoration |
| Compiler.PairCounters | lib/core/compiler.js:13 | two tokens of one type flip its counter back |
| Compiler.RenderPair | lib/core/compiler.js:27-37 | a pair of markers becomes its opening and closing decorations around the text between, inside the document strings, with the counters restored |
| Compiler.HtmlItalicExample | test/compiler.test.js:30-33 | `_italic_` with its two italic tokens renders as `<p><i>italic</i></p>`, for any body text |
| Compiler.HtmlParagraphExample | test/compiler.test.js:42-45 | two paragraphs around a paragraph token render as `<p>a</p><p>b</p>` |
| Compiler.CompileEmptyExample | test/compiler.test.js:63-65 | the empty text compiles to `<p></p>`; as written the same call throws |
| Compiler.RenderEmpty | lib/core/compiler.js:27-37 | a text without tokens is output as itself between the document strings |
| Compiler.RenderWrapped | lib/core/compiler.js:27-37 | a text that is one marker, a body and the same marker renders as the body between the type's two HTML decorations, inside `<p>` and `</p>`, with the counters restored |
| Compiler.CompilePair | lib/core/compiler.js:26-38 | such a text, when it parses to its two markers, compiles to that output |
| Compiler.CompileItalicExample | test/compiler.test.js:30-33 | `_italic_` compiles to `<p><i>italic</i></p>` from the source text |
| Compiler.CompileBoldExample | test/compiler.test.js:34-37 | `**bold**` compiles to `<p><strong>bold</strong></p>` |
| Compiler.CompileMonospacedExample | test/compiler.test.js:38-41 | `` `monospaced` `` compiles to `<p><tt>monospaced</tt></p>` |
| Compiler.CompileParagraphExample | test/compiler.test.js:42-45 | `paragraph1\n\nparagraph2` compiles to `<p>paragraph1</p><p>paragraph2</p>` |
| Compiler.CompilePreformattedExample | test/compiler.test.js:46-49 | ```` ```preformatted``` ```` compiles to `<p><pre>preformatted</pre></p>` |
| Compiler.CompileUnpairedExample | test/compiler.test.js:66-74 | each of the seven unpaired texts fails with the unpaired error of its type and index, both corrected and with the `sanitized` defect; the nested-index defect does not touch these |
| Compiler.CompileNestedExample | test/compiler.test.js:75-77 | `**_nested_**` fails with nested italic at 9 once corrected, also with the `sanitized` defect alone; the nested check as written reports the italic closer at 1, its position in the slice between the bold markers |

## Left out

- Reading and writing files, the command line, and the configuration (`index.js`, `config.js`,
  `lib/io/fs.js`) are not part of this model.
- The Unicode character classes `\p{Z}`, `\p{P}`, `\p{L}` and `\p{N}` are modelled on ASCII, plus
  the Unicode space separators. Other non-ASCII characters are in no class.
- There is no general regular-expression engine. Each pattern is a hand-written position
  predicate, and the `exec` loop is a left-to-right scan.
- ANSI escape sequences are opaque strings.
- The strings `res` collects are joined by concatenation as they are produced, not at the end.
- The passes of `parse` push token values, not the `Token` objects themselves. `indexOf` compares
  values, which in an index-ordered scope is the same test as object identity.
- The scopes of `evalPref`, `evalParagraph` and `evalDelimeters` are sequences of token values.
  Array-subclass behaviour of `slice` on a `SortedList` is not modelled.
- The `SortedList` strategy is modelled as a key, with `a` ordered before `b` when `key(a) < key(b)`.
  Both strategies the source uses have that form.
- Every tokenizer test (test/parser.test.js:46-110) is proved as a concrete case. The general
  lemmas `Constants.IntrawordNotFlanked` and `Constants.FlankNotFacingSpace` cover only part of
  why the last three texts give no tokens. The runs of underscores and the doubled backticks
  are rejected because a marker faces its own character, which only the concrete lemmas show.
- Text is a sequence of Unicode code points. In JavaScript, `match.index`, `slice` and `length`
  count UTF-16 code units. A character outside the Basic Multilingual Plane before a marker
  therefore shifts the token indices and the index in error messages by one per such character.
  The compiled output is the same either way.
- The parse test (test/parser.test.js:238-254) and the complex compiler test
  (test/compiler.test.js:50-62) are not proved as concrete cases; `Compiler.RenderPair`,
  `Parser.PrefRestPair` and `Compiler.CompileValue` state the general behaviour they rely on.
  Every other compiler test is proved from its source text: `Compiler.CompileItalicExample`,
  `Compiler.CompileBoldExample`, `Compiler.CompileMonospacedExample`,
  `Compiler.CompileParagraphExample`, `Compiler.CompilePreformattedExample`,
  `Compiler.CompileEmptyExample`, `Compiler.CompileUnpairedExample` and
  `Compiler.CompileNestedExample`. The outputs are those of the corrected `compile`; as written,
  every text that parses throws (see "Findings"). The general lemmas that decide the throwing
  cases are `Parser.DelimFirstUnpaired`, `Parser.DelimEnd`, `Parser.DelimClosesSorted`,
  `Parser.CollectPrefUnpaired` and `Parser.DelimNestedExample`.
- Compiler.CompileAsWritten: models only the `sanitized` defect, over the corrected parse. No
  member runs the whole pipeline with both defects. For the nested text, the as-written nested
  index is stated on the slice `checkNested` receives (`Compiler.CompileNestedExample`,
  `Parser.ResolveInner`).
- Compiler.HtmlItalicExample: stated on the parsed tokens, for any body text. The text `_italic_`
  itself is `Compiler.CompileItalicExample`.
- Compiler.HtmlParagraphExample: stated on the parsed tokens, for any two paragraphs. The text of
  the test itself is `Compiler.CompileParagraphExample`.
- Compiler.AnsiParagraphsIdentity: stated for a parsed text whose tokens are all paragraph tokens
  on their markers, not for any source text without delimiters. A preformatted pair in such a
  text would still be decorated.

## Findings

| source | as written | input that shows it | evidently intended | confidence | as-written member | corrected member |
|---|---|---|---|---|---|---|
| lib/core/compiler.js:29 | `compile` destructures `sanitized` from the result of `parse`, which returns `processed`, so the text is `undefined` and the first `slice` on it throws a `TypeError` | `compileHTML('')` throws instead of returning `<p></p>` | compile over the `processed` text | high (not executed) | Compiler.CompileAsWritten | Compiler.CompileSpec |
| lib/core/parser.js:117 | `checkNested` reports `rIdx`, the position of the closer inside the slice it was given | the nested test scope: italic at 3 and 13 around monospaced at 6 and 10 reports 1 | report the closer's index in the source text, 10, as the test expects | high (not executed) | Parser.NestedErrorAsWritten | Parser.NestedError |
