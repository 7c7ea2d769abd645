# A toy web browser, modelled in Dafny

This project models the core of a small web browser written in Kotlin. The
repository holds two generations of the browser side by side. The older one
lives under `src/io/github/mpichler94/browser/`. The newer one lives under
`src/main/java/io/github/mpichler94/browser/`, together with a small HTTP
server under `src/main/java/io/github/mpichler94/server/`.

What is modelled:

- **HTML parsing** (`HtmlParser`): lexing text and tags, attribute parsing,
  self-closing tags, and the implicit `html`/`head`/`body` repair. The result is
  a `Dom.Node` tree.
- **CSS** (`CssParser`): declaration bodies, selectors (tag, class,
  descendant, list) with their priorities, and rule lists that skip bad input.
  Also selector matching against a node and its ancestors.
- **The cascade**: inherited properties, the stable sort of rules by priority,
  style application, and percentage font sizes.
- **Networking**: URL parsing and resolution, request lines and headers,
  cookies and their expiry, the HTTP client's cookie jar and
  `Content-Security-Policy` handling, and the response cache with `max-age`.
  Also the server's request handling, form decoding and replies.
- **Browser state**: tabs with history, scrolling and resizing; the browser's
  list of tabs and its active tab; the chrome's address bar with cursor
  editing; and the JavaScript bridge's node handles, `querySelectorAll`,
  `getAttribute`, `innerHTML` and `outerHTML`.
- **Layout**, for both engines. The newer engine splits children into block
  and inline runs, places words, wraps lines, and paints. The older engine is
  one `BlockLayout` class that switches between block and inline mode and
  keeps its own font state (`i`, `b`, `small`, `big`, `sup`, `abbr`, `pre`).
- The old text-only `show` function.

Pure code (parsers, matching, the cascade, layout) is modelled as functions
over datatypes. Objects whose fields the source updates in place (the
parsers, tabs, browser, chrome, HTTP client, cache, server, JavaScript context
and layout objects) are classes. Their methods are specified by those
functions. Kotlin exceptions become the `Outcome` datatype (`Ok` or
`Fail` with the exception kind), and the exceptions a modelled operation
throws are part of its contract. The exceptions that arise only inside code
this model takes as a parameter (a float parse, a URL built from an origin,
the clock, socket reads) are listed under "## Left out".

The operations model the program as written, including the defects listed
under "## Findings". For each defect a corrected definition sits beside the
as-written one and carries the property the code evidently intends.

Where the repository's own description and its code disagree, the model
follows the code:

- The class-selector test is inverted: the node's classes must all be among
  the selector's.
- A `pre` text node is one unbreakable word as a whole, not one per line.
- In the newer engine a `sup` word is measured raised but drawn on the
  baseline, because `flush` places words by the baseline alone.

## Model

| member | source | states |
|---|---|---|
| Strings.ParseInteger | src/io/github/mpichler94/browser/URL.kt:24 | `toInt()`/`toLong()` read a value exactly when the text is one or more ASCII digits, optionally after one `-` or `+` |
| Strings.ToInt | src/io/github/mpichler94/browser/URL.kt:24 | `toInt()`: a read value lies in the 32-bit range and is the text's integer; anything else throws NumberFormat |
| Strings.ToLong | src/main/java/io/github/mpichler94/browser/HttpClient.kt:203 | `toLong()`: a read value lies in the 64-bit range and is the text's integer; anything else throws NumberFormat |
| Strings.Trim | src/main/java/io/github/mpichler94/browser/HtmlParser.kt:137 | `trim()`: no longer than the text, and neither starting nor ending with whitespace |
| Strings.SplitOn | src/main/java/io/github/mpichler94/browser/HtmlParser.kt:130 | `split(*delims)` gives at least one piece |
| Strings.SplitOnJoin | src/io/github/mpichler94/browser/CssParser.kt:239 | splitting on one character and joining the pieces with it gives the text back |
| Strings.SplitOnAvoids | src/main/java/io/github/mpichler94/browser/HtmlParser.kt:130 | no piece of a split holds a delimiter |
| HtmlParsing.DecodeEntity | src/main/java/io/github/mpichler94/browser/HtmlParser.kt:10 | `&lt;` decodes to `<`, `&gt;` to `>`, and any other entity name decodes to the name itself |
| HtmlParsing.AttributeOf | src/main/java/io/github/mpichler94/browser/HtmlParser.kt:133-139 | an attribute piece `k=v` gives the lower-cased, trimmed key and the trimmed value with EVERY leading and trailing quote (`"` or `'`) stripped, so the value neither starts nor ends with a quote; a piece without `=` gives the key and the value "" |
| HtmlParsing.AttributeEntries | src/main/java/io/github/mpichler94/browser/HtmlParser.kt:133-140 | every piece contributes one entry, keys are lower case, in the order of the pieces |
| HtmlParsing.AttributesOk | src/main/java/io/github/mpichler94/browser/HtmlParser.kt:129-142 | the attribute map built from the pieces has distinct, lower-case keys |
| HtmlParsing.LastPieceWins | src/main/java/io/github/mpichler94/browser/HtmlParser.kt:133-140 | when a key repeats, the value of its last piece is the one kept, at the position of its first occurrence |
| HtmlParsing.ImplicitTag | src/main/java/io/github/mpichler94/browser/HtmlParser.kt:144-170 | the implied tag is `html` on an empty stack, `head` or `body` right under `html` (by whether the tag is a head tag), `/head` when body content meets an open `head`, and the closing `/p` or `/li` before a nested `p` or `li`; otherwise none |
| HtmlParsing.InsertTags | src/main/java/io/github/mpichler94/browser/HtmlParser.kt:96-113 | the tag stack after one tag: a closing tag pops into the parent unless only one element is left, a self-closing tag leaves the stack alone, any other tag is pushed |
| HtmlParsing.RepairTags | src/main/java/io/github/mpichler94/browser/HtmlParser.kt:144-177 | repairing the stack for a tag terminates in a stack for which no further tag is implied, so the loop in implicitTags stops |
| HtmlParsing.ImpliedBody | src/main/java/io/github/mpichler94/browser/HtmlParser.kt:148-158 | the first body tag on an empty document is preceded by `html` and `body` |
| HtmlParsing.HeadClosedByBodyContent | src/main/java/io/github/mpichler94/browser/HtmlParser.kt:160-162 | body content arriving while `head` is open first closes `head` |
| HtmlParsing.Tags | src/main/java/io/github/mpichler94/browser/HtmlParser.kt:146 | the tag list of the open-element stack, element by element |
| HtmlParsing.Lex | src/main/java/io/github/mpichler94/browser/HtmlParser.kt:22-69 | one character of the scanner: text is flushed only when not blank, a tag is emitted only when not blank and not a comment, `&` outside tags and scripts opens an entity, and inside a tag or script it is kept in the buffer |
| HtmlParsing.LessThanEntity | src/main/java/io/github/mpichler94/browser/HtmlParser.kt:60-65 | the characters `&lt;` outside a tag put `<` in the text buffer |
| HtmlParsing.UnknownEntityKept | src/main/java/io/github/mpichler94/browser/HtmlParser.kt:63 | an unknown entity name is put back into the buffer verbatim |
| HtmlParsing.ScriptKeepsMarkup | src/main/java/io/github/mpichler94/browser/HtmlParser.kt:30 | inside a script a `<` is text, not the start of a tag |
| HtmlParsing.QuotedGreaterThan | src/main/java/io/github/mpichler94/browser/HtmlParser.kt:25-38 | a `>` inside a quoted attribute does not end the tag |
| HtmlParsing.EntityClearedOutside | src/main/java/io/github/mpichler94/browser/HtmlParser.kt:60-67 | whenever the scanner is not inside an entity, the collected entity name is empty |
| HtmlParsing.ImpliedHtml | src/main/java/io/github/mpichler94/browser/HtmlParser.kt:148-150 | any tag on an empty stack implies `html` first |
| HtmlParsing.ImpliedHead | src/main/java/io/github/mpichler94/browser/HtmlParser.kt:148-154 | a head tag directly under `html` implies `head` |
| HtmlParsing.NoDirectNesting | src/main/java/io/github/mpichler94/browser/HtmlParser.kt:164-170 | a `p` inside an open `p`, or an `li` inside an open `li`, closes the open one first |
| HtmlParsing.WithChild | src/main/java/io/github/mpichler94/browser/HtmlParser.kt:85-107 | attaching a node appends it to the children of the top element and changes nothing else in the stack |
| HtmlParsing.HtmlParser.constructor | src/main/java/io/github/mpichler94/browser/HtmlParser.kt:3 | a parser over the body with an empty stack of unfinished elements |
| HtmlParsing.HtmlParser.Parse | src/main/java/io/github/mpichler94/browser/HtmlParser.kt:15-75 | parsing any text yields an element tagged `html` whose tree is well formed, and leaves no unfinished element |
| HtmlParsing.HtmlParser.Attach | src/main/java/io/github/mpichler94/browser/HtmlParser.kt:85-107 | the node becomes the last child of the top unfinished element; the tags of the stack and all lower elements are unchanged |
| HtmlParsing.HtmlParser.PopIntoParent | src/main/java/io/github/mpichler94/browser/HtmlParser.kt:101-124 | the top element is removed from the stack and becomes the last child of the element below it |
| HtmlParsing.HtmlParser.Insert | src/main/java/io/github/mpichler94/browser/HtmlParser.kt:96-113 | the stack's tags follow InsertTags; an opening tag pushes a new element with its parsed attributes, a self-closing tag is attached to the top element |
| HtmlParsing.HtmlParser.Push | src/main/java/io/github/mpichler94/browser/HtmlParser.kt:110-112 | a new element with the tag and attributes is pushed and nothing else changes |
| HtmlParsing.HtmlParser.ImplicitTags | src/main/java/io/github/mpichler94/browser/HtmlParser.kt:144-177 | the stack's tags become RepairTags of the old tags; when no tag is implied the stack is unchanged |
| HtmlParsing.HtmlParser.AddText | src/main/java/io/github/mpichler94/browser/HtmlParser.kt:77-86 | blank text changes nothing; other text ends up as a Text node carrying that text, the last child of the top element |
| HtmlParsing.HtmlParser.GetAttributes | src/main/java/io/github/mpichler94/browser/HtmlParser.kt:129-142 | the tag name is the first word of the tag text in lower case and the attributes are those of the remaining pieces |
| HtmlParsing.HtmlParser.AddTag | src/main/java/io/github/mpichler94/browser/HtmlParser.kt:88-114 | a `!` tag is dropped; otherwise implied tags are inserted first and then the tag is closed, attached or pushed as InsertTags says, with the element `Element(tag, attributes)` |
| HtmlParsing.HtmlParser.Finish | src/main/java/io/github/mpichler94/browser/HtmlParser.kt:116-127 | every unfinished element is popped into its parent and the `html` root is returned, well formed, with the stack emptied |
| Dom.TreeToList | src/main/java/io/github/mpichler94/browser/HtmlParser.kt:189-194 | the list is the pre-order of the tree: it starts with the node itself and has one entry per node of the tree |
| Dom.PreOrderSize | src/main/java/io/github/mpichler94/browser/HtmlParser.kt:189-194 | the pre-order of a tree has as many entries as the tree has nodes, and starts with the root |
| Dom.NewElement | src/main/java/io/github/mpichler94/browser/HtmlParser.kt:215 | a new element has the given tag and attributes, no children and no style |
| Dom.OpenTagText | src/main/java/io/github/mpichler94/browser/HtmlParser.kt:220-229 | the opening tag text is `<`, the tag name, then — when the attribute listing is not blank — a space and the attributes joined by spaces, each `key="value"` or the bare key when its value is blank, then `>` |
| Dom.OpenTagOneAttribute | src/main/java/io/github/mpichler94/browser/HtmlParser.kt:220-229 | one attribute prints as `<tag key="value">`, or as `<tag key>` when the value is blank |
| Css.Add | src/io/github/mpichler94/browser/CssParser.kt:272-274 | adding a selector to a list keeps its first member and earlier members and appends the new one |
| Css.MaxPriority | src/io/github/mpichler94/browser/CssParser.kt:270 | the maximum is at least every member's priority and equals one of them (0 for no members) |
| Css.ListPriority | src/io/github/mpichler94/browser/CssParser.kt:270 | a selector list's priority is at least that of each member and equal to that of one member |
| Css.AncestorMatchesSome | src/io/github/mpichler94/browser/CssParser.kt:179-191 | the descendant selector's ancestor walk succeeds exactly when some strict ancestor matches the ancestor selector in its own ancestor context |
| Css.AnyMatchesSome | src/io/github/mpichler94/browser/CssParser.kt:276-278 | a selector list matches a node exactly when one of its members does |
| Css.TextMatchesNothing | src/io/github/mpichler94/browser/CssParser.kt:234-244 | no selector matches a text node |
| Css.TextNoneMatch | src/io/github/mpichler94/browser/CssParser.kt:234-244 | no selector list matches a text node |
| Css.ClassTestInverted | src/io/github/mpichler94/browser/CssParser.kt:239 | as written, `.a` does not match an element with classes `a b`, and `.a.b` matches an element with only class `a` |
| Css.ClassTestIntended | src/io/github/mpichler94/browser/CssParser.kt:239 | the intended test matches `.a` against classes `a b` and rejects `.a.b` against class `a` |
| Css.DescendantMatches | src/io/github/mpichler94/browser/CssParser.kt:179-191 | the loop over the ancestors returns exactly whether the descendant selector matches the node |
| Css.ClassPriority | src/io/github/mpichler94/browser/CssParser.kt:220-232 | a class selector's priority is one for a non-blank tag before the `.` plus the number of class names after it |
| Css.ShapedPriority | src/io/github/mpichler94/browser/CssParser.kt:155-231 | every selector of the shapes the parser builds has priority at least one |
| Css.SkipWhitespace | src/io/github/mpichler94/browser/CssParser.kt:56-60 | skipping whitespace never moves backward or past the end |
| Css.SkipWhitespaceSkips | src/io/github/mpichler94/browser/CssParser.kt:56-60 | everything skipped is whitespace and the stop is the end or a non-whitespace character |
| Css.WordEnd | src/io/github/mpichler94/browser/CssParser.kt:62-73 | the end of a word is where it starts exactly when no word character is there |
| Css.WordEndSkips | src/io/github/mpichler94/browser/CssParser.kt:62-73 | every character of the word is a word character and the stop is the end or a non-word character |
| Css.WordAt | src/io/github/mpichler94/browser/CssParser.kt:62-73 | reading a word succeeds exactly when a word character is at the position, and then advances; otherwise it fails with IllegalState without moving |
| Css.WordAtIsWord | src/io/github/mpichler94/browser/CssParser.kt:62-73 | a word read successfully is made of word characters and is maximal |
| Css.ValueAt | src/io/github/mpichler94/browser/CssParser.kt:89-100 | a value read succeeds exactly when it advances; its failure is IllegalState |
| Css.ValueAtOk | src/io/github/mpichler94/browser/CssParser.kt:89-100 | a value read from a non-blank position is well formed |
| Css.PairAt | src/io/github/mpichler94/browser/CssParser.kt:80-87 | a declaration read advances when it succeeds and fails only with IllegalState |
| Css.PairAtOk | src/io/github/mpichler94/browser/CssParser.kt:80-87 | a declaration read successfully has a lower-case property name and a well-formed value |
| Css.NoColonPairFails | src/io/github/mpichler94/browser/CssParser.kt:80-87 | a property that runs into `;` or `}` without `:` fails the declaration, leaving the position before that stop |
| Css.SelectorAt | src/io/github/mpichler94/browser/CssParser.kt:139-146 | a selector read succeeds with a tag or class selector and advances, or fails with IllegalState without moving |
| Css.TagSelectorAt | src/io/github/mpichler94/browser/CssParser.kt:139-146 | a word without `.` yields the tag selector of that word and stops at its end |
| Css.CombineFrom | src/io/github/mpichler94/browser/CssParser.kt:113-137 | the combinator loop stops at the end or at `{` |
| Css.CombinatorAt | src/io/github/mpichler94/browser/CssParser.kt:113-137 | a combinator read stops at the end or at `{` |
| Css.CombineShaped | src/io/github/mpichler94/browser/CssParser.kt:113-137 | the combinator loop turns a well-shaped selector into a well-shaped selector |
| Css.CombinatorShaped | src/io/github/mpichler94/browser/CssParser.kt:113-137 | every parsed combinator is a tag, class, descendant or list selector of that shape |
| Css.ListAbsorbs | src/io/github/mpichler94/browser/CssParser.kt:121-130 | once the selector is a list, later selectors are appended to it and the members so far are kept |
| Css.ListExample | src/io/github/mpichler94/browser/CssParser.kt:113-137 | `pre, code` parses to the list of the two tag selectors |
| Css.DescendantExample | src/io/github/mpichler94/browser/CssParser.kt:113-137 | `header h1` parses to the descendant selector with ancestor `header` and descendant `h1` |
| Css.DeclarationPass | src/io/github/mpichler94/browser/CssParser.kt:33-54 | one pass of the body loop advances when it continues, and otherwise stops at the end or at `}` |
| Css.AfterPair | src/io/github/mpichler94/browser/CssParser.kt:36-47 | after a pair is read the body loop advances when it continues, and otherwise stops at the end or at `}` |
| Css.SkipDeclarationAt | src/io/github/mpichler94/browser/CssParser.kt:42-50 | skipping a bad declaration keeps the stored pairs and advances, or stops at the end or at `}` |
| Css.BodyFrom | src/io/github/mpichler94/browser/CssParser.kt:33-54 | the body loop never moves backward or past the end |
| Css.DeclarationPassOk | src/io/github/mpichler94/browser/CssParser.kt:33-54 | one pass keeps the body well formed and keeps every property already stored |
| Css.BodyStops | src/io/github/mpichler94/browser/CssParser.kt:33-54 | the body loop stops at the end or at `}` |
| Css.BodyFromOk | src/io/github/mpichler94/browser/CssParser.kt:33-54 | a parsed body is well formed: lower-case properties and well-formed values |
| Css.BodyKeeps | src/io/github/mpichler94/browser/CssParser.kt:33-54 | a property stored before the loop is still present after it |
| Css.LastDeclarationKept | src/io/github/mpichler94/browser/CssParser.kt:37-41 | a final declaration before `}` is put into the body, replacing an earlier value of the same property |
| Css.DeclarationWithoutColonSkipped | src/io/github/mpichler94/browser/CssParser.kt:42-47 | a declaration without `:` that ends in `;` is skipped: the body is what the rest of the block gives |
| Css.DeclarationWithoutColonEndsBlock | src/io/github/mpichler94/browser/CssParser.kt:48-49 | a declaration without `:` that runs into `}` or the end ends the body there, with the pairs stored before it |
| Css.RuleAt | src/io/github/mpichler94/browser/CssParser.kt:14-20 | a rule read advances when it succeeds |
| Css.RuleAfter | src/io/github/mpichler94/browser/CssParser.kt:16-20 | after the selector a rule succeeds only with that selector and the body parsed after `{` |
| Css.RuleAfterBody | src/io/github/mpichler94/browser/CssParser.kt:16-20 | after the selector a rule succeeds exactly when `{` and a body are followed by `}`, and ends past it; otherwise IllegalState |
| Css.RuleAtOk | src/io/github/mpichler94/browser/CssParser.kt:14-20 | a parsed rule has a well-shaped selector and a well-formed body |
| Css.RulePass | src/io/github/mpichler94/browser/CssParser.kt:12-28 | one pass of the sheet loop always advances |
| Css.RulePassOk | src/io/github/mpichler94/browser/CssParser.kt:12-28 | one pass keeps the rules well formed and keeps every selector already stored |
| Css.ParseFromOk | src/io/github/mpichler94/browser/CssParser.kt:10-31 | all rules of a parsed sheet are well formed |
| Css.ParseKeeps | src/io/github/mpichler94/browser/CssParser.kt:10-31 | a selector stored before the loop is still present after it |
| Css.ParseSheet | src/io/github/mpichler94/browser/CssParser.kt:10-31 | every rule of a parsed sheet has a well-shaped selector of priority at least one and a well-formed body |
| Css.ParseBody | src/io/github/mpichler94/browser/CssParser.kt:33-54 | a parsed inline style is well formed |
| Css.CssParser.constructor | src/io/github/mpichler94/browser/CssParser.kt:5-8 | a parser at position 0 of the text |
| Css.CssParser.Whitespace | src/io/github/mpichler94/browser/CssParser.kt:56-60 | the position moves to SkipWhitespace of the old one |
| Css.CssParser.Word | src/io/github/mpichler94/browser/CssParser.kt:62-73 | the result and new position are those of WordAt |
| Css.CssParser.Literal | src/io/github/mpichler94/browser/CssParser.kt:75-78 | the expected character is consumed; anything else fails with IllegalState and leaves the position |
| Css.CssParser.Pair | src/io/github/mpichler94/browser/CssParser.kt:80-87 | the result and new position are those of PairAt |
| Css.CssParser.Value | src/io/github/mpichler94/browser/CssParser.kt:89-100 | the result and new position are those of ValueAt |
| Css.CssParser.IgnoreUntil | src/io/github/mpichler94/browser/CssParser.kt:102-111 | the position moves to the first of the given characters or the end, and that character is returned |
| Css.CssParser.Selector | src/io/github/mpichler94/browser/CssParser.kt:139-146 | the result and new position are those of SelectorAt |
| Css.CssParser.Combinator | src/io/github/mpichler94/browser/CssParser.kt:113-137 | the result and new position are those of CombinatorAt |
| Css.CssParser.Body | src/io/github/mpichler94/browser/CssParser.kt:33-54 | the pairs and new position are those of BodyFrom |
| Css.CssParser.Declaration | src/io/github/mpichler94/browser/CssParser.kt:36-51 | one declaration is handled as DeclarationPass says |
| Css.CssParser.StoreDeclaration | src/io/github/mpichler94/browser/CssParser.kt:37-41 | the read pair is handled as AfterPair says |
| Css.CssParser.SkipDeclaration | src/io/github/mpichler94/browser/CssParser.kt:42-50 | the declaration is skipped as SkipDeclarationAt says |
| Css.CssParser.Rule | src/io/github/mpichler94/browser/CssParser.kt:14-20 | the rule and new position are those of RuleAt |
| Css.CssParser.RuleBlock | src/io/github/mpichler94/browser/CssParser.kt:16-20 | the block after the selector is parsed as RuleAfter says |
| Css.CssParser.Parse | src/io/github/mpichler94/browser/CssParser.kt:10-31 | the whole text is consumed and the rules are those of ParseFrom |
| Css.CssParser.RuleOrSkip | src/io/github/mpichler94/browser/CssParser.kt:12-28 | one pass of the sheet loop, as RulePass says |
| Css.Priority | src/io/github/mpichler94/browser/CssParser.kt:298-300 | definition of `cascadePriority()`: 1 for a tag, tag part plus class count for a class selector, the sum for a descendant, the maximum for a list |
| Css.Matches | src/io/github/mpichler94/browser/CssParser.kt:151-278 | definition of `matches(node)` for the four selector kinds: tag equality, the class test, a strict ancestor matching for a descendant, and any member for a list |
| Css.ClassMatches | src/io/github/mpichler94/browser/CssParser.kt:234-244 | definition of the class test as written: an element with a `class` attribute whose tokens are all among the selector's classes, with the tag agreeing when given |
| Css.ParseFrom | src/io/github/mpichler94/browser/CssParser.kt:10-31 | definition of the loop of `parse()`: one rule at a time until the text is used up, a bad rule skipped to the next `}` |
| Cascade.InheritedStyle | src/main/java/io/github/mpichler94/browser/Tab.kt:21-28 | the seeded style holds exactly the five inherited properties |
| Cascade.SeedInherited | src/main/java/io/github/mpichler94/browser/Tab.kt:386-388 | seeding sets each inherited property to the parent's value or else its default, overriding the node's own entries for those properties |
| Cascade.PutAllStyleMerge | src/main/java/io/github/mpichler94/browser/Tab.kt:394 | `putAll` of a rule body is the map union in which the body's values win |
| Cascade.InsertPos | src/main/java/io/github/mpichler94/browser/Tab.kt:390 | the insertion point lies in range and is followed only by strictly higher keys |
| Cascade.InsertPosAfter | src/main/java/io/github/mpichler94/browser/Tab.kt:390 | every element before the insertion point, from where the search started, has a key at most the new one's |
| Cascade.InsertSorted | src/main/java/io/github/mpichler94/browser/Tab.kt:390 | inserting into a sorted sequence keeps it sorted |
| Cascade.InsertCount | src/main/java/io/github/mpichler94/browser/Tab.kt:390 | inserting adds exactly the one element |
| Cascade.SortBy | src/main/java/io/github/mpichler94/browser/Tab.kt:390 | `sortedBy` returns a sorted permutation of its input |
| Cascade.LevelAppend | src/main/java/io/github/mpichler94/browser/Tab.kt:390 | the elements of one key in a concatenation are those of each part, in order |
| Cascade.LevelNone | src/main/java/io/github/mpichler94/browser/Tab.kt:390 | a sequence with no element of the key has no elements at that key |
| Cascade.LevelSplit | src/main/java/io/github/mpichler94/browser/Tab.kt:390 | moving an element past strictly higher keys keeps the order within every key |
| Cascade.LevelSplitOther | src/main/java/io/github/mpichler94/browser/Tab.kt:390 | moving an element of another key does not change the order within the key |
| Cascade.SortStable | src/main/java/io/github/mpichler94/browser/Tab.kt:390 | `sortedBy` is stable: rules of equal priority keep their order |
| Cascade.SortByPriority | src/main/java/io/github/mpichler94/browser/Tab.kt:390 | the rules sorted by cascade priority are sorted and a permutation of the rules |
| Cascade.Decider | src/main/java/io/github/mpichler94/browser/Tab.kt:390-395 | the deciding rule for a property is the last rule in the order that matches and declares it, or none |
| Cascade.ApplyRulesDecided | src/main/java/io/github/mpichler94/browser/Tab.kt:390-395 | after applying the rules, a property holds the value of its deciding rule, or the seeded value when no rule declares it |
| Cascade.HighestPriorityDecides | src/main/java/io/github/mpichler94/browser/Tab.kt:390-395 | the rule that decides a property is one of the rules and has the highest priority among the rules that declare it; no rule decides exactly when none declares it |
| Cascade.SortedMembers | src/main/java/io/github/mpichler94/browser/Tab.kt:390 | sorting neither adds nor drops a rule |
| Cascade.ResolveFontSize | src/main/java/io/github/mpichler94/browser/Tab.kt:402-411 | after resolution no font size ends in `%`, every other property is unchanged, and a style without a percentage is left alone |
| Cascade.StyleOfResolved | src/main/java/io/github/mpichler94/browser/Tab.kt:385-411 | a styled node has every inherited property and a font size that is not a percentage |
| Cascade.PutAllStyleKeeps | src/main/java/io/github/mpichler94/browser/Tab.kt:394 | `putAll` never removes a property |
| Cascade.ApplyRulesKeeps | src/main/java/io/github/mpichler94/browser/Tab.kt:390-395 | applying rules never removes a property |
| Cascade.InlineWins | src/main/java/io/github/mpichler94/browser/Tab.kt:397-400 | a property declared in the `style` attribute takes that value, whatever the rules say |
| Cascade.RuleWins | src/main/java/io/github/mpichler94/browser/Tab.kt:390-400 | without an inline declaration, a property takes the value of its highest-priority declaring rule |
| Cascade.InheritedWhenUnset | src/main/java/io/github/mpichler94/browser/Tab.kt:386-400 | an inherited property that no rule and no inline style declares keeps the parent's value or its default |
| Cascade.CascadeUntouched | src/main/java/io/github/mpichler94/browser/Tab.kt:390-395 | a property that no rule declares is left as it was by the rule pass |
| Cascade.InlineUntouched | src/main/java/io/github/mpichler94/browser/Tab.kt:397-400 | a property absent from the inline style is left as it was by the inline pass |
| Cascade.SortedBodiesValid | src/main/java/io/github/mpichler94/browser/Tab.kt:390 | sorting keeps every rule body a valid map |
| Cascade.StyledAll | src/main/java/io/github/mpichler94/browser/Tab.kt:413 | styling the children gives one styled child per child |
| Cascade.StyledKeepsTree | src/main/java/io/github/mpichler94/browser/Tab.kt:385-414 | styling changes only the style maps: tags, attributes, text and tree shape are unchanged |
| Cascade.StyledAllKeepsTree | src/main/java/io/github/mpichler94/browser/Tab.kt:413 | styling a child list keeps its tags, attributes, text and shape |
| Cascade.StyledResolved | src/main/java/io/github/mpichler94/browser/Tab.kt:385-414 | every node of a styled tree has all inherited properties and no percentage font size |
| Cascade.StyledAllResolved | src/main/java/io/github/mpichler94/browser/Tab.kt:413 | every node under styled children is resolved |
| Cascade.PutAllInto | src/main/java/io/github/mpichler94/browser/Tab.kt:394 | the loop computes `putAll` of the body |
| Cascade.SeedNode | src/main/java/io/github/mpichler94/browser/Tab.kt:386-388 | the loop over the inherited properties computes the seeded style |
| Cascade.ApplyNode | src/main/java/io/github/mpichler94/browser/Tab.kt:390-395 | the loop over the sorted rules computes the rule pass |
| Cascade.StyleNode | src/main/java/io/github/mpichler94/browser/Tab.kt:385-411 | a node's style is seed, sorted rules, inline style and font-size resolution, in that order |
| Cascade.StyleTree | src/main/java/io/github/mpichler94/browser/Tab.kt:385-414 | the recursion styles the node and then every child with the node's style as parent |
| Cascade.ApplyRules | src/main/java/io/github/mpichler94/browser/Tab.kt:390-395 | definition of the rule loop: every matching rule's body, in the order given, put over the style |
| Cascade.Styled | src/main/java/io/github/mpichler94/browser/Tab.kt:385-414 | definition of `style()` over a subtree: the node's style, then each child styled with it as the parent style |
| Caching.DigitRun | src/io/github/mpichler94/browser/Tab.kt:18 | the digits after `max-age=` are the longest run of ASCII digits there |
| Caching.FindMaxAge | src/io/github/mpichler94/browser/Tab.kt:18 | a found position is an occurrence of `max-age=` followed by a digit |
| Caching.FindMaxAgeFirst | src/io/github/mpichler94/browser/Tab.kt:18 | the found position is the first such occurrence |
| Caching.MaxAge | src/io/github/mpichler94/browser/Tab.kt:198-199 | no `max-age=<digits>` gives 0; a parsed age is never negative |
| Caching.MaxAgeIsToInt | src/io/github/mpichler94/browser/Tab.kt:199 | the age is `toInt` of the digit run, failing with NumberFormat when it overflows an Int |
| Caching.MaxAgeOfWritten | src/io/github/mpichler94/browser/Tab.kt:199 | `max-age=n` reads back as n for every n within Int range |
| Caching.DigitRunToEnd | src/io/github/mpichler94/browser/Tab.kt:18 | a digit tail is taken whole |
| Caching.Lookup | src/io/github/mpichler94/browser/Tab.kt:194-195 | a cached response is served exactly when its key is present and still valid at `now`, and it is the stored response |
| Caching.Evict | src/io/github/mpichler94/browser/Tab.kt:206-208 | over 740 entries the oldest entry is dropped; otherwise the cache is unchanged |
| Caching.Store | src/io/github/mpichler94/browser/Tab.kt:197-208 | a response without `max-age` in cache-control leaves the cache unchanged; the only failure is NumberFormat |
| Caching.StoreFor | src/io/github/mpichler94/browser/Tab.kt:200-208 | storing fails exactly when the age fails, with the same exception |
| Caching.AdmitKeepsBound | src/io/github/mpichler94/browser/Tab.kt:200-208 | put plus eviction keeps at most 740 distinct keys and the new entry is present |
| Caching.EvictKeepsNewest | src/io/github/mpichler94/browser/Tab.kt:206-208 | eviction never drops the entry just stored |
| Caching.GetDropFirst | src/io/github/mpichler94/browser/Tab.kt:206-208 | dropping the first entry does not change the lookup of any other key |
| Caching.StoreKeepsBound | src/io/github/mpichler94/browser/Tab.kt:197-208 | a stored cache stays within bound and holds the response valid until now plus its age |
| Caching.StoreForAdmits | src/io/github/mpichler94/browser/Tab.kt:200-208 | with an age, storing puts the entry valid until now plus the age, then evicts |
| Caching.StoreForKeepsBound | src/io/github/mpichler94/browser/Tab.kt:200-208 | storing with an age keeps the bound and holds the new entry |
| Caching.StoredIsServed | src/io/github/mpichler94/browser/Tab.kt:194-208 | a response stored with a positive age is served by a lookup at the same instant |
| Caching.ResponseCache.constructor | src/main/java/io/github/mpichler94/browser/HttpClient.kt:23 | an empty cache |
| Caching.ResponseCache.Find | src/main/java/io/github/mpichler94/browser/HttpClient.kt:29-30 | the response found is Lookup of the entries |
| Caching.ResponseCache.Insert | src/main/java/io/github/mpichler94/browser/HttpClient.kt:40-51 | the entries become Store of the old entries, or stay unchanged when Store fails |
| Caching.ResponseCache.Add | src/main/java/io/github/mpichler94/browser/HttpClient.kt:42-50 | the entries become Admit of the old entries, and hold the new entry |
| HttpClients.ParamKeyNormalised | src/main/java/io/github/mpichler94/browser/HttpClient.kt:194-197 | a cookie parameter's key is lower case and trimmed |
| HttpClients.Each | src/main/java/io/github/mpichler94/browser/HttpClient.kt:192-199 | reading the pieces gives one entry per piece |
| HttpClients.CookieParams | src/main/java/io/github/mpichler94/browser/HttpClient.kt:191-199 | the parameters of a cookie form a map with distinct keys |
| HttpClients.CookieExpiry | src/main/java/io/github/mpichler94/browser/HttpClient.kt:201-208 | computing the expiry fails with NumberFormat (a malformed max-age), DateTime or Arithmetic (now plus max-age outside the `Instant` range) or DateTimeParse (a bad expires date); the max-age failures need a `max-age` parameter, the parse failure an `expires` one |
| HttpClients.ParseCookie | src/main/java/io/github/mpichler94/browser/HttpClient.kt:188-214 | a cookie without `;` is just its value with no parameters and no expiry; the parameters of a parsed cookie are a valid map; a failure needs a `;` and is NumberFormat, DateTime, Arithmetic or DateTimeParse |
| HttpClients.ParseCookieText | src/main/java/io/github/mpichler94/browser/HttpClient.kt:188-214 | the loop over the parameters computes ParseCookie |
| HttpClients.FillParams | src/main/java/io/github/mpichler94/browser/HttpClient.kt:192-199 | the loop puts the entries of the pieces in order, later keys overwriting earlier ones |
| HttpClients.CookieKeysNormalised | src/main/java/io/github/mpichler94/browser/HttpClient.kt:194-197 | every parameter key of a parsed cookie is lower case and trimmed |
| HttpClients.EntryKeyNormalised | src/main/java/io/github/mpichler94/browser/HttpClient.kt:194-197 | every key of the parameter map is lower case and trimmed |
| HttpClients.CookieParamValue | src/main/java/io/github/mpichler94/browser/HttpClient.kt:192-199 | the last piece with a key decides its value: the trimmed text after `=`, or "true" without `=` |
| HttpClients.ExpiresOverridesMaxAge | src/main/java/io/github/mpichler94/browser/HttpClient.kt:201-208 | an `expires` date overrides `max-age`, provided the `max-age` (when present) is a valid Long and now plus it lies in the `Instant` range: otherwise its exception is thrown first (see OutOfRangeMaxAgeThrows) |
| HttpClients.MaxAgeExpiry | src/main/java/io/github/mpichler94/browser/HttpClient.kt:201-206 | without `expires`: no `max-age` means the cookie never expires; a valid `max-age` with now plus it in the `Instant` range sets the expiry to that instant, and out of range throws DateTime (or Arithmetic when the sum overflows a Long) |
| HttpClients.ParamStrings | src/main/java/io/github/mpichler94/browser/HttpClient.kt:219-221 | each parameter is printed as `key=value`, in order |
| HttpClients.CookieStringReadsBack | src/main/java/io/github/mpichler94/browser/HttpClient.kt:188-221 | parsing a printed cookie with one normalised parameter gives back its value and that parameter |
| HttpClients.OneParamReadsBack | src/main/java/io/github/mpichler94/browser/HttpClient.kt:191-199 | a single normalised `key=value` piece parses to that one parameter |
| HttpClients.ParamEntryOf | src/main/java/io/github/mpichler94/browser/HttpClient.kt:194-195 | a normalised `key=value` piece reads back as the pair |
| HttpClients.LiveCookie | src/main/java/io/github/mpichler94/browser/HttpClient.kt:131-141 | a cookie is returned exactly when the host has one in the jar and it has not expired, and it is that cookie |
| HttpClients.HttpClient.constructor | src/main/java/io/github/mpichler94/browser/HttpClient.kt:15-24 | an empty cache and an empty cookie jar |
| HttpClients.HttpClient.GetCookie | src/main/java/io/github/mpichler94/browser/HttpClient.kt:131-141 | returns LiveCookie; an expired cookie is removed from the jar and nothing else changes |
| HttpClients.HttpClient.SetCookie | src/main/java/io/github/mpichler94/browser/HttpClient.kt:143-145 | the host's cookie is replaced |
| HttpClients.HttpClient.Request | src/main/java/io/github/mpichler94/browser/HttpClient.kt:26-59 | a non-http URL fails with IllegalArgument; a body-less request with a valid cached entry is served from the cache; otherwise the fetched response is stored as Store says and a `set-cookie` header replaces the host's cookie, a malformed one, or one whose max-age leaves the `Instant` range, failing the request |
| HttpClients.CookieString | src/main/java/io/github/mpichler94/browser/HttpClient.kt:219-221 | definition of the cookie's `toString()`: the value, `;`, then the parameters as `key=value` joined by `;` |
| HttpClients.PlusSeconds | src/main/java/io/github/mpichler94/browser/HttpClient.kt:204 | `Instant.plusSeconds`: the sum when it lies between `Instant.MIN` and `Instant.MAX`; outside that range it throws DateTimeException (or ArithmeticException when the sum overflows a Long); zero seconds never throws |
| HttpClients.OutOfRangeMaxAgeThrows | src/main/java/io/github/mpichler94/browser/HttpClient.kt:201-205 | a `max-age` that puts now plus its seconds past `Instant.MAX` throws, even when an `expires` parameter is present |
| Urls.Build | src/io/github/mpichler94/browser/URL.kt:17-47 | http(s) URLs get a path starting with `/` and an Int port, failing only with NumberFormat on a bad port; file and data URLs keep the rest as url and path, with no host and port 0 |
| Urls.Parse | src/io/github/mpichler94/browser/URL.kt:8-15 | an unknown scheme fails with IllegalArgument; a known one is built from the text after it |
| Urls.SchemeAndRest | src/io/github/mpichler94/browser/URL.kt:8-19 | for http(s), the text after `scheme://` is what gets built |
| Urls.BuildAuthority | src/io/github/mpichler94/browser/URL.kt:18-32 | `host[:port]/path` builds the URL with that host, port and path |
| Urls.BuildPorted | src/io/github/mpichler94/browser/URL.kt:20-32 | `host:port` in the authority gives that host and port |
| Urls.BuildDefault | src/io/github/mpichler94/browser/URL.kt:20-32 | an authority without `:` gets the scheme's default port, 80 or 443 |
| Urls.PortSplit | src/io/github/mpichler94/browser/URL.kt:21 | splitting `host:port` on `:` gives the host and the port text |
| Urls.ParseAuthority | src/io/github/mpichler94/browser/URL.kt:8-33 | parsing `scheme://host[:port]/path` gives back exactly that host, port and path |
| Urls.ParseUrlString | src/io/github/mpichler94/browser/URL.kt:102-111 | re-parsing `toString` of a well-formed URL gives back its scheme, host, port and path |
| Urls.WithPathKeeps | src/io/github/mpichler94/browser/URL.kt:79 | `withPath` keeps scheme, host and port and sets the path |
| Urls.ParsedDeterminedByKey | src/io/github/mpichler94/browser/URL.kt:81-100 | two parsed URLs with equal scheme and url are equal in every field, so equality agrees with the hash key |
| Urls.Wrap32 | src/io/github/mpichler94/browser/URL.kt:96-99 | Int arithmetic wraps into the 32-bit range |
| Urls.HashCode | src/io/github/mpichler94/browser/URL.kt:96-100 | the hash is an Int |
| Urls.DotDot | src/io/github/mpichler94/browser/URL.kt:62-71 | no leading `../` remains after the loop |
| Urls.DotDotStaysInside | src/io/github/mpichler94/browser/URL.kt:62-71 | climbing out with `../` only shortens the directory to a prefix of it |
| Urls.DotDotOneLevel | src/io/github/mpichler94/browser/URL.kt:64-68 | one `../` removes one directory level |
| Urls.Resolve | src/io/github/mpichler94/browser/URL.kt:53-77 | the method computes ResolveSpec |
| Urls.Target | src/io/github/mpichler94/browser/URL.kt:58-71 | the loop computes the resolved text |
| Urls.ResolveBlank | src/io/github/mpichler94/browser/URL.kt:54-56 | a blank reference resolves to the base URL |
| Urls.ResolveRooted | src/io/github/mpichler94/browser/URL.kt:72-76 | a reference starting with one `/` keeps the base's scheme, host and port and takes the reference as path |
| Urls.ResolveSchemeRelative | src/io/github/mpichler94/browser/URL.kt:72-73 | `//host/path` keeps the base's scheme and takes the host, default port and path |
| Urls.SchemeRelativeText | src/io/github/mpichler94/browser/URL.kt:72-73 | a scheme-relative reference is rebuilt as `scheme://host/path` |
| Urls.ResolveSibling | src/io/github/mpichler94/browser/URL.kt:62-75 | a plain name replaces the last segment of the base path, keeping host and port |
| Urls.UrlString | src/io/github/mpichler94/browser/URL.kt:102-111 | definition of `toString()`: scheme, host, the port unless it is the scheme's default, then the path |
| Urls.ResolveSpec | src/io/github/mpichler94/browser/URL.kt:53-77 | definition of `resolve(ref)`: blank keeps the base, a reference with `://` is parsed, `//host` takes the base's scheme, `/path` replaces the path, a relative path climbs `../` and replaces the last segment |
| Requests.Utf8Length | src/main/java/io/github/mpichler94/browser/Request.kt:15-16 | the UTF-8 byte count of a string lies between its length and four times its length |
| Requests.AsciiLength | src/main/java/io/github/mpichler94/browser/Request.kt:15-16 | for ASCII text the byte count equals the length |
| Requests.NewRequest | src/main/java/io/github/mpichler94/browser/Request.kt:3-21 | a request keeps its URL, method and body |
| Requests.OldRequest | src/io/github/mpichler94/browser/Request.kt:3-5 | a request keeps its URL and method and has no body |
| Requests.DefaultsBeforeCaller | src/main/java/io/github/mpichler94/browser/Request.kt:13-19 | the default headers are Host, Connection and User-Agent, plus Content-Length with the UTF-8 byte count when there is a body |
| Requests.WithContentLength | src/main/java/io/github/mpichler94/browser/Request.kt:16 | adding Content-Length changes no other header |
| Requests.ContentLengthKeys | src/main/java/io/github/mpichler94/browser/Request.kt:16 | adding Content-Length appends that key to the defaults |
| Requests.DefaultHeadersHold | src/main/java/io/github/mpichler94/browser/Request.kt:13 | the defaults hold the URL's host, `keep-alive` and the browser's user agent |
| Requests.NewRequestHeaders | src/main/java/io/github/mpichler94/browser/Request.kt:12-20 | the caller's headers win; missing Host, User-Agent and Connection take the defaults; Content-Length is the body's UTF-8 byte count, and absent without a body unless the caller sets it; no other header appears |
| Requests.OldRequestHeaders | src/io/github/mpichler94/browser/Request.kt:4-5 | the caller's headers win over Host, User-Agent and Connection defaults, and no other header appears |
| Requests.MergedOverDefaults | src/main/java/io/github/mpichler94/browser/Request.kt:20 | merging the caller's headers over the defaults gives the headers of NewRequestHeaders |
| Requests.MergeHeaders | src/main/java/io/github/mpichler94/browser/Request.kt:20 | `tmp + _headers`: the caller's value wins for its keys, others keep the default |
| Requests.HeaderLines | src/main/java/io/github/mpichler94/browser/Request.kt:24 | each header is one `key: value` line, in order |
| Requests.NoBlankLineInside | src/main/java/io/github/mpichler94/browser/Request.kt:23-25 | the header block contains no blank line, so the first CRLFCRLF ends it |
| Requests.MessageReadsBack | src/main/java/io/github/mpichler94/browser/Request.kt:23-25 | splitting a message at its first CRLFCRLF gives back its lines and body |
| Requests.HeadOfRequest | src/main/java/io/github/mpichler94/browser/Request.kt:23-24 | the head is the request line followed by the header lines |
| Requests.EncodeReadsBack | src/main/java/io/github/mpichler94/browser/Request.kt:23-25 | an encoded request splits back into its request line, its header lines and its body |
| Requests.EncodeOldReadsBack | src/io/github/mpichler94/browser/Request.kt:7-11 | an older-style encoded request splits back into its request line and header lines, with an empty body |
| Requests.Encode | src/main/java/io/github/mpichler94/browser/Request.kt:23-25 | definition of the newer `encode()`: the request line, each header as `key: value` and CRLF, an empty line, then the body |
| Tabs.LoadHistoryAsWritten | src/main/java/io/github/mpichler94/browser/Tab.kt:179-185 | as written, a URL different from the raw URL is appended and the index moves up by one; the same URL leaves the history unchanged; the index stays within the entries |
| Tabs.LoadAfterBackShowsForwardEntry | src/main/java/io/github/mpichler94/browser/Tab.kt:179-185 | after going back from `b` to `a`, loading `c` shows `b`, not `c` |
| Tabs.LoadHistory | src/main/java/io/github/mpichler94/browser/Tab.kt:179-185 | corrected load: the index stays within the entries |
| Tabs.LoadShowsRequested | src/main/java/io/github/mpichler94/browser/Tab.kt:179-185 | with the corrected load, a new URL becomes the current and last entry, right after the old current entry, and the entries before it are kept |
| Tabs.LoadAtEndAsWritten | src/main/java/io/github/mpichler94/browser/Tab.kt:179-185 | when the current entry is the last one, the corrected load and the code as written agree |
| Tabs.ScrolledDown | src/main/java/io/github/mpichler94/browser/Tab.kt:333-339 | scrolling down moves by the scroll step unless the offset already reaches the document height minus the window height plus two line steps |
| Tabs.ScrolledUp | src/main/java/io/github/mpichler94/browser/Tab.kt:341-347 | scrolling up moves back by the scroll step unless the offset is at or above the top |
| Tabs.UpUndoesDown | src/main/java/io/github/mpichler94/browser/Tab.kt:333-347 | scrolling up undoes a scroll down that moved |
| Tabs.DownUndoesUp | src/main/java/io/github/mpichler94/browser/Tab.kt:333-347 | scrolling down undoes a scroll up that moved, when the lower bound allows it |
| Tabs.ScrollStaysNear | src/main/java/io/github/mpichler94/browser/Tab.kt:333-347 | both scroll directions keep the offset within one step of the range between the top and the bottom limit |
| Tabs.ResizedScrollAsWritten | src/main/java/io/github/mpichler94/browser/Tab.kt:79 | `coerceIn(0, docHeight - height)` throws IllegalArgument exactly when the document is shorter than the window, and otherwise lies in that range |
| Tabs.ShortPageResizeThrows | src/main/java/io/github/mpichler94/browser/Tab.kt:79 | resizing a tab with an empty page to a 600-pixel window throws |
| Tabs.ResizedScroll | src/main/java/io/github/mpichler94/browser/Tab.kt:79 | corrected clamp: the offset lies between 0 and the document overhang (0 for a short page), and an offset already in range is kept |
| Tabs.ResizedScrollAgrees | src/main/java/io/github/mpichler94/browser/Tab.kt:79 | wherever the code as written does not throw, the corrected clamp gives the same offset |
| Tabs.ScrollAfterLoad | src/main/java/io/github/mpichler94/browser/Tab.kt:258-264 | after a load the view is at the top when the URL has a blank fragment or no anchor was found |
| Tabs.FirstTagged | src/main/java/io/github/mpichler94/browser/Tab.kt:57-62 | `firstOrNull` by tag: the index found holds the tag and no earlier child does; no index means no child holds it |
| Tabs.Title | src/main/java/io/github/mpichler94/browser/Tab.kt:53-74 | the title is the trimmed first text of the first `title` of the first `head` of an `html` root, and the raw URL in every other case |
| Tabs.TitleOfDocument | src/main/java/io/github/mpichler94/browser/Tab.kt:53-74 | `<html><head>…<title>t</title>…` is titled with `t` trimmed |
| Tabs.TitleWithoutHead | src/main/java/io/github/mpichler94/browser/Tab.kt:57-60 | without a `head` child the title is the raw URL |
| Tabs.GuardedResponse | src/main/java/io/github/mpichler94/browser/Tab.kt:271-277 | a request to an origin outside a non-empty policy gets 403 with an empty body; a `data:` URL serves the text after the comma; otherwise the fetched response |
| Tabs.ListedOriginAllowed | src/main/java/io/github/mpichler94/browser/Tab.kt:271-274 | an origin named after `default-src` in the page's policy is never blocked |
| Tabs.DataUrlBody | src/main/java/io/github/mpichler94/browser/Tab.kt:276-277 | a `data:` URL whose prefix has no comma serves exactly the text after that comma |
| Tabs.CachedResponse | src/io/github/mpichler94/browser/Tab.kt:186-213 | `data:` and `file:` bypass the cache; an unexpired entry is served unchanged; otherwise the fetched response is returned and the cache becomes the result of storing it, or the store's failure is passed on |
| Tabs.LinkTarget | src/main/java/io/github/mpichler94/browser/Tab.kt:99-106 | a link's target is the resolved URL, followed by `#` and the fragment only when the fragment is not blank |
| Tabs.OldLinkTarget | src/io/github/mpichler94/browser/Tab.kt:90-93 | the older tab always appends `#` and the fragment to the resolved URL |
| Tabs.NoFragmentTargets | src/main/java/io/github/mpichler94/browser/Tab.kt:99-106 | an href without `#` targets the resolved URL; the older tab still adds a bare `#` |
| Tabs.Tab.constructor | src/main/java/io/github/mpichler94/browser/Tab.kt:15-51 | a new tab has an empty history at index -1, the blank URL, no document, no allowed origins and a zero scroll |
| Tabs.Tab.DoLoad | src/main/java/io/github/mpichler94/browser/Tab.kt:191-266 | before any entry the list lookup throws and nothing changes; otherwise the current entry becomes the raw URL, the policy header replaces the allowed origins, and unless it is `view-source:` the document is installed and the view scrolls to the fragment's anchor or the top |
| Tabs.Tab.ReadPolicy | src/main/java/io/github/mpichler94/browser/Tab.kt:198-220 | the allowed origins are the policy's `default-src` list, empty without that header |
| Tabs.Tab.AddOrigins | src/main/java/io/github/mpichler94/browser/Tab.kt:216-218 | the loop adds the origin of every policy word after the first |
| Tabs.Tab.Load | src/main/java/io/github/mpichler94/browser/Tab.kt:179-185 | the history changes as LoadHistoryAsWritten says; a new URL is loaded, and it is the one shown only when the index was at the end; reloading the same URL succeeds without touching the history, and before any entry it throws and nothing changes; the loaded entry is the raw URL, the policy replaces the allowed origins and, unless it is `view-source:`, the page's document and height are installed and the view scrolls to the anchor or the top; the window size is kept |
| Tabs.Tab.GoBack | src/main/java/io/github/mpichler94/browser/Tab.kt:157-162 | when going back is possible the index moves down by one and that entry is loaded: the loaded entry is the raw URL, the policy replaces the allowed origins and, unless it is `view-source:`, the page's document and height are installed and the view scrolls to the anchor or the top; the window size is kept; otherwise nothing changes |
| Tabs.Tab.GoForward | src/main/java/io/github/mpichler94/browser/Tab.kt:168-173 | when going forward is possible the index moves up by one and that entry is loaded: the loaded entry is the raw URL, the policy replaces the allowed origins and, unless it is `view-source:`, the page's document and height are installed and the view scrolls to the anchor or the top; the window size is kept; otherwise nothing changes |
| Tabs.Tab.ScrollDown | src/main/java/io/github/mpichler94/browser/Tab.kt:333-339 | the offset becomes ScrolledDown of the old one and nothing else changes |
| Tabs.Tab.ScrollUp | src/main/java/io/github/mpichler94/browser/Tab.kt:341-347 | the offset becomes ScrolledUp of the old one and nothing else changes |
| Tabs.Tab.Resize | src/main/java/io/github/mpichler94/browser/Tab.kt:76-82 | the window size is stored; as written the clamp throws IllegalArgument for a page shorter than the window, leaving offset and height; otherwise the offset is clamped and the page is laid out again; history, URL, document and allowed origins are kept |
| Tabs.Tab.TabTitle | src/main/java/io/github/mpichler94/browser/Tab.kt:53-74 | a tab without a document is titled with its raw URL |
| Browsers.CreateRequest | src/main/java/io/github/mpichler94/browser/Browser.kt:141-158 | the request built is CreatedRequest with the host's live cookie from the jar, and the client's cache is untouched |
| Browsers.CallerHeadersHold | src/main/java/io/github/mpichler94/browser/Browser.kt:146-156 | the headers handed to Request hold Host, `keep-alive` and the user agent, and Cookie exactly when the cookie is sent |
| Browsers.CreatedRequestDefaults | src/main/java/io/github/mpichler94/browser/Browser.kt:146 | every created request carries the host, `keep-alive` and the user agent |
| Browsers.CreatedRequestCookie | src/main/java/io/github/mpichler94/browser/Browser.kt:147-156 | a created request's Cookie header is the cookie's value when it is sent and absent otherwise |
| Browsers.MergedOverInitial | src/main/java/io/github/mpichler94/browser/Browser.kt:157 | Request merging the caller's map over its defaults keeps the caller's Host, Connection, User-Agent and Cookie |
| Browsers.CookieNotDefault | src/main/java/io/github/mpichler94/browser/Browser.kt:146 | Cookie is never one of the default header keys |
| Browsers.MergedHeaders | src/main/java/io/github/mpichler94/browser/Browser.kt:157 | after merging, a caller key keeps the caller's value and a key in neither map is absent |
| Browsers.CookieWithheldIff | src/main/java/io/github/mpichler94/browser/Browser.kt:149-152 | the cookie is withheld exactly when there is a referrer, the cookie is `samesite=lax`, the method is not GET and the hosts differ |
| Browsers.NoCookieNoHeader | src/main/java/io/github/mpichler94/browser/Browser.kt:147-148 | a host without a live cookie never gets a Cookie header |
| Browsers.RemovedAtKeeps | src/main/java/io/github/mpichler94/browser/Browser.kt:105 | removing one tab leaves a list without repeats, of tabs that were open |
| Browsers.RemovalKeepsActive | src/main/java/io/github/mpichler94/browser/Browser.kt:102-110 | with the corrected index, removing any tab but the active one keeps the active tab active |
| Browsers.RemovalOfActive | src/main/java/io/github/mpichler94/browser/Browser.kt:102-110 | with the corrected index, removing the active tab activates the next one, or the previous one when it was last; removing the only tab leaves no index |
| Browsers.RemovalAsWrittenMovesActive | src/main/java/io/github/mpichler94/browser/Browser.kt:102-110 | as written, closing the first of three tabs while the middle one is active makes the third one active |
| Browsers.Browser.constructor | src/main/java/io/github/mpichler94/browser/Browser.kt:20-21 | a browser starts with no tabs and no active tab |
| Browsers.Browser.NewTab | src/main/java/io/github/mpichler94/browser/Browser.kt:95-100 | a fresh tab loads the URL, becomes active and is appended; for `about:blank` the load throws and no tab is added |
| Browsers.Browser.RemoveTab | src/main/java/io/github/mpichler94/browser/Browser.kt:102-110 | an index outside the list throws and nothing changes; otherwise the tab is removed and the tab at the old active position, clamped to the last, becomes active, or the lookup throws when no tab is left |
| Chromes.CornersInside | src/main/java/io/github/mpichler94/browser/Chrome.kt:202-204 | a rectangle contains its four corners, edges included |
| Chromes.TabRect | src/main/java/io/github/mpichler94/browser/Chrome.kt:123-127 | tab i spans the tab bar's height, starting one padding right of the new-tab button and advancing by one tab width per index |
| Chromes.NeighboursShareEdge | src/main/java/io/github/mpichler94/browser/Chrome.kt:123-127 | neighbouring tabs share an edge, and a point on it lies in both |
| Chromes.FirstTabAt | src/main/java/io/github/mpichler94/browser/Chrome.kt:67-68 | `indexOfFirst`: the index found is a tab holding the point and no earlier tab holds it; -1 means no tab from the start index holds it |
| Chromes.TabsInOrder | src/main/java/io/github/mpichler94/browser/Chrome.kt:123-127 | an earlier tab lies wholly left of a later one |
| Chromes.SharedEdgeGoesLeft | src/main/java/io/github/mpichler94/browser/Chrome.kt:67-68 | a click on the edge two tabs share selects the left one |
| Chromes.TypedInserts | src/main/java/io/github/mpichler94/browser/Chrome.kt:79-87 | typing into a focused, editable bar inserts the key right before the advanced cursor, keeps the text around it and keeps the bar editable |
| Chromes.TypedFailsIff | src/main/java/io/github/mpichler94/browser/Chrome.kt:79-87 | typing throws exactly when the bar is focused and its cursor lies outside the text |
| Chromes.EditedKeepsEditable | src/main/java/io/github/mpichler94/browser/Chrome.kt:99-111 | corrected editor: every key succeeds on an editable bar and keeps it editable; Backspace removes the character before the cursor and moves it back, Delete removes the one at the cursor and keeps it; other keys keep the text; only Escape drops the focus |
| Chromes.DeleteAsWrittenBreaksTyping | src/main/java/io/github/mpichler94/browser/Chrome.kt:104-107 | as written, Delete at the start of the text `a` leaves the cursor at -1, and the next typed key throws |
| Chromes.EditedAsWrittenStaysReachable | src/main/java/io/github/mpichler94/browser/Chrome.kt:99-111 | as written, every edit keeps the cursor at most one before the text, and fails exactly on Delete with the cursor there |
| Chromes.TypedStaysReachable | src/main/java/io/github/mpichler94/browser/Chrome.kt:79-87 | typing keeps the cursor at most one before the text and fails exactly when it sits there |
| Chromes.AsWrittenDiffersOnlyOnDelete | src/main/java/io/github/mpichler94/browser/Chrome.kt:99-111 | every key but Delete edits the bar as the corrected editor does |
| Chromes.Chrome.constructor | src/main/java/io/github/mpichler94/browser/Chrome.kt:32-47 | a new chrome belongs to its browser, has the address rectangle for the window width and an empty, unfocused bar |
| Chromes.Chrome.Resize | src/main/java/io/github/mpichler94/browser/Chrome.kt:49-52 | resizing recomputes the address rectangle and leaves the bar alone |
| Chromes.Chrome.Blur | src/main/java/io/github/mpichler94/browser/Chrome.kt:119-121 | blurring drops the focus and changes nothing else |
| Chromes.Chrome.MouseClicked | src/main/java/io/github/mpichler94/browser/Chrome.kt:54-77 | a click drops the focus; the new-tab button opens and activates a tab; back and forward move the active tab through its history; the address bar takes the focus with an empty text; a tab is activated by the first button and removed by the second |
| Chromes.Chrome.ClickTabStrip | src/main/java/io/github/mpichler94/browser/Chrome.kt:67-75 | the first tab holding the point becomes active with the first button or is removed with the second; otherwise the tabs are unchanged |
| Chromes.Chrome.KeyTyped | src/main/java/io/github/mpichler94/browser/Chrome.kt:79-87 | the bar becomes Typed of the old bar and the result says whether it was focused; a failure leaves the bar unchanged |
| Chromes.Chrome.KeyPressed | src/main/java/io/github/mpichler94/browser/Chrome.kt:89-117 | an unfocused bar ignores keys; Enter loads the text into the active tab, whose history changes as LoadHistoryAsWritten says, then clears and unfocuses the bar; other keys edit it as EditedAsWritten says |
| Chromes.Chrome.LoadAddress | src/main/java/io/github/mpichler94/browser/Chrome.kt:92-97 | the active tab, if any, loads the bar's text, and its history changes as LoadHistoryAsWritten says |
| JsContexts.Register | src/main/java/io/github/mpichler94/browser/JsContext.kt:67-76 | an element with a handle keeps it; a new element gets the next handle, the number of handles so far, in both maps |
| JsContexts.RegisterKeepsInverse | src/main/java/io/github/mpichler94/browser/JsContext.kt:67-76 | registering keeps the two handle maps inverse to each other and adds exactly one handle for a new element |
| JsContexts.RegisterNew | src/main/java/io/github/mpichler94/browser/JsContext.kt:69-71 | a new element's handle extends both maps and they stay inverse |
| JsContexts.HandlesDistinct | src/main/java/io/github/mpichler94/browser/JsContext.kt:67-76 | distinct elements never share a handle |
| JsContexts.ElementKids | src/main/java/io/github/mpichler94/browser/JsContext.kt:155 | `filterIsInstance<Element>`: only live elements are kept, never more than the children |
| JsContexts.ElementKidsKeepOrder | src/main/java/io/github/mpichler94/browser/JsContext.kt:155 | two element children keep their relative order in the filtered list |
| JsContexts.ElementKidIn | src/main/java/io/github/mpichler94/browser/JsContext.kt:155 | every element child is in the filtered list |
| JsContexts.ElementKidsFrom | src/main/java/io/github/mpichler94/browser/JsContext.kt:155 | everything in the filtered list is one of the children |
| JsContexts.Attach | src/main/java/io/github/mpichler94/browser/JsContext.kt:163-170 | attaching adds no node and removes none |
| JsContexts.AttachEffect | src/main/java/io/github/mpichler94/browser/JsContext.kt:163-170 | the child is inserted at the position among the parent's children, its parent link points at the parent, and every other node is unchanged |
| JsContexts.AttachKeeps | src/main/java/io/github/mpichler94/browser/JsContext.kt:159-172 | attaching keeps every child link pointing at a live node and keeps each node's kind |
| JsContexts.RemoveFirstCounts | src/main/java/io/github/mpichler94/browser/JsContext.kt:178 | `remove` takes out one occurrence of a present child and keeps the rest; an absent child leaves the list alone |
| JsContexts.Detach | src/main/java/io/github/mpichler94/browser/JsContext.kt:178-179 | detaching adds no node and removes none |
| JsContexts.DetachEffect | src/main/java/io/github/mpichler94/browser/JsContext.kt:178-179 | the child's first occurrence leaves the parent's children, its parent link is cleared, and every other node is unchanged |
| JsContexts.DetachKeeps | src/main/java/io/github/mpichler94/browser/JsContext.kt:175-181 | detaching keeps every child link pointing at a live node and keeps each node's kind |
| JsContexts.ChildlessAsWrittenLosesTag | src/main/java/io/github/mpichler94/browser/JsContext.kt:139 | as written, `replaceBeforeLast('>', "/>\n")` turns a childless element's text into `/>\n>`, losing its tag and attributes |
| JsContexts.Childless | src/main/java/io/github/mpichler94/browser/JsContext.kt:139 | corrected: a childless element serialises as its opening tag with the `>` replaced by `/>` and a line break |
| JsContexts.SerializedParent | src/main/java/io/github/mpichler94/browser/JsContext.kt:128-144 | a non-void element with children serialises to its opening tag, then its children, then its closing tag and a line break |
| JsContexts.SerializedFuel | src/main/java/io/github/mpichler94/browser/JsContext.kt:128-144 | more fuel never changes a serialisation that already succeeded |
| JsContexts.SerializedAllFuel | src/main/java/io/github/mpichler94/browser/JsContext.kt:133 | more fuel never changes a serialisation of a child list that already succeeded |
| JsContexts.AcyclicPathsWithin | src/main/java/io/github/mpichler94/browser/JsContext.kt:128-144 | below an element without a cycle, every chain of child links is no longer than the number of nodes |
| JsContexts.SerializedWithin | src/main/java/io/github/mpichler94/browser/JsContext.kt:128-144 | an element whose child chains fit within the fuel serialises without running out |
| JsContexts.SerializedAllWithin | src/main/java/io/github/mpichler94/browser/JsContext.kt:133 | child lists whose chains fit within the fuel serialise without running out |
| JsContexts.AcyclicSerializes | src/main/java/io/github/mpichler94/browser/JsContext.kt:128-144 | an element without a cycle below it never runs out of fuel, so the stand-in for stack overflow only arises on a cycle |
| JsContexts.WalkLive | src/main/java/io/github/mpichler94/browser/JsContext.kt:83 | `treeToList` starts at the root and lists only live nodes |
| JsContexts.WalkAllLive | src/main/java/io/github/mpichler94/browser/JsContext.kt:83 | walking a list of children lists only live nodes |
| JsContexts.LastWithId | src/main/java/io/github/mpichler94/browser/JsContext.kt:184-189 | `associate` keeps the last element with a given id: the one found carries the id, and without one no element does |
| JsContexts.Matching | src/main/java/io/github/mpichler94/browser/JsContext.kt:84-85 | an element is kept exactly when it is listed, live, an element and accepted by the selector |
| JsContexts.InsertWithoutReference | src/main/java/io/github/mpichler94/browser/JsContext.kt:162-170 | without a reference the child is appended to the parent's children and its parent link set |
| JsContexts.InsertAtReference | src/main/java/io/github/mpichler94/browser/JsContext.kt:164-170 | with a reference among the children, the child is inserted right before the reference's first occurrence and its parent link set |
| JsContexts.InsertNowhere | src/main/java/io/github/mpichler94/browser/JsContext.kt:160-167 | an unknown handle, or a reference that is not a child, changes nothing |
| JsContexts.JsContext.constructor | src/main/java/io/github/mpichler94/browser/JsContext.kt:25-35 | a new context sees the tab's document and has no handles |
| JsContexts.JsContext.GetHandle | src/main/java/io/github/mpichler94/browser/JsContext.kt:67-76 | the handle maps change as Register says and the document is untouched |
| JsContexts.JsContext.GetAttribute | src/main/java/io/github/mpichler94/browser/JsContext.kt:97-101 | an unknown handle or a missing attribute gives the empty string; any other result is the attribute's value |
| JsContexts.JsContext.GetChildren | src/main/java/io/github/mpichler94/browser/JsContext.kt:153-156 | an unknown handle gives no children; otherwise one handle per element child, in order; existing handles are kept |
| JsContexts.JsContext.InsertBefore | src/main/java/io/github/mpichler94/browser/JsContext.kt:159-172 | the document becomes InsertedBefore of the old one and the handles are unchanged |
| JsContexts.JsContext.RemoveChild | src/main/java/io/github/mpichler94/browser/JsContext.kt:175-181 | an unknown handle gives null and changes nothing; otherwise the child is detached and its handle returned |
| JsContexts.JsContext.CreateElement | src/main/java/io/github/mpichler94/browser/JsContext.kt:90-94 | a new parentless, childless element is added and gets the next handle; no existing node or handle changes |
| JsContexts.JsContext.Place | src/main/java/io/github/mpichler94/browser/JsContext.kt:108-111 | a parsed node is copied into fresh records below the given parent and holds the node's tree |
| JsContexts.JsContext.PlaceAll | src/main/java/io/github/mpichler94/browser/JsContext.kt:109-111 | each parsed node is copied into fresh records, in order, each with the element as parent |
| JsContexts.JsContext.ReplaceChildren | src/main/java/io/github/mpichler94/browser/JsContext.kt:108-111 | the element's children are replaced by fresh copies of the parsed nodes and nothing else in the old document changes |
| JsContexts.JsContext.SetInnerHTML | src/main/java/io/github/mpichler94/browser/JsContext.kt:104-114 | an unknown handle changes nothing; otherwise the element's children become the well-formed nodes parsed from `<html><body>html</body></html>`; a parse without a body child throws |
| JsContexts.JsContext.HandleIf | src/main/java/io/github/mpichler94/browser/JsContext.kt:84-86 | an element the filter keeps gets a handle and other nodes get none; existing handles are kept |
| JsContexts.JsContext.GetOuterHTML | src/main/java/io/github/mpichler94/browser/JsContext.kt:147-150 | an unknown handle gives the empty string; an element without a cycle below it always serialises; an empty non-void element gives `/>\n>` as written; otherwise the result is wrapped in its opening and closing tags |
| JsContexts.JsContext.OuterHTML | src/main/java/io/github/mpichler94/browser/JsContext.kt:128-150 | a live element's outer HTML is its serialisation, `/>\n>` when childless and not void, and wrapped in its tags otherwise |
| JsContexts.JsContext.GetInnerHTML | src/main/java/io/github/mpichler94/browser/JsContext.kt:117-126 | an unknown handle or a childless element gives the empty string |
| JsContexts.JsContext.OuterWrapsInner | src/main/java/io/github/mpichler94/browser/JsContext.kt:117-150 | the outer HTML of a non-void element with children is its opening tag, a line break when the first child is an element, its inner HTML and its closing tag |
| JsContexts.JsContext.Dispatched | src/main/java/io/github/mpichler94/browser/JsContext.kt:49-65 | an element without a handle is not dispatched to; the default action runs only if a handler allowed it; a handler that stops propagation decides alone; a handler that prevents the default gives false |
| JsContexts.JsContext.QuerySelectorAll | src/main/java/io/github/mpichler94/browser/JsContext.kt:80-87 | without a document no handles; otherwise it fails exactly when the tree walk overflows, and returns handles of the matching elements in tree order |
| JsContexts.JsContext.GetIDs | src/main/java/io/github/mpichler94/browser/JsContext.kt:184-189 | without a document an empty map; otherwise it fails exactly when the walk overflows, and maps each id to the handle of the last element carrying it |
| JsContexts.Serialized | src/main/java/io/github/mpichler94/browser/JsContext.kt:128-144 | definition of `serialize()`: void elements as their opening tag, childless ones as written, others as opening tag, children and closing tag; running out of fuel is the stack overflow of a cycle |
| Servers.Utf16Length | src/main/java/io/github/mpichler94/server/Server.kt:46 | `String.length` counts UTF-16 units: never fewer than the characters |
| Servers.Utf8Char | src/main/java/io/github/mpichler94/server/Server.kt:48 | `toByteArray()` writes each character as one to four UTF-8 bytes, exactly one for ASCII |
| Servers.Utf8Append | src/main/java/io/github/mpichler94/server/Server.kt:48 | the UTF-8 bytes of a concatenation are the bytes of its parts |
| Servers.UnitsAgreeIffAscii | src/main/java/io/github/mpichler94/server/Server.kt:46-48 | the UTF-16 count never exceeds the UTF-8 byte count and equals it exactly for ASCII text |
| Servers.ReplyAsWritten | src/main/java/io/github/mpichler94/server/Server.kt:46 | as written, the reply is the status line and a Content-Length of the body's UTF-16 length, then the body |
| Servers.ReplyFramesBody | src/main/java/io/github/mpichler94/server/Server.kt:46-48 | corrected: the bytes written are the head's bytes followed by the body's, and the Content-Length digits read back as the body's UTF-8 byte count |
| Servers.ReplyAsWrittenShortForNonAscii | src/main/java/io/github/mpichler94/server/Server.kt:46 | as written, the body `é` is announced as 1 byte but written as 2 |
| Servers.ReplyAsWrittenAgreesOnAscii | src/main/java/io/github/mpichler94/server/Server.kt:46 | for ASCII bodies the reply as written and the corrected reply are the same text |
| Servers.CommentsPageAppend | src/main/java/io/github/mpichler94/server/Server.kt:76-91 | adding an entry adds its paragraph after the others, just before the form |
| Servers.ParagraphsList | src/main/java/io/github/mpichler94/server/Server.kt:79-81 | each entry's paragraph follows those of the entries before it, in order |
| Servers.NotFoundPage | src/main/java/io/github/mpichler94/server/Server.kt:112-117 | the not-found page starts with the doctype |
| Servers.NoEncodedSpaceLeft | src/main/java/io/github/mpichler94/server/Server.kt:98-99 | after replacing `%20` by `+` no `%20` remains |
| Servers.NoOccurrenceAround | src/main/java/io/github/mpichler94/server/Server.kt:98-99 | replacing the first `%20` cannot create a new `%20` across the replacement |
| Servers.FormFields | src/main/java/io/github/mpichler94/server/Server.kt:96 | `split("&", limit = 2)` gives one or two fields |
| Servers.DecodedSize | src/main/java/io/github/mpichler94/server/Server.kt:95-101 | decoding k fields gives at most k parameters |
| Servers.AtMostTwoFields | src/main/java/io/github/mpichler94/server/Server.kt:93-103 | a decoded form holds at most two parameters |
| Servers.SecondFieldTakesTheRest | src/main/java/io/github/mpichler94/server/Server.kt:96 | the second field is everything after the first `&`, further `&`s included |
| Servers.FormDecode | src/main/java/io/github/mpichler94/server/Server.kt:93-103 | the loop computes FormDecoded: no body gives the empty map, and the first field without `=` or the first decoder error throws |
| Servers.DecodeFields | src/main/java/io/github/mpichler94/server/Server.kt:96-101 | the loop computes Decoded over all fields, later names overwriting earlier ones |
| Servers.FailureSticks | src/main/java/io/github/mpichler94/server/Server.kt:97-101 | once a field fails to decode, the whole form fails with that exception |
| Servers.RouteOf | src/main/java/io/github/mpichler94/server/Server.kt:62-73 | the comments page exactly for `GET /`, the script for `GET /comment.js`, the stylesheet for a GET whose path starts with `/comment.css`, adding exactly for `POST /add` |
| Servers.AddedEntries | src/main/java/io/github/mpichler94/server/Server.kt:105-110 | a non-blank guest name of at most 100 characters is appended; otherwise the entries stay |
| Servers.EntriesOnlyGrow | src/main/java/io/github/mpichler94/server/Server.kt:105-110 | entries only grow, by at most one, and only through `POST /add` |
| Servers.SignedGuestShown | src/main/java/io/github/mpichler94/server/Server.kt:70-110 | an accepted guest name becomes the last entry and its paragraph comes last before the form |
| Servers.NotFoundIff | src/main/java/io/github/mpichler94/server/Server.kt:72 | the status is `404 Not Found` exactly when no route matched |
| Servers.RequestLine | src/main/java/io/github/mpichler94/server/Server.kt:27 | a request line with at least two spaces splits into three words that rejoin to it, the first two without spaces; fewer throw |
| Servers.HandleRequestOn | src/main/java/io/github/mpichler94/server/Server.kt:22-54 | definition of `handleRequest`: the request line, a GET or POST method, the header map, the body, then `doRequest` and the reply as written; each exception closes the socket without a reply and leaves the entries |
| Servers.OnlyGetAndPost | src/main/java/io/github/mpichler94/server/Server.kt:28 | only GET and POST get a reply; any other method throws and leaves the entries alone |
| Servers.Server.constructor | src/main/java/io/github/mpichler94/server/Server.kt:10 | the guestbook starts with the single entry `Pavel was here` |
| Servers.Server.ShowComments | src/main/java/io/github/mpichler94/server/Server.kt:76-91 | the page is CommentsPage of the entries |
| Servers.Server.AddEntry | src/main/java/io/github/mpichler94/server/Server.kt:105-110 | the entries become AddedEntries of the old ones and the comments page of the new entries is returned |
| Servers.Server.DoRequest | src/main/java/io/github/mpichler94/server/Server.kt:56-74 | the route's status and page, and the new entries, are those DoRequestOn gives |
| Servers.Server.HandleRequest | src/main/java/io/github/mpichler94/server/Server.kt:22-54 | the request line split, the header lines read into a map, the Content-Length body read; the reply as written, or the exception after which no reply is sent, and the new entries, are those HandleRequestOn gives |
| Servers.Reply | src/main/java/io/github/mpichler94/server/Server.kt:46 | corrected reply: the status line and a Content-Length of the body's UTF-8 byte count, then the body |
| Servers.CommentsPage | src/main/java/io/github/mpichler94/server/Server.kt:76-91 | definition of `showComments()`: the head, one paragraph per entry in order, then the form and the script tag |
| Servers.FormDecoded | src/main/java/io/github/mpichler94/server/Server.kt:93-103 | definition of `formDecode()`: no body gives the empty map, otherwise the decoded `name=value` fields of `split("&", limit = 2)` |
| Servers.DoRequestOn | src/main/java/io/github/mpichler94/server/Server.kt:56-74 | definition of `doRequest()`: the route chosen by method and URL, its status and page, and the entries after a `POST /add` |
| Servers.HeaderEntryRead | src/main/java/io/github/mpichler94/server/Server.kt:32-34 | a header line is read exactly when it contains `:` (otherwise destructuring throws IndexOutOfBounds); the name read is lower-case and trimmed |
| Servers.HeaderMap | src/main/java/io/github/mpichler94/server/Server.kt:31-35 | definition of `associate` over the header lines: in order, a later equal name overwriting, the first unreadable line throwing |
| Servers.HeaderMapReadIff | src/main/java/io/github/mpichler94/server/Server.kt:31-35 | the header map is built exactly when every line is read, and otherwise fails with the exception of a line that is not |
| Servers.HeaderNamesNormalised | src/main/java/io/github/mpichler94/server/Server.kt:33 | every header name in the map is lower-case and trimmed |
| Servers.HeaderLastWins | src/main/java/io/github/mpichler94/server/Server.kt:31-35 | a header line whose name no later line repeats gives the value the map keeps for that name |
| Servers.RequestBody | src/main/java/io/github/mpichler94/server/Server.kt:36-41 | no `content-length` gives no body; a malformed one throws NumberFormat, a negative one IllegalArgument (`readNBytes`); otherwise the body is a prefix of the input that follows |
| Servers.BodyOfLength | src/main/java/io/github/mpichler94/server/Server.kt:36-41 | with a valid non-negative Content-Length the body is that many characters of the input, or all of it when it ends early |
| Servers.BadHeadersNoReply | src/main/java/io/github/mpichler94/server/Server.kt:30-41 | a GET or POST with a header line without `:` gets no reply (IndexOutOfBounds) and keeps the entries; so does one with a malformed or negative Content-Length |
| ShowText.EntityText | src/io/github/mpichler94/browser/main.kt:43 | only `lt` and `gt` have a replacement, `<` and `>`; any other entity prints nothing |
| ShowText.Show | src/io/github/mpichler94/browser/main.kt:19-37 | the loop prints exactly Shown of the body |
| ShowText.Consume | src/io/github/mpichler94/browser/main.kt:24-35 | one character changes the flags and prints as Step says |
| ShowText.AfterConsistent | src/io/github/mpichler94/browser/main.kt:19-37 | outside an entity the collected entity name is always empty |
| ShowText.PlainTextEchoed | src/io/github/mpichler94/browser/main.kt:34 | plain text outside tags and entities is printed unchanged |
| ShowText.TagTextSilent | src/io/github/mpichler94/browser/main.kt:25-34 | plain text inside a tag prints nothing |
| ShowText.TagStripped | src/io/github/mpichler94/browser/main.kt:25-26 | a tag `<…>` of plain text prints nothing and leaves the scan outside a tag |
| ShowText.EntityNameCollected | src/io/github/mpichler94/browser/main.kt:33 | plain text inside an entity is appended to its name and prints nothing |
| ShowText.EntityDecoded | src/io/github/mpichler94/browser/main.kt:27-33 | `&name;` prints the entity's replacement and leaves the scan outside an entity with an empty name |
| ShowText.KnownEntities | src/io/github/mpichler94/browser/main.kt:28-43 | from the start, `&lt;` prints `<` and `&gt;` prints `>` |
| ShowText.LoneSemicolonSilent | src/io/github/mpichler94/browser/main.kt:28-32 | a `;` outside an entity prints nothing |
| ShowText.ShownChars | src/io/github/mpichler94/browser/main.kt:19-37 | the output never contains `&` or `;`, contains `<` or `>` only if the input has a `;`, and is never longer than the input |
| Layouts.HexValue | src/io/github/mpichler94/browser/layout/Layout.kt:74-76 | a hex digit's value is below 16 |
| Layouts.DigitToInt16 | src/io/github/mpichler94/browser/layout/Layout.kt:74-82 | `digitToInt(16)` succeeds exactly on hex digits, with their value; any other character throws IllegalArgument |
| Layouts.HexChar | src/io/github/mpichler94/browser/layout/Layout.kt:74-76 | the hex digit written for a value below 16 reads back as that value |
| Layouts.Byte | src/io/github/mpichler94/browser/layout/Layout.kt:85 | two hex digits make a value below 256 |
| Layouts.DecodeHex6 | src/io/github/mpichler94/browser/layout/Layout.kt:85 | a seven-character `#rrggbb` decodes exactly when its six digits are hex, and throws NumberFormat otherwise |
| Layouts.Digit | src/io/github/mpichler94/browser/layout/Layout.kt:85-90 | `Character.digit` gives -1 or a digit below the radix |
| Layouts.ParseRadix | src/io/github/mpichler94/browser/layout/Layout.kt:85-90 | `Integer.parseInt` gives a 32-bit value or throws NumberFormat |
| Layouts.IntegerDecode | src/io/github/mpichler94/browser/layout/Layout.kt:85-90 | `Integer.decode` gives a 32-bit value or throws NumberFormat |
| Layouts.ColorDecode | src/io/github/mpichler94/browser/layout/Layout.kt:85-90 | `Color.decode` gives an opaque colour with channels below 256, or throws NumberFormat |
| Layouts.HexDigitIsDigit | src/io/github/mpichler94/browser/layout/Layout.kt:85 | a character is a hex digit exactly when `Character.digit` accepts it in radix 16, with the same value |
| Layouts.SixDigits | src/io/github/mpichler94/browser/layout/Layout.kt:85 | six hex digits read as one number whose bytes are the three digit pairs |
| Layouts.DecodeHash | src/io/github/mpichler94/browser/layout/Layout.kt:85 | `Integer.decode` reads `#…` as hex and rejects a sign after the `#` |
| Layouts.DecodeIsHex | src/io/github/mpichler94/browser/layout/Layout.kt:84-85 | `Color.decode` of a seven-character `#` value is the `#rrggbb` colour |
| Layouts.Leading6 | src/io/github/mpichler94/browser/layout/Layout.kt:87 | `drop(1).take(6)` keeps at most six characters |
| Layouts.ShortHex | src/io/github/mpichler94/browser/layout/Layout.kt:73-77 | `#rgb` doubles each digit into an opaque colour with channels below 256 |
| Layouts.HashShort | src/io/github/mpichler94/browser/layout/Layout.kt:73-77 | a four-character `#` value with hex digits is the colour of its doubled digits |
| Layouts.ShortHexRejects | src/io/github/mpichler94/browser/layout/Layout.kt:73-76 | a four-character `#` value with a non-hex digit throws IllegalArgument |
| Layouts.Hex2 | src/io/github/mpichler94/browser/layout/Layout.kt:84-85 | a byte is written as two hex digits |
| Layouts.ByteOfHex2 | src/io/github/mpichler94/browser/layout/Layout.kt:84-85 | two hex digits written for a byte read back as that byte |
| Layouts.Hex6Decodes | src/io/github/mpichler94/browser/layout/Layout.kt:84-85 | `Color.decode` reads `#rrggbb` written for three bytes back as those bytes |
| Layouts.LongHexRoundTrip | src/io/github/mpichler94/browser/layout/Layout.kt:84-85 | getColor reads `#rrggbb` back as the colour it was written from |
| Layouts.AsWrittenAgreesOutsideLongHash | src/io/github/mpichler94/browser/layout/Layout.kt:71-92 | names and the 4, 5 and 7 character `#` forms read the same as written and corrected |
| Layouts.OtherHashLength | src/io/github/mpichler94/browser/layout/Layout.kt:87 | for any other `#` length, the code as written decodes the first six digits without the `#`, and the corrected one with it |
| Layouts.DecodeDecimal | src/io/github/mpichler94/browser/layout/Layout.kt:87-90 | without a sign, leading zero or `#`, `Color.decode` reads its input as decimal |
| Layouts.Decimal123456 | src/io/github/mpichler94/browser/layout/Layout.kt:87 | `Integer.decode("123456")` is 123456 |
| Layouts.HexLettersAsWritten | src/io/github/mpichler94/browser/layout/Layout.kt:87 | as written, `#ff000080` throws NumberFormat |
| Layouts.DecimalDigitsAsWritten | src/io/github/mpichler94/browser/layout/Layout.kt:87 | as written, `#12345678` reads `123456` as decimal and gives rgb(1, 226, 64) |
| Layouts.EightDigits | src/io/github/mpichler94/browser/layout/Layout.kt:84-87 | corrected: `#rrggbbaa` reads as the colour of its first three bytes |
| Layouts.NamesAreCaseSensitive | src/io/github/mpichler94/browser/layout/Layout.kt:90-243 | `white` is a known name, and a capitalised word outside the table throws NumberFormat |
| Layouts.Background | src/main/java/io/github/mpichler94/browser/layout/BlockLayout.kt:116-119 | without a background colour nothing is drawn; otherwise only rectangles are |
| Layouts.Trunc | src/io/github/mpichler94/browser/layout/InlineLayout.kt:133-137 | `toInt()` truncates toward zero |
| Layouts.MaxOrZero | src/io/github/mpichler94/browser/layout/InlineLayout.kt:133-135 | `maxOfOrNull { } ?: 0`: 0 for no words, else an element that no other exceeds |
| Layouts.LineBottomGrows | src/io/github/mpichler94/browser/layout/InlineLayout.kt:132-148 | an empty line leaves the cursor where it was, and metrics that are not negative never move it up |
| Layouts.GetColorAsWritten | src/io/github/mpichler94/browser/layout/Layout.kt:71-92 | definition of `getColor` as written: a named colour from the table, `#rgb` widened, a long `#` form cut to its first seven characters and stripped of `#`, everything else through `Color.decode` |
| Layouts.GetColor | src/io/github/mpichler94/browser/layout/Layout.kt:71-92 | corrected `getColor`: the same branches with the `#` kept, so `#rrggbb` prefixes decode as hex |
| BlockLayouts.Partition | src/main/java/io/github/mpichler94/browser/layout/BlockLayout.kt:30-69 | the loop computes Split of the children after the `li` marker |
| BlockLayouts.NodesOfAppend | src/main/java/io/github/mpichler94/browser/layout/BlockLayout.kt:41-69 | the nodes of joined piece lists are the nodes of each list in turn |
| BlockLayouts.SplitKeepsOrder | src/main/java/io/github/mpichler94/browser/layout/BlockLayout.kt:36-69 | the pieces hold the marker and then every child not skipped, in document order: `head`, `style` and `script` are the only children dropped |
| BlockLayouts.ClosedThenOne | src/main/java/io/github/mpichler94/browser/layout/BlockLayout.kt:42-50 | closing the pending run before a block or input keeps the node order |
| BlockLayouts.MaximalJoin | src/main/java/io/github/mpichler94/browser/layout/BlockLayout.kt:41-69 | a closed run, one block or input, then maximal pieces, are maximal |
| BlockLayouts.SplitMaximal | src/main/java/io/github/mpichler94/browser/layout/BlockLayout.kt:41-69 | every run piece is non-empty and no two runs are adjacent: a pending run is closed before each block or input |
| BlockLayouts.SplitClassifies | src/main/java/io/github/mpichler94/browser/layout/BlockLayout.kt:36-69 | each block piece is a kept child in block mode, each input piece a kept `input` or `button` in inline mode, and each run holds the marker and children that flow inline |
| BlockLayouts.InputClassifiedFirst | src/main/java/io/github/mpichler94/browser/layout/BlockLayout.kt:41-51 | an `input` or `button` in block mode becomes a block, since the mode is checked first |
| BlockLayouts.TextJoinsRun | src/main/java/io/github/mpichler94/browser/layout/BlockLayout.kt:61-103 | a text child always joins the pending run |
| BlockLayouts.RunAtOrigin | src/io/github/mpichler94/browser/layout/InlineLayout.kt:43-49 | a run's box starts at the run's origin |
| BlockLayouts.BlockGeometry | src/main/java/io/github/mpichler94/browser/layout/BlockLayout.kt:25-75 | a block is as wide as its parent, at the parent's left edge, below the previous box or at the parent's top, and as tall as its children together |
| BlockLayouts.PieceStacks | src/main/java/io/github/mpichler94/browser/layout/BlockLayout.kt:25-75 | one child layout has the piece's kind and sits where Stacked puts it |
| BlockLayouts.PiecesStack | src/main/java/io/github/mpichler94/browser/layout/BlockLayout.kt:41-75 | the child layouts keep the pieces' kinds and are stacked in order below each other |
| BlockLayouts.BlockStacks | src/main/java/io/github/mpichler94/browser/layout/BlockLayout.kt:30-75 | a block's children, table of contents first, are stacked in a column inside it |
| BlockLayouts.InputsShareALine | src/io/github/mpichler94/browser/layout/InputLayout.kt:34-41 | two inputs in a row share a top, the second 200 plus a space right of the first |
| BlockLayouts.TocIsBlock | src/main/java/io/github/mpichler94/browser/layout/BlockLayout.kt:31-89 | a `nav id=toc` gets one block holding the synthesised `div` with its text, laid out like any block |
| BlockLayouts.OnePiece | src/main/java/io/github/mpichler94/browser/layout/BlockLayout.kt:66-69 | a single run becomes a single inline layout, failing exactly when it does |
| BlockLayouts.DocumentHoldsOneBlock | src/io/github/mpichler94/browser/layout/Layout.kt:18-37 | the document box is 13 in from the left, 50 down, 26 narrower than the window, holds exactly one block at the same place and width and is as tall as it; it throws exactly when the block does |
| BlockLayouts.InputPaintOrder | src/io/github/mpichler94/browser/layout/InputLayout.kt:47-78 | an input paints its background rectangles, then its text at its corner, then the caret line after the text when focused |
| BlockLayouts.TocPaintsGray | src/main/java/io/github/mpichler94/browser/layout/BlockLayout.kt:113-134 | a table of contents without a background paints one grey rectangle over its whole box |
| BlockLayouts.Both | src/io/github/mpichler94/browser/layout/Layout.kt:50-56 | joining two paint results succeeds exactly when both do |
| BlockLayouts.BothAssociates | src/io/github/mpichler94/browser/layout/Layout.kt:50-56 | joining paint results is associative |
| BlockLayouts.Kids | src/io/github/mpichler94/browser/layout/Layout.kt:12 | every child layout is smaller than its parent |
| BlockLayouts.PaintEachAppend | src/io/github/mpichler94/browser/layout/Layout.kt:50-56 | painting a concatenation is painting each part in turn |
| BlockLayouts.PaintTreeIsFlatMap | src/io/github/mpichler94/browser/layout/Layout.kt:50-56 | `paintTree` is each layout's paint in pre-order, the order `treeToList` gives |
| BlockLayouts.PaintTreeAllIsFlatMap | src/io/github/mpichler94/browser/layout/Layout.kt:52-54 | painting the children in turn is each descendant's paint in pre-order |
| BlockLayouts.BoxesCount | src/io/github/mpichler94/browser/layout/Layout.kt:64-69 | `treeToList` starts with the layout itself and lists each descendant exactly once: its length is the tree's size and it holds exactly the tree's layouts |
| BlockLayouts.BoxesAllCount | src/io/github/mpichler94/browser/layout/Layout.kt:67 | the children's lists together hold exactly their trees' layouts, one entry per layout |
| BlockLayouts.TreeToList | src/io/github/mpichler94/browser/layout/Layout.kt:64-69 | the method returns Boxes of the layout |
| BlockLayouts.PaintTreeAllFails | src/io/github/mpichler94/browser/layout/Layout.kt:52-54 | once one child's paint throws, painting all children throws the same |
| BlockLayouts.AfterBoth | src/io/github/mpichler94/browser/layout/Layout.kt:51-54 | appending a joined result is appending one part then the other |
| BlockLayouts.PaintTreeInto | src/io/github/mpichler94/browser/layout/Layout.kt:50-56 | painting into a list appends PaintTree of the layout, or fails as it does |
| BlockLayouts.PaintChildren | src/io/github/mpichler94/browser/layout/Layout.kt:52-54 | the loop over children appends each child's painted tree in order |
| BlockLayouts.Split | src/main/java/io/github/mpichler94/browser/layout/BlockLayout.kt:36-69 | definition of the child loop of `layout()`: the `li` marker and inline children gather into runs, a block-mode child or an `input`/`button` closes the pending run and stands alone, `head`, `style` and `script` are dropped |
| BlockLayouts.LayoutBlock | src/main/java/io/github/mpichler94/browser/layout/BlockLayout.kt:25-75 | definition of `BlockLayout.layout()`: parent width, parent left edge, below the previous box; table of contents, then one layout per piece, each below or beside the one before; height the sum of the children; a child's exception propagates |
| BlockLayouts.LayoutInput | src/io/github/mpichler94/browser/layout/InputLayout.kt:31-45 | definition of `InputLayout.layout()`: 200 wide, one text line tall, a space right of a previous box on its top, otherwise at the parent's origin |
| BlockLayouts.LayoutDocument | src/io/github/mpichler94/browser/layout/Layout.kt:18-37 | definition of `DocumentLayout.layout()`: one block 13 in from the left, 50 down and 26 narrower than the window |
| BlockLayouts.PaintBlock | src/main/java/io/github/mpichler94/browser/layout/BlockLayout.kt:113-134 | definition of `BlockLayout.paint()`: the background rectangle from `background-color`, then the grey box of `nav.links` or the `toc` div; an unreadable colour throws |
| BlockLayouts.PaintInput | src/io/github/mpichler94/browser/layout/InputLayout.kt:47-78 | definition of `InputLayout.paint()`: background, the text (the value, or the button's text child) in its colour, and a caret after it when focused |
| BlockLayouts.PaintTree | src/io/github/mpichler94/browser/layout/Layout.kt:50-56 | definition of `paintTree()`: the layout's own paint commands, then each child's tree, the first exception ending it |
| InlineLayouts.Start | src/io/github/mpichler94/browser/layout/InlineLayout.kt:51-54 | layout starts at the box's corner with an empty line, an empty display list and the parent's width |
| InlineLayouts.Ascents | src/io/github/mpichler94/browser/layout/InlineLayout.kt:133 | one ascent per word of the line, measured in the word's font |
| InlineLayouts.Descents | src/io/github/mpichler94/browser/layout/InlineLayout.kt:135 | one descent per word of the line, measured in the word's font |
| InlineLayouts.FlushEmptyLine | src/io/github/mpichler94/browser/layout/InlineLayout.kt:132-148 | flushing appends the line's words at the baseline, empties the line, returns the cursor to the left and narrows the width to where the cursor was; an empty line moves nothing and draws nothing |
| InlineLayouts.FlushMovesDown | src/io/github/mpichler94/browser/layout/InlineLayout.kt:133-137 | with metrics that are not negative, flushing never moves the cursor up |
| InlineLayouts.AsWrittenAgreesOnFirstLine | src/io/github/mpichler94/browser/layout/InlineLayout.kt:94-138 | while the width is still the parent's, a word is placed the same as written and corrected |
| InlineLayouts.WordFits | src/io/github/mpichler94/browser/layout/InlineLayout.kt:87-101 | corrected wrap test: a word that fits within the parent's width joins the line at the cursor, trimmed, and the cursor advances by its width and a space; nothing is drawn |
| InlineLayouts.WordWraps | src/io/github/mpichler94/browser/layout/InlineLayout.kt:94-100 | a word that does not fit flushes the line first and starts the next line alone |
| InlineLayouts.TwoWordsShareALine | src/io/github/mpichler94/browser/layout/InlineLayout.kt:87-101 | two words that fit side by side on an empty line share it |
| InlineLayouts.FlatFlush | src/io/github/mpichler94/browser/layout/InlineLayout.kt:132-148 | with ten pixels per character and no ascent or descent, flushing keeps the height |
| InlineLayouts.PlainWord | src/io/github/mpichler94/browser/layout/InlineLayout.kt:88-99 | a word of letters is not blank and its own trim |
| InlineLayouts.WordPlaced | src/io/github/mpichler94/browser/layout/InlineLayout.kt:94-100 | a word is placed on the flushed cursor when it passes the wrap limit, and on the current one otherwise |
| InlineLayouts.FlatFit | src/io/github/mpichler94/browser/layout/InlineLayout.kt:94-100 | with ten pixels per character, a fitting word joins the line at the cursor's height |
| InlineLayouts.FlatWrap | src/io/github/mpichler94/browser/layout/InlineLayout.kt:94-100 | with ten pixels per character, a word that does not fit starts a new line alone, and the width narrows to where the cursor was |
| InlineLayouts.NarrowedLineAsWritten | src/io/github/mpichler94/browser/layout/InlineLayout.kt:94-138 | as written, words of 6, 4 and 3 letters at ten pixels each in a box 100 wide: after the first wrap the width is 70, so the third word wraps again although the box has room |
| InlineLayouts.FirstTwoWords | src/io/github/mpichler94/browser/layout/InlineLayout.kt:94-138 | as written, the second word wraps, narrowing the width to 70 and leaving the cursor at 50 |
| InlineLayouts.FirstWord | src/io/github/mpichler94/browser/layout/InlineLayout.kt:94-100 | the first word of 6 letters fits, leaving the cursor at 70 |
| InlineLayouts.TextColor | src/io/github/mpichler94/browser/layout/InlineLayout.kt:77 | a text without a colour is black |
| InlineLayouts.TextStepOk | src/io/github/mpichler94/browser/layout/InlineLayout.kt:74-85 | with a readable colour, `pre` text is one word and other text is split on spaces into words |
| InlineLayouts.NoWordsNoChange | src/io/github/mpichler94/browser/layout/InlineLayout.kt:88-90 | blank words change nothing |
| InlineLayouts.ParagraphGap | src/io/github/mpichler94/browser/layout/InlineLayout.kt:116-119 | closing `p` flushes and adds a 50-pixel gap, leaving an empty line at the left |
| InlineLayouts.OtherTagsNeutral | src/io/github/mpichler94/browser/layout/InlineLayout.kt:103-130 | opening or closing any tag other than br, h1, sup, abbr, pre, li and p changes nothing |
| InlineLayouts.FlagsCleared | src/io/github/mpichler94/browser/layout/InlineLayout.kt:106-128 | opening sup, abbr or pre sets its flag and closing it clears it |
| InlineLayouts.DisplayGrows | src/io/github/mpichler94/browser/layout/InlineLayout.kt:64-72 | walking a node only appends to the display list |
| InlineLayouts.TextGrows | src/io/github/mpichler94/browser/layout/InlineLayout.kt:74-85 | a text only appends to the display list |
| InlineLayouts.TagsGrow | src/io/github/mpichler94/browser/layout/InlineLayout.kt:103-130 | opening or closing a tag only appends to the display list |
| InlineLayouts.OpenedGrows | src/io/github/mpichler94/browser/layout/InlineLayout.kt:103-112 | opening a tag only appends to the display list |
| InlineLayouts.ClosedGrows | src/io/github/mpichler94/browser/layout/InlineLayout.kt:114-130 | closing a tag only appends to the display list |
| InlineLayouts.FlushGrows | src/io/github/mpichler94/browser/layout/InlineLayout.kt:132-148 | flushing only appends to the display list |
| InlineLayouts.WordGrows | src/io/github/mpichler94/browser/layout/InlineLayout.kt:87-101 | placing a word only appends to the display list |
| InlineLayouts.DisplayGrowsAll | src/io/github/mpichler94/browser/layout/InlineLayout.kt:56-69 | walking a list of nodes only appends to the display list |
| InlineLayouts.WordsGrow | src/io/github/mpichler94/browser/layout/InlineLayout.kt:82-84 | placing words only appends to the display list |
| InlineLayouts.Origin | src/io/github/mpichler94/browser/layout/InlineLayout.kt:43-49 | after an inline layout a run starts at its right edge on its top; otherwise at the parent's left edge, below the previous box or at the parent's top |
| InlineLayouts.LayoutInlineWalk | src/io/github/mpichler94/browser/layout/InlineLayout.kt:42-62 | laying out is walking the nodes from the start cursor at the origin, then a final flush; it fails exactly when the walk does |
| InlineLayouts.SupRaiseNotDrawn | src/io/github/mpichler94/browser/layout/InlineLayout.kt:98-143 | the raised top of a `sup` word is ignored when the line is drawn, since flush places words from the baseline alone |
| InlineLayouts.DisplayRepeated | src/io/github/mpichler94/browser/layout/InlineLayout.kt:187-208 | without backgrounds or `li`, painting repeats the whole display list once per node |
| InlineLayouts.Repeat | src/io/github/mpichler94/browser/layout/InlineLayout.kt:188 | k repetitions are k times as long |
| InlineLayouts.Done | src/io/github/mpichler94/browser/layout/InlineLayout.kt:56 | the result succeeds exactly when the step does, with the same exception otherwise |
| InlineLayouts.WalkAllSnoc | src/io/github/mpichler94/browser/layout/InlineLayout.kt:56 | walking one more node continues from the walk of the ones before |
| InlineLayouts.WalkAllFails | src/io/github/mpichler94/browser/layout/InlineLayout.kt:56 | once a node's walk throws, the rest of the list does not run |
| InlineLayouts.PaintFails | src/io/github/mpichler94/browser/layout/InlineLayout.kt:188 | once a node's paint throws, painting the list throws the same |
| InlineLayouts.DrawWords | src/io/github/mpichler94/browser/layout/InlineLayout.kt:141-145 | the loop draws exactly Placed of the words |
| InlineLayouts.FlushLine | src/io/github/mpichler94/browser/layout/InlineLayout.kt:132-148 | the next line's top and the words drawn are NextLineY and Placed |
| InlineLayouts.InlineLayout.constructor | src/io/github/mpichler94/browser/layout/InlineLayout.kt:14-40 | a new layout keeps its nodes, parent and previous box, with every counter at zero |
| InlineLayouts.InlineLayout.Flush | src/io/github/mpichler94/browser/layout/InlineLayout.kt:132-148 | the cursor state becomes Flushed of the old one |
| InlineLayouts.InlineLayout.AddWord | src/io/github/mpichler94/browser/layout/InlineLayout.kt:87-101 | the cursor state becomes WordAsWritten of the old one; the box is unchanged |
| InlineLayouts.InlineLayout.Place | src/io/github/mpichler94/browser/layout/InlineLayout.kt:98-100 | the trimmed word joins the line at the cursor and the cursor advances |
| InlineLayouts.InlineLayout.Text | src/io/github/mpichler94/browser/layout/InlineLayout.kt:74-85 | the cursor state becomes TextStep of the old one, or stays when the colour throws |
| InlineLayouts.InlineLayout.AddWords | src/io/github/mpichler94/browser/layout/InlineLayout.kt:82-84 | the cursor state becomes Words of the old one |
| InlineLayouts.InlineLayout.OpenTag | src/io/github/mpichler94/browser/layout/InlineLayout.kt:103-112 | the cursor state becomes Opened of the old one |
| InlineLayouts.InlineLayout.SetFlag | src/io/github/mpichler94/browser/layout/InlineLayout.kt:106-110 | the cursor state becomes Flagged of the old one |
| InlineLayouts.InlineLayout.CloseTag | src/io/github/mpichler94/browser/layout/InlineLayout.kt:114-130 | the cursor state becomes Closed of the old one |
| InlineLayouts.InlineLayout.CloseBlock | src/io/github/mpichler94/browser/layout/InlineLayout.kt:116-124 | the cursor state becomes BlockClosed of the old one |
| InlineLayouts.InlineLayout.ClearFlag | src/io/github/mpichler94/browser/layout/InlineLayout.kt:126-128 | the cursor state becomes Unflagged of the old one |
| InlineLayouts.InlineLayout.Recurse | src/io/github/mpichler94/browser/layout/InlineLayout.kt:64-72 | the cursor state becomes Walk of the old one, or the walk's exception is returned |
| InlineLayouts.InlineLayout.RecurseAll | src/io/github/mpichler94/browser/layout/InlineLayout.kt:56-69 | the cursor state becomes WalkAll of the old one, or the walk's exception is returned |
| InlineLayouts.InlineLayout.Layout | src/io/github/mpichler94/browser/layout/InlineLayout.kt:42-62 | the box becomes LayoutInline of the nodes, or the exception is returned |
| InlineLayouts.InlineLayout.Finish | src/io/github/mpichler94/browser/layout/InlineLayout.kt:57-61 | the box becomes LaidOut of the old cursor state |
| InlineLayouts.InlineLayout.Paint | src/io/github/mpichler94/browser/layout/InlineLayout.kt:187-189 | the commands are PaintInline of the nodes over the box |
| InlineLayouts.Flushed | src/io/github/mpichler94/browser/layout/InlineLayout.kt:132-148 | definition of `flush()`: each word drawn at the baseline less its ascent, the cursor below the largest descent, `width` set to where the cursor was, the line emptied |
| InlineLayouts.WordAsWritten | src/io/github/mpichler94/browser/layout/InlineLayout.kt:87-101 | definition of `word()` as written: a blank word is dropped; the wrap test compares against `width`, which `flush` has narrowed |
| InlineLayouts.WordStep | src/io/github/mpichler94/browser/layout/InlineLayout.kt:87-101 | corrected `word()`: the same steps with the wrap test against the box's own width |
| InlineLayouts.TextStep | src/io/github/mpichler94/browser/layout/InlineLayout.kt:74-85 | definition of `text()`: font and colour from the style, an unreadable colour throwing; inside `pre` one word, otherwise the words split on spaces |
| InlineLayouts.Opened | src/io/github/mpichler94/browser/layout/InlineLayout.kt:103-112 | definition of `openTag()`: `br` flushes, `sup`, `abbr` and `pre` set their flag, `li` indents by 8 |
| InlineLayouts.Closed | src/io/github/mpichler94/browser/layout/InlineLayout.kt:114-130 | definition of `closeTag()`: `p` and `h1` flush (`p` adds a gap, `h1` centres), `sup`, `abbr` and `pre` clear their flag, `li` undoes its indent |
| InlineLayouts.LayoutInline | src/io/github/mpichler94/browser/layout/InlineLayout.kt:42-62 | definition of `InlineLayout.layout()`: walk the nodes from a fresh cursor at the origin, flush the last line; the box is as tall as the cursor went |
| InlineLayouts.PaintNode | src/io/github/mpichler94/browser/layout/InlineLayout.kt:191-208 | definition of `paintNode()`: the node's background over the box, a marker square at mid-height for `li`, then the whole display list |
| OldLayouts.ModeClassified | src/io/github/mpichler94/browser/Layout.kt:105-115 | a box is in block mode exactly when it is an element with no children or with a block-level child element, and inline exactly when it is text or has children none of which is block-level |
| OldLayouts.TextChildKeepsMode | src/io/github/mpichler94/browser/Layout.kt:108-111 | appending a text child to a non-empty element does not change its mode |
| OldLayouts.Reset | src/io/github/mpichler94/browser/Layout.kt:70-76 | inline layout starts at 0,0 with an empty line and display list, size 16, plain weight and style and every flag off |
| OldLayouts.FlushEmptyLine | src/io/github/mpichler94/browser/Layout.kt:189-205 | flushing an empty line only returns the cursor to the left: it draws nothing and keeps the height |
| OldLayouts.FlushDrawsLine | src/io/github/mpichler94/browser/Layout.kt:198-202 | flushing keeps what was drawn and adds every word of the line, in order, at its own position shifted by the box's origin |
| OldLayouts.FontPriority | src/io/github/mpichler94/browser/Layout.kt:207-213 | sup wins over abbr and pre, abbr over pre and forces bold; monospaced exactly for pre outside sup and abbr; the style always passes through |
| OldLayouts.WordFits | src/io/github/mpichler94/browser/Layout.kt:137-150 | a non-blank word that fits joins the line trimmed at the cursor, and the cursor advances by its width and a space; nothing is drawn |
| OldLayouts.WordWraps | src/io/github/mpichler94/browser/Layout.kt:143-149 | a word that does not fit draws the line first and starts the next line alone at the left edge |
| OldLayouts.SupWordDrawnRaised | src/io/github/mpichler94/browser/Layout.kt:147-200 | a `sup` word is drawn half its height above the cursor, since flush draws each word at its own top |
| OldLayouts.WordsKeepFont | src/io/github/mpichler94/browser/Layout.kt:125-127 | placing words leaves the font state unchanged |
| OldLayouts.TextKeepsFont | src/io/github/mpichler94/browser/Layout.kt:118-127 | a text node leaves the font state unchanged |
| OldLayouts.WalkKeepsFont | src/io/github/mpichler94/browser/Layout.kt:117-135 | walking a node restores the size and leaves weight, style and each flag either as they were or cleared |
| OldLayouts.WalkAllKeepsFont | src/io/github/mpichler94/browser/Layout.kt:130-132 | walking children keeps the same relation between the font states |
| OldLayouts.TagPairKeepsFont | src/io/github/mpichler94/browser/Layout.kt:152-187 | if what lies between an opening and its closing tag keeps the font within the opened state, the pair keeps it within the state before |
| OldLayouts.OpenedFont | src/io/github/mpichler94/browser/Layout.kt:152-165 | opening a tag changes the font state as the tag's kind says: i italic, b bold, small -2, big +2 |
| OldLayouts.ClosedFont | src/io/github/mpichler94/browser/Layout.kt:167-187 | closing a tag changes the font state as the tag's kind says: i and b back to plain, small +2, big -2 |
| OldLayouts.FontPairWithin | src/io/github/mpichler94/browser/Layout.kt:152-187 | closing undoes opening on the font state |
| OldLayouts.FlushKeepsFont | src/io/github/mpichler94/browser/Layout.kt:189-205 | flushing leaves the font state unchanged |
| OldLayouts.BalancedTagsRestore | src/io/github/mpichler94/browser/Layout.kt:117-187 | from plain text state, walking any node restores size, weight, style and flags exactly |
| OldLayouts.CloseBoldResets | src/io/github/mpichler94/browser/Layout.kt:169-170 | after a `b` element the weight is plain and after an `i` element the style is plain, even inside an outer one |
| OldLayouts.TocIsLaidOut | src/io/github/mpichler94/browser/Layout.kt:92-103 | the table of contents is laid out as a block for a div of class toc holding the text Table of Contents |
| OldLayouts.KidsStack | src/io/github/mpichler94/browser/Layout.kt:59-68 | the child layouts stand for the children one to one and in order, at the frame's left edge and width, each starting where the one before ends, together as tall as their heights add up to |
| OldLayouts.BlockGeometry | src/io/github/mpichler94/browser/Layout.kt:54-90 | a block sits at its parent's left edge and width below the previous box; in block mode it is as tall as its children and has one per child, none for head, after the table of contents; in inline mode it has no children and is as tall as the cursor went |
| OldLayouts.PaintDocument | src/io/github/mpichler94/browser/Layout.kt:277-294 | definition of `paintTree()` from the document: `DocumentLayout.paint()` is empty, so only the children's trees are painted |
| OldLayouts.DocumentPaintsItsBlock | src/io/github/mpichler94/browser/Layout.kt:256-294 | painting a laid-out document paints its one block's tree and nothing of its own |
| OldLayouts.DocumentHoldsOneBlock | src/io/github/mpichler94/browser/Layout.kt:256-275 | the document box is 13 in and 50 down, 26 narrower than the window, and exactly as tall as its one block, which sits at its origin |
| OldLayouts.PaintShape | src/io/github/mpichler94/browser/Layout.kt:223-249 | a box paints at most one decoration, then, in inline mode only, its whole display list in order, each text 15 further right inside `li` |
| OldLayouts.PreWinsOverMarker | src/io/github/mpichler94/browser/Layout.kt:227-228 | a `pre` box paints its grey background first |
| OldLayouts.PaintEachAppend | src/io/github/mpichler94/browser/Layout.kt:288-294 | painting a concatenation of boxes is painting each part in turn |
| OldLayouts.PaintTreeIsPreOrder | src/io/github/mpichler94/browser/Layout.kt:288-294 | painting a tree paints every box of it once, in pre-order |
| OldLayouts.PaintTreeAllIsPreOrder | src/io/github/mpichler94/browser/Layout.kt:290-292 | painting a list of trees paints every box of them once, in pre-order |
| OldLayouts.DrawLineWords | src/io/github/mpichler94/browser/Layout.kt:198-202 | the loop draws exactly the words of the line shifted by the origin |
| OldLayouts.BlockLayout.constructor | src/io/github/mpichler94/browser/Layout.kt:18-53 | a new layout keeps its node, parent and previous box and starts fresh |
| OldLayouts.BlockLayout.Flush | src/io/github/mpichler94/browser/Layout.kt:189-205 | the cursor state becomes Flushed of the old one |
| OldLayouts.BlockLayout.AddWord | src/io/github/mpichler94/browser/Layout.kt:137-150 | the cursor state becomes WordStep of the old one |
| OldLayouts.BlockLayout.AddWords | src/io/github/mpichler94/browser/Layout.kt:125-127 | the cursor state becomes Words of the old one |
| OldLayouts.BlockLayout.Text | src/io/github/mpichler94/browser/Layout.kt:118-127 | the cursor state becomes TextStep of the old one |
| OldLayouts.BlockLayout.OpenTag | src/io/github/mpichler94/browser/Layout.kt:152-165 | the cursor state becomes Opened of the old one |
| OldLayouts.BlockLayout.CloseTag | src/io/github/mpichler94/browser/Layout.kt:167-187 | the cursor state becomes Closed of the old one |
| OldLayouts.BlockLayout.Recurse | src/io/github/mpichler94/browser/Layout.kt:117-135 | the cursor state becomes Walk of the old one |
| OldLayouts.BlockLayout.RecurseAll | src/io/github/mpichler94/browser/Layout.kt:130-132 | the cursor state becomes WalkAll of the old one |
| OldLayouts.BlockLayout.Layout | src/io/github/mpichler94/browser/Layout.kt:54-90 | the laid-out box is LayoutBlock of the node, whose geometry BlockGeometry states |
| OldLayouts.BlockLayout.LayoutLines | src/io/github/mpichler94/browser/Layout.kt:69-88 | in inline mode the box becomes LayoutBlock of the node |
| OldLayouts.BlockLayout.LayoutChildren | src/io/github/mpichler94/browser/Layout.kt:59-86 | in block mode the box becomes LayoutBlock of the node |
| OldLayouts.BlockLayout.Stack | src/io/github/mpichler94/browser/Layout.kt:59-68 | the children's layouts are LayoutKids, which KidsStack describes |
| OldLayouts.ModeOf | src/io/github/mpichler94/browser/Layout.kt:105-115 | definition of `layoutMode()`: text is inline, an element with a block-level child or with no children is a block, other elements are inline |
| OldLayouts.FontOf | src/io/github/mpichler94/browser/Layout.kt:207-221 | definition of `getFont()`: `sup` halves the size, else `abbr` is two smaller and bold, else `pre` is monospaced, else sans-serif at the current size, weight and style |
| OldLayouts.WordStep | src/io/github/mpichler94/browser/Layout.kt:137-150 | definition of `word()`: a blank word is dropped; one that would end past `width` flushes first; the trimmed word joins the line and the cursor passes it and a space |
| OldLayouts.Flushed | src/io/github/mpichler94/browser/Layout.kt:189-205 | definition of `flush()`: the words drawn where they were put, the cursor below the line and back at the left edge |
| OldLayouts.LayoutBlock | src/io/github/mpichler94/browser/Layout.kt:54-90 | definition of `layout()`: parent width and left edge, below the previous box; a block lays out the table of contents and one layout per child (none under `head`), an inline box walks its node |
| OldLayouts.LayoutToc | src/io/github/mpichler94/browser/Layout.kt:92-103 | definition of `getToc()` laid out: the synthesised `div` flows, giving an inline box at the parent's origin |
| OldLayouts.PaintBox | src/io/github/mpichler94/browser/Layout.kt:223-249 | definition of `paint()`: the decoration rectangles, then in inline mode the display list, moved 15 right inside `li` |

## Left out

- Strings.Lower and Strings.Upper handle ASCII letters only. Kotlin's `lowercase()` and `uppercase()` are Unicode-aware; for example `"ß".uppercase()` is `"SS"`, which changes both the length and the width of an `abbr` word.
- Strings.ParseInteger, Strings.ToInt and Strings.ToLong accept ASCII digits only. Kotlin's `toInt()` and `toLong()` read digits with `Character.digit`, which also accepts other Unicode decimal digits (`"٨٠".toInt()` is 80). This affects the URL port, the server's Content-Length and the cookie `max-age`; the cache's `max-age` is matched by an ASCII `\d+` first, so it is unaffected.
- Css.WordChar accepts ASCII letters and digits only, where the source uses `isLetterOrDigit`.
- Layouts.DigitToInt16 and Layouts.Digit accept ASCII digits only. `digitToInt(16)` and `Character.digit` also accept other Unicode decimal digits, including fullwidth ones.
- Cascade.ResolveFontSize takes the percentage product as a `Scale` parameter. It therefore does not model the `toFloat()` NumberFormatException on a malformed percentage (old Tab.kt 314-316, new Tab.kt 408-409), or the float arithmetic.
- Tabs.CspOrigins takes the origin of a URL as a parameter, so it does not model the exception that `URL(origin)` throws on a malformed origin.
- Layouts.Env and Layouts.Measure leave `getFont` (family lookup, the 0.75 scale, the font cache) and the AWT font metrics abstract. Widths, heights, ascents and descents are parameters.
- Layouts: the `1.25 * ascent` float baseline is modelled as multiplying by 5/4 with truncation.
- Cascade.StyleTree and BlockLayouts.LayoutBlock build new trees as values rather than updating the nodes' style maps and the layout objects in place.
- JsContexts.Serialized and JsContexts.Walk recurse with fuel equal to the size of the node heap. Running out of fuel stands for the StackOverflowError that a cycle made by `insertBefore` causes. AcyclicSerializes proves that fuel never runs out on an acyclic tree.
- JsContexts.JsContext.QuerySelectorAll takes selector matching as a `matches` predicate instead of parsing the selector string.
- Servers.FormDecode takes `URLDecoder.decode` as a `decode` parameter.
- HttpClients.ParseCookie takes the RFC 1123 date parser as a `parseDate` parameter. The clock (`Instant.now`) is the `now` parameter throughout.
- Caching.StoreFor adds the `max-age` to the clock without the range check of `Instant.plusSeconds`. The age is a non-negative Int, so the sum can leave the `Instant` range only for a clock reading within 2^31 seconds of `Instant.MAX`; HttpClients.PlusSeconds models that check for cookies.
- Servers.HandleRequestOn takes the request line, the header lines and the rest of the input as text. It does not model the byte stream: `readNBytes` counts bytes where the model counts characters, and the end of the stream before a request line (a null `readLine`) is not modelled.
- Urls: the datatype's own equality stands in for the class's `equals`.
- Tabs.Tab.TabTitle states only the case without a document in its own contract. Tabs.Title carries the full property.
- Sockets, TLS, chunked transfer, gzip and redirects are I/O and are not modelled. The client and tab take the fetched response as a parameter.
- Swing painting, the scrollbar, and hit-testing on mouse clicks are not modelled. The model stops at the display list of `Drawable` commands.
- The GraalVM JavaScript engine is not modelled, only the Kotlin side of the bridge.
- File reads, and the fetching of style sheets and scripts, are not modelled.
- The executor and all threading are not modelled.
- The newer Tab's `keyTyped`, `keyPressed` and `submitForm` are not modelled, nor the older `main.kt` loader, `HttpClient.kt` and `Browser.kt`.
- The `center` flag that `h1` sets is kept in the state but never read by either engine, so nothing depends on it.

## Findings

| source | as written | input that shows it | evidently intended | confidence | as-written member | corrected member |
|---|---|---|---|---|---|---|
| src/main/java/io/github/mpichler94/browser/Tab.kt:179-185 | `load` appends the new URL after the current index without dropping the forward entries | history `[a, b]` at index 0 (after going back), then loading `c`: the tab shows `b` | the forward entries are dropped and `c` is shown | not executed | Tabs.LoadAfterBackShowsForwardEntry | Tabs.LoadShowsRequested |
| src/main/java/io/github/mpichler94/browser/Chrome.kt:104-107 | the Delete key decrements the cursor | address bar `a` with the cursor at 0: the cursor becomes -1 and the next typed key throws | Delete removes the character after the cursor and keeps the cursor | not executed | Chromes.DeleteAsWrittenBreaksTyping | Chromes.EditedKeepsEditable |
| src/main/java/io/github/mpichler94/browser/Tab.kt:79 | `coerceIn(0, documentHeight - height)` throws when the page is shorter than the window | document height 0, window height 600 | the scroll is clamped to 0 | not executed | Tabs.ShortPageResizeThrows | Tabs.ResizedScrollAgrees |
| src/main/java/io/github/mpichler94/server/Server.kt:46 | `Content-Length` is the body's length in UTF-16 units | body `é`: announced as 1 byte, sent as 2 | the length of the UTF-8 bytes sent | not executed | Servers.ReplyAsWrittenShortForNonAscii | Servers.ReplyFramesBody |
| src/main/java/io/github/mpichler94/browser/JsContext.kt:139 | a childless element is closed by replacing the text before the last `>`, leaving a stray `>` | any childless non-void element: the output ends in `/>\n>` | the element ends in `/>` | not executed | JsContexts.ChildlessAsWrittenLosesTag | JsContexts.Childless |
| src/main/java/io/github/mpichler94/browser/Browser.kt:102-110 | removing a tab before the active one does not shift the active index | three tabs, the second active, remove the first: the third becomes active | the same tab stays active | not executed | Browsers.RemovalAsWrittenMovesActive | Browsers.RemovalKeepsActive |
| src/io/github/mpichler94/browser/layout/Layout.kt:87 | `drop(1).take(6)` drops the `#` before `Color.decode`, which then reads the rest as decimal | `#ff000080` throws NumberFormatException; `#12345678` gives Rgb(1, 226, 64) | the first six hex digits give the colour | not executed | Layouts.HexLettersAsWritten | Layouts.EightDigits |
| src/io/github/mpichler94/browser/layout/InlineLayout.kt:94 | the wrap test uses `width`, which `flush` (line 138) overwrites with the cursor position | words of 6, 4 and 3 letters at 10 pixels per character in a box 100 wide: the third word wraps although the line has room | wrap at the parent's width | not executed | InlineLayouts.NarrowedLineAsWritten | InlineLayouts.WordFits |
| src/io/github/mpichler94/browser/CssParser.kt:239 | the class test requires the node's classes to be among the selector's | selector `.a` against an element of classes `a b` does not match | every class of the selector is among the node's | not executed | Css.ClassTestInverted | Css.ClassTestIntended |
