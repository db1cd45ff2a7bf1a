# JSQuery core in Dafny

JSQuery indexes a tree of nested JavaScript objects as elements and answers a
small CSS-like selector language against that tree.

- **Selectors.** A selector is a list of whitespace-separated tokens. Each token
  is one or more typed terms, such as `#id`, `*`, `>` or `<`, followed by
  bracket filters like `[name=value]` and `[nth<2]`.
- **Evaluation.** Each token narrows the elements reached so far. The first term
  picks a bucket of the property index. The later terms, the attribute filters,
  the descendant filter and the nth filter then narrow that bucket. Each
  survivor becomes the context of the next token.
- **The property index.** It keeps `by[name][key]` buckets of elements, plus the
  `uid`, `level` and `delta` tables that the walk relies on.
- **Elements and nodes.** Elements keep that index in step with their contents,
  level and parent. Nodes hold scalar values.
- **Earlier revisions.** The repository keeps two earlier versions of the same
  engine side by side:
  - `lib/ElementIndexer.js`, an element set with its own helpers;
  - `lib/jsdom.js`, the `JSDOM` object that walks its tree and adds every
    object to such a set.

The model has one module per concern:

| file | models |
|---|---|
| `values.dfy` | JavaScript values and the coercions the code relies on: truthiness, `String()`, `Number()`, `parseFloat`, `==`/`===`, `trim`, property reads and writes. |
| `grammar.dfy` | The selector grammar of `lib/JSDOMConstants.js`, as recognisers, and scanners for the regular expressions built from it. The scanners cover the bracket dissector, the trailing-bracket strip, the properties match and the brace unwrap. |
| `buckets.dfy` | The data the three index revisions share: buckets, the name → delimiter map and its inversion, the `with` lookups, and the checks `addIndex` performs. |
| `tree.dfy` | The element tree as the evaluator sees it: an arena of records keyed by uid, with preorder walks. |
| `cycles.dfy` | What the guards of `addChild` and the parent setter in `lib/JSDOMElement.js` let into the tree, as written and as intended. |
| `nth.dfy` | `filterByNth` in all three revisions. |
| `attributes.dfy` | `filterByAttributes` and `applyFilters`. |
| `descendants.dfy` | `filterByDescendants`. |
| `dissect.dfy` | Token dissection in `findElementsWithSelector`. |
| `select.dfy` | `filterByParsedSelector` and `findElementsWithSelector`. |
| `property_index.dfy` | `lib/JSDOMIndex.js`, as a class. |
| `element.dfy` | `lib/JSDOMElement.js`: a class over an arena of element records beside the index. |
| `node.dfy` | `lib/JSDOMNode.js`, as a class. |
| `registry.dfy` | The element set (`elements`, `by`, `map`) shared by `ElementIndexer` and `JSDOM`, as a class. |
| `element_indexer.dfy` | The helpers of `lib/ElementIndexer.js` that differ from the others. |
| `jsdom.dfy` | The `JSDOM` object of `lib/jsdom.js`, as a class: its tree walk `index()`, and its selector checks and `getChildrenOf`. |

Conventions:

- **Numbers** are integers, and a NaN result is `None`. Fractions are not
  modelled.
- **Levels** are data: the level an element reports is whatever was last
  assigned to it. The parent setter re-levels only the element it moves, so a
  level need not count the depth. The walks down the tree terminate because
  the children lists have no cycle, which a rank map witnesses (children rank
  above the element that lists them).
- **Identity.** An element or plain object is known by its uid. Literal arrays
  and objects are distinct from everything, so they are never `===` to
  anything.
- **Parameters stand in for what is outside the model:**
  - unique ids: a function from a counter to a value;
  - regular-expression tests: the `~`/`!~` pattern test, and the selector
    validation;
  - the keyless removal: the set of buckets it reaches (`hit`).

## Model

| member | source | states |
|---|---|---|
| Values.ToJSValue | lib/JSDOMHelpers.js:310-313 | a bracket value read as a literal is never an object, and a value that stays a string keeps its text |
| Values.GetNumeric | lib/JSDOMNode.js:140-142 | a number reads as itself; anything other than a number or a string is NaN |
| Values.LooseEqSymmetric | lib/JSDOMHelpers.js:101-102 | `==`, which the `=` and `!=` filters use, is symmetric |
| Values.ArrayIndex | lib/JSDOMHelpers.js:43 | a property key denotes an array position only in its canonical decimal form |
| Values.CanonicalDigits | lib/JSDOMHelpers.js:43 | a digit string without a leading zero prints back as itself, so `elems[n]` finds position n |
| Values.IntToStringInjective | lib/JSDOMElement.js:43-49 | distinct levels print as distinct keys, so level and delta buckets never collide |
| Values.SetProp | lib/JSDOMElement.js:99-100 | `contents[named] = value` makes the property read back as the value and keeps the kind of the container |
| Values.Fields | lib/JSDOMIndex.js:177-184 | the own enumerable properties of an object are its fields; those of an array are its positions |
| Grammar.OperatorHasNoQuestionMark | lib/JSDOMConstants.js:37 | no string the OPERATORS expression accepts contains `?`: the `?=`/`?!` alternatives are a lazy space run |
| Grammar.BangIsOperator | lib/JSDOMConstants.js:37 | a bare `!`, with or without spaces, is an operator |
| Grammar.MatchBracketAt | lib/JSDOMConstants.js:49-55 | a bracket match at i is exactly `[` variable operator value `]`, with each group in its language, and the operator keeps its spaces |
| Grammar.MatchBracketAtComplete | lib/JSDOMConstants.js:49-55 | the converse: whenever `[` variable operator value `]` starts at i, with each group in its language, the anchored match succeeds, so no match means no such shape starts at i |
| Grammar.BracketsFrom | lib/JSDOMHelpers.js:308-325 | every match of the global exec loop has a variable, an operator and a value, each in its language |
| Grammar.BracketsFromSkip | lib/JSDOMHelpers.js:308-325 | the exec loop passes over the positions where no bracket match starts |
| Grammar.BracketsFromLeftmost | lib/JSDOMHelpers.js:308-325 | the list is the leftmost match after lastIndex followed by the matches from where it ends, and is empty when no match is left: every match of the loop, in order |
| Grammar.StripTrailingBrackets | lib/JSDOMHelpers.js:303 | the result is the token up to the leftmost position where `[`, a line without line terminators, and a final `]` reach the end; the cut part is exactly that run, and nothing is cut when no position starts one |
| Grammar.TermAt | lib/JSDOMConstants.js:25-31 | a term match at j spans a TERMS word, either a bare word that runs as far as term characters go, or `{`, at least one character, then the first `}`; no match means neither alternative starts at j |
| Grammar.BareTermEnd | lib/JSDOMConstants.js:25-31 | the bare part of TERMS takes every following term character and stops at the first other one |
| Grammar.TermSpanIsTerm | lib/JSDOMConstants.js:25-31 | a span that the positional scan accepts is, cut out, a whole string in the TERMS language |
| Grammar.PropertyAt | lib/JSDOMIndex.js:207 | a properties match is a mapped delimiter followed by a term, or one wildcard character; the delimiter-and-term alternative is preferred whenever it matches, and no match means neither alternative starts at i |
| Grammar.PropertiesFrom | lib/JSDOMHelpers.js:327 | every term of a token starts with a delimiter or a wildcard |
| Grammar.PropertiesFromSkip | lib/JSDOMHelpers.js:327 | the global match passes over the positions where no properties match starts |
| Grammar.PropertiesFromLeftmost | lib/JSDOMHelpers.js:327 | the list is the text of the leftmost properties match followed by the matches from where it ends, and is empty when none is left: the token's terms in order |
| Grammar.UnwrapWithoutBraces | lib/JSDOMHelpers.js:332 | a term without `{` comes out of the brace rewrite unchanged |
| Grammar.StripQuotes | lib/JSDOMHelpers.js:311-312 | a value that starts and ends with the quote, with no line terminator between, loses exactly that pair; any other value stays as it is |
| Grammar.StripQuotesRoundTrip | lib/JSDOMHelpers.js:311-312 | quoting a line and stripping the quotes gives the line back |
| Grammar.ReplaceCircularParents | lib/JSDOMConstants.js:61-64 | an object under the key `parent` becomes that object's id; every other value is returned unchanged |
| Buckets.IndexOf | lib/JSDOMIndex.js:17-22 | `indexOf` is -1 exactly when the item is absent, and otherwise the first position holding it |
| Buckets.RemoveFirstNoDup | lib/JSDOMIndex.js:17-22 | splicing out the first occurrence from a repetition-free bucket removes that element and keeps every other |
| Buckets.PushNewNoDup | lib/JSDOMIndex.js:142-148 | the guarded push keeps a bucket free of repetitions |
| Buckets.PushNewIdempotent | lib/JSDOMIndex.js:142-148 | pushing an element twice is pushing it once |
| Buckets.Unique | lib/JSDOMHelpers.js:272 | `makeUnique` has no repetitions and the same members as its input |
| Buckets.UniqueOfNoDup | lib/JSDOMHelpers.js:272 | `makeUnique` leaves a repetition-free list as it is |
| Buckets.UniqueInOrder | lib/JSDOMHelpers.js:272 | `makeUnique` lists the elements in the order of their first occurrences in the input |
| Buckets.BucketAt | lib/JSDOMIndex.js:35-59 | a bucket lookup gives the bucket, or `[]` when the index or the key is absent |
| Buckets.MappedChar | lib/JSDOMIndex.js:97-99 | `map[name]` is the character recorded for the name, or nothing when it is absent or null |
| Buckets.Invert | lib/JSDOMIndex.js:102 | `invert()[c]` names an entry mapped to c, and is absent exactly when no entry is |
| Buckets.Types | lib/JSDOMIndex.js:195-198 | the type class holds exactly the characters of the mapped delimiters |
| Buckets.SetDelim | lib/JSDOMIndex.js:105 | `map[name] = c` makes the name map to c and keeps every other entry |
| Buckets.RemoveDelim | lib/JSDOMIndex.js:123-131 | `delete map[name]` unmaps the name and keeps every other entry |
| Buckets.CheckAddIndex | lib/JSDOMIndex.js:79-104 | the checks of `addIndex`, in order: a name that is not a string; a truthy delimiter that is not a string; one longer than one character; a forbidden character; a name already mapped; a delimiter in use by a non-empty name. Each error comes only with its condition, the first two exactly then; when the checks pass, the delimiter is a single allowed character that is free, or absent |
| Buckets.ForbiddenDelimiterRejected | lib/JSDOMConstants.js:7 | every character of INVALID_SELECTOR_CHARACTERS is refused as a delimiter, whatever the map holds |
| Buckets.DelimiterInUseRejected | lib/JSDOMIndex.js:101-103 | a delimiter already mapped to another name is refused |
| Buckets.WithCall | lib/JSDOMIndex.js:35-59 | `with[name](key)` returns the bucket, or `[]` for an absent key. `with.selector` throws for want of its tokens argument. An unknown name is not a function |
| Buckets.ObjectJoinIsNoNumeral | lib/JSDOMIndex.js:154-156 | a bucket printed as a key never reads as a numeral |
| Tree.WellFormedAcyclic | lib/JSDOMHelpers.js:55-71 | an arena with consistent links is one the walks terminate on exactly when its children lists have no cycle |
| Tree.Preorder | lib/JSDOMHelpers.js:66-68 | the walk of a subtree starts at its root, and every other element it visits ranks above the root |
| Tree.InPreorderAll | lib/JSDOMHelpers.js:66-68 | an element is in the walk of a list of siblings exactly when it is in one sibling's subtree |
| Tree.ParentInSubtree | lib/JSDOMHelpers.js:61-68 | an element of a subtree other than its root has its parent in the same subtree |
| Tree.SiblingRoots | lib/JSDOMHelpers.js:66-68 | two subtrees rooted at children of the same element that share an element have the same root |
| Tree.PreorderNoDup | lib/JSDOMHelpers.js:66-68 | the walk of a subtree visits each element once |
| Tree.PreorderAllNoDup | lib/JSDOMHelpers.js:66-68 | the walk of a list of distinct siblings visits each element once |
| Tree.DeeperIsSmaller | lib/JSDOMHelpers.js:66-68 | going down to a child shrinks the set of elements ranked at least as high, so the walk terminates |
| Tree.AboveShrinks | lib/JSDOMHelpers.js:66-68 | raising the rank bound never adds elements, so each sibling's walk is measured by no more than the list's |
| Nth.RelativeIndex | lib/JSDOMHelpers.js:29-37 | a `slice` argument: NaN is 0, a negative one counts from the end, and the result is clamped to the length |
| Nth.FilterByNth | lib/JSDOMHelpers.js:12-45 | without an nth filter the input comes back unchanged; with one, the result is the input with some items left out, in order |
| Nth.AfterPosition | lib/JSDOMHelpers.js:30-31 | `>` n keeps the items after position n; `>=` n keeps those from n on |
| Nth.BeforePosition | lib/JSDOMHelpers.js:32-33 | `<` n keeps the first n items; `<=` n keeps the first n + 1 |
| Nth.DropsOnlyPosition | lib/JSDOMHelpers.js:38-41 | `!=` and `!~` drop position n and nothing else |
| Nth.AtPosition | lib/JSDOMHelpers.js:43 | the default selects position n, or nothing past the end |
| Nth.Keywords | lib/JSDOMHelpers.js:18-27 | `first`, `last` and `middle`, in any case, select positions 0, length − 1 and ceil(length / 2) − 1 |
| Nth.OtherStringSelectsNothing | lib/JSDOMHelpers.js:43 | any other string that is not an index key selects nothing with `=` |
| Nth.SelectNthSubseq | lib/JSDOMHelpers.js:29-43 | every operator of the switch keeps an order-preserving subsequence |
| Nth.SubseqMembers | lib/JSDOMHelpers.js:29-43 | every item of such a subsequence is an item of the input |
| Nth.LegacyFilterByNth | lib/jsdom.js:81-102 | the `lib/jsdom.js` revision: the input unchanged without nth, otherwise an order-preserving subsequence |
| Nth.LegacyLastIsLength | lib/jsdom.js:88 | `last` resolves to the length, so `[nth=last]` selects nothing and `[nth<last]` keeps everything |
| Nth.IndexerFilterByNth | lib/ElementIndexer.js:59-84 | the `lib/ElementIndexer.js` revision: the input unchanged without nth; the default always gives one slot |
| Nth.IndexerKeywordsUnresolved | lib/ElementIndexer.js:63-73 | the keyword test looks at the filter object, so `[nth=first]` gives one undefined slot |
| Nth.IndexerPastTheEnd | lib/ElementIndexer.js:82 | the default gives one undefined slot past the end |
| Descendants.ScanCandidates | lib/JSDOMHelpers.js:61-64 | the scan appends the candidates whose parent is the visited element, in order, and throws at a candidate without a parent |
| Descendants.Collect | lib/JSDOMHelpers.js:55-71 | the recursion from p appends, for each element of p's subtree in preorder, the candidates that are its children; a rootless candidate throws |
| Descendants.VisitChildren | lib/JSDOMHelpers.js:66-68 | the loop over the children adds the gathered children of each child's subtree, one subtree after the other |
| Descendants.WalkFrom | lib/JSDOMHelpers.js:61-68 | the walk from p is p's own children among the candidates, then the walks of its children |
| Descendants.FilterByDescendants | lib/JSDOMHelpers.js:55-71 | without a context the candidates come back unchanged; with one, the result is the gather over the context's subtree |
| Descendants.GatherWithin | lib/JSDOMHelpers.js:61-64 | the filter keeps nothing but candidates |
| Descendants.GatherConcat | lib/JSDOMHelpers.js:66-68 | gathering over two walks in turn is gathering over their concatenation |
| Descendants.ChildrenAmongCount | lib/JSDOMHelpers.js:61-64 | a candidate is kept among p's children as often as it is given when p is its parent, and otherwise not at all |
| Descendants.DescendantsKeep | lib/JSDOMHelpers.js:55-71 | under a context, a candidate is kept exactly as often as it is given when its parent lies in the context's subtree, and is dropped otherwise |
| Descendants.RootCandidateThrows | lib/JSDOMHelpers.js:63 | under a context, a candidate without a parent makes the filter throw |
| Descendants.DirectChildrenFirst | lib/JSDOMHelpers.js:61-68 | the direct children of the context among the candidates come first, in candidate order |
| Attributes.Kept | lib/JSDOMHelpers.js:168 | the kept elements are no more than the input |
| Attributes.CheckElement | lib/JSDOMHelpers.js:84-166 | the nested loops over one element's filters, which stop at the first failure, decide whether every filter on every property passes |
| Attributes.FilterByAttributes | lib/JSDOMHelpers.js:79-171 | the loop pushes exactly the passing elements, and returns the input for an empty filter map |
| Attributes.EmptyFiltersKeepAll | lib/JSDOMHelpers.js:81 | an empty filter map keeps everything |
| Attributes.KeptSubseq | lib/JSDOMHelpers.js:84-169 | the result is the input with the failing elements left out, in order |
| Attributes.KeptMembership | lib/JSDOMHelpers.js:84-169 | an element is kept exactly when it is in the input and passes every filter |
| Attributes.KeptCount | lib/JSDOMHelpers.js:84-169 | each passing element is kept as often as it is given |
| Attributes.UndefinedPropertyExcludes | lib/JSDOMHelpers.js:93-98 | a filter on an undefined property that is not a dotted path excludes the element |
| Attributes.PassesReadsProperty | lib/JSDOMHelpers.js:93-98 | a filter tests the own property, which must be defined unless the property is a dotted path; a dotted path with a defined filter value reads the path from `val()` |
| Attributes.UnknownOperatorPasses | lib/JSDOMHelpers.js:155 | an operator the switch does not name never excludes an element |
| Attributes.EqualityComplementary | lib/JSDOMHelpers.js:101-102 | `=` and `!=` are complementary for the same value |
| Attributes.ScalarFailsMembership | lib/JSDOMHelpers.js:109-127 | `?=` and `?!` both fail on a value that is neither an array nor a truthy object |
| Attributes.MembershipComplementary | lib/JSDOMHelpers.js:109-127 | `?=` and `?!` are complementary on an array or a truthy object |
| Attributes.NullFailsMatch | lib/JSDOMHelpers.js:129-153 | `~` and `!~` fail on null and undefined |
| Attributes.NaNComparisonPasses | lib/JSDOMHelpers.js:104-107 | a comparison with a side that `parseFloat` makes NaN keeps the element |
| Attributes.ComparisonMeansOrder | lib/JSDOMHelpers.js:104-107 | with numbers on both sides, `<`, `>`, `<=` and `>=` keep exactly the elements the comparison names, though each guard is written as its negation |
| Attributes.MatchTestsTrimmedString | lib/JSDOMHelpers.js:129-153 | on a value that is neither null nor undefined, a pattern that does not compile fails `~` and `!~`; otherwise `~` keeps a match of the trimmed string and `!~` its absence |
| Attributes.LegacyValue | lib/jsdom.js:141-142 | a filter value that is a string holding `.` reads the path the value names, not the property; otherwise the property is read |
| Attributes.IndexerFalsyValues | lib/ElementIndexer.js:163-181 | `~` fails on every falsy value and `!~` passes on one, for a pattern that compiles |
| Attributes.LegacyTruthyNonStringFails | lib/ElementIndexer.js:163-181 | a truthy value that is not a string fails both `~` and `!~` in both earlier revisions, because `trim` throws inside the try |
| Attributes.LegacyEmptyStringMatches | lib/jsdom.js:132-205 | in `lib/jsdom.js`, `~` keeps the empty string whatever the pattern, where `lib/ElementIndexer.js` drops it |
| Attributes.LegacyMatchNeedsString | lib/jsdom.js:132-205 | in `lib/jsdom.js`, `~` on null, a number or a boolean fails |
| Attributes.LegacyMatchTestsString | lib/jsdom.js:175-193 | in `lib/jsdom.js`, on a non-empty string, a pattern that does not compile fails `~` and `!~`; otherwise `~` keeps a match of the trimmed string and `!~` its absence |
| Attributes.RevisionsAgreeOffMatch | lib/jsdom.js:143-173 | apart from `~` and `!~`, the three revisions decide every operator alike |
| Attributes.LegacyFilterAsWritten | lib/jsdom.js:132-205 | as written, the result is the whole input when every property has no filters, and nothing otherwise |
| Attributes.LegacyFilterDropsMatches | lib/jsdom.js:132-205 | `[x=1]` keeps nothing even from an element whose x is 1 |
| Attributes.LegacyFilterCorrected | lib/jsdom.js:132-205 | the corrected filter keeps an element exactly when it passes every filter, in input order |
| Dissect.AddFilter | lib/JSDOMHelpers.js:321-322 | a filter joins the end of its variable's group, a new group goes last, and the other groups stay |
| Dissect.FirstAppearances | lib/JSDOMHelpers.js:318-323 | the reference order: the variables other than nth, each once, in order of first appearance |
| Dissect.GroupedByVariable | lib/JSDOMHelpers.js:318-323 | the group of a variable other than nth holds exactly its brackets' filters, in source order |
| Dissect.GroupsInSourceOrder | lib/JSDOMHelpers.js:318-323 | the groups are named by the variables other than nth, in order of first appearance |
| Dissect.LastNthWins | lib/JSDOMHelpers.js:318-319 | the nth filter is the last nth bracket |
| Dissect.NoNthBracket | lib/JSDOMHelpers.js:305 | without an nth bracket there is no nth filter |
| Dissect.TermOf | lib/JSDOMHelpers.js:332-337 | a term's value is the unwrapped and trimmed term, or the term without its first character; its type is the name mapped to its first character |
| Dissect.TermsOf | lib/JSDOMHelpers.js:330-338 | the terms are rewritten one for one, in order |
| Dissect.PlainTerm | lib/JSDOMHelpers.js:332-337 | a term without braces or outer spaces is the delimiter's name and the rest |
| Dissect.SingleCharTerm | lib/JSDOMHelpers.js:335 | a one-character term, such as a wildcard, is its own value |
| Dissect.DissectToken | lib/JSDOMHelpers.js:301-341 | a dissected token has at least one term, and its nth filter and groups are those the bracket loop collects from the trimmed token |
| Dissect.DissectTokens | lib/JSDOMHelpers.js:301-341 | a successful dissection gives one segment per token |
| Dissect.FirstErrorOk | lib/JSDOMHelpers.js:301-341 | the dissection succeeds exactly when every token does, and then holds their segments in order |
| Dissect.DissectTokensOk | lib/JSDOMHelpers.js:301-341 | the same for the tokens of a selector: success exactly when every token dissects, with the segments in order |
| Dissect.FirstErrorStays | lib/JSDOMHelpers.js:301-341 | the first token that throws ends the dissection; later tokens are never examined |
| Dissect.CollectBrackets | lib/JSDOMHelpers.js:308-325 | the exec loop collects exactly the brackets of the global dissector, in order |
| Dissect.RewriteTerms | lib/JSDOMHelpers.js:330-338 | the in-place loop rewrites every match into its term |
| Dissect.DissectTokenLoop | lib/JSDOMHelpers.js:302-340 | one turn of the token loop computes the token's segment |
| Dissect.DissectTokensLoop | lib/JSDOMHelpers.js:301-341 | the token loop computes the dissection of all tokens |
| Select.ChildrenOrRootsWithin | lib/JSDOMHelpers.js:179-182 | the `>` candidates, the level-0 bucket or the context's child elements, are elements of the tree |
| Select.Narrow | lib/JSDOMHelpers.js:217 | the attribute, descendant and nth filters keep only candidates |
| Select.NarrowPath | lib/JSDOMHelpers.js:219-224 | the `>` and `<` narrowing keeps only candidates that pass every filter |
| Select.NarrowLoop | lib/JSDOMHelpers.js:244 | the imperative filter chain computes the narrowing |
| Select.Among | lib/JSDOMHelpers.js:235-238 | the inner loop keeps exactly the elements that the later bucket also holds |
| Select.ExtraMatchesMembers | lib/JSDOMHelpers.js:229-241 | after the later terms, an element survives exactly when it is a first-term match that some later term's bucket holds |
| Select.ExtraMatchesLoop | lib/JSDOMHelpers.js:229-241 | the nested loops compute that join |
| Select.AmongLoop | lib/JSDOMHelpers.js:235-238 | the inner loop pushes the elements of the first-term matches that the later bucket holds, in order |
| Select.GeneralElems | lib/JSDOMHelpers.js:213-244 | the starting elements of the general path are elements of the tree |
| Select.GeneralElemsLoop | lib/JSDOMHelpers.js:213-244 | the imperative selection computes those starting elements |
| Select.FinalPath | lib/JSDOMHelpers.js:261-271 | the single-segment fast paths give elements of the tree |
| Select.ParentContext | lib/JSDOMHelpers.js:254 | the context looked up for a `<` segment is an element of the tree, if any |
| Select.NextContext | lib/JSDOMHelpers.js:250-256 | the context handed to the rest of the walk is an element of the tree, if any |
| Select.Walk | lib/JSDOMHelpers.js:191-273 | the selector walk gives elements of the tree |
| Select.WalkEach | lib/JSDOMHelpers.js:248-259 | concatenating the walks of the survivors gives elements of the tree |
| Select.FilterByParsedSelector | lib/JSDOMHelpers.js:191-273 | the recursive method, with `shift`, the loops and `concat`, computes the walk |
| Select.ConcatWalks | lib/JSDOMHelpers.js:248-259 | the loop over the survivors computes the concatenation of their walks |
| Select.NarrowOfNone | lib/JSDOMHelpers.js:217 | a segment's filters keep nothing from nothing |
| Select.NarrowMembers | lib/JSDOMHelpers.js:244 | a survivor of a segment is a candidate that passes every attribute filter and, under a context, has its parent in the context's subtree |
| Select.NonFinalPathSegmentEmpty | lib/JSDOMHelpers.js:218-224 | a `>` or `<` segment that is not the last contributes nothing, because line 244 starts again from the empty `elems` |
| Select.EmptyFirstBucket | lib/JSDOMHelpers.js:226-227 | a typed first term whose bucket is empty ends the walk with no match |
| Select.UnknownTypeThrows | lib/JSDOMHelpers.js:226 | a typed first term without a `with` entry throws |
| Select.GeneralPathNoDup | lib/JSDOMHelpers.js:272 | outside the fast paths the result has no repetitions |
| Select.FinalTypedSegment | lib/JSDOMHelpers.js:226-246 | each match of a last segment with one typed term is in that term's bucket, passes the segment's filters and, under a context, hangs below it |
| Select.FinalWildcard | lib/JSDOMHelpers.js:261-263 | each match of the `*` fast path is in the delta bucket of the level, passes the filters and hangs below the context |
| Select.FinalDescendant | lib/JSDOMHelpers.js:264-268 | each match of the `>` fast path is a level-0 element or a child of the context, and passes the filters |
| Select.FinalAscendant | lib/JSDOMHelpers.js:269-270 | the `<` fast path gives at most the context itself, and only when it passes the filters |
| Select.AscendantContextIsParent | lib/JSDOMHelpers.js:250-254 | with a well-formed uid table, the context passed to a following `<` segment is the element's parent |
| Select.DissectedTokens | lib/JSDOMHelpers.js:340 | every dissected segment has a first term, so `terms[0]` exists |
| Select.FindElementsWithSelector | lib/JSDOMHelpers.js:281-348 | a falsy or non-string selector throws, as does a token that fails to dissect; otherwise the result is the walk of the segments with no context |
| Select.FindElementsWithSelectorLoop | lib/JSDOMHelpers.js:281-348 | the imperative version computes the same |
| PropertyIndex.Filed | lib/JSDOMIndex.js:144-147 | after the add, e is in the bucket of the key; the index keeps its keys and the other indices stay |
| PropertyIndex.Unfiled | lib/JSDOMIndex.js:17-22 | the keyed removal changes only the one bucket |
| PropertyIndex.Cleared | lib/JSDOMIndex.js:137-140 | `empty()` keeps every index name and empties its buckets |
| PropertyIndex.Purged | lib/JSDOMIndex.js:165-175 | the purge changes the custom indices only, each bucket losing e |
| PropertyIndex.IndexedAll | lib/JSDOMIndex.js:177-184 | indexing all properties keeps the index names |
| PropertyIndex.AddedTo | lib/JSDOMIndex.js:142-148 | an element, an existing index and a key that is truthy or 0 put e in the key's bucket; the other indices stay |
| PropertyIndex.RemovedFrom | lib/JSDOMIndex.js:150-163 | the removal changes only the named index |
| PropertyIndex.FiledIdempotent | lib/JSDOMIndex.js:142-148 | adding an element twice is adding it once |
| PropertyIndex.FiledOnce | lib/JSDOMIndex.js:142-148 | after the add, the element is in its bucket exactly once and no bucket repeats an element |
| PropertyIndex.UnfiledRemoves | lib/JSDOMIndex.js:17-22 | the keyed removal takes e out of its bucket and keeps every other element there |
| PropertyIndex.FiledThenUnfiled | lib/JSDOMIndex.js:17-22 | removing what was just added restores the bucket when the element was not there before |
| PropertyIndex.PurgedRemoves | lib/JSDOMIndex.js:165-175 | after the purge no custom bucket holds e; the locked indices and every other element stay |
| PropertyIndex.KeylessOutcome | lib/JSDOMIndex.js:150-163 | the keyless removal can splice e only out of buckets whose key a bucket prints as; every other element stays |
| PropertyIndex.KeylessLeavesNumerals | lib/JSDOMIndex.js:154-156 | the keyless removal changes nothing in a table keyed by numerals, such as the level and delta tables |
| PropertyIndex.IndexedAllFiles | lib/JSDOMIndex.js:177-184 | an indexed property puts e in the bucket of its value, and the other buckets of that index stay |
| PropertyIndex.IndexedAllSkips | lib/JSDOMIndex.js:177-184 | an index that no property names is left alone |
| PropertyIndex.Index.constructor | lib/JSDOMIndex.js:29-70 | a new index has empty `uid`, `level` and `delta` tables, their bucket lookups and the selector lookup |
| PropertyIndex.Index.AddIndex | lib/JSDOMIndex.js:79-116 | a failed check changes nothing; on success the delimiter is recorded when given, and a table and lookup are created only for a new name |
| PropertyIndex.RemovalGuard | lib/JSDOMIndex.js:124 | the guard of `removeIndex`: a non-string name does nothing, a string name throws when the lock list is undefined, and otherwise is removed exactly when it is not locked |
| PropertyIndex.RemovalGuardContrast | lib/JSDOMIndex.js:8 | a string name that is not locked, `"foo"` among them, throws as written and is removed against `LOCKED_INDICES`; a locked one throws as written and is kept against `LOCKED_INDICES` |
| PropertyIndex.Index.RemoveIndexAsWritten | lib/JSDOMIndex.js:123-131 | any string name throws, because the guard reads the undefined `LOCKED_PROPERTIES`; nothing is changed |
| PropertyIndex.Index.RemoveIndex | lib/JSDOMIndex.js:8 | read with `LOCKED_INDICES`: a string name that is not locked loses its table, lookup and delimiter, and anything else changes nothing |
| PropertyIndex.Index.Empty | lib/JSDOMIndex.js:137-140 | the loop replaces every table with an empty one and keeps the lookups and the map |
| PropertyIndex.Index.AddElementToIndex | lib/JSDOMIndex.js:142-148 | the method computes the guarded add |
| PropertyIndex.Index.RemoveElementFromIndex | lib/JSDOMIndex.js:150-163 | the method computes the keyed or keyless removal |
| PropertyIndex.Index.KeylessWalk | lib/JSDOMIndex.js:154-156 | each bucket is passed as the key, and the walk reaches only the buckets under keys it prints as |
| PropertyIndex.Index.RemoveFromAllCustomIndices | lib/JSDOMIndex.js:165-175 | an element is purged from every custom index; anything else changes nothing |
| PropertyIndex.Index.IndexAllProperties | lib/JSDOMIndex.js:177-184 | an object and an element file the element under every indexed property; null throws; anything else changes nothing |
| Element.MovedFacts | lib/JSDOMElement.js:43-45 | the element joins the level bucket of a numeric new level and leaves that of the old level |
| Element.DeltasAddedHas | lib/JSDOMElement.js:49 | after the loop, every delta bucket 0 .. level holds the element |
| Element.ReleveledFacts | lib/JSDOMElement.js:36-51 | the level setter leaves the element in the new level bucket and in every delta bucket up to its level, and out of the old level bucket; with NaN it is in no level bucket of its old level |
| Element.Reparented | lib/JSDOMElement.js:61-69 | the parent setter sets the parent and makes the level the parent's level + 1 |
| Element.ReparentedChildren | lib/JSDOMElement.js:63 | the element leaves its old parent's children, and a parent that did not list it still does not |
| Element.Adopted | lib/JSDOMElement.js:142 | `children.push(child)` appends the child |
| Element.ParentSetterDoesNotAdopt | lib/JSDOMElement.js:66 | the parent setter never lists the element among the new parent's children, because `addChild(p)` refuses p itself |
| Element.Spliced | lib/JSDOMElement.js:120-121 | `splice(n, 1)` removes position n, counts a negative n from the end, and ignores an n past the end |
| Element.Dropped | lib/JSDOMElement.js:124 | `delete contents[named]` removes the field |
| Element.WithChildren | lib/JSDOMElement.js:90-93 | the copy's `children` is the list of child values, and every other property is that of the contents |
| Element.RefiledMoves | lib/JSDOMElement.js:102-104 | the prop setter leaves the element in the bucket of the new value and out of that of the old one |
| Element.LinkedUpdate | lib/JSDOMElement.js:61-69 | a record update that respects the parent and child links keeps the arena linked |
| Element.Document.constructor | lib/JSDOMElement.js:3-10 | an empty arena over a valid index |
| Element.Document.NewElement | lib/JSDOMElement.js:5 | a non-object throws and changes nothing; an object gets a fresh uid, a record with no parent, level 0 and no children, and is indexed under each indexed property and once under its uid |
| Element.Document.SetLevel | lib/JSDOMElement.js:36-51 | a value that is neither truthy nor 0 changes nothing. Otherwise a numeric value sets the level, and the index is re-levelled. A NaN keeps the level but still leaves its level bucket |
| Element.Document.RemoveChild | lib/JSDOMElement.js:152-156 | the first occurrence of an element child is spliced out, and the other children keep their order |
| Element.Document.SetParent | lib/JSDOMElement.js:61-69 | a refused parent changes nothing; an accepted one reparents and re-levels |
| Element.Document.AddChild | lib/JSDOMElement.js:139-145 | a refused child changes nothing. An accepted child is appended and, when its parent setter accepts, reparented and re-levelled |
| Element.Document.PropOf | lib/JSDOMElement.js:108-110 | `prop(named)` is the stored value, and throws on null contents |
| Element.Document.Prop | lib/JSDOMElement.js:97-111 | `prop(named, value)` stores the value, moves the element between that property's buckets and returns the element; reading it back gives the value |
| Element.Document.RemoveProp | lib/JSDOMElement.js:113-129 | for a string or number name with a defined value, the bucket entry and the property go; otherwise nothing changes |
| Element.Document.ValueOf | lib/JSDOMElement.js:89-93 | `val()` is a copy of the contents whose `children` holds one value per child |
| Element.Document.ChildValues | lib/JSDOMElement.js:92 | the children's values, one per child, in order |
| Element.Document.Val | lib/JSDOMElement.js:78-95 | `val(object)` replaces the contents and re-indexes the custom properties; `val()` reads the copy; other values change nothing |
| Cycles.KidsOf | lib/JSDOMElement.js:20-26 | the `children` of every element of the arena: a copy of its children list |
| Cycles.ChainAccepted | lib/JSDOMElement.js:139-145 | in the line g, c, s (g lists c, c lists s), which is linked and has no cycle, `s.addChild(g)` passes the guard of `addChild` and that of g's parent setter |
| Cycles.ThreeCycle | lib/JSDOMHelpers.js:66-68 | children lists that go round three elements admit no ranking, so the walk down them never ends |
| Cycles.AddChildClosesCycle | lib/JSDOMElement.js:139-145 | as written, `s.addChild(g)` on the line g, c, s is accepted and leaves the cycle g, c, s, g |
| Cycles.ReachStep | lib/JSDOMHelpers.js:66-68 | the subtree of an element takes in the children of each of its members |
| Cycles.AdoptedEdge | lib/JSDOMElement.js:139-145 | after `addChild`, every child list is an old one, perhaps less the moved element, except that s also lists c |
| Cycles.AdoptionStaysAcyclic | lib/JSDOMElement.js:139-145 | with the guard that also refuses a child whose subtree holds self, the parent setter always accepts and no cycle arises |
| Node.NumericString | lib/JSDOMNode.js:138-142 | a string holding an integer literal is the level `getNumeric` reads from it |
| Node.Node.constructor | lib/JSDOMNode.js:17-48 | the parent is null and the level is 0; a falsy key is replaced by a fresh id |
| Node.Node.Lvl | lib/JSDOMNode.js:136-157 | `lvl()` reads the level. `lvl(n)` with a numeric number or string sets it and returns the node. Any other value keeps it and returns undefined. The index never changes |
| Node.Node.Val | lib/JSDOMNode.js:109-125 | `val()` reads the value; `val(v)` with a falsy or non-object v stores it |
| Node.Node.Parent | lib/JSDOMNode.js:83-95 | a node other than this becomes the parent, with the level its level + 1; a second parent throws at `remove`; any other argument only reads |
| Node.Node.Children | lib/JSDOMNode.js:66-73 | a node has no children |
| Node.Node.Key | lib/JSDOMNode.js:54-60 | without a parent the key throws; with one it is the position among the parent's children, which is none |
| Registry.DeltaSpan | lib/ElementIndexer.js:537 | the delta loop runs level + 1 times for a level that coerces to a number of at least 0, and not at all otherwise |
| Registry.AddedIdempotent | lib/ElementIndexer.js:525-544 | adding an object twice is adding it once |
| Registry.AddedOnce | lib/ElementIndexer.js:525-544 | after `add` the elements have no repetitions and a plain object is listed exactly once; anything else is ignored |
| Registry.AddedFiles | lib/ElementIndexer.js:530-535 | `add` appends the object to the bucket of each property naming an index, and changes no other bucket outside the delta table |
| Registry.AddedDelta | lib/ElementIndexer.js:537-540 | after `add` the object is in every delta bucket 0 .. level |
| Registry.DeltaFilledHas | lib/ElementIndexer.js:537-540 | the delta loop puts the object in every bucket it visits |
| Registry.DeltaFilledNoDup | lib/ElementIndexer.js:539 | the delta loop never repeats an object in a bucket |
| Registry.RemovedFromSet | lib/ElementIndexer.js:551-567 | `remove` takes a listed plain object out of the elements and keeps the others |
| Registry.RemovedKeepsDelta | lib/ElementIndexer.js:558-563 | `remove` leaves the delta buckets as they are, unless the object has a `delta` property of its own |
| Registry.RemoveUndoesAdd | lib/ElementIndexer.js:525-567 | for an object not yet added, `remove` after `add` restores the elements and every property bucket, while the delta table keeps the object |
| Registry.RemoveUndoesPush | lib/ElementIndexer.js:558-563 | the property loop of `remove` undoes that of `add` |
| Registry.Store.constructor | lib/ElementIndexer.js:355-417 | no elements, the id, selector, level and delta tables, and the initial map |
| Registry.Store.Empty | lib/ElementIndexer.js:445-449 | only the element list is reset; the callback rebinds its parameter, so every bucket stays |
| Registry.Store.PushProps | lib/ElementIndexer.js:530-535 | the property loop computes the pushes into the indexed buckets |
| Registry.Store.FillDelta | lib/ElementIndexer.js:537-540 | the delta loop computes the guarded pushes into buckets 0 .. level |
| Registry.Store.AddOne | lib/ElementIndexer.js:527-541 | a plain object not yet listed is appended, filed and put in its delta buckets |
| Registry.Store.Add | lib/ElementIndexer.js:525-544 | every argument is added in turn |
| Registry.Store.UnpushProps | lib/ElementIndexer.js:558-563 | the property loop of `remove` splices the object out of its property buckets |
| Registry.Store.RemoveOne | lib/ElementIndexer.js:553-564 | a listed plain object is spliced out of the elements and its property buckets |
| Registry.Store.Remove | lib/ElementIndexer.js:551-567 | every argument is removed in turn |
| Registry.Store.AddIndex | lib/ElementIndexer.js:466-504 | a failed check changes nothing; on success the delimiter is recorded when given, and a table is created only for a new name |
| Registry.Store.RemoveIndex | lib/ElementIndexer.js:511-518 | a string name outside id, level, delta and selector loses its table and delimiter; anything else changes nothing |
| Jsdom.Annotated | lib/jsdom.js:605-608 | this sets an entry's fields. An id that is truthy or 0 is kept; otherwise a fresh one is drawn. The parent is the enclosing object, or null at the root. The level is the parent's level + 1, or 0 at the root. `children` is kept when it is a non-null object, and is `[]` otherwise. Every other field stays |
| Jsdom.WalkOne | lib/jsdom.js:604-612 | an entry is added first, annotated, before its children |
| Jsdom.Jsdom.constructor | lib/jsdom.js:389-480 | the closure state starts from the initial tables and map, with copies, and `self.index()` adds every object of the tree in walk order |
| Jsdom.Jsdom.Index | lib/jsdom.js:599-614 | `index()` empties the element list and adds the annotated entries of the tree, parents before children, in walk order |
| Jsdom.Jsdom.IndexAll | lib/jsdom.js:604-612 | the loop over a list of entries adds each entry's walk in turn |
| Jsdom.Jsdom.IndexOne | lib/jsdom.js:605-611 | one entry is annotated and added, then its children are walked when it has an object `children` |
| Jsdom.Jsdom.Add | lib/jsdom.js:708-727 | `add` as in the element set |
| Jsdom.Jsdom.Remove | lib/jsdom.js:734-749 | `remove` as in the element set |
| Jsdom.Jsdom.Empty | lib/jsdom.js:620-624 | only the element list is reset |
| Jsdom.Jsdom.AddIndex | lib/jsdom.js:633-674 | a failed check is returned and changes neither tables nor delimiters. On success the delimiter is recorded when given, a table is created only for a new name, and the other tables stay. The copies of the map and of the with entries are refreshed only when that table is new |
| Jsdom.Jsdom.RemoveIndex | lib/jsdom.js:681-692 | a string name outside LOCKED_PROPERTIES loses its table and its delimiter, and the copies are refreshed; anything else leaves tables, delimiters and copies as they are |
| Jsdom.AddedAllConcat | lib/jsdom.js:604-612 | adding two lists in turn is adding their concatenation |
| Jsdom.ValidateTerm | lib/jsdom.js:511 | the captured character is never a mapped delimiter |
| Jsdom.FirstSpacesThenNone | lib/jsdom.js:511 | the validateTerm expression finds nothing after p exactly when every token start after p is a mapped delimiter |
| Jsdom.ValidateTermNone | lib/jsdom.js:324-325 | the validateTerm expression finds nothing exactly when every token starts with a mapped delimiter |
| Jsdom.FindCheck | lib/jsdom.js:324-328 | the selector passes exactly when it is a non-empty string whose tokens all start with a mapped delimiter and which validates. A bad token start throws "Invalid selector type" with its character |
| Jsdom.FindCheckRefusesType | lib/jsdom.js:324-325 | a token starting with an unmapped character is refused with that character |
| Jsdom.ChildrenOf | lib/jsdom.js:213-218 | an object's array `children` gives its items; a value that is not an object, or has no object `children`, gives `[]`; null `children` throws |
| ElementIndexer.IndexerChildrenOf | lib/ElementIndexer.js:197-202 | as written, `getChildrenOf` gives `[]` for every value |
| ElementIndexer.IndexerChildrenMissed | lib/ElementIndexer.js:197-202 | an object whose `children` is `[x]` gets `[]` here and `[x]` from the `lib/jsdom.js` version |
| ElementIndexer.FindChecksCompared | lib/jsdom.js:324-328 | `lib/jsdom.js` accepts a selector exactly when `lib/ElementIndexer.js` does and every token of it starts with a mapped delimiter |
| ElementIndexer.IndexerFindCheck | lib/ElementIndexer.js:302-303 | the selector passes exactly when it is a non-empty string that validates; otherwise it throws "Invalid selector" with the selector or `(empty)` |

## Left out

- `lib/JSDOMTree.js`, `index.js`, `lib/QueryArray.js`, `lib/JSDOMElementArray.js` and `lib/JSDOMStat.js` are not part of this model. They hold wiring, hashing, demos, array wrappers and timing.
- Hashing, export, clone and parsing are not modelled (`getTreeHash`, `export`, `hash`, `fromString`, `clone`). They are calls into `crypto`, `JSON` and proto-lib.
- The regular-expression engine is not modelled. The `~`/`!~` pattern test and the `validate` expression of the earlier revisions are parameters. The grammar fragments are hand-written recognisers.
- `String.prototype.split` by the selector expression is not modelled. The evaluator takes its tokens ready-split, as `lib/JSDOMHelpers.js` does.
- Floating point is not modelled. Numbers are integers, and fractions in `parseFloat` and in numeric literals are dropped.
- Values.StringToNumber: only decimal integer literals are read. Exponents (`"1e3"`), hexadecimal, binary and octal literals (`"0x10"`, `"0b1"`, `"0o7"`), `"Infinity"` and fractions give NaN here, where `Number` reads them; a consequence of integer numbers.
- Values.ParseFloat: only a decimal digit prefix is read. A literal without a leading digit (`".5"`), an exponent and `"Infinity"` give NaN or a truncated value here; a consequence of integer numbers.
- Tree.WellFormed: the walks are modelled only on arenas whose children lists have no cycle, because on a cycle `filterByDescendants` does not terminate (see Findings). Links are taken to be consistent, as the parent setter and `addChild` keep them.
- proto-lib is not part of this model. `toJSValue`, `getNumeric`, `findChildAtPath`, `isPureObject`, `uniqueId`, `copy`, `every` and `each` have simplified definitions; `every` stops at an explicit `false`.
- Inherited `Object.prototype` names are not modelled. A `with` lookup or property read sees own properties only.
- `walkSelectorPaths` and the `lib/ElementIndexer.js` `filterByDescendants` are not modelled as a walk of their own. They repeat the `lib/JSDOMHelpers.js` walk over the element set's fields. The pieces that differ are modelled: `filterByNth`, `applyFilters`, `getChildrenOf` and the selector check.
- `filterByParsedSelector` and the token loop of `findElementsWithSelector` in `lib/jsdom.js` are not modelled as a walk of their own either. They repeat the `lib/JSDOMHelpers.js` walk. Its `filterByNth`, `filterByAttributes`, `getChildrenOf` and selector checks are modelled.
- `getElements`, `query` and the regexps getters are thin wrappers over state or over the regular-expression engine.
- The `JSDOM` constructor's TypeError for a tree that is not an object is not modelled, and neither are tree entries that are not objects. Tree entries are objects with an identity, their own fields and their children.
- Node promotion is not modelled. `JSDOMNode.val(object)` calls `e.parent(...)` and `self.detach()`, which no element or node defines. `Node.Node.Val` returns `Promoted` and changes nothing.
- Node.Node.Lvl, Node.Node.Parent: the index calls for a node are modelled as no-ops, because `addElementToIndex` and `removeElementFromIndex` accept only elements.
- PropertyIndex.Index.RemoveElementFromIndex: which buckets the keyless walk reaches depends on the key order, so it is a parameter (`hit`). The contract states what holds whatever that set is.
- PropertyIndex.Keyless: stated for any set of reached buckets, for the same reason.
- Element.Document.ValueOf: recursion through the children carries a fuel bound of one more than the number of elements. The contract states the shape of the copy, not that the fuel suffices.
- Jsdom.FindCheck: the `validate` expression is a parameter `validates`, because the regular-expression engine is out of scope.
- ElementIndexer.IndexerFindCheck: the `validate` expression is a parameter, for the same reason.
- Jsdom.Jsdom.constructor: the unique ids come from a parameter `ids`, a function of a counter, because proto-lib's `uniqueId` is outside the model.
- Test expectations that the code as written does not meet are not stated, such as a `TypeError` class or `lvl` returning the node for a non-numeric value.
- `JSDOMIndex.with.selector` calls `findElementsWithSelector` with two arguments, so it always throws. `Buckets.WithCall` states that outcome, and the evaluator takes its tokens as a parameter.

## Findings

| source | as written | input that shows it | evidently intended | confidence | as-written member | corrected member |
|---|---|---|---|---|---|---|
| lib/JSDOMIndex.js:124 | `removeIndex` reads `JSDOMConstants.LOCKED_PROPERTIES`, and lib/JSDOMConstants.js does not define it | `removeIndex("foo")` throws a TypeError | the local `LOCKED_INDICES` of line 8 | not executed | PropertyIndex.Index.RemoveIndexAsWritten | PropertyIndex.Index.RemoveIndex |
| lib/ElementIndexer.js:198 | tests `typeof typeof e.children === 'object'`, which is never true | the object `{ children: [x] }` gets `[]` | `typeof e.children === 'object'`, as lib/jsdom.js:214 has it | not executed | ElementIndexer.IndexerChildrenMissed | Jsdom.ChildrenOf |
| lib/jsdom.js:132-205 | `valid` is read inside the callbacks before the outer `every` assigns it, so the inner `every` stops at the first filter | `[x=1]` on an element whose x is 1 keeps nothing | keep the elements that pass every filter | not executed | Attributes.LegacyFilterDropsMatches | Attributes.LegacyFilterCorrected |
| lib/ElementIndexer.js:63 | tests `typeof nth === 'string'` on the filter object, so keywords are never resolved | `[nth=first]` gives one undefined slot | resolve `first`, `last` and `middle`, as lib/JSDOMHelpers.js:18-27 does | not executed | Nth.IndexerKeywordsUnresolved | Nth.Keywords |
| lib/JSDOMElement.js:139-145 | the guard of `addChild` refuses self and self's parent, but not a more distant ancestor | with g listing c and c listing s, `s.addChild(g)` makes the cycle g, c, s, g, and `filterByDescendants` from g never returns | also refuse a child whose subtree holds self | not executed | Cycles.AddChildClosesCycle | Cycles.AdoptionStaysAcyclic |
| lib/jsdom.js:88 | `last` resolves to `elems.length`, one past the final position | `[nth=last]` selects nothing | the final position, `elems.length - 1`, as lib/JSDOMHelpers.js has it | not executed | Nth.LegacyLastIsLength | Nth.Keywords |
