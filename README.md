# til style ripper — a Dafny model

`til` is a static site builder. It collects the HTML pages, the CSS files and
the scripts of a site. Its style ripper then does four things for each page:

- it counts every class name, id and tag name the page uses;
- it removes CSS selectors that name something the page never uses;
- it ranks the remaining names by the bytes they occupy (occurrences times
  length) and renames the costliest ones to the shortest generated names
  (`a` … `z`, `a0` …);
- it inlines the resulting CSS into the page.

The build step around the ripper does the following:

- it computes a route for each page (`pages/about/index.html` → `/about/`);
- it writes a route table without the page's own route for each page;
- it inserts the navigation script before `</body>`;
- it bundles the scripts in reverse order.

The configuration reader fills defaults and validates `compress`.

The repository has three versions of the ripper, and all three are modelled:

- `rip.ts`: per page; prunes classes, ids and type selectors; renames classes
  and ids.
- `styleripper.ts`: per page; prunes and renames classes only; throws on an
  unused class.
- `styleripper.js`: one table and one rename map shared by all pages.

CSS and HTML trees are values: tree walks are recursive functions over the
`Css.Node` and `Html.HNode` datatypes. The occurrence counters that the
sources mutate are a class (`Tracking.Occurrences`) whose methods are proved
against the specification functions of `Occurrence`. The loops of the
sources are methods with loop invariants: the selector-removal loop, the
rename walks, `generateShortestName`, the per-file reduce steps and the build
loops. Each is proved equal to a specification function, and the properties
are proved as lemmas about those functions.

Renaming is modelled as the sources write it: for each file in turn, one walk
per ranked name (`Renaming.Walks`), and a record of renames carried from file
to file (`Renaming.WalkRenames`, `Renaming.FilesRecord`). The pipelines
`Rip.RipPage`, `StyleripperTs.RipPage` and `StyleripperJs.Rip` use these
walks, and `styleripper.js` looks the page tokens up in its seeded object.
Beside each pipeline sits the intended renaming by lookup in the rank map
(`Rip.IntendedPage`, `StyleripperTs.IntendedPage`,
`StyleripperJs.IntendedRip`). A lemma shows the two are equal whenever no
ranked name is the generated name of an earlier rank (`NoEarlierShortName`);
see Findings for an input where they differ.

Modules:

- `Base`: results, files, `String.prototype.replace` with a string pattern,
  and the reverse-concatenating `reduce`.
- `Names`: `generateShortestName` and `cleanCSSIdentifier`.
- `Occurrence`: occurrence tables and the stable cost ranking.
- `Css`: the CSS tree, pruning, and comment stripping.
- `Renaming`: the rename walks as written, and renaming by rank map.
- `Html`: the HTML tree and its rewriting.
- `Parsers`: css-tree and node-html-parser as given functions.
- `Tracking`: the mutable counters.
- `Rip`: `rip.ts`.
- `StyleripperTs`: `styleripper.ts`.
- `StyleripperJs`: `styleripper.js`.
- `Build`: the helpers of `build.ts`.
- `Config`: `config.ts`.

## Model

| member | source | states |
|---|---|---|
| Base.IndexOfSpec | rip.ts:111 | `indexOf` finds the first occurrence at or after the start, and finds none exactly when there is none |
| Base.ReplaceFirstSpec | rip.ts:111 | `replace` with a string pattern replaces only the first occurrence, keeps the text around it, and leaves a string without the pattern unchanged |
| Base.ConcatReversedSpec | rip.ts:102 | `reduce((acc, x) => x + acc, '')` is the items joined in reverse order; no items give "" |
| Names.GenerateShortestName | rip.ts:354-378 | the subtract-26 loop yields `ShortName(idx)`: a letter, then the overflow count minus one in decimal when the index passed 25 |
| Names.ShortNameInjective | rip.ts:354-378 | distinct ranks get distinct generated names |
| Names.ShortNameLengthMonotone | rip.ts:354-378 | a later rank never gets a shorter name |
| Names.ShortNameAlphabet | styleripper.ts:226-250 | a generated name is one lower-case letter followed by digits, and is one character long exactly for ranks below 26 |
| Names.DecimalInjective | styleripper.js:168-192 | distinct overflow counts print differently (number-to-string is injective) |
| Names.Clean | rip.ts:350-352 | `cleanCSSIdentifier` leaves no backslash and keeps every other character with its count |
| Names.CleanChar | rip.ts:350-352 | one character is dropped exactly when it is a backslash |
| Names.CleanAppend | rip.ts:350-352 | cleaning a joined name is cleaning its pieces and joining them, so the kept characters stay in order |
| Names.CleanEscapedName | rip.ts:350-352 | the escaped class `md\:flex` is looked up as `md:flex` |
| Names.CleanFixesPlainNames | styleripper.ts:222-224 | cleaning changes a name exactly when the name holds a backslash |
| Names.CleanShrinks | styleripper.js:121-123 | cleaning never lengthens a name |
| Names.CleanShortName | rip.ts:211-230 | generated names survive cleaning, so a later walk finds a renamed selector under its new name |
| Occurrence.BumpAllSpec | rip.ts:255-286 | counting names keeps the table well formed; each count grows by the name's occurrences; new names are appended after the old keys, in order |
| Occurrence.BumpSpec | styleripper.ts:167-175 | one occurrence: a known name is incremented, a new one enters with 1 |
| Occurrence.BumpAllAppend | styleripper.js:133-140 | counting a concatenation is counting its parts in turn |
| Occurrence.TallyCounts | rip.ts:244-253 | a table counted from empty holds each name's number of occurrences and has an entry exactly for the names that occur |
| Occurrence.TallySpec | styleripper.ts:163-181 | the same, stated on the count map |
| Occurrence.BumpExistingAllSpec | rip.ts:120-139 | the CSS recount keeps the keys and their order, and adds to each existing entry the number of times it was met |
| Occurrence.BumpExistingAllAppend | rip.ts:68-78 | recounting a concatenation is recounting its parts in turn |
| Occurrence.SortByCostSpec | rip.ts:332-336 | the insertion sort is a permutation, sorted by decreasing cost, and keeps the input order within each cost |
| Occurrence.RankedSpec | rip.ts:325-348 | `sortedNames` ranks every key exactly once, costliest first, with ties in insertion order (`Array.prototype.sort` is stable) |
| Occurrence.CostOrdering | styleripper.ts:207-220 | a strictly costlier name is ranked earlier and never receives a longer name |
| Occurrence.MultisetDistinct | styleripper.js:31-34 | a permutation of distinct names is distinct |
| Css.NamesOfKindMembers | rip.ts:124-135 | the names a walk reads are exactly the cleaned names of the components of that kind |
| Css.SheetsNamesSource | rip.ts:68-78 | a name read from several files is read from one of them |
| Css.RemoveUnusedSelectors | rip.ts:163-206 | the removal loop keeps, in order, exactly the selectors none of whose components fails the test, and asks for the rule's removal exactly when a non-empty list becomes empty |
| Css.KeepUsedSpec | rip.ts:168-199 | kept selectors are used selectors of the list, every used selector is kept, and the list never grows |
| Css.RemoveUnusedCss | rip.ts:141-161 | the pruning walk over a node list equals `PruneNodes` |
| Css.RemoveUnusedNode | rip.ts:144-159 | the pruning walk over one node equals `PruneNode` |
| Css.PruneSelectors | rip.ts:141-206 | the selectors left after pruning are exactly the used selectors of the original tree, in their order |
| Css.PruneNodeSelectors | rip.ts:141-206 | the same for one node |
| Css.PruneKeepsAtrules | rip.ts:141-161 | pruning never removes an at-rule and keeps them in order |
| Css.PruneNodeKeepsAtrules | rip.ts:141-161 | the same for one node |
| Css.PruneDropsComments | rip.ts:145-148 | with comment removal on, no comment survives at any depth |
| Css.PruneNodeDropsComments | rip.ts:145-148 | the same for one node |
| Css.PruneRulesNonEmpty | rip.ts:150-154 | a rule that had selectors never comes out with an empty selector list |
| Css.PruneNodeRulesNonEmpty | rip.ts:150-154 | the same for one node |
| Css.PruneNoComments | rip.ts:141-161 | pruning a tree without comments gives a tree without comments |
| Css.PruneNodeNoComments | rip.ts:141-161 | the same for one node |
| Css.PruneNothingUnused | styleripper.js:57-81 | when every selector is used, pruning that keeps comments changes nothing |
| Css.PruneNodeNothingUnused | styleripper.js:57-81 | the same for one node |
| Css.PruneIdempotent | rip.ts:141-206 | pruning a pruned tree again with the same table changes nothing |
| Css.PruneNodeIdempotent | rip.ts:141-206 | the same for one node |
| Css.FlattenMembers | rip.ts:170-190 | every component of a flattened selector list comes from one of its selectors |
| Css.PrunedNamesUsed | rip.ts:163-206 | after pruning, every name that a class or id walk reads comes from a component that passed the test |
| Css.ClassPruneSpec | styleripper.ts:92-115 | class-only pruning keeps a selector exactly when each of its class components names an entry; a selector without class components is never removed |
| Css.StripCommentsSpec | styleripper.ts:84-89 | stripping comments leaves none, and keeps every selector and every at-rule |
| Css.StripNodeSpec | styleripper.ts:84-89 | the same for one node |
| Renaming.MapNodesCompose | rip.ts:84-87 | two component renamings in turn are one renaming by their composition |
| Renaming.MapNodeCompose | rip.ts:84-87 | the same for one node |
| Renaming.MapNodesSelectors | rip.ts:208-236 | renaming maps the tree's selectors one by one and keeps their order and number |
| Renaming.MapNodeSelectors | rip.ts:208-236 | the same for one node |
| Renaming.FlattenMap | rip.ts:208-236 | renaming commutes with flattening the selectors |
| Renaming.RankMapKeys | rip.ts:81-87 | the rank map has an entry for exactly the ranked names |
| Renaming.RankMapAt | rip.ts:211-230 | among distinct ranked names, the k-th is sent to `ShortName(k)` |
| Renaming.RankMapRank | rip.ts:211-230 | every value of the rank map is the generated name of some rank |
| Renaming.RankMapSpec | styleripper.ts:134-155 | the rank map sends the k-th name to `ShortName(k)` and has no other key |
| Renaming.RankMapValues | rip.ts:350-378 | every generated name handed out is non-empty and survives cleaning |
| Renaming.RankedMap | rip.ts:81-87 | for a table's ranking: rank `i` gets `ShortName(i)`, exactly the table's names are mapped, and no two names share a value |
| Renaming.RankMapInjective | styleripper.js:100-119 | collision-freedom: distinct ranked names get distinct generated names |
| Renaming.RenameByMapNames | rip.ts:211-230 | the CSS side of rename consistency: renaming by a map turns the list of names of that kind into the same list looked up in the map |
| Renaming.RenameByMapOtherKind | rip.ts:232-233 | renaming classes leaves the id names alone, and renaming ids leaves the class names alone |
| Renaming.RenameByEmpty | rip.ts:84-87 | renaming by the empty map changes nothing |
| Renaming.RenameSelectorWalks | rip.ts:211-230 | the source's loop of walks, one per ranked name, equals `Walks`, and its record of renames equals `WalkRenames` |
| Renaming.WalkOnce | rip.ts:215-228 | one walk renames every selector whose cleaned name is the walked name, and records the pair exactly when such a selector exists |
| Renaming.WalkStep | styleripper.ts:136-152 | walk `i` acts on the tree the earlier walks left |
| Renaming.WalkAfterLookup | rip.ts:211-230 | after a renaming by lookup, one more walk is a lookup with one more entry, provided the walked name is neither a key nor a value yet |
| Renaming.LookupNamesKeeps | rip.ts:299-323 | a name that is neither a key nor a value of the map occurs in the looked-up list exactly when it occurs in the original |
| Renaming.WalksAgree | rip.ts:211-230 | when no ranked name equals the generated name of an earlier rank, the walks as written equal renaming by lookup in the rank map |
| Renaming.WalkRenamesAgree | rip.ts:211-230 | under the same condition, the walks record exactly the rank-map entries of the names the tree uses |
| Renaming.AllWalksAgree | rip.ts:211-230 | under `NoEarlierShortName`, all the walks of a tree are its renaming by lookup in the rank map |
| Renaming.FilesWalksAgree | styleripper.js:102-116 | the same, for every file of a list |
| Renaming.WalkRenamesFrom | rip.ts:220-224 | walking with a record already filled adds the same entries as walking from an empty record |
| Renaming.FilesRecordStep | styleripper.ts:136-152 | the record after one more file is that file's walks applied to the record of the earlier files |
| Renaming.FilesRecordAgrees | rip.ts:211-230 | under `NoEarlierShortName`, the record carried across all files is the rank map restricted to the names the files use: it has an entry for exactly the ranked names some file uses, each with its rank's generated name |
| Renaming.WalksCollide | rip.ts:211-230 | the walks as written can rename a selector twice: with the ranking ["bb", "a"], `.bb` ends up as `.b`, while the record says bb → a |
| Renaming.OneClassRule | styleripper.js:102-116 | a walk over a one-selector rule renames that selector exactly when its cleaned name matches |
| Html.RenameClassTokens | rip.ts:288-323 | rewriting the tree maps all its class tokens, in order, through the class map |
| Html.RenameNodeClassTokens | styleripper.ts:183-205 | the same for one node |
| Html.RenameIds | rip.ts:315-321 | rewriting maps the ids of the whole tree through the id map, when no id is renamed to "" |
| Html.RenameNodeIds | rip.ts:315-321 | the same for one node |
| Html.RenameKeepsShape | rip.ts:288-323 | rewriting keeps the structure, the tags, the text, the number of tokens per element and which elements have an id |
| Html.RenameNodeKeepsShape | rip.ts:288-323 | the same for one node |
| Html.RenameKeepsTags | rip.ts:288-323 | tag names are never renamed |
| Html.RenameNodeKeepsTags | rip.ts:288-323 | the same for one node |
| Html.RenameTreeAgrees | rip.ts:288-323 | two class maps with the same lookup on every class token of the tree rewrite it the same way |
| Html.RenameNodeAgrees | rip.ts:288-323 | the same for one node |
| Html.RenameByNothing | styleripper.js:148-166 | rewriting with empty maps leaves the tree as it is |
| Html.RenameNodeByNothing | styleripper.js:148-166 | the same for one node |
| Parsers.ParseSheets | rip.ts:41-44 | every CSS file is parsed, one tree per file, in order |
| Tracking.CheckedBumps | styleripper.ts:119-129 | bumping a list of names in turn keeps the keys and reports success exactly when every name has an entry; on success the table is every name bumped |
| Tracking.CheckedRecount | styleripper.ts:119-129 | the checked class recount succeeds exactly when every class name has an entry, then adds one per occurrence; otherwise it fails with the source's message |
| Tracking.CheckedRecountTally | styleripper.js:85-95 | recounting names that all occur in the HTML never throws; afterwards the keys are the HTML tokens and each count is the HTML occurrences plus the CSS occurrences |
| Tracking.AllCountedAppend | styleripper.ts:119-129 | all names of a concatenation have an entry exactly when all names of both parts do |
| Tracking.CountedPrefix | styleripper.js:85-95 | if every name of some files has an entry, so does every name of their first files |
| Tracking.Occurrences.constructor | rip.ts:48-52 | a fresh page starts with three empty tables |
| Tracking.Occurrences.CountClasses | styleripper.ts:167-175 | counting an element's class tokens bumps each one in turn and changes nothing else |
| Tracking.Occurrences.CountElement | rip.ts:255-286 | counting one element bumps its class tokens, its id when it has one and its tag when it has one |
| Tracking.Occurrences.CountTree | rip.ts:244-253 | the recursive walk counts the classes, ids and tags of every element at every depth |
| Tracking.Occurrences.CountClassTree | styleripper.js:131-146 | the class-only walk counts every class token at every depth and leaves the other tables alone |
| Tracking.Occurrences.Recount | rip.ts:120-139 | the recount bumps each class and id selector whose cleaned name has an entry, and leaves the tag table alone |
| Tracking.Occurrences.RecountClassesChecked | styleripper.ts:119-129 | the checked recount reports failure exactly when some class selector has no entry; on success every class selector was counted |
| Rip.RipFiles | rip.ts:39-118 | `rip` parses the CSS files once and returns `RipPage` of each page, in order, with renaming as written |
| Rip.ParseCssFiles | rip.ts:41-44 | each CSS file is parsed once, in order |
| Rip.RipHtmlFile | rip.ts:46-116 | the per-page body equals `RipPage`: a fresh table, the HTML walk, pruning and recount, ranking, the walks of each file in turn with the records carried over, HTML rewriting by those records, and injection |
| Rip.TrackCss | rip.ts:59-78 | every file is pruned against the tables of the HTML walk, and the tables end as those counts plus the recount of the pruned files |
| Rip.RenameCssFiles | rip.ts:84-102 | the inlined CSS is the files' texts, last file first, each file walked by the class ranking and then the id ranking; with `uglify`, the rename maps are the records of those walks carried from file to file (`ClassRecord`, `IdRecord`) |
| Rip.RenameCssNodes | rip.ts:91-98 | one file's step: its text is the generated class-then-id walks, and each record is extended by that file's walks |
| Rip.RecordsStep | rip.ts:211-229 | a file's walks extend the records of the files before it |
| Rip.PrefixStep | rip.ts:91-101 | the reduce adds a file's text in front of the texts of the files before it |
| Rip.HtmlCounts | rip.ts:238-286 | after the HTML walk, each table has an entry exactly for the names that occur on the page, with their number of occurrences |
| Rip.RipPruneSpec | rip.ts:68-78 | with `removeUnusedCSS`, a file keeps exactly the selectors whose every component passes `RipUsed`, loses its comments and keeps its at-rules; without the option it is unchanged |
| Rip.RipWithoutPruning | rip.ts:70-72 | without `removeUnusedCSS` no CSS file changes |
| Rip.RecountedSpec | rip.ts:73-77 | the recount keeps every table's keys, adds each class or id selector of the files to its existing entry, and leaves the tag table alone |
| Rip.PageTablesValid | rip.ts:48-78 | the page's tables stay well formed, with the keys of the HTML walk |
| Rip.PrunedSheetsNamesCounted | rip.ts:163-206 | after pruning, every class and id name in any file has an entry, so the recount counts all of them |
| Rip.RipRankMaps | rip.ts:81-87 | classes and ids are ranked independently: rank `i` gets `ShortName(i)`, exactly the counted names are mapped, and no two share a value |
| Rip.RenameSheetNames | rip.ts:208-236 | renaming a file by both maps turns its class names and its id names into their lookups |
| Rip.IntendedRenameConsistent | rip.ts:84-107 | for the intended renaming with `uglify`, CSS and HTML agree: each file's names are looked up in the rank maps, the page's tokens and ids are looked up in the restricted rank maps, which agree with the rank maps on every name a CSS file uses and leave other names alone |
| Rip.WalksAgreeOnPage | rip.ts:211-233 | when neither ranking has a name equal to an earlier generated name, each file's class and id walks are its renaming by lookup, and both records are the rank maps restricted to the names the files use |
| Rip.WalkSheetsIdNames | rip.ts:211-229 | under that condition, the class walks leave every file's id names as they were |
| Rip.TextsAgree | rip.ts:91-101 | where each file's walks equal its lookup renaming, the texts as written equal the intended texts |
| Rip.RipPageAgrees | rip.ts:46-116 | the page as written equals the intended page without `uglify`, and with it whenever no ranked class or id is an earlier generated name |
| Rip.RipRenameConsistent | rip.ts:84-107 | for the renaming as written, with `uglify` and under that condition: each file's walked names are looked up in the rank maps, the walked records are the restricted rank maps, and the page's tokens and ids are looked up in those records, agreeing with the rank maps on every CSS name and leaving other names alone |
| Rip.RipWithoutUglify | rip.ts:91-101 | without `uglify`, each file's text is its pruned tree, generated |
| Rip.RipPageData | rip.ts:104-116 | the output keeps the page's path; its data is the serialized tree with `<style>` and the files' texts in reverse order in place of the first `<body>` |
| Rip.RipStylePlacement | rip.ts:109-111 | the `<style>` element lands right after the first `<body>`, and the text around it is kept |
| Rip.RipWithoutBody | rip.ts:109-111 | a page without `<body>` receives no CSS |
| Rip.RipAt | rip.ts:46-116 | the i-th output is `RipPage` of the i-th page against the parsed CSS files |
| Rip.RipPagesIndependent | rip.ts:46-116 | a page's output depends only on that page and the CSS files, not on the other pages |
| StyleripperTs.RipFiles | styleripper.ts:29-77 | `rip` maps every page in turn, and a throw ends the whole call |
| StyleripperTs.RipErrorStays | styleripper.ts:30 | once a prefix of the pages throws, the whole call throws the same error |
| StyleripperTs.RipHtmlFile | styleripper.ts:30-76 | the per-page body equals `RipPage`: the walks of each file in turn, the record carried over, and the page rewritten by that record |
| StyleripperTs.TrackCss | styleripper.ts:40-44 | the files are parsed, stripped and pruned against the HTML table; the result reports failure exactly when the checked recount would throw; on success the table is the checked recount |
| StyleripperTs.RenameCssFiles | styleripper.ts:56-65 | the inlined CSS is the files' texts, last file first, each walked by the class ranking with `minify`; the rename map is the record of those walks carried from file to file (`FilesRecord`) |
| StyleripperTs.FileStep | styleripper.ts:56-65 | the reduce adds a file's text in front of the earlier texts, and its walks extend the record of the earlier files |
| StyleripperTs.TrimSpec | styleripper.ts:79-115 | trimming leaves no comment and keeps the at-rules; a selector survives exactly when each of its class components names an entry |
| StyleripperTs.TrimmedNamesCounted | styleripper.ts:92-129 | every class name left in the trimmed files has an entry |
| StyleripperTs.PageTableSpec | styleripper.ts:119-129 | the recount never throws; the table then has an entry exactly for the page's class tokens, each counting its HTML plus CSS occurrences |
| StyleripperTs.RipNeverThrows | styleripper.ts:124 | the unused-class error is never thrown: every page yields an output with its own path, in order |
| StyleripperTs.RipPageNeverThrows | styleripper.ts:124 | no single page throws, and each output keeps its page's path |
| StyleripperTs.RipPageFormat | styleripper.ts:56-76 | the output is `<style>`, the files' texts last file first, `</style>`, then the serialized page (renamed with `minify`) |
| StyleripperTs.TextsWithoutMinify | styleripper.ts:57-60 | without `minify` each file's text is its original text |
| StyleripperTs.RipWithoutMinify | styleripper.ts:56-76 | without `minify` nothing is pruned or renamed in what is emitted: the original CSS texts, then the page as parsed and serialized |
| StyleripperTs.IntendedRenameConsistent | styleripper.ts:47-70 | for the intended renaming: rank `i` gets `ShortName(i)` and distinct classes get distinct names; each file's names are looked up in the rank map; the page's tokens are looked up in the restricted rank map, which agrees with the rank map on every name a file uses |
| StyleripperTs.TextsAgree | styleripper.ts:56-65 | where each file's walks equal its lookup renaming, the texts as written equal the intended texts |
| StyleripperTs.RipPageAgrees | styleripper.ts:30-76 | the table is computed without a throw, and the page as written equals the intended page without `minify`, and with it whenever no ranked class is an earlier generated name |
| StyleripperTs.RenameConsistent | styleripper.ts:47-70 | for the renaming as written, when no ranked class is an earlier generated name: each file's walked names are looked up in the rank map, the walked record is the restricted rank map, and the page's tokens are looked up in that record, agreeing with the rank map on every name a file uses and leaving other tokens alone |
| StyleripperJs.RipFiles | styleripper.js:6-53 | `rip` equals the whole-call function `Rip`, with renaming as written |
| StyleripperJs.ParseAndCount | styleripper.js:19-21 | every page is parsed, and the shared table counts the class tokens of all pages |
| StyleripperJs.TrackCss | styleripper.js:26-28 | every file is pruned against the shared table; the result reports failure exactly when the checked recount would throw; on success the table is the checked recount |
| StyleripperJs.RenameCssFiles | styleripper.js:38-43 | each CSS file's output is its walked text under its own path; the rename object is the seed entry for `classnames` together with the record of the walks carried from file to file |
| StyleripperJs.SeededRecordStep | styleripper.js:102-116 | one more file's walks extend the seeded object the earlier files left |
| StyleripperJs.RenameHtmlFiles | styleripper.js:45-51 | each page's output is its tree rewritten by lookup in the given rename object, serialized, under its own path |
| StyleripperJs.SeededLookupDiffers | styleripper.js:13-15 | the seeded lookup differs from a plain lookup exactly on the token `classnames` when no CSS file renamed that class |
| StyleripperJs.SeededLookupExample | styleripper.js:151-152 | with no CSS files, a page's class token `classnames` is looked up as "[object Object]" |
| StyleripperJs.PageTokensShared | styleripper.js:19-21 | the shared table counts a page's tokens as part of the tokens of all pages |
| StyleripperJs.PruneSpec | styleripper.js:57-81 | pruning keeps the at-rules; a selector survives exactly when each class component names an entry; a file whose classes all have entries is unchanged |
| StyleripperJs.PrunedNamesCounted | styleripper.js:62-95 | every class name left in the pruned files has an entry |
| StyleripperJs.FinalTableSpec | styleripper.js:85-95 | the recount never throws; the shared table then has an entry exactly for the pages' tokens, each counting its occurrences over all pages plus the CSS |
| StyleripperJs.RipShape | styleripper.js:36-52 | the error is never thrown; the output has one CSS file per input file and one page per input page, with the same paths in the same order |
| StyleripperJs.IntendedRenameConsistent | styleripper.js:31-51 | for the intended renaming, one ranking and one rename map serve every file: rank `i` gets `ShortName(i)`, names stay distinct, and CSS names and page tokens are looked up consistently |
| StyleripperJs.SeedLookup | styleripper.js:13-15 | a lookup in the seeded object is the seeded lookup in the record |
| StyleripperJs.CssAgrees | styleripper.js:38-43 | when no ranked class is an earlier generated name, the walked CSS files equal the files renamed by lookup |
| StyleripperJs.PagesAgree | styleripper.js:45-51 | pages rewritten through the seeded object equal pages rewritten through the record when the seed changes no token's lookup |
| StyleripperJs.SeededRecordAgrees | styleripper.js:13-15 | the seed changes no page token's lookup unless a page has the token `classnames` that no CSS file uses |
| StyleripperJs.RipAgrees | styleripper.js:6-53 | the whole call as written equals the intended call whenever no ranked class is an earlier generated name and a page token `classnames` is also a CSS class |
| StyleripperJs.RenameConsistent | styleripper.js:31-51 | for the renaming as written, when no ranked class is an earlier generated name: rank `i` gets `ShortName(i)`, each file's walked names are looked up in the rank map, the walked record is the restricted rank map, and page tokens are looked up in the seeded object, which agrees with the rank map on every CSS name and keeps every other token except `classnames` |
| StyleripperJs.SeededRecordLookup | styleripper.js:148-166 | a lookup in the seeded record is the seeded lookup; it agrees with the rank map on the CSS names and keeps other tokens except `classnames` |
| Build.LeftmostMatchSpec | build.ts:149-151 | the regex search finds the leftmost start, and from there the shortest `.+?\/` match, or finds no match anywhere |
| Build.RemoveFirstDirSpec | build.ts:149-151 | `removeFirstDir` deletes the leftmost, shortest match of `.+?\/`, and leaves a path without a match unchanged |
| Build.RemoveFirstDirPlain | build.ts:149-151 | on a path without line breaks, everything up to the first slash after the first character goes; without such a slash nothing changes |
| Build.PathToRoute | build.ts:153-155 | a route always starts with `/` |
| Build.RouteOfPage | build.ts:153-155 | the route of a page is the path below its top directory, after `/`, without a trailing `index.html` |
| Build.ConcatFilesSpec | build.ts:145-147 | `concatFiles` is the files' data, last file first; no files give "" |
| Build.ProcessScripts | build.ts:105-116 | in production every script is minified; the bundle is the concatenation and is emitted exactly when it is not empty |
| Build.RoutesOfKeys | build.ts:91-103 | the route table has an entry for exactly the pages' routes |
| Build.RoutesOfLast | build.ts:99 | a route's entry holds the data of the last page with that route |
| Build.PrepareRoutes | build.ts:91-103 | pages are minified in production, and the table maps each route to the page data (later pages win) |
| Build.NavigationPlacement | build.ts:87 | the script lands immediately before the first `</body>`; a page without one is unchanged |
| Build.WithoutOwnRouteSpec | build.ts:79-80 | exactly the page's own route is deleted, and every other entry keeps its value |
| Build.NavigatePages | build.ts:77-88 | each page gets the script inserted and its own route table without its own route |
| Build.PrepareNavigation | build.ts:69-89 | each output page is the minified page with the (production-minified) navigation script inserted; each page's route table is the table of all minified pages without its own route |
| Config.ReadConfig | config.ts:15-71 | `readConfig` equals `Configured`: the file's keys over the defaults, then the `compress` check |
| Config.NoFileDefaults | config.ts:17-41 | without a file: nothing verbose; Brotli, uglify and unused-CSS removal in production; none of the three otherwise |
| Config.FileKeysKept | config.ts:44-55 | a key the file gives keeps its value, a missing one of the four takes its default, and other keys pass through |
| Config.CompressValidated | config.ts:58-64 | an accepted configuration has all four keys and an accepted `compress`; it is rejected exactly when the file gives another `compress`, with a message naming that value |
| Config.OnlyCompressChecked | config.ts:58-64 | only `compress` is validated: other keys never cause a rejection |
| Config.RejectedString | config.ts:59 | a string `compress` other than the three kinds is rejected with the message that quotes it |

## Left out

- css-tree's `parse` and `generate`, node-html-parser's parser and `toString`, html-minifier and uglify-js are given functions: the `Parsers.Codec` parameter and the minify parameters of `Build`. Their own behaviour is not modelled.
- Updates in place and aliasing are not modelled. The sources mutate the AST nodes, the `File` objects and the route table; the model computes new values. `rip.ts` clones the parsed CSS per page, so the two agree there.
- Css.RemoveUnusedSelectors: removes a failing selector once. css-tree's `List.remove` throws "item doesn't belong to list" when the same item is removed twice while the list still holds other items. rip.ts:198, styleripper.ts:106 and styleripper.js:72 call it once per failing component, so `.x .y, .z {}` with `x` and `y` unused throws in all three sources. The model does not capture that throw.
- Pseudo-class arguments that nest selectors (`:not(.x)`) are not modelled. Selector components are flat.
- StyleripperTs.PageTableSpec: holds for flat selectors only. The recount (styleripper.ts:119-129) visits classes nested in pseudo-class arguments, and the prune (styleripper.ts:104) does not, so `.a:not(.b)` with `a` on the page and `b` absent throws in the source.
- StyleripperTs.RipNeverThrows: holds for flat selectors only, for the same reason; `.a:not(.b)` with `a` on the page and `b` absent throws in the source.
- StyleripperTs.RipPageNeverThrows: holds for flat selectors only; the same input throws in the source.
- StyleripperJs.FinalTableSpec: holds for flat selectors only. The recount (styleripper.js:85-95) visits nested classes and the prune (styleripper.js:68) does not, so `.a:not(.b)` with `a` on a page and `b` absent throws in the source.
- StyleripperJs.RipShape: holds for flat selectors only; the same input throws in the source.
- Rip.RipRenameConsistent: stated only when no ranked class or id equals the generated name of an earlier rank. Without that condition the walks can rename a selector twice (see Findings).
- StyleripperTs.RenameConsistent: stated only when no ranked class equals the generated name of an earlier rank, for the same reason.
- StyleripperJs.RenameConsistent: stated only when no ranked class equals the generated name of an earlier rank, for the same reason.
- JavaScript's `in` also finds inherited keys such as `constructor` or `toString` on the plain objects used as maps. The model's maps have no such keys. The one own key seeded by `styleripper.js` is modelled; see Findings.
- `Object.entries` lists integer-like keys first, in numeric order. The model ranks names in insertion order.
- The `$` replacement patterns of `String.prototype.replace` are not modelled. The inserted CSS and script are taken literally.
- `build.ts`'s `build`, `processComponents`, `processPages` and `resetOutputDir`, `build.js`, `fs.ts` and `til.ts` are not part of this model. They are file walking, component substitution and writes to disk.
- Reading `navigation.js` from disk is not modelled: its text is a parameter of `Build.PrepareNavigation`.
- `build.ts` calls `rip` with `{ minify: prod }`, an option `rip.ts` does not read. The model's `Rip.Options` are the two options `rip.ts` reads, and the wiring between the two files is not modelled.
- Tag names are compared as the parser gives them. Case folding of tag names is not modelled.
- An at-rule's prelude is not inspected. Only rules carry selectors.
- Strings are sequences of `char`. UTF-16 code units and surrogate pairs are not distinguished.
- JSON configuration values are modelled without floating-point numbers. A configuration file that is not a JSON object is not modelled.
- Reading and parsing the configuration file are not modelled: `None` stands for a missing or unparsable file, which the source also answers with the defaults.
- A generated name can equal a class that keeps its own name, in the source as in the model. Names found only in the HTML are ranked, so their generated names can clash with such a class. In `rip.ts` without `removeUnusedCSS`, a class found only in the CSS, such as `.a`, is neither pruned nor counted (rip.ts:72-74, 120-139), so it is not ranked and keeps its name; with the ranking ["bb"], `.bb` also becomes `.a` beside it. The model states consistency for the names the CSS files use, and does not state that generated names avoid names left as they are.
- Console logging is not modelled.
- Writing `routes.json`, `bundle.js` and the pages, `JSON.stringify` and `mkdirSync` are not modelled. `Build.ProcessScripts` returns the bundle, and `Build.PrepareNavigation` returns each page's route table.
- StyleripperTs.TrackCss: after a throw, the state of the table and the files is not stated, because the throw abandons the whole call.
- StyleripperJs.TrackCss: after a throw, the state of the shared table is not stated, for the same reason.
- Html.RenameIds: stated only for maps that never rename an id to "". An empty id would drop the attribute. Generated names are never empty (`Renaming.RankMapValues`).

## Findings

| source | as written | input that shows it | evidently intended | confidence | as-written member | corrected member |
|---|---|---|---|---|---|---|
| rip.ts:211-229 (also styleripper.ts:136-152, styleripper.js:102-116) | one walk per ranked name renames every selector whose current name matches, so a selector renamed by an earlier walk can match a later ranked name and be renamed again | ranking ["bb", "a"] (HTML `<p class="bb"></p><q class="a"></q>`, CSS `.bb{color:red}`): walk 0 renames `.bb` to `.a`, walk 1 renames it to `.b`, while the record sends the HTML token `bb` to `a` | each selector renamed once, by its original name's rank, with CSS and HTML agreeing | not executed | Renaming.WalksCollide, in the pipelines Rip.RipPage, StyleripperTs.RipPage and StyleripperJs.Rip | Rip.IntendedPage, StyleripperTs.IntendedPage and StyleripperJs.IntendedRip, renaming by Renaming.RenameByMap, with Rip.IntendedRenameConsistent, StyleripperTs.IntendedRenameConsistent and StyleripperJs.IntendedRenameConsistent; Rip.RipPageAgrees, StyleripperTs.RipPageAgrees and StyleripperJs.RipAgrees show where the two halves meet |
| styleripper.js:13-15, 112, 151-152 | the rename object is created with a `classnames` key and renames are stored at its top level, so `c in rename` is true for a page's class token `classnames` | a page with `class="classnames"` and no CSS files: the token is rewritten to "[object Object]" | a token with no recorded rename is left as it is | not executed | StyleripperJs.SeededLookup, with StyleripperJs.SeededLookupDiffers and StyleripperJs.SeededLookupExample | StyleripperJs.IntendedRip, looking tokens up by Renaming.LookupName, with StyleripperJs.IntendedRenameConsistent and StyleripperJs.RipAgrees |
