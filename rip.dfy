/** The per-page ripper of rip.ts: for every HTML page, count the page's
    class names, ids and tag names, prune each CSS file against those
    counts (when `removeUnusedCSS` is set), recount the surviving class and
    id selectors, rank the names, rename them (when `uglify` is set) and
    inline the CSS bundle right after the page's `<body>`.

    Renaming is modelled as written: one walk per ranked name over the file
    as the earlier walks left it (`Renaming.Walks`), with one rename map per
    kind carried from file to file (`Renaming.FilesRecord`). The walks can
    re-match an earlier walk's output; `IntendedPage` renames by lookup on
    the original names instead, and `RipPageAgrees` shows the two agree
    whenever no ranked name is an earlier generated name. */
module Rip {
  import opened Base
  import opened Names
  import opened Occurrence
  import opened Css
  import opened Renaming
  import opened Html
  import opened Parsers
  import opened Tracking

  datatype Options = Options(uglify: bool, removeUnusedCSS: bool)

  /** A snapshot of the three occurrence tables of one page. */
  datatype Tables = Tables(classnames: Table, ids: Table, typenames: Table)

  /** Type selectors that are never removed. */
  const TypeSelectorWhitelist: seq<string> := ["*", "html"]

  /** The test `removeUnusedSelectors` applies to one component, given the
      names with an entry in each table: class, id and type selectors must
      have an entry (type selectors `*` and `html` always pass); every other
      component passes. */
  predicate RipUsed(c: Component, classes: set<string>, ids: set<string>, tags: set<string>)
  {
    match c
    case ClassSelector(name) => Clean(name) in classes
    case IdSelector(name) => Clean(name) in ids
    case TypeSelector(name) => Clean(name) in tags || Clean(name) in TypeSelectorWhitelist
    case _ => true
  }

  function UsedBy(classes: set<string>, ids: set<string>, tags: set<string>): Component -> bool
  {
    c => RipUsed(c, classes, ids, tags)
  }

  function UsedIn(t: Tables): Component -> bool
  {
    UsedBy(t.classnames.count.Keys, t.ids.count.Keys, t.typenames.count.Keys)
  }

  // ---------------------------------------------------------------------
  // One page, as a function of its inputs
  // ---------------------------------------------------------------------

  /** The tables after the HTML walk of a fresh page. */
  function CountHtml(root: HNode): Tables
  {
    Tables(Tally(NodeClassTokens(root)), Tally(NodeIds(root)), Tally(NodeTags(root)))
  }

  /** One CSS file after `removeUnusedCSS`, or as it was without the option. */
  function PruneSheet(sheet: Stylesheet, t: Tables, removeUnused: bool): Stylesheet
  {
    if removeUnused then PruneNodes(sheet, UsedIn(t), true) else sheet
  }

  function PruneSheets(sheets: seq<Stylesheet>, t: Tables, removeUnused: bool): (r: seq<Stylesheet>)
    ensures |r| == |sheets|
    ensures forall i :: 0 <= i < |sheets| ==> r[i] == PruneSheet(sheets[i], t, removeUnused)
  {
    if sheets == [] then []
    else PruneSheets(sheets[..|sheets| - 1], t, removeUnused) + [PruneSheet(sheets[|sheets| - 1], t, removeUnused)]
  }

  /** The tables after the CSS recount of every (pruned) file. */
  function Recounted(t: Tables, pruned: seq<Stylesheet>): Tables
  {
    Tables(BumpExistingAll(t.classnames, SheetsNames(pruned, ClassKind)),
           BumpExistingAll(t.ids, SheetsNames(pruned, IdKind)),
           t.typenames)
  }

  /** Both walk sequences over one file: the class walks, then the id walks
      over the file as the class walks left it. */
  function WalkSheet(sheet: Stylesheet, classNames: seq<string>, idNames: seq<string>): Stylesheet
  {
    Walks(Walks(sheet, ClassKind, classNames, |classNames|), IdKind, idNames, |idNames|)
  }

  /** The text of each file: walked and generated with `uglify`, generated
      as pruned without it. */
  function CssTexts(pruned: seq<Stylesheet>, classNames: seq<string>, idNames: seq<string>,
                    uglify: bool, codec: Codec): (r: seq<string>)
    ensures |r| == |pruned|
  {
    if pruned == [] then []
    else
      var last := pruned[|pruned| - 1];
      CssTexts(pruned[..|pruned| - 1], classNames, idNames, uglify, codec)
        + [codec.generateCss(if uglify then WalkSheet(last, classNames, idNames) else last)]
  }

  /** The class rename map after the walks over every file. */
  function ClassRecord(pruned: seq<Stylesheet>, classNames: seq<string>): map<string, string>
  {
    FilesRecord(pruned, ClassKind, classNames)
  }

  /** The id rename map: the id walks run over the files as the class walks
      left them. */
  function IdRecord(pruned: seq<Stylesheet>, classNames: seq<string>, idNames: seq<string>): map<string, string>
  {
    FilesRecord(WalkSheets(pruned, ClassKind, classNames), IdKind, idNames)
  }

  /** The `<style>` element the page receives right after `<body>`. */
  function StyleTag(inline: string): string
  {
    "<body><style>" + inline + "</style>"
  }

  /** The page's CSS files after pruning. */
  function PagePruned(root: HNode, sheets: seq<Stylesheet>, options: Options): seq<Stylesheet>
  {
    PruneSheets(sheets, CountHtml(root), options.removeUnusedCSS)
  }

  /** The page's tables after the HTML walk and the CSS recount. */
  function PageTables(root: HNode, sheets: seq<Stylesheet>, options: Options): Tables
  {
    Recounted(CountHtml(root), PagePruned(root, sheets, options))
  }

  /** `sortedNames` followed by `generateShortestName`: the rank map of each
      renamed kind. Classes and ids are ranked independently, each from 0. */
  function ClassMap(t: Tables): map<string, string>
  {
    RankMap(Ranked(t.classnames))
  }

  function IdMap(t: Tables): map<string, string>
  {
    RankMap(Ranked(t.ids))
  }

  /** The inlined CSS: the files' texts, last file first. */
  function PageCss(root: HNode, sheets: seq<Stylesheet>, options: Options, codec: Codec): string
  {
    var t := PageTables(root, sheets, options);
    ConcatReversed(CssTexts(PagePruned(root, sheets, options), Ranked(t.classnames), Ranked(t.ids), options.uglify, codec))
  }

  /** The page's tree after `renameHTMLNodes` (with `uglify`), with the rename
      maps the walks recorded. */
  function PageHtml(root: HNode, sheets: seq<Stylesheet>, options: Options): HNode
  {
    if options.uglify then
      var pruned := PagePruned(root, sheets, options);
      var t := PageTables(root, sheets, options);
      RenameElement(root, ClassRecord(pruned, Ranked(t.classnames)), IdRecord(pruned, Ranked(t.classnames), Ranked(t.ids)))
    else root
  }

  /** The whole of `rip`'s work for one HTML file. */
  function RipPage(html: File, sheets: seq<Stylesheet>, options: Options, codec: Codec): File
  {
    var root := codec.parseHtml(html.data);
    File(html.path, ReplaceFirst(codec.printHtml(PageHtml(root, sheets, options)), "<body>",
                                 StyleTag(PageCss(root, sheets, options, codec))))
  }

  // ---------------------------------------------------------------------
  // The intended renaming: each selector renamed once, by lookup
  // ---------------------------------------------------------------------

  /** Both renamings of one file by lookup: classes, then ids. */
  function RenameSheet(sheet: Stylesheet, classMap: map<string, string>, idMap: map<string, string>): Stylesheet
  {
    RenameByMap(RenameByMap(sheet, ClassKind, classMap), IdKind, idMap)
  }

  function IntendedTexts(pruned: seq<Stylesheet>, classMap: map<string, string>, idMap: map<string, string>,
                         uglify: bool, codec: Codec): (r: seq<string>)
    ensures |r| == |pruned|
  {
    if pruned == [] then []
    else
      var last := pruned[|pruned| - 1];
      IntendedTexts(pruned[..|pruned| - 1], classMap, idMap, uglify, codec)
        + [codec.generateCss(if uglify then RenameSheet(last, classMap, idMap) else last)]
  }

  function IntendedCss(root: HNode, sheets: seq<Stylesheet>, options: Options, codec: Codec): string
  {
    var t := PageTables(root, sheets, options);
    ConcatReversed(IntendedTexts(PagePruned(root, sheets, options), ClassMap(t), IdMap(t), options.uglify, codec))
  }

  /** The page's tree renamed by the rank maps, restricted to the names the
      CSS files use. */
  function IntendedHtml(root: HNode, sheets: seq<Stylesheet>, options: Options): HNode
  {
    if options.uglify then
      var pruned := PagePruned(root, sheets, options);
      var t := PageTables(root, sheets, options);
      RenameElement(root, Restrict(ClassMap(t), SheetsNames(pruned, ClassKind)),
                    Restrict(IdMap(t), SheetsNames(pruned, IdKind)))
    else root
  }

  function IntendedPage(html: File, sheets: seq<Stylesheet>, options: Options, codec: Codec): File
  {
    var root := codec.parseHtml(html.data);
    File(html.path, ReplaceFirst(codec.printHtml(IntendedHtml(root, sheets, options)), "<body>",
                                 StyleTag(IntendedCss(root, sheets, options, codec))))
  }

  /** `rip(htmlFiles, cssFiles, options)`: one output per page, in order. */
  function Rip(htmlFiles: seq<File>, cssFiles: seq<File>, options: Options, codec: Codec): (r: seq<File>)
    ensures |r| == |htmlFiles|
  {
    if htmlFiles == [] then []
    else Rip(htmlFiles[..|htmlFiles| - 1], cssFiles, options, codec)
         + [RipPage(htmlFiles[|htmlFiles| - 1], ParseSheets(cssFiles, codec), options, codec)]
  }

  // ---------------------------------------------------------------------
  // The source's steps
  // ---------------------------------------------------------------------

  /** `rip`: the CSS files are parsed once, then every page is processed on
      its own copy of the parsed sheets. */
  method RipFiles(htmlFiles: seq<File>, cssFiles: seq<File>, options: Options, codec: Codec)
    returns (ripped: seq<File>)
    ensures ripped == Rip(htmlFiles, cssFiles, options, codec)
  {
    var parsed := ParseCssFiles(cssFiles, codec);
    ripped := [];
    for i := 0 to |htmlFiles|
      invariant ripped == Rip(htmlFiles[..i], cssFiles, options, codec)
    {
      RipStep(htmlFiles, cssFiles, options, codec, i);
      var page := RipHtmlFile(htmlFiles[i], parsed, options, codec);
      ripped := ripped + [page];
    }
    WholeSlice(htmlFiles);
  }

  /** One more page: its output follows the outputs of the pages before it. */
  lemma RipStep(htmlFiles: seq<File>, cssFiles: seq<File>, options: Options, codec: Codec, i: nat)
    requires i < |htmlFiles|
    ensures Rip(htmlFiles[..i + 1], cssFiles, options, codec)
         == Rip(htmlFiles[..i], cssFiles, options, codec) + [RipPage(htmlFiles[i], ParseSheets(cssFiles, codec), options, codec)]
  {
    assert htmlFiles[..i + 1][..i] == htmlFiles[..i];
  }

  /** `cssFiles.map(css => ...)`: each file parsed once, in order. */
  method ParseCssFiles(cssFiles: seq<File>, codec: Codec) returns (parsed: seq<Stylesheet>)
    ensures parsed == ParseSheets(cssFiles, codec)
  {
    parsed := [];
    for i := 0 to |cssFiles|
      invariant parsed == ParseSheets(cssFiles[..i], codec)
    {
      assert cssFiles[..i + 1][..i] == cssFiles[..i];
      parsed := parsed + [codec.parseCss(cssFiles[i].data)];
    }
    WholeSlice(cssFiles);
  }

  /** The body of `htmlFiles.map(html => ...)`: a fresh table, the HTML walk,
      the CSS pruning and recount, the ranking, the renaming and the
      injection of the `<style>` element. */
  method RipHtmlFile(html: File, sheets: seq<Stylesheet>, options: Options, codec: Codec) returns (out: File)
    ensures out == RipPage(html, sheets, options, codec)
  {
    var root := codec.parseHtml(html.data);
    var nodes := new Occurrences();
    nodes.CountTree(root);
    ghost var h := CountHtml(root);
    assert Tables(nodes.classnames, nodes.ids, nodes.typenames) == h;
    var pruned := TrackCss(nodes, sheets, options.removeUnusedCSS);
    ghost var t := Recounted(h, pruned);
    assert Tables(nodes.classnames, nodes.ids, nodes.typenames) == t;
    var classNames := Ranked(nodes.classnames);
    var idNames := Ranked(nodes.ids);
    var inline, classRename, idRename := RenameCssFiles(pruned, classNames, idNames, options.uglify, codec);
    if options.uglify {
      root := RenameElement(root, classRename, idRename);
    }
    out := File(html.path, ReplaceFirst(codec.printHtml(root), "<body>", StyleTag(inline)));
  }

  /** The `clonedCSS.forEach` loop: prune each file against the tables as
      they stand (the recount never adds an entry, so every file sees the
      names of the HTML walk), then recount it. */
  method TrackCss(nodes: Occurrences, sheets: seq<Stylesheet>, removeUnused: bool) returns (pruned: seq<Stylesheet>)
    requires nodes.Valid()
    modifies nodes
    ensures nodes.Valid()
    ensures pruned == PruneSheets(sheets, old(Tables(nodes.classnames, nodes.ids, nodes.typenames)), removeUnused)
    ensures Tables(nodes.classnames, nodes.ids, nodes.typenames)
         == Recounted(old(Tables(nodes.classnames, nodes.ids, nodes.typenames)), pruned)
  {
    ghost var t0 := Tables(nodes.classnames, nodes.ids, nodes.typenames);
    pruned := [];
    for i := 0 to |sheets|
      invariant nodes.Valid()
      invariant pruned == PruneSheets(sheets[..i], t0, removeUnused)
      invariant Tables(nodes.classnames, nodes.ids, nodes.typenames) == Recounted(t0, pruned)
      invariant nodes.classnames.count.Keys == t0.classnames.count.Keys
      invariant nodes.ids.count.Keys == t0.ids.count.Keys
    {
      assert sheets[..i + 1][..i] == sheets[..i];
      var sheet := sheets[i];
      if removeUnused {
        sheet := RemoveUnusedCss(sheet, UsedBy(nodes.classnames.count.Keys, nodes.ids.count.Keys, nodes.typenames.count.Keys), true);
      }
      RecountedStep(t0, pruned, sheet);
      nodes.Recount(sheet);
      pruned := pruned + [sheet];
    }
    WholeSlice(sheets);
  }

  /** The recount of one more file, on top of the files before it; the
      recount never adds an entry. */
  lemma RecountedStep(t: Tables, before: seq<Stylesheet>, sheet: Stylesheet)
    ensures Recounted(t, before + [sheet])
         == Tables(BumpExistingAll(Recounted(t, before).classnames, SheetNames(sheet, ClassKind)),
                   BumpExistingAll(Recounted(t, before).ids, SheetNames(sheet, IdKind)),
                   t.typenames)
    ensures Recounted(t, before + [sheet]).classnames.count.Keys == t.classnames.count.Keys
    ensures Recounted(t, before + [sheet]).ids.count.Keys == t.ids.count.Keys
  {
    var pruned := before + [sheet];
    assert pruned[..|pruned| - 1] == before;
    BumpExistingAllAppend(t.classnames, SheetsNames(before, ClassKind), SheetNames(sheet, ClassKind));
    BumpExistingAllAppend(t.ids, SheetsNames(before, IdKind), SheetNames(sheet, IdKind));
    BumpExistingAllSpec(t.classnames, SheetsNames(pruned, ClassKind));
    BumpExistingAllSpec(t.ids, SheetsNames(pruned, IdKind));
  }

  /** The `clonedCSS.map(...).reduce(...)` step: each file's text, put in
      front of the texts of the files before it. With `uglify`,
      `renameCSSNodes` runs the class walks and then the id walks over each
      file, adding to one rename map per kind shared by all the files. */
  method RenameCssFiles(pruned: seq<Stylesheet>, classNames: seq<string>, idNames: seq<string>,
                        uglify: bool, codec: Codec)
    returns (inline: string, classRename: map<string, string>, idRename: map<string, string>)
    ensures inline == ConcatReversed(CssTexts(pruned, classNames, idNames, uglify, codec))
    ensures uglify ==> classRename == ClassRecord(pruned, classNames)
    ensures uglify ==> idRename == IdRecord(pruned, classNames, idNames)
  {
    inline, classRename, idRename := "", map[], map[];
    for i := 0 to |pruned|
      invariant inline == ConcatReversed(CssTexts(pruned[..i], classNames, idNames, uglify, codec))
      invariant uglify ==> classRename == ClassRecord(pruned[..i], classNames)
      invariant uglify ==> idRename == IdRecord(pruned[..i], classNames, idNames)
    {
      PrefixStep(pruned, i, classNames, idNames, uglify, codec);
      var data;
      if uglify {
        data, classRename, idRename := RenameCssNodes(pruned, i, classNames, idNames, classRename, idRename, codec);
      } else {
        data := codec.generateCss(pruned[i]);
      }
      inline := data + inline;
    }
    WholeSlice(pruned);
  }

  /** `renameCSSNodes` on file `i`: the class walks, the id walks over their
      output, and the generated text, with the two rename maps carried over
      from the files before it. */
  method RenameCssNodes(pruned: seq<Stylesheet>, i: nat, classNames: seq<string>, idNames: seq<string>,
                        classRename: map<string, string>, idRename: map<string, string>, codec: Codec)
    returns (data: string, nextClass: map<string, string>, nextId: map<string, string>)
    requires i < |pruned|
    requires classRename == ClassRecord(pruned[..i], classNames)
    requires idRename == IdRecord(pruned[..i], classNames, idNames)
    ensures data == codec.generateCss(WalkSheet(pruned[i], classNames, idNames))
    ensures nextClass == ClassRecord(pruned[..i + 1], classNames)
    ensures nextId == IdRecord(pruned[..i + 1], classNames, idNames)
  {
    var classWalked, walked;
    classWalked, nextClass := RenameSelectorWalks(pruned[i], ClassKind, classNames, classRename);
    walked, nextId := RenameSelectorWalks(classWalked, IdKind, idNames, idRename);
    data := codec.generateCss(walked);
    RecordsStep(pruned, i, classNames, idNames);
  }

  /** How the two records grow by one file. */
  lemma RecordsStep(pruned: seq<Stylesheet>, i: nat, classNames: seq<string>, idNames: seq<string>)
    requires i < |pruned|
    ensures ClassRecord(pruned[..i + 1], classNames)
         == WalkRenames(pruned[i], ClassKind, classNames, |classNames|, ClassRecord(pruned[..i], classNames))
    ensures IdRecord(pruned[..i + 1], classNames, idNames)
         == WalkRenames(Walks(pruned[i], ClassKind, classNames, |classNames|), IdKind, idNames, |idNames|,
                        IdRecord(pruned[..i], classNames, idNames))
  {
    FilesRecordStep(pruned, i, ClassKind, classNames);
    var w := WalkSheets(pruned, ClassKind, classNames);
    assert WalkSheets(pruned[..i + 1], ClassKind, classNames) == w[..i + 1];
    assert WalkSheets(pruned[..i], ClassKind, classNames) == w[..i];
    FilesRecordStep(w, i, IdKind, idNames);
  }

  /** How the file-by-file texts grow by one file. */
  lemma PrefixStep(pruned: seq<Stylesheet>, i: nat, classNames: seq<string>, idNames: seq<string>,
                   uglify: bool, codec: Codec)
    requires i < |pruned|
    ensures ConcatReversed(CssTexts(pruned[..i + 1], classNames, idNames, uglify, codec))
         == codec.generateCss(if uglify then WalkSheet(pruned[i], classNames, idNames) else pruned[i])
            + ConcatReversed(CssTexts(pruned[..i], classNames, idNames, uglify, codec))
  {
    assert pruned[..i + 1][..i] == pruned[..i];
  }

  // ---------------------------------------------------------------------
  // What rip.ts promises
  // ---------------------------------------------------------------------

  /** After the HTML walk each table holds, for every name, its number of
      occurrences over all elements at every depth, and has an entry exactly
      for the names that occur. */
  lemma HtmlCounts(root: HNode)
    ensures Valid(CountHtml(root).classnames) && Valid(CountHtml(root).ids) && Valid(CountHtml(root).typenames)
    ensures forall x :: Count(CountHtml(root).classnames, x) == multiset(NodeClassTokens(root))[x]
    ensures forall x :: Count(CountHtml(root).ids, x) == multiset(NodeIds(root))[x]
    ensures forall x :: Count(CountHtml(root).typenames, x) == multiset(NodeTags(root))[x]
    ensures forall x :: x in CountHtml(root).classnames.count <==> x in NodeClassTokens(root)
    ensures forall x :: x in CountHtml(root).ids.count <==> x in NodeIds(root)
    ensures forall x :: x in CountHtml(root).typenames.count <==> x in NodeTags(root)
  {
    TallyCounts(NodeClassTokens(root));
    TallyCounts(NodeIds(root));
    TallyCounts(NodeTags(root));
  }

  /** Pruning with `removeUnusedCSS`: the selectors left are exactly, and in
      order, the selectors none of whose components fails `RipUsed`; no
      comment is left; every at-rule stays. Without the option the file is
      left as it is. */
  lemma RipPruneSpec(sheet: Stylesheet, t: Tables)
    ensures SelectorsOf(PruneSheet(sheet, t, true)) == KeepUsed(SelectorsOf(sheet), UsedIn(t))
    ensures forall s :: s in SelectorsOf(PruneSheet(sheet, t, true)) <==>
      s in SelectorsOf(sheet) &&
      forall k :: 0 <= k < |s| ==> RipUsed(s[k], t.classnames.count.Keys, t.ids.count.Keys, t.typenames.count.Keys)
    ensures NoComments(PruneSheet(sheet, t, true))
    ensures AtrulesOf(PruneSheet(sheet, t, true)) == AtrulesOf(sheet)
    ensures PruneSheet(sheet, t, false) == sheet
  {
    PruneSelectors(sheet, UsedIn(t), true);
    KeepUsedSpec(SelectorsOf(sheet), UsedIn(t));
    PruneDropsComments(sheet, UsedIn(t));
    PruneKeepsAtrules(sheet, UsedIn(t), true);
  }

  /** Without `removeUnusedCSS` no file changes. */
  lemma {:induction false} RipWithoutPruning(sheets: seq<Stylesheet>, t: Tables)
    ensures PruneSheets(sheets, t, false) == sheets
  {
    if sheets != [] {
      RipWithoutPruning(sheets[..|sheets| - 1], t);
      assert sheets == sheets[..|sheets| - 1] + [sheets[|sheets| - 1]];
    }
  }

  /** The CSS recount keeps every table's entries, adds to a class or id
      entry the number of its selectors in the files, and leaves the tag
      table alone. */
  lemma RecountedSpec(t: Tables, pruned: seq<Stylesheet>)
    ensures Recounted(t, pruned).classnames.keys == t.classnames.keys
    ensures Recounted(t, pruned).ids.keys == t.ids.keys
    ensures Recounted(t, pruned).classnames.count.Keys == t.classnames.count.Keys
    ensures Recounted(t, pruned).ids.count.Keys == t.ids.count.Keys
    ensures forall x :: x in t.classnames.count ==>
      Count(Recounted(t, pruned).classnames, x) == Count(t.classnames, x) + multiset(SheetsNames(pruned, ClassKind))[x]
    ensures forall x :: x in t.ids.count ==>
      Count(Recounted(t, pruned).ids, x) == Count(t.ids, x) + multiset(SheetsNames(pruned, IdKind))[x]
    ensures Recounted(t, pruned).typenames == t.typenames
  {
    BumpExistingAllSpec(t.classnames, SheetsNames(pruned, ClassKind));
    BumpExistingAllSpec(t.ids, SheetsNames(pruned, IdKind));
  }

  /** The page's tables stay well formed through the recount. */
  lemma PageTablesValid(root: HNode, sheets: seq<Stylesheet>, options: Options)
    ensures Valid(PageTables(root, sheets, options).classnames)
    ensures Valid(PageTables(root, sheets, options).ids)
    ensures PageTables(root, sheets, options).classnames.count.Keys == CountHtml(root).classnames.count.Keys
    ensures PageTables(root, sheets, options).ids.count.Keys == CountHtml(root).ids.count.Keys
  {
    HtmlCounts(root);
    RecountedSpec(CountHtml(root), PagePruned(root, sheets, options));
  }

  /** With `removeUnusedCSS`, every class and id selector left in any file
      names an entry of the table, so the recount counts all of them. */
  lemma {:induction false} PrunedSheetsNamesCounted(sheets: seq<Stylesheet>, t: Tables)
    ensures forall x :: x in SheetsNames(PruneSheets(sheets, t, true), ClassKind) ==> x in t.classnames.count
    ensures forall x :: x in SheetsNames(PruneSheets(sheets, t, true), IdKind) ==> x in t.ids.count
  {
    if sheets != [] {
      var init, last := sheets[..|sheets| - 1], sheets[|sheets| - 1];
      PrunedSheetsNamesCounted(init, t);
      var p := PruneSheets(sheets, t, true);
      assert p[..|p| - 1] == PruneSheets(init, t, true);
      PrunedNamesUsed(last, UsedIn(t), true, ClassKind);
      PrunedNamesUsed(last, UsedIn(t), true, IdKind);
    }
  }

  /** The rank maps: the class (or id) at rank `i` of its own ranking gets
      `ShortName(i)`; exactly the names with an entry are mapped; distinct
      names get distinct short names. */
  lemma RipRankMaps(t: Tables)
    requires Valid(t.classnames) && Valid(t.ids)
    ensures forall i :: 0 <= i < |Ranked(t.classnames)| ==>
      Ranked(t.classnames)[i] in ClassMap(t) && ClassMap(t)[Ranked(t.classnames)[i]] == ShortName(i)
    ensures forall i :: 0 <= i < |Ranked(t.ids)| ==>
      Ranked(t.ids)[i] in IdMap(t) && IdMap(t)[Ranked(t.ids)[i]] == ShortName(i)
    ensures forall x :: x in ClassMap(t) <==> x in t.classnames.count
    ensures forall x :: x in IdMap(t) <==> x in t.ids.count
    ensures forall x, y :: x in ClassMap(t) && y in ClassMap(t) && x != y ==> ClassMap(t)[x] != ClassMap(t)[y]
    ensures forall x, y :: x in IdMap(t) && y in IdMap(t) && x != y ==> IdMap(t)[x] != IdMap(t)[y]
  {
    RankedMap(t.classnames);
    RankedMap(t.ids);
  }

  /** Renaming one CSS file by both rank maps: its class names and its id
      names come out looked up in the matching map. */
  lemma RenameSheetNames(sheet: Stylesheet, cm: map<string, string>, im: map<string, string>)
    requires forall x :: x in cm ==> Clean(cm[x]) == cm[x]
    requires forall x :: x in im ==> Clean(im[x]) == im[x]
    ensures SheetNames(RenameSheet(sheet, cm, im), ClassKind) == LookupNames(SheetNames(sheet, ClassKind), cm)
    ensures SheetNames(RenameSheet(sheet, cm, im), IdKind) == LookupNames(SheetNames(sheet, IdKind), im)
  {
    var s1 := RenameByMap(sheet, ClassKind, cm);
    RenameByMapNames(sheet, ClassKind, cm);
    RenameByMapOtherKind(s1, IdKind, im);
    RenameByMapOtherKind(sheet, ClassKind, cm);
    RenameByMapNames(s1, IdKind, im);
  }

  /** Rename consistency of the intended renaming with `uglify`: every CSS
      file's class and id names come out looked up in the rank maps, the
      page's class tokens and ids come out looked up in the rename maps, and
      the two maps agree on every name any CSS file uses; names no CSS file
      uses, such as names found only in the HTML, are left unchanged in the
      HTML. */
  lemma IntendedRenameConsistent(root: HNode, sheets: seq<Stylesheet>, options: Options)
    requires options.uglify
    ensures var pruned := PagePruned(root, sheets, options);
            var t := PageTables(root, sheets, options);
            forall i :: 0 <= i < |pruned| ==>
              SheetNames(RenameSheet(pruned[i], ClassMap(t), IdMap(t)), ClassKind)
                == LookupNames(SheetNames(pruned[i], ClassKind), ClassMap(t))
              && SheetNames(RenameSheet(pruned[i], ClassMap(t), IdMap(t)), IdKind)
                == LookupNames(SheetNames(pruned[i], IdKind), IdMap(t))
    ensures var pruned := PagePruned(root, sheets, options);
            var t := PageTables(root, sheets, options);
            var rc := Restrict(ClassMap(t), SheetsNames(pruned, ClassKind));
            NodeClassTokens(IntendedHtml(root, sheets, options)) == LookupNames(NodeClassTokens(root), rc)
            && (forall x :: x in SheetsNames(pruned, ClassKind) ==> LookupName(x, rc) == LookupName(x, ClassMap(t)))
            && (forall x :: x !in SheetsNames(pruned, ClassKind) ==> LookupName(x, rc) == x)
    ensures var pruned := PagePruned(root, sheets, options);
            var t := PageTables(root, sheets, options);
            var ri := Restrict(IdMap(t), SheetsNames(pruned, IdKind));
            NodeIds(IntendedHtml(root, sheets, options)) == LookupNames(NodeIds(root), ri)
            && (forall x :: x in SheetsNames(pruned, IdKind) ==> LookupName(x, ri) == LookupName(x, IdMap(t)))
            && (forall x :: x !in SheetsNames(pruned, IdKind) ==> LookupName(x, ri) == x)
  {
    var pruned := PagePruned(root, sheets, options);
    var t := PageTables(root, sheets, options);
    PageTablesValid(root, sheets, options);
    RankedSpec(t.classnames);
    RankedSpec(t.ids);
    RankMapValues(Ranked(t.classnames));
    RankMapValues(Ranked(t.ids));
    forall i | 0 <= i < |pruned|
      ensures SheetNames(RenameSheet(pruned[i], ClassMap(t), IdMap(t)), ClassKind)
                == LookupNames(SheetNames(pruned[i], ClassKind), ClassMap(t))
              && SheetNames(RenameSheet(pruned[i], ClassMap(t), IdMap(t)), IdKind)
                == LookupNames(SheetNames(pruned[i], IdKind), IdMap(t))
    {
      RenameSheetNames(pruned[i], ClassMap(t), IdMap(t));
    }
    var rc := Restrict(ClassMap(t), SheetsNames(pruned, ClassKind));
    var ri := Restrict(IdMap(t), SheetsNames(pruned, IdKind));
    RenameNodeClassTokens(root, rc, ri);
    RenameNodeIds(root, rc, ri);
  }

  /** Under the two rankings' condition, each file's walks are its renaming
      by lookup, and the records are the rank maps restricted to the names
      the files use. */
  lemma WalksAgreeOnPage(root: HNode, sheets: seq<Stylesheet>, options: Options)
    requires NoEarlierShortName(Ranked(PageTables(root, sheets, options).classnames))
    requires NoEarlierShortName(Ranked(PageTables(root, sheets, options).ids))
    ensures var pruned := PagePruned(root, sheets, options);
            var t := PageTables(root, sheets, options);
            forall i :: 0 <= i < |pruned| ==>
              WalkSheet(pruned[i], Ranked(t.classnames), Ranked(t.ids)) == RenameSheet(pruned[i], ClassMap(t), IdMap(t))
    ensures var pruned := PagePruned(root, sheets, options);
            var t := PageTables(root, sheets, options);
            ClassRecord(pruned, Ranked(t.classnames)) == Restrict(ClassMap(t), SheetsNames(pruned, ClassKind))
            && IdRecord(pruned, Ranked(t.classnames), Ranked(t.ids)) == Restrict(IdMap(t), SheetsNames(pruned, IdKind))
  {
    var pruned := PagePruned(root, sheets, options);
    var t := PageTables(root, sheets, options);
    var cn, idn := Ranked(t.classnames), Ranked(t.ids);
    PageTablesValid(root, sheets, options);
    RankedSpec(t.classnames);
    RankedSpec(t.ids);
    forall i | 0 <= i < |pruned|
      ensures WalkSheet(pruned[i], cn, idn) == RenameSheet(pruned[i], ClassMap(t), IdMap(t))
    {
      AllWalksAgree(pruned[i], ClassKind, cn);
      AllWalksAgree(RenameByMap(pruned[i], ClassKind, ClassMap(t)), IdKind, idn);
    }
    FilesRecordAgrees(pruned, ClassKind, cn);
    FilesRecordAgrees(WalkSheets(pruned, ClassKind, cn), IdKind, idn);
    WalkSheetsIdNames(pruned, cn);
  }

  /** The class walks leave every file's id selectors as they were. */
  lemma {:induction false} WalkSheetsIdNames(sheets: seq<Stylesheet>, classNames: seq<string>)
    requires Distinct(classNames) && NoEarlierShortName(classNames)
    ensures SheetsNames(WalkSheets(sheets, ClassKind, classNames), IdKind) == SheetsNames(sheets, IdKind)
  {
    if sheets != [] {
      var n := |sheets|;
      var w := WalkSheets(sheets, ClassKind, classNames);
      assert w[..n - 1] == WalkSheets(sheets[..n - 1], ClassKind, classNames);
      WalkSheetsIdNames(sheets[..n - 1], classNames);
      AllWalksAgree(sheets[n - 1], ClassKind, classNames);
      RenameByMapOtherKind(sheets[n - 1], ClassKind, RankMap(classNames));
    }
  }

  /** The texts agree file by file wherever the walks agree with the lookup. */
  lemma {:induction false} TextsAgree(pruned: seq<Stylesheet>, classNames: seq<string>, idNames: seq<string>,
                                      uglify: bool, codec: Codec)
    requires uglify ==> forall i :: 0 <= i < |pruned| ==>
      WalkSheet(pruned[i], classNames, idNames) == RenameSheet(pruned[i], RankMap(classNames), RankMap(idNames))
    ensures CssTexts(pruned, classNames, idNames, uglify, codec)
         == IntendedTexts(pruned, RankMap(classNames), RankMap(idNames), uglify, codec)
  {
    if pruned != [] {
      TextsAgree(pruned[..|pruned| - 1], classNames, idNames, uglify, codec);
    }
  }

  /** The page as written is the intended page without `uglify`, and with it
      whenever no ranked class is the generated name of an earlier rank and
      no ranked id is either. */
  lemma RipPageAgrees(html: File, sheets: seq<Stylesheet>, options: Options, codec: Codec)
    ensures var root := codec.parseHtml(html.data);
            var t := PageTables(root, sheets, options);
            !options.uglify || (NoEarlierShortName(Ranked(t.classnames)) && NoEarlierShortName(Ranked(t.ids)))
            ==> RipPage(html, sheets, options, codec) == IntendedPage(html, sheets, options, codec)
  {
    var root := codec.parseHtml(html.data);
    var t := PageTables(root, sheets, options);
    var pruned := PagePruned(root, sheets, options);
    if !options.uglify || (NoEarlierShortName(Ranked(t.classnames)) && NoEarlierShortName(Ranked(t.ids))) {
      if options.uglify {
        WalksAgreeOnPage(root, sheets, options);
      }
      TextsAgree(pruned, Ranked(t.classnames), Ranked(t.ids), options.uglify, codec);
    }
  }

  /** Rename consistency of the renaming as written, with `uglify`, whenever
      no ranked class is an earlier generated name and no ranked id is
      either: every CSS file's class and id names come out looked up in the
      rank maps, the page's class tokens and ids come out looked up in the
      recorded maps, which are the rank maps restricted to the names the
      files use; names no CSS file uses are left unchanged in the HTML. */
  lemma RipRenameConsistent(root: HNode, sheets: seq<Stylesheet>, options: Options)
    requires options.uglify
    requires NoEarlierShortName(Ranked(PageTables(root, sheets, options).classnames))
    requires NoEarlierShortName(Ranked(PageTables(root, sheets, options).ids))
    ensures var pruned := PagePruned(root, sheets, options);
            var t := PageTables(root, sheets, options);
            forall i :: 0 <= i < |pruned| ==>
              SheetNames(WalkSheet(pruned[i], Ranked(t.classnames), Ranked(t.ids)), ClassKind)
                == LookupNames(SheetNames(pruned[i], ClassKind), ClassMap(t))
              && SheetNames(WalkSheet(pruned[i], Ranked(t.classnames), Ranked(t.ids)), IdKind)
                == LookupNames(SheetNames(pruned[i], IdKind), IdMap(t))
    ensures var pruned := PagePruned(root, sheets, options);
            var t := PageTables(root, sheets, options);
            var rc := ClassRecord(pruned, Ranked(t.classnames));
            rc == Restrict(ClassMap(t), SheetsNames(pruned, ClassKind))
            && NodeClassTokens(PageHtml(root, sheets, options)) == LookupNames(NodeClassTokens(root), rc)
            && (forall x :: x in SheetsNames(pruned, ClassKind) ==> LookupName(x, rc) == LookupName(x, ClassMap(t)))
            && (forall x :: x !in SheetsNames(pruned, ClassKind) ==> LookupName(x, rc) == x)
    ensures var pruned := PagePruned(root, sheets, options);
            var t := PageTables(root, sheets, options);
            var ri := IdRecord(pruned, Ranked(t.classnames), Ranked(t.ids));
            ri == Restrict(IdMap(t), SheetsNames(pruned, IdKind))
            && NodeIds(PageHtml(root, sheets, options)) == LookupNames(NodeIds(root), ri)
            && (forall x :: x in SheetsNames(pruned, IdKind) ==> LookupName(x, ri) == LookupName(x, IdMap(t)))
            && (forall x :: x !in SheetsNames(pruned, IdKind) ==> LookupName(x, ri) == x)
  {
    WalksAgreeOnPage(root, sheets, options);
    IntendedRenameConsistent(root, sheets, options);
  }

  /** Without `uglify` the page's tree is not rewritten and each file's text
      is its pruned tree, generated. */
  lemma {:induction false} RipWithoutUglify(pruned: seq<Stylesheet>, classNames: seq<string>, idNames: seq<string>,
                                            codec: Codec)
    ensures CssTexts(pruned, classNames, idNames, false, codec)
         == seq(|pruned|, i requires 0 <= i < |pruned| => codec.generateCss(pruned[i]))
  {
    if pruned != [] {
      RipWithoutUglify(pruned[..|pruned| - 1], classNames, idNames, codec);
    }
  }

  /** The serialized page tree and the files' texts, before the injection. */
  function PagePrinted(html: File, sheets: seq<Stylesheet>, options: Options, codec: Codec): string
  {
    codec.printHtml(PageHtml(codec.parseHtml(html.data), sheets, options))
  }

  function PageTexts(html: File, sheets: seq<Stylesheet>, options: Options, codec: Codec): seq<string>
  {
    var root := codec.parseHtml(html.data);
    var t := PageTables(root, sheets, options);
    CssTexts(PagePruned(root, sheets, options), Ranked(t.classnames), Ranked(t.ids), options.uglify, codec)
  }

  lemma RipPageData(html: File, sheets: seq<Stylesheet>, options: Options, codec: Codec)
    ensures RipPage(html, sheets, options, codec).path == html.path
    ensures RipPage(html, sheets, options, codec).data
         == ReplaceFirst(PagePrinted(html, sheets, options, codec), "<body>",
                         "<body><style>" + Join(Reverse(PageTexts(html, sheets, options, codec))) + "</style>")
  {
    ConcatReversedSpec(PageTexts(html, sheets, options, codec));
  }

  /** The page keeps its path, and its text is the serialized tree with the
      `<style>` element, holding the files' texts in reverse input order,
      right after the first `<body>`. */
  lemma RipStylePlacement(html: File, sheets: seq<Stylesheet>, options: Options, codec: Codec, k: nat)
    requires OccursAt(PagePrinted(html, sheets, options, codec), "<body>", k)
    requires forall j: nat :: j < k ==> !OccursAt(PagePrinted(html, sheets, options, codec), "<body>", j)
    ensures RipPage(html, sheets, options, codec).path == html.path
    ensures RipPage(html, sheets, options, codec).data
         == PagePrinted(html, sheets, options, codec)[..k] + "<body><style>"
            + Join(Reverse(PageTexts(html, sheets, options, codec))) + "</style>"
            + PagePrinted(html, sheets, options, codec)[k + 6..]
  {
    RipPageData(html, sheets, options, codec);
    StyleInserted(RipPage(html, sheets, options, codec).data, PagePrinted(html, sheets, options, codec),
                  Join(Reverse(PageTexts(html, sheets, options, codec))), k);
  }

  lemma StyleInserted(data: string, printed: string, texts: string, k: nat)
    requires data == ReplaceFirst(printed, "<body>", "<body><style>" + texts + "</style>")
    requires OccursAt(printed, "<body>", k) && forall j: nat :: j < k ==> !OccursAt(printed, "<body>", j)
    ensures data == printed[..k] + "<body><style>" + texts + "</style>" + printed[k + 6..]
  {
    ReplaceFirstAt(printed, "<body>", "<body><style>" + texts + "</style>", k);
    assert printed[..k] + ("<body><style>" + texts + "</style>") + printed[k + 6..]
        == printed[..k] + "<body><style>" + texts + "</style>" + printed[k + 6..];
  }

  /** A page without `<body>` receives no CSS. */
  lemma RipWithoutBody(html: File, sheets: seq<Stylesheet>, options: Options, codec: Codec)
    requires forall k: nat :: !OccursAt(PagePrinted(html, sheets, options, codec), "<body>", k)
    ensures RipPage(html, sheets, options, codec).data == PagePrinted(html, sheets, options, codec)
  {
    RipPageData(html, sheets, options, codec);
    ReplaceFirstSpec(PagePrinted(html, sheets, options, codec), "<body>",
                     "<body><style>" + Join(Reverse(PageTexts(html, sheets, options, codec))) + "</style>");
  }

  /** Every page is processed on its own: the output for a page depends on
      that page and the CSS files only, whatever the other pages are. */
  lemma {:induction false} RipAt(htmlFiles: seq<File>, cssFiles: seq<File>, options: Options, codec: Codec, i: nat)
    requires i < |htmlFiles|
    ensures Rip(htmlFiles, cssFiles, options, codec)[i] == RipPage(htmlFiles[i], ParseSheets(cssFiles, codec), options, codec)
  {
    if i < |htmlFiles| - 1 {
      RipAt(htmlFiles[..|htmlFiles| - 1], cssFiles, options, codec, i);
    }
  }

  lemma RipPagesIndependent(h1: seq<File>, h2: seq<File>, cssFiles: seq<File>, options: Options, codec: Codec, i: nat, j: nat)
    requires i < |h1| && j < |h2| && h1[i] == h2[j]
    ensures Rip(h1, cssFiles, options, codec)[i] == Rip(h2, cssFiles, options, codec)[j]
  {
    RipAt(h1, cssFiles, options, codec, i);
    RipAt(h2, cssFiles, options, codec, j);
  }
}
