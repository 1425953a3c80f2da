/** The older per-page ripper of styleripper.ts, which handles class names
    only: for every HTML page, count the page's class tokens, strip the
    comments of each CSS file, prune it by class names, recount the
    surviving class selectors (throwing on one without an entry), rank the
    names, rename them (when `minify` is set) and put the CSS bundle in
    front of the page.

    Renaming is modelled as written: one walk per ranked name over each
    file as the earlier walks left it (`Renaming.Walks`), with one rename
    map carried from file to file (`Renaming.FilesRecord`). `IntendedPage`
    renames by lookup on the original names instead; `RipPageAgrees` shows
    the two agree whenever no ranked name is an earlier generated name. */
module StyleripperTs {
  import opened Base
  import opened Names
  import opened Occurrence
  import opened Css
  import opened Renaming
  import opened Html
  import opened Parsers
  import opened Tracking

  datatype Options = Options(minify: bool)

  // ---------------------------------------------------------------------
  // One page, as a function of its inputs
  // ---------------------------------------------------------------------

  /** `parseAndTrackCSSNodes` up to its recount: the comment walk, then the
      class-only pruning walk against the names with an entry. */
  function TrimSheet(sheet: Stylesheet, classes: set<string>): Stylesheet
  {
    PruneNodes(StripComments(sheet), ClassesUsed(classes), false)
  }

  function TrimSheets(sheets: seq<Stylesheet>, classes: set<string>): (r: seq<Stylesheet>)
    ensures |r| == |sheets|
    ensures forall i :: 0 <= i < |sheets| ==> r[i] == TrimSheet(sheets[i], classes)
  {
    if sheets == [] then []
    else TrimSheets(sheets[..|sheets| - 1], classes) + [TrimSheet(sheets[|sheets| - 1], classes)]
  }

  /** The class table after the HTML walk of a fresh page. */
  function HtmlTable(root: HNode): Table
  {
    Tally(NodeClassTokens(root))
  }

  /** The page's CSS files, parsed and trimmed. The recount never adds an
      entry, so every file is pruned against the names of the HTML walk. */
  function PagePruned(root: HNode, cssFiles: seq<File>, codec: Codec): seq<Stylesheet>
  {
    TrimSheets(ParseSheets(cssFiles, codec), HtmlTable(root).count.Keys)
  }

  /** The class table after the checked recount of every trimmed file, or
      the error the recount throws. */
  function PageTable(root: HNode, cssFiles: seq<File>, codec: Codec): Result<Table>
  {
    CheckedRecount(HtmlTable(root), SheetsNames(PagePruned(root, cssFiles, codec), ClassKind))
  }

  /** The text of each CSS file: with `minify` its trimmed tree after the
      walks for the ranked names, generated; without it the file's
      original text. */
  function FileTexts(cssFiles: seq<File>, pruned: seq<Stylesheet>, classNames: seq<string>,
                     minify: bool, codec: Codec): (r: seq<string>)
    requires |pruned| == |cssFiles|
    ensures |r| == |cssFiles|
  {
    if cssFiles == [] then []
    else
      var n := |cssFiles| - 1;
      FileTexts(cssFiles[..n], pruned[..n], classNames, minify, codec)
        + [if minify then codec.generateCss(Walks(pruned[n], ClassKind, classNames, |classNames|)) else cssFiles[n].data]
  }

  /** The page's output once the table is known: the `<style>` element with
      the files' texts, last file first, followed by the page's tree,
      renamed with `minify` by the rename map the walks recorded. */
  function PageOutput(html: File, root: HNode, cssFiles: seq<File>, pruned: seq<Stylesheet>, t: Table,
                      options: Options, codec: Codec): File
    requires |pruned| == |cssFiles|
  {
    var inline := ConcatReversed(FileTexts(cssFiles, pruned, Ranked(t), options.minify, codec));
    var page := if options.minify then RenameElement(root, FilesRecord(pruned, ClassKind, Ranked(t)), map[])
                else root;
    File(html.path, "<style>" + inline + "</style>" + codec.printHtml(page))
  }

  /** The body of `htmlFiles.map(html => ...)`. */
  function RipPage(html: File, cssFiles: seq<File>, options: Options, codec: Codec): Result<File>
  {
    var root := codec.parseHtml(html.data);
    match PageTable(root, cssFiles, codec)
    case Err(m) => Err(m)
    case Ok(t) => Ok(PageOutput(html, root, cssFiles, PagePruned(root, cssFiles, codec), t, options, codec))
  }

  // ---------------------------------------------------------------------
  // The intended renaming: each selector renamed once, by lookup
  // ---------------------------------------------------------------------

  function IntendedTexts(cssFiles: seq<File>, pruned: seq<Stylesheet>, classMap: map<string, string>,
                         minify: bool, codec: Codec): (r: seq<string>)
    requires |pruned| == |cssFiles|
    ensures |r| == |cssFiles|
  {
    if cssFiles == [] then []
    else
      var n := |cssFiles| - 1;
      IntendedTexts(cssFiles[..n], pruned[..n], classMap, minify, codec)
        + [if minify then codec.generateCss(RenameByMap(pruned[n], ClassKind, classMap)) else cssFiles[n].data]
  }

  function IntendedOutput(html: File, root: HNode, cssFiles: seq<File>, pruned: seq<Stylesheet>, t: Table,
                          options: Options, codec: Codec): File
    requires |pruned| == |cssFiles|
  {
    var classMap := RankMap(Ranked(t));
    var inline := ConcatReversed(IntendedTexts(cssFiles, pruned, classMap, options.minify, codec));
    var page := if options.minify then RenameElement(root, Restrict(classMap, SheetsNames(pruned, ClassKind)), map[])
                else root;
    File(html.path, "<style>" + inline + "</style>" + codec.printHtml(page))
  }

  function IntendedPage(html: File, cssFiles: seq<File>, options: Options, codec: Codec): Result<File>
  {
    var root := codec.parseHtml(html.data);
    match PageTable(root, cssFiles, codec)
    case Err(m) => Err(m)
    case Ok(t) => Ok(IntendedOutput(html, root, cssFiles, PagePruned(root, cssFiles, codec), t, options, codec))
  }

  /** `rip(htmlFiles, cssFiles, options)`: one output per page, in order, or
      the first error thrown. */
  function Rip(htmlFiles: seq<File>, cssFiles: seq<File>, options: Options, codec: Codec): Result<seq<File>>
  {
    if htmlFiles == [] then Ok([])
    else
      match Rip(htmlFiles[..|htmlFiles| - 1], cssFiles, options, codec)
      case Err(m) => Err(m)
      case Ok(done) =>
        match RipPage(htmlFiles[|htmlFiles| - 1], cssFiles, options, codec)
        case Err(m) => Err(m)
        case Ok(page) => Ok(done + [page])
  }

  // ---------------------------------------------------------------------
  // The source's steps
  // ---------------------------------------------------------------------

  /** `rip`: every page in turn; a throw ends the whole call. */
  method RipFiles(htmlFiles: seq<File>, cssFiles: seq<File>, options: Options, codec: Codec)
    returns (ripped: Result<seq<File>>)
    ensures ripped == Rip(htmlFiles, cssFiles, options, codec)
  {
    var done: seq<File> := [];
    for i := 0 to |htmlFiles|
      invariant Rip(htmlFiles[..i], cssFiles, options, codec) == Ok(done)
    {
      assert htmlFiles[..i + 1][..i] == htmlFiles[..i];
      var page := RipHtmlFile(htmlFiles[i], cssFiles, options, codec);
      if page.Err? {
        ripped := Err(page.msg);
        RipErrorStays(htmlFiles, cssFiles, options, codec, i + 1);
        return;
      }
      done := done + [page.value];
    }
    WholeSlice(htmlFiles);
    ripped := Ok(done);
  }

  /** Once a prefix of the pages throws, the whole call throws the same. */
  lemma {:induction false} RipErrorStays(htmlFiles: seq<File>, cssFiles: seq<File>, options: Options, codec: Codec, k: nat)
    requires k <= |htmlFiles|
    requires Rip(htmlFiles[..k], cssFiles, options, codec).Err?
    ensures Rip(htmlFiles, cssFiles, options, codec) == Rip(htmlFiles[..k], cssFiles, options, codec)
    decreases |htmlFiles|
  {
    if k < |htmlFiles| {
      var init := htmlFiles[..|htmlFiles| - 1];
      assert init[..k] == htmlFiles[..k];
      RipErrorStays(init, cssFiles, options, codec, k);
    } else {
      assert htmlFiles[..k] == htmlFiles;
    }
  }

  /** One page: a fresh class table, the HTML walk, the CSS files, the
      ranking, the renaming and the output. */
  method RipHtmlFile(html: File, cssFiles: seq<File>, options: Options, codec: Codec) returns (out: Result<File>)
    ensures out == RipPage(html, cssFiles, options, codec)
  {
    var root := codec.parseHtml(html.data);
    var nodes := new Occurrences();
    nodes.CountClassTree(root);
    assert nodes.classnames == HtmlTable(root);
    var pruned, ok := TrackCss(nodes, cssFiles, codec);
    if !ok {
      out := Err(UnusedClassError);
      return;
    }
    var classNames := Ranked(nodes.classnames);
    var inline, classRename := RenameCssFiles(cssFiles, pruned, classNames, options.minify, codec);
    if options.minify {
      root := RenameElement(root, classRename, map[]);
    }
    out := Ok(File(html.path, "<style>" + inline + "</style>" + codec.printHtml(root)));
  }

  /** The `cssFiles.map(css => ...)` loop of `parseAndTrackCSSNodes` calls:
      each file parsed, stripped, pruned against the table as it stands
      (the recount never adds an entry) and recounted; `ok` is false when a
      recount throws. */
  method TrackCss(nodes: Occurrences, cssFiles: seq<File>, codec: Codec) returns (pruned: seq<Stylesheet>, ok: bool)
    requires nodes.Valid()
    modifies nodes
    ensures nodes.Valid()
    ensures var all := TrimSheets(ParseSheets(cssFiles, codec), old(nodes.classnames).count.Keys);
            ok <==> CheckedRecount(old(nodes.classnames), SheetsNames(all, ClassKind)).Ok?
    ensures var all := TrimSheets(ParseSheets(cssFiles, codec), old(nodes.classnames).count.Keys);
            ok ==> pruned == all
                   && Ok(nodes.classnames) == CheckedRecount(old(nodes.classnames), SheetsNames(all, ClassKind))
  {
    ghost var h := nodes.classnames;
    ghost var all := TrimSheets(ParseSheets(cssFiles, codec), h.count.Keys);
    pruned := [];
    ok := true;
    for i := 0 to |cssFiles|
      invariant nodes.Valid()
      invariant pruned == all[..i]
      invariant AllCounted(h, SheetsNames(pruned, ClassKind))
      invariant nodes.classnames == BumpExistingAll(h, SheetsNames(pruned, ClassKind))
      invariant nodes.classnames.count.Keys == h.count.Keys
    {
      var sheet := codec.parseCss(cssFiles[i].data);
      sheet := StripComments(sheet);
      sheet := RemoveUnusedCss(sheet, ClassesUsed(nodes.classnames.count.Keys), false);
      assert sheet == all[i];
      ghost var before := pruned;
      ok := nodes.RecountClassesChecked(sheet);
      CountedStep(h, all, i);
      if !ok {
        CountedPrefix(h, all, i + 1);
        return;
      }
      pruned := pruned + [sheet];
      BumpExistingAllAppend(h, SheetsNames(before, ClassKind), SheetNames(sheet, ClassKind));
      BumpExistingAllSpec(h, SheetsNames(pruned, ClassKind));
    }
    assert pruned == all;
  }

  /** The `pcssFiles.map(...).reduce(...)` step: each file's text put in
      front of the texts of the files before it; with `minify` each file
      goes through `renameCSSNodes`, whose walks add to one rename map
      shared by all the files. */
  method RenameCssFiles(cssFiles: seq<File>, pruned: seq<Stylesheet>, classNames: seq<string>,
                        minify: bool, codec: Codec)
    returns (inline: string, classRename: map<string, string>)
    requires |pruned| == |cssFiles|
    ensures inline == ConcatReversed(FileTexts(cssFiles, pruned, classNames, minify, codec))
    ensures minify ==> classRename == FilesRecord(pruned, ClassKind, classNames)
  {
    inline, classRename := "", map[];
    for i := 0 to |cssFiles|
      invariant inline == ConcatReversed(FileTexts(cssFiles[..i], pruned[..i], classNames, minify, codec))
      invariant minify ==> classRename == FilesRecord(pruned[..i], ClassKind, classNames)
    {
      inline, classRename := NextFile(cssFiles, pruned, i, classNames, minify, codec, inline, classRename);
    }
    WholeSlice(cssFiles);
    WholeSlice(pruned);
  }

  /** One file of the reduce: its text put in front of the texts of the
      files before it and, with `minify`, the walks over it. */
  method NextFile(cssFiles: seq<File>, pruned: seq<Stylesheet>, i: nat, classNames: seq<string>,
                  minify: bool, codec: Codec, inline: string, classRename: map<string, string>)
    returns (nextInline: string, nextRename: map<string, string>)
    requires |pruned| == |cssFiles| && i < |cssFiles|
    requires inline == ConcatReversed(FileTexts(cssFiles[..i], pruned[..i], classNames, minify, codec))
    requires minify ==> classRename == FilesRecord(pruned[..i], ClassKind, classNames)
    ensures nextInline == ConcatReversed(FileTexts(cssFiles[..i + 1], pruned[..i + 1], classNames, minify, codec))
    ensures minify ==> nextRename == FilesRecord(pruned[..i + 1], ClassKind, classNames)
  {
    FileStep(cssFiles, pruned, i, classNames, minify, codec);
    var data := cssFiles[i].data;
    nextRename := classRename;
    if minify {
      var walked;
      walked, nextRename := RenameSelectorWalks(pruned[i], ClassKind, classNames, classRename);
      data := codec.generateCss(walked);
    }
    nextInline := data + inline;
  }

  /** How the texts and the rename map grow by one file. */
  lemma FileStep(cssFiles: seq<File>, pruned: seq<Stylesheet>, i: nat, classNames: seq<string>,
                 minify: bool, codec: Codec)
    requires |pruned| == |cssFiles| && i < |cssFiles|
    ensures ConcatReversed(FileTexts(cssFiles[..i + 1], pruned[..i + 1], classNames, minify, codec))
         == (if minify then codec.generateCss(Walks(pruned[i], ClassKind, classNames, |classNames|)) else cssFiles[i].data)
            + ConcatReversed(FileTexts(cssFiles[..i], pruned[..i], classNames, minify, codec))
    ensures FilesRecord(pruned[..i + 1], ClassKind, classNames)
         == WalkRenames(pruned[i], ClassKind, classNames, |classNames|, FilesRecord(pruned[..i], ClassKind, classNames))
  {
    assert cssFiles[..i + 1][..i] == cssFiles[..i];
    assert pruned[..i + 1][..i] == pruned[..i];
    FilesRecordStep(pruned, i, ClassKind, classNames);
  }

  // ---------------------------------------------------------------------
  // What styleripper.ts promises
  // ---------------------------------------------------------------------

  /** Trimming a file: no comment is left, every at-rule stays, and a
      selector survives exactly when each of its class components names an
      entry; type, id, attribute and pseudo components never remove one. */
  lemma TrimSpec(sheet: Stylesheet, classes: set<string>)
    ensures NoComments(TrimSheet(sheet, classes))
    ensures AtrulesOf(TrimSheet(sheet, classes)) == AtrulesOf(sheet)
    ensures forall s: Selector :: s in SelectorsOf(TrimSheet(sheet, classes)) <==>
      s in SelectorsOf(sheet) && forall k :: 0 <= k < |s| && s[k].ClassSelector? ==> Clean(s[k].name) in classes
  {
    var stripped := StripComments(sheet);
    StripCommentsSpec(sheet);
    PruneNoComments(stripped, ClassesUsed(classes), false);
    PruneKeepsAtrules(stripped, ClassesUsed(classes), false);
    ClassPruneSpec(stripped, classes, false);
  }

  /** Every class name left in the trimmed files has an entry. */
  lemma {:induction false} TrimmedNamesCounted(sheets: seq<Stylesheet>, classes: set<string>)
    ensures forall x :: x in SheetsNames(TrimSheets(sheets, classes), ClassKind) ==> x in classes
  {
    if sheets != [] {
      var init, last := sheets[..|sheets| - 1], sheets[|sheets| - 1];
      TrimmedNamesCounted(init, classes);
      var p := TrimSheets(sheets, classes);
      assert p[..|p| - 1] == TrimSheets(init, classes);
      PrunedNamesUsed(StripComments(last), ClassesUsed(classes), false, ClassKind);
    }
  }

  /** The recount never throws, and afterwards the table has an entry
      exactly for the page's class tokens, each counting its occurrences in
      the page plus those in the trimmed CSS files. */
  lemma PageTableSpec(root: HNode, cssFiles: seq<File>, codec: Codec)
    ensures PageTable(root, cssFiles, codec).Ok?
    ensures Valid(PageTable(root, cssFiles, codec).value)
    ensures forall x :: x in PageTable(root, cssFiles, codec).value.count <==> x in NodeClassTokens(root)
    ensures forall x ::
      Count(PageTable(root, cssFiles, codec).value, x)
        == multiset(NodeClassTokens(root))[x] + multiset(SheetsNames(PagePruned(root, cssFiles, codec), ClassKind))[x]
  {
    TrimmedNamesCounted(ParseSheets(cssFiles, codec), HtmlTable(root).count.Keys);
    CheckedRecountTally(NodeClassTokens(root), SheetsNames(PagePruned(root, cssFiles, codec), ClassKind));
  }

  /** The `encountered unused class selector` error is never thrown: every
      page yields an output, and every output keeps its page's path. */
  lemma {:induction false} RipNeverThrows(htmlFiles: seq<File>, cssFiles: seq<File>, options: Options, codec: Codec)
    ensures Rip(htmlFiles, cssFiles, options, codec).Ok?
    ensures |Rip(htmlFiles, cssFiles, options, codec).value| == |htmlFiles|
    ensures forall i :: 0 <= i < |htmlFiles| ==>
      RipPage(htmlFiles[i], cssFiles, options, codec).Ok?
      && Rip(htmlFiles, cssFiles, options, codec).value[i] == RipPage(htmlFiles[i], cssFiles, options, codec).value
      && Rip(htmlFiles, cssFiles, options, codec).value[i].path == htmlFiles[i].path
  {
    if htmlFiles != [] {
      var init, last := htmlFiles[..|htmlFiles| - 1], htmlFiles[|htmlFiles| - 1];
      RipNeverThrows(init, cssFiles, options, codec);
      RipPageNeverThrows(last, cssFiles, options, codec);
      var done := Rip(init, cssFiles, options, codec).value;
      var page := RipPage(last, cssFiles, options, codec).value;
      assert Rip(htmlFiles, cssFiles, options, codec) == Ok(done + [page]);
      RipSnoc(htmlFiles, cssFiles, options, codec, done, page);
    }
  }

  /** The outputs for all pages but the last, followed by the last page's. */
  lemma RipSnoc(htmlFiles: seq<File>, cssFiles: seq<File>, options: Options, codec: Codec, done: seq<File>, page: File)
    requires htmlFiles != [] && |done| == |htmlFiles| - 1
    requires forall i :: 0 <= i < |done| ==>
      RipPage(htmlFiles[..|done|][i], cssFiles, options, codec).Ok?
      && done[i] == RipPage(htmlFiles[..|done|][i], cssFiles, options, codec).value
      && done[i].path == htmlFiles[..|done|][i].path
    requires RipPage(htmlFiles[|done|], cssFiles, options, codec).Ok?
    requires page == RipPage(htmlFiles[|done|], cssFiles, options, codec).value && page.path == htmlFiles[|done|].path
    ensures forall i :: 0 <= i < |htmlFiles| ==>
      RipPage(htmlFiles[i], cssFiles, options, codec).Ok?
      && (done + [page])[i] == RipPage(htmlFiles[i], cssFiles, options, codec).value
      && (done + [page])[i].path == htmlFiles[i].path
  {
    forall i | 0 <= i < |htmlFiles|
      ensures RipPage(htmlFiles[i], cssFiles, options, codec).Ok?
      ensures (done + [page])[i] == RipPage(htmlFiles[i], cssFiles, options, codec).value
      ensures (done + [page])[i].path == htmlFiles[i].path
    {
      if i < |done| {
        assert htmlFiles[i] == htmlFiles[..|done|][i];
        assert (done + [page])[i] == done[i];
      } else {
        assert (done + [page])[i] == page;
      }
    }
  }

  lemma RipPageNeverThrows(html: File, cssFiles: seq<File>, options: Options, codec: Codec)
    ensures RipPage(html, cssFiles, options, codec).Ok?
    ensures RipPage(html, cssFiles, options, codec).value.path == html.path
  {
    PageTableSpec(codec.parseHtml(html.data), cssFiles, codec);
  }

  /** The output of a page: its path, then `<style>`, the files' texts in
      reverse input order, `</style>` and the serialized page. */
  lemma RipPageFormat(html: File, cssFiles: seq<File>, options: Options, codec: Codec)
    ensures var root := codec.parseHtml(html.data);
            var pruned := PagePruned(root, cssFiles, codec);
            PageTable(root, cssFiles, codec).Ok?
            && var t := PageTable(root, cssFiles, codec).value;
               RipPage(html, cssFiles, options, codec)
                 == Ok(File(html.path, "<style>" + Join(Reverse(FileTexts(cssFiles, pruned, Ranked(t), options.minify, codec)))
                                       + "</style>" + codec.printHtml(
                                         if options.minify
                                         then RenameElement(root, FilesRecord(pruned, ClassKind, Ranked(t)), map[])
                                         else root)))
  {
    var root := codec.parseHtml(html.data);
    var pruned := PagePruned(root, cssFiles, codec);
    PageTableSpec(root, cssFiles, codec);
    var t := PageTable(root, cssFiles, codec).value;
    ConcatReversedSpec(FileTexts(cssFiles, pruned, Ranked(t), options.minify, codec));
  }

  /** Without `minify` the files' texts are their original texts. */
  lemma {:induction false} TextsWithoutMinify(cssFiles: seq<File>, pruned: seq<Stylesheet>, classNames: seq<string>,
                                              codec: Codec)
    requires |pruned| == |cssFiles|
    ensures FileTexts(cssFiles, pruned, classNames, false, codec)
         == seq(|cssFiles|, i requires 0 <= i < |cssFiles| => cssFiles[i].data)
  {
    if cssFiles != [] {
      var n := |cssFiles| - 1;
      TextsWithoutMinify(cssFiles[..n], pruned[..n], classNames, codec);
    }
  }

  /** Without `minify` a page's output is the original CSS texts, last file
      first, inside `<style>`, followed by the page as parsed and
      serialized: nothing is pruned or renamed in what is emitted. */
  lemma RipWithoutMinify(html: File, cssFiles: seq<File>, codec: Codec)
    ensures RipPage(html, cssFiles, Options(false), codec)
         == Ok(File(html.path, "<style>" + Join(Reverse(seq(|cssFiles|, i requires 0 <= i < |cssFiles| => cssFiles[i].data)))
                               + "</style>" + codec.printHtml(codec.parseHtml(html.data))))
  {
    var root := codec.parseHtml(html.data);
    PageTableSpec(root, cssFiles, codec);
    RipPageFormat(html, cssFiles, Options(false), codec);
    TextsWithoutMinify(cssFiles, PagePruned(root, cssFiles, codec), Ranked(PageTable(root, cssFiles, codec).value), codec);
  }

  /** Rename consistency of the intended renaming with `minify`: the class
      at rank `i` becomes `ShortName(i)`, distinct classes get distinct
      names, every CSS file's class names come out looked up in that map,
      and the page's class tokens come out looked up in the rename map,
      which agrees with it on every name a CSS file uses and keeps every
      other token. */
  lemma IntendedRenameConsistent(root: HNode, cssFiles: seq<File>, codec: Codec)
    ensures PageTable(root, cssFiles, codec).Ok?
    ensures var t := PageTable(root, cssFiles, codec).value;
            var cm := RankMap(Ranked(t));
            (forall i :: 0 <= i < |Ranked(t)| ==> Ranked(t)[i] in cm && cm[Ranked(t)[i]] == ShortName(i))
            && (forall x, y :: x in cm && y in cm && x != y ==> cm[x] != cm[y])
    ensures var t := PageTable(root, cssFiles, codec).value;
            var cm := RankMap(Ranked(t));
            var pruned := PagePruned(root, cssFiles, codec);
            forall i :: 0 <= i < |pruned| ==>
              SheetNames(RenameByMap(pruned[i], ClassKind, cm), ClassKind) == LookupNames(SheetNames(pruned[i], ClassKind), cm)
    ensures var t := PageTable(root, cssFiles, codec).value;
            var cm := RankMap(Ranked(t));
            var pruned := PagePruned(root, cssFiles, codec);
            var rc := Restrict(cm, SheetsNames(pruned, ClassKind));
            NodeClassTokens(RenameElement(root, rc, map[])) == LookupNames(NodeClassTokens(root), rc)
            && (forall x :: x in SheetsNames(pruned, ClassKind) ==> LookupName(x, rc) == LookupName(x, cm))
            && (forall x :: x !in SheetsNames(pruned, ClassKind) ==> LookupName(x, rc) == x)
  {
    PageTableSpec(root, cssFiles, codec);
    var t := PageTable(root, cssFiles, codec).value;
    var cm := RankMap(Ranked(t));
    var pruned := PagePruned(root, cssFiles, codec);
    RankedMap(t);
    RankedSpec(t);
    RankMapValues(Ranked(t));
    forall i | 0 <= i < |pruned|
      ensures SheetNames(RenameByMap(pruned[i], ClassKind, cm), ClassKind) == LookupNames(SheetNames(pruned[i], ClassKind), cm)
    {
      RenameByMapNames(pruned[i], ClassKind, cm);
    }
    RenameNodeClassTokens(root, Restrict(cm, SheetsNames(pruned, ClassKind)), map[]);
  }

  /** The texts agree file by file wherever the walks agree with the lookup. */
  lemma {:induction false} TextsAgree(cssFiles: seq<File>, pruned: seq<Stylesheet>, classNames: seq<string>,
                                      minify: bool, codec: Codec)
    requires |pruned| == |cssFiles|
    requires minify ==> forall i :: 0 <= i < |pruned| ==>
      Walks(pruned[i], ClassKind, classNames, |classNames|) == RenameByMap(pruned[i], ClassKind, RankMap(classNames))
    ensures FileTexts(cssFiles, pruned, classNames, minify, codec)
         == IntendedTexts(cssFiles, pruned, RankMap(classNames), minify, codec)
  {
    if cssFiles != [] {
      var n := |cssFiles| - 1;
      TextsAgree(cssFiles[..n], pruned[..n], classNames, minify, codec);
    }
  }

  /** The page as written is the intended page without `minify`, and with
      it whenever no ranked class is the generated name of an earlier rank. */
  lemma RipPageAgrees(html: File, cssFiles: seq<File>, options: Options, codec: Codec)
    ensures var root := codec.parseHtml(html.data);
            PageTable(root, cssFiles, codec).Ok?
            && (!options.minify || NoEarlierShortName(Ranked(PageTable(root, cssFiles, codec).value))
                ==> RipPage(html, cssFiles, options, codec) == IntendedPage(html, cssFiles, options, codec))
  {
    var root := codec.parseHtml(html.data);
    PageTableSpec(root, cssFiles, codec);
    var t := PageTable(root, cssFiles, codec).value;
    var pruned := PagePruned(root, cssFiles, codec);
    var cn := Ranked(t);
    if !options.minify || NoEarlierShortName(cn) {
      if options.minify {
        RankedSpec(t);
        FilesWalksAgree(pruned, ClassKind, cn);
        FilesRecordAgrees(pruned, ClassKind, cn);
      }
      TextsAgree(cssFiles, pruned, cn, options.minify, codec);
    }
  }

  /** Rename consistency of the renaming as written, with `minify`, whenever
      no ranked class is the generated name of an earlier rank: every CSS
      file's class names come out looked up in the rank map, the recorded
      map is the rank map restricted to the names the files use, and the
      page's class tokens come out looked up in it, which keeps every token
      no CSS file uses. */
  lemma RenameConsistent(root: HNode, cssFiles: seq<File>, codec: Codec)
    requires PageTable(root, cssFiles, codec).Ok? ==> NoEarlierShortName(Ranked(PageTable(root, cssFiles, codec).value))
    ensures PageTable(root, cssFiles, codec).Ok?
    ensures var t := PageTable(root, cssFiles, codec).value;
            var cm := RankMap(Ranked(t));
            var pruned := PagePruned(root, cssFiles, codec);
            forall i :: 0 <= i < |pruned| ==>
              SheetNames(Walks(pruned[i], ClassKind, Ranked(t), |Ranked(t)|), ClassKind)
                == LookupNames(SheetNames(pruned[i], ClassKind), cm)
    ensures var t := PageTable(root, cssFiles, codec).value;
            var cm := RankMap(Ranked(t));
            var pruned := PagePruned(root, cssFiles, codec);
            var rc := FilesRecord(pruned, ClassKind, Ranked(t));
            rc == Restrict(cm, SheetsNames(pruned, ClassKind))
            && NodeClassTokens(RenameElement(root, rc, map[])) == LookupNames(NodeClassTokens(root), rc)
            && (forall x :: x in SheetsNames(pruned, ClassKind) ==> LookupName(x, rc) == LookupName(x, cm))
            && (forall x :: x !in SheetsNames(pruned, ClassKind) ==> LookupName(x, rc) == x)
  {
    PageTableSpec(root, cssFiles, codec);
    var t := PageTable(root, cssFiles, codec).value;
    var pruned := PagePruned(root, cssFiles, codec);
    var cn := Ranked(t);
    RankedSpec(t);
    FilesWalksAgree(pruned, ClassKind, cn);
    FilesRecordAgrees(pruned, ClassKind, cn);
    IntendedRenameConsistent(root, cssFiles, codec);
  }
}
