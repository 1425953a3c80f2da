/** The shared ripper of styleripper.js: one class table spans every HTML
    page; every CSS file is pruned by class names against it and recounted
    (throwing on a class without an entry); one ranking and one rename map
    then rewrite every CSS file and every page. Comments are kept.

    Renaming is modelled as written: one walk per ranked name over each CSS
    file as the earlier walks left it (`Renaming.Walks`), recording into
    one object shared by all the files, which starts with the key
    `classnames` (`Seed`); the pages look their tokens up in that object.
    `IntendedRip` renames by lookup on the original names with a plain
    rename map; `RipAgrees` shows when the two agree. */
module StyleripperJs {
  import opened Base
  import opened Names
  import opened Occurrence
  import opened Css
  import opened Renaming
  import opened Html
  import opened Parsers
  import opened Tracking

  /** `{ cssFiles, htmlFiles }`, the value `rip` returns. */
  datatype Output = Output(cssFiles: seq<File>, htmlFiles: seq<File>)

  // ---------------------------------------------------------------------
  // The whole call, as a function of its inputs
  // ---------------------------------------------------------------------

  function ParseHtmls(htmlFiles: seq<File>, codec: Codec): seq<HNode>
  {
    seq(|htmlFiles|, i requires 0 <= i < |htmlFiles| => codec.parseHtml(htmlFiles[i].data))
  }

  /** Every class token of every page, page after page. */
  function PagesTokens(roots: seq<HNode>): seq<string>
  {
    if roots == [] then [] else PagesTokens(roots[..|roots| - 1]) + NodeClassTokens(roots[|roots| - 1])
  }

  /** The shared class table after the walk over every page. */
  function HtmlTable(roots: seq<HNode>): Table
  {
    Tally(PagesTokens(roots))
  }

  /** `parseCSS` up to its recount: the class-only pruning walk, comments
      kept. */
  function PruneSheets(sheets: seq<Stylesheet>, classes: set<string>): seq<Stylesheet>
  {
    seq(|sheets|, i requires 0 <= i < |sheets| => PruneNodes(sheets[i], ClassesUsed(classes), false))
  }

  /** Every CSS file, parsed and pruned. The recount never adds an entry, so
      every file is pruned against the names of the HTML walk. */
  function Pruned(roots: seq<HNode>, cssFiles: seq<File>, codec: Codec): seq<Stylesheet>
  {
    PruneSheets(ParseSheets(cssFiles, codec), HtmlTable(roots).count.Keys)
  }

  /** The shared table after the checked recount of every pruned file, or
      the error the recount throws. */
  function FinalTable(roots: seq<HNode>, cssFiles: seq<File>, codec: Codec): Result<Table>
  {
    CheckedRecount(HtmlTable(roots), SheetsNames(Pruned(roots, cssFiles, codec), ClassKind))
  }

  /** The object `rename` is created as: one key, `classnames`, whose value
      (an empty object) `join(' ')` turns into "[object Object]". */
  const Seed: map<string, string> := map["classnames" := "[object Object]"]

  /** `cssFiles.map(...)`: each file's pruned tree after the walks for the
      ranked names, generated, under its own path. */
  function RenamedCss(cssFiles: seq<File>, pruned: seq<Stylesheet>, classNames: seq<string>, codec: Codec)
    : seq<File>
    requires |pruned| == |cssFiles|
  {
    seq(|cssFiles|, i requires 0 <= i < |cssFiles| =>
      File(cssFiles[i].path, codec.generateCss(Walks(pruned[i], ClassKind, classNames, |classNames|))))
  }

  /** `htmlFiles.map(...)`: each page's tree with its class tokens looked up
      in the rename map, serialized under its own path. */
  function RenamedHtml(htmlFiles: seq<File>, roots: seq<HNode>, rename: map<string, string>, codec: Codec): seq<File>
    requires |roots| == |htmlFiles|
  {
    seq(|htmlFiles|, i requires 0 <= i < |htmlFiles| =>
      File(htmlFiles[i].path, codec.printHtml(RenameElement(roots[i], rename, map[]))))
  }

  /** `rip(htmlFiles, cssFiles)`. */
  function Rip(htmlFiles: seq<File>, cssFiles: seq<File>, codec: Codec): Result<Output>
  {
    var roots := ParseHtmls(htmlFiles, codec);
    var pruned := Pruned(roots, cssFiles, codec);
    match FinalTable(roots, cssFiles, codec)
    case Err(m) => Err(m)
    case Ok(t) =>
      Ok(Output(RenamedCss(cssFiles, pruned, Ranked(t), codec),
                RenamedHtml(htmlFiles, roots, Seed + FilesRecord(pruned, ClassKind, Ranked(t)), codec)))
  }

  // ---------------------------------------------------------------------
  // The intended renaming: each selector renamed once, by lookup, and a
  // plain rename map
  // ---------------------------------------------------------------------

  function IntendedCss(cssFiles: seq<File>, pruned: seq<Stylesheet>, classMap: map<string, string>, codec: Codec)
    : seq<File>
    requires |pruned| == |cssFiles|
  {
    seq(|cssFiles|, i requires 0 <= i < |cssFiles| =>
      File(cssFiles[i].path, codec.generateCss(RenameByMap(pruned[i], ClassKind, classMap))))
  }

  function IntendedRip(htmlFiles: seq<File>, cssFiles: seq<File>, codec: Codec): Result<Output>
  {
    var roots := ParseHtmls(htmlFiles, codec);
    var pruned := Pruned(roots, cssFiles, codec);
    match FinalTable(roots, cssFiles, codec)
    case Err(m) => Err(m)
    case Ok(t) =>
      var classMap := RankMap(Ranked(t));
      Ok(Output(IntendedCss(cssFiles, pruned, classMap, codec),
                RenamedHtml(htmlFiles, roots, Restrict(classMap, SheetsNames(pruned, ClassKind)), codec)))
  }

  // ---------------------------------------------------------------------
  // The source's steps
  // ---------------------------------------------------------------------

  /** `rip`: the shared table filled by every page, every CSS file pruned
      and recounted, then the CSS files renamed and the pages rewritten. */
  method RipFiles(htmlFiles: seq<File>, cssFiles: seq<File>, codec: Codec) returns (r: Result<Output>)
    ensures r == Rip(htmlFiles, cssFiles, codec)
  {
    var classnames := new Occurrences();
    var roots := ParseAndCount(classnames, htmlFiles, codec);
    var pruned, ok := TrackCss(classnames, cssFiles, codec);
    if !ok {
      return Err(UnusedClassError);
    }
    var classNames := Ranked(classnames.classnames);
    var css, rename := RenameCssFiles(cssFiles, pruned, classNames, codec);
    var html := RenameHtmlFiles(htmlFiles, roots, rename, codec);
    r := Ok(Output(css, html));
  }

  /** `htmlFiles.forEach(f => { f.ast = parseHTML(classnames, f.data) })`. */
  method ParseAndCount(classnames: Occurrences, htmlFiles: seq<File>, codec: Codec) returns (roots: seq<HNode>)
    requires classnames.Valid()
    modifies classnames
    ensures classnames.Valid()
    requires classnames.classnames == Empty
    ensures roots == ParseHtmls(htmlFiles, codec)
    ensures classnames.classnames == HtmlTable(roots)
  {
    roots := [];
    for i := 0 to |htmlFiles|
      invariant classnames.Valid()
      invariant roots == ParseHtmls(htmlFiles[..i], codec)
      invariant classnames.classnames == HtmlTable(roots)
    {
      var root := codec.parseHtml(htmlFiles[i].data);
      classnames.CountClassTree(root);
      BumpAllAppend(Empty, PagesTokens(roots), NodeClassTokens(root));
      roots := roots + [root];
      assert roots[..|roots| - 1] == ParseHtmls(htmlFiles[..i], codec);
    }
    WholeSlice(htmlFiles);
  }

  /** `cssFiles.forEach(f => { f.ast = parseCSS(classnames, f.data) })`:
      each file parsed, pruned against the table as it stands and
      recounted; `ok` is false when a recount throws. */
  method TrackCss(classnames: Occurrences, cssFiles: seq<File>, codec: Codec) returns (pruned: seq<Stylesheet>, ok: bool)
    requires classnames.Valid()
    modifies classnames
    ensures classnames.Valid()
    ensures var all := PruneSheets(ParseSheets(cssFiles, codec), old(classnames.classnames).count.Keys);
            ok <==> CheckedRecount(old(classnames.classnames), SheetsNames(all, ClassKind)).Ok?
    ensures var all := PruneSheets(ParseSheets(cssFiles, codec), old(classnames.classnames).count.Keys);
            ok ==> pruned == all
                   && Ok(classnames.classnames) == CheckedRecount(old(classnames.classnames), SheetsNames(all, ClassKind))
  {
    ghost var h := classnames.classnames;
    ghost var all := PruneSheets(ParseSheets(cssFiles, codec), h.count.Keys);
    pruned := [];
    ok := true;
    for i := 0 to |cssFiles|
      invariant classnames.Valid()
      invariant pruned == all[..i]
      invariant AllCounted(h, SheetsNames(pruned, ClassKind))
      invariant classnames.classnames == BumpExistingAll(h, SheetsNames(pruned, ClassKind))
      invariant classnames.classnames.count.Keys == h.count.Keys
    {
      var sheet := codec.parseCss(cssFiles[i].data);
      sheet := RemoveUnusedCss(sheet, ClassesUsed(classnames.classnames.count.Keys), false);
      assert sheet == all[i];
      ghost var before := pruned;
      ok := classnames.RecountClassesChecked(sheet);
      CountedStep(h, all, i);
      if !ok {
        CountedPrefix(h, all, i + 1);
        return;
      }
      pruned := pruned + [sheet];
      BumpExistingAllAppend(h, SheetsNames(before, ClassKind), SheetNames(sheet, ClassKind));
      BumpExistingAllSpec(h, SheetsNames(pruned, ClassKind));
    }
    assert pruned == all;
  }

  /** `cssFiles.map(f => ({ path, data: processCSS(sorted, rename, f.ast) }))`:
      the walks over each file in turn, recording into the seeded object. */
  method RenameCssFiles(cssFiles: seq<File>, pruned: seq<Stylesheet>, classNames: seq<string>, codec: Codec)
    returns (css: seq<File>, rename: map<string, string>)
    requires |pruned| == |cssFiles|
    ensures css == RenamedCss(cssFiles, pruned, classNames, codec)
    ensures rename == Seed + FilesRecord(pruned, ClassKind, classNames)
  {
    css, rename := [], Seed;
    for i := 0 to |cssFiles|
      invariant |css| == i
      invariant forall k :: 0 <= k < i ==> css[k] == RenamedCss(cssFiles, pruned, classNames, codec)[k]
      invariant rename == Seed + FilesRecord(pruned[..i], ClassKind, classNames)
    {
      SeededRecordStep(pruned, i, classNames);
      var walked;
      walked, rename := RenameSelectorWalks(pruned[i], ClassKind, classNames, rename);
      css := css + [File(cssFiles[i].path, codec.generateCss(walked))];
    }
    WholeSlice(pruned);
  }

  /** The seeded object after one more file's walks. */
  lemma SeededRecordStep(pruned: seq<Stylesheet>, i: nat, classNames: seq<string>)
    requires i < |pruned|
    ensures Seed + FilesRecord(pruned[..i + 1], ClassKind, classNames)
         == WalkRenames(pruned[i], ClassKind, classNames, |classNames|, Seed + FilesRecord(pruned[..i], ClassKind, classNames))
  {
    var before := FilesRecord(pruned[..i], ClassKind, classNames);
    FilesRecordStep(pruned, i, ClassKind, classNames);
    WalkRenamesFrom(pruned[i], ClassKind, classNames, |classNames|, before);
    WalkRenamesFrom(pruned[i], ClassKind, classNames, |classNames|, Seed + before);
    UnionAssociates(Seed, before, WalkRenames(pruned[i], ClassKind, classNames, |classNames|, map[]));
  }

  lemma UnionAssociates(a: map<string, string>, b: map<string, string>, c: map<string, string>)
    ensures a + (b + c) == (a + b) + c
  {
  }

  /** `htmlFiles.map(f => { processHTMLNodeChildren(rename, f.ast); ... })`. */
  method RenameHtmlFiles(htmlFiles: seq<File>, roots: seq<HNode>, rename: map<string, string>, codec: Codec)
    returns (html: seq<File>)
    requires |roots| == |htmlFiles|
    ensures html == RenamedHtml(htmlFiles, roots, rename, codec)
  {
    html := [];
    for i := 0 to |htmlFiles|
      invariant html == RenamedHtml(htmlFiles[..i], roots[..i], rename, codec)
    {
      html := html + [File(htmlFiles[i].path, codec.printHtml(RenameElement(roots[i], rename, map[])))];
    }
    WholeSlice(htmlFiles);
    WholeSlice(roots);
  }

  // ---------------------------------------------------------------------
  // The lookup as written
  // ---------------------------------------------------------------------

  /** `c in rename ? rename[c] : c` as styleripper.js evaluates it:
      `processCSS` writes every renamed class next to the key `classnames`
      the object was created with, whose value is an empty object that
      `join(' ')` turns into "[object Object]"; a CSS class named
      `classnames` overwrites it. */
  function SeededLookup(c: string, renamed: map<string, string>): string
  {
    if c in renamed then renamed[c] else if c == "classnames" then "[object Object]" else c
  }

  /** Looking a token up in the seeded object is the seeded lookup in the
      record the walks made. */
  lemma SeedLookup(c: string, renamed: map<string, string>)
    ensures LookupName(c, Seed + renamed) == SeededLookup(c, renamed)
  {
  }

  /** The seeded lookup differs from a plain lookup exactly on the token
      `classnames` when no CSS file renamed a class of that name. */
  lemma SeededLookupDiffers(c: string, renamed: map<string, string>)
    ensures SeededLookup(c, renamed) != LookupName(c, renamed) <==> c == "classnames" && c !in renamed
  {
  }

  /** Without CSS files, a page with a class token `classnames`: the walks
      record nothing, the page as written loses every `classnames` token to
      "[object Object]", and the intended page keeps it. */
  lemma SeededLookupExample(htmlFiles: seq<File>, codec: Codec)
    requires |htmlFiles| > 0 && "classnames" in NodeClassTokens(ParseHtmls(htmlFiles, codec)[0])
    ensures var roots := ParseHtmls(htmlFiles, codec);
            FinalTable(roots, [], codec).Ok?
            && var t := FinalTable(roots, [], codec).value;
               var rename := Seed + FilesRecord(Pruned(roots, [], codec), ClassKind, Ranked(t));
               var rc := Restrict(RankMap(Ranked(t)), SheetsNames(Pruned(roots, [], codec), ClassKind));
               "classnames" !in NodeClassTokens(RenameElement(roots[0], rename, map[]))
               && "[object Object]" in NodeClassTokens(RenameElement(roots[0], rename, map[]))
               && "classnames" in NodeClassTokens(RenameElement(roots[0], rc, map[]))
  {
    var roots := ParseHtmls(htmlFiles, codec);
    IntendedRenameConsistent(htmlFiles, [], codec);
    var t := FinalTable(roots, [], codec).value;
    var pruned := Pruned(roots, [], codec);
    assert pruned == [];
    var rename := Seed + FilesRecord(pruned, ClassKind, Ranked(t));
    assert rename == Seed;
    var rc := Restrict(RankMap(Ranked(t)), SheetsNames(pruned, ClassKind));
    assert rc == map[];
    var tokens := NodeClassTokens(roots[0]);
    var k :| 0 <= k < |tokens| && tokens[k] == "classnames";
    assert NodeClassTokens(RenameElement(roots[0], rc, map[]))[k] == "classnames";
    RenameNodeClassTokens(roots[0], rename, map[]);
    var out := NodeClassTokens(RenameElement(roots[0], rename, map[]));
    assert out[k] == "[object Object]";
    forall j | 0 <= j < |out| ensures out[j] != "classnames" {
      assert out[j] == LookupName(tokens[j], Seed);
    }
  }

  // ---------------------------------------------------------------------
  // What styleripper.js promises
  // ---------------------------------------------------------------------

  lemma {:induction false} PagesTokensAppend(a: seq<HNode>, b: seq<HNode>)
    ensures PagesTokens(a + b) == PagesTokens(a) + PagesTokens(b)
  {
    if b == [] {
      assert a + b == a;
    } else {
      assert (a + b)[..|a + b| - 1] == a + b[..|b| - 1];
      PagesTokensAppend(a, b[..|b| - 1]);
    }
  }

  /** The shared table counts a class on one page as it counts it on all:
      a page's tokens are part of the tokens of every page. */
  lemma {:induction false} PageTokensShared(roots: seq<HNode>, j: nat)
    requires j < |roots|
    ensures forall x :: x in NodeClassTokens(roots[j]) ==> x in PagesTokens(roots)
    ensures forall x :: multiset(NodeClassTokens(roots[j]))[x] <= multiset(PagesTokens(roots))[x]
  {
    var init := roots[..|roots| - 1];
    if j < |init| {
      PageTokensShared(init, j);
      assert roots[j] == init[j];
    }
  }

  /** Pruning a file: every at-rule and, with every class known, every
      comment stays; a selector survives exactly when each of its class
      components names an entry, so type, id, attribute and pseudo
      components never remove one. */
  lemma PruneSpec(sheet: Stylesheet, classes: set<string>)
    ensures var p := PruneSheets([sheet], classes)[0];
            AtrulesOf(p) == AtrulesOf(sheet)
            && (forall s: Selector :: s in SelectorsOf(p) <==>
                  s in SelectorsOf(sheet) && forall k :: 0 <= k < |s| && s[k].ClassSelector? ==> Clean(s[k].name) in classes)
    ensures (forall s: Selector, k :: s in SelectorsOf(sheet) && 0 <= k < |s| && s[k].ClassSelector? ==> Clean(s[k].name) in classes)
            ==> PruneSheets([sheet], classes)[0] == sheet
  {
    PruneKeepsAtrules(sheet, ClassesUsed(classes), false);
    ClassPruneSpec(sheet, classes, false);
    if forall s: Selector, k :: s in SelectorsOf(sheet) && 0 <= k < |s| && s[k].ClassSelector? ==> Clean(s[k].name) in classes {
      PruneNothingUnused(sheet, ClassesUsed(classes));
    }
  }

  /** Every class name left in the pruned files has an entry. */
  lemma PrunedNamesCounted(sheets: seq<Stylesheet>, classes: set<string>)
    ensures forall x :: x in SheetsNames(PruneSheets(sheets, classes), ClassKind) ==> x in classes
  {
    var p := PruneSheets(sheets, classes);
    forall x | x in SheetsNames(p, ClassKind) ensures x in classes {
      var i := SheetsNamesSource(p, ClassKind, x);
      PrunedNamesUsed(sheets[i], ClassesUsed(classes), false, ClassKind);
    }
  }

  /** The recount never throws, and afterwards the shared table has an entry
      exactly for the class tokens of the pages, each counting its
      occurrences over every page plus those in the pruned CSS files. */
  lemma FinalTableSpec(roots: seq<HNode>, cssFiles: seq<File>, codec: Codec)
    ensures FinalTable(roots, cssFiles, codec).Ok?
    ensures Valid(FinalTable(roots, cssFiles, codec).value)
    ensures forall x :: x in FinalTable(roots, cssFiles, codec).value.count <==> x in PagesTokens(roots)
    ensures forall x ::
      Count(FinalTable(roots, cssFiles, codec).value, x)
        == multiset(PagesTokens(roots))[x] + multiset(SheetsNames(Pruned(roots, cssFiles, codec), ClassKind))[x]
  {
    PrunedNamesCounted(ParseSheets(cssFiles, codec), HtmlTable(roots).count.Keys);
    CheckedRecountTally(PagesTokens(roots), SheetsNames(Pruned(roots, cssFiles, codec), ClassKind));
  }

  /** The error is never thrown, and the output lists one CSS file per input
      CSS file and one page per input page, with the same paths in the same
      order. */
  lemma RipShape(htmlFiles: seq<File>, cssFiles: seq<File>, codec: Codec)
    ensures Rip(htmlFiles, cssFiles, codec).Ok?
    ensures var out := Rip(htmlFiles, cssFiles, codec).value;
            |out.cssFiles| == |cssFiles| && |out.htmlFiles| == |htmlFiles|
            && (forall i :: 0 <= i < |cssFiles| ==> out.cssFiles[i].path == cssFiles[i].path)
            && (forall i :: 0 <= i < |htmlFiles| ==> out.htmlFiles[i].path == htmlFiles[i].path)
  {
    FinalTableSpec(ParseHtmls(htmlFiles, codec), cssFiles, codec);
  }

  /** The intended renaming: one rename map for everything; the class at
      rank `i` of the shared ranking becomes `ShortName(i)` in every file,
      distinct classes get distinct names, every CSS file's class names come
      out looked up in that map, and every page's class tokens come out
      looked up in the rename map, which agrees with it on every name a CSS
      file uses and keeps every other token. */
  lemma IntendedRenameConsistent(htmlFiles: seq<File>, cssFiles: seq<File>, codec: Codec)
    ensures FinalTable(ParseHtmls(htmlFiles, codec), cssFiles, codec).Ok?
    ensures var t := FinalTable(ParseHtmls(htmlFiles, codec), cssFiles, codec).value;
            var cm := RankMap(Ranked(t));
            (forall i :: 0 <= i < |Ranked(t)| ==> Ranked(t)[i] in cm && cm[Ranked(t)[i]] == ShortName(i))
            && (forall x, y :: x in cm && y in cm && x != y ==> cm[x] != cm[y])
    ensures var roots := ParseHtmls(htmlFiles, codec);
            var t := FinalTable(roots, cssFiles, codec).value;
            var cm := RankMap(Ranked(t));
            var pruned := Pruned(roots, cssFiles, codec);
            forall i :: 0 <= i < |pruned| ==>
              SheetNames(RenameByMap(pruned[i], ClassKind, cm), ClassKind) == LookupNames(SheetNames(pruned[i], ClassKind), cm)
    ensures var roots := ParseHtmls(htmlFiles, codec);
            var t := FinalTable(roots, cssFiles, codec).value;
            var cm := RankMap(Ranked(t));
            var rc := Restrict(cm, SheetsNames(Pruned(roots, cssFiles, codec), ClassKind));
            (forall j :: 0 <= j < |roots| ==>
               NodeClassTokens(RenameElement(roots[j], rc, map[])) == LookupNames(NodeClassTokens(roots[j]), rc))
            && (forall x :: x in SheetsNames(Pruned(roots, cssFiles, codec), ClassKind) ==> LookupName(x, rc) == LookupName(x, cm))
            && (forall x :: x !in SheetsNames(Pruned(roots, cssFiles, codec), ClassKind) ==> LookupName(x, rc) == x)
  {
    var roots := ParseHtmls(htmlFiles, codec);
    FinalTableSpec(roots, cssFiles, codec);
    var t := FinalTable(roots, cssFiles, codec).value;
    var cm := RankMap(Ranked(t));
    var pruned := Pruned(roots, cssFiles, codec);
    var rc := Restrict(cm, SheetsNames(pruned, ClassKind));
    RankedMap(t);
    RankedSpec(t);
    RankMapValues(Ranked(t));
    forall i | 0 <= i < |pruned|
      ensures SheetNames(RenameByMap(pruned[i], ClassKind, cm), ClassKind) == LookupNames(SheetNames(pruned[i], ClassKind), cm)
    {
      RenameByMapNames(pruned[i], ClassKind, cm);
    }
    forall j | 0 <= j < |roots|
      ensures NodeClassTokens(RenameElement(roots[j], rc, map[])) == LookupNames(NodeClassTokens(roots[j]), rc)
    {
      RenameNodeClassTokens(roots[j], rc, map[]);
    }
  }

  /** The output as written is the intended output whenever no ranked class
      is the generated name of an earlier rank and no page has the token
      `classnames` that no CSS file uses. */
  lemma RipAgrees(htmlFiles: seq<File>, cssFiles: seq<File>, codec: Codec)
    ensures var roots := ParseHtmls(htmlFiles, codec);
            FinalTable(roots, cssFiles, codec).Ok?
            && (NoEarlierShortName(Ranked(FinalTable(roots, cssFiles, codec).value))
                && ("classnames" in PagesTokens(roots) ==> "classnames" in SheetsNames(Pruned(roots, cssFiles, codec), ClassKind))
                ==> Rip(htmlFiles, cssFiles, codec) == IntendedRip(htmlFiles, cssFiles, codec))
  {
    var roots := ParseHtmls(htmlFiles, codec);
    FinalTableSpec(roots, cssFiles, codec);
    var t := FinalTable(roots, cssFiles, codec).value;
    var pruned := Pruned(roots, cssFiles, codec);
    var cn := Ranked(t);
    var cm := RankMap(cn);
    if NoEarlierShortName(cn) && ("classnames" in PagesTokens(roots) ==> "classnames" in SheetsNames(pruned, ClassKind)) {
      RankedSpec(t);
      CssAgrees(cssFiles, pruned, cn, codec);
      FilesRecordAgrees(pruned, ClassKind, cn);
      SeededRecordAgrees(roots, cssFiles, codec);
      PagesAgree(htmlFiles, roots, Restrict(cm, SheetsNames(pruned, ClassKind)), codec);
    }
  }

  /** The walked CSS files are the files renamed by lookup. */
  lemma CssAgrees(cssFiles: seq<File>, pruned: seq<Stylesheet>, classNames: seq<string>, codec: Codec)
    requires |pruned| == |cssFiles|
    requires Distinct(classNames) && NoEarlierShortName(classNames)
    ensures RenamedCss(cssFiles, pruned, classNames, codec) == IntendedCss(cssFiles, pruned, RankMap(classNames), codec)
  {
    FilesWalksAgree(pruned, ClassKind, classNames);
  }

  /** The pages looked up in the seeded object are the pages looked up in
      the record, when the seed changes no token's lookup. */
  lemma PagesAgree(htmlFiles: seq<File>, roots: seq<HNode>, rc: map<string, string>, codec: Codec)
    requires |roots| == |htmlFiles|
    requires forall x :: x in PagesTokens(roots) ==> LookupName(x, Seed + rc) == LookupName(x, rc)
    ensures RenamedHtml(htmlFiles, roots, Seed + rc, codec) == RenamedHtml(htmlFiles, roots, rc, codec)
  {
    forall j | 0 <= j < |roots|
      ensures RenameElement(roots[j], Seed + rc, map[]) == RenameElement(roots[j], rc, map[])
    {
      PageTokensShared(roots, j);
      RenameNodeAgrees(roots[j], Seed + rc, rc, map[]);
    }
  }

  /** The seed changes no page token's lookup unless a page has the token
      `classnames` that no CSS file uses. */
  lemma SeededRecordAgrees(roots: seq<HNode>, cssFiles: seq<File>, codec: Codec)
    requires "classnames" in PagesTokens(roots) ==> "classnames" in SheetsNames(Pruned(roots, cssFiles, codec), ClassKind)
    ensures FinalTable(roots, cssFiles, codec).Ok?
    ensures var rc := Restrict(RankMap(Ranked(FinalTable(roots, cssFiles, codec).value)),
                               SheetsNames(Pruned(roots, cssFiles, codec), ClassKind));
            forall x :: x in PagesTokens(roots) ==> LookupName(x, Seed + rc) == LookupName(x, rc)
  {
    FinalTableSpec(roots, cssFiles, codec);
    var t := FinalTable(roots, cssFiles, codec).value;
    var pruned := Pruned(roots, cssFiles, codec);
    RankedMap(t);
    PrunedNamesCounted(ParseSheets(cssFiles, codec), HtmlTable(roots).count.Keys);
    TallyCounts(PagesTokens(roots));
  }

  /** Rename consistency as written, whenever no ranked class is the
      generated name of an earlier rank: the class at rank `i` becomes
      `ShortName(i)`, every CSS file's class names come out looked up in the
      rank map, the record the walks make is the rank map restricted to the
      names the CSS files use, and every page's class tokens come out
      looked up in the seeded object. That lookup is the seeded lookup in
      the record: it agrees with the rank map on every name a CSS file uses
      and keeps every other token except `classnames`. */
  lemma RenameConsistent(htmlFiles: seq<File>, cssFiles: seq<File>, codec: Codec)
    requires var t := FinalTable(ParseHtmls(htmlFiles, codec), cssFiles, codec);
             t.Ok? ==> NoEarlierShortName(Ranked(t.value))
    ensures FinalTable(ParseHtmls(htmlFiles, codec), cssFiles, codec).Ok?
    ensures var t := FinalTable(ParseHtmls(htmlFiles, codec), cssFiles, codec).value;
            var cm := RankMap(Ranked(t));
            (forall i :: 0 <= i < |Ranked(t)| ==> Ranked(t)[i] in cm && cm[Ranked(t)[i]] == ShortName(i))
            && (forall x, y :: x in cm && y in cm && x != y ==> cm[x] != cm[y])
    ensures var roots := ParseHtmls(htmlFiles, codec);
            var t := FinalTable(roots, cssFiles, codec).value;
            var cm := RankMap(Ranked(t));
            var pruned := Pruned(roots, cssFiles, codec);
            forall i :: 0 <= i < |pruned| ==>
              SheetNames(Walks(pruned[i], ClassKind, Ranked(t), |Ranked(t)|), ClassKind)
                == LookupNames(SheetNames(pruned[i], ClassKind), cm)
    ensures var roots := ParseHtmls(htmlFiles, codec);
            var t := FinalTable(roots, cssFiles, codec).value;
            var cm := RankMap(Ranked(t));
            var pruned := Pruned(roots, cssFiles, codec);
            var rc := FilesRecord(pruned, ClassKind, Ranked(t));
            rc == Restrict(cm, SheetsNames(pruned, ClassKind))
            && (forall j :: 0 <= j < |roots| ==>
                  NodeClassTokens(RenameElement(roots[j], Seed + rc, map[])) == LookupNames(NodeClassTokens(roots[j]), Seed + rc))
            && (forall x :: LookupName(x, Seed + rc) == SeededLookup(x, rc))
            && (forall x :: x in SheetsNames(pruned, ClassKind) ==> LookupName(x, Seed + rc) == LookupName(x, cm))
            && (forall x :: x !in SheetsNames(pruned, ClassKind) && x != "classnames" ==> LookupName(x, Seed + rc) == x)
  {
    var roots := ParseHtmls(htmlFiles, codec);
    FinalTableSpec(roots, cssFiles, codec);
    var t := FinalTable(roots, cssFiles, codec).value;
    var cn := Ranked(t);
    var pruned := Pruned(roots, cssFiles, codec);
    IntendedRenameConsistent(htmlFiles, cssFiles, codec);
    RankedSpec(t);
    FilesWalksAgree(pruned, ClassKind, cn);
    FilesRecordAgrees(pruned, ClassKind, cn);
    var rc := FilesRecord(pruned, ClassKind, cn);
    forall j | 0 <= j < |roots|
      ensures NodeClassTokens(RenameElement(roots[j], Seed + rc, map[])) == LookupNames(NodeClassTokens(roots[j]), Seed + rc)
    {
      RenameNodeClassTokens(roots[j], Seed + rc, map[]);
    }
    RankedMap(t);
    PrunedNamesCounted(ParseSheets(cssFiles, codec), HtmlTable(roots).count.Keys);
    TallyCounts(PagesTokens(roots));
    SeededRecordLookup(rc, RankMap(cn), SheetsNames(pruned, ClassKind));
  }

  /** The seeded object over a record of names the rank map holds. */
  lemma SeededRecordLookup(rc: map<string, string>, cm: map<string, string>, names: seq<string>)
    requires rc == Restrict(cm, names)
    requires forall x :: x in names ==> x in cm
    ensures forall x :: LookupName(x, Seed + rc) == SeededLookup(x, rc)
    ensures forall x :: x in names ==> LookupName(x, Seed + rc) == LookupName(x, cm)
    ensures forall x :: x !in names && x != "classnames" ==> LookupName(x, Seed + rc) == x
  {
  }
}
