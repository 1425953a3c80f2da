/** The string and route helpers of build.ts: `removeFirstDir`, `pathToRoute`,
    `concatFiles`, the script bundle, the route table and the per-page
    navigation step. File reading and writing, `JSON.stringify` and the
    minifiers are not part of this model: the navigation script's text and
    the minifiers are parameters, and what would be written is returned. */
module Build {
  import opened Base

  // ---------------------------------------------------------------------
  // removeFirstDir: `path.replace(/.+?\//, '')`
  // ---------------------------------------------------------------------

  /** The characters JavaScript's `.` does not match. */
  predicate LineTerminator(c: char)
  {
    c == '\n' || c == '\r' || c == '\U{2028}' || c == '\U{2029}'
  }

  /** `path[s..e + 1]` matches `.+?\/`: at least one character that is not a
      line terminator, then a slash at `e`. */
  predicate SlashMatch(path: string, s: nat, e: nat)
  {
    s < e < |path| && path[e] == '/' && forall i :: s <= i < e ==> !LineTerminator(path[i])
  }

  /** The lazy `.+?` from `s`: the slash that ends the shortest match, trying
      `e` and then the positions after it. */
  function ShortestFrom(path: string, s: nat, e: nat): Option<nat>
    requires s < e
    decreases |path| - e
  {
    if e >= |path| || LineTerminator(path[e - 1]) then None
    else if path[e] == '/' then Some(e)
    else ShortestFrom(path, s, e + 1)
  }

  /** The lazy search finds the shortest match from `s`, or there is none. */
  lemma {:induction false} ShortestFromSpec(path: string, s: nat, e: nat)
    requires s < e
    requires forall i :: s <= i < e - 1 && i < |path| ==> !LineTerminator(path[i])
    requires forall k :: s < k < e && k < |path| ==> path[k] != '/'
    ensures var r := ShortestFrom(path, s, e);
            (r.Some? ==> SlashMatch(path, s, r.value) && forall k: nat :: s < k < r.value ==> !SlashMatch(path, s, k))
            && (r.None? ==> forall k: nat :: !SlashMatch(path, s, k))
    decreases |path| - e
  {
    if e >= |path| || LineTerminator(path[e - 1]) {
    } else if path[e] == '/' {
    } else {
      ShortestFromSpec(path, s, e + 1);
    }
  }

  /** The regex search: the first start with a match, and its shortest
      match. */
  function LeftmostMatch(path: string, s: nat): Option<(nat, nat)>
    decreases |path| - s
  {
    if s >= |path| then None
    else
      match ShortestFrom(path, s, s + 1)
      case Some(e) => Some((s, e))
      case None => LeftmostMatch(path, s + 1)
  }

  lemma {:induction false} LeftmostMatchSpec(path: string, s: nat)
    ensures var r := LeftmostMatch(path, s);
            (r.Some? ==> s <= r.value.0 && SlashMatch(path, r.value.0, r.value.1)
                         && (forall k: nat :: r.value.0 < k < r.value.1 ==> !SlashMatch(path, r.value.0, k))
                         && (forall s': nat, k: nat :: s <= s' < r.value.0 ==> !SlashMatch(path, s', k)))
            && (r.None? ==> forall s': nat, k: nat :: s <= s' ==> !SlashMatch(path, s', k))
    decreases |path| - s
  {
    if s < |path| {
      ShortestFromSpec(path, s, s + 1);
      if ShortestFrom(path, s, s + 1).None? {
        LeftmostMatchSpec(path, s + 1);
      }
    }
  }

  function RemoveFirstDir(path: string): string
  {
    LeftmostMatchSpec(path, 0);
    match LeftmostMatch(path, 0)
    case None => path
    case Some((s, e)) => path[..s] + path[e + 1..]
  }

  /** `removeFirstDir` deletes the leftmost, shortest match of `.+?\/`, and
      leaves a path without a match as it is. */
  lemma RemoveFirstDirSpec(path: string, s: nat, e: nat)
    ensures (forall s': nat, k: nat :: !SlashMatch(path, s', k)) ==> RemoveFirstDir(path) == path
    ensures SlashMatch(path, s, e) && (forall s': nat, k: nat :: s' < s ==> !SlashMatch(path, s', k))
            && (forall k: nat :: s < k < e ==> !SlashMatch(path, s, k))
            ==> RemoveFirstDir(path) == path[..s] + path[e + 1..]
  {
    LeftmostMatchSpec(path, 0);
    if SlashMatch(path, s, e) && (forall s': nat, k: nat :: s' < s ==> !SlashMatch(path, s', k))
       && (forall k: nat :: s < k < e ==> !SlashMatch(path, s, k)) {
      var m := LeftmostMatch(path, 0);
      assert m.Some?;
      assert m.value.0 == s;
      assert m.value.1 == e;
    }
  }

  /** On a path without line terminators: everything up to the first slash
      after the first character goes; with no such slash nothing changes. */
  lemma RemoveFirstDirPlain(path: string)
    requires forall i :: 0 <= i < |path| ==> !LineTerminator(path[i])
    ensures (forall k :: 1 <= k < |path| ==> path[k] != '/') ==> RemoveFirstDir(path) == path
    ensures forall k :: 1 <= k < |path| && path[k] == '/' && (forall j :: 1 <= j < k ==> path[j] != '/')
                        ==> RemoveFirstDir(path) == path[k + 1..]
  {
    if forall k :: 1 <= k < |path| ==> path[k] != '/' {
      RemoveFirstDirSpec(path, 0, 0);
    }
    forall k | 1 <= k < |path| && path[k] == '/' && (forall j :: 1 <= j < k ==> path[j] != '/')
      ensures RemoveFirstDir(path) == path[k + 1..]
    {
      RemoveFirstDirSpec(path, 0, k);
      assert path[..0] == [];
    }
  }

  // ---------------------------------------------------------------------
  // pathToRoute: `/${removeFirstDir(path).replace(/index\.html$/, '')}`
  // ---------------------------------------------------------------------

  const IndexHtml: string := "index.html"

  predicate EndsWith(s: string, suffix: string)
  {
    |suffix| <= |s| && s[|s| - |suffix|..] == suffix
  }

  function PathToRoute(path: string): (r: string)
    ensures |r| >= 1 && r[0] == '/'
  {
    var rest := RemoveFirstDir(path);
    "/" + if EndsWith(rest, IndexHtml) then rest[..|rest| - |IndexHtml|] else rest
  }

  /** The route of a page under a top directory: the path below that
      directory, after a slash, without a trailing `index.html`; so
      `pages/about/index.html` has the route `/about/`. */
  lemma RouteOfPage(dir: string, rest: string)
    requires |dir| >= 1 && '/' !in dir && forall i :: 0 <= i < |dir| ==> !LineTerminator(dir[i])
    requires forall i :: 0 <= i < |rest| ==> !LineTerminator(rest[i])
    ensures PathToRoute(dir + "/" + rest)
         == "/" + if EndsWith(rest, IndexHtml) then rest[..|rest| - |IndexHtml|] else rest
  {
    var path := dir + "/" + rest;
    var k := |dir|;
    assert path[k] == '/';
    forall j | 1 <= j < k ensures path[j] != '/' {
      assert path[j] == dir[j];
    }
    RemoveFirstDirPlain(path);
    assert path[k + 1..] == rest;
  }

  // ---------------------------------------------------------------------
  // concatFiles and the script bundle
  // ---------------------------------------------------------------------

  function Datas(files: seq<File>): (r: seq<string>)
    ensures |r| == |files| && forall i :: 0 <= i < |files| ==> r[i] == files[i].data
  {
    seq(|files|, i requires 0 <= i < |files| => files[i].data)
  }

  /** `files.reduce((acc, f) => f.data + acc, '')`. */
  function ConcatFiles(files: seq<File>): string
  {
    ConcatReversed(Datas(files))
  }

  /** The files' data, last file first; nothing for no files. */
  lemma ConcatFilesSpec(files: seq<File>)
    ensures ConcatFiles(files) == Join(Reverse(Datas(files)))
    ensures files == [] ==> ConcatFiles(files) == ""
  {
    ConcatReversedSpec(Datas(files));
  }

  /** A file with its data replaced by `f(data)` when `on` is set. */
  function MapFile(file: File, on: bool, f: string -> string): File
  {
    if on then File(file.path, f(file.data)) else file
  }

  /** Each file mapped by `MapFile`. */
  function MapData(files: seq<File>, on: bool, f: string -> string): (r: seq<File>)
    ensures |r| == |files|
    ensures forall i :: 0 <= i < |files| ==> r[i] == MapFile(files[i], on, f) && r[i].path == files[i].path
  {
    seq(|files|, i requires 0 <= i < |files| => MapFile(files[i], on, f))
  }

  /** `processScripts`: in production every script is minified in place;
      the bundle is the concatenation, and it is written (returned here)
      only when it is not empty. */
  method ProcessScripts(scripts: seq<File>, prod: bool, minifyJs: string -> string)
    returns (minified: seq<File>, bundle: Option<string>)
    ensures minified == MapData(scripts, prod, minifyJs)
    ensures forall i :: 0 <= i < |scripts| ==> minified[i].path == scripts[i].path
    ensures bundle.Some? <==> ConcatFiles(minified) != ""
    ensures bundle.Some? ==> bundle.value == Join(Reverse(Datas(minified)))
  {
    minified := scripts;
    if prod {
      for i := 0 to |scripts|
        invariant |minified| == |scripts|
        invariant forall k :: 0 <= k < i ==> minified[k] == File(scripts[k].path, minifyJs(scripts[k].data))
        invariant forall k :: i <= k < |scripts| ==> minified[k] == scripts[k]
      {
        minified := minified[i := File(scripts[i].path, minifyJs(scripts[i].data))];
      }
    }
    var js := ConcatFiles(minified);
    ConcatFilesSpec(minified);
    bundle := if js != "" then Some(js) else None;
  }

  // ---------------------------------------------------------------------
  // prepareRoutes and prepareNavigation
  // ---------------------------------------------------------------------

  /** The route table of a list of pages, filled page by page. */
  function RoutesOf(pages: seq<File>): map<string, string>
  {
    if pages == [] then map[]
    else RoutesOf(pages[..|pages| - 1])[PathToRoute(pages[|pages| - 1].path) := pages[|pages| - 1].data]
  }

  /** Every page's route has an entry in the table. */
  lemma {:induction false} RoutesOfCovers(pages: seq<File>, i: nat)
    requires i < |pages|
    ensures PathToRoute(pages[i].path) in RoutesOf(pages)
  {
    var init := pages[..|pages| - 1];
    if i < |init| {
      RoutesOfCovers(init, i);
      assert init[i] == pages[i];
    }
  }

  /** Every entry of the table is the route of some page. */
  lemma {:induction false} RoutesOfFrom(pages: seq<File>, r: string)
    requires r in RoutesOf(pages)
    ensures exists i :: 0 <= i < |pages| && PathToRoute(pages[i].path) == r
  {
    var init, last := pages[..|pages| - 1], pages[|pages| - 1];
    if r != PathToRoute(last.path) {
      RoutesOfFrom(init, r);
      var i :| 0 <= i < |init| && PathToRoute(init[i].path) == r;
      assert pages[i] == init[i];
    }
  }

  /** The table has an entry for exactly the pages' routes. */
  lemma RoutesOfKeys(pages: seq<File>)
    ensures forall r :: r in RoutesOf(pages) <==> exists i :: 0 <= i < |pages| && PathToRoute(pages[i].path) == r
  {
    forall r | r in RoutesOf(pages) ensures exists i :: 0 <= i < |pages| && PathToRoute(pages[i].path) == r {
      RoutesOfFrom(pages, r);
    }
    forall i | 0 <= i < |pages| ensures PathToRoute(pages[i].path) in RoutesOf(pages) {
      RoutesOfCovers(pages, i);
    }
  }

  /** The entry of a route holds the data of the last page with that route:
      a later page overwrites an earlier one. */
  lemma {:induction false} RoutesOfLast(pages: seq<File>, i: nat)
    requires i < |pages|
    requires forall j :: i < j < |pages| ==> PathToRoute(pages[j].path) != PathToRoute(pages[i].path)
    ensures PathToRoute(pages[i].path) in RoutesOf(pages)
    ensures RoutesOf(pages)[PathToRoute(pages[i].path)] == pages[i].data
  {
    var init := pages[..|pages| - 1];
    if i < |init| {
      assert init[i] == pages[i];
      forall j | i < j < |init| ensures PathToRoute(init[j].path) != PathToRoute(init[i].path) {
        assert init[j] == pages[j];
      }
      RoutesOfLast(init, i);
    }
  }

  /** `prepareRoutes`: in production each page is minified in place, then
      its route is mapped to its data; a later page with the same route
      overwrites an earlier one. */
  method PrepareRoutes(pages: seq<File>, prod: bool, minifyHtml: string -> string)
    returns (minified: seq<File>, routes: map<string, string>)
    ensures minified == MapData(pages, prod, minifyHtml)
    ensures routes == RoutesOf(minified)
  {
    minified, routes := [], map[];
    for i := 0 to |pages|
      invariant |minified| == i
      invariant forall k :: 0 <= k < i ==> minified[k] == MapFile(pages[k], prod, minifyHtml)
      invariant routes == RoutesOf(minified)
    {
      var page := pages[i];
      if prod {
        page := File(page.path, minifyHtml(page.data));
      }
      routes := routes[PathToRoute(page.path) := page.data];
      assert (minified + [page])[..i] == minified;
      minified := minified + [page];
    }
  }

  /** The navigation script inserted before the first `</body>`. */
  function WithNavigation(data: string, script: string): string
  {
    ReplaceFirst(data, "</body>", "<script>" + script + "</script></body>")
  }

  /** The script lands immediately before the first `</body>`; a page
      without one is left as it is. */
  lemma NavigationPlacement(data: string, script: string, k: nat)
    ensures (forall j: nat :: !OccursAt(data, "</body>", j)) ==> WithNavigation(data, script) == data
    ensures OccursAt(data, "</body>", k) && (forall j: nat :: j < k ==> !OccursAt(data, "</body>", j))
            ==> WithNavigation(data, script) == data[..k] + "<script>" + script + "</script></body>" + data[k + 7..]
  {
    ReplaceFirstSpec(data, "</body>", "<script>" + script + "</script></body>");
  }

  /** The navigation script as inserted: minified in production. */
  function NavScript(navigation: string, prod: bool, minifyJs: string -> string): string
  {
    if prod then minifyJs(navigation) else navigation
  }

  /** The route table a page receives: the full table less its own route. */
  function WithoutOwnRoute(routes: map<string, string>, page: File): map<string, string>
  {
    routes - {PathToRoute(page.path)}
  }

  /** Exactly the page's own route is deleted; every other entry is kept
      with its value. */
  lemma WithoutOwnRouteSpec(routes: map<string, string>, page: File)
    ensures PathToRoute(page.path) !in WithoutOwnRoute(routes, page)
    ensures forall r :: r in WithoutOwnRoute(routes, page) <==> r in routes && r != PathToRoute(page.path)
    ensures forall r :: r in WithoutOwnRoute(routes, page) ==> WithoutOwnRoute(routes, page)[r] == routes[r]
  {
  }

  /** The loop of `prepareNavigation` over the minified pages, given the
      route table and the script. */
  method NavigatePages(pages: seq<File>, routes: map<string, string>, script: string)
    returns (out: seq<File>, pageRoutes: seq<map<string, string>>)
    ensures |out| == |pages| && |pageRoutes| == |pages|
    ensures forall i :: 0 <= i < |pages| ==> out[i] == File(pages[i].path, WithNavigation(pages[i].data, script))
    ensures forall i :: 0 <= i < |pages| ==> pageRoutes[i] == WithoutOwnRoute(routes, pages[i])
  {
    out, pageRoutes := [], [];
    for i := 0 to |pages|
      invariant |out| == i && |pageRoutes| == i
      invariant forall k :: 0 <= k < i ==> out[k] == File(pages[k].path, WithNavigation(pages[k].data, script))
      invariant forall k :: 0 <= k < i ==> pageRoutes[k] == WithoutOwnRoute(routes, pages[k])
    {
      pageRoutes := pageRoutes + [WithoutOwnRoute(routes, pages[i])];
      out := out + [File(pages[i].path, WithNavigation(pages[i].data, script))];
    }
  }

  /** `prepareNavigation`: the route table of the minified pages, and for
      each page the table without its own route (what its `routes.json`
      receives) and its data with the navigation script inserted. */
  method PrepareNavigation(pages: seq<File>, prod: bool, navigation: string,
                           minifyHtml: string -> string, minifyJs: string -> string)
    returns (out: seq<File>, pageRoutes: seq<map<string, string>>)
    ensures |out| == |pages| && |pageRoutes| == |pages|
    ensures forall i :: 0 <= i < |pages| ==>
      out[i] == File(pages[i].path, WithNavigation(MapFile(pages[i], prod, minifyHtml).data, NavScript(navigation, prod, minifyJs)))
    ensures forall i :: 0 <= i < |pages| ==>
      pageRoutes[i] == WithoutOwnRoute(RoutesOf(MapData(pages, prod, minifyHtml)), pages[i])
  {
    var minified, routes := PrepareRoutes(pages, prod, minifyHtml);
    out, pageRoutes := NavigatePages(minified, routes, NavScript(navigation, prod, minifyJs));
  }
}
