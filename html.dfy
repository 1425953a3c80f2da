/** The HTML tree as node-html-parser hands it to the ripper, reduced to what
    the ripper reads and writes: each element's tag name, its class tokens
    in attribute order, and its id. */
module Html {
  import opened Renaming

  /** An element or a text node. The parser's root is an element whose tag
      is the empty string; an element without an id attribute (or with an
      empty one) has id "", which the source's truthiness tests skip. */
  datatype HNode =
    | Element(tag: string, classes: seq<string>, id: string, children: seq<HNode>)
    | Text(text: string)

  // ---------------------------------------------------------------------
  // What the counting walk reads, in document order
  // ---------------------------------------------------------------------

  /** Every class token of every element at every depth, in preorder. */
  function ClassTokens(ns: seq<HNode>): seq<string>
    decreases ns
  {
    if ns == [] then [] else ClassTokens(ns[..|ns| - 1]) + NodeClassTokens(ns[|ns| - 1])
  }

  function NodeClassTokens(n: HNode): seq<string>
    decreases n
  {
    match n
    case Element(_, classes, _, kids) => classes + ClassTokens(kids)
    case Text(_) => []
  }

  /** Every non-empty id, in preorder. */
  function Ids(ns: seq<HNode>): seq<string>
    decreases ns
  {
    if ns == [] then [] else Ids(ns[..|ns| - 1]) + NodeIds(ns[|ns| - 1])
  }

  function NodeIds(n: HNode): seq<string>
    decreases n
  {
    match n
    case Element(_, _, id, kids) => (if id != "" then [id] else []) + Ids(kids)
    case Text(_) => []
  }

  /** Every non-empty tag name, in preorder. */
  function Tags(ns: seq<HNode>): seq<string>
    decreases ns
  {
    if ns == [] then [] else Tags(ns[..|ns| - 1]) + NodeTags(ns[|ns| - 1])
  }

  function NodeTags(n: HNode): seq<string>
    decreases n
  {
    match n
    case Element(tag, _, _, kids) => (if tag != "" then [tag] else []) + Tags(kids)
    case Text(_) => []
  }

  // ---------------------------------------------------------------------
  // Rewriting (renameHTMLNodes / renameHTMLElement)
  // ---------------------------------------------------------------------

  /** Every class token looked up in `classMap`, every non-empty id in
      `idMap`; names without an entry are kept. */
  function RenameTree(ns: seq<HNode>, classMap: map<string, string>, idMap: map<string, string>): seq<HNode>
    decreases ns
  {
    if ns == [] then []
    else RenameTree(ns[..|ns| - 1], classMap, idMap) + [RenameElement(ns[|ns| - 1], classMap, idMap)]
  }

  function RenameElement(n: HNode, classMap: map<string, string>, idMap: map<string, string>): HNode
    decreases n
  {
    match n
    case Element(tag, classes, id, kids) =>
      Element(tag, LookupNames(classes, classMap), if id != "" then LookupName(id, idMap) else id,
              RenameTree(kids, classMap, idMap))
    case Text(_) => n
  }

  /** The tree with class tokens and ids erased: what rewriting must keep. */
  function Shape(ns: seq<HNode>): seq<HNode>
    decreases ns
  {
    if ns == [] then [] else Shape(ns[..|ns| - 1]) + [NodeShape(ns[|ns| - 1])]
  }

  function NodeShape(n: HNode): HNode
    decreases n
  {
    match n
    case Element(tag, classes, id, kids) => Element(tag, seq(|classes|, _ => ""), if id != "" then "#" else "", Shape(kids))
    case Text(_) => n
  }

  lemma LookupNamesAppend(a: seq<string>, b: seq<string>, m: map<string, string>)
    ensures LookupNames(a + b, m) == LookupNames(a, m) + LookupNames(b, m)
  {
  }

  /** Rewriting maps the class tokens of the whole tree one by one, in
      order, through the class map. */
  lemma {:induction false} RenameClassTokens(ns: seq<HNode>, cm: map<string, string>, im: map<string, string>)
    ensures ClassTokens(RenameTree(ns, cm, im)) == LookupNames(ClassTokens(ns), cm)
    decreases ns
  {
    if ns != [] {
      var init, last := ns[..|ns| - 1], ns[|ns| - 1];
      RenameClassTokens(init, cm, im);
      RenameNodeClassTokens(last, cm, im);
      var r := RenameTree(ns, cm, im);
      assert r[..|r| - 1] == RenameTree(init, cm, im);
      LookupNamesAppend(ClassTokens(init), NodeClassTokens(last), cm);
    }
  }

  lemma {:induction false} RenameNodeClassTokens(n: HNode, cm: map<string, string>, im: map<string, string>)
    ensures NodeClassTokens(RenameElement(n, cm, im)) == LookupNames(NodeClassTokens(n), cm)
    decreases n
  {
    match n
    case Element(_, classes, _, kids) =>
      RenameClassTokens(kids, cm, im);
      LookupNamesAppend(classes, ClassTokens(kids), cm);
    case Text(_) =>
  }

  /** Rewriting maps the ids of the whole tree through the id map, provided
      no id is renamed to the empty string. */
  lemma {:induction false} RenameIds(ns: seq<HNode>, cm: map<string, string>, im: map<string, string>)
    requires forall x :: x in im ==> im[x] != ""
    ensures Ids(RenameTree(ns, cm, im)) == LookupNames(Ids(ns), im)
    decreases ns
  {
    if ns != [] {
      var init, last := ns[..|ns| - 1], ns[|ns| - 1];
      RenameIds(init, cm, im);
      RenameNodeIds(last, cm, im);
      var r := RenameTree(ns, cm, im);
      assert r[..|r| - 1] == RenameTree(init, cm, im);
      LookupNamesAppend(Ids(init), NodeIds(last), im);
    }
  }

  lemma {:induction false} RenameNodeIds(n: HNode, cm: map<string, string>, im: map<string, string>)
    requires forall x :: x in im ==> im[x] != ""
    ensures NodeIds(RenameElement(n, cm, im)) == LookupNames(NodeIds(n), im)
    decreases n
  {
    match n
    case Element(_, _, id, kids) =>
      RenameIds(kids, cm, im);
      LookupNamesAppend(if id != "" then [id] else [], Ids(kids), im);
    case Text(_) =>
  }

  /** Rewriting changes nothing but class tokens and ids: tags, text, the
      number of tokens per element, the presence of ids and the tree
      structure are kept. */
  lemma {:induction false} RenameKeepsShape(ns: seq<HNode>, cm: map<string, string>, im: map<string, string>)
    requires forall x :: x in im ==> im[x] != ""
    ensures Shape(RenameTree(ns, cm, im)) == Shape(ns)
    decreases ns
  {
    if ns != [] {
      var init, last := ns[..|ns| - 1], ns[|ns| - 1];
      RenameKeepsShape(init, cm, im);
      RenameNodeKeepsShape(last, cm, im);
      var r := RenameTree(ns, cm, im);
      assert r[..|r| - 1] == RenameTree(init, cm, im);
    }
  }

  lemma {:induction false} RenameNodeKeepsShape(n: HNode, cm: map<string, string>, im: map<string, string>)
    requires forall x :: x in im ==> im[x] != ""
    ensures NodeShape(RenameElement(n, cm, im)) == NodeShape(n)
    decreases n
  {
    match n
    case Element(_, classes, _, kids) =>
      RenameKeepsShape(kids, cm, im);
    case Text(_) =>
  }

  /** Tag names are never renamed. */
  lemma {:induction false} RenameKeepsTags(ns: seq<HNode>, cm: map<string, string>, im: map<string, string>)
    ensures Tags(RenameTree(ns, cm, im)) == Tags(ns)
    decreases ns
  {
    if ns != [] {
      var init, last := ns[..|ns| - 1], ns[|ns| - 1];
      RenameKeepsTags(init, cm, im);
      RenameNodeKeepsTags(last, cm, im);
      var r := RenameTree(ns, cm, im);
      assert r[..|r| - 1] == RenameTree(init, cm, im);
    }
  }

  lemma {:induction false} RenameNodeKeepsTags(n: HNode, cm: map<string, string>, im: map<string, string>)
    ensures NodeTags(RenameElement(n, cm, im)) == NodeTags(n)
    decreases n
  {
    match n
    case Element(_, _, _, kids) => RenameKeepsTags(kids, cm, im);
    case Text(_) =>
  }

  /** Two class maps that look up every class token of the tree alike
      rewrite it alike. */
  lemma {:induction false} RenameTreeAgrees(ns: seq<HNode>, m1: map<string, string>, m2: map<string, string>,
                                            im: map<string, string>)
    requires forall x :: x in ClassTokens(ns) ==> LookupName(x, m1) == LookupName(x, m2)
    ensures RenameTree(ns, m1, im) == RenameTree(ns, m2, im)
    decreases ns
  {
    if ns != [] {
      var init, last := ns[..|ns| - 1], ns[|ns| - 1];
      RenameTreeAgrees(init, m1, m2, im);
      RenameNodeAgrees(last, m1, m2, im);
    }
  }

  lemma {:induction false} RenameNodeAgrees(n: HNode, m1: map<string, string>, m2: map<string, string>,
                                            im: map<string, string>)
    requires forall x :: x in NodeClassTokens(n) ==> LookupName(x, m1) == LookupName(x, m2)
    ensures RenameElement(n, m1, im) == RenameElement(n, m2, im)
    decreases n
  {
    match n
    case Element(_, classes, _, kids) =>
      RenameTreeAgrees(kids, m1, m2, im);
      assert LookupNames(classes, m1) == LookupNames(classes, m2);
    case Text(_) =>
  }

  /** Rewriting with empty maps leaves the tree as it is. */
  lemma {:induction false} RenameByNothing(ns: seq<HNode>)
    ensures RenameTree(ns, map[], map[]) == ns
    decreases ns
  {
    if ns != [] {
      RenameByNothing(ns[..|ns| - 1]);
      RenameNodeByNothing(ns[|ns| - 1]);
      assert ns == ns[..|ns| - 1] + [ns[|ns| - 1]];
    }
  }

  lemma {:induction false} RenameNodeByNothing(n: HNode)
    ensures RenameElement(n, map[], map[]) == n
    decreases n
  {
    match n
    case Element(_, classes, _, kids) =>
      RenameByNothing(kids);
      assert LookupNames(classes, map[]) == classes;
    case Text(_) =>
  }
}
