/** The occurrence tables as the ripper keeps them: one object whose tables
    the HTML walk and the CSS recount increment in place. rip.ts keeps
    tables for class names, ids and tag names; styleripper.ts and
    styleripper.js use the class-name table only. */
module Tracking {
  import opened Base
  import opened Names
  import opened Occurrence
  import opened Css
  import opened Html

  /** Whether every name of `names` already has an entry: what the checked
      recount of styleripper.ts and styleripper.js needs to avoid its
      `throw`. */
  predicate AllCounted(t: Table, names: seq<string>)
  {
    forall i :: 0 <= i < |names| ==> names[i] in t.count
  }

  lemma AllCountedAppend(t: Table, a: seq<string>, b: seq<string>)
    ensures AllCounted(t, a + b) <==> AllCounted(t, a) && AllCounted(t, b)
  {
    if AllCounted(t, a + b) {
      forall i | 0 <= i < |a| ensures a[i] in t.count {
        assert (a + b)[i] == a[i];
      }
      forall i | 0 <= i < |b| ensures b[i] in t.count {
        assert (a + b)[|a| + i] == b[i];
      }
    }
  }

  const UnusedClassError := "encountered unused class selector when it should have been removed"

  /** The checked class recount of styleripper.ts and styleripper.js as a
      value: the first name without an entry throws; otherwise every name
      adds one to its entry. */
  function CheckedRecount(t: Table, names: seq<string>): (r: Result<Table>)
    ensures r.Ok? <==> AllCounted(t, names)
    ensures r.Ok? ==> r.value == BumpExistingAll(t, names)
    ensures r.Err? ==> r.msg == UnusedClassError
  {
    if names == [] then Ok(t)
    else
      var init, last := names[..|names| - 1], names[|names| - 1];
      match CheckedRecount(t, init)
      case Err(m) => Err(m)
      case Ok(u) =>
        BumpExistingAllSpec(t, init);
        if last in u.count then Ok(BumpExisting(u, last)) else Err(UnusedClassError)
  }

  /** Recounting names that all have an entry in the HTML tally never
      throws: the keys stay the HTML tokens and each count becomes the
      token's occurrences in the HTML plus its occurrences in `names`. */
  lemma CheckedRecountTally(tokens: seq<string>, names: seq<string>)
    requires forall x :: x in names ==> x in Tally(tokens).count
    ensures CheckedRecount(Tally(tokens), names).Ok?
    ensures Valid(CheckedRecount(Tally(tokens), names).value)
    ensures forall x :: x in CheckedRecount(Tally(tokens), names).value.count <==> x in tokens
    ensures forall x :: Count(CheckedRecount(Tally(tokens), names).value, x) == multiset(tokens)[x] + multiset(names)[x]
  {
    var h := Tally(tokens);
    TallyCounts(tokens);
    BumpExistingAllSpec(h, names);
    forall x | x !in h.count ensures multiset(names)[x] == 0 {
      assert x !in names;
    }
  }

  /** The names of one more file, and what counting them needs. */
  lemma CountedStep(h: Table, all: seq<Stylesheet>, i: nat)
    requires i < |all|
    ensures all[..i + 1] == all[..i] + [all[i]]
    ensures SheetsNames(all[..i + 1], ClassKind) == SheetsNames(all[..i], ClassKind) + SheetNames(all[i], ClassKind)
    ensures AllCounted(h, SheetsNames(all[..i + 1], ClassKind)) <==>
      AllCounted(h, SheetsNames(all[..i], ClassKind)) && AllCounted(h, SheetNames(all[i], ClassKind))
  {
    assert all[..i + 1][..i] == all[..i];
    AllCountedAppend(h, SheetsNames(all[..i], ClassKind), SheetNames(all[i], ClassKind));
  }

  /** A name without an entry in some files is one in all of them. */
  lemma CountedPrefix(h: Table, all: seq<Stylesheet>, k: nat)
    requires k <= |all|
    ensures AllCounted(h, SheetsNames(all, ClassKind)) ==> AllCounted(h, SheetsNames(all[..k], ClassKind))
  {
    assert all == all[..k] + all[k..];
    SheetsNamesAppend(all[..k], all[k..], ClassKind);
    AllCountedAppend(h, SheetsNames(all[..k], ClassKind), SheetsNames(all[k..], ClassKind));
  }

  /** A table with the same keys and the same entries as a well-formed one
      is well formed. */
  lemma SameEntriesValid(t: Table, u: Table)
    requires Valid(t) && u.keys == t.keys && u.count.Keys == t.count.Keys
    ensures Valid(u)
  {
  }

  /** The loop of the checked recount on one table: each name in turn adds
      one to its entry, and the first name without one stops the loop with
      `ok` false. The entries never change. */
  method CheckedBumps(t: Table, names: seq<string>) returns (u: Table, ok: bool)
    ensures u.keys == t.keys && u.count.Keys == t.count.Keys
    ensures ok <==> AllCounted(t, names)
    ensures ok ==> u == BumpExistingAll(t, names)
  {
    u, ok := t, true;
    var i := 0;
    while i < |names|
      invariant 0 <= i <= |names|
      invariant u == BumpExistingAll(t, names[..i])
      invariant u.keys == t.keys && u.count.Keys == t.count.Keys
      invariant AllCounted(t, names[..i])
    {
      assert names[..i + 1][..i] == names[..i];
      if names[i] !in u.count {
        ok := false;
        return;
      }
      u := u.(count := u.count[names[i] := u.count[names[i]] + 1]);
      i := i + 1;
    }
    assert names[..i] == names;
  }

  class Occurrences {
    var classnames: Table
    var ids: Table
    var typenames: Table

    ghost predicate Valid()
      reads this
    {
      Occurrence.Valid(classnames) && Occurrence.Valid(ids) && Occurrence.Valid(typenames)
    }

    /** `{ classnames: {}, typenames: {}, ids: {} }`. */
    constructor ()
      ensures classnames == Empty && ids == Empty && typenames == Empty
      ensures Valid()
    {
      classnames, ids, typenames := Empty, Empty, Empty;
    }

    /** `for (const className of el.classNames)`: a new name enters with 1,
        a known one is incremented. */
    method CountClasses(classes: seq<string>)
      requires Valid()
      modifies this
      ensures Valid()
      ensures classnames == BumpAll(old(classnames), classes)
      ensures ids == old(ids) && typenames == old(typenames)
    {
      for i := 0 to |classes|
        invariant classnames == BumpAll(old(classnames), classes[..i])
        invariant ids == old(ids) && typenames == old(typenames)
      {
        assert classes[..i + 1][..i] == classes[..i];
        var c := classes[i];
        if c in classnames.count {
          classnames := classnames.(count := classnames.count[c := classnames.count[c] + 1]);
        } else {
          classnames := Table(classnames.keys + [c], classnames.count[c := 1]);
        }
      }
      WholeSlice(classes);
      BumpAllSpec(old(classnames), classes);
    }

    /** `parseHTMLElement` of rip.ts: the element's class tokens, its id when
        it has one, and its tag name when it has one. */
    method CountElement(classes: seq<string>, id: string, tag: string)
      requires Valid()
      modifies this
      ensures Valid()
      ensures classnames == BumpAll(old(classnames), classes)
      ensures ids == if id != "" then Bump(old(ids), id) else old(ids)
      ensures typenames == if tag != "" then Bump(old(typenames), tag) else old(typenames)
    {
      CountClasses(classes);
      var nextIds, nextTags := ids, typenames;
      if id != "" {
        if id in nextIds.count {
          nextIds := nextIds.(count := nextIds.count[id := nextIds.count[id] + 1]);
        } else {
          nextIds := Table(nextIds.keys + [id], nextIds.count[id := 1]);
        }
      }
      if tag != "" {
        if tag in nextTags.count {
          nextTags := nextTags.(count := nextTags.count[tag := nextTags.count[tag] + 1]);
        } else {
          nextTags := Table(nextTags.keys + [tag], nextTags.count[tag := 1]);
        }
      }
      BumpSpec(ids, id);
      BumpSpec(typenames, tag);
      ids, typenames := nextIds, nextTags;
    }

    /** Counting one more child continues the counts of the children before it. */
    lemma ChildStep(c0: Table, i0: Table, t0: Table, kids: seq<HNode>, k: nat)
      requires k < |kids|
      ensures BumpAll(c0, ClassTokens(kids[..k + 1])) == BumpAll(BumpAll(c0, ClassTokens(kids[..k])), NodeClassTokens(kids[k]))
      ensures BumpAll(i0, Ids(kids[..k + 1])) == BumpAll(BumpAll(i0, Ids(kids[..k])), NodeIds(kids[k]))
      ensures BumpAll(t0, Tags(kids[..k + 1])) == BumpAll(BumpAll(t0, Tags(kids[..k])), NodeTags(kids[k]))
    {
      assert kids[..k + 1][..k] == kids[..k];
      BumpAllAppend(c0, ClassTokens(kids[..k]), NodeClassTokens(kids[k]));
      BumpAllAppend(i0, Ids(kids[..k]), NodeIds(kids[k]));
      BumpAllAppend(t0, Tags(kids[..k]), NodeTags(kids[k]));
    }

    /** `parseHTMLNodeChildren` of rip.ts: the node itself, then each child
        in turn, at every depth. Text nodes hold nothing to count. */
    method CountTree(n: HNode)
      requires Valid()
      modifies this
      ensures Valid()
      ensures classnames == BumpAll(old(classnames), NodeClassTokens(n))
      ensures ids == BumpAll(old(ids), NodeIds(n))
      ensures typenames == BumpAll(old(typenames), NodeTags(n))
      decreases n
    {
      match n
      case Text(_) =>
      case Element(tag, classes, id, kids) =>
        CountElement(classes, id, tag);
        ghost var c0, i0, t0 := classnames, ids, typenames;
        for k := 0 to |kids|
          invariant classnames == BumpAll(c0, ClassTokens(kids[..k]))
          invariant ids == BumpAll(i0, Ids(kids[..k]))
          invariant typenames == BumpAll(t0, Tags(kids[..k]))
          invariant Valid()
        {
          ChildStep(c0, i0, t0, kids, k);
          CountTree(kids[k]);
        }
        WholeSlice(kids);
        BumpAllAppend(old(classnames), classes, ClassTokens(kids));
        BumpAllAppend(old(ids), if id != "" then [id] else [], Ids(kids));
        BumpAllAppend(old(typenames), if tag != "" then [tag] else [], Tags(kids));
    }

    /** `parseHTMLNodeChildren` of styleripper.ts and styleripper.js: class
        tokens only, at every depth. */
    method CountClassTree(n: HNode)
      requires Valid()
      modifies this
      ensures Valid()
      ensures classnames == BumpAll(old(classnames), NodeClassTokens(n))
      ensures ids == old(ids) && typenames == old(typenames)
      decreases n
    {
      match n
      case Text(_) =>
      case Element(_, classes, _, kids) =>
        CountClasses(classes);
        ghost var c0 := classnames;
        for k := 0 to |kids|
          invariant classnames == BumpAll(c0, ClassTokens(kids[..k]))
          invariant ids == old(ids) && typenames == old(typenames)
          invariant Valid()
        {
          assert kids[..k + 1][..k] == kids[..k];
          CountClassTree(kids[k]);
          BumpAllAppend(c0, ClassTokens(kids[..k]), NodeClassTokens(kids[k]));
        }
        WholeSlice(kids);
        BumpAllAppend(old(classnames), classes, ClassTokens(kids));
    }

    /** `processCSSNodes` of rip.ts: every class and id selector of the sheet
        whose cleaned name has an entry adds one to it; nothing else changes. */
    method Recount(sheet: Stylesheet)
      requires Valid()
      modifies this
      ensures Valid()
      ensures classnames == BumpExistingAll(old(classnames), SheetNames(sheet, ClassKind))
      ensures ids == BumpExistingAll(old(ids), SheetNames(sheet, IdKind))
      ensures typenames == old(typenames)
    {
      var cs := SheetNames(sheet, ClassKind);
      for i := 0 to |cs|
        invariant classnames == BumpExistingAll(old(classnames), cs[..i])
        invariant ids == old(ids) && typenames == old(typenames)
      {
        assert cs[..i + 1][..i] == cs[..i];
        if cs[i] in classnames.count {
          classnames := classnames.(count := classnames.count[cs[i] := classnames.count[cs[i]] + 1]);
        }
      }
      WholeSlice(cs);
      var ds := SheetNames(sheet, IdKind);
      for i := 0 to |ds|
        invariant ids == BumpExistingAll(old(ids), ds[..i])
        invariant classnames == BumpExistingAll(old(classnames), cs)
        invariant typenames == old(typenames)
      {
        assert ds[..i + 1][..i] == ds[..i];
        if ds[i] in ids.count {
          ids := ids.(count := ids.count[ds[i] := ids.count[ds[i]] + 1]);
        }
      }
      WholeSlice(ds);
      BumpExistingAllSpec(old(classnames), cs);
      BumpExistingAllSpec(old(ids), ds);
    }

    /** The class recount of styleripper.ts and styleripper.js: a class
        selector without an entry throws; `ok` is false exactly then, and
        otherwise every class selector added one to its entry. */
    method RecountClassesChecked(sheet: Stylesheet) returns (ok: bool)
      requires Valid()
      modifies this
      ensures Valid()
      ensures ok <==> AllCounted(old(classnames), SheetNames(sheet, ClassKind))
      ensures ok ==> classnames == BumpExistingAll(old(classnames), SheetNames(sheet, ClassKind))
      ensures ids == old(ids) && typenames == old(typenames)
    {
      var table;
      table, ok := CheckedBumps(classnames, SheetNames(sheet, ClassKind));
      SameEntriesValid(classnames, table);
      classnames := table;
    }
  }
}
