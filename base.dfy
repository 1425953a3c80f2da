/** Values shared by every part of the model: optional values, results of
    operations that can throw, the `File` record of fs.ts, and JavaScript's
    `String.prototype.replace` with a string pattern. */
module Base {

  datatype Option<T> = None | Some(value: T)

  /** The outcome of an operation whose source can `throw new Error(msg)`. */
  datatype Result<T> = Ok(value: T) | Err(msg: string)

  /** `{ path, data }` as read from or written to disk. */
  datatype File = File(path: string, data: string)

  /** Whether `pat` occurs in `s` starting at position `k`. */
  predicate OccursAt(s: string, pat: string, k: nat)
  {
    k + |pat| <= |s| && s[k..k + |pat|] == pat
  }

  /** `s.indexOf(pat, from)`: the first position at or after `from` where
      `pat` occurs. */
  function IndexOf(s: string, pat: string, from: nat): Option<nat>
    decreases |s| - from
  {
    if from + |pat| > |s| then None
    else if s[from..from + |pat|] == pat then Some(from)
    else IndexOf(s, pat, from + 1)
  }

  /** The position found is the first occurrence at or after `from`; none is
      found exactly when there is no occurrence there. */
  lemma {:induction false} IndexOfSpec(s: string, pat: string, from: nat)
    ensures var r := IndexOf(s, pat, from);
            (r.Some? ==> from <= r.value && OccursAt(s, pat, r.value)
                         && forall k: nat :: from <= k < r.value ==> !OccursAt(s, pat, k))
            && (r.None? ==> forall k: nat :: from <= k ==> !OccursAt(s, pat, k))
    decreases |s| - from
  {
    if from + |pat| <= |s| && s[from..from + |pat|] != pat {
      IndexOfSpec(s, pat, from + 1);
    }
  }

  /** `s.replace(pat, rep)` for a string `pat`: only the first occurrence is
      replaced; with no occurrence the string is returned unchanged. */
  function ReplaceFirst(s: string, pat: string, rep: string): (r: string)
  {
    IndexOfSpec(s, pat, 0);
    match IndexOf(s, pat, 0)
    case None => s
    case Some(k) => s[..k] + rep + s[k + |pat|..]
  }

  /** What `replace` promises: the text before the first occurrence and the
      text after it are kept, the occurrence becomes `rep`, and a string
      without `pat` is left alone. */
  lemma ReplaceFirstSpec(s: string, pat: string, rep: string)
    ensures (forall k: nat :: !OccursAt(s, pat, k)) ==> ReplaceFirst(s, pat, rep) == s
    ensures forall k: nat :: OccursAt(s, pat, k) && (forall j: nat :: j < k ==> !OccursAt(s, pat, j)) ==>
      ReplaceFirst(s, pat, rep) == s[..k] + rep + s[k + |pat|..]
  {
    if forall k: nat :: !OccursAt(s, pat, k) {
      IndexOfSpec(s, pat, 0);
    }
    forall k: nat | OccursAt(s, pat, k) && (forall j: nat :: j < k ==> !OccursAt(s, pat, j))
      ensures ReplaceFirst(s, pat, rep) == s[..k] + rep + s[k + |pat|..]
    {
      ReplaceFirstAt(s, pat, rep, k);
    }
  }

  /** The replacement at the first occurrence `k`. */
  lemma ReplaceFirstAt(s: string, pat: string, rep: string, k: nat)
    requires OccursAt(s, pat, k) && forall j: nat :: j < k ==> !OccursAt(s, pat, j)
    ensures ReplaceFirst(s, pat, rep) == s[..k] + rep + s[k + |pat|..]
  {
    IndexOfSpec(s, pat, 0);
    var r := IndexOf(s, pat, 0);
    if r.None? {
      assert false;
    }
    FirstOccurrenceUnique(s, pat, k, r.value);
    assert ReplaceFirst(s, pat, rep) == s[..r.value] + rep + s[r.value + |pat|..];
  }

  lemma FirstOccurrenceUnique(s: string, pat: string, a: nat, b: nat)
    requires OccursAt(s, pat, a) && forall j: nat :: j < a ==> !OccursAt(s, pat, j)
    requires OccursAt(s, pat, b) && forall j: nat :: j < b ==> !OccursAt(s, pat, j)
    ensures a == b
  {
  }

  /** The slice up to the length is the whole sequence. */
  lemma WholeSlice<T>(s: seq<T>)
    ensures s[..|s|] == s
  {
  }

  /** `list.reduce((acc, x) => x + acc, '')`: each item is put in front of
      what the earlier items built. */
  function ConcatReversed(parts: seq<string>): string
  {
    if parts == [] then "" else parts[|parts| - 1] + ConcatReversed(parts[..|parts| - 1])
  }

  function Reverse<T>(s: seq<T>): (r: seq<T>)
    ensures |r| == |s|
    ensures forall i :: 0 <= i < |s| ==> r[i] == s[|s| - 1 - i]
  {
    if s == [] then [] else [s[|s| - 1]] + Reverse(s[..|s| - 1])
  }

  /** Plain concatenation, first item first. */
  function Join(parts: seq<string>): string
  {
    if parts == [] then "" else parts[0] + Join(parts[1..])
  }

  /** The fold concatenates the items in reverse order, and gives the empty
      string for no items. */
  lemma {:induction false} ConcatReversedSpec(parts: seq<string>)
    ensures ConcatReversed(parts) == Join(Reverse(parts))
  {
    if parts != [] {
      ConcatReversedSpec(parts[..|parts| - 1]);
      var r := Reverse(parts);
      assert r[1..] == Reverse(parts[..|parts| - 1]);
    }
  }
}
