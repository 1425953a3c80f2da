/** Identifier utilities shared by the three ripper generations: the short-name
    allocator (`generateShortestName`, identical in rip.ts, styleripper.ts and
    styleripper.js) and `cleanCSSIdentifier`. */
module Names {

  /** The i-th lower-case letter: `String.fromCharCode(97 + i)`. */
  function Letter(i: nat): (c: char)
    requires i < 26
    ensures 'a' <= c <= 'z'
  {
    (97 + i) as char
  }

  function Digit(d: nat): (c: char)
    requires d < 10
    ensures '0' <= c <= '9'
  {
    (48 + d) as char
  }

  /** JavaScript's number-to-string conversion for a non-negative integer. */
  function Decimal(n: nat): (s: string)
    ensures |s| >= 1
    ensures forall k :: 0 <= k < |s| ==> '0' <= s[k] <= '9'
  {
    if n < 10 then [Digit(n)] else Decimal(n / 10) + [Digit(n % 10)]
  }

  /** The name generateShortestName(i) returns: a letter for the first 26
      indices, then a letter followed by the decimal of the overflow count
      minus one (26 -> "a0", 27 -> "b0", 52 -> "a1"). */
  function ShortName(i: nat): (s: string)
  {
    if i < 26 then [Letter(i)] else [Letter(i % 26)] + Decimal(i / 26 - 1)
  }

  /** The source's loop: subtract 26 until the index fits the alphabet,
      counting how many times it overflowed. */
  method GenerateShortestName(idx: nat) returns (name: string)
    ensures name == ShortName(idx)
    ensures 'a' <= name[0] <= 'z'
  {
    var ascii := seq(26, c requires 0 <= c < 26 => (97 + c) as char);
    var i: nat := idx;
    var timesOver: nat := 0;
    while i >= |ascii|
      invariant idx == timesOver * 26 + i
    {
      timesOver := timesOver + 1;
      i := i - |ascii|;
    }
    DivModUnique(idx, timesOver, i);
    if timesOver != 0 {
      name := [ascii[i]] + Decimal(timesOver - 1);
    } else {
      name := [ascii[i]];
    }
  }

  lemma DivModUnique(n: nat, q: nat, r: nat)
    requires n == q * 26 + r && r < 26
    ensures n / 26 == q && n % 26 == r
  {
  }

  lemma {:induction false} DecimalInjective(a: nat, b: nat)
    requires Decimal(a) == Decimal(b)
    ensures a == b
  {
    if a >= 10 && b >= 10 {
      var sa, sb := Decimal(a), Decimal(b);
      assert sa[|sa| - 1] == sb[|sb| - 1];
      assert sa[..|sa| - 1] == Decimal(a / 10);
      assert sb[..|sb| - 1] == Decimal(b / 10);
      DecimalInjective(a / 10, b / 10);
    }
  }

  lemma {:induction false} DecimalLengthMonotone(a: nat, b: nat)
    requires a <= b
    ensures |Decimal(a)| <= |Decimal(b)|
  {
    if a >= 10 {
      DecimalLengthMonotone(a / 10, b / 10);
    }
  }

  /** Collision-freedom of the allocator: distinct ranks get distinct names. */
  lemma ShortNameInjective(i: nat, j: nat)
    requires i != j
    ensures ShortName(i) != ShortName(j)
  {
    if i >= 26 && j >= 26 && ShortName(i) == ShortName(j) {
      assert ShortName(i)[0] == ShortName(j)[0];
      assert i % 26 == j % 26;
      assert ShortName(i)[1..] == Decimal(i / 26 - 1);
      assert ShortName(j)[1..] == Decimal(j / 26 - 1);
      DecimalInjective(i / 26 - 1, j / 26 - 1);
    }
  }

  /** A later rank never gets a shorter name than an earlier one. */
  lemma ShortNameLengthMonotone(i: nat, j: nat)
    requires i <= j
    ensures 1 <= |ShortName(i)| <= |ShortName(j)|
  {
    if i >= 26 {
      DecimalLengthMonotone(i / 26 - 1, j / 26 - 1);
    }
  }

  /** Every generated name starts with a letter and continues with digits. */
  lemma ShortNameAlphabet(i: nat)
    ensures |ShortName(i)| >= 1 && 'a' <= ShortName(i)[0] <= 'z'
    ensures forall k :: 1 <= k < |ShortName(i)| ==> '0' <= ShortName(i)[k] <= '9'
    ensures i < 26 <==> |ShortName(i)| == 1
  {
  }

  /** `cleanCSSIdentifier`: `n.replace(/\\/g, '')` removes every backslash. */
  function Clean(s: string): (r: string)
    ensures '\\' !in r
    ensures forall c :: c != '\\' ==> multiset(r)[c] == multiset(s)[c]
  {
    if s == [] then []
    else
      assert s == [s[0]] + s[1..];
      if s[0] == '\\' then Clean(s[1..]) else [s[0]] + Clean(s[1..])
  }

  /** Cleaning changes a name exactly when it holds a backslash. */
  lemma {:induction false} CleanFixesPlainNames(s: string)
    ensures Clean(s) == s <==> '\\' !in s
  {
    if s != [] {
      CleanFixesPlainNames(s[1..]);
      if s[0] == '\\' {
        assert |Clean(s)| <= |s[1..]| by { CleanShrinks(s[1..]); }
      }
    }
  }

  /** Cleaning one character drops it exactly when it is a backslash. */
  lemma CleanChar(c: char)
    ensures Clean([c]) == if c == '\\' then [] else [c]
  {
    assert [c][1..] == [];
  }

  /** Cleaning works piece by piece and keeps the order of what it keeps:
      the pieces of a name are cleaned separately and joined. */
  lemma {:induction false} CleanAppend(a: string, b: string)
    ensures Clean(a + b) == Clean(a) + Clean(b)
  {
    if a != [] {
      assert (a + b)[0] == a[0] && (a + b)[1..] == a[1..] + b;
      CleanAppend(a[1..], b);
      if a[0] != '\\' {
        assert [a[0]] + (Clean(a[1..]) + Clean(b)) == ([a[0]] + Clean(a[1..])) + Clean(b);
      }
    } else {
      assert a + b == b;
    }
  }

  /** An escaped utility class loses only its backslash: `md\:flex` is
      looked up as `md:flex`. */
  lemma CleanEscapedName()
    ensures Clean("md\\:flex") == "md:flex"
  {
    var pre, bs, post := "md", "\\", ":flex";
    assert "md\\:flex" == pre + (bs + post);
    CleanAppend(pre, bs + post);
    CleanAppend(bs, post);
    CleanChar('\\');
    CleanFixesPlainNames(pre);
    CleanFixesPlainNames(post);
  }

  lemma {:induction false} CleanShrinks(s: string)
    ensures |Clean(s)| <= |s|
  {
    if s != [] {
      CleanShrinks(s[1..]);
    }
  }

  /** Generated names survive `cleanCSSIdentifier` unchanged, so a renamed
      node is found again under its new name by a later walk. */
  lemma CleanShortName(i: nat)
    ensures Clean(ShortName(i)) == ShortName(i)
  {
    ShortNameAlphabet(i);
    CleanFixesPlainNames(ShortName(i));
  }
}
