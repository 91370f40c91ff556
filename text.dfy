/** String primitives the compiler relies on, stated with the semantics of the
    JavaScript built-ins it calls: the `\s` character class and `trim()`,
    `split(',')`, `split(/\r?\n/)`, `join(sep)`, ASCII `toLowerCase()` and the
    decimal rendering of line numbers inside template strings. */
module Text {

  /** JavaScript's `\s` class, which is also the set `trim()` removes:
      WhiteSpace and LineTerminator code points. */
  predicate IsSpace(c: char) {
    || c == '\t' || c == '\n' || c == '\U{B}' || c == '\U{C}' || c == '\r'
    || c == ' ' || c == '\U{A0}' || c == '\U{1680}'
    || ('\U{2000}' <= c <= '\U{200A}')
    || c == '\U{2028}' || c == '\U{2029}' || c == '\U{202F}' || c == '\U{205F}'
    || c == '\U{3000}' || c == '\U{FEFF}'
  }

  predicate AllSpace(s: string) {
    forall k :: 0 <= k < |s| ==> IsSpace(s[k])
  }

  /** A string `trim()` leaves unchanged. */
  predicate IsTrimmed(s: string) {
    s == [] || (!IsSpace(s[0]) && !IsSpace(s[|s| - 1]))
  }

  /** The end of the run of spaces that starts at `i`. */
  function SpaceRunEnd(s: string, i: nat): (j: nat)
    requires i <= |s|
    ensures i <= j <= |s|
    ensures forall k :: i <= k < j ==> IsSpace(s[k])
    ensures j == |s| || !IsSpace(s[j])
    decreases |s| - i
  {
    if i < |s| && IsSpace(s[i]) then SpaceRunEnd(s, i + 1) else i
  }

  /** The start of the run of spaces that ends at `j`. */
  function SpaceRunStart(s: string, j: nat): (i: nat)
    requires j <= |s|
    ensures i <= j
    ensures forall k :: i <= k < j ==> IsSpace(s[k])
    ensures i == 0 || !IsSpace(s[i - 1])
  {
    if j > 0 && IsSpace(s[j - 1]) then SpaceRunStart(s, j - 1) else j
  }

  /** A run of spaces ending at a non-space (or at the end) is the run
      `SpaceRunEnd` finds. */
  lemma {:induction false} SpaceRunEndUnique(s: string, i: nat, j: nat)
    requires i <= j <= |s|
    requires forall k :: i <= k < j ==> IsSpace(s[k])
    requires j == |s| || !IsSpace(s[j])
    ensures SpaceRunEnd(s, i) == j
    decreases j - i
  {
    if i < j {
      SpaceRunEndUnique(s, i + 1, j);
    }
  }

  lemma {:induction false} SpaceRunStartUnique(s: string, i: nat, j: nat)
    requires i <= j <= |s|
    requires forall k :: i <= k < j ==> IsSpace(s[k])
    requires i == 0 || !IsSpace(s[i - 1])
    ensures SpaceRunStart(s, j) == i
    decreases j - i
  {
    if i < j {
      SpaceRunStartUnique(s, i, j - 1);
    }
  }

  /** Removes the longest all-space prefix. */
  function TrimStart(s: string): (r: string)
    ensures r == [] || !IsSpace(r[0])
  {
    s[SpaceRunEnd(s, 0)..]
  }

  /** `String.prototype.trim`: the part of `s` between the longest all-space
      prefix and the longest all-space suffix. */
  function Trim(s: string): (r: string)
    ensures IsTrimmed(r)
    ensures |r| <= |s|
    ensures forall c :: c in r ==> c in s
  {
    var a := SpaceRunEnd(s, 0);
    if a == |s| then []
    else
      var b := SpaceRunStart(s, |s|);
      assert a < b;
      s[a..b]
  }

  /** What `trim` removes is exactly an all-space prefix and suffix. */
  lemma TrimIsInfix(s: string)
    ensures exists a :: 0 <= a <= |s| - |Trim(s)| && Trim(s) == s[a..a + |Trim(s)|]
                        && AllSpace(s[..a]) && AllSpace(s[a + |Trim(s)|..])
  {
    var a := SpaceRunEnd(s, 0);
    if a == |s| {
      assert AllSpace(s[..a]);
      assert Trim(s) == s[a..a];
    } else {
      var b := SpaceRunStart(s, |s|);
      assert AllSpace(s[..a]);
      assert AllSpace(s[b..]);
    }
  }

  /** `trim` yields the empty string exactly for all-space text. */
  lemma TrimEmpty(s: string)
    ensures Trim(s) == [] <==> AllSpace(s)
  {
    if SpaceRunEnd(s, 0) < |s| {
      assert !IsSpace(s[SpaceRunEnd(s, 0)]);
    }
  }

  lemma TrimmedIsFixpoint(s: string)
    requires IsTrimmed(s)
    ensures Trim(s) == s
  {
    if s == [] {
      assert SpaceRunEnd(s, 0) == 0;
    } else {
      SpaceRunEndUnique(s, 0, 0);
      SpaceRunStartUnique(s, |s|, |s|);
    }
  }

  /** `trim` removes exactly the padding around non-blank, trimmed text. */
  lemma TrimPadded(pre: string, s: string, post: string)
    requires AllSpace(pre) && AllSpace(post) && s != [] && IsTrimmed(s)
    ensures Trim(pre + s + post) == s
  {
    var t := pre + s + post;
    SpaceRunEndUnique(t, 0, |pre|);
    SpaceRunStartUnique(t, |pre| + |s|, |t|);
    assert t[|pre|..|pre| + |s|] == s;
  }

  /** ASCII-only `toLowerCase`. */
  function LowerChar(c: char): char {
    if 'A' <= c <= 'Z' then (c as int + 32) as char else c
  }

  function Lower(s: string): string {
    seq(|s|, k requires 0 <= k < |s| => LowerChar(s[k]))
  }

  /** ASCII-only `toUpperCase`. */
  function UpperChar(c: char): char {
    if 'a' <= c <= 'z' then (c as int - 32) as char else c
  }

  function Upper(s: string): string {
    seq(|s|, k requires 0 <= k < |s| => UpperChar(s[k]))
  }

  /** Lower-casing keeps the length, leaves no capital letter, turns each
      capital into its small letter and keeps every other character. */
  lemma LowerCases(s: string)
    ensures |Lower(s)| == |s|
    ensures forall k :: 0 <= k < |s| ==> !('A' <= Lower(s)[k] <= 'Z')
    ensures forall k :: 0 <= k < |s| && 'A' <= s[k] <= 'Z' ==>
              'a' <= Lower(s)[k] <= 'z' && Lower(s)[k] as int == s[k] as int + 32
    ensures forall k :: 0 <= k < |s| && !('A' <= s[k] <= 'Z') ==> Lower(s)[k] == s[k]
  {
  }

  /** Upper-casing keeps the length, leaves no small letter, turns each
      small letter into its capital and keeps every other character. */
  lemma UpperCases(s: string)
    ensures |Upper(s)| == |s|
    ensures forall k :: 0 <= k < |s| ==> !('a' <= Upper(s)[k] <= 'z')
    ensures forall k :: 0 <= k < |s| && 'a' <= s[k] <= 'z' ==>
              'A' <= Upper(s)[k] <= 'Z' && Upper(s)[k] as int == s[k] as int - 32
    ensures forall k :: 0 <= k < |s| && !('a' <= s[k] <= 'z') ==> Upper(s)[k] == s[k]
  {
  }

  /** Lower-casing twice is lower-casing once. */
  lemma LowerIdempotent(s: string)
    ensures Lower(Lower(s)) == Lower(s)
  {
    var l := Lower(s);
    assert forall k :: 0 <= k < |l| ==> Lower(l)[k] == l[k];
  }

  /** Upper-casing first does not change the lower-cased string: the two
      cases of a letter compare equal. */
  lemma LowerOfUpper(s: string)
    ensures Lower(Upper(s)) == Lower(s)
  {
    var u := Upper(s);
    forall k | 0 <= k < |s|
      ensures Lower(u)[k] == Lower(s)[k]
    {
      if 'a' <= s[k] <= 'z' {
        assert Lower(u)[k] as int == s[k] as int;
      }
    }
  }

  /** Lower-casing first does not change the upper-cased string. */
  lemma UpperOfLower(s: string)
    ensures Upper(Lower(s)) == Upper(s)
  {
    var l := Lower(s);
    forall k | 0 <= k < |s|
      ensures Upper(l)[k] == Upper(s)[k]
    {
      if 'A' <= s[k] <= 'Z' {
        assert Upper(l)[k] as int == s[k] as int;
      }
    }
  }

  /** `xs.join(sep)`; the empty list joins to the empty string. */
  function Join(xs: seq<string>, sep: string): string
  {
    if |xs| == 0 then []
    else if |xs| == 1 then xs[0]
    else xs[0] + sep + Join(xs[1..], sep)
  }

  lemma JoinPrepend(c: char, xs: seq<string>, sep: string)
    requires |xs| >= 1
    ensures Join([[c] + xs[0]] + xs[1..], sep) == [c] + Join(xs, sep)
  {
    var ys := [[c] + xs[0]] + xs[1..];
    assert ys[1..] == xs[1..];
  }

  lemma JoinAvoids(xs: seq<string>, sep: string, c: char)
    requires c !in sep
    requires forall k :: 0 <= k < |xs| ==> c !in xs[k]
    ensures c !in Join(xs, sep)
  {
    if |xs| > 1 {
      JoinAvoids(xs[1..], sep, c);
    }
  }

  /** `s.split(c)` for a one-character separator: the pieces between the
      occurrences of `c`. There is always at least one piece. */
  function Split(s: string, c: char): (r: seq<string>)
    ensures |r| >= 1
    ensures forall k :: 0 <= k < |r| ==> c !in r[k]
    ensures Join(r, [c]) == s
  {
    if s == [] then [[]]
    else
      var rest := Split(s[1..], c);
      if s[0] == c then
        assert [c] + Join(rest, [c]) == s;
        [[]] + rest
      else
        JoinPrepend(s[0], rest, [c]);
        assert [s[0]] + s[1..] == s;
        [[s[0]] + rest[0]] + rest[1..]
  }

  /** Splitting is the inverse of joining: the only sequence of separator-free
      pieces that joins to `s` is `Split(s, c)`. */
  lemma {:induction false} SplitUnique(s: string, c: char, xs: seq<string>)
    requires |xs| >= 1
    requires forall k :: 0 <= k < |xs| ==> c !in xs[k]
    requires Join(xs, [c]) == s
    ensures Split(s, c) == xs
    decreases |s|
  {
    if s == [] {
      if |xs| > 1 {
        assert false;
      }
    } else if s[0] == c {
      if xs[0] != [] {
        assert false;
      }
      if |xs| == 1 {
        assert false;
      }
      assert s[1..] == Join(xs[1..], [c]);
      SplitUnique(s[1..], c, xs[1..]);
    } else {
      if xs[0] == [] {
        assert false;
      }
      var ys := [xs[0][1..]] + xs[1..];
      assert [xs[0][0]] + ys[0] == xs[0];
      JoinPrepend(xs[0][0], ys, [c]);
      assert [[xs[0][0]] + ys[0]] + ys[1..] == xs;
      assert s == [xs[0][0]] + Join(ys, [c]);
      assert s[1..] == Join(ys, [c]);
      forall k | 0 <= k < |ys|
        ensures c !in ys[k]
      {
        if k == 0 {
          assert forall x :: x in ys[0] ==> x in xs[0];
        } else {
          assert ys[k] == xs[k];
        }
      }
      SplitUnique(s[1..], c, ys);
    }
  }

  lemma SplitJoin(xs: seq<string>, c: char)
    requires |xs| >= 1
    requires forall k :: 0 <= k < |xs| ==> c !in xs[k]
    ensures Split(Join(xs, [c]), c) == xs
  {
    SplitUnique(Join(xs, [c]), c, xs);
  }

  lemma SplitAvoids(s: string, c: char, d: char)
    requires d !in s
    ensures forall k :: 0 <= k < |Split(s, c)| ==> d !in Split(s, c)[k]
  {
    var r := Split(s, c);
    forall k | 0 <= k < |r|
      ensures d !in r[k]
    {
      JoinContains(r, [c], k);
    }
  }

  lemma {:induction false} JoinContains(xs: seq<string>, sep: string, k: int)
    requires 0 <= k < |xs|
    ensures forall x :: x in xs[k] ==> x in Join(xs, sep)
  {
    if |xs| > 1 && k > 0 {
      JoinContains(xs[1..], sep, k - 1);
    }
  }

  /** The text with every `\r\n` pair replaced by `\n`. */
  function DropCrBeforeLf(s: string): string
  {
    if s == [] then []
    else if |s| >= 2 && s[0] == '\r' && s[1] == '\n' then "\n" + DropCrBeforeLf(s[2..])
    else [s[0]] + DropCrBeforeLf(s[1..])
  }

  /** `s.split(/\r?\n/)`: the lines of `s`, cut at every `\n`, where a `\r`
      directly before a `\n` belongs to the line break. */
  function SplitLines(s: string): (r: seq<string>)
    ensures |r| >= 1
    ensures forall k :: 0 <= k < |r| ==> '\n' !in r[k]
    ensures Join(r, "\n") == DropCrBeforeLf(s)
  {
    if s == [] then [[]]
    else if |s| >= 2 && s[0] == '\r' && s[1] == '\n' then [[]] + SplitLines(s[2..])
    else if s[0] == '\n' then [[]] + SplitLines(s[1..])
    else
      var rest := SplitLines(s[1..]);
      JoinPrepend(s[0], rest, "\n");
      [[s[0]] + rest[0]] + rest[1..]
  }

  /** The lines are exactly the `\n`-pieces of the text once `\r\n` is
      normalised to `\n`. */
  lemma LinesAreNormalisedPieces(s: string)
    ensures SplitLines(s) == Split(DropCrBeforeLf(s), '\n')
  {
    SplitUnique(DropCrBeforeLf(s), '\n', SplitLines(s));
  }

  predicate IsDigit(c: char) {
    '0' <= c <= '9'
  }

  function DigitChar(d: nat): char
    requires d < 10
  {
    ('0' as int + d) as char
  }

  /** The number a string of decimal digits denotes. */
  function DigitsValue(ds: string): nat
    requires forall k :: 0 <= k < |ds| ==> IsDigit(ds[k])
  {
    if ds == [] then 0
    else
      assert IsDigit(ds[|ds| - 1]);
      DigitsValue(ds[..|ds| - 1]) * 10 + (ds[|ds| - 1] as int - '0' as int)
  }

  /** The decimal text a template string `${n}` shows for a natural number. */
  function Decimal(n: nat): (r: string)
    ensures |r| >= 1
    ensures forall k :: 0 <= k < |r| ==> IsDigit(r[k])
    ensures DigitsValue(r) == n
  {
    if n < 10 then [DigitChar(n)]
    else
      var r := Decimal(n / 10) + [DigitChar(n % 10)];
      assert r[..|r| - 1] == Decimal(n / 10);
      r
  }

  /** The maximal run of digits at the front of `s`. */
  function LeadingDigits(s: string): (r: string)
    ensures forall k :: 0 <= k < |r| ==> IsDigit(r[k])
  {
    if s != [] && IsDigit(s[0]) then [s[0]] + LeadingDigits(s[1..]) else []
  }

  lemma {:induction false} LeadingDigitsOf(ds: string, rest: string)
    requires forall k :: 0 <= k < |ds| ==> IsDigit(ds[k])
    requires rest == [] || !IsDigit(rest[0])
    ensures LeadingDigits(ds + rest) == ds
  {
    if ds != [] {
      assert (ds + rest)[1..] == ds[1..] + rest;
      LeadingDigitsOf(ds[1..], rest);
    } else {
      assert ds + rest == rest;
    }
  }
}
