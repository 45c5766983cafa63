/**
 * The pieces of Python's `str` that the dependency generator relies on: the
 * ordering `<`, `sorted(set(...))`, `strip()`, `lower()` as far as loader
 * names are concerned, character removal, `join` and `str(int)`.
 */
module Text {

  // ---------------------------------------------------------------------------
  // Ordering: Python compares strings lexicographically by code point, and a
  // proper prefix is smaller. (Dafny's own `<` on sequences means "proper
  // prefix", so it is not used for strings anywhere in this project.)
  // ---------------------------------------------------------------------------

  /** Python's `a < b` on `str`. */
  predicate Less(a: string, b: string)
    decreases |a|
  {
    |b| > 0 && (|a| == 0 || a[0] < b[0] || (a[0] == b[0] && Less(a[1..], b[1..])))
  }

  lemma {:induction false} LessIrreflexive(a: string)
    ensures !Less(a, a)
    decreases |a|
  {
    if |a| > 0 {
      LessIrreflexive(a[1..]);
    }
  }

  lemma {:induction false} LessAsymmetric(a: string, b: string)
    requires Less(a, b)
    ensures !Less(b, a)
    decreases |a|
  {
    if |a| > 0 && a[0] == b[0] {
      LessAsymmetric(a[1..], b[1..]);
    }
  }

  lemma {:induction false} LessTransitive(a: string, b: string, c: string)
    requires Less(a, b) && Less(b, c)
    ensures Less(a, c)
    decreases |a|
  {
    if |a| > 0 && a[0] == b[0] && b[0] == c[0] {
      LessTransitive(a[1..], b[1..], c[1..]);
    }
  }

  /** Any two different strings are ordered one way or the other. */
  lemma {:induction false} LessTotal(a: string, b: string)
    requires a != b
    ensures Less(a, b) || Less(b, a)
    decreases |a|
  {
    if |a| > 0 && |b| > 0 && a[0] == b[0] {
      assert a == [a[0]] + a[1..] && b == [b[0]] + b[1..];
      LessTotal(a[1..], b[1..]);
    }
  }

  /** Python's `>=` (that is, `not a < b`) is transitive. */
  lemma AtLeastTransitive(a: string, b: string, c: string)
    requires !Less(a, b) && !Less(b, c)
    ensures !Less(a, c)
  {
    if a != b && b != c {
      LessTotal(a, b);
      LessTotal(b, c);
      LessTransitive(c, b, a);
      LessAsymmetric(c, a);
    }
  }

  // ---------------------------------------------------------------------------
  // sorted(set(xs)): the strictly increasing list of the distinct elements.
  // ---------------------------------------------------------------------------

  function Elems(s: seq<string>): set<string> {
    set x | x in s
  }

  ghost predicate StrictlySorted(s: seq<string>) {
    forall i, j :: 0 <= i < j < |s| ==> Less(s[i], s[j])
  }

  lemma PrependSorted(x: string, s: seq<string>)
    requires StrictlySorted(s)
    requires s != [] ==> Less(x, s[0])
    ensures StrictlySorted([x] + s)
  {
    forall j | 0 < j < |s| {
      LessTransitive(x, s[0], s[j]);
    }
  }

  /** Insert `x` into a strictly increasing list, keeping it strictly increasing. */
  function InsertSorted(s: seq<string>, x: string): (r: seq<string>)
    requires StrictlySorted(s)
    ensures StrictlySorted(r)
    ensures Elems(r) == Elems(s) + {x}
  {
    if s == [] then
      [x]
    else if x == s[0] then
      assert s[0] in Elems(s);
      s
    else if Less(x, s[0]) then
      PrependSorted(x, s);
      [x] + s
    else
      LessTotal(x, s[0]);
      assert s == [s[0]] + s[1..];
      var rest := InsertSorted(s[1..], x);
      assert rest != [] ==> rest[0] in Elems(rest);
      PrependSorted(s[0], rest);
      assert Elems([s[0]] + rest) == {s[0]} + Elems(rest);
      assert Elems(s) == {s[0]} + Elems(s[1..]);
      [s[0]] + rest
  }

  /** Python's `sorted(set(xs))`. */
  function SortedSet(xs: seq<string>): (r: seq<string>)
    ensures StrictlySorted(r)
    ensures Elems(r) == Elems(xs)
  {
    if xs == [] then
      []
    else
      assert xs == xs[..|xs| - 1] + [xs[|xs| - 1]];
      InsertSorted(SortedSet(xs[..|xs| - 1]), xs[|xs| - 1])
  }

  /** A strictly increasing list is determined by its elements. */
  lemma {:induction false} StrictlySortedUnique(r1: seq<string>, r2: seq<string>)
    requires StrictlySorted(r1) && StrictlySorted(r2)
    requires Elems(r1) == Elems(r2)
    ensures r1 == r2
    decreases |r1|
  {
    if r1 != [] {
      assert r1[0] in Elems(r1);
    }
    if r2 != [] {
      assert r2[0] in Elems(r2);
    }
    if r1 != [] && r2 != [] {
      assert r1[0] in Elems(r2) && r2[0] in Elems(r1);
      if r1[0] != r2[0] {
        var k :| 0 <= k < |r2| && r2[k] == r1[0];
        var m :| 0 <= m < |r1| && r1[m] == r2[0];
        assert Less(r2[0], r1[0]) && Less(r1[0], r2[0]);
        LessAsymmetric(r2[0], r1[0]);
        assert false;
      }
      forall x | x in r1[1..] ensures x != r1[0] {
        LessIrreflexive(x);
      }
      forall x | x in r2[1..] ensures x != r2[0] {
        LessIrreflexive(x);
      }
      assert r1 == [r1[0]] + r1[1..] && r2 == [r2[0]] + r2[1..];
      assert Elems(r1[1..]) == Elems(r1) - {r1[0]};
      assert Elems(r2[1..]) == Elems(r2) - {r2[0]};
      StrictlySortedUnique(r1[1..], r2[1..]);
    }
  }

  // ---------------------------------------------------------------------------
  // str.strip(), str.startswith(), str.lower(), str.replace(c, "")
  // ---------------------------------------------------------------------------

  /** Python's `str.isspace()` on one character. */
  predicate IsSpace(c: char) {
    || c == ' '
    || ('\t' <= c <= '\r')
    || ('\U{1c}' <= c <= '\U{1f}')
    || c == '\U{85}' || c == '\U{a0}' || c == '\U{1680}'
    || ('\U{2000}' <= c <= '\U{200a}')
    || c == '\U{2028}' || c == '\U{2029}' || c == '\U{202f}' || c == '\U{205f}' || c == '\U{3000}'
  }

  function TrimLeft(s: string): (r: string)
    ensures |r| <= |s| && r == s[|s| - |r|..]
    ensures forall i :: 0 <= i < |s| - |r| ==> IsSpace(s[i])
    ensures r == [] || !IsSpace(r[0])
  {
    if s != [] && IsSpace(s[0]) then TrimLeft(s[1..]) else s
  }

  function TrimRight(s: string): (r: string)
    ensures |r| <= |s| && r == s[..|r|]
    ensures forall i :: |r| <= i < |s| ==> IsSpace(s[i])
    ensures r == [] || !IsSpace(r[|r| - 1])
  {
    if s != [] && IsSpace(s[|s| - 1]) then TrimRight(s[..|s| - 1]) else s
  }

  /** Python's `s.strip()`: a slice of `s` that neither starts nor ends with white space. */
  function Strip(s: string): (r: string)
    ensures exists i, j :: (0 <= i <= j <= |s| && r == s[i..j]
                            && (forall k :: 0 <= k < i ==> IsSpace(s[k]))
                            && (forall k :: j <= k < |s| ==> IsSpace(s[k])))
    ensures r == [] || (!IsSpace(r[0]) && !IsSpace(r[|r| - 1]))
  {
    var t := TrimLeft(s);
    var r := TrimRight(t);
    assert r == s[|s| - |t|..|s| - |t| + |r|];
    r
  }

  /** `s.strip()` is empty exactly when `s` is blank (empty or all white space). */
  lemma StripEmptyIffBlank(s: string)
    ensures Strip(s) == [] <==> forall k :: 0 <= k < |s| ==> IsSpace(s[k])
  {
    var t := TrimLeft(s);
    assert t != [] ==> t[0] == s[|s| - |t|];
  }

  predicate StartsWith(s: string, prefix: string) {
    |prefix| <= |s| && s[..|prefix|] == prefix
  }

  /** `c.lower()` restricted to ASCII letters. */
  function LowerChar(c: char): char {
    if 'A' <= c <= 'Z' then (c as int + 32) as char else c
  }

  /**
   * `s.lower()`, lowering ASCII letters only. Compared against the ASCII
   * loader names "forge", "fabric" and "neoforge" this gives the same answer
   * as Python's full Unicode lowering: the only non-ASCII character that
   * Python lowers to an ASCII letter is the Kelvin sign, which lowers to 'k'.
   */
  function Lower(s: string): (r: string)
    ensures |r| == |s|
    ensures forall i :: 0 <= i < |s| ==> r[i] == LowerChar(s[i])
  {
    seq(|s|, i requires 0 <= i < |s| => LowerChar(s[i]))
  }

  /** `s.replace(c, "")` for every `c` in `cs` at once. */
  function RemoveAll(s: string, cs: set<char>): (r: string)
    ensures forall i :: 0 <= i < |r| ==> r[i] !in cs
    ensures |r| <= |s|
  {
    if s == [] then [] else (if s[0] in cs then [] else [s[0]]) + RemoveAll(s[1..], cs)
  }

  lemma {:induction false} RemoveAllConcat(a: string, b: string, cs: set<char>)
    ensures RemoveAll(a + b, cs) == RemoveAll(a, cs) + RemoveAll(b, cs)
  {
    if a == [] {
      assert a + b == b;
    } else {
      assert (a + b)[0] == a[0] && (a + b)[1..] == a[1..] + b;
      RemoveAllConcat(a[1..], b, cs);
    }
  }

  lemma {:induction false} RemoveAllNone(s: string, cs: set<char>)
    requires forall i :: 0 <= i < |s| ==> s[i] !in cs
    ensures RemoveAll(s, cs) == s
  {
    if s != [] {
      RemoveAllNone(s[1..], cs);
    }
  }

  /** Removing characters adds none. */
  lemma {:induction false} RemoveAllSubset(s: string, cs: set<char>)
    ensures forall c :: c in RemoveAll(s, cs) ==> c in s
  {
    if s != [] {
      RemoveAllSubset(s[1..], cs);
    }
  }

  lemma RemoveAllSingle(c: char, cs: set<char>)
    ensures RemoveAll([c], cs) == if c in cs then [] else [c]
  {
    assert [c][1..] == [];
  }

  /** `s.replace(from, to)` for single characters. */
  function ReplaceChar(s: string, from: char, to: char): (r: string)
    ensures |r| == |s|
    ensures forall i :: 0 <= i < |s| ==> r[i] == if s[i] == from then to else s[i]
  {
    seq(|s|, i requires 0 <= i < |s| => if s[i] == from then to else s[i])
  }

  /** `sep.join(xs)`. */
  function Join(sep: string, xs: seq<string>): string {
    if xs == [] then "" else if |xs| == 1 then xs[0] else xs[0] + sep + Join(sep, xs[1..])
  }

  /** Python's `t in s` for strings: `t` occurs in `s` as a contiguous piece. */
  ghost predicate Contains(s: string, t: string) {
    exists i :: 0 <= i <= |s| && StartsWith(s[i..], t)
  }

  predicate EndsWith(s: string, suffix: string) {
    |suffix| <= |s| && s[|s| - |suffix|..] == suffix
  }

  /** What `a` contains, `a + b` and `b + a` contain too. */
  lemma ContainsGrows(a: string, b: string, t: string)
    requires Contains(a, t)
    ensures Contains(a + b, t) && Contains(b + a, t)
  {
    var i :| 0 <= i <= |a| && StartsWith(a[i..], t);
    assert (a + b)[i..][..|t|] == a[i..][..|t|];
    assert (b + a)[|b| + i..] == a[i..];
  }

  /** What a prefix of `s` contains, `s` contains. */
  lemma ContainsInPrefix(s: string, a: string, t: string)
    requires StartsWith(s, a) && Contains(a, t)
    ensures Contains(s, t)
  {
    var i :| 0 <= i <= |a| && StartsWith(a[i..], t);
    assert s[i..][..|t|] == a[i..][..|t|];
  }

  /** Each of the joined pieces occurs in the joined text. */
  lemma {:induction false} JoinContains(sep: string, xs: seq<string>, k: nat)
    requires k < |xs|
    ensures Contains(Join(sep, xs), xs[k])
    decreases |xs|
  {
    if |xs| == 1 {
      assert Join(sep, xs)[0..][..|xs[0]|] == xs[0];
    } else if k == 0 {
      assert Join(sep, xs)[0..][..|xs[0]|] == xs[0];
    } else {
      JoinContains(sep, xs[1..], k - 1);
      ContainsGrows(Join(sep, xs[1..]), xs[0] + sep, xs[k]);
    }
  }

  lemma JoinContainsAll(sep: string, xs: seq<string>)
    ensures forall k :: 0 <= k < |xs| ==> Contains(Join(sep, xs), xs[k])
  {
    forall k | 0 <= k < |xs| {
      JoinContains(sep, xs, k);
    }
  }

  /** The joined text ends with the last piece. */
  lemma {:induction false} JoinEndsWith(sep: string, xs: seq<string>)
    requires xs != []
    ensures EndsWith(Join(sep, xs), xs[|xs| - 1])
    decreases |xs|
  {
    if |xs| > 1 {
      JoinEndsWith(sep, xs[1..]);
      var j := Join(sep, xs[1..]);
      assert Join(sep, xs) == xs[0] + sep + j;
      assert (xs[0] + sep + j)[|xs[0] + sep| + |j| - |xs[|xs| - 1]|..] == j[|j| - |xs[|xs| - 1]|..];
    }
  }

  /** The joined text starts with the first piece. */
  lemma JoinStartsWith(sep: string, xs: seq<string>)
    requires xs != []
    ensures StartsWith(Join(sep, xs), xs[0])
  {
    if |xs| > 1 {
      assert (xs[0] + sep + Join(sep, xs[1..]))[..|xs[0]|] == xs[0];
    }
  }

  lemma StartsWithConcat(a: string, b: string)
    ensures StartsWith(a + b, a)
  {
    assert (a + b)[..|a|] == a;
  }

  lemma ContainsMiddle(a: string, b: string, c: string)
    ensures Contains(a + b + c, b)
  {
    var s := a + b + c;
    assert s[|a|..][..|b|] == b;
  }

  lemma ContainsInner(a: string, b: string, c: string, d: string)
    ensures Contains(a + b + c + d, b) && Contains(a + b + c + d, c)
  {
    var s := a + b + c + d;
    assert s[|a|..][..|b|] == b;
    assert s[|a| + |b|..][..|c|] == c;
  }

  lemma ContainsAlternate(a: string, b: string, c: string, d: string, e: string)
    ensures Contains(a + b + c + d + e, b) && Contains(a + b + c + d + e, d)
  {
    var s := a + b + c + d + e;
    assert s[|a|..][..|b|] == b;
    assert s[|a| + |b| + |c|..][..|d|] == d;
  }

  /** A text made of five pieces starts with the first and contains the third and fourth. */
  lemma PrefixAndInner(a: string, b: string, c: string, d: string, e: string)
    ensures StartsWith(a + b + c + d + e, a)
    ensures Contains(a + b + c + d + e, c) && Contains(a + b + c + d + e, d)
  {
    var s := a + b + c + d + e;
    assert s[..|a|] == a;
    ContainsInner(a + b, c, d, e);
  }

  /** Position of the first `c` in `s`. */
  function IndexOf(s: string, c: char): (i: nat)
    requires c in s
    ensures i < |s| && s[i] == c && c !in s[..i]
  {
    if s[0] == c then 0 else
      assert c in s[1..] by {
        var k :| 0 <= k < |s| && s[k] == c;
        assert s[1..][k - 1] == c;
      }
      var j := IndexOf(s[1..], c);
      assert s[..j + 1] == [s[0]] + s[1..][..j];
      j + 1
  }

  /** Python's `s.split(c)` for a one-character separator; joining the parts gives `s` back. */
  function Split(s: string, c: char): (parts: seq<string>)
    ensures |parts| >= 1
    ensures forall i :: 0 <= i < |parts| ==> c !in parts[i]
    ensures Join([c], parts) == s
    decreases |s|
  {
    if c !in s then
      [s]
    else
      var i := IndexOf(s, c);
      var rest := Split(s[i + 1..], c);
      assert ([s[..i]] + rest)[1..] == rest;
      assert s == s[..i] + [c] + s[i + 1..];
      [s[..i]] + rest
  }

  /** Splitting `a + c + b` at its only `c` gives `a` and `b`. */
  lemma SplitOnce(a: string, c: char, b: string)
    requires c !in a && c !in b
    ensures Split(a + [c] + b, c) == [a, b]
  {
    var s := a + [c] + b;
    assert s[|a|] == c;
    var i := IndexOf(s, c);
    assert forall k :: 0 <= k < |a| ==> s[k] == a[k];
    assert s[|a|] == c;
    forall j | 0 <= j < i ensures s[j] != c {
      assert s[..i][j] == s[j];
    }
    assert s[..i] == a && s[i + 1..] == b;
  }

  // ---------------------------------------------------------------------------
  // str(n) for a natural number
  // ---------------------------------------------------------------------------

  predicate IsDigit(c: char) {
    '0' <= c <= '9'
  }

  /** The number a string of decimal digits denotes. */
  function DecimalValue(s: string): nat
    requires forall i :: 0 <= i < |s| ==> IsDigit(s[i])
  {
    if s == [] then 0 else
      assert IsDigit(s[|s| - 1]);
      DecimalValue(s[..|s| - 1]) * 10 + (s[|s| - 1] as int - '0' as int)
  }

  function Digit(d: nat): (c: char)
    requires d < 10
    ensures IsDigit(c) && c as int - '0' as int == d
  {
    ('0' as int + d) as char
  }

  predicate IsDecimal(s: string) {
    forall i :: 0 <= i < |s| ==> IsDigit(s[i])
  }

  /** Written between `a` and `c`, `str(n)` can be read back from the text. */
  lemma DecimalBetween(a: string, n: nat, c: string)
    ensures var s := a + NatToDecimal(n) + c;
            && |a| <= |s| - |c|
            && IsDecimal(s[|a|..|s| - |c|])
            && DecimalValue(s[|a|..|s| - |c|]) == n
  {
    var s := a + NatToDecimal(n) + c;
    assert s[|a|..|s| - |c|] == NatToDecimal(n);
  }

  /** Python's `str(n)`: decimal digits without leading zeros, denoting `n`. */
  function NatToDecimal(n: nat): (r: string)
    ensures |r| > 0 && forall i :: 0 <= i < |r| ==> IsDigit(r[i])
    ensures |r| == 1 || r[0] != '0'
    ensures DecimalValue(r) == n
  {
    if n < 10 then
      [Digit(n)]
    else
      var prefix := NatToDecimal(n / 10);
      var r := prefix + [Digit(n % 10)];
      assert r[..|r| - 1] == prefix;
      r
  }
}
