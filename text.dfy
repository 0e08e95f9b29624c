/**
 * String operations shared by the scraper (Python) and the web application
 * (TypeScript), over `string` = `seq<char>` where a `char` is a Unicode scalar value.
 */
module Text {
  import opened Wrappers

  predicate IsPrefix(p: string, s: string) {
    |p| <= |s| && s[..|p|] == p
  }

  predicate IsSuffix(p: string, s: string) {
    |p| <= |s| && s[|s| - |p|..] == p
  }

  lemma SuffixOfSuffix(a: string, b: string, c: string)
    requires IsSuffix(a, b) && IsSuffix(b, c)
    ensures IsSuffix(a, c)
  {
    assert c[|c| - |a|..] == c[|c| - |b|..][|b| - |a|..];
  }

  /** Substring test: Python's `t in s`, JavaScript's `s.includes(t)`. */
  predicate Contains(s: string, t: string)
    decreases |s|
  {
    IsPrefix(t, s) || (|s| > 0 && Contains(s[1..], t))
  }

  /** `Contains` holds exactly when `t` occurs at some position of `s`. */
  lemma {:induction false} ContainsIffOccurs(s: string, t: string)
    ensures Contains(s, t) <==> exists i :: 0 <= i <= |s| && IsPrefix(t, s[i..])
    decreases |s|
  {
    if IsPrefix(t, s) {
      assert s[0..] == s;
    } else if |s| > 0 {
      ContainsIffOccurs(s[1..], t);
      if Contains(s[1..], t) {
        var i :| 0 <= i <= |s[1..]| && IsPrefix(t, s[1..][i..]);
        assert s[1..][i..] == s[i + 1..];
      } else {
        forall i | 0 < i <= |s| ensures !IsPrefix(t, s[i..]) {
          assert s[1..][i - 1..] == s[i..];
        }
        assert s[0..] == s;
      }
    } else {
      assert forall i :: 0 <= i <= |s| ==> i == 0 && s[i..] == s;
    }
  }

  lemma {:induction false} ContainsInLeft(a: string, b: string, t: string)
    requires Contains(a, t)
    ensures Contains(a + b, t)
    decreases |a|
  {
    if IsPrefix(t, a) {
      assert (a + b)[..|t|] == a[..|t|];
    } else {
      assert (a + b)[1..] == a[1..] + b;
      ContainsInLeft(a[1..], b, t);
    }
  }

  lemma {:induction false} ContainsInRight(a: string, b: string, t: string)
    requires Contains(b, t)
    ensures Contains(a + b, t)
    decreases |a|
  {
    if a == [] {
      assert a + b == b;
    } else {
      assert (a + b)[1..] == a[1..] + b;
      ContainsInRight(a[1..], b, t);
    }
  }

  /** Leftmost occurrence of `t` in `s` (what a regular-expression search for a literal finds). */
  function FirstIndex(s: string, t: string): (r: Option<nat>)
    ensures r.Some? <==> Contains(s, t)
    ensures r.Some? ==> r.value <= |s| && IsPrefix(t, s[r.value..])
    ensures r.Some? ==> forall j :: 0 <= j < r.value ==> !IsPrefix(t, s[j..])
    decreases |s|
  {
    if IsPrefix(t, s) then
      assert s[0..] == s;
      Some(0)
    else if |s| == 0 then
      None
    else
      match FirstIndex(s[1..], t)
      case None => None
      case Some(k) =>
        assert s[1..][k..] == s[k + 1..];
        assert forall j :: 1 <= j < k + 1 ==> s[1..][j - 1..] == s[j..];
        Some(k + 1)
  }

  /** A string lacking one of the characters of `t` does not contain `t`. */
  lemma CharMissing(s: string, t: string, j: nat)
    requires j < |t| && t[j] !in s
    ensures !Contains(s, t)
  {
    ContainsIffOccurs(s, t);
    forall i | 0 <= i <= |s| ensures !IsPrefix(t, s[i..]) {
      if i + j < |s| {
        assert s[i..][j] == s[i + j];
      }
    }
  }

  /**
   * `t` does not occur in `a + b` when it occurs in neither part and cannot
   * straddle the seam: some character `t[j]` never appears in `a`, and nothing
   * before it in `t` equals the last character of `a`.
   */
  lemma NotContainsAcross(a: string, b: string, t: string, j: nat)
    requires j < |t| && t[j] !in a
    requires a != [] && forall k :: 0 <= k < j ==> t[k] != a[|a| - 1]
    requires !Contains(b, t)
    ensures !Contains(a + b, t)
  {
    ContainsIffOccurs(a + b, t);
    ContainsIffOccurs(b, t);
    forall i | 0 <= i <= |a + b| ensures !IsPrefix(t, (a + b)[i..]) {
      if i >= |a| {
        assert (a + b)[i..] == b[i - |a|..];
      } else if i + j < |a| {
        assert (a + b)[i..][j] == a[i + j];
      } else {
        assert (a + b)[i..][|a| - 1 - i] == a[|a| - 1];
      }
    }
  }

  lemma FirstIndexAtStart(s: string, t: string)
    requires IsPrefix(t, s)
    ensures FirstIndex(s, t) == Some(0)
  {
    assert s[0..] == s;
  }

  /** ASCII case folding (`str.lower()`, `String.prototype.toLowerCase` on ASCII letters). */
  function LowerChar(c: char): char {
    if 'A' <= c <= 'Z' then (c as int + 32) as char else c
  }

  function Lower(s: string): (r: string)
    ensures |r| == |s|
    ensures forall i :: 0 <= i < |s| ==> r[i] == LowerChar(s[i])
  {
    seq(|s|, i requires 0 <= i < |s| => LowerChar(s[i]))
  }

  lemma LowerSlice(s: string, i: nat, j: nat)
    requires i <= j <= |s|
    ensures Lower(s)[i..j] == Lower(s[i..j])
  {
  }

  lemma LowerConcat(a: string, b: string)
    ensures Lower(a + b) == Lower(a) + Lower(b)
  {
  }

  /** Whitespace as Python's `str.isspace` and `\s` in a `str` pattern see it. */
  predicate IsSpace(c: char) {
    ('\U{0009}' <= c <= '\U{000D}') || ('\U{001C}' <= c <= '\U{0020}') ||
    c == '\U{0085}' || c == '\U{00A0}' || c == '\U{1680}' ||
    ('\U{2000}' <= c <= '\U{200A}') || c == '\U{2028}' || c == '\U{2029}' ||
    c == '\U{202F}' || c == '\U{205F}' || c == '\U{3000}'
  }

  /** `s.lstrip()`: the longest suffix of `s` that does not start with whitespace. */
  function LStrip(s: string): (r: string)
    ensures IsSuffix(r, s)
    ensures r == [] || !IsSpace(r[0])
    ensures forall i :: 0 <= i < |s| - |r| ==> IsSpace(s[i])
  {
    if s != [] && IsSpace(s[0]) then LStrip(s[1..]) else s
  }

  /** `s.rstrip()`: the longest prefix of `s` that does not end with whitespace. */
  function RStrip(s: string): (r: string)
    ensures IsPrefix(r, s)
    ensures r == [] || !IsSpace(r[|r| - 1])
    ensures forall i :: |r| <= i < |s| ==> IsSpace(s[i])
  {
    if s != [] && IsSpace(s[|s| - 1]) then RStrip(s[..|s| - 1]) else s
  }

  /** `s.strip()`. */
  function Strip(s: string): (r: string)
    ensures r == [] || (!IsSpace(r[0]) && !IsSpace(r[|r| - 1]))
    ensures forall c :: c in r ==> c in s
    ensures exists off :: StrippedAt(s, r, off)
  {
    var l := LStrip(s);
    var r := RStrip(l);
    var off := |s| - |l|;
    assert l == s[off..];
    assert r == l[..|r|];
    assert r == s[off..off + |r|];
    assert r != [] ==> r[0] == l[0];
    assert StrippedAt(s, r, off);
    r
  }

  /** `r` is `s` at `off`, with only whitespace before and after it. */
  ghost predicate StrippedAt(s: string, r: string, off: nat) {
    && off + |r| <= |s|
    && r == s[off..off + |r|]
    && (forall i :: 0 <= i < off ==> IsSpace(s[i]))
    && (forall i :: off + |r| <= i < |s| ==> IsSpace(s[i]))
  }

  /** A string already without surrounding whitespace is its own `strip()`. */
  lemma StripClean(d: string)
    requires d == [] || (!IsSpace(d[0]) && !IsSpace(d[|d| - 1]))
    ensures Strip(d) == d
  {
  }

  lemma NoDotInSpaces(x: string)
    requires forall i :: 0 <= i < |x| ==> IsSpace(x[i])
    ensures '.' !in x
  {
    assert !IsSpace('.');
  }

  /** The part of `s` before the first `c`, or all of `s`: `s.split(c)[0]`. */
  function Before(s: string, c: char): (r: string)
    ensures IsPrefix(r, s)
    ensures c !in r
    ensures |r| < |s| ==> s[|r|] == c
  {
    if s == [] || s[0] == c then [] else [s[0]] + Before(s[1..], c)
  }

  /** The part of `s` after its first `c`, if there is one. */
  function After(s: string, c: char): (r: Option<string>)
    ensures r.None? <==> c !in s
    ensures r.Some? ==> IsSuffix(r.value, s) && |Before(s, c)| + 1 + |r.value| == |s|
  {
    if s == [] then None else if s[0] == c then Some(s[1..]) else After(s[1..], c)
  }

  /** Every `from` replaced by `to`: `s.replace(/-/g, "/")` for single characters. */
  function ReplaceAll(s: string, from: char, to: char): (r: string)
    ensures |r| == |s|
    ensures forall i :: 0 <= i < |s| ==> r[i] == if s[i] == from then to else s[i]
  {
    seq(|s|, i requires 0 <= i < |s| => if s[i] == from then to else s[i])
  }

  // UTF-16, the unit in which JavaScript measures and cuts strings

  function Utf16Units(c: char): nat {
    if c as int < 0x1_0000 then 1 else 2
  }

  function Utf16Length(s: string): nat {
    if s == [] then 0 else Utf16Units(s[0]) + Utf16Length(s[1..])
  }

  const Replacement: char := '\U{FFFD}'

  /**
   * What arrives when JavaScript's `s.substring(0, n)` is handed on as a
   * USVString (FormData values are): the characters whose UTF-16 units all fit
   * in the first `n`; a surrogate pair cut in half leaves a lone high surrogate,
   * which the conversion turns into U+FFFD.
   */
  function Utf16Prefix(s: string, n: nat): string {
    if s == [] then []
    else if Utf16Units(s[0]) <= n then [s[0]] + Utf16Prefix(s[1..], n - Utf16Units(s[0]))
    else if n == 1 then [Replacement]
    else []
  }

  function Min(a: nat, b: nat): nat {
    if a <= b then a else b
  }

  /** The prefix is exactly `min(n, length)` UTF-16 units long, as `substring` promises. */
  lemma {:induction false} Utf16PrefixLength(s: string, n: nat)
    ensures Utf16Length(Utf16Prefix(s, n)) == Min(n, Utf16Length(s))
  {
    if s != [] {
      var u := Utf16Units(s[0]);
      if u <= n {
        Utf16PrefixLength(s[1..], n - u);
        assert ([s[0]] + Utf16Prefix(s[1..], n - u))[1..] == Utf16Prefix(s[1..], n - u);
      } else if n == 1 {
        assert [Replacement][1..] == [];
      }
    }
  }

  /** A string that already fits is handed on unchanged. */
  lemma {:induction false} Utf16PrefixWhole(s: string, n: nat)
    requires Utf16Length(s) <= n
    ensures Utf16Prefix(s, n) == s
  {
    if s != [] {
      Utf16PrefixWhole(s[1..], n - Utf16Units(s[0]));
      assert [s[0]] + s[1..] == s;
    }
  }

  /** The prefix is a prefix of `s`, followed by at most one replacement character. */
  lemma {:induction false} Utf16PrefixShape(s: string, n: nat)
    ensures var r := Utf16Prefix(s, n);
      IsPrefix(r, s) || (|r| > 0 && IsPrefix(r[..|r| - 1], s) && r[|r| - 1] == Replacement)
  {
    if s != [] {
      var u := Utf16Units(s[0]);
      if u <= n {
        Utf16PrefixShape(s[1..], n - u);
        var t := Utf16Prefix(s[1..], n - u);
        var r := [s[0]] + t;
        if IsPrefix(t, s[1..]) {
          assert s[..|r|] == [s[0]] + s[1..][..|t|];
        } else {
          assert r[..|r| - 1] == [s[0]] + t[..|t| - 1];
          assert s[..|r| - 1] == [s[0]] + s[1..][..|t| - 1];
        }
      }
    }
  }

  /** Strings without astral characters are cut at exactly `n` characters. */
  lemma {:induction false} Utf16PrefixBasic(s: string, n: nat)
    requires forall i :: 0 <= i < |s| ==> Utf16Units(s[i]) == 1
    ensures Utf16Prefix(s, n) == s[..Min(n, |s|)]
  {
    if s != [] && n > 0 {
      Utf16PrefixBasic(s[1..], n - 1);
      assert s[..Min(n, |s|)] == [s[0]] + s[1..][..Min(n - 1, |s| - 1)];
    }
  }

  lemma ConcatEnds(a: string, b: string, c: string)
    ensures IsPrefix(a, a + b + c) && IsSuffix(c, a + b + c)
  {
    assert (a + b + c)[..|a|] == a;
    assert (a + b + c)[|a + b + c| - |c|..] == c;
  }

  /** `t` occurs in `t` and in anything around it. */
  lemma ContainsSelf(t: string)
    ensures Contains(t, t)
  {
    assert t[..|t|] == t;
  }

  /** `t` occurs in any string that has it in the middle. */
  lemma ContainsMiddle(x: string, t: string, y: string)
    ensures Contains(x + t + y, t)
  {
    ContainsSelf(t);
    ContainsInLeft(t, y, t);
    ContainsInRight(x, t + y, t);
    assert x + t + y == x + (t + y);
  }
}
