/** String helpers shared by the pages: JavaScript's `String.prototype.trim`,
    ASCII lower-casing, `String.prototype.includes`, the decimal rendering of a
    non-negative integer in a template string, and `Array.prototype.join("")`. */
module Text {

  /** The characters `trim()` removes: ECMAScript WhiteSpace (tab, vertical tab,
      form feed, space, no-break space, byte order mark and the Unicode space
      separators) and LineTerminator (LF, CR, LS, PS). */
  predicate IsJsSpace(c: char) {
    c == '\t' || c == '\n' || c == '\U{000B}' || c == '\U{000C}' || c == '\r' ||
    c == ' ' || c == '\U{00A0}' || c == '\U{1680}' || ('\U{2000}' <= c <= '\U{200A}') ||
    c == '\U{2028}' || c == '\U{2029}' || c == '\U{202F}' || c == '\U{205F}' ||
    c == '\U{3000}' || c == '\U{FEFF}'
  }

  predicate AllSpace(s: string) {
    forall i :: 0 <= i < |s| ==> IsJsSpace(s[i])
  }

  lemma AllSpaceCons(c: char, s: string)
    requires IsJsSpace(c) && AllSpace(s)
    ensures AllSpace([c] + s)
  {
    forall i | 0 <= i < |[c] + s| ensures IsJsSpace(([c] + s)[i]) {
      if i > 0 {
        assert ([c] + s)[i] == s[i - 1];
      }
    }
  }

  lemma AllSpaceSnoc(s: string, c: char)
    requires AllSpace(s) && IsJsSpace(c)
    ensures AllSpace(s + [c])
  {
    forall i | 0 <= i < |s + [c]| ensures IsJsSpace((s + [c])[i]) {
      if i < |s| {
        assert (s + [c])[i] == s[i];
      }
    }
  }

  /** The number of white-space characters `s` starts with. */
  function LeadingSpace(s: string): (n: nat)
    ensures n <= |s| && AllSpace(s[..n])
    ensures n < |s| ==> !IsJsSpace(s[n])
  {
    if |s| > 0 && IsJsSpace(s[0]) then
      var m := LeadingSpace(s[1..]);
      assert s[..m + 1] == [s[0]] + s[1..][..m];
      AllSpaceCons(s[0], s[1..][..m]);
      assert m + 1 < |s| ==> s[m + 1] == s[1..][m];
      m + 1
    else 0
  }

  /** Drops the leading white space: the result is a suffix of `s`, what was
      dropped is all white space, and the result does not start with any. */
  function TrimStart(s: string): (r: string)
    ensures |r| <= |s| && r == s[|s| - |r|..]
    ensures AllSpace(s[..|s| - |r|])
    ensures r != [] ==> !IsJsSpace(r[0])
  {
    s[LeadingSpace(s)..]
  }

  /** Drops the trailing white space: the result is a prefix of `s`, what was
      dropped is all white space, and the result does not end with any. */
  function TrimEnd(s: string): (r: string)
    ensures |r| <= |s| && r == s[..|r|]
    ensures AllSpace(s[|r|..])
    ensures r != [] ==> !IsJsSpace(r[|r| - 1])
  {
    if |s| > 0 && IsJsSpace(s[|s| - 1]) then
      var r := TrimEnd(s[..|s| - 1]);
      assert s[..|s| - 1][..|r|] == s[..|r|];
      assert s[|r|..] == s[..|s| - 1][|r|..] + [s[|s| - 1]];
      AllSpaceSnoc(s[..|s| - 1][|r|..], s[|s| - 1]);
      r
    else s
  }

  /** `s.trim()`: the slice `s[a..b]` left after white space is removed from
      both ends. */
  function Trim(s: string): (r: string)
    ensures exists a, b :: 0 <= a <= b <= |s| && r == s[a..b] && AllSpace(s[..a]) && AllSpace(s[b..])
    ensures r != [] ==> !IsJsSpace(r[0]) && !IsJsSpace(r[|r| - 1])
  {
    var t := TrimStart(s);
    var r := TrimEnd(t);
    var a := |s| - |t|;
    assert r == s[a..a + |r|];
    assert s[a + |r|..] == t[|r|..];
    r
  }

  /** A string trims to nothing exactly when it is all white space, so the
      `if (!t) return` guards of the todo and blog pages reject exactly the
      blank inputs. */
  lemma TrimEmptyIffBlank(s: string)
    ensures Trim(s) == [] <==> AllSpace(s)
  {
    var r := Trim(s);
    var a, b :| 0 <= a <= b <= |s| && r == s[a..b] && AllSpace(s[..a]) && AllSpace(s[b..]);
    if r == [] {
      forall i | 0 <= i < |s| ensures IsJsSpace(s[i]) {
        if i < a { assert s[..a][i] == s[i]; } else { assert s[b..][i - b] == s[i]; }
      }
    }
  }

  /** ASCII case folding; other characters are unchanged. */
  function LowerChar(c: char): (r: char)
    ensures 'A' <= c <= 'Z' ==> 'a' <= r <= 'z' && r as int - c as int == 32
    ensures !('A' <= c <= 'Z') ==> r == c
  {
    if 'A' <= c <= 'Z' then (c as int + 32) as char else c
  }

  function Lower(s: string): (r: string)
    ensures |r| == |s| && forall i :: 0 <= i < |s| ==> r[i] == LowerChar(s[i])
  {
    seq(|s|, i requires 0 <= i < |s| => LowerChar(s[i]))
  }

  /** `hay.includes(needle)`: `needle` occurs in `hay` at some offset. */
  predicate Includes(hay: string, needle: string) {
    exists k :: 0 <= k <= |hay| - |needle| && OccursAt(hay, needle, k)
  }

  /** `s.endsWith(suffix)`. */
  predicate EndsWith(s: string, suffix: string) {
    |suffix| <= |s| && s[|s| - |suffix|..] == suffix
  }

  predicate OccursAt(hay: string, needle: string, k: int) {
    0 <= k <= |hay| - |needle| && hay[k..k + |needle|] == needle
  }

  /** Every string includes the empty string, so an empty search keeps
      everything. */
  lemma IncludesEmpty(hay: string)
    ensures Includes(hay, "")
  {
    assert OccursAt(hay, "", 0);
  }

  lemma IncludesMiddle(a: string, b: string, c: string)
    ensures Includes(a + b + c, b)
  {
    assert (a + b + c)[|a|..|a| + |b|] == b;
    assert OccursAt(a + b + c, b, |a|);
  }

  lemma IncludesInSuffix(x: string, s: string, w: string)
    requires Includes(s, w)
    ensures Includes(x + s, w)
  {
    var k :| 0 <= k <= |s| - |w| && OccursAt(s, w, k);
    assert (x + s)[|x| + k..|x| + k + |w|] == s[k..k + |w|];
    assert OccursAt(x + s, w, |x| + k);
  }

  lemma IncludesInPrefix(s: string, x: string, w: string)
    requires Includes(s, w)
    ensures Includes(s + x, w)
  {
    var k :| 0 <= k <= |s| - |w| && OccursAt(s, w, k);
    assert (s + x)[k..k + |w|] == s[k..k + |w|];
    assert OccursAt(s + x, w, k);
  }

  lemma IncludedBySuffix(s: string, suffix: string, w: string)
    requires EndsWith(s, suffix) && Includes(suffix, w)
    ensures Includes(s, w)
  {
    assert s == s[..|s| - |suffix|] + suffix;
    IncludesInSuffix(s[..|s| - |suffix|], suffix, w);
  }

  /** Case folding both sides keeps an occurrence. */
  lemma LowerIncludes(hay: string, w: string)
    ensures Includes(hay, w) ==> Includes(Lower(hay), Lower(w))
  {
    if Includes(hay, w) {
      var k :| 0 <= k <= |hay| - |w| && OccursAt(hay, w, k);
      forall t | 0 <= t < |w| ensures Lower(hay)[k + t] == Lower(w)[t] {
        assert hay[k + t] == hay[k..k + |w|][t];
      }
      assert Lower(hay)[k..k + |w|] == Lower(w);
      assert OccursAt(Lower(hay), Lower(w), k);
    }
  }

  /** What a part of a text includes, the text includes. */
  lemma IncludesTrans(hay: string, part: string, w: string)
    requires Includes(hay, part) && Includes(part, w)
    ensures Includes(hay, w)
  {
    var k :| 0 <= k <= |hay| - |part| && OccursAt(hay, part, k);
    var j :| 0 <= j <= |part| - |w| && OccursAt(part, w, j);
    var inHay, inPart := hay[k + j..k + j + |w|], part[j..j + |w|];
    forall t | 0 <= t < |w| ensures inHay[t] == inPart[t] {
      assert inHay[t] == hay[k..k + |part|][j + t];
    }
    assert inHay == inPart;
    assert OccursAt(hay, w, k + j);
  }

  function Digit(d: nat): (c: char)
    requires d < 10
    ensures '0' <= c <= '9' && c as int - '0' as int == d
  {
    ('0' as int + d) as char
  }

  /** The decimal text of `n`, as `${n}` writes it in a template string. */
  function NatText(n: nat): (r: string)
    ensures 1 <= |r|
    ensures forall i :: 0 <= i < |r| ==> '0' <= r[i] <= '9'
    ensures r[|r| - 1] == Digit(n % 10)
    ensures (|r| == 1) == (n < 10)
  {
    if n < 10 then [Digit(n)] else NatText(n / 10) + [Digit(n % 10)]
  }

  /** Different numbers have different decimal texts, so generated ids such as
      `t-3` never collide. */
  lemma {:induction false} NatTextInjective(m: nat, n: nat)
    requires NatText(m) == NatText(n)
    ensures m == n
  {
    if m >= 10 && n >= 10 {
      var a, b := NatText(m), NatText(n);
      assert a[..|a| - 1] == NatText(m / 10);
      assert b[..|b| - 1] == NatText(n / 10);
      NatTextInjective(m / 10, n / 10);
    }
  }

  /** `xs.map(f)` */
  function Mapped<T>(xs: seq<T>, f: T -> string): (r: seq<string>)
    ensures |r| == |xs| && forall k :: 0 <= k < |xs| ==> r[k] == f(xs[k])
  {
    seq(|xs|, k requires 0 <= k < |xs| => f(xs[k]))
  }

  /** `xs.map(f).join("")` writes `f(xs[i])` whole, after the pieces of the
      elements before it and before those of the elements after it. */
  lemma MappedJoinSplit<T>(xs: seq<T>, f: T -> string, i: nat)
    requires i < |xs|
    ensures Join(Mapped(xs, f)) == Join(Mapped(xs[..i], f)) + f(xs[i]) + Join(Mapped(xs[i + 1..], f))
  {
    var m := Mapped(xs, f);
    JoinSplit(m, i);
    assert m[..i] == Mapped(xs[..i], f);
    assert m[i + 1..] == Mapped(xs[i + 1..], f);
  }

  /** `xs.join("")`. */
  function Join(xs: seq<string>): (r: string)
    ensures xs == [] ==> r == []
  {
    if xs == [] then [] else xs[0] + Join(xs[1..])
  }

  lemma {:induction false} JoinAppend(xs: seq<string>, x: string)
    ensures Join(xs + [x]) == Join(xs) + x
  {
    if xs == [] {
      assert [x][1..] == [];
    } else {
      assert (xs + [x])[1..] == xs[1..] + [x];
      JoinAppend(xs[1..], x);
    }
  }

  /** Piece `i` of a join starts right after pieces `0..i` and is followed by
      the rest: the pieces appear whole and in order. */
  lemma {:induction false} JoinSplit(xs: seq<string>, i: nat)
    requires i < |xs|
    ensures Join(xs) == Join(xs[..i]) + xs[i] + Join(xs[i + 1..])
  {
    if i == 0 {
      assert xs[..0] == [];
    } else {
      JoinSplit(xs[1..], i - 1);
      assert xs[1..][..i - 1] == xs[1..i];
      assert xs[1..][i - 1 + 1..] == xs[i + 1..];
      assert xs[..i][1..] == xs[1..i];
    }
  }
}
