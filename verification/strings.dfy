/**
 * The string primitives the listing code relies on: `trim`, `toLowerCase`,
 * `toUpperCase`, `startsWith`, `endsWith`, `includes` and `lastIndexOf`,
 * as ECMAScript defines them on sequences of characters.
 */
module Strings {

  /** ECMAScript WhiteSpace and LineTerminator code points, the set `trim` removes. */
  predicate IsWhitespace(c: char) {
    || c == '\t' || c == '\U{000B}' || c == '\U{000C}' || c == ' '
    || c == '\U{00A0}' || c == '\U{FEFF}' || c == '\n' || c == '\r'
    || c == '\U{2028}' || c == '\U{2029}' || c == '\U{1680}'
    || ('\U{2000}' <= c <= '\U{200A}') || c == '\U{202F}' || c == '\U{205F}'
    || c == '\U{3000}'
  }

  predicate AllWhitespace(s: string) {
    forall i | 0 <= i < |s| :: IsWhitespace(s[i])
  }

  /** No whitespace at either end: what `trim` produces. */
  predicate IsTrimmed(s: string) {
    s == [] || (!IsWhitespace(s[0]) && !IsWhitespace(s[|s| - 1]))
  }

  function TrimStart(s: string): (r: string)
    ensures |r| <= |s| && r == s[|s| - |r|..]
    ensures AllWhitespace(s[..|s| - |r|])
    ensures r == [] || !IsWhitespace(r[0])
  {
    if |s| > 0 && IsWhitespace(s[0]) then
      var r := TrimStart(s[1..]);
      assert s[..|s| - |r|] == [s[0]] + s[1..][..|s| - 1 - |r|];
      AllWhitespaceAppend([s[0]], s[1..][..|s| - 1 - |r|]);
      r
    else s
  }

  lemma AllWhitespaceAppend(a: string, b: string)
    requires AllWhitespace(a) && AllWhitespace(b)
    ensures AllWhitespace(a + b)
  {
    forall i | 0 <= i < |a + b| ensures IsWhitespace((a + b)[i]) {
      if i < |a| {
        assert (a + b)[i] == a[i];
      } else {
        assert (a + b)[i] == b[i - |a|];
      }
    }
  }

  function TrimEnd(s: string): (r: string)
    ensures |r| <= |s| && r == s[..|r|]
    ensures r != [] ==> r[0] == s[0]
    ensures AllWhitespace(s[|r|..])
    ensures r == [] || !IsWhitespace(r[|r| - 1])
  {
    if |s| > 0 && IsWhitespace(s[|s| - 1]) then TrimEnd(s[..|s| - 1]) else s
  }

  /** `String.prototype.trim`. */
  function Trim(s: string): (r: string)
    ensures IsTrimmed(r)
    ensures |r| <= |s|
  {
    TrimEnd(TrimStart(s))
  }

  /** Whitespace padding on either side of a trimmed string is exactly what `trim` removes. */
  lemma {:induction false} TrimOfPadded(pre: string, x: string, post: string)
    requires AllWhitespace(pre) && AllWhitespace(post) && IsTrimmed(x)
    ensures Trim(pre + x + post) == x
  {
    if x == [] {
      assert pre + x + post == pre + post;
      TrimOfBlank(pre, post);
    } else {
      assert pre + x + post == pre + (x + post);
      TrimStartOfPadded(pre, x + post);
      TrimEndOfPadded(x, post);
    }
  }

  lemma TrimOfBlank(pre: string, post: string)
    requires AllWhitespace(pre) && AllWhitespace(post)
    ensures Trim(pre + post) == []
  {
    AllWhitespaceAppend(pre, post);
    TrimStartOfWhitespace(pre + post);
  }

  lemma {:induction false} TrimStartOfWhitespace(s: string)
    requires AllWhitespace(s)
    ensures TrimStart(s) == []
  {
    if s != [] {
      TrimStartOfWhitespace(s[1..]);
    }
  }

  lemma {:induction false} TrimStartOfPadded(pre: string, rest: string)
    requires AllWhitespace(pre)
    requires rest == [] || !IsWhitespace(rest[0])
    ensures TrimStart(pre + rest) == rest
  {
    if pre != [] {
      assert (pre + rest)[1..] == pre[1..] + rest;
      TrimStartOfPadded(pre[1..], rest);
    } else {
      assert pre + rest == rest;
    }
  }

  lemma {:induction false} TrimEndOfPadded(x: string, post: string)
    requires AllWhitespace(post)
    requires x == [] || !IsWhitespace(x[|x| - 1])
    ensures TrimEnd(x + post) == x
  {
    if post != [] {
      assert (x + post)[..|x + post| - 1] == x + post[..|post| - 1];
      TrimEndOfPadded(x, post[..|post| - 1]);
    } else {
      assert x + post == x;
    }
  }

  /** `trim` is idempotent. */
  lemma TrimIdempotent(s: string)
    ensures Trim(Trim(s)) == Trim(s)
  {
    var t := Trim(s);
    TrimOfPadded([], t, []);
    assert [] + t + [] == t;
  }

  // ---- case mapping ----

  /** `toLowerCase` on one character: ASCII and the one-to-one Latin-1 letters. */
  function LowerChar(c: char): char {
    if 'A' <= c <= 'Z' || ('\U{00C0}' <= c <= '\U{00DE}' && c != '\U{00D7}')
    then (c as int + 32) as char
    else c
  }

  /** `toUpperCase` on one character: ASCII and the one-to-one Latin-1 letters. */
  function UpperChar(c: char): char {
    if 'a' <= c <= 'z' || ('\U{00E0}' <= c <= '\U{00FE}' && c != '\U{00F7}')
    then (c as int - 32) as char
    else c
  }

  function ToLower(s: string): (r: string)
    ensures |r| == |s| && forall i | 0 <= i < |s| :: r[i] == LowerChar(s[i])
  {
    seq(|s|, i requires 0 <= i < |s| => LowerChar(s[i]))
  }

  function ToUpper(s: string): (r: string)
    ensures |r| == |s| && forall i | 0 <= i < |s| :: r[i] == UpperChar(s[i])
  {
    seq(|s|, i requires 0 <= i < |s| => UpperChar(s[i]))
  }

  lemma LowerCharWhitespace(c: char)
    ensures IsWhitespace(LowerChar(c)) <==> IsWhitespace(c)
  {
    if 'A' <= c <= 'Z' || ('\U{00C0}' <= c <= '\U{00DE}' && c != '\U{00D7}') {
      assert !IsWhitespace(c);
      assert '\U{0061}' <= LowerChar(c) <= '\U{00FE}';
    }
  }

  /** Lower-casing keeps whitespace where it was and creates none. */
  lemma ToLowerKeepsWhitespace(s: string)
    ensures AllWhitespace(s) ==> AllWhitespace(ToLower(s))
    ensures IsTrimmed(s) ==> IsTrimmed(ToLower(s))
  {
    forall i | 0 <= i < |s| ensures IsWhitespace(ToLower(s)[i]) <==> IsWhitespace(s[i]) {
      LowerCharWhitespace(s[i]);
    }
  }

  lemma LowerCharIdempotent(c: char)
    ensures LowerChar(LowerChar(c)) == LowerChar(c)
  {
  }

  /** Lower-casing twice is lower-casing once. */
  lemma ToLowerIdempotent(s: string)
    ensures ToLower(ToLower(s)) == ToLower(s)
  {
    forall i | 0 <= i < |s| ensures ToLower(ToLower(s))[i] == ToLower(s)[i] {
      LowerCharIdempotent(s[i]);
    }
  }

  lemma ToLowerAppend(a: string, b: string)
    ensures ToLower(a + b) == ToLower(a) + ToLower(b)
  {
  }

  /** Case mapping never turns a '.' into something else or something else into a '.'. */
  lemma CaseMappingKeepsDots(s: string)
    ensures '.' in ToUpper(s) <==> '.' in s
    ensures '.' in ToLower(s) <==> '.' in s
  {
    if '.' in ToUpper(s) {
      var i :| 0 <= i < |s| && ToUpper(s)[i] == '.';
    }
    if '.' in ToLower(s) {
      var i :| 0 <= i < |s| && ToLower(s)[i] == '.';
    }
    if '.' in s {
      var i :| 0 <= i < |s| && s[i] == '.';
      assert ToUpper(s)[i] == '.' && ToLower(s)[i] == '.';
    }
  }

  /** Every string is its trimmed form with whitespace padding around it. */
  lemma TrimSplits(s: string) returns (pre: string, post: string)
    ensures s == pre + Trim(s) + post
    ensures AllWhitespace(pre) && AllWhitespace(post)
  {
    var t := TrimStart(s);
    var r := TrimEnd(t);
    assert Trim(s) == r;
    pre := s[..|s| - |t|];
    post := t[|r|..];
    assert AllWhitespace(pre);
    assert AllWhitespace(post);
    SplitThree(s, t, r);
  }

  /** A suffix `t` of `s` with a prefix `r` cuts `s` into three parts. */
  lemma SplitThree(s: string, t: string, r: string)
    requires |t| <= |s| && t == s[|s| - |t|..]
    requires |r| <= |t| && r == t[..|r|]
    ensures s == s[..|s| - |t|] + r + t[|r|..]
  {
    assert s == s[..|s| - |t|] + t;
    assert t == r + t[|r|..];
  }

  /** Lower-casing leaves whitespace alone and creates none, so it commutes with `trim`. */
  lemma TrimToLowerCommute(s: string)
    ensures Trim(ToLower(s)) == ToLower(Trim(s))
  {
    var r := Trim(s);
    var pre, post := TrimSplits(s);
    ToLowerAppend(pre + r, post);
    ToLowerAppend(pre, r);
    assert ToLower(s) == ToLower(pre) + ToLower(r) + ToLower(post);
    ToLowerKeepsWhitespace(pre);
    ToLowerKeepsWhitespace(post);
    ToLowerKeepsWhitespace(r);
    TrimOfPadded(ToLower(pre), ToLower(r), ToLower(post));
  }

  lemma UpperCharWhitespace(c: char)
    ensures IsWhitespace(UpperChar(c)) <==> IsWhitespace(c)
  {
    if 'a' <= c <= 'z' || ('\U{00E0}' <= c <= '\U{00FE}' && c != '\U{00F7}') {
      assert !IsWhitespace(c);
      assert '\U{0041}' <= UpperChar(c) <= '\U{00DE}';
    }
  }

  /** Upper-casing keeps whitespace where it was and creates none. */
  lemma ToUpperKeepsWhitespace(s: string)
    ensures AllWhitespace(s) ==> AllWhitespace(ToUpper(s))
    ensures IsTrimmed(s) ==> IsTrimmed(ToUpper(s))
  {
    forall i | 0 <= i < |s| ensures IsWhitespace(ToUpper(s)[i]) <==> IsWhitespace(s[i]) {
      UpperCharWhitespace(s[i]);
    }
  }

  lemma ToUpperAppend(a: string, b: string)
    ensures ToUpper(a + b) == ToUpper(a) + ToUpper(b)
  {
  }

  /** Upper-casing commutes with `trim` as well. */
  lemma TrimToUpperCommute(s: string)
    ensures Trim(ToUpper(s)) == ToUpper(Trim(s))
  {
    var r := Trim(s);
    var pre, post := TrimSplits(s);
    ToUpperAppend(pre + r, post);
    ToUpperAppend(pre, r);
    assert ToUpper(s) == ToUpper(pre) + ToUpper(r) + ToUpper(post);
    ToUpperKeepsWhitespace(pre);
    ToUpperKeepsWhitespace(post);
    ToUpperKeepsWhitespace(r);
    TrimOfPadded(ToUpper(pre), ToUpper(r), ToUpper(post));
  }

  // ---- searching ----

  /** `String.prototype.startsWith`. */
  predicate StartsWith(s: string, prefix: string) {
    |prefix| <= |s| && s[..|prefix|] == prefix
  }

  /** `String.prototype.endsWith`. */
  predicate EndsWith(s: string, suffix: string) {
    |suffix| <= |s| && s[|s| - |suffix|..] == suffix
  }

  /** `String.prototype.includes`. */
  predicate Contains(s: string, sub: string) {
    exists i | 0 <= i <= |s| - |sub| :: OccursAt(s, sub, i)
  }

  predicate OccursAt(s: string, sub: string, i: int)
    requires 0 <= i <= |s| - |sub|
  {
    s[i..i + |sub|] == sub
  }

  /** A string lacking one of a needle's characters does not contain the needle. */
  lemma MissingCharNoContains(s: string, sub: string, c: char)
    requires c in sub && c !in s
    ensures !Contains(s, sub)
  {
    var k :| 0 <= k < |sub| && sub[k] == c;
    forall i | 0 <= i <= |s| - |sub| ensures !OccursAt(s, sub, i) {
      assert s[i..i + |sub|][k] == s[i + k] != c;
    }
  }

  /** `String.prototype.lastIndexOf` for a one-character needle: -1 when absent. */
  function LastIndexOf(s: string, c: char): (r: int)
    ensures -1 <= r < |s|
    ensures r >= 0 ==> s[r] == c
    ensures forall i | r < i < |s| :: s[i] != c
  {
    if |s| == 0 then -1
    else if s[|s| - 1] == c then |s| - 1
    else LastIndexOf(s[..|s| - 1], c)
  }

  /** The normal form used for folder ids, duplicate keys and the search query: trimmed, then lower-cased. */
  function Normalize(s: string): (r: string)
    ensures IsTrimmed(r)
    ensures |r| <= |s|
    ensures ToLower(r) == r
  {
    ToLowerKeepsWhitespace(Trim(s));
    ToLowerIdempotent(Trim(s));
    ToLower(Trim(s))
  }

  /** Normalizing is idempotent. */
  lemma NormalizeIdempotent(s: string)
    ensures Normalize(Normalize(s)) == Normalize(s)
  {
    var n := Normalize(s);
    TrimOfPadded([], n, []);
    assert [] + n + [] == n;
  }

  lemma Regroup(a: string, b: string, c: string, d: string, e: string)
    ensures a + (b + c + d) + e == (a + b) + c + (d + e)
  {
  }

  /** Surrounding whitespace does not change the trimmed form. */
  lemma TrimIgnoresPadding(pre: string, x: string, post: string)
    requires AllWhitespace(pre) && AllWhitespace(post)
    ensures Trim(pre + x + post) == Trim(x)
  {
    var t := Trim(x);
    var xpre, xpost := TrimSplits(x);
    AllWhitespaceAppend(pre, xpre);
    AllWhitespaceAppend(xpost, post);
    Regroup(pre, xpre, t, xpost, post);
    TrimOfPadded(pre + xpre, t, xpost + post);
  }

  /** Surrounding whitespace and letter case do not change the normal form. */
  lemma NormalizeIgnoresPaddingAndCase(pre: string, x: string, post: string)
    requires AllWhitespace(pre) && AllWhitespace(post)
    ensures Normalize(pre + x + post) == Normalize(x)
    ensures Normalize(ToLower(x)) == Normalize(x)
  {
    TrimIgnoresPadding(pre, x, post);
    TrimToLowerCommute(x);
    ToLowerIdempotent(Trim(x));
  }
}
