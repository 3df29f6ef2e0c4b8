/**
  `validateLink` (src/utils.ts): the test of a string against

    ^(http|https)://[a-zA-Z0-9-.]+.[a-zA-Z]{2,3}(:[a-zA-Z0-9]*)?/?([a-zA-Z0-9-._?,'/+&amp;%$#=~])*[^.,)(s]$

  read with JavaScript's regular-expression rules as written: the '.' after
  the host is unescaped and so matches any character but a line terminator, `&amp;`
  inside the class contributes the characters '&', 'a', 'm', 'p' and ';', and the
  final class excludes the letter 's', not white space. `validateLink` in
  visual-testing/imgdiff.js spells the same expression with string escapes.

  `RegexMatches` is the language of the expression, written component by component;
  `ValidateLink` is a recogniser with a smaller search, proved to accept the same strings.
  A character here is a Unicode scalar value, where the expression (without the `u`
  flag) reads UTF-16 code units: a character outside the Basic Multilingual Plane is
  one character here and two for the expression.
*/
module Utils {

  predicate IsLetter(c: char) { 'a' <= c <= 'z' || 'A' <= c <= 'Z' }

  predicate IsDigit(c: char) { '0' <= c <= '9' }

  predicate IsAlnum(c: char) { IsLetter(c) || IsDigit(c) }

  /** `[a-zA-Z0-9-.]` */
  predicate IsHostChar(c: char) { IsAlnum(c) || c == '-' || c == '.' }

  /** The characters an unescaped `.` does not match. */
  predicate IsLineTerminator(c: char) { c == '\n' || c == '\r' || c == '\U{2028}' || c == '\U{2029}' }

  /** `[a-zA-Z0-9-._?,'/+&amp;%$#=~]` */
  predicate IsPathChar(c: char) { IsAlnum(c) || c in "-._?,'/+&;%$#=~" }

  /** `[^.,)(s]` */
  predicate IsFinalChar(c: char) { c !in ".,)(s" }

  predicate AllHostChars(s: string) { forall i :: 0 <= i < |s| ==> IsHostChar(s[i]) }

  predicate AllLetters(s: string) { forall i :: 0 <= i < |s| ==> IsLetter(s[i]) }

  predicate AllAlnum(s: string) { forall i :: 0 <= i < |s| ==> IsAlnum(s[i]) }

  predicate AllPathChars(s: string) { forall i :: 0 <= i < |s| ==> IsPathChar(s[i]) }

  /** `(:[a-zA-Z0-9]*)?` */
  predicate PortPart(s: string) { s == [] || (s[0] == ':' && AllAlnum(s[1..])) }

  /** `/?` */
  predicate SlashPart(s: string) { s == [] || s == "/" }

  /**
    The text after the scheme splits at `a < b <= c <= d < |r|` into host `r[..a]`,
    any character `r[a]`, two or three letters `r[a+1..b]`, port `r[b..c]`,
    slash `r[c..d]`, path `r[d..|r|-1]` and the final character `r[|r|-1]`.
  */
  ghost predicate SplitsAt(r: string, a: nat, b: nat, c: nat, d: nat) {
    && 0 < a && a + 3 <= b <= a + 4 && b <= c <= d < |r|
    && AllHostChars(r[..a])
    && !IsLineTerminator(r[a])
    && AllLetters(r[a + 1..b])
    && PortPart(r[b..c])
    && SlashPart(r[c..d])
    && AllPathChars(r[d..|r| - 1])
    && IsFinalChar(r[|r| - 1])
  }

  ghost predicate AfterSchemeMatches(r: string) {
    exists a: nat, b: nat, c: nat, d: nat :: SplitsAt(r, a, b, c, d)
  }

  /** The language of the expression: `^(http|https)://` followed by the rest. */
  ghost predicate RegexMatches(s: string) {
    || (|s| >= 7 && s[..7] == "http://" && AfterSchemeMatches(s[7..]))
    || (|s| >= 8 && s[..8] == "https://" && AfterSchemeMatches(s[8..]))
  }

  /** What may stand between the letters and the final character: a path, or ':' and a path. */
  predicate TailOk(v: string) {
    forall i :: 0 <= i < |v| ==> IsPathChar(v[i]) || (i == 0 && v[i] == ':')
  }

  /** The search `ValidateLink` makes: host `r[..a]`, any character, letters `r[a+1..b]`, then the tail. */
  predicate HostSplit(r: string, a: nat, b: nat)
    requires 0 < a && a + 3 <= b < |r|
  {
    && AllHostChars(r[..a])
    && !IsLineTerminator(r[a])
    && AllLetters(r[a + 1..b])
    && TailOk(r[b..|r| - 1])
    && IsFinalChar(r[|r| - 1])
  }

  /** A host of length `a`, any character, then two or three letters, then the tail. */
  predicate HostSplitAt(r: string, a: nat)
    requires 0 < a
  {
    (a + 3 < |r| && HostSplit(r, a, a + 3)) || (a + 4 < |r| && HostSplit(r, a, a + 4))
  }

  predicate AfterSchemeOk(r: string) {
    exists a: nat | 0 < a < |r| :: HostSplitAt(r, a)
  }

  /** A split found by the search is a split of the expression, and conversely. */
  lemma AfterSchemeOkIff(r: string)
    ensures AfterSchemeOk(r) <==> AfterSchemeMatches(r)
  {
    if AfterSchemeOk(r) {
      var a: nat :| 0 < a < |r| && HostSplitAt(r, a);
      var b := if a + 3 < |r| && HostSplit(r, a, a + 3) then a + 3 else a + 4;
      SearchSplitMatches(r, a, b);
    }
    if AfterSchemeMatches(r) {
      var a: nat, b: nat, c: nat, d: nat :| SplitsAt(r, a, b, c, d);
      MatchIsFound(r, a, b, c, d);
    }
  }

  /** A split found by the search, with the port and slash parts chosen from the tail. */
  lemma SearchSplitMatches(r: string, a: nat, b: nat)
    requires 0 < a && a + 3 <= b <= a + 4 && b < |r| && HostSplit(r, a, b)
    ensures AfterSchemeMatches(r)
  {
    var v := r[b..|r| - 1];
    if |v| > 0 && v[0] == ':' {
      var w := r[b + 1..|r| - 1];
      assert AllPathChars(w) by {
        forall i | 0 <= i < |w| ensures IsPathChar(w[i]) {
          assert w[i] == v[i + 1];
        }
      }
      assert r[b + 1..b + 1] == [];
      assert SplitsAt(r, a, b, b + 1, b + 1);
    } else {
      assert AllPathChars(v) by {
        assert TailOk(v);
      }
      assert SplitsAt(r, a, b, b, b);
    }
  }

  /** A split of the expression is found by the search at the same host length. */
  lemma MatchIsFound(r: string, a: nat, b: nat, c: nat, d: nat)
    requires SplitsAt(r, a, b, c, d)
    ensures AfterSchemeOk(r)
  {
    var v := r[b..|r| - 1];
    forall i | 0 <= i < |v| ensures IsPathChar(v[i]) || (i == 0 && v[i] == ':') {
      if b + i < c {
        assert v[i] == r[b..c][i];
        if i > 0 { assert r[b..c][i] == r[b..c][1..][i - 1]; }
      } else if b + i < d {
        assert v[i] == r[c..d][b + i - c];
      } else {
        assert v[i] == r[d..|r| - 1][b + i - d];
      }
    }
    assert HostSplit(r, a, b);
    assert HostSplitAt(r, a);
  }

  /** `validateLink(link)`: whether `link` matches the expression. */
  function ValidateLink(link: string): (ok: bool)
    ensures ok <==> RegexMatches(link)
  {
    AfterSchemeOkIff(if |link| >= 7 then link[7..] else []);
    AfterSchemeOkIff(if |link| >= 8 then link[8..] else []);
    || (|link| >= 7 && link[..7] == "http://" && AfterSchemeOk(link[7..]))
    || (|link| >= 8 && link[..8] == "https://" && AfterSchemeOk(link[8..]))
  }

  /** Only http and https URLs are accepted. */
  lemma AcceptedHasWebScheme(link: string)
    requires ValidateLink(link)
    ensures link[..7] == "http://" || link[..8] == "https://"
  {
  }

  /** An accepted link never ends in '.', ',', ')', '(' or the letter 's'. */
  lemma AcceptedFinalChar(link: string)
    ensures ValidateLink(link) ==> |link| > 0 && IsFinalChar(link[|link| - 1])
  {
    if ValidateLink(link) {
      var k := if |link| >= 7 && link[..7] == "http://" && AfterSchemeOk(link[7..]) then 7 else 8;
      var r := link[k..];
      var a: nat :| 0 < a < |r| && HostSplitAt(r, a);
      assert r[|r| - 1] == link[|link| - 1];
    }
  }

  /** Because the last class excludes the letter 's', a path ending in "s" is rejected. */
  lemma RejectsTrailingS()
    ensures !ValidateLink("https://site.com/posts")
  {
    var link := "https://site.com/posts";
    AcceptedFinalChar(link);
    assert link[|link| - 1] == 's';
  }

  /** The same page without the final 's' is accepted. */
  lemma AcceptsSitePost()
    ensures ValidateLink("https://site.com/post")
  {
    var r := "site.com/post";
    assert "https://site.com/post"[8..] == r;
    assert r[..4] == "site" && r[5..8] == "com" && r[8..12] == "/pos";
    assert HostSplit(r, 4, 8);
    assert HostSplitAt(r, 4);
  }
}
