/**
  The JavaScript string and array primitives the core is written with
  (`indexOf`, `includes`, `replace`, `lastIndexOf`, `substring`, `split(c)[0]`,
  and the `filter((x, i) => xs.indexOf(x) === i)` / `[...new Set(xs)]` de-duplication),
  each with its meaning stated as a contract.
*/
module Strings {
  import opened Wrappers

  /** `p` occurs in `s` starting at index `i`. */
  predicate OccursAt(s: string, p: string, i: nat) {
    i + |p| <= |s| && s[i..i + |p|] == p
  }

  /** `s.indexOf(p)`: the first index at which `p` occurs in `s`, or -1. */
  function IndexOf(s: string, p: string): (r: int)
    ensures -1 <= r <= |s|
    ensures r >= 0 ==> OccursAt(s, p, r)
    ensures r >= 0 ==> forall j :: 0 <= j < r ==> !OccursAt(s, p, j)
    ensures r < 0 ==> r == -1 && forall j :: 0 <= j <= |s| ==> !OccursAt(s, p, j)
    decreases |s|
  {
    if OccursAt(s, p, 0) then 0
    else if |s| == 0 then -1
    else
      var k := IndexOf(s[1..], p);
      ShiftOccurrence(s, p);
      if k < 0 then -1 else k + 1
  }

  /** An occurrence in `s[1..]` is an occurrence in `s`, one index later. */
  lemma ShiftOccurrence(s: string, p: string)
    requires |s| > 0
    ensures forall j :: 1 <= j <= |s| ==> (OccursAt(s[1..], p, j - 1) <==> OccursAt(s, p, j))
  {
    forall j | 1 <= j <= |s|
      ensures OccursAt(s[1..], p, j - 1) <==> OccursAt(s, p, j)
    {
      if j + |p| <= |s| {
        assert s[1..][j - 1..j - 1 + |p|] == s[j..j + |p|];
      }
    }
  }

  /** `s.includes(p)`. */
  predicate Contains(s: string, p: string) {
    IndexOf(s, p) >= 0
  }

  /**
    The text `replace` inserts for the replacement `q` when the match `m` lies between
    `before` and `after`. A string pattern has no capture groups, so only four patterns
    are special: "$$" gives '$', "$&" the match, "$`" the text before it and "$'" the
    text after it; every other '$' stands for itself.
  */
  function Substitution(q: string, m: string, before: string, after: string): (r: string)
    ensures '$' !in q ==> r == q
    decreases |q|
  {
    if |q| == 0 then []
    else if q[0] == '$' && |q| >= 2 && q[1] in "$&`'" then
      (if q[1] == '$' then "$" else if q[1] == '&' then m else if q[1] == '`' then before else after)
      + Substitution(q[2..], m, before, after)
    else [q[0]] + Substitution(q[1..], m, before, after)
  }

  /** The four special patterns, and a '$' before any other character kept as it is. */
  lemma SubstitutionPatterns(m: string, before: string, after: string, c: char)
    requires c !in "$&`'"
    ensures Substitution("$$", m, before, after) == "$"
    ensures Substitution("$&", m, before, after) == m
    ensures Substitution("$`", m, before, after) == before
    ensures Substitution("$'", m, before, after) == after
    ensures Substitution(['$', c], m, before, after) == ['$', c]
  {
    assert Substitution([], m, before, after) == [];
    assert "$&"[2..] == [] && "$$"[2..] == [] && "$`"[2..] == [] && "$'"[2..] == [];
    assert ['$', c][1..] == [c];
    assert Substitution([c], m, before, after) == [c] + Substitution([], m, before, after);
  }

  /** A '$'-free start of the replacement is inserted as it is, whatever follows it. */
  lemma {:induction false} SubstitutionLiteralPrefix(x: string, q: string, m: string, before: string, after: string)
    requires '$' !in x
    ensures Substitution(x + q, m, before, after) == x + Substitution(q, m, before, after)
    decreases |x|
  {
    if |x| > 0 {
      assert x[0] != '$' && '$' !in x[1..];
      assert (x + q)[0] == x[0] && (x + q)[1..] == x[1..] + q;
      assert Substitution(x + q, m, before, after) == [x[0]] + Substitution(x[1..] + q, m, before, after);
      SubstitutionLiteralPrefix(x[1..], q, m, before, after);
      assert x == [x[0]] + x[1..];
    } else {
      assert x + q == q;
    }
  }

  /** `s.replace(p, q)` with a string pattern: only the first occurrence is replaced. */
  function ReplaceFirst(s: string, p: string, q: string): (r: string)
    ensures IndexOf(s, p) < 0 ==> r == s
    ensures IndexOf(s, p) >= 0 && '$' !in q ==> |r| == |s| - |p| + |q|
  {
    var i := IndexOf(s, p);
    if i < 0 then s else Spliced(s, i, p, q)
  }

  /** The occurrence of `p` at `i` replaced by the substitution for `q`. */
  function Spliced(s: string, i: nat, p: string, q: string): (r: string)
    requires i + |p| <= |s|
    ensures '$' !in q ==> r == s[..i] + q + s[i + |p|..]
  {
    s[..i] + Substitution(q, p, s[..i], s[i + |p|..]) + s[i + |p|..]
  }

  /**
    When `p` first occurs at `k`, the replacement happens there: the text before `k`,
    the substitution for `q`, then the text after that occurrence (`q` itself when it
    holds no '$').
  */
  lemma ReplaceFirstAt(s: string, p: string, q: string, k: nat)
    requires OccursAt(s, p, k)
    requires forall j :: 0 <= j < k ==> !OccursAt(s, p, j)
    ensures IndexOf(s, p) == k
    ensures ReplaceFirst(s, p, q) == s[..k] + Substitution(q, p, s[..k], s[k + |p|..]) + s[k + |p|..]
    ensures '$' !in q ==> ReplaceFirst(s, p, q) == s[..k] + q + s[k + |p|..]
  {
    FirstOccurrence(s, p, k);
    assert ReplaceFirst(s, p, q) == Spliced(s, k, p, q);
  }

  /** An occurrence of `p` with none before it is the one `indexOf` finds. */
  lemma FirstOccurrence(s: string, p: string, k: nat)
    requires OccursAt(s, p, k)
    requires forall j :: 0 <= j < k ==> !OccursAt(s, p, j)
    ensures IndexOf(s, p) == k
  {
  }

  /** A position whose character differs from the first of `p` holds no occurrence of `p`. */
  lemma NoOccurrenceAt(s: string, p: string, j: nat)
    requires |p| > 0 && j < |s| && s[j] != p[0]
    ensures !OccursAt(s, p, j)
  {
    if j + |p| <= |s| {
      assert s[j..j + |p|][0] == s[j];
    }
  }

  /** `s.replace(/c/g, d)`: every `c` becomes `d`. */
  function ReplaceAllChar(s: string, c: char, d: char): (r: string)
    ensures |r| == |s|
    ensures c != d ==> c !in r
    ensures forall i :: 0 <= i < |s| && s[i] != c ==> r[i] == s[i]
    ensures forall i :: 0 <= i < |s| && s[i] == c ==> r[i] == d
  {
    if |s| == 0 then []
    else [if s[0] == c then d else s[0]] + ReplaceAllChar(s[1..], c, d)
  }

  /** `s.lastIndexOf(c)` for a one-character pattern: the last index holding `c`, or -1. */
  function LastIndexOfChar(s: string, c: char): (r: int)
    ensures -1 <= r < |s|
    ensures r >= 0 ==> s[r] == c
    ensures forall j :: r < j < |s| ==> s[j] != c
  {
    if |s| == 0 then -1
    else if s[|s| - 1] == c then |s| - 1
    else LastIndexOfChar(s[..|s| - 1], c)
  }

  /** JavaScript `s.substring(a, b)`: both ends clamped to [0, |s|], swapped when out of order. */
  function Substring(s: string, a: int, b: int): (r: string)
    ensures |r| <= |s|
    ensures 0 <= a <= b <= |s| ==> r == s[a..b]
    ensures 0 <= b <= a <= |s| ==> r == s[b..a]
    ensures 0 <= a <= |s| <= b ==> r == s[a..]
    ensures a <= 0 && b <= 0 ==> r == []
  {
    var lo := if a < 0 then 0 else if a > |s| then |s| else a;
    var hi := if b < 0 then 0 else if b > |s| then |s| else b;
    if lo <= hi then s[lo..hi] else s[hi..lo]
  }

  /** `xs.slice(start, end)` for non-negative bounds: both clamped to the length, empty when `start >= end`. */
  function Slice<T>(xs: seq<T>, start: nat, end: nat): (r: seq<T>)
    ensures |r| <= |xs|
    ensures start <= end ==> |r| <= end - start
    ensures end <= |xs| && start <= end ==> r == xs[start..end]
  {
    var lo := if start < |xs| then start else |xs|;
    var hi := if end < |xs| then end else |xs|;
    if lo < hi then xs[lo..hi] else []
  }

  /** Adjacent slices join up: `xs.slice(x, a)` followed by `xs.slice(a, b)` is `xs.slice(x, max(a, b))`. */
  lemma SliceConcat<T>(xs: seq<T>, x: nat, a: nat, b: nat)
    requires x <= a
    ensures Slice(xs, x, a) + Slice(xs, a, b) == Slice(xs, x, if a <= b then b else a)
  {
    if b <= a || |xs| <= a {
      assert Slice(xs, a, b) == [];
    } else {
      var m := if b < |xs| then b else |xs|;
      assert Slice(xs, x, a) == xs[x..a] && Slice(xs, a, b) == xs[a..m] && Slice(xs, x, b) == xs[x..m];
      assert xs[x..a] + xs[a..m] == xs[x..m];
    }
  }

  /** `s.split(c)[0]`: the text before the first `c`, or all of `s`. */
  function PrefixBefore(s: string, c: char): (r: string)
    ensures c !in r
    ensures r <= s
    ensures c !in s ==> r == s
    ensures |r| < |s| ==> s[|r|] == c
  {
    if |s| == 0 || s[0] == c then []
    else [s[0]] + PrefixBefore(s[1..], c)
  }

  /** No element occurs twice. */
  predicate Distinct<T(==)>(s: seq<T>) {
    forall i, j :: 0 <= i < j < |s| ==> s[i] != s[j]
  }

  /**
    `xs.filter((x, i) => xs.indexOf(x) === i)`, which also is the iteration order of
    `[...new Set(xs)]`: element `i` is kept exactly when it does not occur in `xs[..i]`.
  */
  function Dedup<T(==)>(xs: seq<T>): (r: seq<T>)
    ensures |r| <= |xs|
  {
    if |xs| == 0 then []
    else
      var init := xs[..|xs| - 1];
      var last := xs[|xs| - 1];
      Dedup(init) + (if last in init then [] else [last])
  }

  /** De-duplication keeps exactly the elements it is given. */
  lemma {:induction false} DedupMember<T>(xs: seq<T>, x: T)
    ensures x in Dedup(xs) <==> x in xs
  {
    if |xs| > 0 {
      var init := xs[..|xs| - 1];
      DedupMember(init, x);
      assert xs == init + [xs[|xs| - 1]];
    }
  }

  lemma DedupElements<T>(xs: seq<T>)
    ensures forall x :: x in Dedup(xs) <==> x in xs
  {
    forall x ensures x in Dedup(xs) <==> x in xs {
      DedupMember(xs, x);
    }
  }

  lemma {:induction false} DedupDistinct<T>(xs: seq<T>)
    ensures Distinct(Dedup(xs))
  {
    if |xs| > 0 {
      var init := xs[..|xs| - 1];
      DedupDistinct(init);
      DedupElements(init);
    }
  }

  /** A sequence without duplicates is left as it is. */
  lemma {:induction false} DedupOfDistinct<T>(xs: seq<T>)
    requires Distinct(xs)
    ensures Dedup(xs) == xs
  {
    if |xs| > 0 {
      var init := xs[..|xs| - 1];
      assert Distinct(init);
      DedupOfDistinct(init);
      assert xs[|xs| - 1] !in init by {
        forall i | 0 <= i < |init| ensures init[i] != xs[|xs| - 1] {
          assert init[i] == xs[i];
        }
      }
      assert xs == init + [xs[|xs| - 1]];
    }
  }

  /** With a duplicate-free front `q`, de-duplicating `q + ys` keeps `q` as it is in front. */
  lemma {:induction false} DedupKeepsDistinctPrefix<T>(q: seq<T>, ys: seq<T>)
    requires Distinct(q)
    ensures |Dedup(q + ys)| >= |q|
    ensures Dedup(q + ys)[..|q|] == q
  {
    if |ys| == 0 {
      assert q + ys == q;
      DedupOfDistinct(q);
    } else {
      var init := ys[..|ys| - 1];
      DedupKeepsDistinctPrefix(q, init);
      assert (q + ys)[..|q + ys| - 1] == q + init;
    }
  }

  /** The index of the first occurrence of `x` in `xs`. */
  function FirstIndex<T(==)>(xs: seq<T>, x: T): (i: nat)
    requires x in xs
    ensures i < |xs| && xs[i] == x && x !in xs[..i]
  {
    if xs[0] == x then 0 else FirstIndex(xs[1..], x) + 1
  }

  /** The first index of an element of a prefix is the same in the whole sequence. */
  lemma {:induction false} FirstIndexInPrefix<T>(xs: seq<T>, k: nat, x: T)
    requires k <= |xs| && x in xs[..k]
    ensures x in xs && FirstIndex(xs, x) == FirstIndex(xs[..k], x)
  {
    var i := FirstIndex(xs[..k], x);
    var j := FirstIndex(xs, x);
    assert xs[..k][..i] == xs[..i];
  }

  /** De-duplication keeps first occurrences in their original order. */
  lemma {:induction false} DedupKeepsFirstOccurrenceOrder<T>(xs: seq<T>, i: nat, j: nat)
    requires i < j < |Dedup(xs)|
    ensures Dedup(xs)[i] in xs && Dedup(xs)[j] in xs
    ensures FirstIndex(xs, Dedup(xs)[i]) < FirstIndex(xs, Dedup(xs)[j])
  {
    var init := xs[..|xs| - 1];
    var last := xs[|xs| - 1];
    var x, y := Dedup(xs)[i], Dedup(xs)[j];
    assert Dedup(xs) == Dedup(init) + (if last in init then [] else [last]);
    DedupElements(init);
    DedupElements(xs);
    assert x in Dedup(xs) && y in Dedup(xs);
    assert x == Dedup(init)[i];
    DedupMember(init, x);
    FirstIndexInPrefix(xs, |xs| - 1, x);
    if j < |Dedup(init)| {
      assert y == Dedup(init)[j];
      DedupMember(init, y);
      DedupKeepsFirstOccurrenceOrder(init, i, j);
      FirstIndexInPrefix(xs, |xs| - 1, y);
    } else {
      assert y == last && last !in init;
      assert FirstIndex(xs, last) == |xs| - 1;
    }
  }

  /** `xs.map(f).filter(y => y !== null)`: the values `f` gives, in order, its nulls dropped. */
  function Keep<A, B>(xs: seq<A>, f: A -> Option<B>): seq<B> {
    if |xs| == 0 then []
    else
      var init := Keep(xs[..|xs| - 1], f);
      match f(xs[|xs| - 1])
      case None => init
      case Some(y) => init + [y]
  }

  /** An element is kept exactly when some input maps to it. */
  lemma {:induction false} KeepMember<A, B>(xs: seq<A>, f: A -> Option<B>, y: B)
    ensures y in Keep(xs, f) <==> exists k :: 0 <= k < |xs| && f(xs[k]) == Some(y)
  {
    if |xs| > 0 {
      var init := xs[..|xs| - 1];
      KeepMember(init, f, y);
      if y in Keep(init, f) {
        var k :| 0 <= k < |init| && f(init[k]) == Some(y);
        assert init[k] == xs[k];
      } else if f(xs[|xs| - 1]) != Some(y) {
        forall k | 0 <= k < |xs| ensures f(xs[k]) != Some(y) {
          if k < |init| {
            assert init[k] == xs[k];
          }
        }
      }
    }
  }

  /** Mapping and dropping nulls works piece by piece, so the kept values stay in input order. */
  lemma {:induction false} KeepAppend<A, B>(xs: seq<A>, ys: seq<A>, f: A -> Option<B>)
    ensures Keep(xs + ys, f) == Keep(xs, f) + Keep(ys, f)
  {
    if |ys| == 0 {
      assert xs + ys == xs;
    } else {
      var init := ys[..|ys| - 1];
      KeepAppend(xs, init, f);
      assert (xs + ys)[..|xs + ys| - 1] == xs + init;
    }
  }

  /** The decimal digit for `d`. */
  function DigitChar(d: nat): (c: char)
    requires d < 10
    ensures '0' <= c <= '9'
  {
    "0123456789"[d]
  }

  /** `${n}` for a non-negative integer: its decimal numeral. */
  function DecimalString(n: nat): (r: string)
    ensures |r| > 0
    ensures forall i :: 0 <= i < |r| ==> '0' <= r[i] <= '9'
  {
    if n < 10 then [DigitChar(n)] else DecimalString(n / 10) + [DigitChar(n % 10)]
  }
}
