/**
 * The Python `str` operations the application relies on: `strip`, `startswith`,
 * the `in` test, `replace`, `join` and the `<` ordering, over strings of `char`.
 */
module Text {

  /**
   * The whitespace `strip()` removes: the characters for which `str.isspace()` holds,
   * that is the C0 controls 0x09-0x0D and 0x1C-0x1F, the space, 0x85, the no-break
   * space and the Unicode space and separator characters.
   */
  predicate IsSpace(c: char) {
    || '\U{0009}' <= c <= '\U{000D}'
    || '\U{001C}' <= c <= '\U{0020}'
    || c == '\U{0085}' || c == '\U{00A0}' || c == '\U{1680}'
    || '\U{2000}' <= c <= '\U{200A}'
    || c == '\U{2028}' || c == '\U{2029}' || c == '\U{202F}' || c == '\U{205F}' || c == '\U{3000}'
  }

  predicate AllSpace(s: string) {
    forall i :: 0 <= i < |s| ==> IsSpace(s[i])
  }

  /** Neither end of `s` is whitespace. */
  predicate Trimmed(s: string) {
    s == [] || (!IsSpace(s[0]) && !IsSpace(s[|s| - 1]))
  }

  /** How many whitespace characters `s` starts with. */
  function LeadingSpace(s: string): (n: nat)
    ensures n <= |s|
    ensures forall i :: 0 <= i < n ==> IsSpace(s[i])
    ensures n < |s| ==> !IsSpace(s[n])
    decreases |s|
  {
    if s != [] && IsSpace(s[0]) then 1 + LeadingSpace(s[1..]) else 0
  }

  /** How many whitespace characters `s` ends with. */
  function TrailingSpace(s: string): (n: nat)
    ensures n <= |s|
    ensures forall i :: |s| - n <= i < |s| ==> IsSpace(s[i])
    ensures n < |s| ==> !IsSpace(s[|s| - n - 1])
    decreases |s|
  {
    if s != [] && IsSpace(s[|s| - 1]) then 1 + TrailingSpace(s[..|s| - 1]) else 0
  }

  /** `s.strip()`: the part of `s` between its leading and its trailing whitespace. */
  function Strip(s: string): (r: string)
    ensures Trimmed(r)
    ensures |r| <= |s|
  {
    var t := s[LeadingSpace(s)..];
    t[..|t| - TrailingSpace(t)]
  }

  /** `s.strip()` is the slice of `s` that starts after its leading whitespace. */
  lemma StripSlice(s: string)
    ensures var i := LeadingSpace(s);
            i + |Strip(s)| <= |s| && s[i..i + |Strip(s)|] == Strip(s)
  {
  }

  /** `s.strip()` cuts only whitespace, and only from the two ends of `s`. */
  lemma StripCutsOnlyEnds(s: string)
    ensures var i := LeadingSpace(s);
            && i + |Strip(s)| <= |s|
            && s[i..i + |Strip(s)|] == Strip(s)
            && AllSpace(s[..i]) && AllSpace(s[i + |Strip(s)|..])
  {
    StripSlice(s);
    StripEndsAreSpace(s);
  }

  /** What `s.strip()` cuts from either end of `s` is whitespace. */
  lemma StripEndsAreSpace(s: string)
    ensures var i := LeadingSpace(s);
            && i + |Strip(s)| <= |s|
            && AllSpace(s[..i]) && AllSpace(s[i + |Strip(s)|..])
  {
    var i := LeadingSpace(s);
    var t := s[i..];
    var n := TrailingSpace(t);
    assert |Strip(s)| == |t| - n;
    assert s[i + |t| - n..] == t[|t| - n..];
  }

  /** Whatever occurs in `s.strip()` occurs in `s`. */
  lemma StripKeepsAbsence(s: string, q: string)
    requires !Contains(s, q)
    ensures !Contains(Strip(s), q)
  {
    StripSlice(s);
    var i := LeadingSpace(s);
    if Contains(Strip(s), q) {
      ContainsWithin(s, i, i + |Strip(s)|, q);
    }
  }

  /** A string that starts with exactly `n` whitespace characters has `n` leading spaces. */
  lemma {:induction false} LeadingSpaceIs(s: string, n: nat)
    requires n <= |s| && AllSpace(s[..n]) && (n == |s| || !IsSpace(s[n]))
    ensures LeadingSpace(s) == n
    decreases n
  {
    if n > 0 {
      assert IsSpace(s[..n][0]);
      assert s[1..][..n - 1] == s[..n][1..];
      LeadingSpaceIs(s[1..], n - 1);
    }
  }

  /** Stripping a string that has no whitespace at either end gives it back. */
  lemma StripTrimmed(s: string)
    requires Trimmed(s)
    ensures Strip(s) == s
  {
  }

  /** `s.startswith(p)` */
  predicate StartsWith(s: string, p: string) {
    |p| <= |s| && s[..|p|] == p
  }

  /** `p in s` */
  predicate Contains(s: string, p: string) {
    exists i :: 0 <= i <= |s| && StartsWith(s[i..], p)
  }

  lemma ContainsAt(s: string, p: string, i: nat)
    requires i <= |s| && StartsWith(s[i..], p)
    ensures Contains(s, p)
  {
  }

  /** The middle part of a concatenation occurs in it. */
  lemma ContainsMiddle(a: string, t: string, b: string)
    ensures Contains(a + t + b, t)
  {
    var s := a + t + b;
    assert s[|a|..][..|t|] == t;
    ContainsAt(s, t, |a|);
  }

  /** Text added after a string keeps what the string contains. */
  lemma ContainsExtend(x: string, y: string, t: string)
    requires Contains(x, t)
    ensures Contains(x + y, t)
  {
    var i :| 0 <= i <= |x| && StartsWith(x[i..], t);
    assert (x + y)[i..][..|t|] == x[i..][..|t|];
    ContainsAt(x + y, t, i);
  }

  /** Text added before a string keeps what the string contains. */
  lemma ContainsPrepend(x: string, y: string, t: string)
    requires Contains(y, t)
    ensures Contains(x + y, t)
  {
    var i :| 0 <= i <= |y| && StartsWith(y[i..], t);
    assert (x + y)[|x| + i..] == y[i..];
    ContainsAt(x + y, t, |x| + i);
  }

  /** The last two pieces of a concatenation occur in it together. */
  lemma ContainsLastTwo(x: string, a: string, b: string)
    ensures Contains(x + a + b, a + b)
  {
    assert x + a + b == x + (a + b) + [];
    ContainsMiddle(x, a + b, []);
  }

  /** The first piece of a five-way concatenation occurs in it. */
  lemma ContainsFirstPiece(t: string, a: string, b: string, c: string, d: string, e: string)
    ensures Contains(t + a + b + c + d + e, t)
  {
    assert t + a + b + c + d + e == [] + t + (a + b + c + d + e);
    ContainsMiddle([], t, a + b + c + d + e);
  }

  /** Two adjacent pieces of a concatenation occur in it together. */
  lemma ContainsPairedPieces(x: string, p: string, q: string, c: string, d: string, e: string)
    ensures Contains(x + p + q + c + d + e, p + q)
  {
    assert x + p + q + c + d + e == x + (p + q) + (c + d + e);
    ContainsMiddle(x, p + q, c + d + e);
  }

  /** Middles of different lengths make different concatenations. */
  lemma MiddleDiffers(a: string, b: string, e: string, c: string)
    requires |b| != |e|
    ensures a + b + c != a + e + c
  {
    assert |a + b + c| != |a + e + c|;
  }

  /** An occurrence inside a substring is an occurrence in the whole string. */
  lemma ContainsWithin(s: string, i: nat, j: nat, p: string)
    requires i <= j <= |s|
    requires Contains(s[i..j], p)
    ensures Contains(s, p)
  {
    var k :| 0 <= k <= j - i && StartsWith(s[i..j][k..], p);
    var w := s[i..j][k..];
    assert |p| <= |w| && w[..|p|] == p;
    assert s[i + k..][..|p|] == w[..|p|];
    ContainsAt(s, p, i + k);
  }

  /** A string that contains `p` contains every piece of `p`. */
  lemma ContainsPart(s: string, p: string, i: nat, j: nat)
    requires i <= j <= |p|
    ensures Contains(s, p) ==> Contains(s, p[i..j])
  {
    if Contains(s, p) {
      var k :| 0 <= k <= |s| && StartsWith(s[k..], p);
      assert s[k + i..][..j - i] == p[i..j];
      ContainsAt(s, p[i..j], k + i);
    }
  }

  /**
   * `s.replace(pat, rep)`: every occurrence of `pat`, found left to right and
   * never overlapping, is replaced by `rep`. An absent pattern leaves `s` as it is.
   */
  function Replace(s: string, pat: string, rep: string): (r: string)
    requires pat != []
    ensures !Contains(s, pat) ==> r == s
    decreases |s|
  {
    if s == [] then []
    else if StartsWith(s, pat) then
      assert StartsWith(s[0..], pat);
      rep + Replace(s[|pat|..], pat, rep)
    else
      NotContainedInTail(s, pat);
      [s[0]] + Replace(s[1..], pat, rep)
  }

  /** A string without `p` has no `p` in any of its suffixes. */
  lemma NotContainedInSuffix(s: string, k: nat, p: string)
    requires k <= |s|
    ensures !Contains(s, p) ==> !Contains(s[k..], p)
  {
    if !Contains(s, p) {
      forall i | 0 <= i <= |s| - k ensures !StartsWith(s[k..][i..], p) {
        assert s[k..][i..] == s[k + i..];
      }
    }
  }

  lemma NotContainedInTail(s: string, p: string)
    requires s != []
    ensures !Contains(s, p) ==> !Contains(s[1..], p)
  {
    NotContainedInSuffix(s, 1, p);
  }

  /** Text that cannot start `q` put in front of text without `q` does not create `q`. */
  lemma PrependAvoids(pre: string, t: string, q: string)
    requires q != [] && !Contains(t, q)
    requires forall k :: 0 <= k < |pre| ==> pre[k] != q[0]
    ensures !Contains(pre + t, q)
  {
    var r := pre + t;
    forall i | 0 <= i <= |r| ensures !StartsWith(r[i..], q) {
      if i < |pre| {
        assert r[i..][0] == pre[i];
      } else {
        assert r[i..] == t[i - |pre|..];
      }
    }
  }

  /** One character put in front of text without `q` creates `q` only by completing it. */
  lemma ConsAvoids(c: char, t: string, q: string)
    requires q != [] && !Contains(t, q)
    requires !(c == q[0] && StartsWith(t, q[1..]))
    ensures !Contains([c] + t, q)
  {
    var r := [c] + t;
    forall i | 0 <= i <= |r| ensures !StartsWith(r[i..], q) {
      if i == 0 {
        assert r[1..] == t;
        if |q| <= |r| {
          assert r[..|q|] == [c] + t[..|q| - 1];
        }
      } else {
        assert r[i..] == t[i - 1..];
      }
    }
  }

  /** A string starts with `q` when its first character and its tail do. */
  lemma ConsStartsWith(s: string, q: string)
    requires s != [] && q != []
    ensures s[0] == q[0] && StartsWith(s[1..], q[1..]) ==> StartsWith(s, q)
  {
    if s[0] == q[0] && StartsWith(s[1..], q[1..]) {
      assert s[..|q|] == [s[0]] + s[1..][..|q| - 1];
    }
  }

  /** `a` and `b` differ at some position both of them have. */
  predicate Clash(a: string, b: string) {
    exists k :: 0 <= k < |a| && k < |b| && a[k] != b[k]
  }

  /**
   * Writing `rep` next to other text can never complete an occurrence of `q`:
   * `rep` does not hold the first character of `q`, and `rep` clashes with every
   * proper suffix of `q`.
   */
  predicate Unformable(q: string, rep: string) {
    && q != []
    && (forall k :: 0 <= k < |rep| ==> rep[k] != q[0])
    && (forall j :: 1 <= j < |q| ==> Clash(rep, q[j..]))
  }

  /** A sufficient test for `Unformable` that reads each string once. */
  lemma UnformableByHeads(q: string, rep: string)
    requires q != [] && rep != []
    requires q[0] !in rep
    requires rep[0] !in q[1..]
    ensures Unformable(q, rep)
  {
    forall j | 1 <= j < |q| ensures Clash(rep, q[j..]) {
      assert q[j..][0] == q[1..][j - 1];
      assert rep[0] != q[j..][0];
    }
  }

  /**
   * When `rep` cannot help form `q`, a replacement result that begins with a
   * proper suffix `q[j..]` of `q` came from text that began with it.
   */
  lemma {:induction false} ReplacePrefixBack(u: string, pat: string, rep: string, q: string, j: nat)
    requires pat != [] && Unformable(q, rep) && 1 <= j <= |q|
    ensures StartsWith(Replace(u, pat, rep), q[j..]) ==> StartsWith(u, q[j..])
    decreases |u|
  {
    var w := q[j..];
    var r := Replace(u, pat, rep);
    if w == [] || u == [] {
    } else if StartsWith(u, pat) {
      assert r == rep + Replace(u[|pat|..], pat, rep);
      var k :| 0 <= k < |rep| && k < |w| && rep[k] != w[k];
      assert r[k] == rep[k];
    } else {
      var t := Replace(u[1..], pat, rep);
      assert r == [u[0]] + t;
      assert q[j + 1..] == w[1..];
      ReplacePrefixBack(u[1..], pat, rep, q, j + 1);
      if StartsWith(r, w) {
        assert t[..|w| - 1] == r[1..|w|];
      }
      ConsStartsWith(u, w);
    }
  }

  /**
   * Replacing `pat` by `rep` leaves no occurrence of `q`, provided `q` is the
   * replaced pattern itself or did not occur before, and `rep` cannot help form `q`.
   */
  lemma {:induction false} ReplaceAvoids(s: string, pat: string, rep: string, q: string)
    requires pat != [] && Unformable(q, rep)
    requires q == pat || !Contains(s, q)
    ensures !Contains(Replace(s, pat, rep), q)
    decreases |s|
  {
    if s == [] {
    } else if StartsWith(s, pat) {
      var rest := s[|pat|..];
      NotContainedInSuffix(s, |pat|, q);
      ReplaceAvoids(rest, pat, rep, q);
      PrependAvoids(rep, Replace(rest, pat, rep), q);
    } else {
      var t := Replace(s[1..], pat, rep);
      NotContainedInTail(s, q);
      ReplaceAvoids(s[1..], pat, rep, q);
      ReplacePrefixBack(s[1..], pat, rep, q, 1);
      ConsStartsWith(s, q);
      assert StartsWith(s[0..], q) ==> Contains(s, q);
      ConsAvoids(s[0], t, q);
    }
  }

  /**
   * Text that starts with `w` still starts with `w` after replacing, when no
   * occurrence of `pat` can begin inside `w`.
   */
  lemma {:induction false} ReplaceKeepsPrefix(t: string, pat: string, rep: string, w: string)
    requires pat != [] && pat[0] !in w && StartsWith(t, w)
    ensures StartsWith(Replace(t, pat, rep), w)
    decreases |w|
  {
    if w != [] {
      assert t[0] == w[0] && !StartsWith(t, pat);
      assert w[1..] == t[1..][..|w| - 1];
      ReplaceKeepsPrefix(t[1..], pat, rep, w[1..]);
      ConsStartsWith(Replace(t, pat, rep), w);
    }
  }

  /** Two texts that one string starts with are prefixes of one another. */
  lemma SameStart(s: string, pat: string, q: string)
    requires StartsWith(s, pat)
    ensures StartsWith(s, q) ==> StartsWith(q, pat) || StartsWith(pat, q)
  {
    if StartsWith(s, q) {
      if |q| <= |pat| {
        assert pat[..|q|] == s[..|q|];
      } else {
        assert q[..|pat|] == s[..|pat|];
      }
    }
  }

  /** An occurrence of `q` cannot sit strictly inside the match of `pat` that `s` starts with. */
  lemma NoOccurrenceInsideMatch(s: string, pat: string, q: string, i: nat)
    requires pat != [] && q != [] && StartsWith(s, pat)
    requires q[0] !in pat[1..] && !StartsWith(q, pat) && !StartsWith(pat, q)
    requires i <= |s| && StartsWith(s[i..], q)
    ensures |pat| <= i
  {
    SameStart(s, pat, q);
    MatchTail(s, pat, i);
    assert i < |s| && s[i..][0] == q[0];
  }

  /** Inside a match of `pat` at the start of `s`, each later character of `s` is one of `pat`'s. */
  lemma MatchTail(s: string, pat: string, i: nat)
    requires StartsWith(s, pat)
    ensures 0 < i < |pat| ==> s[i] in pat[1..]
  {
    if 0 < i < |pat| {
      assert s[i] == pat[1..][i - 1];
    }
  }

  /**
   * `replace` keeps every occurrence of `q` when no occurrence of `pat` can overlap
   * one of `q`: neither starts with the other, and neither holds the first
   * character of the other after its own first position.
   */
  lemma {:induction false} ReplaceKeeps(s: string, pat: string, rep: string, q: string)
    requires pat != [] && q != []
    requires pat[0] !in q[1..] && q[0] !in pat[1..]
    requires !StartsWith(q, pat) && !StartsWith(pat, q)
    ensures Contains(s, q) ==> Contains(Replace(s, pat, rep), q)
    decreases |s|
  {
    if s != [] && Contains(s, q) {
      var i :| 0 <= i <= |s| && StartsWith(s[i..], q);
      if StartsWith(s, pat) {
        NoOccurrenceInsideMatch(s, pat, q, i);
        var rest := s[|pat|..];
        assert rest[i - |pat|..] == s[i..];
        ContainsAt(rest, q, i - |pat|);
        ReplaceKeeps(rest, pat, rep, q);
        ContainsPrepend(rep, Replace(rest, pat, rep), q);
      } else if i == 0 {
        assert s[1..][..|q| - 1] == q[1..];
        ReplaceKeepsPrefix(s[1..], pat, rep, q[1..]);
        ConsStartsWith(Replace(s, pat, rep), q);
        ContainsAt(Replace(s, pat, rep), q, 0);
      } else {
        assert s[1..][i - 1..] == s[i..];
        ContainsAt(s[1..], q, i - 1);
        ReplaceKeeps(s[1..], pat, rep, q);
        ContainsPrepend([s[0]], Replace(s[1..], pat, rep), q);
      }
    }
  }

  /** `sep.join(parts)` */
  function Join(sep: string, parts: seq<string>): string {
    if parts == [] then ""
    else if |parts| == 1 then parts[0]
    else parts[0] + sep + Join(sep, parts[1..])
  }

  /** Every part appears in the joined string. */
  lemma {:induction false} JoinContainsParts(sep: string, parts: seq<string>, k: nat)
    requires k < |parts|
    ensures Contains(Join(sep, parts), parts[k])
  {
    if |parts| == 1 {
      ContainsMiddle([], parts[0], []);
      assert [] + parts[0] + [] == Join(sep, parts);
    } else if k == 0 {
      ContainsMiddle([], parts[0], sep + Join(sep, parts[1..]));
      assert [] + parts[0] + (sep + Join(sep, parts[1..])) == Join(sep, parts);
    } else {
      JoinContainsParts(sep, parts[1..], k - 1);
      var j := Join(sep, parts[1..]);
      assert Join(sep, parts) == parts[0] + sep + j;
      assert Join(sep, parts)[|parts[0] + sep|..] == j;
      assert Join(sep, parts)[|parts[0] + sep|..|Join(sep, parts)|] == j;
      ContainsWithin(Join(sep, parts), |parts[0] + sep|, |Join(sep, parts)|, parts[k]);
    }
  }

  /** Joining non-empty parts gives the empty string only when there are no parts. */
  lemma JoinEmpty(sep: string, parts: seq<string>)
    requires forall k :: 0 <= k < |parts| ==> parts[k] != ""
    ensures Join(sep, parts) == "" <==> parts == []
  {
    if parts != [] {
      assert |parts[0]| > 0;
    }
  }

  /** Python's `a < b` on strings: code-point lexicographic order, a proper prefix first. */
  predicate Less(a: string, b: string)
    decreases |a|
  {
    if a == [] then b != []
    else if b == [] then false
    else if a[0] != b[0] then a[0] < b[0]
    else Less(a[1..], b[1..])
  }

  lemma {:induction false} LessIrreflexive(a: string)
    ensures !Less(a, a)
    decreases |a|
  {
    if a != [] {
      LessIrreflexive(a[1..]);
    }
  }

  lemma {:induction false} LessTransitive(a: string, b: string, c: string)
    requires Less(a, b) && Less(b, c)
    ensures Less(a, c)
    decreases |a|
  {
    if a != [] && a[0] == b[0] && b[0] == c[0] {
      LessTransitive(a[1..], b[1..], c[1..]);
    }
  }

  /** Any two different strings are ordered one way or the other. */
  lemma {:induction false} LessTotal(a: string, b: string)
    ensures a == b || Less(a, b) || Less(b, a)
    decreases |a|
  {
    if a != [] && b != [] && a[0] == b[0] {
      LessTotal(a[1..], b[1..]);
      if a[1..] == b[1..] {
        assert a == [a[0]] + a[1..] && b == [b[0]] + b[1..];
      }
    }
  }

  lemma LessAsymmetric(a: string, b: string)
    requires Less(a, b)
    ensures !Less(b, a)
  {
    if Less(b, a) {
      LessTransitive(a, b, a);
      LessIrreflexive(a);
    }
  }
}
