/**
 * `markdown_to_clean_text` (app/main.py): bold and italic markers are dropped,
 * checkboxes and line-start dashes become bullets, and the result is stripped.
 * Each `re.sub` is a left-to-right scanner; `.` in the patterns never matches a
 * line break, and `^` under MULTILINE matches at the start of the text and after
 * every line break.
 */
module Cleaner {
  import opened Wrappers
  import opened Text

  const Bold := "**"
  const Italic := "*"
  const Bullet := "• "
  const OpenBox := "- [ ] "
  const CheckedBox := "- [x] "
  const Dash := "- "
  /** A box ticked with a capital X, which the case-sensitive patterns do not match. */
  const CapitalBox := "- [X] "

  /** A marker made of asterisks only. */
  predicate IsStars(d: string) {
    d != [] && forall i :: 0 <= i < |d| ==> d[i] == '*'
  }

  /**
   * Where the lazy `(.*?)` followed by `d` stops when it starts at `k`: the first
   * occurrence of `d` at or after `k` with no line break before it, if there is one.
   */
  function CloseAt(s: string, d: string, k: nat): (r: Option<nat>)
    requires k <= |s|
    ensures r.Some? ==> k <= r.value <= |s| && StartsWith(s[r.value..], d)
    decreases |s| - k
  {
    if StartsWith(s[k..], d) then Some(k)
    else if k == |s| || s[k] == '\n' then None
    else CloseAt(s, d, k + 1)
  }

  /**
   * `CloseAt` is the shortest match: no marker and no line break comes before the
   * position it finds, and when it finds none, no marker follows on the same line.
   */
  lemma {:induction false} CloseAtFirst(s: string, d: string, k: nat)
    requires k <= |s|
    ensures var r := CloseAt(s, d, k);
            r.Some? ==> forall j :: k <= j < r.value ==> s[j] != '\n' && !StartsWith(s[j..], d)
    ensures CloseAt(s, d, k).None? ==>
              forall j :: k <= j <= |s| && (forall i :: k <= i < j ==> s[i] != '\n') ==> !StartsWith(s[j..], d)
    decreases |s| - k
  {
    if !StartsWith(s[k..], d) && k < |s| && s[k] != '\n' {
      CloseAtFirst(s, d, k + 1);
    }
  }

  /**
   * `re.sub(<d>(.*?)<d>, r'\1', s)` for a marker `d`: each match, taken left to right
   * without overlap, is replaced by the text between its markers.
   */
  function Unwrap(s: string, d: string): string
    requires d != []
    decreases |s|
  {
    if s == [] then []
    else match Opening(s, d)
      case Some(k) => s[|d|..k] + Unwrap(s[k + |d|..], d)
      case None => [s[0]] + Unwrap(s[1..], d)
  }

  /** Where the match that opens at the start of `s` closes, if one opens there. */
  function Opening(s: string, d: string): (r: Option<nat>)
    ensures r.Some? ==> StartsWith(s, d) && |d| <= r.value && r.value + |d| <= |s|
    ensures r.Some? ==> StartsWith(s[r.value..], d)
  {
    if StartsWith(s, d) then CloseAt(s, d, |d|) else None
  }

  /** Text without the marker passes unchanged. */
  lemma {:induction false} UnwrapAbsent(s: string, d: string)
    requires d != [] && !Contains(s, d)
    ensures Unwrap(s, d) == s
    decreases |s|
  {
    if s != [] {
      assert s[0..] == s;
      NotContainedInTail(s, d);
      UnwrapAbsent(s[1..], d);
      assert s == [s[0]] + s[1..];
    }
  }

  /** `CloseAt` finds the first marker when nothing before it stops the scan. */
  lemma {:induction false} CloseAtFinds(s: string, d: string, k: nat, c: nat)
    requires k <= c <= |s| && StartsWith(s[c..], d)
    requires forall j :: k <= j < c ==> s[j] != '\n' && !StartsWith(s[j..], d)
    ensures CloseAt(s, d, k) == Some(c)
    decreases c - k
  {
    if k < c {
      CloseAtFinds(s, d, k + 1, c);
    }
  }

  /** A marked span of one line with no asterisk inside loses exactly its markers. */
  lemma UnwrapSpan(d: string, x: string, rest: string)
    requires IsStars(d)
    requires '*' !in x && '\n' !in x
    ensures Unwrap(d + x + d + rest, d) == x + Unwrap(rest, d)
  {
    var s := d + x + d + rest;
    var c := |d| + |x|;
    assert s[c..][..|d|] == d;
    forall j | |d| <= j < c ensures s[j] != '\n' && !StartsWith(s[j..], d) {
      assert s[j] == x[j - |d|];
      assert s[j..][0] == s[j];
    }
    CloseAtFinds(s, d, |d|, c);
    assert s[..|d|] == d;
    assert Opening(s, d) == Some(c);
    assert s[|d|..c] == x;
    assert s[c + |d|..] == rest;
  }

  /** The text with every asterisk removed. */
  function Unstarred(s: string): string {
    if s == [] then [] else (if s[0] == '*' then [] else [s[0]]) + Unstarred(s[1..])
  }

  lemma {:induction false} UnstarredConcat(a: string, b: string)
    ensures Unstarred(a + b) == Unstarred(a) + Unstarred(b)
    decreases |a|
  {
    if a != [] {
      var h := if a[0] == '*' then [] else [a[0]];
      assert (a + b)[0] == a[0];
      assert (a + b)[1..] == a[1..] + b;
      UnstarredConcat(a[1..], b);
      calc {
        Unstarred(a + b);
        h + Unstarred(a[1..] + b);
        h + (Unstarred(a[1..]) + Unstarred(b));
        (h + Unstarred(a[1..])) + Unstarred(b);
        Unstarred(a) + Unstarred(b);
      }
    } else {
      assert a + b == b;
    }
  }

  lemma {:induction false} UnstarredStars(d: string)
    requires forall i :: 0 <= i < |d| ==> d[i] == '*'
    ensures Unstarred(d) == []
    decreases |d|
  {
    if d != [] {
      UnstarredStars(d[1..]);
    }
  }

  lemma UnstarredSplit(s: string, j: nat)
    requires j <= |s|
    ensures Unstarred(s) == Unstarred(s[..j]) + Unstarred(s[j..])
  {
    assert s == s[..j] + s[j..];
    UnstarredConcat(s[..j], s[j..]);
  }

  /** A leading marker holds no text. */
  lemma UnstarredDropMarker(s: string, d: string)
    requires IsStars(d) && |d| <= |s| && s[..|d|] == d
    ensures Unstarred(s) == Unstarred(s[|d|..])
  {
    UnstarredStars(d);
    UnstarredSplit(s, |d|);
  }

  /** The text of a match: what lies between its markers, then what follows it. */
  lemma UnstarredAroundMatch(s: string, d: string, k: nat)
    requires IsStars(d) && |d| <= k && k + |d| <= |s|
    requires s[..|d|] == d && s[k..][..|d|] == d
    ensures Unstarred(s) == Unstarred(s[|d|..k]) + Unstarred(s[k + |d|..])
  {
    var after, inner, closing, rest := s[|d|..], s[|d|..k], s[k..], s[k + |d|..];
    assert after[..k - |d|] == inner;
    assert after[k - |d|..] == closing;
    assert closing[|d|..] == rest;
    calc {
      Unstarred(s);
      { UnstarredDropMarker(s, d); }
      Unstarred(after);
      { UnstarredSplit(after, k - |d|); }
      Unstarred(inner) + Unstarred(closing);
      { UnstarredDropMarker(closing, d); }
      Unstarred(inner) + Unstarred(rest);
    }
  }

  /** A match is replaced by the text between its markers. */
  lemma UnwrapAtMatch(s: string, d: string, k: nat)
    requires d != [] && s != [] && Opening(s, d) == Some(k)
    ensures Unwrap(s, d) == s[|d|..k] + Unwrap(s[k + |d|..], d)
  {
  }

  /** A match keeps the text between its markers, and the rest is handled after it. */
  lemma UnwrapMatchKeepsText(s: string, d: string, k: nat)
    requires IsStars(d) && s != [] && Opening(s, d) == Some(k)
    requires Unstarred(Unwrap(s[k + |d|..], d)) == Unstarred(s[k + |d|..])
    ensures Unstarred(Unwrap(s, d)) == Unstarred(s)
  {
    var inner, rest := s[|d|..k], s[k + |d|..];
    var u := Unwrap(rest, d);
    assert s[..|d|] == d && s[k..][..|d|] == d;
    calc {
      Unstarred(Unwrap(s, d));
      { UnwrapAtMatch(s, d, k); }
      Unstarred(inner + u);
      { UnstarredConcat(inner, u); }
      Unstarred(inner) + Unstarred(u);
      Unstarred(inner) + Unstarred(rest);
      { UnstarredAroundMatch(s, d, k); }
      Unstarred(s);
    }
  }

  /** A character that opens no match is kept, and the rest is handled after it. */
  lemma UnwrapSkipKeepsText(s: string, d: string)
    requires IsStars(d) && s != [] && Opening(s, d).None?
    requires Unstarred(Unwrap(s[1..], d)) == Unstarred(s[1..])
    ensures Unstarred(Unwrap(s, d)) == Unstarred(s)
  {
    assert Unwrap(s, d) == [s[0]] + Unwrap(s[1..], d);
    UnstarredSplit(s, 1);
    assert s[..1] == [s[0]];
    UnstarredConcat([s[0]], Unwrap(s[1..], d));
  }

  /** Dropping markers removes asterisks and nothing else: every other character stays, in order. */
  lemma {:induction false} UnwrapKeepsText(s: string, d: string)
    requires IsStars(d)
    ensures Unstarred(Unwrap(s, d)) == Unstarred(s)
    decreases |s|
  {
    if s == [] {
    } else if Opening(s, d).Some? {
      var k := Opening(s, d).value;
      UnwrapKeepsText(s[k + |d|..], d);
      UnwrapMatchKeepsText(s, d, k);
    } else {
      UnwrapKeepsText(s[1..], d);
      UnwrapSkipKeepsText(s, d);
    }
  }

  /** The two checkbox substitutions, in source order. */
  function Checkboxes(s: string): string {
    Replace(Replace(s, OpenBox, Bullet), CheckedBox, Bullet)
  }

  lemma BulletFormsNoBox()
    ensures Unformable(OpenBox, Bullet) && Unformable(CheckedBox, Bullet)
  {
    UnformableByHeads(OpenBox, Bullet);
    UnformableByHeads(CheckedBox, Bullet);
  }

  /** No checkbox of either kind is left after the two substitutions. */
  lemma CheckboxesLeaveNone(s: string)
    ensures !Contains(Checkboxes(s), OpenBox) && !Contains(Checkboxes(s), CheckedBox)
  {
    BulletFormsNoBox();
    var a := Replace(s, OpenBox, Bullet);
    ReplaceAvoids(s, OpenBox, Bullet, OpenBox);
    ReplaceAvoids(a, CheckedBox, Bullet, OpenBox);
    ReplaceAvoids(a, CheckedBox, Bullet, CheckedBox);
  }

  /** Neither checkbox can overlap an occurrence of the capital-X box. */
  lemma BoxMissesCapital(pat: string)
    requires pat == OpenBox || pat == CheckedBox
    ensures pat[0] !in CapitalBox[1..] && CapitalBox[0] !in pat[1..]
    ensures !StartsWith(CapitalBox, pat) && !StartsWith(pat, CapitalBox)
  {
    assert CapitalBox[..|pat|][3] != pat[3];
    assert pat[..|CapitalBox|][3] != CapitalBox[3];
  }

  /** The checkbox substitutions never touch a box ticked with a capital X. */
  lemma CheckboxesKeepCapitalBox(s: string)
    ensures Contains(s, CapitalBox) ==> Contains(Checkboxes(s), CapitalBox)
  {
    BoxMissesCapital(OpenBox);
    BoxMissesCapital(CheckedBox);
    ReplaceKeeps(s, OpenBox, Bullet, CapitalBox);
    ReplaceKeeps(Replace(s, OpenBox, Bullet), CheckedBox, Bullet, CapitalBox);
  }

  predicate IsDigit(c: char) {
    '0' <= c <= '9'
  }

  /** The length of the run of digits `s` starts with. */
  function DigitRun(s: string): (n: nat)
    ensures n <= |s|
    ensures forall i :: 0 <= i < n ==> IsDigit(s[i])
    ensures n < |s| ==> !IsDigit(s[n])
  {
    if s != [] && IsDigit(s[0]) then 1 + DigitRun(s[1..]) else 0
  }

  /**
   * `re.sub(r'^(\d+)\. ', r'\1. ', s, flags=re.MULTILINE)`: each numbered line start
   * is written back as it was, so the text comes out unchanged.
   */
  function Numbered(s: string, atLineStart: bool): (r: string)
    ensures r == s
    decreases |s|
  {
    if s == [] then []
    else
      var n := DigitRun(s);
      if atLineStart && n > 0 && StartsWith(s[n..], ". ") then
        assert s == s[..n] + ". " + s[n + 2..];
        s[..n] + ". " + Numbered(s[n + 2..], false)
      else
        assert s == [s[0]] + s[1..];
        [s[0]] + Numbered(s[1..], s[0] == '\n')
  }

  /**
   * `re.sub(r'^- ', '• ', s, flags=re.MULTILINE)`; `atLineStart` says whether the
   * scan stands at the start of a line.
   */
  function Bullets(s: string, atLineStart: bool): (r: string)
    ensures |r| == |s|
    ensures !Contains(s, Dash) ==> r == s
    decreases |s|
  {
    if s == [] then []
    else if atLineStart && StartsWith(s, Dash) then
      assert StartsWith(s[0..], Dash);
      Bullet + Bullets(s[2..], false)
    else
      NotContainedInTail(s, Dash);
      [s[0]] + Bullets(s[1..], s[0] == '\n')
  }

  /** Position `i` of `r` is a line start: the text start when `atLineStart`, or just after a line break. */
  predicate LineStart(r: string, i: nat, atLineStart: bool)
    requires i <= |r|
  {
    (i == 0 && atLineStart) || (0 < i && r[i - 1] == '\n')
  }

  /** No line of `r` starts with "- ". */
  predicate NoLineStartDash(r: string, atLineStart: bool) {
    forall i :: 0 <= i <= |r| && LineStart(r, i, atLineStart) ==> !StartsWith(r[i..], Dash)
  }

  /** A dash at a line start becomes a bullet, which no later line start undoes. */
  lemma BulletStepNoDash(s: string, atLineStart: bool)
    requires atLineStart && StartsWith(s, Dash)
    requires NoLineStartDash(Bullets(s[2..], false), false)
    ensures NoLineStartDash(Bullets(s, atLineStart), atLineStart)
  {
    var r := Bullets(s, atLineStart);
    var t := Bullets(s[2..], false);
    assert r == Bullet + t;
    forall i | 0 <= i <= |r| && LineStart(r, i, atLineStart) ensures !StartsWith(r[i..], Dash) {
      assert r[0] == '•' && r[1] == ' ';
      if i == 0 {
        assert r[i..][0] == '•';
      } else {
        assert i > 2;
        assert r[i..] == t[i - 2..];
        assert r[i - 1] == t[i - 3];
        assert LineStart(t, i - 2, false);
      }
    }
  }

  /** A character kept as it is starts no "- " at a line start. */
  lemma KeptStepNoDash(s: string, atLineStart: bool)
    requires s != [] && !(atLineStart && StartsWith(s, Dash))
    requires NoLineStartDash(Bullets(s[1..], s[0] == '\n'), s[0] == '\n')
    ensures NoLineStartDash(Bullets(s, atLineStart), atLineStart)
  {
    var r := Bullets(s, atLineStart);
    var b := s[0] == '\n';
    var t := Bullets(s[1..], b);
    assert r == [s[0]] + t;
    forall i | 0 <= i <= |r| && LineStart(r, i, atLineStart) ensures !StartsWith(r[i..], Dash) {
      if i == 0 {
        if |r| >= 2 && s[0] == '-' {
          assert s[1] != ' ' by {
            assert s[..2] != Dash;
            assert s[..2] == [s[0], s[1]];
          }
          assert t[0] == s[1];
          assert r[..2] == [s[0], s[1]];
        }
        assert !StartsWith(r, Dash);
        assert r[i..] == r;
      } else {
        assert r[i..] == t[i - 1..];
        if i == 1 {
          assert LineStart(t, 0, b);
        } else {
          assert r[i - 1] == t[i - 2];
          assert LineStart(t, i - 1, b);
        }
      }
    }
  }

  /** After the bullet step no line starts with "- ". */
  lemma {:induction false} BulletsLeaveNoDash(s: string, atLineStart: bool)
    ensures NoLineStartDash(Bullets(s, atLineStart), atLineStart)
    decreases |s|
  {
    if s == [] {
    } else if atLineStart && StartsWith(s, Dash) {
      BulletsLeaveNoDash(s[2..], false);
      BulletStepNoDash(s, atLineStart);
    } else {
      BulletsLeaveNoDash(s[1..], s[0] == '\n');
      KeptStepNoDash(s, atLineStart);
    }
  }

  /** A bullet step result that begins with a proper suffix of `q` came from text that began with it. */
  lemma {:induction false} BulletsPrefixBack(u: string, b: bool, q: string, j: nat)
    requires Unformable(q, Bullet) && 1 <= j <= |q|
    ensures StartsWith(Bullets(u, b), q[j..]) ==> StartsWith(u, q[j..])
    decreases |u|
  {
    var w := q[j..];
    var r := Bullets(u, b);
    if w == [] || u == [] {
    } else if b && StartsWith(u, Dash) {
      var k :| 0 <= k < |Bullet| && k < |w| && Bullet[k] != w[k];
      assert r[k] == Bullet[k];
    } else {
      var t := Bullets(u[1..], u[0] == '\n');
      assert r == [u[0]] + t;
      assert q[j + 1..] == w[1..];
      BulletsPrefixBack(u[1..], u[0] == '\n', q, j + 1);
      if StartsWith(r, w) {
        assert t[..|w| - 1] == r[1..|w|];
      }
      ConsStartsWith(u, w);
    }
  }

  /** The bullet step creates no occurrence of a text its bullet cannot help form. */
  lemma {:induction false} BulletsAvoid(s: string, b: bool, q: string)
    requires Unformable(q, Bullet) && !Contains(s, q)
    ensures !Contains(Bullets(s, b), q)
    decreases |s|
  {
    if s == [] {
    } else if b && StartsWith(s, Dash) {
      NotContainedInSuffix(s, 2, q);
      BulletsAvoid(s[2..], false, q);
      PrependAvoids(Bullet, Bullets(s[2..], false), q);
    } else {
      var c := s[0] == '\n';
      NotContainedInTail(s, q);
      BulletsAvoid(s[1..], c, q);
      BulletsPrefixBack(s[1..], c, q, 1);
      ConsStartsWith(s, q);
      assert StartsWith(s[0..], q) ==> Contains(s, q);
      ConsAvoids(s[0], Bullets(s[1..], c), q);
    }
  }

  /** `markdown_to_clean_text`: `None` and "" give "". */
  function CleanText(text: Option<string>): (r: string)
    ensures Trimmed(r)
    ensures text == None || text == Some("") ==> r == ""
  {
    if text.None? || text.value == "" then ""
    else
      var plain := Unwrap(Unwrap(text.value, Bold), Italic);
      Strip(Bullets(Numbered(Checkboxes(plain), true), true))
  }

  /** No checkbox of either kind survives the cleaner. */
  lemma CleanTextLeavesNoBoxes(text: Option<string>)
    ensures !Contains(CleanText(text), OpenBox) && !Contains(CleanText(text), CheckedBox)
  {
    if text.Some? && text.value != "" {
      var plain := Unwrap(Unwrap(text.value, Bold), Italic);
      var b := Checkboxes(plain);
      var c := Bullets(Numbered(b, true), true);
      assert CleanText(text) == Strip(c);
      CheckboxesLeaveNone(plain);
      BulletFormsNoBox();
      BulletsAvoid(b, true, OpenBox);
      BulletsAvoid(b, true, CheckedBox);
      StripKeepsAbsence(c, OpenBox);
      StripKeepsAbsence(c, CheckedBox);
    }
  }

  /** Text without a marker character cannot hold the marker. */
  lemma NoStarNoMarker(s: string, d: string)
    requires '*' !in s && IsStars(d)
    ensures !Contains(s, d)
  {
    forall i | 0 <= i <= |s| ensures !StartsWith(s[i..], d) {
      if i < |s| {
        assert s[i..][0] == s[i];
      }
    }
  }

  /** Text with neither an asterisk nor "- " only loses its surrounding whitespace. */
  lemma CleanTextPlain(s: string)
    requires s != "" && '*' !in s && !Contains(s, Dash)
    ensures CleanText(Some(s)) == Strip(s)
  {
    ContainsPart(s, OpenBox, 0, 2);
    assert OpenBox[0..2] == Dash;
    ContainsPart(s, CheckedBox, 0, 2);
    assert CheckedBox[0..2] == Dash;
    CleanTextUnmarked(s);
  }

  /** Away from a line start, a single line passes the bullet step unchanged. */
  lemma {:induction false} BulletsOneLine(s: string)
    requires '\n' !in s
    ensures Bullets(s, false) == s
    decreases |s|
  {
    if s != [] {
      assert s[0] != '\n' && '\n' !in s[1..];
      BulletsOneLine(s[1..]);
      assert s == [s[0]] + s[1..];
    }
  }

  /** Text with no asterisk and no checkbox reaches the bullet step as it was. */
  lemma CleanTextUnmarked(s: string)
    requires s != "" && '*' !in s && !Contains(s, OpenBox) && !Contains(s, CheckedBox)
    ensures CleanText(Some(s)) == Strip(Bullets(s, true))
  {
    NoStarNoMarker(s, Bold);
    UnwrapAbsent(s, Bold);
    NoStarNoMarker(s, Italic);
    UnwrapAbsent(s, Italic);
  }

  /** A trimmed line with no markup at all comes through the cleaner unchanged. */
  lemma CleanTextKeepsPlain(s: string)
    requires s != "" && '*' !in s && !Contains(s, OpenBox) && !Contains(s, CheckedBox)
    requires Bullets(s, true) == s && Trimmed(s)
    ensures CleanText(Some(s)) == s
  {
    CleanTextUnmarked(s);
    StripTrimmed(s);
  }

  /** "a - [X] b" holds neither checkbox: its only dash is followed by a capital X. */
  lemma CapitalBoxAbsent(s: string)
    requires s == "a - [X] b"
    ensures !Contains(s, OpenBox) && !Contains(s, CheckedBox)
  {
    forall i | 0 <= i <= |s| ensures !StartsWith(s[i..], OpenBox) && !StartsWith(s[i..], CheckedBox) {
      if i < |s| {
        assert s[i..][0] == s[i];
      }
      if i == 2 {
        assert s[i..][3] == 'X';
      }
    }
  }

  /** "a - [X] b" is one line with no asterisk and no surrounding whitespace. */
  lemma CapitalBoxPlain(s: string)
    requires s == "a - [X] b"
    ensures '*' !in s && '\n' !in s && s[0] == 'a' && Trimmed(s)
  {
  }

  /** A single line that does not open with "- " passes the bullet step unchanged. */
  lemma BulletsLineKept(s: string)
    requires s != [] && s[0] != '-' && '\n' !in s
    ensures Bullets(s, true) == s
  {
    BulletsOneLine(s[1..]);
    assert Bullets(s, true) == [s[0]] + Bullets(s[1..], false);
    assert s == [s[0]] + s[1..];
  }

  /** A capital "X" is not a checked box: "- [X] " in mid-line comes through unchanged. */
  lemma CapitalBoxKept(s: string)
    requires s == "a - [X] b"
    ensures CleanText(Some(s)) == s
  {
    CapitalBoxPlain(s);
    CapitalBoxAbsent(s);
    BulletsLineKept(s);
    CleanTextKeepsPlain(s);
  }

  /** "  - x" is too short to hold a checkbox. */
  lemma IndentedDashNoBox(s: string)
    requires s == "  - x"
    ensures !Contains(s, OpenBox) && !Contains(s, CheckedBox)
  {
  }

  /** Stripping "  - x" drops its two leading spaces. */
  lemma IndentedDashStrip(s: string)
    requires s == "  - x"
    ensures Strip(s) == s[2..]
  {
    LeadingSpaceIs(s, 2);
    assert TrailingSpace(s[2..]) == 0;
  }

  /**
   * A dash that is not at a line start only becomes one after the final strip,
   * so an indented "- x" comes out as "- x".
   */
  lemma IndentedDashKept(s: string)
    requires s == "  - x"
    ensures CleanText(Some(s)) == s[2..] == "- x"
  {
    IndentedDashNoBox(s);
    assert s[0] == ' ' && '\n' !in s;
    BulletsLineKept(s);
    IndentedDashStrip(s);
    CleanTextUnmarked(s);
  }
}
