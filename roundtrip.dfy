/** The ticket bodies written by the orchestrator and by the draft generator, read back by the
    feedback collector: what `ExtractFeedback` and `ExtractMetadata` recover from a body that
    `Orchestrator.IssueBody` or `DraftGenerator.DraftBody` rendered. */
module BodyRoundTrip {
  import opened Wrappers
  import opened Strings
  import opened FeedbackExtract
  import Orchestrator
  import DraftGenerator

  // ---- occurrences in joined text ----

  /** `x + y` holds no `p` when neither part does and no occurrence can start in `x` and end in
      `y`: the last character of `x`, or the first of `y`, is not in `p`, or `x` has no
      character that `p` begins with. */
  lemma NotContainsConcat(x: string, y: string, p: string)
    requires !Contains(x, p) && !Contains(y, p)
    requires (x != [] && x[|x| - 1] !in p) || (y != [] && y[0] !in p) || (p != [] && p[0] !in x)
    ensures !Contains(x + y, p)
  {
    var s := x + y;
    forall k | 0 <= k <= |s| ensures !IsAt(s, k, p) {
      if k + |p| <= |s| {
        if k + |p| <= |x| {
          assert s[k..k + |p|] == x[k..k + |p|];
          assert !IsAt(x, k, p);
        } else if k >= |x| {
          assert s[k..k + |p|] == y[k - |x|..k - |x| + |p|];
          assert !IsAt(y, k - |x|, p);
        } else if x != [] && x[|x| - 1] !in p {
          assert s[k..k + |p|][|x| - 1 - k] == x[|x| - 1];
        } else if y != [] && y[0] !in p {
          assert s[k..k + |p|][|x| - k] == y[0];
        } else {
          assert s[k..k + |p|][0] == x[k];
        }
      }
    }
  }

  /** In `x + y`, no occurrence of `p` starts inside `x` when `x` holds none and ends with a
      character that is not in `p`. */
  lemma NoneBefore(s: string, x: string, y: string, p: string)
    requires s == x + y && !Contains(x, p) && x != [] && x[|x| - 1] !in p
    ensures forall k :: 0 <= k < |x| ==> !IsAt(s, k, p)
  {
    forall k | 0 <= k < |x| ensures !IsAt(s, k, p) {
      if k + |p| <= |x| {
        assert s[k..k + |p|] == x[k..k + |p|];
        assert !IsAt(x, k, p);
      } else if k + |p| <= |s| {
        assert s[k..k + |p|][|x| - 1 - k] == x[|x| - 1];
      }
    }
  }

  /** A pattern one of whose characters does not occur in `s` does not occur in `s`. */
  lemma NotContainsByChar(s: string, p: string, i: nat)
    requires i < |p| && p[i] !in s
    ensures !Contains(s, p)
  {
    forall k | 0 <= k <= |s| ensures !IsAt(s, k, p) {
      if k + |p| <= |s| {
        assert s[k..k + |p|][i] == s[k + i];
      }
    }
  }

  /** Trimming keeps a text free of `p`. */
  lemma TrimFree(v: string, p: string)
    requires !Contains(v, p)
    ensures !Contains(Trim(v), p)
  {
    var t := TrimStart(v);
    NotContainsSuffix(v, |v| - |t|, p);
    NotContainsPrefix(t, |TrimEnd(t)|, p);
  }

  // ---- the labels ----

  /** One of the four labels `extractMetadata` searches for. */
  predicate IsLabel(l: string)
  {
    l == TIME_LABEL || l == CATEGORY_LABEL || l == THEME_LABEL || l == COUNT_LABEL
  }

  /** `v` holds none of the four labels. */
  predicate NoLabel(v: string)
  {
    !Contains(v, TIME_LABEL) && !Contains(v, CATEGORY_LABEL) && !Contains(v, THEME_LABEL) && !Contains(v, COUNT_LABEL)
  }

  /** Every label begins with `*` and holds neither a space nor a newline. */
  lemma LabelChars(l: string)
    requires IsLabel(l)
    ensures |l| > 3 && l[0] == '*' && ' ' !in l && '\n' !in l
  {
  }

  /** The footer fields the orchestrator writes are the labels the collector reads. */
  lemma FieldsAreLabels()
    ensures Orchestrator.TIME_FIELD == TIME_LABEL && Orchestrator.CATEGORY_FIELD == CATEGORY_LABEL
    ensures Orchestrator.THEME_FIELD == THEME_LABEL && Orchestrator.COUNT_FIELD == COUNT_LABEL
  {
  }

  /** No label holds a label written after it in the footer. */
  lemma LabelsApart()
    ensures !Contains(TIME_LABEL, CATEGORY_LABEL) && !Contains(TIME_LABEL, THEME_LABEL) && !Contains(TIME_LABEL, COUNT_LABEL)
    ensures !Contains(CATEGORY_LABEL, THEME_LABEL) && !Contains(CATEGORY_LABEL, COUNT_LABEL)
    ensures !Contains(THEME_LABEL, COUNT_LABEL)
  {
    NotContainsByChar(TIME_LABEL, CATEGORY_LABEL, 2);
    NotContainsByChar(TIME_LABEL, THEME_LABEL, 2);
    NotContainsByChar(TIME_LABEL, COUNT_LABEL, 2);
    NotContainsByChar(CATEGORY_LABEL, THEME_LABEL, 3);
    NotContainsByChar(CATEGORY_LABEL, COUNT_LABEL, 2);
    NotContainsByChar(THEME_LABEL, COUNT_LABEL, 2);
  }

  // ---- the pieces of a body ----

  /** The part of a ticket body before its footer: the comment line, a blank line, the draft, a
      blank line and the rule. */
  function Head(draft: string): string
  {
    Orchestrator.PLACEHOLDER + "\n\n" + draft + "\n\n---\n"
  }

  /** A footer line: its field, a space, its value and a newline. */
  function Line(field: string, value: string): string
  {
    field + " " + value + "\n"
  }

  /** The head holds a label only when the draft does. */
  lemma HeadFree(draft: string, l: string)
    requires IsLabel(l) && !Contains(draft, l)
    ensures !Contains(Head(draft), l)
  {
    LabelChars(l);
    var top, rule := Orchestrator.PLACEHOLDER + "\n\n", "\n\n---\n";
    NotContainsByHead(top, l);
    NotContainsByHead(rule, l);
    NotContainsConcat(draft, rule, l);
    NotContainsConcat(top, draft + rule, l);
    assert Head(draft) == top + (draft + rule);
  }

  /** A footer line holds a label only when its field or its value does. */
  lemma LineFree(field: string, value: string, l: string)
    requires IsLabel(l) && !Contains(field, l) && !Contains(value, l)
    ensures !Contains(Line(field, value), l)
  {
    LabelChars(l);
    NotContainsByHead(" ", l);
    NotContainsByHead("\n", l);
    NotContainsConcat(field, " ", l);
    NotContainsConcat(value, "\n", l);
    NotContainsConcat(field + " ", value + "\n", l);
    assert Line(field, value) == (field + " ") + (value + "\n");
  }

  // ---- the final draft ----

  /** After `x` and the blank line, the first rule from any position inside `x` on is the one
      the renderer wrote, when `x` holds no rule from there on. */
  lemma RuleAfter(x: string, y: string, b: nat)
    requires b <= |x| && !Contains(x[b..], RULE)
    ensures FindFrom(x + "\n\n---" + y, RULE, b) == Some(|x| + 1)
  {
    var s := x + "\n\n---" + y;
    assert s[|x| + 1..|x| + 5] == RULE;
    forall j | b <= j < |x| + 1 ensures !IsAt(s, j, RULE) {
      if j + 4 <= |x| {
        assert s[j..j + 4] == x[b..][j - b..j - b + 4];
        assert !IsAt(x[b..], j - b, RULE);
      } else if j < |x| {
        assert s[j..j + 4][|x| - j] == s[|x|] == '\n';
      } else {
        assert s[j + 1] == '\n';
      }
    }
    FindFromIs(s, RULE, b, |x| + 1);
  }

  /** The white space after the comment line runs over the blank line and the draft's leading
      white space. */
  lemma SpaceAfterComment(s: string, pl: string, d: string, rest: string)
    requires s == pl + "\n\n" + d + "\n\n---" + rest && !AllSpace(d)
    ensures RunEnd(s, |pl|, Space) == |pl| + 2 + |d| - |TrimStart(d)|
  {
    var p, t := |pl|, TrimStart(d);
    var n := |d| - |t|;
    TrimStartRemovesSpace(d);
    TrimStartAllSpace(d);
    forall k | p <= k < p + 2 + n ensures InClass(Space, s[k]) {
      if k >= p + 2 {
        assert s[k] == d[..n][k - p - 2];
      }
    }
    assert s[p + 2 + n] == t[0];
    RunEndIs(s, p, p + 2 + n, Space);
  }

  /** A line that is one comment: it opens the comment, has no `>` before its last character and
      closes the comment there. */
  predicate CommentLine(pl: string)
  {
    |pl| >= 7 && IsAt(pl, 0, OPEN) && pl[|pl| - 3..] == "-->" && forall j :: 4 <= j < |pl| - 1 ==> pl[j] != '>'
  }

  lemma CommentStarts(s: string, pl: string)
    requires CommentLine(pl) && StartsWith(s, pl)
    ensures FindFrom(s, OPEN, 0) == Some(0) && CommentEnd(s, 0) == Some(|pl|)
  {
    assert s[..|pl|] == pl;
    assert s[..4] == pl[..4] == OPEN;
    FindFromIs(s, OPEN, 0, 0);
    var g := |pl| - 1;
    forall j | 4 <= j < g ensures s[j] != '>' {
      assert s[j] == pl[j];
    }
    assert s[g - 2] == pl[|pl| - 3..][0];
    assert s[g - 1] == pl[|pl| - 3..][1];
    assert s[g] == pl[|pl| - 3..][2];
    CommentEndIs(s, 0, g);
  }

  lemma DraftLayout(s: string, pl: string, d: string, rest: string)
    requires s == pl + "\n\n" + d + "\n\n---" + rest
    ensures StartsWith(s, pl)
  {
    assert s[..|pl|] == pl;
  }

  /** What the draft pattern meets in `s`: the first comment ends at `e`, the white space after
      it at `b`, the first rule after that is at `c`, and what lies between `b` and `c` is `d`
      after its leading white space, and a newline. */
  predicate DraftSpans(s: string, e: nat, b: nat, c: nat, d: string)
  {
    FindFrom(s, OPEN, 0) == Some(0) && CommentEnd(s, 0) == Some(e) && e <= |s| && RunEnd(s, e, Space) == b &&
    FindFrom(s, RULE, b) == Some(c) && b <= c <= |s| && s[b..c] == TrimStart(d) + "\n"
  }

  lemma DraftSpansIn(s: string, pl: string, d: string, rest: string) returns (b: nat, c: nat)
    requires CommentLine(pl) && s == pl + "\n\n" + d + "\n\n---" + rest
    requires !Contains(d, RULE) && !AllSpace(d)
    ensures DraftSpans(s, |pl|, b, c, d)
  {
    b, c := |pl| + 2 + |d| - |TrimStart(d)|, |pl| + |d| + 3;
    DraftLayout(s, pl, d, rest);
    CommentStarts(s, pl);
    SpaceAfterComment(s, pl, d, rest);
    RuleFound(s, pl, d, rest, |d| - |TrimStart(d)|, b, c);
    CaptureIs(s, pl, d, rest, b, c);
  }

  lemma SpansFinal(s: string, e: nat, b: nat, c: nat, d: string)
    requires DraftSpans(s, e, b, c, d)
    ensures FinalDraft(s) == Some(Trim(d))
  {
    FindFromSpan(s, OPEN, 0);
    assert DraftAttempt(s, 0) == Some((b, c));
    DraftMatchAt(s, 0, 0);
    DraftIs(s, b, c);
    TrimTail(d);
  }

  /** A body that begins with a comment line, a blank line, a draft that has text and holds no
      rule, a blank line and the rule: the collector records the trimmed draft. */
  lemma DraftFound(s: string, pl: string, d: string, rest: string)
    requires CommentLine(pl) && s == pl + "\n\n" + d + "\n\n---" + rest
    requires !Contains(d, RULE) && !AllSpace(d)
    ensures FinalDraft(s) == Some(Trim(d))
  {
    var b, c := DraftSpansIn(s, pl, d, rest);
    SpansFinal(s, |pl|, b, c, d);
  }

  /** A body whose draft is blank: `\s*` runs over the blank line, the draft and the next blank
      line up to the rule's dashes, finds no rule from there, and gives back one newline, so the
      lazy capture is empty and the collector records the empty string. */
  lemma BlankDraftFound(s: string, pl: string, d: string, rest: string)
    requires CommentLine(pl) && s == pl + "\n\n" + d + "\n\n---" + rest
    requires AllSpace(d) && !Contains("---" + rest, RULE)
    ensures FinalDraft(s) == Some(Trim(d))
  {
    var t := BlankSpans(s, pl, d, rest);
    BlankFinal(s, |pl|, t);
    TrimStartAllSpace(d);
  }

  /** Where the draft pattern's parts fall when the draft is blank: the comment ends at `e`, the
      white space after it ends at `t`, no rule starts at `t` or later and one starts at `t - 1`. */
  predicate BlankSpansAt(s: string, e: nat, t: nat)
  {
    FindFrom(s, OPEN, 0) == Some(0) && CommentEnd(s, 0) == Some(e) && e < t <= |s| &&
    RunEnd(s, e, Space) == t && FindFrom(s, RULE, t) == None && FindFrom(s, RULE, t - 1) == Some(t - 1)
  }

  lemma BlankSpans(s: string, pl: string, d: string, rest: string) returns (t: nat)
    requires CommentLine(pl) && s == pl + "\n\n" + d + "\n\n---" + rest
    requires AllSpace(d) && !Contains("---" + rest, RULE)
    ensures BlankSpansAt(s, |pl|, t)
  {
    DraftLayout(s, pl, d, rest);
    CommentStarts(s, pl);
    var w, q := BlankParts(s, pl, d, rest);
    t := BlankTail(s, pl, w, q);
  }

  /** The body around a blank draft: the comment line, white space ending a line, and the rule's
      dashes with what follows them. */
  lemma BlankParts(s: string, pl: string, d: string, rest: string) returns (w: string, q: string)
    requires s == pl + "\n\n" + d + "\n\n---" + rest
    requires AllSpace(d) && !Contains("---" + rest, RULE)
    ensures s == pl + w + q && AllSpace(w) && w != [] && w[|w| - 1] == '\n'
    ensures |q| >= 3 && q[..3] == "---" && !Contains(q, RULE)
  {
    w, q := "\n\n" + d + "\n\n", "---" + rest;
    assert s == pl + w + q;
    BlankIsSpace(d, w);
  }

  /** White space ending a line, then dashes and no rule after them: `\s*` stops at the dashes,
      where no rule starts, and one starts a character earlier. */
  lemma BlankTail(s: string, a: string, w: string, q: string) returns (t: nat)
    requires s == a + w + q && AllSpace(w) && w != [] && w[|w| - 1] == '\n'
    requires |q| >= 3 && q[..3] == "---" && !Contains(q, RULE)
    ensures |a| < t <= |s| && RunEnd(s, |a|, Space) == t
    ensures FindFrom(s, RULE, t) == None && FindFrom(s, RULE, t - 1) == Some(t - 1)
  {
    t := |a| + |w|;
    RunOverSpace(s, a, w, q);
    var x := a + w;
    assert s == x + q && |x| == t && x[|x| - 1] == '\n';
    RuleFreeFrom(s, x, q);
    RuleJustBefore(s, x, q);
  }

  /** The white space before and after a blank draft is white space. */
  lemma BlankIsSpace(d: string, w: string)
    requires AllSpace(d) && w == "\n\n" + d + "\n\n"
    ensures AllSpace(w) && |w| >= 2 && w[|w| - 1] == '\n'
  {
    forall k | 0 <= k < |w| ensures IsSpace(w[k]) {
      if 2 <= k < 2 + |d| {
        assert w[k] == d[k - 2];
      }
    }
  }

  /** `\s*` from the start of `w` stops at the first non-space after it. */
  lemma RunOverSpace(s: string, a: string, w: string, q: string)
    requires s == a + w + q && AllSpace(w) && q != [] && !IsSpace(q[0])
    ensures RunEnd(s, |a|, Space) == |a| + |w|
  {
    forall k | |a| <= k < |a| + |w| ensures InClass(Space, s[k]) {
      assert s[k] == w[k - |a|];
    }
    assert s[|a| + |w|] == q[0];
    RunEndIs(s, |a|, |a| + |w|, Space);
  }

  /** No rule starts inside a rule-free tail. */
  lemma RuleFreeFrom(s: string, a: string, q: string)
    requires s == a + q && !Contains(q, RULE)
    ensures FindFrom(s, RULE, |a|) == None
  {
    forall j | |a| <= j <= |s| ensures !IsAt(s, j, RULE) {
      if j + |RULE| <= |s| {
        assert s[j..j + |RULE|] == q[j - |a|..j - |a| + |RULE|];
        assert !IsAt(q, j - |a|, RULE);
      }
    }
    FindFromAbsent(s, RULE, |a|);
  }

  /** A newline followed by `---` is a rule, found where the search starts. */
  lemma RuleJustBefore(s: string, a: string, q: string)
    requires s == a + q && a != [] && a[|a| - 1] == '\n' && |q| >= 3 && q[..3] == "---"
    ensures FindFrom(s, RULE, |a| - 1) == Some(|a| - 1)
  {
    var i := |a| - 1;
    assert s[i] == '\n' && s[i + 1] == q[0] && s[i + 2] == q[1] && s[i + 3] == q[2];
    assert s[i..i + 4] == RULE;
    FindFromIs(s, RULE, i, i);
  }

  /** The draft pattern with a blank draft: the capture is empty. */
  lemma BlankFinal(s: string, e: nat, t: nat)
    requires BlankSpansAt(s, e, t)
    ensures FinalDraft(s) == Some([])
  {
    assert Backtrack(s, e, t, Before(RULE)) == Backtrack(s, e, t - 1, Before(RULE));
    assert DraftAttempt(s, 0) == Some((t - 1, t - 1));
    FindFromSpan(s, OPEN, 0);
    DraftMatchAt(s, 0, 0);
    DraftIs(s, t - 1, t - 1);
  }

  lemma CaptureIs(s: string, pl: string, d: string, rest: string, b: nat, c: nat)
    requires s == pl + "\n\n" + d + "\n\n---" + rest && !AllSpace(d)
    requires b == |pl| + 2 + |d| - |TrimStart(d)| && c == |pl| + |d| + 3
    ensures b <= c <= |s| && s[b..c] == TrimStart(d) + "\n"
  {
    var x := pl + "\n\n" + d;
    var y := "\n\n---" + rest;
    assert s == x + y;
    CaptureOf(x, y, pl, d, b);
  }

  lemma CaptureOf(x: string, y: string, pl: string, d: string, b: nat)
    requires x == pl + "\n\n" + d && y != [] && y[0] == '\n'
    requires b == |pl| + 2 + |d| - |TrimStart(d)|
    ensures b <= |x| && (x + y)[b..|x| + 1] == TrimStart(d) + "\n"
  {
    var t := TrimStart(d);
    SliceAcross(x, y, b);
    SuffixOfJoin(pl + "\n\n", d, |d| - |t|);
    assert x[b..] == t;
  }

  lemma SliceAcross(x: string, y: string, b: nat)
    requires b <= |x| && y != []
    ensures (x + y)[b..|x| + 1] == x[b..] + [y[0]]
  {
    assert (x + y)[b..|x| + 1] == (x + y)[b..|x|] + [(x + y)[|x|]];
    assert (x + y)[b..|x|] == x[b..];
  }

  lemma SuffixOfJoin(p: string, d: string, k: nat)
    requires k <= |d|
    ensures (p + d)[|p| + k..] == d[k..]
  {
  }

  /** Trimming the draft after its leading white space and a newline is trimming the draft. */
  lemma TrimTail(d: string)
    ensures Trim(TrimStart(d) + "\n") == Trim(d)
  {
    var t := TrimStart(d);
    var u := t + "\n";
    assert "\n"[0] == '\n' && AllSpace("\n");
    if t == [] {
      TrimStartAllSpace(u);
      assert u == "\n";
    } else {
      assert u[0] == t[0];
      assert TrimStart(u) == u;
    }
    TrimEndOfSpaceSuffix(t, "\n");
  }

  lemma PlaceholderLine()
    ensures CommentLine(Orchestrator.PLACEHOLDER)
  {
    var pl := Orchestrator.PLACEHOLDER;
    assert pl[..4] == OPEN;
    assert pl[|pl| - 3..] == "-->";
    assert '>' !in Orchestrator.PLACEHOLDER_NOTE;
    forall j | 4 <= j < |pl| - 1 ensures pl[j] != '>' {
      if j < |pl| - 3 {
        assert pl[j] == Orchestrator.PLACEHOLDER_NOTE[j - 4];
      }
    }
  }

  /** The first comment ends at `e` and the first rule after its white space is at `c`. */
  lemma RuleFound(s: string, pl: string, d: string, rest: string, n: nat, b: nat, c: nat)
    requires s == pl + "\n\n" + d + "\n\n---" + rest
    requires !Contains(d, RULE) && n <= |d| && b == |pl| + 2 + n && c == |pl| + |d| + 3
    ensures FindFrom(s, RULE, b) == Some(c)
  {
    var x := pl + "\n\n" + d;
    SuffixFree(x, pl, d, n, b);
    RuleAfter(x, rest, b);
  }

  lemma SuffixFree(x: string, pl: string, d: string, n: nat, b: nat)
    requires x == pl + "\n\n" + d && n <= |d| && b == |pl| + 2 + n
    requires !Contains(d, RULE)
    ensures b <= |x| && !Contains(x[b..], RULE)
  {
    assert x[b..] == d[n..];
    NotContainsSuffix(d, n, RULE);
  }


  // ---- the footer ----

  /** A footer line after a prefix that ends a line and holds no label: the label search stops
      at this line, and the run it captures is `v[n..m]`. */
  lemma FieldRead(s: string, a: string, l: string, v: string, b: string, n: nat, m: nat, cls: CharClass)
    requires IsLabel(l) && s == a + Line(l, v) + b
    requires !Contains(a, l) && a != [] && a[|a| - 1] == '\n'
    requires ValueRunAt(v, n, m, cls)
    ensures RunText(s, LabelMatch(s, l, cls, 0), cls) == Some(v[n..m])
  {
    var h, i, j := LineLaidOut(s, a, l, v, b);
    FieldAt(s, h, l, i, j, v, n, m, cls);
  }

  /** The label first occurs at `h`, and a space, the value `v` and a newline follow it from `i`
      on. */
  predicate FieldLaidOut(s: string, h: nat, l: string, i: nat, j: nat, v: string)
  {
    l != [] && i == h + |l| && IsAt(s, h, l) && (forall k :: 0 <= k < h ==> !IsAt(s, k, l)) && ValueAfter(s, i, j, v)
  }

  /** The label's first occurrence is at `h`, and the value follows it and a space. */
  lemma FieldAt(s: string, h: nat, l: string, i: nat, j: nat, v: string, n: nat, m: nat, cls: CharClass)
    requires FieldLaidOut(s, h, l, i, j, v)
    requires ValueRunAt(v, n, m, cls)
    ensures RunText(s, LabelMatch(s, l, cls, 0), cls) == Some(v[n..m])
  {
    var p, q := j + n, j + m;
    LabelAttemptIs(s, i, j, v, n, m, cls, p, q);
    LabelMatchAt(s, l, cls, 0, h, i);
    ValueSlice(s, j, v, n, m, p, q);
  }

  /** The captured positions hold the value's characters. */
  lemma ValueSlice(s: string, j: nat, v: string, n: nat, m: nat, p: nat, q: nat)
    requires n <= m <= |v| && j + |v| <= |s| && forall k :: 0 <= k < |v| ==> s[j + k] == v[k]
    requires p == j + n && q == j + m
    ensures p <= q <= |s| && s[p..q] == v[n..m]
  {
    forall k | 0 <= k < m - n ensures s[p..q][k] == v[n..m][k] {
      assert s[j + (n + k)] == v[n + k];
    }
  }

  /** The footer line's label is the label's first occurrence, and the line's parts follow it. */
  lemma LineLaidOut(s: string, a: string, l: string, v: string, b: string) returns (h: nat, i: nat, j: nat)
    requires IsLabel(l) && s == a + Line(l, v) + b
    requires !Contains(a, l) && a != [] && a[|a| - 1] == '\n'
    ensures FieldLaidOut(s, h, l, i, j, v)
  {
    h, i, j := |a|, |a| + |l|, |a| + |l| + 1;
    LinePlaced(s, a, l, v, b, i, j);
    LabelChars(l);
    NoneBefore(s, a, Line(l, v) + b, l);
  }

  /** Where the parts of a footer line sit in the body. */
  lemma LinePlaced(s: string, a: string, l: string, v: string, b: string, i: nat, j: nat)
    requires s == a + Line(l, v) + b && i == |a| + |l| && j == i + 1
    ensures s == a + (Line(l, v) + b) && IsAt(s, |a|, l)
    ensures j + |v| < |s| && s[i] == ' ' && s[j + |v|] == '\n'
    ensures forall k :: 0 <= k < |v| ==> s[j + k] == v[k]
  {
    assert s == a + (Line(l, v) + b);
    assert s[|a|..|a| + |l|] == l;
    forall k | 0 <= k < |v| ensures s[j + k] == v[k] {
    }
  }

  /** The scheduled time after its label: the value when it is a non-empty run of non-space
      characters. */
  lemma TimeRead(s: string, a: string, v: string, b: string)
    requires s == a + Line(TIME_LABEL, v) + b
    requires !Contains(a, TIME_LABEL) && a != [] && a[|a| - 1] == '\n'
    requires v != [] && forall k :: 0 <= k < |v| ==> !IsSpace(v[k])
    ensures TimeValue(s) == Some(v)
  {
    TimeShape(v);
    FieldRead(s, a, TIME_LABEL, v, b, 0, |v|, NonSpace);
  }

  /** A time with no white space is one run of non-space characters. */
  lemma TimeShape(v: string)
    requires v != [] && forall k :: 0 <= k < |v| ==> !IsSpace(v[k])
    ensures ValueRunAt(v, 0, |v|, NonSpace) && v[0..|v|] == v
  {
    assert TrimStart(v) == v;
  }

  /** The category or the theme after its label: the value, trimmed, when it is a single line
      that is not blank. */
  lemma LineRead(s: string, a: string, l: string, v: string, b: string)
    requires (l == CATEGORY_LABEL || l == THEME_LABEL) && s == a + Line(l, v) + b
    requires !Contains(a, l) && a != [] && a[|a| - 1] == '\n'
    requires Trim(v) != [] && SingleLine(v)
    ensures LineValue(s, l) == Some(Trim(v))
  {
    var n := LineShape(v);
    FieldRead(s, a, l, v, b, n, |v|, NotLineTerminator);
  }

  /** A single line that is not blank: the run after its leading white space is the rest of it,
      which trims to what the line trims to. */
  lemma LineShape(v: string) returns (n: nat)
    requires Trim(v) != [] && SingleLine(v)
    ensures ValueRunAt(v, n, |v|, NotLineTerminator) && Trim(v[n..|v|]) == Trim(v)
  {
    n := |v| - |TrimStart(v)|;
    assert TrimStart(v) != [];
    LineRest(v, n);
  }

  /** What follows a value's leading white space trims to what the value trims to. */
  lemma LineRest(v: string, n: nat)
    requires n == |v| - |TrimStart(v)| && n < |v|
    ensures Trim(v[n..|v|]) == Trim(v)
  {
    var t := TrimStart(v);
    assert v[n..|v|] == t;
    TrimStartFixed(t);
  }

  /** A text that starts with a non-space is its own `trimStart`. */
  lemma TrimStartFixed(t: string)
    requires t != [] && !IsSpace(t[0])
    ensures TrimStart(t) == t
  {
  }

  /** The character count after its label: the number, read back from its digits and the unit
      that follows them. */
  lemma CountRead(s: string, a: string, c: nat, b: string)
    requires s == a + Line(COUNT_LABEL, NatToString(c) + Orchestrator.COUNT_UNIT) + b
    requires !Contains(a, COUNT_LABEL) && a != [] && a[|a| - 1] == '\n'
    ensures CountValue(s) == Some(c)
  {
    var digits := NatToString(c);
    DigitsValueOfNatToString(c);
    var v := digits + Orchestrator.COUNT_UNIT;
    CountShape(digits, v);
    FieldRead(s, a, COUNT_LABEL, v, b, 0, |digits|, Digit);
  }

  /** Digits and the unit after them: the run of digits is the digits. */
  lemma CountShape(digits: string, v: string)
    requires digits != [] && AllDigits(digits) && v == digits + Orchestrator.COUNT_UNIT
    ensures ValueRunAt(v, 0, |digits|, Digit) && v[0..|digits|] == digits
  {
    DigitsFirst(digits, Orchestrator.COUNT_UNIT, v);
    assert v[|digits|] == '字';
    assert !IsSpace(v[0]);
    assert TrimStart(v) == v;
  }

  /** The digits open the value and are digits there. */
  lemma DigitsFirst(x: string, y: string, v: string)
    requires v == x + y && x != [] && AllDigits(x)
    ensures v[0..|x|] == x && forall k :: 0 <= k < |x| ==> IsDigit(v[k])
  {
    assert forall k :: 0 <= k < |x| ==> v[k] == x[k];
  }

  // ---- whole bodies ----

  /** A line of text: no line terminator in it. */
  predicate SingleLine(v: string)
  {
    forall k :: 0 <= k < |v| ==> !IsLineTerminator(v[k])
  }

  /** A footer line keeps a prefix that ends a line free of a label the line does not hold. */
  lemma LineAfter(a: string, field: string, v: string, l: string)
    requires IsLabel(l) && !Contains(a, l) && a != [] && a[|a| - 1] == '\n'
    requires !Contains(field, l) && !Contains(v, l)
    ensures !Contains(a + Line(field, v), l) && (a + Line(field, v))[|a + Line(field, v)| - 1] == '\n'
  {
    LabelChars(l);
    LineFree(field, v, l);
    NotContainsConcat(a, Line(field, v), l);
  }

  /** The head ends a line, and holds a label only when the draft does. */
  lemma HeadEnds(d: string)
    requires NoLabel(d)
    ensures NoLabel(Head(d)) && Head(d) != [] && Head(d)[|Head(d)| - 1] == '\n'
  {
    HeadFree(d, TIME_LABEL);
    HeadFree(d, CATEGORY_LABEL);
    HeadFree(d, THEME_LABEL);
    HeadFree(d, COUNT_LABEL);
  }

  /** The four footer lines after a head. */
  function Footer(time: string, category: string, theme: string, count: nat): string
  {
    Line(TIME_LABEL, time) + Line(CATEGORY_LABEL, category) + Line(THEME_LABEL, theme) +
    Line(COUNT_LABEL, NatToString(count) + Orchestrator.COUNT_UNIT)
  }

  /** The body the orchestrator renders is the head and the footer. */
  lemma BodyLayout(d: string, theme: Orchestrator.Theme, count: nat)
    ensures Orchestrator.IssueBody(d, theme, count) == Head(d) + Footer(theme.scheduledTime, theme.category, theme.theme, count)
  {
    FieldsAreLabels();
    Lines(Head(d), TIME_LABEL, theme.scheduledTime, CATEGORY_LABEL, theme.category, THEME_LABEL, theme.theme,
      COUNT_LABEL, NatToString(count), Orchestrator.COUNT_UNIT);
  }

  /** Four fields with their values, written out piece by piece, are four footer lines. */
  lemma Lines(x: string, f1: string, v1: string, f2: string, v2: string, f3: string, v3: string,
              f4: string, w: string, u: string)
    ensures x + f1 + " " + v1 + "\n" + f2 + " " + v2 + "\n" + f3 + " " + v3 + "\n" + f4 + " " + w + u + "\n"
         == x + (Line(f1, v1) + Line(f2, v2) + Line(f3, v3) + Line(f4, w + u))
  {
  }

  /** The regroupings of five parts the footer lemmas need. */
  lemma Regroup(h: string, l1: string, l2: string, l3: string, l4: string)
    ensures h + (l1 + l2 + l3 + l4) == h + l1 + (l2 + l3 + l4)
    ensures h + (l1 + l2 + l3 + l4) == h + l1 + l2 + (l3 + l4)
    ensures h + (l1 + l2 + l3 + l4) == h + l1 + l2 + l3 + l4 + []
  {
  }

  /** The scheduled time read back from a body with the footer. */
  lemma FooterTime(s: string, h: string, time: string, category: string, theme: string, count: nat)
    requires s == h + Footer(time, category, theme, count)
    requires NoLabel(h) && h != [] && h[|h| - 1] == '\n'
    requires time != [] && forall k :: 0 <= k < |time| ==> !IsSpace(time[k])
    ensures TimeValue(s) == Some(time)
  {
    var l1, l2, l3, l4 := Line(TIME_LABEL, time), Line(CATEGORY_LABEL, category), Line(THEME_LABEL, theme),
      Line(COUNT_LABEL, NatToString(count) + Orchestrator.COUNT_UNIT);
    Regroup(h, l1, l2, l3, l4);
    TimeRead(s, h, time, l2 + l3 + l4);
  }

  /** The category read back from a body with the footer. */
  lemma FooterCategory(s: string, h: string, time: string, category: string, theme: string, count: nat)
    requires s == h + Footer(time, category, theme, count)
    requires NoLabel(h) && h != [] && h[|h| - 1] == '\n' && NoLabel(time)
    requires Trim(category) != [] && SingleLine(category)
    ensures LineValue(s, CATEGORY_LABEL) == Some(Trim(category))
  {
    var l1, l2, l3, l4 := Line(TIME_LABEL, time), Line(CATEGORY_LABEL, category), Line(THEME_LABEL, theme),
      Line(COUNT_LABEL, NatToString(count) + Orchestrator.COUNT_UNIT);
    Regroup(h, l1, l2, l3, l4);
    LabelsApart();
    LineAfter(h, TIME_LABEL, time, CATEGORY_LABEL);
    LineRead(s, h + l1, CATEGORY_LABEL, category, l3 + l4);
  }

  /** The theme read back from a body with the footer. */
  lemma FooterTheme(s: string, h: string, time: string, category: string, theme: string, count: nat)
    requires s == h + Footer(time, category, theme, count)
    requires NoLabel(h) && h != [] && h[|h| - 1] == '\n' && NoLabel(time) && NoLabel(category)
    requires Trim(theme) != [] && SingleLine(theme)
    ensures LineValue(s, THEME_LABEL) == Some(Trim(theme))
  {
    var l1, l2, l3, l4 := Line(TIME_LABEL, time), Line(CATEGORY_LABEL, category), Line(THEME_LABEL, theme),
      Line(COUNT_LABEL, NatToString(count) + Orchestrator.COUNT_UNIT);
    Regroup(h, l1, l2, l3, l4);
    LabelsApart();
    LineAfter(h, TIME_LABEL, time, THEME_LABEL);
    LineAfter(h + l1, CATEGORY_LABEL, category, THEME_LABEL);
    LineRead(s, h + l1 + l2, THEME_LABEL, theme, l4);
  }

  /** The character count read back from a body with the footer. */
  lemma FooterCount(s: string, h: string, time: string, category: string, theme: string, count: nat)
    requires s == h + Footer(time, category, theme, count)
    requires NoLabel(h) && h != [] && h[|h| - 1] == '\n' && NoLabel(time) && NoLabel(category) && NoLabel(theme)
    ensures CountValue(s) == Some(count)
  {
    var l1, l2, l3, l4 := Line(TIME_LABEL, time), Line(CATEGORY_LABEL, category), Line(THEME_LABEL, theme),
      Line(COUNT_LABEL, NatToString(count) + Orchestrator.COUNT_UNIT);
    Regroup(h, l1, l2, l3, l4);
    LabelsApart();
    LineAfter(h, TIME_LABEL, time, COUNT_LABEL);
    LineAfter(h + l1, CATEGORY_LABEL, category, COUNT_LABEL);
    LineAfter(h + l1 + l2, THEME_LABEL, theme, COUNT_LABEL);
    CountRead(s, h + l1 + l2 + l3, count, []);
  }

  /** The draft read back from a head and whatever follows it. */
  lemma HeadDraft(s: string, d: string, rest: string)
    requires s == Head(d) + rest && !Contains(d, RULE) && !AllSpace(d)
    ensures ExtractFeedback(s).finalDraft == Some(Trim(d))
  {
    var pl := Orchestrator.PLACEHOLDER;
    assert s == pl + "\n\n" + d + "\n\n---" + ("\n" + rest);
    PlaceholderLine();
    DraftFound(s, pl, d, "\n" + rest);
  }

  /** The draft read back from a head with a blank draft and a footer whose newlines all start
      a labelled line. */
  lemma BlankHeadDraft(s: string, d: string, rest: string)
    requires s == Head(d) + rest && AllSpace(d) && !Contains("---" + ("\n" + rest), RULE)
    ensures ExtractFeedback(s).finalDraft == Some(Trim(d))
  {
    var pl := Orchestrator.PLACEHOLDER;
    assert s == pl + "\n\n" + d + "\n\n---" + ("\n" + rest);
    PlaceholderLine();
    BlankDraftFound(s, pl, d, "\n" + rest);
  }

  /** Every newline of `x` but a last one is followed by `*`. */
  predicate StarredLines(x: string)
  {
    forall k :: 0 <= k < |x| - 1 && x[k] == '\n' ==> x[k + 1] == '*'
  }

  /** No rule starts in text whose newlines are followed by `*`. */
  lemma StarredNoRule(x: string)
    requires StarredLines(x)
    ensures !Contains(x, RULE)
  {
    forall k | 0 <= k <= |x| ensures !IsAt(x, k, RULE) {
      if k + |RULE| <= |x| {
        assert x[k..k + |RULE|][0] == x[k];
        assert x[k..k + |RULE|][1] == x[k + 1];
      }
    }
  }

  /** Text followed by text that starts with `*` keeps its newlines followed by `*`. */
  lemma StarredJoin(a: string, b: string)
    requires StarredLines(a) && StarredLines(b) && b != [] && b[0] == '*'
    ensures StarredLines(a + b) && (a + b)[|a|] == '*'
  {
    var x := a + b;
    forall k | 0 <= k < |x| - 1 && x[k] == '\n' ensures x[k + 1] == '*' {
      if k < |a| - 1 {
        assert x[k] == a[k] && x[k + 1] == a[k + 1];
      } else if k >= |a| {
        assert x[k] == b[k - |a|] && x[k + 1] == b[k - |a| + 1];
      }
    }
  }

  /** A footer line whose field starts with `*` has its only newline at its end. */
  lemma StarredLine(f: string, v: string)
    requires f != [] && f[0] == '*' && '\n' !in f && '\n' !in v
    ensures StarredLines(Line(f, v)) && Line(f, v) != [] && Line(f, v)[0] == '*'
  {
    var l := Line(f, v);
    forall k | 0 <= k < |l| - 1 ensures l[k] != '\n' {
      if k < |f| {
        assert l[k] == f[k];
      } else if k > |f| {
        assert l[k] == v[k - |f| - 1];
      }
    }
  }

  /** The dashes of the rule and a footer without newlines in its values hold no rule. */
  lemma FooterRuleFree(time: string, category: string, theme: string, count: nat)
    requires '\n' !in time && '\n' !in category && '\n' !in theme
    ensures !Contains("---" + ("\n" + Footer(time, category, theme, count)), RULE)
  {
    var w := NatToString(count) + Orchestrator.COUNT_UNIT;
    assert '\n' !in w by {
      DigitsSingleLine(NatToString(count));
      assert SingleLine(Orchestrator.COUNT_UNIT);
      SingleLineJoin(NatToString(count), Orchestrator.COUNT_UNIT);
    }
    LabelChars(TIME_LABEL);
    LabelChars(CATEGORY_LABEL);
    LabelChars(THEME_LABEL);
    LabelChars(COUNT_LABEL);
    var l1, l2, l3, l4 := Line(TIME_LABEL, time), Line(CATEGORY_LABEL, category), Line(THEME_LABEL, theme), Line(COUNT_LABEL, w);
    StarredLine(TIME_LABEL, time);
    StarredLine(CATEGORY_LABEL, category);
    StarredLine(THEME_LABEL, theme);
    StarredLine(COUNT_LABEL, w);
    StarredFooter(l1, l2, l3, l4);
    assert "---" + ("\n" + Footer(time, category, theme, count)) == "---\n" + (l1 + l2 + l3 + l4);
  }

  /** Four starred lines after the rule's dashes and newline hold no rule. */
  lemma StarredFooter(l1: string, l2: string, l3: string, l4: string)
    requires StarredLines(l1) && StarredLines(l2) && StarredLines(l3) && StarredLines(l4)
    requires l1 != [] && l1[0] == '*' && l2 != [] && l2[0] == '*' && l3 != [] && l3[0] == '*' && l4 != [] && l4[0] == '*'
    ensures !Contains("---\n" + (l1 + l2 + l3 + l4), RULE)
  {
    StarredJoin(l1, l2);
    StarredJoin(l1 + l2, l3);
    StarredJoin(l1 + l2 + l3, l4);
    assert StarredLines("---\n");
    StarredJoin("---\n", l1 + l2 + l3 + l4);
    StarredNoRule("---\n" + (l1 + l2 + l3 + l4));
  }

  /** Everything the collector reads back from a head and a footer. A blank draft reads back as
      the empty string. */
  lemma HeadFooterRoundTrip(s: string, d: string, time: string, category: string, theme: string, count: nat)
    requires s == Head(d) + Footer(time, category, theme, count)
    requires !Contains(d, RULE) && NoLabel(d)
    requires time != [] && NoLabel(time) && forall k :: 0 <= k < |time| ==> !IsSpace(time[k])
    requires Trim(category) != [] && SingleLine(category) && NoLabel(category)
    requires Trim(theme) != [] && SingleLine(theme) && NoLabel(theme)
    ensures ExtractFeedback(s).finalDraft == Some(Trim(d))
    ensures ExtractMetadata(s) == Metadata(Some(time), Some(Trim(category)), Some(Trim(theme)), Some(count))
  {
    var h := Head(d);
    HeadEnds(d);
    if AllSpace(d) {
      assert IsSpace('\n') && IsLineTerminator('\n');
      FooterRuleFree(time, category, theme, count);
      BlankHeadDraft(s, d, Footer(time, category, theme, count));
    } else {
      HeadDraft(s, d, Footer(time, category, theme, count));
    }
    FooterTime(s, h, time, category, theme, count);
    FooterCategory(s, h, time, category, theme, count);
    FooterTheme(s, h, time, category, theme, count);
    FooterCount(s, h, time, category, theme, count);
  }

  /** A ticket body the orchestrator renders gives back, through the feedback collector, the
      trimmed draft and every footer value: the scheduled time as written, the category and the
      theme trimmed, and the character count. */
  lemma IssueBodyRoundTrip(d: string, theme: Orchestrator.Theme, count: int)
    requires count >= 0
    requires !Contains(d, RULE) && NoLabel(d)
    requires var time := theme.scheduledTime;
      time != [] && NoLabel(time) && forall k :: 0 <= k < |time| ==> !IsSpace(time[k])
    requires Trim(theme.category) != [] && SingleLine(theme.category) && NoLabel(theme.category)
    requires Trim(theme.theme) != [] && SingleLine(theme.theme) && NoLabel(theme.theme)
    ensures ExtractFeedback(Orchestrator.IssueBody(d, theme, count)).finalDraft == Some(Trim(d))
    ensures ExtractMetadata(Orchestrator.IssueBody(d, theme, count))
         == Metadata(Some(theme.scheduledTime), Some(Trim(theme.category)), Some(Trim(theme.theme)), Some(count))
  {
    BodyLayout(d, theme, count);
    HeadFooterRoundTrip(Orchestrator.IssueBody(d, theme, count), d, theme.scheduledTime, theme.category, theme.theme, count);
  }

  /** A blank category: the `\s*` after the category label runs over the end of its line, so the
      category read back is the whole theme line, label included. */
  lemma BlankCategoryReadsThemeLine(d: string, theme: Orchestrator.Theme, count: nat)
    requires NoLabel(d) && NoLabel(theme.scheduledTime)
    requires theme.category == [] && SingleLine(theme.theme)
    ensures ExtractMetadata(Orchestrator.IssueBody(d, theme, count)).category == Some(Trim(THEME_LABEL + " " + theme.theme))
  {
    BodyLayout(d, theme, count);
    HeadEnds(d);
    FooterBlankCategory(Orchestrator.IssueBody(d, theme, count), Head(d), theme.scheduledTime, theme.theme, count);
  }

  /** The category read back from a footer whose category is empty. */
  lemma FooterBlankCategory(s: string, h: string, time: string, theme: string, count: nat)
    requires s == h + Footer(time, [], theme, count)
    requires NoLabel(h) && h != [] && h[|h| - 1] == '\n' && NoLabel(time) && SingleLine(theme)
    ensures LineValue(s, CATEGORY_LABEL) == Some(Trim(THEME_LABEL + " " + theme))
  {
    var l1, l4 := Line(TIME_LABEL, time), Line(COUNT_LABEL, NatToString(count) + Orchestrator.COUNT_UNIT);
    var v := "\n" + THEME_LABEL + " " + theme;
    assert s == h + l1 + Line(CATEGORY_LABEL, v) + l4;
    LabelsApart();
    LineAfter(h, TIME_LABEL, time, CATEGORY_LABEL);
    BlankShape(v, theme);
    FieldRead(s, h + l1, CATEGORY_LABEL, v, l4, 1, |v|, NotLineTerminator);
  }

  /** A line end, then the theme line: the run after the line end is the rest of the value. */
  lemma BlankShape(v: string, theme: string)
    requires v == "\n" + THEME_LABEL + " " + theme && SingleLine(theme)
    ensures ValueRunAt(v, 1, |v|, NotLineTerminator) && v[1..|v|] == THEME_LABEL + " " + theme
  {
    var t := THEME_LABEL + " " + theme;
    assert v == "\n" + t;
    assert SingleLine(THEME_LABEL + " ");
    SingleLineJoin(THEME_LABEL + " ", theme);
    RunAfterLineEnd(v, t);
  }

  /** Two single lines joined are a single line. */
  lemma SingleLineJoin(a: string, b: string)
    requires SingleLine(a) && SingleLine(b)
    ensures SingleLine(a + b)
  {
    forall k | 0 <= k < |a + b| ensures !IsLineTerminator((a + b)[k]) {
      if k >= |a| {
        assert (a + b)[k] == b[k - |a|];
      }
    }
  }

  /** A line end before a single line that starts with a non-space: `\s*` takes the line end, and
      the run of `.` is the line. */
  lemma RunAfterLineEnd(v: string, t: string)
    requires v == "\n" + t && SingleLine(t) && t != [] && !IsSpace(t[0])
    ensures ValueRunAt(v, 1, |v|, NotLineTerminator) && v[1..|v|] == t
  {
    assert v[1..] == t;
    assert TrimStart(t) == t;
    forall k | 1 <= k < |v| ensures InClass(NotLineTerminator, v[k]) {
      assert v[k] == t[k - 1];
    }
  }

  /** A blank theme: the `\s*` after the theme label runs over the end of its line, so the
      theme read back is the whole character-count line, label included. */
  lemma BlankThemeReadsCountLine(d: string, theme: Orchestrator.Theme, count: nat)
    requires NoLabel(d) && NoLabel(theme.scheduledTime) && NoLabel(theme.category)
    requires theme.theme == []
    ensures ExtractMetadata(Orchestrator.IssueBody(d, theme, count)).theme
         == Some(Trim(COUNT_LABEL + " " + NatToString(count) + Orchestrator.COUNT_UNIT))
  {
    BodyLayout(d, theme, count);
    HeadEnds(d);
    FooterBlankTheme(Orchestrator.IssueBody(d, theme, count), Head(d), theme.scheduledTime, theme.category, count);
  }

  /** The theme read back from a footer whose theme is empty. */
  lemma FooterBlankTheme(s: string, h: string, time: string, category: string, count: nat)
    requires s == h + Footer(time, category, [], count)
    requires NoLabel(h) && h != [] && h[|h| - 1] == '\n' && NoLabel(time) && NoLabel(category)
    ensures LineValue(s, THEME_LABEL) == Some(Trim(COUNT_LABEL + " " + NatToString(count) + Orchestrator.COUNT_UNIT))
  {
    var l1, l2 := Line(TIME_LABEL, time), Line(CATEGORY_LABEL, category);
    var t := COUNT_LABEL + " " + NatToString(count) + Orchestrator.COUNT_UNIT;
    var v := "\n" + t;
    BlankThemeLayout(s, h, time, category, count, t, v);
    LabelsApart();
    LineAfter(h, TIME_LABEL, time, THEME_LABEL);
    LineAfter(h + l1, CATEGORY_LABEL, category, THEME_LABEL);
    CountLineShape(v, t, count);
    FieldRead(s, h + l1 + l2, THEME_LABEL, v, [], 1, |v|, NotLineTerminator);
  }

  /** A footer with an empty theme: the theme line and the count line read as one theme line
      whose value starts with a line end. */
  lemma BlankThemeLayout(s: string, h: string, time: string, category: string, count: nat, t: string, v: string)
    requires s == h + Footer(time, category, [], count)
    requires t == COUNT_LABEL + " " + NatToString(count) + Orchestrator.COUNT_UNIT && v == "\n" + t
    ensures s == h + Line(TIME_LABEL, time) + Line(CATEGORY_LABEL, category) + Line(THEME_LABEL, v) + []
  {
    var w := NatToString(count) + Orchestrator.COUNT_UNIT;
    var l1, l2, l3, l4 := Line(TIME_LABEL, time), Line(CATEGORY_LABEL, category), Line(THEME_LABEL, []), Line(COUNT_LABEL, w);
    Regroup(h, l1, l2, l3, l4);
    BlankLineJoin(THEME_LABEL, COUNT_LABEL, w);
    assert "\n" + COUNT_LABEL + " " + w == v;
  }

  /** An empty line value followed by another line is one line whose value starts with a line end. */
  lemma BlankLineJoin(f: string, g: string, w: string)
    ensures Line(f, []) + Line(g, w) == Line(f, "\n" + g + " " + w)
  {
  }

  /** A line end, then the count line: the run after the line end is the rest of the value. */
  lemma CountLineShape(v: string, t: string, count: nat)
    requires t == COUNT_LABEL + " " + NatToString(count) + Orchestrator.COUNT_UNIT && v == "\n" + t
    ensures ValueRunAt(v, 1, |v|, NotLineTerminator) && v[1..|v|] == t
  {
    assert SingleLine(COUNT_LABEL + " ");
    assert SingleLine(Orchestrator.COUNT_UNIT);
    DigitsSingleLine(NatToString(count));
    SingleLineJoin(COUNT_LABEL + " ", NatToString(count));
    SingleLineJoin(COUNT_LABEL + " " + NatToString(count), Orchestrator.COUNT_UNIT);
    RunAfterLineEnd(v, t);
  }

  /** Digits are no line terminators. */
  lemma DigitsSingleLine(x: string)
    requires forall i :: 0 <= i < |x| ==> IsDigit(x[i])
    ensures SingleLine(x)
  {
  }

  // ---- the draft generator's body ----

  /** The draft generator's body is a head holding the trimmed draft, and its two footer lines. */
  lemma DraftBodyLayout(content: string, time: string, p: DraftGenerator.PostType)
    ensures DraftGenerator.DraftBody(content, time, p)
         == Head(Trim(content)) + (Line(DraftGenerator.TIME_NOTE, time) + Line(DraftGenerator.CATEGORY_NOTE, p.description))
  {
    TwoLines(Head(Trim(content)), DraftGenerator.TIME_NOTE, time, DraftGenerator.CATEGORY_NOTE, p.description);
  }

  /** Two fields with their values, written out piece by piece, are two footer lines. */
  lemma TwoLines(x: string, f1: string, v1: string, f2: string, v2: string)
    ensures x + f1 + " " + v1 + "\n" + f2 + " " + v2 + "\n" == x + (Line(f1, v1) + Line(f2, v2))
  {
  }

  /** No label begins inside the draft generator's footer notes, which hold no `*`. */
  lemma NoteFree(l: string)
    requires IsLabel(l)
    ensures !Contains(DraftGenerator.TIME_NOTE, l) && !Contains(DraftGenerator.CATEGORY_NOTE, l)
  {
    LabelChars(l);
    NotContainsByHead(DraftGenerator.TIME_NOTE, l);
    NotContainsByHead(DraftGenerator.CATEGORY_NOTE, l);
  }

  /** The draft generator's body holds a label only when its draft, time or description does. */
  lemma DraftBodyFree(content: string, time: string, p: DraftGenerator.PostType, l: string)
    requires IsLabel(l) && !Contains(content, l) && !Contains(time, l) && !Contains(p.description, l)
    ensures !Contains(DraftGenerator.DraftBody(content, time, p), l)
  {
    var l1, l2 := Line(DraftGenerator.TIME_NOTE, time), Line(DraftGenerator.CATEGORY_NOTE, p.description);
    DraftBodyLayout(content, time, p);
    LabelChars(l);
    TrimFree(content, l);
    HeadFree(Trim(content), l);
    NoteFree(l);
    LineFree(DraftGenerator.TIME_NOTE, time, l);
    LineFree(DraftGenerator.CATEGORY_NOTE, p.description, l);
    NotContainsConcat(l1, l2, l);
    NotContainsConcat(Head(Trim(content)), l1 + l2, l);
  }

  /** No post type's description holds a label: none holds a `*`. */
  lemma DescriptionFree(p: DraftGenerator.PostType)
    requires p in DraftGenerator.POST_TYPES
    ensures NoLabel(p.description)
  {
    assert '*' !in p.description;
    NotContainsByHead(p.description, TIME_LABEL);
    NotContainsByHead(p.description, CATEGORY_LABEL);
    NotContainsByHead(p.description, THEME_LABEL);
    NotContainsByHead(p.description, COUNT_LABEL);
  }

  /** The footer lines of a draft ticket carry no `**`, so the collector reads no metadata from
      the body, for any post type, when the draft and the time hold no label themselves. */
  lemma DraftBodyNoMetadata(content: string, time: string, p: DraftGenerator.PostType)
    requires NoLabel(content) && NoLabel(time) && p in DraftGenerator.POST_TYPES
    ensures ExtractMetadata(DraftGenerator.DraftBody(content, time, p)) == Metadata(None, None, None, None)
  {
    DescriptionFree(p);
    DraftBodyFree(content, time, p, TIME_LABEL);
    DraftBodyFree(content, time, p, CATEGORY_LABEL);
    DraftBodyFree(content, time, p, THEME_LABEL);
    DraftBodyFree(content, time, p, COUNT_LABEL);
  }

  /** The draft of a draft ticket is read back trimmed, when it holds no rule and is not blank. */
  lemma DraftBodyDraft(content: string, time: string, p: DraftGenerator.PostType)
    requires !Contains(content, RULE) && Trim(content) != []
    ensures ExtractFeedback(DraftGenerator.DraftBody(content, time, p)).finalDraft == Some(Trim(content))
  {
    var t := Trim(content);
    DraftBodyLayout(content, time, p);
    TrimFree(content, RULE);
    TrimUnpaddedEnds(content);
    TrimIdempotent(content);
    HeadDraft(DraftGenerator.DraftBody(content, time, p), t,
      Line(DraftGenerator.TIME_NOTE, time) + Line(DraftGenerator.CATEGORY_NOTE, p.description));
  }
}
