/** A ticket body after the reviewer has filled in the two feedback sections below the rule:
    what `ExtractFeedback` records from it, with the sections left as comments and with text
    written under `### 修正前`. */
module FeedbackSections {
  import opened Wrappers
  import opened Strings
  import opened FeedbackExtract
  import opened BodyRoundTrip

  // ---- the body ----

  /** The comment line, a blank line, the draft, a blank line and the rule. */
  function Top(c: string, d: string): string
  {
    c + "\n\n" + d + "\n\n---\n"
  }

  /** The `### 修正前` heading, the text before the edit and a blank line. */
  function BeforeSection(o: string): string
  {
    BEFORE_HEADING + "\n" + o + "\n\n"
  }

  /** The `### 修正理由` heading and the comment below it. */
  function ReasonSection(c: string): string
  {
    REASON_HEADING + "\n" + c
  }

  /** The whole body: the top, the section before the edit holding `o`, the reason section. */
  function EditedBody(c: string, d: string, o: string): string
  {
    Top(c, d) + BeforeSection(o) + ReasonSection(c)
  }

  /** A comment line with no `#` in it. */
  predicate Comment(c: string)
  {
    CommentLine(c) && '#' !in c
  }

  /** A draft with text, no `#` and no rule. */
  predicate DraftText(d: string)
  {
    '#' !in d && !Contains(d, RULE) && !AllSpace(d)
  }

  /** Text written before the edit: it starts with a character that neither is white space nor
      opens a comment, and holds no `#`. */
  predicate EditText(o: string)
  {
    o != [] && !IsSpace(o[0]) && o[0] != '<' && '#' !in o
  }

  // ---- occurrences ----

  /** No occurrence of `p` starts in the part `y` of `x + y` when `y` holds none. */
  lemma SuffixNone(s: string, x: string, y: string, p: string)
    requires s == x + y && !Contains(y, p)
    ensures forall j :: |x| <= j <= |s| ==> !IsAt(s, j, p)
  {
    forall j | |x| <= j <= |s| ensures !IsAt(s, j, p) {
      if j + |p| <= |s| {
        assert s[j..j + |p|] == y[j - |x|..j - |x| + |p|];
        assert !IsAt(y, j - |x|, p);
      }
    }
  }

  /** The search for `p` in `x + y` finds it where `y` begins, when `x` holds none, ends with a
      character that is not in `p`, and `y` begins with `p`. */
  lemma FoundAtJoin(s: string, x: string, y: string, p: string)
    requires s == x + y && !Contains(x, p) && x != [] && x[|x| - 1] !in p && StartsWith(y, p)
    ensures FindFrom(s, p, 0) == Some(|x|)
  {
    NoneBefore(s, x, y, p);
    assert s[|x|..|x| + |p|] == y[..|p|];
    FindFromIs(s, p, 0, |x|);
  }

  /** A comment line placed after `x` ends where the line ends. */
  lemma CommentAt(s: string, x: string, c: string, y: string)
    requires CommentLine(c) && s == x + c + y
    ensures CommentEnd(s, |x|) == Some(|x| + |c|)
  {
    var p, g := |x|, |x| + |c| - 1;
    assert s[p..p + |c|] == c;
    assert s[p..p + 4] == c[..4] == OPEN;
    forall j | p + 4 <= j < g ensures s[j] != '>' {
      assert s[j] == c[j - p];
    }
    assert s[g - 2] == c[|c| - 3..][0];
    assert s[g - 1] == c[|c| - 3..][1];
    assert s[g] == c[|c| - 3..][2];
    CommentEndIs(s, p, g);
  }

  /** `\n### 修正理由` cannot start where the next character is not `#`. */
  lemma NoRuleBefore(s: string, a: nat, z: nat)
    requires a <= z < |s| && forall k :: a < k <= z ==> s[k] != '#'
    ensures forall j :: a <= j < z ==> !IsAt(s, j, REASON_RULE)
  {
    forall j | a <= j < z ensures !IsAt(s, j, REASON_RULE) {
      if j + |REASON_RULE| <= |s| {
        assert s[j..j + |REASON_RULE|][1] == s[j + 1];
      }
    }
  }

  // ---- the three parts ----

  /** The draft is read back trimmed. */
  lemma EditedDraft(c: string, d: string, o: string)
    requires Comment(c) && DraftText(d)
    ensures ExtractFeedback(EditedBody(c, d, o)).finalDraft == Some(Trim(d))
  {
    var s := EditedBody(c, d, o);
    var rest := "\n" + BeforeSection(o) + ReasonSection(c);
    assert s == c + "\n\n" + d + "\n\n---" + rest;
    DraftFound(s, c, d, rest);
  }

  /** The first `### 修正前` heading is the section's. */
  lemma BeforeHeadingAt(c: string, d: string, o: string)
    requires Comment(c) && DraftText(d)
    ensures FindFrom(EditedBody(c, d, o), BEFORE_HEADING, 0) == Some(|Top(c, d)|)
  {
    var t := Top(c, d);
    NotContainsByHead(t, BEFORE_HEADING);
    FoundAtJoin(EditedBody(c, d, o), t, BeforeSection(o) + ReasonSection(c), BEFORE_HEADING);
  }

  /** The section before the edit holds no `### 修正理由` heading. */
  lemma BeforeSectionFree(o: string)
    requires '#' !in o
    ensures !Contains(BeforeSection(o), REASON_HEADING)
  {
    var tail := "\n" + o + "\n\n";
    NotContainsByChar(BEFORE_HEADING, REASON_HEADING, 6);
    NotContainsByHead(tail, REASON_HEADING);
    NotContainsConcat(BEFORE_HEADING, tail, REASON_HEADING);
    assert BeforeSection(o) == BEFORE_HEADING + tail;
  }

  /** The first `### 修正理由` heading is the reason section's. */
  lemma ReasonHeadingAt(c: string, d: string, o: string)
    requires Comment(c) && DraftText(d) && '#' !in o
    ensures FindFrom(EditedBody(c, d, o), REASON_HEADING, 0) == Some(|Top(c, d)| + |BeforeSection(o)|)
  {
    var t, b := Top(c, d), BeforeSection(o);
    NotContainsByHead(t, REASON_HEADING);
    BeforeSectionFree(o);
    NotContainsConcat(t, b, REASON_HEADING);
    FoundAtJoin(EditedBody(c, d, o), t + b, ReasonSection(c), REASON_HEADING);
  }

  /** The reason section holds only a comment, so no reason is recorded. */
  lemma EditedReason(c: string, d: string, o: string)
    requires Comment(c) && DraftText(d) && '#' !in o
    ensures ExtractFeedback(EditedBody(c, d, o)).feedbackReason.None?
  {
    var s := EditedBody(c, d, o);
    var h := |Top(c, d)| + |BeforeSection(o)|;
    var i := h + |REASON_HEADING|;
    ReasonHeadingAt(c, d, o);
    ReasonLayout(s, c, d, o, h, i);
    CommentedReason(s, h, i, i + 1, i, |s|);
    assert Kept(s[|s|..]) == None;
  }

  /** Below the reason heading: its newline, then the comment up to the end of the body. */
  lemma ReasonLayout(s: string, c: string, d: string, o: string, h: nat, i: nat)
    requires Comment(c) && s == EditedBody(c, d, o)
    requires h == |Top(c, d)| + |BeforeSection(o)| && i == h + |REASON_HEADING|
    ensures i < |s| && s[i] == '\n' && RunEnd(s, i, Space) == i + 1
    ensures CommentEnd(s, i + 1) == Some(|s|)
  {
    var x := Top(c, d) + BeforeSection(o) + REASON_HEADING + "\n";
    assert s == x + c;
    CommentToEnd(s, x, c, i);
  }

  /** A line break and then a comment that ends the text. */
  lemma CommentToEnd(s: string, x: string, c: string, i: nat)
    requires CommentLine(c) && s == x + c && i + 1 == |x| && x[i] == '\n'
    ensures i < |s| && s[i] == '\n' && RunEnd(s, i, Space) == i + 1
    ensures CommentEnd(s, i + 1) == Some(|s|)
  {
    assert s == x + c + [];
    assert s[i + 1] == c[0] == '<';
    RunEndIs(s, i, i + 1, Space);
    CommentAt(s, x, c, []);
  }

  /** Below the `### 修正前` heading: its newline, then the first character of `o`. */
  lemma BeforeLayout(s: string, c: string, d: string, o: string, h: nat, i: nat)
    requires s == EditedBody(c, d, o) && o != [] && !IsSpace(o[0])
    requires h == |Top(c, d)| && i == h + |BEFORE_HEADING|
    ensures i + 1 < |s| && s[i] == '\n' && s[i + 1] == o[0] && RunEnd(s, i, Space) == i + 1
  {
    assert s == Top(c, d) + BEFORE_HEADING + "\n" + o + ("\n\n" + ReasonSection(c));
    RunEndIs(s, i, i + 1, Space);
  }

  // ---- the section before the edit ----

  /** Left as a comment, the section before the edit records nothing, and the draft is not
      marked as modified. */
  lemma CommentedBefore(c: string, d: string)
    requires Comment(c) && DraftText(d)
    ensures ExtractFeedback(EditedBody(c, d, c)).originalDraft.None?
    ensures !ExtractFeedback(EditedBody(c, d, c)).wasModified
  {
    var s := EditedBody(c, d, c);
    var h := |Top(c, d)|;
    var i := h + |BEFORE_HEADING|;
    var e := i + 1 + |c|;
    BeforeHeadingAt(c, d, c);
    BeforeLayout(s, c, d, c, h, i);
    CommentTailLayout(s, c, d, i, e);
    CommentOnlySection(s, h, i, i + 1, i, e, e + 2);
  }

  /** After the comment under `### 修正前`: a blank line, which runs into the reason heading,
      and no later reason heading. */
  lemma CommentTailLayout(s: string, c: string, d: string, i: nat, e: nat)
    requires Comment(c) && s == EditedBody(c, d, c)
    requires i == |Top(c, d)| + |BEFORE_HEADING| && e == i + 1 + |c|
    ensures i + 1 <= |s| && CommentEnd(s, i + 1) == Some(e)
    ensures e + 2 <= |s| && RunEnd(s, e, Space) == e + 2 && IsAt(s, e + 1, REASON_RULE)
    ensures FindFrom(s, REASON_RULE, e + 2) == None
  {
    var x := Top(c, d) + BEFORE_HEADING + "\n";
    assert s == x + c + "\n\n" + ReasonSection(c);
    CommentThenReason(s, x, c, ReasonSection(c), e);
  }

  /** A comment, a blank line and the reason section, after `x`. */
  lemma CommentThenReason(s: string, x: string, c: string, r: string, e: nat)
    requires Comment(c) && r == ReasonSection(c) && s == x + c + "\n\n" + r && e == |x| + |c|
    ensures CommentEnd(s, |x|) == Some(e)
    ensures e + 2 <= |s| && RunEnd(s, e, Space) == e + 2 && IsAt(s, e + 1, REASON_RULE)
    ensures FindFrom(s, REASON_RULE, e + 2) == None
  {
    CommentAt(s, x, c, "\n\n" + r);
    BlankThenReason(s, x + c, r, e);
    ReasonSectionFree(c);
    SuffixNone(s, x + c + "\n\n", r, REASON_RULE);
    FindFromAbsent(s, REASON_RULE, e + 2);
  }

  /** A blank line before the reason heading: the white space runs to the heading, and the
      rule starts at the blank line's second newline. */
  lemma BlankThenReason(s: string, x: string, r: string, e: nat)
    requires s == x + "\n\n" + r && e == |x| && StartsWith(r, REASON_HEADING)
    ensures e + 2 <= |s| && RunEnd(s, e, Space) == e + 2 && IsAt(s, e + 1, REASON_RULE)
  {
    assert s[e + 2] == r[0] == REASON_HEADING[0] == '#';
    RunEndIs(s, e, e + 2, Space);
    assert s[e + 1..e + 1 + |REASON_RULE|] == "\n" + r[..|REASON_HEADING|];
  }

  /** The reason section holds no `\n### 修正理由`. */
  lemma ReasonSectionFree(c: string)
    requires '#' !in c
    ensures !Contains(ReasonSection(c), REASON_RULE)
  {
    var tail := "\n" + c;
    assert REASON_RULE[1] == '#';
    NotContainsByChar(tail, REASON_RULE, 1);
    NotContainsConcat(REASON_HEADING, tail, REASON_RULE);
    assert ReasonSection(c) == REASON_HEADING + tail;
  }

  /** With text under `### 修正前`, that text is recorded, trimmed, as the draft before the
      edit, and the draft is marked as modified exactly when it is recorded. */
  lemma EditedBefore(c: string, d: string, o: string)
    requires Comment(c) && DraftText(d) && EditText(o)
    ensures ExtractFeedback(EditedBody(c, d, o)).originalDraft == Kept(o)
    ensures ExtractFeedback(EditedBody(c, d, o)).wasModified <==> Kept(o).Some?
  {
    var s := EditedBody(c, d, o);
    var h := |Top(c, d)|;
    var i := h + |BEFORE_HEADING|;
    var z := i + 1 + |o| + 1;
    BeforeHeadingAt(c, d, o);
    BeforeLayout(s, c, d, o, h, i);
    assert !IsAt(s, i + 1, OPEN);
    EditTextEnd(s, c, d, o, i, z);
    PlainSection(s, h, i, i + 1, i, z);
    EditTextKept(s, o, i, z);
  }

  /** The first `\n### 修正理由` after the text before the edit is at the end of its blank line. */
  lemma EditTextEnd(s: string, c: string, d: string, o: string, i: nat, z: nat)
    requires s == EditedBody(c, d, o) && '#' !in o
    requires i == |Top(c, d)| + |BEFORE_HEADING| && z == i + 1 + |o| + 1
    ensures z < |s| && FindFrom(s, REASON_RULE, i + 1) == Some(z) && s[i..z] == "\n" + o + "\n"
  {
    var x := Top(c, d) + BEFORE_HEADING;
    assert s == x + ("\n" + o + "\n") + ("\n" + ReasonSection(c));
    TextThenRule(s, x, o, ReasonSection(c), i, z);
  }

  /** Text with no `#` between two newlines, then the rule: the capture is the text and its
      newlines, and the rule is the first after the text begins. */
  lemma TextThenRule(s: string, x: string, o: string, r: string, i: nat, z: nat)
    requires s == x + ("\n" + o + "\n") + ("\n" + r) && '#' !in o && StartsWith(r, REASON_HEADING)
    requires i == |x| && z == i + 1 + |o| + 1
    ensures z < |s| && FindFrom(s, REASON_RULE, i + 1) == Some(z) && s[i..z] == "\n" + o + "\n"
  {
    TextNoHash(s, x, o, r, i, z);
    NoRuleBefore(s, i + 1, z);
    assert s[z..z + |REASON_RULE|] == "\n" + r[..|REASON_HEADING|];
    FindFromIs(s, REASON_RULE, i + 1, z);
  }

  lemma TextNoHash(s: string, x: string, o: string, r: string, i: nat, z: nat)
    requires s == x + ("\n" + o + "\n") + ("\n" + r) && '#' !in o
    requires i == |x| && z == i + 1 + |o| + 1
    ensures z < |s| && s[i..z] == "\n" + o + "\n" && forall k :: i + 1 < k <= z ==> s[k] != '#'
  {
    forall k | i + 1 < k <= z ensures s[k] != '#' {
      if k < z - 1 {
        assert s[k] == o[k - i - 1];
      }
    }
  }

  /** The capture of the section before the edit is its text between two newlines. */
  lemma EditTextKept(s: string, o: string, i: nat, z: nat)
    requires i + 1 + |o| + 1 == z <= |s| && s[i..z] == "\n" + o + "\n"
    ensures Kept(s[i..z]) == Kept(o)
  {
    assert AllSpace("\n");
    TrimAroundSpace("\n", o, "\n");
  }

  // ---- what is recorded ----

  /** Text before the edit that starts with a character that is neither white space nor `<` is
      kept, trimmed. */
  lemma EditTextKeptSome(o: string)
    requires EditText(o)
    ensures Kept(o) == Some(Trim(o))
  {
    assert TrimStart(o) == o;
    var r := TrimEnd(o);
    TrimEndRemovesSpace(o);
    if |r| < |o| {
      assert o[|r|..][0] == o[|r|];
    }
    assert r[0] == o[0];
  }

  /** A body whose two sections hold only comments: the trimmed draft, and nothing before the
      edit, no reason, not modified. */
  lemma CommentedSectionsFeedback(c: string, d: string)
    requires Comment(c) && DraftText(d)
    ensures ExtractFeedback(EditedBody(c, d, c)) == Feedback(None, Some(Trim(d)), None, false)
  {
    EditedDraft(c, d, c);
    CommentedBefore(c, d);
    EditedReason(c, d, c);
  }

  /** A body with text under `### 修正前` and a comment under `### 修正理由`: the trimmed
      draft, the trimmed text before the edit, no reason, modified. */
  lemma EditedSectionsFeedback(c: string, d: string, o: string)
    requires Comment(c) && DraftText(d) && EditText(o)
    ensures ExtractFeedback(EditedBody(c, d, o)) == Feedback(Some(Trim(o)), Some(Trim(d)), None, true)
  {
    EditedDraft(c, d, o);
    EditedBefore(c, d, o);
    EditedReason(c, d, o);
    EditTextKeptSome(o);
  }

  /** `Hello world` as the draft, comments in both sections. */
  lemma HelloWorldBody()
    ensures ExtractFeedback(EditedBody("<!--c-->", "Hello world", "<!--c-->"))
         == Feedback(None, Some("Hello world"), None, false)
  {
    var c, d := "<!--c-->", "Hello world";
    ExampleComment(c);
    ExampleText(d);
    CommentedSectionsFeedback(c, d);
  }

  /** `Hello world` as the draft, `Old text` under `### 修正前`. */
  lemma OldTextBody()
    ensures ExtractFeedback(EditedBody("<!--c-->", "Hello world", "Old text"))
         == Feedback(Some("Old text"), Some("Hello world"), None, true)
  {
    var c, d, o := "<!--c-->", "Hello world", "Old text";
    ExampleComment(c);
    ExampleText(d);
    ExampleText(o);
    EditedSectionsFeedback(c, d, o);
  }

  lemma ExampleComment(c: string)
    requires c == "<!--c-->"
    ensures Comment(c)
  {
    assert c[..4] == OPEN && c[|c| - 3..] == "-->";
  }

  /** A line of letters and spaces that starts and ends with a letter. */
  lemma ExampleText(d: string)
    requires d == "Hello world" || d == "Old text"
    ensures DraftText(d) && EditText(d) && Trim(d) == d
  {
    NotContainsByHead(d, RULE);
    assert !IsSpace(d[0]) && !IsSpace(d[|d| - 1]);
    assert TrimStart(d) == d;
  }
}
