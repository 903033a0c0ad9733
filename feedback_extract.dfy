/** The two readers of a ticket body in the feedback collector: `extractFeedbackFromIssue`,
    which finds the final draft, the text before the edit and the reason for it, and
    `extractMetadata`, which reads the four `**label:** value` footer lines. Each regular
    expression is written out as the search the JavaScript engine performs: the leftmost
    position where the pattern matches, greedy parts taken as long as possible and then given
    back one character at a time, lazy parts taken as short as possible. */
module FeedbackExtract {
  import opened Wrappers
  import opened Strings

  const OPEN := "<!--"
  /** `\n---`, the rule that ends the draft. */
  const RULE := "\n---"
  const HEADING_MARK := "### "
  const BEFORE_HEADING := HEADING_MARK + "修正前"
  const REASON_HEADING := HEADING_MARK + "修正理由"
  /** `\n### 修正理由`, the lookahead that ends the section before the edit. */
  const REASON_RULE := "\n" + REASON_HEADING
  const TIME_LABEL := "**投稿予定時刻:**"
  const CATEGORY_LABEL := "**カテゴリ:**"
  const THEME_LABEL := "**テーマ:**"
  const COUNT_LABEL := "**文字数:**"

  // ---- character runs ----

  /** The classes of the greedy runs in the patterns: `\s`, `\S`, `.` and `\d`. */
  datatype CharClass = Space | NonSpace | NotLineTerminator | Digit

  predicate InClass(cls: CharClass, c: char)
  {
    match cls
    case Space => IsSpace(c)
    case NonSpace => !IsSpace(c)
    case NotLineTerminator => !IsLineTerminator(c)
    case Digit => IsDigit(c)
  }

  /** Where the longest run of `cls` characters starting at `i` ends: what a greedy `\s*`,
      `\S+`, `.+` or `\d+` takes first. */
  function RunEnd(s: string, i: nat, cls: CharClass): (r: nat)
    requires i <= |s|
    ensures i <= r <= |s|
    decreases |s| - i
  {
    if i < |s| && InClass(cls, s[i]) then RunEnd(s, i + 1, cls) else i
  }

  /** The run is all `cls` and the character after it is not. */
  lemma {:induction false} RunEndSpan(s: string, i: nat, cls: CharClass)
    requires i <= |s|
    ensures forall k :: i <= k < RunEnd(s, i, cls) ==> InClass(cls, s[k])
    ensures RunEnd(s, i, cls) == |s| || !InClass(cls, s[RunEnd(s, i, cls)])
    decreases |s| - i
  {
    if i < |s| && InClass(cls, s[i]) {
      RunEndSpan(s, i + 1, cls);
    }
  }

  lemma {:induction false} RunEndIs(s: string, i: nat, j: nat, cls: CharClass)
    requires i <= j <= |s|
    requires forall k :: i <= k < j ==> InClass(cls, s[k])
    requires j == |s| || !InClass(cls, s[j])
    ensures RunEnd(s, i, cls) == j
    decreases j - i
  {
    if i < j {
      RunEndIs(s, i + 1, j, cls);
    }
  }

  // ---- comments ----

  /** Where the first `>` at or after `j` is, or the end of the text: how far `[^>]*` runs. */
  function CloseFrom(s: string, j: nat): (r: nat)
    requires j <= |s|
    ensures j <= r <= |s|
    decreases |s| - j
  {
    if j < |s| && s[j] != '>' then CloseFrom(s, j + 1) else j
  }

  lemma {:induction false} CloseFromIs(s: string, j: nat, g: nat)
    requires j <= g < |s| && s[g] == '>'
    requires forall k :: j <= k < g ==> s[k] != '>'
    ensures CloseFrom(s, j) == g
    decreases g - j
  {
    if j < g {
      CloseFromIs(s, j + 1, g);
    }
  }

  /** `<!--[^>]*-->` at `p`, and where it ends. `[^>]*` runs to the first `>`, so the match is
      the one whose closing `-->` ends at that `>`. */
  function CommentEnd(s: string, p: nat): (r: Option<nat>)
    requires p <= |s|
    ensures r.Some? ==> p + 7 <= r.value <= |s| && IsAt(s, p, OPEN)
  {
    if !IsAt(s, p, OPEN) then None
    else
      var g := CloseFrom(s, p + 4);
      if g < |s| && g >= p + 6 && s[g - 2] == '-' && s[g - 1] == '-' then Some(g + 1) else None
  }

  /** A comment whose text holds no `>` ends right after its first `-->`. */
  lemma {:induction false} CommentEndIs(s: string, p: nat, g: nat)
    requires IsAt(s, p, OPEN) && p + 6 <= g < |s|
    requires s[g - 2] == '-' && s[g - 1] == '-' && s[g] == '>'
    requires forall j :: p + 4 <= j < g ==> s[j] != '>'
    ensures CommentEnd(s, p) == Some(g + 1)
  {
    CloseFromIs(s, p + 4, g);
  }

  // ---- lazy captures ----

  /** What ends a lazy capture: the lookahead `(?=p)`, or `$` (the end of the text, as the
      pattern has no `m` flag). */
  datatype Stop = Before(p: string) | AtEnd

  /** The shortest capture from `t` that the stop follows: where it ends. */
  function FindStop(s: string, stop: Stop, t: nat): (r: Option<nat>)
    ensures r.Some? ==> t <= r.value <= |s|
    ensures r.Some? && stop.Before? ==> IsAt(s, r.value, stop.p)
    ensures stop.AtEnd? && t <= |s| ==> r == Some(|s|)
  {
    if t > |s| then None
    else
      match stop
      case Before(p) => FindFrom(s, p, t)
      case AtEnd => Some(|s|)
  }

  /** `\s*([\s\S]*?)` with the stop after it, once the greedy `\s*` has run from `lo` to `t`: the
      lazy capture is tried first from `t`, and `\s*` gives back one character at a time while
      no stop follows. The bounds of the capture. */
  function Backtrack(s: string, lo: nat, t: nat, stop: Stop): (r: Option<(nat, nat)>)
    requires lo <= t <= |s|
    ensures r.Some? ==> lo <= r.value.0 <= r.value.1 <= |s|
    ensures r.Some? && stop.Before? ==> IsAt(s, r.value.1, stop.p)
    decreases t
  {
    match FindStop(s, stop, t)
    case Some(c) => Some((t, c))
    case None => if t == lo then None else Backtrack(s, lo, t - 1, stop)
  }

  // ---- the final draft ----

  /** `<!--[^>]*-->\s*([\s\S]*?)(?=\n---)`, tried at each `<!--` from `from` on: the bounds
      of the capture at the leftmost one where it matches. */
  function DraftMatch(s: string, from: nat): (r: Option<(nat, nat)>)
    requires from <= |s|
    ensures r.Some? ==> r.value.0 <= r.value.1 <= |s| && IsAt(s, r.value.1, RULE)
    ensures r.Some? ==> Contains(s, OPEN)
    decreases |s| - from
  {
    var m := DraftAttempt(s, from);
    if m.Some? then m else if from == |s| then None else DraftMatch(s, from + 1)
  }

  /** The draft pattern at `p`. */
  function DraftAttempt(s: string, p: nat): (r: Option<(nat, nat)>)
    requires p <= |s|
    ensures r.Some? ==> r.value.0 <= r.value.1 <= |s| && IsAt(s, r.value.1, RULE) && IsAt(s, p, OPEN)
  {
    match CommentEnd(s, p)
    case None => None
    case Some(e) => Backtrack(s, e, RunEnd(s, e, Space), Before(RULE))
  }

  // ---- the sections ----

  /** The capture that starts at `t`, when the stop follows it. */
  function TryAt(s: string, t: nat, stop: Stop): (r: Option<(nat, nat)>)
    requires t <= |s|
    ensures r.Some? ==> t == r.value.0 <= r.value.1 <= |s|
    ensures r.Some? && stop.Before? ==> IsAt(s, r.value.1, stop.p)
  {
    match FindStop(s, stop, t)
    case Some(c) => Some((t, c))
    case None => None
  }

  /** The first alternative the engine tries, unless it fails. */
  function OrElse(a: Option<(nat, nat)>, b: Option<(nat, nat)>): Option<(nat, nat)>
  {
    if a.Some? then a else b
  }

  /** `\n?` at `t` and the capture after it: a newline there is taken first, then left. */
  function OptionalNewline(s: string, t: nat, stop: Stop): (r: Option<(nat, nat)>)
    requires t <= |s|
    ensures r.Some? ==> t <= r.value.0 <= r.value.1 <= |s|
    ensures r.Some? && stop.Before? ==> IsAt(s, r.value.1, stop.p)
  {
    if t < |s| && s[t] == '\n' then OrElse(TryAt(s, t + 1, stop), TryAt(s, t, stop)) else TryAt(s, t, stop)
  }

  /** After a comment that ends at `e` and a greedy `\s*` that ran from `e` to `t`: the capture
      `\n?` leads to, `\s*` given back one character at a time. */
  function CommentTail(s: string, e: nat, t: nat, stop: Stop): (r: Option<(nat, nat)>)
    requires e <= t <= |s|
    ensures r.Some? ==> e <= r.value.0 <= r.value.1 <= |s|
    ensures r.Some? && stop.Before? ==> IsAt(s, r.value.1, stop.p)
    decreases t
  {
    OrElse(OptionalNewline(s, t, stop), if t == e then None else CommentTail(s, e, t - 1, stop))
  }

  /** `(?:<!--[^>]*-->\s*)?\n?` from `q` and the capture: with the optional comment first, then
      without it. */
  function AfterNewline(s: string, q: nat, stop: Stop): (r: Option<(nat, nat)>)
    requires q <= |s|
    ensures r.Some? ==> q <= r.value.0 <= r.value.1 <= |s|
    ensures r.Some? && stop.Before? ==> IsAt(s, r.value.1, stop.p)
  {
    var commented := match CommentEnd(s, q)
                     case None => None
                     case Some(e) => CommentTail(s, e, RunEnd(s, e, Space), stop);
    OrElse(commented, OptionalNewline(s, q, stop))
  }

  /** `\s*\n` after a heading, `\s*` having started at `i` and given back down to `n`: each
      newline at `n` or before it, the last first, and the capture that follows it. */
  function HeadingTail(s: string, i: nat, n: nat, stop: Stop): (r: Option<(nat, nat)>)
    requires i <= n < |s|
    ensures r.Some? ==> r.value.0 <= r.value.1 <= |s|
    ensures r.Some? && stop.Before? ==> IsAt(s, r.value.1, stop.p)
    decreases n
  {
    OrElse(if s[n] == '\n' then AfterNewline(s, n + 1, stop) else None,
           if n == i then None else HeadingTail(s, i, n - 1, stop))
  }

  /** `heading\s*\n(?:<!--[^>]*-->\s*)?\n?([\s\S]*?)` and the stop, tried at each occurrence of
      the heading from `from` on: the bounds of the capture at the leftmost one where it
      matches. */
  function SectionMatch(s: string, heading: string, stop: Stop, from: nat): (r: Option<(nat, nat)>)
    requires heading != [] && from <= |s|
    ensures r.Some? ==> r.value.0 <= r.value.1 <= |s|
    ensures r.Some? && stop.Before? ==> IsAt(s, r.value.1, stop.p)
    ensures r.Some? ==> Contains(s, heading)
    decreases |s| - from
  {
    var m := if IsAt(s, from, heading) then SectionAttempt(s, from + |heading|, stop) else None;
    if m.Some? then m else if from == |s| then None else SectionMatch(s, heading, stop, from + 1)
  }

  /** The rest of the section pattern after a heading that ends at `i`. */
  function SectionAttempt(s: string, i: nat, stop: Stop): (r: Option<(nat, nat)>)
    requires i <= |s|
    ensures r.Some? ==> r.value.0 <= r.value.1 <= |s|
    ensures r.Some? && stop.Before? ==> IsAt(s, r.value.1, stop.p)
  {
    var w := RunEnd(s, i, Space);
    if w == i then None else HeadingTail(s, i, w - 1, stop)
  }

  /** What a section keeps of its capture: the trimmed text, unless it is empty or it begins
      with a comment. */
  function Kept(capture: string): (r: Option<string>)
    ensures r.Some? ==> r.value == Trim(capture)
  {
    var v := Trim(capture);
    if v != [] && !StartsWith(v, OPEN) then Some(v) else None
  }

  function Captured(s: string, m: Option<(nat, nat)>): (r: Option<string>)
    requires m.Some? ==> m.value.0 <= m.value.1 <= |s|
  {
    match m
    case None => None
    case Some((a, b)) => Some(s[a..b])
  }

  datatype Feedback = Feedback(originalDraft: Option<string>, finalDraft: Option<string>,
                               feedbackReason: Option<string>, wasModified: bool)

  /** Ends of the captures in `ExtractFeedback`. */
  function OriginalMatch(s: string): Option<(nat, nat)>
  {
    SectionMatch(s, BEFORE_HEADING, Before(REASON_RULE), 0)
  }

  function ReasonMatch(s: string): Option<(nat, nat)>
  {
    SectionMatch(s, REASON_HEADING, AtEnd, 0)
  }

  /** `extractFeedbackFromIssue`: each part is null until its pattern matches; the draft is the
      trimmed capture, and the two sections keep their capture only when it has text that is
      not a comment. */
  function ExtractFeedback(body: string): (r: Feedback)
    ensures r.wasModified <==> r.originalDraft.Some?
    ensures r.finalDraft.Some? ==> Trim(r.finalDraft.value) == r.finalDraft.value
    ensures r.originalDraft.Some? ==> r.originalDraft.value != [] && !StartsWith(r.originalDraft.value, OPEN)
                                      && Trim(r.originalDraft.value) == r.originalDraft.value
    ensures r.feedbackReason.Some? ==> r.feedbackReason.value != [] && !StartsWith(r.feedbackReason.value, OPEN)
                                       && Trim(r.feedbackReason.value) == r.feedbackReason.value
    ensures !Contains(body, OPEN) ==> r.finalDraft.None?
    ensures !Contains(body, BEFORE_HEADING) ==> r.originalDraft.None? && !r.wasModified
    ensures !Contains(body, REASON_HEADING) ==> r.originalDraft.None? && r.feedbackReason.None?
  {
    var original := OriginalMatch(body);
    var reason := ReasonMatch(body);
    var finalDraft := FinalDraft(body);
    var originalDraft := match Captured(body, original) case None => None case Some(c) => Kept(c);
    var feedbackReason := match Captured(body, reason) case None => None case Some(c) => Kept(c);
    ExtractFacts(body);
    Feedback(originalDraft, finalDraft, feedbackReason, originalDraft.Some?)
  }

  /** The trimmed capture of the draft pattern, if it matches. */
  function FinalDraft(body: string): Option<string>
  {
    match Captured(body, DraftMatch(body, 0))
    case None => None
    case Some(c) => Some(Trim(c))
  }

  lemma {:induction false} ExtractFacts(body: string)
    ensures DraftMatch(body, 0).Some? ==> Contains(body, OPEN)
    ensures OriginalMatch(body).Some? ==> Contains(body, REASON_HEADING)
    ensures forall c :: Trim(Trim(c)) == Trim(c)
  {
    forall c: string ensures Trim(Trim(c)) == Trim(c) {
      TrimIdempotent(c);
    }
    var m := OriginalMatch(body);
    if m.Some? {
      var c := m.value.1;
      assert body[c + 1..c + 1 + |REASON_HEADING|] == body[c..c + |REASON_RULE|][1..];
      assert IsAt(body, c + 1, REASON_HEADING);
    }
  }

  // ---- what the three parts hold ----

  /** `Kept` depends on the trimmed capture only. */
  lemma {:induction false} KeptAroundSpace(w: string, x: string)
    requires AllSpace(w)
    ensures Kept(w + x) == Kept(x)
  {
    TrimAroundSpace(w, x, []);
    assert w + x + [] == w + x;
  }

  /** The first comment, if it ends at `e`, and the first rule after the white space that
      follows it: the final draft is the trimmed text between the two. */
  lemma {:induction false} DraftBetween(s: string, p: nat, e: nat, c: nat)
    requires FindFrom(s, OPEN, 0) == Some(p)
    requires CommentEnd(s, p) == Some(e)
    requires FindFrom(s, RULE, RunEnd(s, e, Space)) == Some(c)
    ensures FinalDraft(s) == Some(Trim(s[e..c]))
    ensures ExtractFeedback(s).finalDraft == FinalDraft(s)
  {
    var b := RunEnd(s, e, Space);
    FindFromSpan(s, OPEN, 0);
    assert DraftAttempt(s, p) == Some((b, c));
    DraftMatchAt(s, 0, p);
    DraftIs(s, b, c);
    TrimFromSpace(s, e, b, c);
  }

  /** The recorded final draft is the trimmed capture. */
  lemma {:induction false} DraftIs(s: string, a: nat, c: nat)
    requires DraftMatch(s, 0) == Some((a, c))
    ensures FinalDraft(s) == Some(Trim(s[a..c]))
  {
  }

  /** White space at the start of a capture does not change its trimmed text. */
  lemma {:induction false} TrimFromSpace(s: string, i: nat, j: nat, c: nat)
    requires i <= j <= c <= |s| && j <= RunEnd(s, i, Space)
    ensures Trim(s[i..c]) == Trim(s[j..c])
  {
    SpaceBetween(s, i, j);
    assert s[i..c] == s[i..j] + s[j..c] + [];
    TrimAroundSpace(s[i..j], s[j..c], []);
  }

  /** The draft pattern at the first `<!--`, when it matches there. */
  lemma {:induction false} DraftMatchAt(s: string, j: nat, p: nat)
    requires j <= p <= |s|
    requires forall k :: j <= k < p ==> !IsAt(s, k, OPEN)
    requires DraftAttempt(s, p).Some?
    ensures DraftMatch(s, j) == DraftAttempt(s, p)
    decreases p - j
  {
    if j < p {
      DraftMatchAt(s, j + 1, p);
      assert DraftAttempt(s, j).None?;
    }
  }

  /** The newlines of the white space after a heading: the last one leads the search. */
  lemma {:induction false} HeadingTailFrom(s: string, stop: Stop, i: nat, n: nat, k: nat)
    requires i <= n <= k < |s| && s[n] == '\n'
    requires forall j :: n < j <= k ==> s[j] != '\n'
    requires AfterNewline(s, n + 1, stop).Some?
    ensures HeadingTail(s, i, k, stop) == AfterNewline(s, n + 1, stop)
    decreases k
  {
    if k > n {
      HeadingTailFrom(s, stop, i, n, k - 1);
    }
  }

  /** A heading that ends at `i`, whose white space holds a newline, the last one at `n`:
      when a capture follows that newline, it is the one the pattern takes. */
  lemma {:induction false} SectionAt(s: string, stop: Stop, i: nat, w: nat, n: nat)
    requires i <= |s| && w == RunEnd(s, i, Space)
    requires i <= n < w && s[n] == '\n'
    requires forall k :: n < k < w ==> s[k] != '\n'
    requires AfterNewline(s, n + 1, stop).Some?
    ensures SectionAttempt(s, i, stop) == AfterNewline(s, n + 1, stop)
  {
    HeadingTailFrom(s, stop, i, n, w - 1);
  }

  /** The section pattern at the first occurrence of its heading, when it matches there. */
  lemma {:induction false} SectionMatchAt(s: string, heading: string, stop: Stop, j: nat, h: nat, i: nat)
    requires heading != [] && j <= h && IsAt(s, h, heading) && i == h + |heading|
    requires forall k :: j <= k < h ==> !IsAt(s, k, heading)
    requires SectionAttempt(s, i, stop).Some?
    ensures SectionMatch(s, heading, stop, j) == SectionAttempt(s, i, stop)
    decreases h - j
  {
    if j < h {
      SectionMatchAt(s, heading, stop, j + 1, h, i);
      SectionMatchSkip(s, heading, stop, j);
    } else {
      SectionMatchHere(s, heading, stop, h, i);
    }
  }

  lemma {:induction false} SectionMatchHere(s: string, heading: string, stop: Stop, h: nat, i: nat)
    requires heading != [] && IsAt(s, h, heading) && i == h + |heading|
    requires SectionAttempt(s, i, stop).Some?
    ensures SectionMatch(s, heading, stop, h) == SectionAttempt(s, i, stop)
  {
  }

  lemma {:induction false} SectionMatchSkip(s: string, heading: string, stop: Stop, h: nat)
    requires heading != [] && h < |s| && !IsAt(s, h, heading)
    ensures SectionMatch(s, heading, stop, h) == SectionMatch(s, heading, stop, h + 1)
  {
  }

  /** After the last newline of the white space that ends at `w`, no newline follows. */
  lemma {:induction false} AfterLastNewline(s: string, stop: Stop, n: nat, w: nat)
    requires n < w <= |s| && (w == |s| || !IsSpace(s[w]))
    requires forall k :: n < k < w ==> s[k] != '\n'
    ensures OptionalNewline(s, n + 1, stop) == TryAt(s, n + 1, stop)
  {
    if n + 1 == w && w < |s| {
      assert !IsSpace(s[w]);
    }
  }

  /** The section pattern matches at the first occurrence of its heading when a capture starts
      after the last newline of the white space that follows that heading. */
  lemma {:induction false} SectionFound(s: string, heading: string, stop: Stop, h: nat, i: nat, w: nat, n: nat)
    requires heading != [] && FindFrom(s, heading, 0) == Some(h)
    requires i == h + |heading| && w == RunEnd(s, i, Space)
    requires i <= n < w && s[n] == '\n'
    requires forall k :: n < k < w ==> s[k] != '\n'
    requires AfterNewline(s, n + 1, stop).Some?
    ensures SectionMatch(s, heading, stop, 0) == AfterNewline(s, n + 1, stop)
  {
    FindFromSpan(s, heading, 0);
    SectionAt(s, stop, i, w, n);
    assert SectionAttempt(s, i, stop).Some?;
    SectionMatchAt(s, heading, stop, 0, h, i);
  }

  /** With no comment after the last newline, the capture starts right after that newline. */
  lemma {:induction false} PlainStart(s: string, stop: Stop, i: nat, w: nat, n: nat)
    requires i <= |s| && w == RunEnd(s, i, Space)
    requires i <= n < w && s[n] == '\n'
    requires forall k :: n < k < w ==> s[k] != '\n'
    requires CommentEnd(s, n + 1) == None
    ensures AfterNewline(s, n + 1, stop) == TryAt(s, n + 1, stop)
  {
    RunEndSpan(s, i, Space);
    AfterLastNewline(s, stop, n, w);
  }

  /** With a comment after the last newline, the capture starts after the white space that
      follows the comment, when the stop follows from there. */
  lemma {:induction false} CommentStart(s: string, stop: Stop, n: nat, e: nat, b: nat, c: nat)
    requires n < |s| && CommentEnd(s, n + 1) == Some(e)
    requires b == RunEnd(s, e, Space) && FindStop(s, stop, b) == Some(c)
    ensures AfterNewline(s, n + 1, stop) == Some((b, c))
  {
    RunEndSpan(s, e, Space);
    assert OptionalNewline(s, b, stop) == Some((b, c));
  }

  /** The recorded text before the edit is what `Kept` makes of the capture. */
  lemma {:induction false} OriginalIs(s: string, a: nat, c: nat)
    requires OriginalMatch(s) == Some((a, c))
    ensures ExtractFeedback(s).originalDraft == Kept(s[a..c])
    ensures ExtractFeedback(s).wasModified <==> Kept(s[a..c]).Some?
    ensures a == c ==> ExtractFeedback(s).originalDraft.None? && !ExtractFeedback(s).wasModified
  {
    if a == c {
      assert s[a..c] == [] && Kept([]) == None;
    }
  }

  /** The recorded reason is what `Kept` makes of the capture. */
  lemma {:induction false} ReasonIs(s: string, a: nat, c: nat)
    requires ReasonMatch(s) == Some((a, c))
    ensures ExtractFeedback(s).feedbackReason == Kept(s[a..c])
    ensures c == |s| ==> ExtractFeedback(s).feedbackReason == Kept(s[a..])
  {
    assert c == |s| ==> s[a..c] == s[a..];
  }

  /** White space at the start of a capture does not change what is kept. */
  lemma {:induction false} KeptFromSpace(s: string, i: nat, j: nat, c: nat)
    requires i <= j <= c <= |s| && j <= RunEnd(s, i, Space)
    ensures Kept(s[i..c]) == Kept(s[j..c])
    ensures c == |s| ==> Kept(s[i..]) == Kept(s[j..])
  {
    assert c == |s| ==> s[i..c] == s[i..] && s[j..c] == s[j..];
    SpaceBetween(s, i, j);
    assert s[i..c] == s[i..j] + s[j..c];
    KeptAroundSpace(s[i..j], s[j..c]);
  }

  /** The text of the white-space run from `i` is white space. */
  lemma {:induction false} SpaceBetween(s: string, i: nat, j: nat)
    requires i <= j <= |s| && j <= RunEnd(s, i, Space)
    ensures AllSpace(s[i..j])
  {
    RunEndSpan(s, i, Space);
    forall k | 0 <= k < j - i ensures IsSpace(s[i..j][k]) {
      assert s[i..j][k] == s[i + k] && InClass(Space, s[i + k]);
    }
  }

  /** The text before the edit, when no comment follows the heading: the trimmed text from the
      heading to the next `### 修正理由` heading, if it is not empty and not a comment. */
  lemma {:induction false} PlainSection(s: string, h: nat, i: nat, w: nat, n: nat, c: nat)
    requires FindFrom(s, BEFORE_HEADING, 0) == Some(h)
    requires i == h + |BEFORE_HEADING| && w == RunEnd(s, i, Space)
    requires i <= n < w && s[n] == '\n'
    requires forall k :: n < k < w ==> s[k] != '\n'
    requires CommentEnd(s, n + 1) == None
    requires FindFrom(s, REASON_RULE, n + 1) == Some(c)
    ensures ExtractFeedback(s).originalDraft == Kept(s[i..c])
    ensures ExtractFeedback(s).wasModified <==> Kept(s[i..c]).Some?
  {
    PlainStart(s, Before(REASON_RULE), i, w, n);
    assert TryAt(s, n + 1, Before(REASON_RULE)) == Some((n + 1, c));
    SectionFound(s, BEFORE_HEADING, Before(REASON_RULE), h, i, w, n);
    OriginalIs(s, n + 1, c);
    KeptFromSpace(s, i, n + 1, c);
  }

  /** The text before the edit, when a comment follows the heading: the trimmed text from the
      end of the comment to the next `### 修正理由` heading after its white space. */
  lemma {:induction false} CommentedSection(s: string, h: nat, i: nat, w: nat, n: nat, e: nat, c: nat)
    requires FindFrom(s, BEFORE_HEADING, 0) == Some(h)
    requires i == h + |BEFORE_HEADING| && w == RunEnd(s, i, Space)
    requires i <= n < w && s[n] == '\n'
    requires forall k :: n < k < w ==> s[k] != '\n'
    requires CommentEnd(s, n + 1) == Some(e)
    requires FindFrom(s, REASON_RULE, RunEnd(s, e, Space)) == Some(c)
    ensures ExtractFeedback(s).originalDraft == Kept(s[e..c])
    ensures ExtractFeedback(s).wasModified <==> Kept(s[e..c]).Some?
  {
    var b := RunEnd(s, e, Space);
    CommentStart(s, Before(REASON_RULE), n, e, b, c);
    SectionFound(s, BEFORE_HEADING, Before(REASON_RULE), h, i, w, n);
    OriginalIs(s, b, c);
    KeptFromSpace(s, e, b, c);
  }

  /** After a comment whose white space runs into the last `### 修正理由` heading, the capture is
      empty: the rule's newline belongs to the white space, and `\n?` gives it back. */
  lemma {:induction false} CommentOnlyStart(s: string, n: nat, e: nat, b: nat)
    requires n < |s| && CommentEnd(s, n + 1) == Some(e)
    requires b == RunEnd(s, e, Space) && e < b && IsAt(s, b - 1, REASON_RULE)
    requires FindFrom(s, REASON_RULE, b) == None
    ensures AfterNewline(s, n + 1, Before(REASON_RULE)) == Some((b - 1, b - 1))
  {
    TailToLineEnd(s, e, b);
    AfterComment(s, n + 1, e, b, Before(REASON_RULE));
  }

  /** After a comment, `\s*` gives back down to the newline of the last `\n### 修正理由`, and the
      capture there is empty. */
  lemma TailToLineEnd(s: string, e: nat, b: nat)
    requires e < b <= |s| && b == RunEnd(s, e, Space) && IsAt(s, b - 1, REASON_RULE)
    requires FindFrom(s, REASON_RULE, b) == None
    ensures CommentTail(s, e, b, Before(REASON_RULE)) == Some((b - 1, b - 1))
  {
    GiveBackAtRunEnd(s, e, b);
    TailAtLineEnd(s, e, b);
  }

  /** At the end of the white space, `\s*` gives back one character. */
  lemma GiveBackAtRunEnd(s: string, e: nat, b: nat)
    requires e < b <= |s| && b == RunEnd(s, e, Space)
    requires FindFrom(s, REASON_RULE, b) == None
    ensures CommentTail(s, e, b, Before(REASON_RULE)) == CommentTail(s, e, b - 1, Before(REASON_RULE))
  {
    NoStopAfterRun(s, e, b);
    TailGivesBack(s, e, b, Before(REASON_RULE));
  }

  /** One character earlier, at the newline, the empty capture is the match. */
  lemma TailAtLineEnd(s: string, e: nat, b: nat)
    requires e < b <= |s| && IsAt(s, b - 1, REASON_RULE)
    requires FindFrom(s, REASON_RULE, b) == None
    ensures CommentTail(s, e, b - 1, Before(REASON_RULE)) == Some((b - 1, b - 1))
  {
    StopAtLineEnd(s, b);
    TailHere(s, e, b - 1, Before(REASON_RULE));
  }

  /** Where `\n?` and the capture find no stop, `\s*` gives back one character. */
  lemma TailGivesBack(s: string, e: nat, t: nat, stop: Stop)
    requires e < t <= |s| && OptionalNewline(s, t, stop) == None
    ensures CommentTail(s, e, t, stop) == CommentTail(s, e, t - 1, stop)
  {
  }

  /** Where `\n?` and the capture find a stop, that is the match. */
  lemma TailHere(s: string, e: nat, t: nat, stop: Stop)
    requires e <= t <= |s| && OptionalNewline(s, t, stop).Some?
    ensures CommentTail(s, e, t, stop) == OptionalNewline(s, t, stop)
  {
  }

  /** After a newline, a comment whose tail matches is taken. */
  lemma AfterComment(s: string, q: nat, e: nat, b: nat, stop: Stop)
    requires q <= |s| && CommentEnd(s, q) == Some(e) && b == RunEnd(s, e, Space)
    requires CommentTail(s, e, b, stop).Some?
    ensures AfterNewline(s, q, stop) == CommentTail(s, e, b, stop)
  {
  }

  /** Where the white space after a comment ends, with no `\n### 修正理由` from there on, `\n?`
      and the lazy capture find no stop. */
  lemma NoStopAfterRun(s: string, e: nat, b: nat)
    requires e <= |s| && b == RunEnd(s, e, Space)
    requires FindFrom(s, REASON_RULE, b) == None
    ensures OptionalNewline(s, b, Before(REASON_RULE)) == None
  {
    RunEndSpan(s, e, Space);
  }

  /** At the newline that opens the last `\n### 修正理由`, `\n?` cannot be taken, and the empty
      capture before it is the match. */
  lemma StopAtLineEnd(s: string, b: nat)
    requires 0 < b <= |s| && IsAt(s, b - 1, REASON_RULE)
    requires FindFrom(s, REASON_RULE, b) == None
    ensures OptionalNewline(s, b - 1, Before(REASON_RULE)) == Some((b - 1, b - 1))
  {
    assert s[b - 1] == REASON_RULE[0];
    FindFromIs(s, REASON_RULE, b - 1, b - 1);
  }

  /** A section that holds nothing but a comment and the blank lines after it, before the last
      `### 修正理由` heading: no text before the edit is recorded. */
  lemma {:induction false} CommentOnlySection(s: string, h: nat, i: nat, w: nat, n: nat, e: nat, b: nat)
    requires FindFrom(s, BEFORE_HEADING, 0) == Some(h)
    requires i == h + |BEFORE_HEADING| && w == RunEnd(s, i, Space)
    requires i <= n < w && s[n] == '\n'
    requires forall k :: n < k < w ==> s[k] != '\n'
    requires CommentEnd(s, n + 1) == Some(e)
    requires b == RunEnd(s, e, Space) && e < b && IsAt(s, b - 1, REASON_RULE)
    requires FindFrom(s, REASON_RULE, b) == None
    ensures ExtractFeedback(s).originalDraft.None? && !ExtractFeedback(s).wasModified
  {
    var a := CommentOnlyMatch(s, h, i, w, n, e, b);
    OriginalEmpty(s, a);
  }

  lemma CommentOnlyMatch(s: string, h: nat, i: nat, w: nat, n: nat, e: nat, b: nat) returns (a: nat)
    requires FindFrom(s, BEFORE_HEADING, 0) == Some(h)
    requires i == h + |BEFORE_HEADING| && w == RunEnd(s, i, Space)
    requires i <= n < w && s[n] == '\n'
    requires forall k :: n < k < w ==> s[k] != '\n'
    requires CommentEnd(s, n + 1) == Some(e)
    requires b == RunEnd(s, e, Space) && e < b && IsAt(s, b - 1, REASON_RULE)
    requires FindFrom(s, REASON_RULE, b) == None
    ensures a == b - 1 && OriginalMatch(s) == Some((a, a))
  {
    a := b - 1;
    CommentOnlyStart(s, n, e, b);
    SectionFound(s, BEFORE_HEADING, Before(REASON_RULE), h, i, w, n);
  }

  lemma OriginalEmpty(s: string, a: nat)
    requires OriginalMatch(s) == Some((a, a))
    ensures ExtractFeedback(s).originalDraft.None? && !ExtractFeedback(s).wasModified
  {
    OriginalIs(s, a, a);
  }

  /** The reason, when no comment follows its heading: the trimmed rest of the text. */
  lemma {:induction false} PlainReason(s: string, h: nat, i: nat, w: nat, n: nat)
    requires FindFrom(s, REASON_HEADING, 0) == Some(h)
    requires i == h + |REASON_HEADING| && w == RunEnd(s, i, Space)
    requires i <= n < w && s[n] == '\n'
    requires forall k :: n < k < w ==> s[k] != '\n'
    requires CommentEnd(s, n + 1) == None
    ensures ExtractFeedback(s).feedbackReason == Kept(s[i..])
  {
    PlainReasonMatch(s, h, i, w, n);
    ReasonIs(s, n + 1, |s|);
    assert n + 1 <= RunEnd(s, i, Space);
    KeptFromSpace(s, i, n + 1, |s|);
  }

  /** The reason's capture, when no comment follows its heading: the rest of the body after the
      newline. */
  lemma PlainReasonMatch(s: string, h: nat, i: nat, w: nat, n: nat)
    requires FindFrom(s, REASON_HEADING, 0) == Some(h)
    requires i == h + |REASON_HEADING| && w == RunEnd(s, i, Space)
    requires i <= n < w && s[n] == '\n'
    requires forall k :: n < k < w ==> s[k] != '\n'
    requires CommentEnd(s, n + 1) == None
    ensures ReasonMatch(s) == Some((n + 1, |s|))
  {
    PlainStart(s, AtEnd, i, w, n);
    assert TryAt(s, n + 1, AtEnd) == Some((n + 1, |s|));
    SectionFound(s, REASON_HEADING, AtEnd, h, i, w, n);
  }

  /** The reason, when a comment follows its heading: the trimmed text after the comment. */
  lemma {:induction false} CommentedReason(s: string, h: nat, i: nat, w: nat, n: nat, e: nat)
    requires FindFrom(s, REASON_HEADING, 0) == Some(h)
    requires i == h + |REASON_HEADING| && w == RunEnd(s, i, Space)
    requires i <= n < w && s[n] == '\n'
    requires forall k :: n < k < w ==> s[k] != '\n'
    requires CommentEnd(s, n + 1) == Some(e)
    ensures ExtractFeedback(s).feedbackReason == Kept(s[e..])
  {
    var b := CommentedReasonMatch(s, h, i, w, n, e);
    ReasonIs(s, b, |s|);
    KeptFromSpace(s, e, b, |s|);
  }

  /** The reason's capture, when a comment follows its heading: the rest of the body after the
      comment and its white space. */
  lemma CommentedReasonMatch(s: string, h: nat, i: nat, w: nat, n: nat, e: nat) returns (b: nat)
    requires FindFrom(s, REASON_HEADING, 0) == Some(h)
    requires i == h + |REASON_HEADING| && w == RunEnd(s, i, Space)
    requires i <= n < w && s[n] == '\n'
    requires forall k :: n < k < w ==> s[k] != '\n'
    requires CommentEnd(s, n + 1) == Some(e)
    ensures e <= b <= |s| && b == RunEnd(s, e, Space) && ReasonMatch(s) == Some((b, |s|))
  {
    b := RunEnd(s, e, Space);
    CommentStart(s, AtEnd, n, e, b, |s|);
    SectionFound(s, REASON_HEADING, AtEnd, h, i, w, n);
  }

  // ---- the footer ----

  /** A greedy `\s*` that started at `lo` and ran to `j`, then a greedy run of `cls` of at least
      one character; `\s*` is given back one character at a time until the run can start. The
      bounds of the run. */
  function GreedyRun(s: string, lo: nat, j: nat, cls: CharClass): (r: Option<(nat, nat)>)
    requires lo <= j <= |s|
    ensures r.Some? ==> lo <= r.value.0 < r.value.1 <= |s|
    ensures r.Some? ==> forall k :: r.value.0 <= k < r.value.1 ==> InClass(cls, s[k])
    ensures r.Some? ==> r.value.1 == |s| || !InClass(cls, s[r.value.1])
    decreases j
  {
    if j < |s| && InClass(cls, s[j]) then
      RunEndSpan(s, j, cls);
      Some((j, RunEnd(s, j, cls)))
    else if j == lo then None
    else GreedyRun(s, lo, j - 1, cls)
  }

  /** `label\s*(run)`, tried at each occurrence of the label from `from` on: the bounds of the
      run at the leftmost one where it matches. */
  function LabelMatch(s: string, marker: string, cls: CharClass, from: nat): (r: Option<(nat, nat)>)
    requires marker != [] && from <= |s|
    ensures r.Some? ==> r.value.0 < r.value.1 <= |s|
    ensures r.Some? ==> forall k :: r.value.0 <= k < r.value.1 ==> InClass(cls, s[k])
    ensures r.Some? ==> Contains(s, marker)
    decreases |s| - from
  {
    var m := if IsAt(s, from, marker) then LabelAttempt(s, from + |marker|, cls) else None;
    if m.Some? then m else if from == |s| then None else LabelMatch(s, marker, cls, from + 1)
  }

  /** The footer pattern after a label that ends at `i`. */
  function LabelAttempt(s: string, i: nat, cls: CharClass): (r: Option<(nat, nat)>)
    requires i <= |s|
    ensures r.Some? ==> r.value.0 < r.value.1 <= |s|
    ensures r.Some? ==> forall k :: r.value.0 <= k < r.value.1 ==> InClass(cls, s[k])
  {
    GreedyRun(s, i, RunEnd(s, i, Space), cls)
  }

  datatype Metadata = Metadata(scheduledTime: Option<string>, category: Option<string>,
                               theme: Option<string>, charCount: Option<nat>)

  /** The text of a run, as a sequence of characters all in its class. */
  function RunText(s: string, m: Option<(nat, nat)>, cls: CharClass): (r: Option<string>)
    requires m.Some? ==> m.value.0 < m.value.1 <= |s|
    requires m.Some? ==> forall k :: m.value.0 <= k < m.value.1 ==> InClass(cls, s[k])
    ensures r.Some? ==> r.value != [] && forall k :: 0 <= k < |r.value| ==> InClass(cls, r.value[k])
    ensures r.Some? <==> m.Some?
  {
    match m
    case None => None
    case Some((a, b)) =>
      assert forall k :: 0 <= k < b - a ==> s[a..b][k] == s[a + k];
      Some(s[a..b])
  }

  /** `\*\*投稿予定時刻:\*\*\s*(\S+)`: the run of non-space characters after the label. */
  function TimeValue(body: string): (r: Option<string>)
    ensures !Contains(body, TIME_LABEL) ==> r.None?
    ensures r.Some? ==> r.value != [] && forall k :: 0 <= k < |r.value| ==> !IsSpace(r.value[k])
  {
    RunText(body, LabelMatch(body, TIME_LABEL, NonSpace, 0), NonSpace)
  }

  /** `marker\s*(.+)`, trimmed: the rest of the line after the marker. */
  function LineValue(body: string, marker: string): (r: Option<string>)
    requires marker != []
    ensures !Contains(body, marker) ==> r.None?
    ensures r.Some? ==> Trim(r.value) == r.value
    ensures r.Some? ==> forall k :: 0 <= k < |r.value| ==> !IsLineTerminator(r.value[k])
  {
    var line := RunText(body, LabelMatch(body, marker, NotLineTerminator, 0), NotLineTerminator);
    if line.None? then None
    else
      TrimmedLine(line.value);
      Some(Trim(line.value))
  }

  /** `\*\*文字数:\*\*\s*(\d+)`, read as a decimal number. */
  function CountValue(body: string): (r: Option<nat>)
    ensures !Contains(body, COUNT_LABEL) ==> r.None?
  {
    var digits := RunText(body, LabelMatch(body, COUNT_LABEL, Digit, 0), Digit);
    if digits.None? then None else Some(DigitsValue(digits.value))
  }

  /** `extractMetadata`: each part is null when its pattern does not match. */
  function ExtractMetadata(body: string): (r: Metadata)
    ensures !Contains(body, TIME_LABEL) ==> r.scheduledTime.None?
    ensures !Contains(body, CATEGORY_LABEL) ==> r.category.None?
    ensures !Contains(body, THEME_LABEL) ==> r.theme.None?
    ensures !Contains(body, COUNT_LABEL) ==> r.charCount.None?
  {
    Metadata(TimeValue(body), LineValue(body, CATEGORY_LABEL), LineValue(body, THEME_LABEL), CountValue(body))
  }

  /** The label search stops at the first occurrence of the label when the pattern matches
      after it. */
  lemma {:induction false} LabelMatchAt(s: string, marker: string, cls: CharClass, from: nat, h: nat, e: nat)
    requires marker != [] && from <= h && e == h + |marker| && e <= |s|
    requires IsAt(s, h, marker) && forall k :: from <= k < h ==> !IsAt(s, k, marker)
    requires LabelAttempt(s, e, cls).Some?
    ensures LabelMatch(s, marker, cls, from) == LabelAttempt(s, e, cls)
    decreases h - from
  {
    if from < h {
      LabelMatchSkip(s, marker, cls, from);
      LabelMatchAt(s, marker, cls, from + 1, h, e);
    } else {
      LabelMatchHere(s, marker, cls, h, e);
    }
  }

  lemma LabelMatchSkip(s: string, marker: string, cls: CharClass, from: nat)
    requires marker != [] && from < |s| && !IsAt(s, from, marker)
    ensures LabelMatch(s, marker, cls, from) == LabelMatch(s, marker, cls, from + 1)
  {
  }

  lemma LabelMatchHere(s: string, marker: string, cls: CharClass, h: nat, e: nat)
    requires marker != [] && e == h + |marker| && e <= |s| && IsAt(s, h, marker) && LabelAttempt(s, e, cls).Some?
    ensures LabelMatch(s, marker, cls, h) == LabelAttempt(s, e, cls)
  {
  }

  /** A space at `i`, then the value `v` from `j` on, then a newline. */
  predicate ValueAfter(s: string, i: nat, j: nat, v: string)
  {
    j == i + 1 && j + |v| < |s| && s[i] == ' ' && (forall k :: 0 <= k < |v| ==> s[j + k] == v[k]) && s[j + |v|] == '\n'
  }

  /** Of the value `v`, a footer pattern's `\s*` skips the first `n` characters, the leading white
      space, and its run of `cls` takes the characters up to `m`, where the class stops. */
  predicate ValueRunAt(v: string, n: nat, m: nat, cls: CharClass)
  {
    n == |v| - |TrimStart(v)| && n < m <= |v| && cls != Space && (forall k :: n <= k < m ==> InClass(cls, v[k])) &&
    (m == |v| || !InClass(cls, v[m]))
  }

  /** After a label ending at `i`, a space, a value `v` and a newline: `\s*` takes the space and
      the value's leading white space, and the run takes `v[n..m]`, where the value's own
      characters of the class stop. */
  lemma {:induction false} LabelAttemptIs(s: string, i: nat, j: nat, v: string, n: nat, m: nat, cls: CharClass, p: nat, q: nat)
    requires ValueAfter(s, i, j, v) && ValueRunAt(v, n, m, cls)
    requires p == j + n && q == j + m
    ensures LabelAttempt(s, i, cls) == Some((p, q))
  {
    ValueRuns(s, i, j, v, n, m, cls, p, q);
    AttemptFrom(s, i, p, q, cls);
  }

  /** The two runs of the footer pattern over a space and a value that starts at `j`. */
  lemma {:induction false} ValueRuns(s: string, i: nat, j: nat, v: string, n: nat, m: nat, cls: CharClass, p: nat, q: nat)
    requires ValueAfter(s, i, j, v) && ValueRunAt(v, n, m, cls)
    requires p == j + n && q == j + m
    ensures RunEnd(s, i, Space) == p && p < |s| && InClass(cls, s[p])
    ensures RunEnd(s, p, cls) == q
  {
    LeadingSpace(s, i, j, v, n);
    assert s[j + n] == v[n];
    ValueRun(s, j, v, n, m, cls);
  }

  /** When `\s*` stops at `a` on a character of the class, the run starts there. */
  lemma AttemptFrom(s: string, i: nat, a: nat, b: nat, cls: CharClass)
    requires i <= |s| && RunEnd(s, i, Space) == a && a < |s| && InClass(cls, s[a]) && RunEnd(s, a, cls) == b
    ensures LabelAttempt(s, i, cls) == Some((a, b))
  {
  }

  /** The space after the label and the value's leading white space form the `\s*` run. */
  lemma {:induction false} LeadingSpace(s: string, i: nat, j: nat, v: string, n: nat)
    requires j == i + 1 && j + |v| <= |s| && s[i] == ' ' && (forall k :: 0 <= k < |v| ==> s[j + k] == v[k])
    requires n == |v| - |TrimStart(v)| && n < |v|
    ensures RunEnd(s, i, Space) == j + n
  {
    TrimStartRemovesSpace(v);
    forall k | i <= k < j + n ensures IsSpace(s[k]) {
      if k > i {
        assert s[j + (k - j)] == v[k - j] == v[..n][k - j];
      }
    }
    assert s[j + n] == v[n] == TrimStart(v)[0];
    RunEndIs(s, i, j + n, Space);
  }

  /** The run of `cls` from `j + n` takes `v[n..m]`, the value being followed by a newline. */
  lemma {:induction false} ValueRun(s: string, j: nat, v: string, n: nat, m: nat, cls: CharClass)
    requires j + |v| < |s| && (forall k :: 0 <= k < |v| ==> s[j + k] == v[k]) && s[j + |v|] == '\n'
    requires n < m <= |v| && cls != Space
    requires forall k :: n <= k < m ==> InClass(cls, v[k])
    requires m == |v| || !InClass(cls, v[m])
    ensures RunEnd(s, j + n, cls) == j + m
  {
    forall k | j + n <= k < j + m ensures InClass(cls, s[k]) {
      assert s[j + (k - j)] == v[k - j];
    }
    if m < |v| {
      assert s[j + m] == v[m];
    }
    RunEndIs(s, j + n, j + m, cls);
  }

  /** Trimming a line gives a trimmed line. */
  lemma {:induction false} TrimmedLine(x: string)
    requires forall k :: 0 <= k < |x| ==> InClass(NotLineTerminator, x[k])
    ensures Trim(Trim(x)) == Trim(x)
    ensures forall k :: 0 <= k < |Trim(x)| ==> !IsLineTerminator(Trim(x)[k])
  {
    TrimIdempotent(x);
    var t := TrimStart(x);
    var r := TrimEnd(t);
    forall k | 0 <= k < |r| ensures !IsLineTerminator(r[k]) {
      assert r[k] == t[k] == x[|x| - |t| + k];
    }
  }
}
