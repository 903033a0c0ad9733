/** The draft pipeline of `scripts/orchestrator.js`: a researcher proposes themes from the
    recent ticket titles, and for each theme a writer drafts a post, an editor reviews it, and a
    ticket holding the edited draft is created. The three model calls and the ticket command are
    oracles passed in; the text handling around them is modelled exactly. */
module Orchestrator {
  import opened Wrappers
  import opened Strings

  // ---- cleaning a model reply before JSON parsing ----

  const FENCE := "```"
  const JSON_FENCE := FENCE + "json"

  /** `s.replace(/p\n?/g, '')`: every occurrence of `p`, leftmost first and not overlapping,
      is removed together with one newline right after it. */
  function RemoveAll(s: string, p: string): (r: string)
    requires p != []
    ensures |r| <= |s|
    decreases |s|
  {
    if s == [] then []
    else if StartsWith(s, p) then
      var t := s[|p|..];
      if t != [] && t[0] == '\n' then RemoveAll(t[1..], p) else RemoveAll(t, p)
    else [s[0]] + RemoveAll(s[1..], p)
  }

  /** The cleaning step of `parseJSON`: drop the json fences, then any other fence, then trim. */
  function CleanFence(text: string): string
  {
    Trim(RemoveAll(RemoveAll(text, JSON_FENCE), FENCE))
  }

  /** Text whose first character the pattern cannot start with is left alone. */
  lemma {:induction false} RemoveAllAbsent(s: string, p: string)
    requires p != [] && p[0] !in s
    ensures RemoveAll(s, p) == s
    decreases |s|
  {
    if s != [] {
      assert s[0] != p[0];
      assert s[1..] + [] == s[1..];
      assert p[0] !in s[1..] by {
        forall k | 0 <= k < |s[1..]| ensures s[1..][k] != p[0] {
          assert s[1..][k] == s[k + 1];
        }
      }
      RemoveAllAbsent(s[1..], p);
      assert [s[0]] + s[1..] == s;
    }
  }

  /** Removal goes piece by piece: a prefix without the pattern's first character is kept. */
  lemma {:induction false} RemoveAllKeepsPlain(x: string, y: string, p: string)
    requires p != [] && p[0] !in x
    ensures RemoveAll(x + y, p) == x + RemoveAll(y, p)
    decreases |x|
  {
    if x != [] {
      var s := x + y;
      assert s[0] == x[0] != p[0];
      assert !StartsWith(s, p);
      assert s[1..] == x[1..] + y;
      assert p[0] !in x[1..] by {
        forall k | 0 <= k < |x[1..]| ensures x[1..][k] != p[0] {
          assert x[1..][k] == x[k + 1];
        }
      }
      RemoveAllKeepsPlain(x[1..], y, p);
    } else {
      assert x + y == y;
    }
  }

  /** At an occurrence of the pattern, it goes, and a newline after it with it. */
  lemma RemoveAllAt(s: string, p: string, y: string)
    requires p != [] && s == p + y
    ensures y != [] && y[0] == '\n' ==> RemoveAll(s, p) == RemoveAll(y[1..], p)
    ensures (y == [] || y[0] != '\n') ==> RemoveAll(s, p) == RemoveAll(y, p)
  {
    assert StartsWith(s, p) && s[|p|..] == y;
  }

  /** Where no occurrence of the pattern starts inside `a`, `a` is kept. */
  lemma {:induction false} RemoveAllNoMatch(a: string, y: string, p: string)
    requires p != []
    requires forall k :: 0 <= k < |a| ==> !StartsWith((a + y)[k..], p)
    ensures RemoveAll(a + y, p) == a + RemoveAll(y, p)
    decreases |a|
  {
    if a != [] {
      var s := a + y;
      assert s[0..] == s;
      assert s[1..] == a[1..] + y;
      forall k | 0 <= k < |a[1..]| ensures !StartsWith((a[1..] + y)[k..], p) {
        assert (a[1..] + y)[k..] == s[k + 1..];
      }
      RemoveAllNoMatch(a[1..], y, p);
    } else {
      assert a + y == y;
    }
  }

  /** Text without a backtick is only trimmed. */
  lemma CleanPlain(text: string)
    requires '`' !in text
    ensures CleanFence(text) == Trim(text)
  {
    RemoveAllAbsent(text, JSON_FENCE);
    RemoveAllAbsent(text, FENCE);
  }

  /** A reply wrapped in a json fence cleans to the trimmed reply. */
  lemma CleanJsonFence(x: string)
    requires '`' !in x
    ensures CleanFence(JSON_FENCE + "\n" + x + "\n" + FENCE) == Trim(x)
  {
    var inner := x + "\n";
    var y := "\n" + inner + FENCE;
    var s := JSON_FENCE + y;
    assert JSON_FENCE + "\n" + x + "\n" + FENCE == s;
    RemoveAllAt(s, JSON_FENCE, y);
    assert y[1..] == inner + FENCE;
    RemoveAllKeepsPlain(inner, FENCE, JSON_FENCE);
    assert RemoveAll(FENCE, JSON_FENCE) == FENCE;
    RemoveAllKeepsPlain(inner, FENCE, FENCE);
    RemoveAllAt(FENCE, FENCE, []);
    assert FENCE + [] == FENCE;
    assert inner + [] == [] + x + "\n";
    TrimAroundSpace([], x, "\n");
  }

  /** A fence with another tag loses its backticks but keeps the tag. */
  lemma CleanOtherFence(x: string)
    requires '`' !in x
    ensures CleanFence(FENCE + "js\n" + x + "\n" + FENCE) == Trim("js\n" + x)
  {
    var inner := "js\n" + x + "\n";
    assert FENCE + "js\n" + x + "\n" + FENCE == FENCE + (inner + FENCE);
    OtherTagKept(x, inner);
    FencesDropped(inner);
    assert inner == [] + ("js\n" + x) + "\n";
    TrimAroundSpace([], "js\n" + x, "\n");
  }

  /** The json pass finds nothing in a fence tagged `js`. */
  lemma OtherTagKept(x: string, inner: string)
    requires '`' !in x && inner == "js\n" + x + "\n"
    ensures RemoveAll(FENCE + (inner + FENCE), JSON_FENCE) == FENCE + (inner + FENCE)
  {
    var y := inner + FENCE;
    var s := FENCE + y;
    assert s[3] == 'j' && s[5] == '\n';
    forall k | 0 <= k < |FENCE| ensures !StartsWith(s[k..], JSON_FENCE) {
      if k == 0 {
        assert s[k..][5] != JSON_FENCE[5];
      } else {
        assert s[k..][3 - k] != JSON_FENCE[3 - k];
      }
    }
    RemoveAllNoMatch(FENCE, y, JSON_FENCE);
    RemoveAllKeepsPlain(inner, FENCE, JSON_FENCE);
    assert RemoveAll(FENCE, JSON_FENCE) == FENCE;
  }

  /** The second pass drops an opening and a closing fence around text without backticks. */
  lemma FencesDropped(inner: string)
    requires '`' !in inner && inner != [] && inner[0] != '\n'
    ensures RemoveAll(FENCE + (inner + FENCE), FENCE) == inner
  {
    RemoveAllAt(FENCE + (inner + FENCE), FENCE, inner + FENCE);
    RemoveAllKeepsPlain(inner, FENCE, FENCE);
    RemoveAllAt(FENCE, FENCE, []);
    assert FENCE + [] == FENCE;
    assert inner + [] == inner;
  }

  // ---- quoting the ticket command ----

  /** `s.replace(/c/g, '\\c')`: a backslash inserted before every `c`. */
  function EscapeChar(s: string, c: char): (r: string)
    decreases |s|
  {
    if s == [] then [] else (if s[0] == c then ['\\', c] else [s[0]]) + EscapeChar(s[1..], c)
  }

  /** What `createIssue` does to the title and the body before they go between double quotes
      on the command line: first every `"`, then every backtick gets a backslash. */
  function ShellEscape(s: string): string
  {
    EscapeChar(EscapeChar(s, '"'), '`')
  }

  predicate Quoted(c: char)
  {
    c == '"' || c == '`'
  }

  /** What one character of the input becomes. */
  function Piece(c: char): (r: string)
  {
    if Quoted(c) then ['\\', c] else [c]
  }

  /** The escaping written as one pass, character by character. */
  function Escaped(s: string): (r: string)
    ensures r != [] ==> !Quoted(r[0])
    decreases |s|
  {
    if s == [] then [] else Piece(s[0]) + Escaped(s[1..])
  }

  /** The number of `c` in `s`. */
  function Count(s: string, c: char): nat
    decreases |s|
  {
    if s == [] then 0 else (if s[0] == c then 1 else 0) + Count(s[1..], c)
  }

  lemma {:induction false} EscapeCharAppend(a: string, b: string, c: char)
    ensures EscapeChar(a + b, c) == EscapeChar(a, c) + EscapeChar(b, c)
    decreases |a|
  {
    if a != [] {
      assert (a + b)[0] == a[0] && (a + b)[1..] == a[1..] + b;
      EscapeCharAppend(a[1..], b, c);
    } else {
      assert a + b == b;
    }
  }

  /** The two passes of the source do what the single pass does. */
  lemma {:induction false} ShellEscapeIsEscaped(s: string)
    ensures ShellEscape(s) == Escaped(s)
    decreases |s|
  {
    if s != [] {
      var first := if s[0] == '"' then ['\\', '"'] else [s[0]];
      assert EscapeChar(s, '"') == first + EscapeChar(s[1..], '"');
      EscapeCharAppend(first, EscapeChar(s[1..], '"'), '`');
      if s[0] == '"' {
        assert EscapeChar(first, '`') == ['\\'] + EscapeChar(['"'], '`');
      }
      assert EscapeChar(first, '`') == Piece(s[0]);
      ShellEscapeIsEscaped(s[1..]);
    }
  }

  /** The escaped text is the input plus one backslash per `"` and per backtick. */
  lemma {:induction false} EscapedLength(s: string)
    ensures |Escaped(s)| == |s| + Count(s, '"') + Count(s, '`')
    decreases |s|
  {
    if s != [] {
      EscapedLength(s[1..]);
    }
  }

  /** Every `"` and backtick of the escaped text comes right after a backslash. */
  lemma {:induction false} EscapedQuotesPreceded(s: string)
    ensures forall i :: 0 <= i < |Escaped(s)| && Quoted(Escaped(s)[i]) ==> i > 0 && Escaped(s)[i - 1] == '\\'
    decreases |s|
  {
    if s != [] {
      EscapedQuotesPreceded(s[1..]);
      var p, t := Piece(s[0]), Escaped(s[1..]);
      var r := p + t;
      forall i | 0 <= i < |r| && Quoted(r[i]) ensures i > 0 && r[i - 1] == '\\' {
        if i < |p| {
          assert r[i] == p[i];
        } else if i > |p| {
          var j := i - |p|;
          assert r[i] == t[j] && Quoted(t[j]);
          assert r[i - 1] == t[j - 1];
        }
      }
    }
  }

  /** Reading back: a backslash in front of `"` or a backtick is dropped. */
  function Unescape(r: string): string
    decreases |r|
  {
    if r == [] then []
    else if |r| >= 2 && r[0] == '\\' && Quoted(r[1]) then [r[1]] + Unescape(r[2..])
    else [r[0]] + Unescape(r[1..])
  }

  /** No character is lost or changed: reading the escaped text back gives the input. */
  lemma {:induction false} EscapedRoundTrip(s: string)
    ensures Unescape(Escaped(s)) == s
    decreases |s|
  {
    if s != [] {
      var t := Escaped(s[1..]);
      var r := Piece(s[0]) + t;
      EscapedRoundTrip(s[1..]);
      if Quoted(s[0]) {
        assert r[0] == '\\' && r[1] == s[0] && r[2..] == t;
      } else {
        assert r[0] == s[0] && r[1..] == t;
        assert !(|r| >= 2 && r[0] == '\\' && Quoted(r[1]));
      }
      assert [s[0]] + s[1..] == s;
    }
  }

  // ---- the history summary ----

  const FIRST_RUN := "（直近の投稿履歴なし - 初回実行）"

  /** `- <title>`, one per recent ticket. */
  function TitleLines(titles: seq<string>): (ls: seq<string>)
    ensures |ls| == |titles|
  {
    Prefixed("- ", titles)
  }

  /** `issuesSummary` in `runResearcher`. */
  function Summary(titles: seq<string>): string
  {
    if |titles| > 0 then Join(TitleLines(titles), "\n") else FIRST_RUN
  }

  /** With no recent tickets the summary is the first-run note; otherwise its lines are the
      titles, in order, each after `- `. */
  lemma SummaryLines(titles: seq<string>)
    requires forall i :: 0 <= i < |titles| ==> '\n' !in titles[i]
    ensures titles == [] ==> Summary(titles) == FIRST_RUN
    ensures titles != [] ==> Split(Summary(titles), '\n') == TitleLines(titles)
    ensures forall i :: 0 <= i < |titles| ==> TitleLines(titles)[i] == "- " + titles[i]
  {
    if titles != [] {
      var ls := TitleLines(titles);
      forall i | 0 <= i < |ls| ensures '\n' !in ls[i] {
        assert ls[i] == "- " + titles[i];
      }
      SplitJoin(ls, '\n');
    }
  }

  /** `getRecentIssues`: the titles listed by `gh`, or none when listing fails for any
      reason. */
  function RecentTitles(listed: Option<seq<string>>): (r: seq<string>)
    ensures listed.None? ==> r == []
    ensures listed.Some? ==> r == listed.value
  {
    if listed.Some? then listed.value else []
  }

  // ---- the ticket ----

  /** A theme proposed by the researcher. */
  datatype Theme = Theme(category: string, theme: string, angle: string, scheduledTime: string)

  /** The editor's verdict. */
  datatype Verdict = Verdict(approved: bool, charCount: int, issues: seq<string>, finalDraft: string)

  datatype Ticket = Ticket(title: string, body: string)

  /** A ticket that was created, with the address `gh` printed for it. */
  datatype Opened = Opened(ticket: Ticket, url: string)

  const PLACEHOLDER_NOTE := " 投稿内容を以下に記載してください（280文字以内推奨） "
  /** The comment line at the top of every ticket body. */
  const PLACEHOLDER := "<!--" + PLACEHOLDER_NOTE + "-->"
  const TIME_FIELD := "**投稿予定時刻:**"
  const CATEGORY_FIELD := "**カテゴリ:**"
  const THEME_FIELD := "**テーマ:**"
  const COUNT_FIELD := "**文字数:**"
  /** The unit after the character count. */
  const COUNT_UNIT := "字"

  /** `[<date> <time>] <category>`. */
  function Title(today: string, theme: Theme): (r: string)
    ensures |r| == |today| + |theme.scheduledTime| + |theme.category| + 4
    ensures StartsWith(r, "[" + today + " ")
    ensures r[|r| - |theme.category|..] == theme.category
  {
    var r := "[" + today + " " + theme.scheduledTime + "] " + theme.category;
    assert r[..|today| + 2] == "[" + today + " ";
    r
  }

  /** The date is the first space-separated word of the title, after its bracket. */
  lemma TitleDate(today: string, theme: Theme)
    requires ' ' !in today
    ensures Split(Title(today, theme), ' ')[0] == "[" + today
  {
    var rest := theme.scheduledTime + "] " + theme.category;
    assert Title(today, theme) == ("[" + today) + [' '] + rest;
    IndexOfCharPrefix("[" + today, ' ', rest);
  }

  /** The ticket body: the comment line, a blank line, the edited draft, a blank line, the rule
      and the four labelled footer lines. */
  function IssueBody(finalDraft: string, theme: Theme, charCount: int): string
  {
    PLACEHOLDER + "\n\n" + finalDraft + "\n\n---\n" +
    TIME_FIELD + " " + theme.scheduledTime + "\n" +
    CATEGORY_FIELD + " " + theme.category + "\n" +
    THEME_FIELD + " " + theme.theme + "\n" +
    COUNT_FIELD + " " + IntToString(charCount) + COUNT_UNIT + "\n"
  }

  // ---- the run ----

  /** The outside world of the run: the three model calls, the JSON parser applied to the
      cleaned replies, and `gh issue create` given the escaped title and body. The writer, the
      editor and `gh` are called anew for every theme, so their replies are indexed by the
      theme's position as well: equal themes may get different drafts, verdicts and addresses. */
  datatype Stages = Stages(
    research: string -> Result<string>,
    parseThemes: string -> Result<seq<Theme>>,
    write: (nat, Theme) -> Result<string>,
    edit: (nat, string, Theme) -> Result<string>,
    parseVerdict: string -> Result<Verdict>,
    create: (nat, string, string) -> Result<string>)

  /** How a run ends: every theme done, or stopped by the first error. */
  datatype Outcome = Completed | Aborted(message: string)

  const MISSING_API_KEY := "ANTHROPIC_API_KEYが設定されていません"
  const MISSING_REPOSITORY := "GITHUB_REPOSITORYが設定されていません"

  /** The themes of the researcher's reply: `runResearcher`. */
  function Themes(st: Stages, listed: Option<seq<string>>): Result<seq<Theme>>
  {
    match st.research(Summary(RecentTitles(listed)))
    case Err(m) => Err(m)
    case Ok(reply) => st.parseThemes(CleanFence(reply))
  }

  /** The writer's draft, trimmed, reviewed by the editor: the verdict, or the first error. */
  function Reviewed(st: Stages, k: nat, theme: Theme): Result<Verdict>
  {
    match st.write(k, theme)
    case Err(m) => Err(m)
    case Ok(reply) =>
      match st.edit(k, Trim(reply), theme)
      case Err(m) => Err(m)
      case Ok(review) => st.parseVerdict(CleanFence(review))
  }

  /** The ticket rendered for a theme and its verdict. */
  function Rendered(today: string, theme: Theme, v: Verdict): Ticket
  {
    Ticket(Title(today, theme), IssueBody(v.finalDraft, theme, v.charCount))
  }

  /** `createIssue`: the trimmed output of the command, given the escaped title and body. */
  function Create(st: Stages, k: nat, t: Ticket): Result<string>
  {
    match st.create(k, ShellEscape(t.title), ShellEscape(t.body))
    case Err(m) => Err(m)
    case Ok(out) => Ok(Trim(out))
  }

  /** Iteration `k` of the loop: the ticket and its address, or the first error. */
  function ThemeTicket(st: Stages, k: nat, today: string, theme: Theme): Result<Opened>
  {
    match Reviewed(st, k, theme)
    case Err(m) => Err(m)
    case Ok(v) =>
      var t := Rendered(today, theme, v);
      match Create(st, k, t)
      case Err(m) => Err(m)
      case Ok(url) => Ok(Opened(t, url))
  }

  /** The themes with their positions, in the order the counting `for` loop visits them. */
  function Numbered(themes: seq<Theme>): (r: seq<(nat, Theme)>)
    ensures |r| == |themes| && forall k :: 0 <= k < |r| ==> r[k] == (k, themes[k])
  {
    seq(|themes|, k requires 0 <= k < |themes| => (k, themes[k]))
  }

  /** One iteration of the loop: theme `k` is dated by `dates(k)`, the day the clock reads while
      that theme is processed. */
  function Step(st: Stages, dates: nat -> string): ((nat, Theme)) -> Result<Opened>
  {
    (p: (nat, Theme)) => ThemeTicket(st, p.0, dates(p.0), p.1)
  }

  /** Where the first element from `i` on whose step fails sits, or the length. */
  function Reached<T, R>(step: T -> Result<R>, xs: seq<T>, i: nat): (n: nat)
    requires i <= |xs|
    ensures i <= n <= |xs|
    decreases |xs| - i
  {
    if i == |xs| then i else if step(xs[i]).Ok? then Reached(step, xs, i + 1) else i
  }

  /** The elements before the one reached succeed, and the one reached, if any, fails. */
  lemma {:induction false} ReachedSpan<T, R>(step: T -> Result<R>, xs: seq<T>, i: nat)
    requires i <= |xs|
    ensures var n := Reached(step, xs, i);
      (forall k :: i <= k < n ==> step(xs[k]).Ok?) && (n < |xs| ==> step(xs[n]).Err?)
    decreases |xs| - i
  {
    if i < |xs| && step(xs[i]).Ok? {
      ReachedSpan(step, xs, i + 1);
    }
  }

  /** The `for` loop of `main`: each element in order, no error caught, so the first failure
      ends the loop with its error. The results of the elements done before it. */
  method ForEach<T, R>(xs: seq<T>, step: T -> Result<R>) returns (outcome: Outcome, done: seq<R>)
    ensures var n := Reached(step, xs, 0);
      |done| == n &&
      (forall k :: 0 <= k < n ==> step(xs[k]) == Ok(done[k])) &&
      (outcome.Completed? <==> n == |xs|) &&
      (n < |xs| ==> outcome.Aborted? && step(xs[n]) == Err(outcome.message))
  {
    ghost var n := Reached(step, xs, 0);
    ReachedSpan(step, xs, 0);
    done := [];
    var i := 0;
    while i < |xs|
      invariant 0 <= i <= n
      invariant |done| == i
      invariant forall k :: 0 <= k < i ==> step(xs[k]) == Ok(done[k])
      invariant Reached(step, xs, i) == n
    {
      var r := step(xs[i]);
      if r.Err? {
        return Aborted(r.message), done;
      }
      done := done + [r.value];
      i := i + 1;
    }
    return Completed, done;
  }

  /** `main`: the two environment checks, the recent titles, the researcher, then one ticket per
      theme in order, the first failure ending the run. `dates(k)` is the date the clock gives
      when theme `k` is turned into a ticket. Returns the run's outcome and the tickets created,
      each with its address. */
  method RunPipeline(apiKey: Option<string>, repository: Option<string>,
                     listed: Option<seq<string>>, dates: nat -> string, st: Stages)
    returns (outcome: Outcome, created: seq<Opened>)
    ensures !IsSet(apiKey) ==> outcome == Aborted(MISSING_API_KEY) && created == []
    ensures IsSet(apiKey) && !IsSet(repository) ==> outcome == Aborted(MISSING_REPOSITORY) && created == []
    ensures IsSet(apiKey) && IsSet(repository) && Themes(st, listed).Err? ==>
      outcome == Aborted(Themes(st, listed).message) && created == []
    ensures IsSet(apiKey) && IsSet(repository) && Themes(st, listed).Ok? ==>
      var themes := Themes(st, listed).value;
      var n := Reached(Step(st, dates), Numbered(themes), 0);
      |created| == n &&
      (forall k :: 0 <= k < n ==> ThemeTicket(st, k, dates(k), themes[k]) == Ok(created[k])) &&
      (outcome.Completed? <==> n == |themes|) &&
      (n < |themes| ==> outcome.Aborted? && ThemeTicket(st, n, dates(n), themes[n]) == Err(outcome.message))
  {
    created := [];
    if !IsSet(apiKey) {
      return Aborted(MISSING_API_KEY), created;
    }
    if !IsSet(repository) {
      return Aborted(MISSING_REPOSITORY), created;
    }
    var reply := st.research(Summary(RecentTitles(listed)));
    if reply.Err? {
      return Aborted(reply.message), created;
    }
    var research := st.parseThemes(CleanFence(reply.value));
    if research.Err? {
      return Aborted(research.message), created;
    }
    outcome, created := ThemeLoop(st, dates, research.value);
  }

  /** The `for` loop over the themes, one ticket per theme dated by its position. */
  method ThemeLoop(st: Stages, dates: nat -> string, themes: seq<Theme>)
    returns (outcome: Outcome, created: seq<Opened>)
    ensures var n := Reached(Step(st, dates), Numbered(themes), 0);
      |created| == n &&
      (forall k :: 0 <= k < n ==> ThemeTicket(st, k, dates(k), themes[k]) == Ok(created[k])) &&
      (outcome.Completed? <==> n == |themes|) &&
      (n < |themes| ==> outcome.Aborted? && ThemeTicket(st, n, dates(n), themes[n]) == Err(outcome.message))
  {
    outcome, created := ForEach(Numbered(themes), Step(st, dates));
    forall k | 0 <= k < |themes| ensures Step(st, dates)(Numbered(themes)[k]) == ThemeTicket(st, k, dates(k), themes[k]) {
      StepAt(st, dates, themes, k);
    }
  }

  /** Visiting position `k` processes theme `k` with the `k`-th replies and the date `dates(k)`. */
  lemma StepAt(st: Stages, dates: nat -> string, themes: seq<Theme>, k: nat)
    requires k < |themes|
    ensures Step(st, dates)(Numbered(themes)[k]) == ThemeTicket(st, k, dates(k), themes[k])
  {
  }
}
