/** `scripts/generate-draft.js`: the weighted choice of a post type, the posting time, the
    recent-ticket context, the draft ticket's title and body, the escaping of `createIssue` and
    the loop of `main` that opens one or two draft tickets. Every random draw, the date and the
    model and `gh` calls are injected. */
module DraftGenerator {
  import opened Wrappers
  import opened Strings
  import opened Orchestrator

  // ---- the post types ----

  datatype PostType = PostType(kind: string, weight: nat, description: string)

  const IDEA := PostType("idea", 5, "企画の思考プロセス")
  const TOOL := PostType("tool", 3, "新ツール・新技術の実践レビュー")
  const RELEASE := PostType("release", 2, "リリース・改善の実績")
  /** `POST_TYPES`, in the order the choice walks them. */
  const POST_TYPES := [IDEA, TOOL, RELEASE]

  /** The `reduce` summing the weights. */
  function TotalWeight(ts: seq<PostType>): nat
    decreases |ts|
  {
    if ts == [] then 0 else ts[0].weight + TotalWeight(ts[1..])
  }

  /** The walk of `selectPostType` from position `i` with `r` left of the scaled draw: the first
      type whose weight brings `r` to zero or below, or the first type when none does. */
  function Pick(ts: seq<PostType>, r: real, i: nat): (p: PostType)
    requires 0 < |ts| && i <= |ts|
    ensures p in ts
    decreases |ts| - i
  {
    if i == |ts| then ts[0]
    else if r - ts[i].weight as real <= 0.0 then ts[i]
    else Pick(ts, r - ts[i].weight as real, i + 1)
  }

  /** The type chosen for a draw `u` of `Math.random()`. */
  function Chosen(u: real): PostType
  {
    Pick(POST_TYPES, u * TotalWeight(POST_TYPES) as real, 0)
  }

  /** `selectPostType`, the draw injected: scale it by the total weight, then subtract the
      weights in order until nothing is left. */
  method SelectPostType(u: real) returns (p: PostType)
    ensures p in POST_TYPES && p == Chosen(u)
  {
    var total := TotalWeight(POST_TYPES);
    var random := u * total as real;
    assert random == u * TotalWeight(POST_TYPES) as real;
    assert Pick(POST_TYPES, random, 0) == Chosen(u);
    var i := 0;
    while i < |POST_TYPES|
      invariant 0 <= i <= |POST_TYPES|
      invariant Pick(POST_TYPES, random, i) == Chosen(u)
    {
      random := random - POST_TYPES[i].weight as real;
      if random <= 0.0 {
        return POST_TYPES[i];
      }
      i := i + 1;
    }
    return POST_TYPES[0];
  }

  /** The weights add up to 10, and with the draw scaled to `r` the choice is `idea` up to 5,
      `tool` above 5 up to 8, `release` above 8 up to 10, and `idea` again past 10, which a
      draw below 1 never reaches. */
  lemma ChosenThresholds(u: real)
    ensures TotalWeight(POST_TYPES) == 10
    ensures var r := u * 10.0;
      (r <= 5.0 ==> Chosen(u) == IDEA) &&
      (5.0 < r <= 8.0 ==> Chosen(u) == TOOL) &&
      (8.0 < r <= 10.0 ==> Chosen(u) == RELEASE) &&
      (10.0 < r ==> Chosen(u) == IDEA)
    ensures 0.0 <= u < 1.0 ==> u * 10.0 < 10.0
  {
    var ts := POST_TYPES;
    assert ts[1..] == [TOOL, RELEASE] && ts[1..][1..] == [RELEASE] && ts[1..][1..][1..] == [];
    assert TotalWeight(ts) == 5 + TotalWeight(ts[1..]);
    assert TotalWeight(ts[1..]) == 3 + TotalWeight(ts[1..][1..]);
    assert TotalWeight(ts[1..][1..]) == 2 + TotalWeight(ts[1..][1..][1..]);
    var r := u * 10.0;
    assert Chosen(u) == Pick(ts, r, 0);
    if r > 5.0 {
      assert Pick(ts, r, 0) == Pick(ts, r - 5.0, 1);
      if r > 8.0 {
        assert Pick(ts, r - 5.0, 1) == Pick(ts, r - 8.0, 2);
        if r > 10.0 {
          assert Pick(ts, r - 8.0, 2) == Pick(ts, r - 10.0, 3);
        }
      }
    }
  }

  // ---- the posting time ----

  /** The integer part of `a / b`, rounded toward zero as JavaScript's `%` does. */
  function JsTrunc(a: int, b: int): int
    requires b > 0
  {
    if a >= 0 then a / b else -((-a) / b)
  }

  /** JavaScript's `%` on integers, whose remainder takes the sign of the dividend. */
  function JsRem(a: int, b: int): (r: int)
    requires b > 0
    ensures a >= 0 ==> 0 <= r < b
    ensures a < 0 ==> -b < r <= 0
    ensures a == b * JsTrunc(a, b) + r
  {
    if a >= 0 then a % b else -((-a) % b)
  }

  /** `Math.floor(Math.random() * 61) - 30`, the draw injected. */
  function Variance(u: real): int
  {
    (u * 61.0).Floor - 30
  }

  /** A draw in `[0, 1)` moves the time by at most half an hour either way. */
  lemma VarianceRange(u: real)
    requires 0.0 <= u < 1.0
    ensures -30 <= Variance(u) <= 30
  {
    var x := u * 61.0;
    assert 0.0 <= x < 61.0;
    assert x.Floor as real <= x < x.Floor as real + 1.0;
  }

  /** Noon for the first draft, seven in the evening for the later one. */
  function BaseHour(index: nat): int
  {
    if index == 0 then 12 else 19
  }

  /** The hour of `generatePostTime`: the base hour plus the floor of `minutes / 60`. */
  function Hour(index: nat, minutes: int): int
  {
    BaseHour(index) + minutes / 60
  }

  /** The minute of `generatePostTime`: `((minutes % 60) + 60) % 60` with JavaScript's `%`. */
  function Minute(minutes: int): int
  {
    JsRem(JsRem(minutes, 60) + 60, 60)
  }

  /** `padStart(n, c)`. */
  function PadStart(s: string, n: nat, c: char): (r: string)
    ensures |r| == if |s| >= n then |s| else n
    ensures r[|r| - |s|..] == s
    ensures forall k :: 0 <= k < |r| - |s| ==> r[k] == c
  {
    if |s| >= n then s else seq(n - |s|, k => c) + s
  }

  /** `generatePostTime(index)` with the variance injected: `HH:MM`. */
  function PostTime(index: nat, minutes: int): string
  {
    PadStart(IntToString(Hour(index, minutes)), 2, '0') + ":" + PadStart(IntToString(Minute(minutes)), 2, '0')
  }

  /** The hour and minute move the base hour by exactly the variance, and the minute is a
      minute of an hour. */
  lemma PostTimeArithmetic(index: nat, minutes: int)
    ensures 0 <= Minute(minutes) < 60
    ensures Hour(index, minutes) * 60 + Minute(minutes) == BaseHour(index) * 60 + minutes
  {
    var q := JsRem(minutes, 60);
    assert minutes == 60 * JsTrunc(minutes, 60) + q;
    assert 0 < q + 60 < 120;
    assert Minute(minutes) == minutes % 60;
  }

  /** Two digit characters read back as their value. */
  lemma TwoDigits(s: string, n: nat)
    requires |s| == 2 && AllDigits(s) && n < 100
    requires s == NatToString(n) || (n < 10 && s == "0" + NatToString(n))
    ensures DigitsValue(s) == n
  {
    DigitsValueOfNatToString(n);
    assert s[..1][..0] == [];
    if s != NatToString(n) {
      assert s[..1] == "0";
      assert DigitsValue(s[..1]) == 0;
      assert [s[1]] == NatToString(n);
      assert [s[1]][..0] == [];
      assert DigitsValue([s[1]]) == DigitValue(s[1]);
    }
  }

  /** Two-digit form of a number below 100. */
  lemma PadStartTwo(n: nat)
    requires n < 100
    ensures var d := PadStart(IntToString(n), 2, '0');
      |d| == 2 && AllDigits(d) && DigitsValue(d) == n
  {
    var d := PadStart(IntToString(n), 2, '0');
    if n < 10 {
      assert d == "0" + NatToString(n);
    }
    TwoDigits(d, n);
  }

  /** For a variance of at most half an hour the time is five characters, `HH:MM`, whose two
      numbers read back as the hour and minute: 11:30 to 12:30 for the first draft, 18:30 to
      19:30 for the later one. */
  lemma PostTimeFormat(index: nat, minutes: int)
    requires -30 <= minutes <= 30
    ensures var t, h, m := PostTime(index, minutes), Hour(index, minutes), Minute(minutes);
      |t| == 5 && t[2] == ':' && AllDigits(t[..2]) && AllDigits(t[3..]) &&
      DigitsValue(t[..2]) == h && DigitsValue(t[3..]) == m &&
      BaseHour(index) * 60 - 30 <= h * 60 + m <= BaseHour(index) * 60 + 30
  {
    PostTimeArithmetic(index, minutes);
    var h, m := Hour(index, minutes), Minute(minutes);
    assert 11 <= h < 100;
    PadStartTwo(h);
    PadStartTwo(m);
    Colon(PadStart(IntToString(h), 2, '0'), PadStart(IntToString(m), 2, '0'));
  }

  /** Where the two halves of `HH:MM` sit. */
  lemma Colon(hh: string, mm: string)
    requires |hh| == 2 && |mm| == 2
    ensures var t := hh + ":" + mm; |t| == 5 && t[2] == ':' && t[..2] == hh && t[3..] == mm
  {
  }

  // ---- the ticket ----

  const RECENT_HEADER := "\n\n## 直近の投稿（テーマの重複を避けてください）\n"

  /** `recentContext`: nothing without recent tickets, otherwise a heading and the titles. */
  function RecentContext(titles: seq<string>): (r: string)
    ensures r == [] <==> titles == []
  {
    if |titles| > 0 then RECENT_HEADER + Join(TitleLines(titles), "\n") else ""
  }

  /** After the heading, the context holds one `- <title>` line per recent ticket, in order. */
  lemma RecentContextLines(titles: seq<string>)
    requires titles != []
    requires forall i :: 0 <= i < |titles| ==> '\n' !in titles[i]
    ensures var r := RecentContext(titles);
      StartsWith(r, RECENT_HEADER) && Split(r[|RECENT_HEADER|..], '\n') == TitleLines(titles)
  {
    SummaryLines(titles);
    var r := RecentContext(titles);
    assert r == RECENT_HEADER + Summary(titles);
    assert r[..|RECENT_HEADER|] == RECENT_HEADER && r[|RECENT_HEADER|..] == Summary(titles);
  }

  /** `[<date> <time>] <description>`. */
  function DraftTitle(today: string, time: string, p: PostType): (r: string)
    ensures |r| == |today| + |time| + |p.description| + 4
    ensures StartsWith(r, "[" + today + " ")
    ensures r[|r| - |p.description|..] == p.description
  {
    var r := "[" + today + " " + time + "] " + p.description;
    assert r[..|today| + 2] == "[" + today + " ";
    r
  }

  const TIME_NOTE := "投稿予定時刻:"
  const CATEGORY_NOTE := "カテゴリ:"

  /** The draft ticket body: the comment line, a blank line, the trimmed draft, a blank line, the
      rule and two footer lines whose labels carry no `**`. */
  function DraftBody(content: string, time: string, p: PostType): string
  {
    PLACEHOLDER + "\n\n" + Trim(content) + "\n\n---\n" +
    TIME_NOTE + " " + time + "\n" +
    CATEGORY_NOTE + " " + p.description + "\n"
  }

  /** The prefix of a failed `createIssue`. */
  const CREATE_FAILED := "Issue作成失敗: "

  /** This script's `createIssue`: only `"` is escaped; the output trimmed, or the failure with
      its prefix. */
  function CreateDraftIssue(create: (string, string) -> Result<string>, t: Ticket): (r: Result<string>)
    ensures create(EscapeChar(t.title, '"'), EscapeChar(t.body, '"')).Err? <==> r.Err?
    ensures r.Err? ==> r == Err(CREATE_FAILED + create(EscapeChar(t.title, '"'), EscapeChar(t.body, '"')).message)
  {
    match create(EscapeChar(t.title, '"'), EscapeChar(t.body, '"'))
    case Err(m) => Err(CREATE_FAILED + m)
    case Ok(out) => Ok(Trim(out))
  }

  /** Escaping one character adds one backslash per occurrence and leaves the count of every
      other character but the backslash as it was: here a backtick stays unescaped. */
  lemma {:induction false} EscapeCharCounts(s: string, c: char, d: char)
    requires d != c && d != '\\'
    ensures |EscapeChar(s, c)| == |s| + Count(s, c)
    ensures Count(EscapeChar(s, c), d) == Count(s, d)
    decreases |s|
  {
    if s != [] {
      EscapeCharCounts(s[1..], c, d);
      var head := if s[0] == c then ['\\', c] else [s[0]];
      CountAppend(head, EscapeChar(s[1..], c), d);
    }
  }

  lemma {:induction false} CountAppend(a: string, b: string, d: char)
    ensures Count(a + b, d) == Count(a, d) + Count(b, d)
    decreases |a|
  {
    if a != [] {
      assert (a + b)[0] == a[0] && (a + b)[1..] == a[1..] + b;
      CountAppend(a[1..], b, d);
    } else {
      assert a + b == b;
    }
  }

  // ---- the run ----

  /** The outside world of the draft run: `Math.random()` as the sequence of its draws, the
      date of each iteration, the model call given the post type, time and context, and
      `gh issue create` given the escaped title and body. */
  datatype Drafting = Drafting(
    draws: nat -> real,
    dates: nat -> string,
    write: (PostType, string, string) -> Result<string>,
    create: (string, string) -> Result<string>)

  /** `numDrafts`: one or two, from the first draw. */
  function NumDrafts(u: real): nat
  {
    if u < 0.5 then 1 else 2
  }

  /** The draws of iteration `i`: the post type, then the time. Draw 0 sets the count. */
  function TypeDraw(i: nat): nat { 1 + 2 * i }
  function TimeDraw(i: nat): nat { 2 + 2 * i }

  /** The ticket of iteration `i`, or the first error of that iteration. */
  function DraftTicket(env: Drafting, context: string, i: nat): Result<Opened>
  {
    var p := Chosen(env.draws(TypeDraw(i)));
    var time := PostTime(i, Variance(env.draws(TimeDraw(i))));
    match env.write(p, time, context)
    case Err(m) => Err(m)
    case Ok(content) =>
      var t := Ticket(DraftTitle(env.dates(i), time, p), DraftBody(content, time, p));
      match CreateDraftIssue(env.create, t)
      case Err(m) => Err(m)
      case Ok(url) => Ok(Opened(t, url))
  }

  /** The slot of a draft follows its index: the time in its title, read back, lies within half
      an hour of noon for the first draft and of seven in the evening for the later one. */
  lemma DraftSlot(today: string, i: nat, u: real, p: PostType)
    requires 0.0 <= u < 1.0
    ensures var d, t := |today|, DraftTitle(today, PostTime(i, Variance(u)), p);
      d + 7 <= |t| && t[d + 4] == ':' && AllDigits(t[d + 2..d + 4]) && AllDigits(t[d + 5..d + 7]) &&
      BaseHour(i) * 60 - 30 <= DigitsValue(t[d + 2..d + 4]) * 60 + DigitsValue(t[d + 5..d + 7]) <= BaseHour(i) * 60 + 30
  {
    VarianceRange(u);
    PostTimeFormat(i, Variance(u));
    TitleTime(today, PostTime(i, Variance(u)), p);
  }

  /** The title of a draft ticket carries the type and time drawn for its index. */
  lemma DraftTicketTitle(env: Drafting, context: string, i: nat, o: Opened)
    requires DraftTicket(env, context, i) == Ok(o)
    ensures o.ticket.title == DraftTitle(env.dates(i), PostTime(i, Variance(env.draws(TimeDraw(i)))), Chosen(env.draws(TypeDraw(i))))
  {
  }

  /** Where the time sits in a draft title. */
  lemma TitleTime(today: string, time: string, p: PostType)
    requires |time| == 5
    ensures var d, t := |today|, DraftTitle(today, time, p);
      d + 7 <= |t| && t[d + 2..d + 4] == time[..2] && t[d + 4] == time[2] && t[d + 5..d + 7] == time[3..]
  {
    var t := DraftTitle(today, time, p);
    var d := |today|;
    assert t == "[" + today + " " + time + "] " + p.description;
    assert t[d + 2..d + 7] == time;
  }

  /** The iterations as a function of the index. */
  function DraftStep(env: Drafting, context: string): nat -> Result<Opened>
  {
    (i: nat) => DraftTicket(env, context, i)
  }

  /** The indices `0 .. n - 1`. */
  function Indices(n: nat): (r: seq<nat>)
    ensures |r| == n && forall i :: 0 <= i < n ==> r[i] == i
  {
    seq(n, i => i)
  }

  /** The counting loop: `step(0)`, `step(1)`, ... up to `n - 1`, ended by the first error. */
  method ForIndices<R>(n: nat, step: nat -> Result<R>) returns (outcome: Outcome, done: seq<R>)
    ensures var reached := Reached(step, Indices(n), 0);
      |done| == reached &&
      (forall k :: 0 <= k < reached ==> step(k) == Ok(done[k])) &&
      (outcome.Completed? <==> reached == n) &&
      (reached < n ==> outcome.Aborted? && step(reached) == Err(outcome.message))
  {
    outcome, done := ForEach(Indices(n), step);
  }

  /** `main`: the key check, the recent context, the draft count, then one ticket per draft with
      its type and slot, the first error ending the run. */
  method GenerateDrafts(apiKey: Option<string>, listed: Option<seq<string>>, env: Drafting)
    returns (outcome: Outcome, created: seq<Opened>)
    ensures !IsSet(apiKey) ==> outcome == Aborted(MISSING_API_KEY) && created == []
    ensures IsSet(apiKey) ==>
      var n, step := NumDrafts(env.draws(0)), DraftStep(env, RecentContext(RecentTitles(listed)));
      var reached := Reached(step, Indices(n), 0);
      1 <= n <= 2 && |created| == reached &&
      (forall k :: 0 <= k < reached ==> step(k) == Ok(created[k])) &&
      (outcome.Completed? <==> reached == n) &&
      (reached < n ==> outcome.Aborted? && step(reached) == Err(outcome.message))
  {
    created := [];
    if !IsSet(apiKey) {
      return Aborted(MISSING_API_KEY), created;
    }
    var context := RecentContext(RecentTitles(listed));
    var n := NumDrafts(env.draws(0));
    outcome, created := ForIndices(n, DraftStep(env, context));
  }
}
