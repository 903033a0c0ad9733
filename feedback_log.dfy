/** The feedback log kept by `scripts/collect-feedback.js`: one entry per closed ticket, keyed
    by issue number, at most thirty entries, stamped with the time of the last save. */
module FeedbackLog {
  import opened Wrappers
  import opened Strings
  import opened FeedbackExtract

  /** The log keeps only this many of the most recent entries. */
  const MAX_ENTRIES := 30

  /** One record of the log. */
  datatype Entry = Entry(
    issueNumber: int,
    title: string,
    date: string,
    postedAt: Option<string>,
    category: Option<string>,
    theme: Option<string>,
    scheduledTime: Option<string>,
    originalDraft: Option<string>,
    finalDraft: Option<string>,
    feedbackReason: Option<string>,
    wasModified: bool,
    charCount: Option<nat>)

  /** The ticket fields the script asks `gh issue view` for. */
  datatype Issue = Issue(title: string, body: string, createdAt: string, closedAt: Option<string>)

  /** The JSON document stored on disk. */
  datatype Stored = Stored(entries: seq<Entry>, lastUpdated: Option<string>)

  /** The position of the first entry from `i` on whose issue number is `n`, or -1. */
  function IndexFrom(entries: seq<Entry>, n: int, i: nat): (r: int)
    requires i <= |entries|
    ensures r == -1 || (i <= r < |entries| && entries[r].issueNumber == n)
    decreases |entries| - i
  {
    if i == |entries| then -1
    else if entries[i].issueNumber == n then i
    else IndexFrom(entries, n, i + 1)
  }

  /** `entries.findIndex(e => e.issueNumber === n)`. */
  function FindIndex(entries: seq<Entry>, n: int): int
  {
    IndexFrom(entries, n, 0)
  }

  /** No entry between `i` and the position found carries `n`. */
  lemma {:induction false} IndexFromSpan(entries: seq<Entry>, n: int, i: nat)
    requires i <= |entries|
    ensures var r := IndexFrom(entries, n, i);
      forall k :: i <= k < |entries| && (r == -1 || k < r) ==> entries[k].issueNumber != n
    decreases |entries| - i
  {
    if i < |entries| && entries[i].issueNumber != n {
      IndexFromSpan(entries, n, i + 1);
    }
  }

  /** `FindIndex` finds the first entry carrying `n`, and gives -1 exactly when there is none. */
  lemma FindIndexFirst(entries: seq<Entry>, n: int)
    ensures var r := FindIndex(entries, n);
      (r == -1 <==> forall k :: 0 <= k < |entries| ==> entries[k].issueNumber != n) &&
      (r != -1 ==> 0 <= r < |entries| && entries[r].issueNumber == n &&
                   forall k :: 0 <= k < r ==> entries[k].issueNumber != n)
  {
    IndexFromSpan(entries, n, 0);
  }

  /** The issue numbers of the entries, in order. */
  function Numbers(entries: seq<Entry>): (ns: seq<int>)
    ensures |ns| == |entries|
  {
    seq(|entries|, k requires 0 <= k < |entries| => entries[k].issueNumber)
  }

  /** No two entries share an issue number. */
  predicate Unique(entries: seq<Entry>)
  {
    forall a, b :: 0 <= a < b < |entries| ==> entries[a].issueNumber != entries[b].issueNumber
  }

  /** `entries.slice(-30)` when there are more than thirty entries. */
  function Cap(entries: seq<Entry>): (r: seq<Entry>)
    ensures |r| <= MAX_ENTRIES
    ensures |entries| <= MAX_ENTRIES ==> r == entries
    ensures |entries| > MAX_ENTRIES ==> |r| == MAX_ENTRIES && r == entries[|entries| - MAX_ENTRIES..]
  {
    if |entries| > MAX_ENTRIES then entries[|entries| - MAX_ENTRIES..] else entries
  }

  /** The log after the upsert block: replace the entry found by number in place, or append the
      new one, then keep the last thirty. */
  function Upserted(entries: seq<Entry>, e: Entry): seq<Entry>
  {
    var i := FindIndex(entries, e.issueNumber);
    Cap(if i >= 0 then entries[i := e] else entries + [e])
  }

  /** The log as loaded: the stored document, or an empty log when it cannot be read. */
  function Loaded(stored: Option<Stored>): (r: Stored)
    ensures stored.None? ==> r.entries == [] && r.lastUpdated.None?
    ensures stored.Some? ==> r == stored.value
  {
    if stored.Some? then stored.value else Stored([], None)
  }

  /** The date part of an ISO timestamp: `createdAt.split('T')[0]`. */
  function DateOf(createdAt: string): string
  {
    Split(createdAt, 'T')[0]
  }

  /** The date of `d + "T" + time` is `d` when `d` has no `T`; a timestamp without `T` is its
      own date. */
  lemma DateOfTimestamp(d: string, time: string)
    requires 'T' !in d
    ensures DateOf(d + "T" + time) == d
    ensures DateOf(d) == d
  {
    IndexOfCharPrefix(d, 'T', time);
  }

  /** The entry built from a ticket: its number, title, date and closing time, with the
      metadata and feedback extracted from its body. */
  function MakeEntry(issueNumber: int, issue: Issue): (e: Entry)
    ensures e.issueNumber == issueNumber && e.title == issue.title && e.postedAt == issue.closedAt
    ensures e.wasModified <==> e.originalDraft.Some?
    ensures e.finalDraft.Some? ==> Trim(e.finalDraft.value) == e.finalDraft.value
    ensures !Contains(issue.body, BEFORE_HEADING) ==> e.originalDraft.None? && !e.wasModified
  {
    var f := ExtractFeedback(issue.body);
    var m := ExtractMetadata(issue.body);
    Entry(issueNumber, issue.title, DateOf(issue.createdAt), issue.closedAt, m.category, m.theme,
          m.scheduledTime, f.originalDraft, f.finalDraft, f.feedbackReason, f.wasModified, m.charCount)
  }

  /** The in-memory log object of the script. */
  class Log {
    var entries: seq<Entry>
    var lastUpdated: Option<string>

    /** At most thirty entries, no issue number twice: what every upsert keeps. */
    ghost predicate Valid()
      reads this
    {
      |entries| <= MAX_ENTRIES && Unique(entries)
    }

    /** `loadFeedbackLog`: the stored log, or an empty one when reading or parsing fails. */
    constructor Load(stored: Option<Stored>)
      ensures entries == Loaded(stored).entries && lastUpdated == Loaded(stored).lastUpdated
      ensures stored.None? ==> entries == [] && lastUpdated.None? && Valid()
    {
      var s := Loaded(stored);
      entries := s.entries;
      lastUpdated := s.lastUpdated;
    }

    /** The upsert block of `main`: find by issue number, replace in place or append, then cap. */
    method Upsert(e: Entry)
      modifies this
      ensures entries == Upserted(old(entries), e)
      ensures lastUpdated == old(lastUpdated)
      ensures |entries| <= MAX_ENTRIES
      ensures old(Valid()) ==> Valid() && e in entries
    {
      ghost var before := entries;
      var existingIndex := FindIndex(entries, e.issueNumber);
      if existingIndex >= 0 {
        entries := entries[existingIndex := e];
      } else {
        entries := entries + [e];
      }
      if |entries| > MAX_ENTRIES {
        entries := entries[|entries| - MAX_ENTRIES..];
      }
      if |before| <= MAX_ENTRIES && Unique(before) {
        UpsertKeepsUnique(before, e);
        UpsertPresent(before, e);
      }
    }

    /** `saveFeedbackLog`: stamp the log with the current time; the entries are untouched. */
    method Save(now: string)
      modifies this
      ensures lastUpdated == Some(now)
      ensures entries == old(entries)
    {
      lastUpdated := Some(now);
    }
  }

  /** Upserting a number already present replaces the first entry carrying it, where it sits;
      the length and every other entry stay as they were. */
  lemma UpsertExisting(entries: seq<Entry>, e: Entry)
    requires |entries| <= MAX_ENTRIES
    requires exists k :: 0 <= k < |entries| && entries[k].issueNumber == e.issueNumber
    ensures var i, r := FindIndex(entries, e.issueNumber), Upserted(entries, e);
      0 <= i < |entries| && entries[i].issueNumber == e.issueNumber &&
      (forall k :: 0 <= k < i ==> entries[k].issueNumber != e.issueNumber) &&
      |r| == |entries| && r[i] == e &&
      (forall k :: 0 <= k < |entries| && k != i ==> r[k] == entries[k])
  {
    FindIndexFirst(entries, e.issueNumber);
  }

  /** Upserting a number not yet present appends the entry at the end and keeps the last thirty
      entries in their order. */
  lemma UpsertNew(entries: seq<Entry>, e: Entry)
    requires forall k :: 0 <= k < |entries| ==> entries[k].issueNumber != e.issueNumber
    ensures var r := Upserted(entries, e);
      |r| <= MAX_ENTRIES && r == Cap(entries + [e]) && r[|r| - 1] == e &&
      (|entries| < MAX_ENTRIES ==> r == entries + [e]) &&
      (|entries| >= MAX_ENTRIES ==> r == entries[|entries| + 1 - MAX_ENTRIES..] + [e])
  {
    FindIndexFirst(entries, e.issueNumber);
    if |entries| >= MAX_ENTRIES {
      assert (entries + [e])[|entries| + 1 - MAX_ENTRIES..] == entries[|entries| + 1 - MAX_ENTRIES..] + [e];
    }
  }

  /** A suffix of a log with unique numbers has unique numbers. */
  lemma CapUnique(entries: seq<Entry>)
    requires Unique(entries)
    ensures Unique(Cap(entries))
  {
    if |entries| > MAX_ENTRIES {
      var d := |entries| - MAX_ENTRIES;
      var r := Cap(entries);
      forall a, b | 0 <= a < b < |r|
        ensures r[a].issueNumber != r[b].issueNumber
      {
        assert r[a] == entries[d + a] && r[b] == entries[d + b];
      }
    }
  }

  /** Upserting into a log with unique numbers leaves the numbers unique. */
  lemma UpsertKeepsUnique(entries: seq<Entry>, e: Entry)
    requires Unique(entries)
    ensures Unique(Upserted(entries, e))
  {
    var i := FindIndex(entries, e.issueNumber);
    FindIndexFirst(entries, e.issueNumber);
    var placed := if i >= 0 then entries[i := e] else entries + [e];
    forall a, b | 0 <= a < b < |placed|
      ensures placed[a].issueNumber != placed[b].issueNumber
    {
      if i >= 0 {
        assert placed[a] == (if a == i then e else entries[a]);
        assert placed[b] == (if b == i then e else entries[b]);
      } else {
        assert placed[a] == entries[a];
      }
    }
    CapUnique(placed);
  }

  /** After an upsert into a log of at most thirty entries, the upserted entry is in the log. */
  lemma UpsertPresent(entries: seq<Entry>, e: Entry)
    requires |entries| <= MAX_ENTRIES
    ensures e in Upserted(entries, e)
  {
    var i := FindIndex(entries, e.issueNumber);
    if i >= 0 {
      assert Upserted(entries, e)[i] == e;
    } else {
      var placed := entries + [e];
      assert placed[|placed| - 1] == e;
      assert Upserted(entries, e)[|Upserted(entries, e)| - 1] == e;
    }
  }

  /** Upserting the same entry twice gives the same log as upserting it once. */
  lemma UpsertIdempotent(entries: seq<Entry>, e: Entry)
    requires |entries| <= MAX_ENTRIES && Unique(entries)
    ensures Upserted(Upserted(entries, e), e) == Upserted(entries, e)
  {
    var once := Upserted(entries, e);
    UpsertKeepsUnique(entries, e);
    UpsertPresent(entries, e);
    var j :| 0 <= j < |once| && once[j] == e;
    var i := FindIndex(once, e.issueNumber);
    FindIndexFirst(once, e.issueNumber);
    assert i == j;
    assert once[i := e] == once;
  }

  /** Upserting the entries of `es` one after the other, beginning with `entries`. */
  function UpsertAll(entries: seq<Entry>, es: seq<Entry>): seq<Entry>
  {
    if es == [] then entries
    else Upserted(UpsertAll(entries, es[..|es| - 1]), es[|es| - 1])
  }

  /** Capping after appending to a capped log is capping after appending. */
  lemma CapAppend(x: seq<Entry>, e: Entry)
    ensures Cap(Cap(x) + [e]) == Cap(x + [e])
  {
    if |x| > MAX_ENTRIES {
      assert (x + [e])[|x| + 1 - MAX_ENTRIES..] == x[|x| + 1 - MAX_ENTRIES..] + [e];
      assert (Cap(x) + [e])[1..] == x[|x| + 1 - MAX_ENTRIES..] + [e];
    }
  }

  /** Upserting entries of pairwise different numbers, one by one into an empty log, leaves the
      last thirty of them in order. */
  lemma {:induction false} UpsertAllDistinct(es: seq<Entry>)
    requires Unique(es)
    ensures UpsertAll([], es) == Cap(es)
  {
    if es != [] {
      var front, e := es[..|es| - 1], es[|es| - 1];
      assert es == front + [e];
      assert Unique(front) by {
        forall a, b | 0 <= a < b < |front| ensures front[a].issueNumber != front[b].issueNumber {
          assert front[a] == es[a] && front[b] == es[b];
        }
      }
      UpsertAllDistinct(front);
      var c := Cap(front);
      forall k | 0 <= k < |c| ensures c[k].issueNumber != e.issueNumber {
        var d := |front| - |c|;
        assert c[k] == front[d + k] == es[d + k];
      }
      FindIndexFirst(c, e.issueNumber);
      CapAppend(front, e);
    }
  }

  /** Example: upserting issues 1 to 31 into an empty log leaves exactly issues 2 to 31. */
  lemma UpsertOneToThirtyOne(es: seq<Entry>)
    requires |es| == 31 && forall k :: 0 <= k < 31 ==> es[k].issueNumber == k + 1
    ensures Numbers(UpsertAll([], es)) == seq(30, k => k + 2)
  {
    UpsertAllDistinct(es);
    assert UpsertAll([], es) == es[1..];
  }

  /** Why `main` of `scripts/collect-feedback.js` fails. */
  const MISSING_ISSUE_NUMBER := "ISSUE_NUMBERが設定されていません"
  const MISSING_REPOSITORY := "GITHUB_REPOSITORYが設定されていません"
  const FETCH_FAILED := "Issueの取得に失敗しました"

  /** `main`: the environment checks, the log update and the save. `issueNumber` is the parsed
      `ISSUE_NUMBER` (None when unset or empty), `issue` the result of `getIssue` (None on any
      failure of `gh`), `stored` the file contents, and `now` the clock reading. */
  method CollectFeedback(issueNumber: Option<int>, repository: Option<string>,
                         issue: Option<Issue>, stored: Option<Stored>, now: string)
    returns (r: Result<Log>)
    ensures issueNumber.None? ==> r == Err(MISSING_ISSUE_NUMBER)
    ensures issueNumber.Some? && !IsSet(repository) ==> r == Err(MISSING_REPOSITORY)
    ensures issueNumber.Some? && IsSet(repository) && issue.None? ==> r == Err(FETCH_FAILED)
    ensures r.Ok? <==> issueNumber.Some? && IsSet(repository) && issue.Some?
    ensures r.Ok? ==> fresh(r.value)
    ensures r.Ok? ==> r.value.entries == Upserted(Loaded(stored).entries, MakeEntry(issueNumber.value, issue.value))
    ensures r.Ok? ==> r.value.lastUpdated == Some(now)
  {
    if issueNumber.None? {
      return Err(MISSING_ISSUE_NUMBER);
    }
    if !IsSet(repository) {
      return Err(MISSING_REPOSITORY);
    }
    if issue.None? {
      return Err(FETCH_FAILED);
    }
    var log := new Log.Load(stored);
    var entry := MakeEntry(issueNumber.value, issue.value);
    log.Upsert(entry);
    log.Save(now);
    return Ok(log);
  }
}
