/** The publishing script: it takes the text of an approved ticket, strips the HTML comments
    from it, signs a `POST /2/tweets` request with OAuth 1.0a, classifies the response and
    leaves either the post's permalink or the error message for the next workflow step. */
module Publish {
  import opened Wrappers
  import opened Strings
  import opened PercentEncoding
  import opened OAuth

  const EMPTY_BODY := "Issue本文が空です"
  const EMPTY_CONTENT := "投稿内容が空です"
  const MISSING_CREDENTIALS := "X API認証情報が設定されていません"
  const RATE_LIMITED := "レート制限に達しました。しばらく待ってから再試行してください。"
  const API_ORIGIN := "https://api.twitter.com"
  const TWEETS_URL := API_ORIGIN + "/2/tweets"
  const STATUS_URL := "https://x.com/i/status/"
  const OPEN := "<!--"
  const CLOSE := "-->"

  // ---- comment stripping ----

  /** `s.slice(i).replace(/<!--[\s\S]*?-->/g, '')`: from `i` on, each leftmost `<!--` that
      some later `-->` closes is deleted together with everything up to and including the
      first such `-->`. An unclosed `<!--` is kept, and so is everything after it, because no
      later `<!--` can be closed either. */
  function StripFrom(s: string, i: nat): (r: string)
    requires i <= |s|
    ensures |r| <= |s| - i
    decreases |s| - i
  {
    if i == |s| then []
    else if IsAt(s, i, OPEN) then
      match FindFrom(s, CLOSE, i + 4)
      case Some(k) => StripFrom(s, k + 3)
      case None => s[i..]
    else [s[i]] + StripFrom(s, i + 1)
  }

  function StripComments(s: string): string
  {
    StripFrom(s, 0)
  }

  /** Text with no `<!--` in it is copied as it is. */
  lemma {:induction false} StripPlain(s: string, i: nat, j: nat)
    requires i <= j <= |s|
    requires forall k :: i <= k < j ==> !IsAt(s, k, OPEN)
    ensures StripFrom(s, i) == s[i..j] + StripFrom(s, j)
    decreases j - i
  {
    if i < j {
      StripPlain(s, i + 1, j);
      StripStep(s, i, j);
    }
  }

  /** One character that does not start a comment is copied. */
  lemma StripStep(s: string, i: nat, j: nat)
    requires i < j <= |s| && !IsAt(s, i, OPEN)
    ensures StripFrom(s, i) + [] == [s[i]] + StripFrom(s, i + 1)
    ensures [s[i]] + (s[i + 1..j] + StripFrom(s, j)) == s[i..j] + StripFrom(s, j)
  {
    assert s[i..j] == [s[i]] + s[i + 1..j];
  }

  /** A comment that starts at `j` is deleted up to the end of the first `-->` after it. */
  lemma StripComment(s: string, j: nat, k: nat)
    requires IsAt(s, j, OPEN) && j + 4 <= k && IsAt(s, k, CLOSE)
    requires forall m :: j + 4 <= m < k ==> !IsAt(s, m, CLOSE)
    ensures StripFrom(s, j) == StripFrom(s, k + 3)
  {
    FindFromIs(s, CLOSE, j + 4, k);
    StripAtOpen(s, j, k);
  }

  lemma StripAtOpen(s: string, j: nat, k: nat)
    requires IsAt(s, j, OPEN) && j + 4 <= |s| && FindFrom(s, CLOSE, j + 4) == Some(k)
    ensures StripFrom(s, j) == StripFrom(s, k + 3)
  {
    assert j < |s|;
  }

  /** A comment never closed keeps the rest of the text as it is. */
  lemma StripUnclosed(s: string, j: nat)
    requires IsAt(s, j, OPEN) && forall m :: j + 4 <= m <= |s| ==> !IsAt(s, m, CLOSE)
    ensures StripFrom(s, j) == s[j..]
  {
    FindFromAbsent(s, CLOSE, j + 4);
  }

  /** A body with no `<!--` keeps all of its text. */
  lemma StripNothing(s: string)
    ensures !Contains(s, OPEN) ==> StripComments(s) == s
  {
    if !Contains(s, OPEN) {
      StripPlain(s, 0, |s|);
    }
  }

  /** `extractTweetContent`: the body without its comments, trimmed; an absent or empty body
      and a body that is nothing but comments and white space are errors. */
  function ExtractTweetContent(body: Option<string>): (r: Result<string>)
    ensures body.None? || body.value == [] ==> r == Err(EMPTY_BODY)
    ensures r.Ok? ==> r.value != [] && Trim(r.value) == r.value
    ensures body.Some? && body.value != [] && !Contains(body.value, OPEN) ==>
      r == (if Trim(body.value) == [] then Err(EMPTY_CONTENT) else Ok(Trim(body.value)))
  {
    if body.None? || body.value == [] then Err(EMPTY_BODY)
    else
      ContentFacts(body.value);
      var content := Trim(StripComments(body.value));
      if content == [] then Err(EMPTY_CONTENT) else Ok(content)
  }

  lemma ContentFacts(b: string)
    ensures Trim(Trim(StripComments(b))) == Trim(StripComments(b))
    ensures !Contains(b, OPEN) ==> Trim(StripComments(b)) == Trim(b)
  {
    TrimIdempotent(StripComments(b));
    StripNothing(b);
  }

  // ---- the response ----

  /** What the HTTPS request came back with: a status and the response body, or the
      message of a transport error. */
  datatype Transport = Delivered(status: int, body: string) | Failed(message: string)

  /** The API error text: `API Error (<status>): <body>`. */
  function ApiError(status: int, body: string): string
  {
    API_ERROR_PREFIX + IntToString(status) + "): " + body
  }

  /** `postTweet`'s outcome: the response body for a 201, which the caller parses, and an
      error otherwise. */
  function ClassifyPost(t: Transport): (r: Result<string>)
    ensures r.Ok? <==> t.Delivered? && t.status == 201
    ensures r.Ok? ==> r.value == t.body
    ensures t.Delivered? && t.status == 429 ==> r == Err(RATE_LIMITED)
    ensures t.Delivered? && t.status != 201 && t.status != 429 ==> r == Err(ApiError(t.status, t.body))
    ensures t.Failed? ==> r == Err("Request failed: " + t.message)
  {
    match t
    case Failed(m) => Err("Request failed: " + m)
    case Delivered(status, body) =>
      if status == 201 then Ok(body)
      else if status == 429 then Err(RATE_LIMITED)
      else Err(ApiError(status, body))
  }

  const API_ERROR_PREFIX := "API Error ("

  /** Reads the status and body back out of an API error text. */
  function ParseApiError(msg: string): Option<(int, string)>
  {
    if !StartsWith(msg, API_ERROR_PREFIX) then None else ParseStatusAndBody(msg[|API_ERROR_PREFIX|..])
  }

  /** `<status>): <body>`: the number up to the first `)`, then `: ` and the body. */
  function ParseStatusAndBody(rest: string): Option<(int, string)>
  {
    if ')' !in rest then None
    else
      var i := IndexOfChar(rest, ')');
      if !StartsWith(rest[i..], "): ") then None
      else
        match ParseInt(rest[..i])
        case None => None
        case Some(n) => Some((n, rest[i + 3..]))
  }

  /** A decimal integer with an optional minus sign. */
  function ParseInt(t: string): Option<int>
  {
    var negative := t != [] && t[0] == '-';
    var digits := if negative then t[1..] else t;
    if digits == [] || !AllDigits(digits) then None
    else
      var magnitude: int := DigitsValue(digits);
      Some(if negative then -magnitude else magnitude)
  }

  /** Integers are read back from their decimal rendering. */
  lemma ParseIntOfIntToString(n: int)
    ensures ParseInt(IntToString(n)) == Some(n)
  {
    if n < 0 {
      ParseNegative(n);
    } else {
      ParseNatural(n);
    }
  }

  lemma ParseNegative(n: int)
    requires n < 0
    ensures ParseInt("-" + NatToString(-n)) == Some(n)
  {
    var t := "-" + NatToString(-n);
    assert t[0] == '-' && t[1..] == NatToString(-n);
    DigitsValueOfNatToString(-n);
  }

  lemma ParseNatural(n: nat)
    ensures ParseInt(NatToString(n)) == Some(n)
  {
    var t := NatToString(n);
    assert IsDigit(t[0]);
    DigitsValueOfNatToString(n);
  }

  lemma NoParenInNumber(n: int)
    ensures ')' !in IntToString(n)
  {
  }

  /** The status and the body are read back from the text after the prefix. */
  lemma StatusAndBodyRoundTrip(status: int, body: string)
    ensures ParseStatusAndBody(IntToString(status) + [')'] + (": " + body)) == Some((status, body))
  {
    var num := IntToString(status);
    var rest := num + [')'] + (": " + body);
    NoParenInNumber(status);
    IndexOfCharPrefix(num, ')', ": " + body);
    assert rest[..|num|] == num;
    assert rest[|num|..] == "): " + body;
    assert rest[|num| + 3..] == body;
    ParseIntOfIntToString(status);
  }

  /** The status and the body can be read back from every API error text. */
  lemma ApiErrorRoundTrip(status: int, body: string)
    ensures ParseApiError(ApiError(status, body)) == Some((status, body))
  {
    var rest := IntToString(status) + [')'] + (": " + body);
    assert ApiError(status, body) == API_ERROR_PREFIX + rest;
    assert (API_ERROR_PREFIX + rest)[|API_ERROR_PREFIX|..] == rest;
    StatusAndBodyRoundTrip(status, body);
  }

  /** The permalink of a post. */
  function Permalink(id: string): string
  {
    STATUS_URL + id
  }

  /** The post id, read back from a permalink. */
  function PermalinkId(url: string): Option<string>
  {
    if StartsWith(url, STATUS_URL) then Some(url[|STATUS_URL|..]) else None
  }

  lemma PermalinkRoundTrip(id: string)
    ensures StartsWith(Permalink(id), STATUS_URL)
    ensures PermalinkId(Permalink(id)) == Some(id)
  {
    assert Permalink(id)[..|STATUS_URL|] == STATUS_URL;
  }

  // ---- the script ----

  /** The four `X_…` environment variables. */
  datatype XEnv = XEnv(apiKey: Option<string>, apiSecret: Option<string>,
                       accessToken: Option<string>, accessTokenSecret: Option<string>)

  /** The credentials, when all four variables are set to non-empty values. */
  function ReadCredentials(env: XEnv): (r: Option<Credentials>)
    ensures r.Some? <==> IsSet(env.apiKey) && IsSet(env.apiSecret) && IsSet(env.accessToken) && IsSet(env.accessTokenSecret)
    ensures r.Some? ==> r.value == Credentials(env.apiKey.value, env.apiSecret.value,
                                               env.accessToken.value, env.accessTokenSecret.value)
  {
    if IsSet(env.apiKey) && IsSet(env.apiSecret) && IsSet(env.accessToken) && IsSet(env.accessTokenSecret) then
      Some(Credentials(env.apiKey.value, env.apiSecret.value, env.accessToken.value, env.accessTokenSecret.value))
    else None
  }

  /** One HTTPS request: method, URL, `Authorization` value and the text it posts, if any. */
  datatype Request = Request(httpMethod: string, url: string, authorization: string, text: Option<string>)

  /** The file the script leaves behind: `tweet_url.txt` or `error.txt`. */
  datatype Artifact = TweetUrl(url: string) | ErrorFile(message: string)

  /** What `main` records for the outcome of `postTweet`: the permalink of the new post, or
      the error message. */
  function Record(outcome: Result<string>, parseId: string -> string): (a: Artifact)
    ensures a.TweetUrl? <==> outcome.Ok?
  {
    match outcome
    case Ok(body) => TweetUrl(Permalink(parseId(body)))
    case Err(m) => ErrorFile(m)
  }

  /** `main`: checks the credentials, extracts the text, posts it and records the outcome.
      `response` is what the one request comes back with and `parseId` reads `data.id` out of
      a 201 body. */
  method PublishMain(env: XEnv, issueBody: Option<string>, crypto: Crypto, nonceBytes: seq<Byte>,
                     nowMs: nat, response: Transport, parseId: string -> string)
    returns (sent: seq<Request>, artifact: Artifact, exitCode: int)
    ensures exitCode == (if artifact.TweetUrl? then 0 else 1)
    ensures ReadCredentials(env).None? ==> sent == [] && artifact == ErrorFile(MISSING_CREDENTIALS)
    ensures ReadCredentials(env).Some? && ExtractTweetContent(issueBody).Err? ==>
      sent == [] && artifact == ErrorFile(ExtractTweetContent(issueBody).message)
    ensures ReadCredentials(env).Some? && ExtractTweetContent(issueBody).Ok? ==>
      sent == [Request("POST", TWEETS_URL, SpecifiedHeader(ReadCredentials(env).value, crypto, "POST",
                   TWEETS_URL, nonceBytes, nowMs), Some(ExtractTweetContent(issueBody).value))]
      && artifact == Record(ClassifyPost(response), parseId)
  {
    var creds := ReadCredentials(env);
    if creds.None? {
      sent, artifact := [], ErrorFile(MISSING_CREDENTIALS);
    } else {
      var text := ExtractTweetContent(issueBody);
      if text.Err? {
        sent, artifact := [], ErrorFile(text.message);
      } else {
        var header := GenerateOAuthHeader(creds.value, crypto, "POST", TWEETS_URL, nonceBytes, nowMs);
        sent := [Request("POST", TWEETS_URL, header, Some(text.value))];
        var outcome := ClassifyPost(response);
        if outcome.Err? {
          artifact := ErrorFile(outcome.message);
        } else {
          var tweetId := parseId(outcome.value);
          artifact := TweetUrl(Permalink(tweetId));
        }
      }
    }
    exitCode := if artifact.TweetUrl? then 0 else 1;
  }
}
