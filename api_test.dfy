/** The connection test script: with the same four credentials as the publishing script it
    reads the account (`GET /2/users/me`) and, only when that succeeds, posts a test message
    (`POST /2/tweets`). Both requests are signed by the same OAuth 1.0a signer. */
module ApiTest {
  import opened Wrappers
  import opened PercentEncoding
  import opened OAuth
  import opened Publish

  const USERS_ME_URL := API_ORIGIN + "/2/users/me"
  const TEST_MESSAGE_PREFIX := "API接続テスト "

  /** A post the write test made: its id and its permalink. */
  datatype Written = Written(id: string, permalink: string)

  /** How a run of the script ends. `Rejected` is a transport error: the promise of `main`
      rejects and the error is only logged. */
  datatype TestRun = MissingCredentials | ReadFailed | Rejected(message: string) | Completed(write: Option<Written>)

  /** `testReadAccess`: the body of a 200 response, `null` for any other status; a transport
      error rejects. */
  function ReadAccess(t: Transport): (r: Result<Option<string>>)
    ensures r.Ok? && r.value.Some? <==> t.Delivered? && t.status == 200
    ensures t.Failed? <==> r.Err?
  {
    match t
    case Failed(m) => Err(m)
    case Delivered(status, body) => if status == 200 then Ok(Some(body)) else Ok(None)
  }

  /** `testWriteAccess`: the id and permalink of the post for a 201 response, `null` for any
      other status (it resolves, it does not reject); a transport error rejects. */
  function WriteAccess(t: Transport, parseId: string -> string): (r: Result<Option<Written>>)
    ensures r.Ok? && r.value.Some? <==> t.Delivered? && t.status == 201
    ensures r.Ok? && r.value.Some? ==> r.value.value.permalink == Permalink(r.value.value.id)
    ensures t.Failed? <==> r.Err?
  {
    match t
    case Failed(m) => Err(m)
    case Delivered(status, body) =>
      if status == 201 then
        var id := parseId(body);
        Ok(Some(Written(id, STATUS_URL + id)))
      else Ok(None)
  }

  /** The end of a run whose read test passed. */
  function AfterWrite(w: Result<Option<Written>>): TestRun
  {
    match w
    case Err(m) => Rejected(m)
    case Ok(written) => Completed(written)
  }

  /** The whole script: the credential check at load time, the read test, and the write test
      only after a successful read. The nonces and clock readings of the two requests and the
      ISO time in the test message are inputs. */
  method RunApiTest(env: XEnv, crypto: Crypto, readNonce: seq<Byte>, readMs: nat,
                    writeNonce: seq<Byte>, writeMs: nat, isoNow: string,
                    readResponse: Transport, writeResponse: Transport, parseId: string -> string)
    returns (sent: seq<Request>, run: TestRun, exitCode: int)
    ensures exitCode == (if run == MissingCredentials || run == ReadFailed then 1 else 0)
    ensures ReadCredentials(env).None? ==> sent == [] && run == MissingCredentials
    ensures ReadCredentials(env).Some? ==>
      |sent| >= 1 && sent[0] == Request("GET", USERS_ME_URL,
        SpecifiedHeader(ReadCredentials(env).value, crypto, "GET", USERS_ME_URL, readNonce, readMs), None)
    ensures ReadCredentials(env).Some? && ReadAccess(readResponse).Err? ==>
      |sent| == 1 && run == Rejected(ReadAccess(readResponse).message)
    ensures ReadCredentials(env).Some? && ReadAccess(readResponse) == Ok(None) ==>
      |sent| == 1 && run == ReadFailed
    ensures ReadCredentials(env).Some? && ReadAccess(readResponse).Ok? && ReadAccess(readResponse).value.Some? ==>
      |sent| == 2 && sent[1] == Request("POST", TWEETS_URL,
        SpecifiedHeader(ReadCredentials(env).value, crypto, "POST", TWEETS_URL, writeNonce, writeMs),
        Some(TEST_MESSAGE_PREFIX + isoNow))
      && run == AfterWrite(WriteAccess(writeResponse, parseId))
  {
    var creds := ReadCredentials(env);
    if creds.None? {
      sent, run := [], MissingCredentials;
    } else {
      var readHeader := GenerateOAuthHeader(creds.value, crypto, "GET", USERS_ME_URL, readNonce, readMs);
      var read := Request("GET", USERS_ME_URL, readHeader, None);
      var readResult := ReadAccess(readResponse);
      if readResult.Err? {
        sent, run := [read], Rejected(readResult.message);
      } else if readResult.value.None? {
        sent, run := [read], ReadFailed;
      } else {
        var writeHeader := GenerateOAuthHeader(creds.value, crypto, "POST", TWEETS_URL, writeNonce, writeMs);
        var write := Request("POST", TWEETS_URL, writeHeader, Some(TEST_MESSAGE_PREFIX + isoNow));
        sent := [read, write];
        run := AfterWrite(WriteAccess(writeResponse, parseId));
      }
    }
    exitCode := if run == MissingCredentials || run == ReadFailed then 1 else 0;
  }
}
