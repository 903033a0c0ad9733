/** The OAuth 1.0a request signer of the publishing scripts (RFC 5849): the signature base
    string of section 3.4.1, the HMAC-SHA1 signing key of section 3.4.2 and the
    `Authorization` header of section 3.5.1. HMAC-SHA1 and base64 are given as functions, the
    sixteen random nonce bytes and the clock reading in milliseconds as inputs. */
module OAuth {
  import opened Wrappers
  import opened Strings
  import opened PercentEncoding
  import opened StringOrder

  /** A JavaScript object whose values are strings: its properties in insertion order, which
      is what `Object.keys` returns. */
  type Params = seq<(string, string)>

  /** The digest and text encodings the signer calls into. */
  datatype Crypto = Crypto(hmacSha1: (string, string) -> seq<Byte>, base64: seq<Byte> -> string)

  /** The four publishing credentials. */
  datatype Credentials = Credentials(
    consumerKey: string, consumerSecret: string, accessToken: string, accessTokenSecret: string)

  const PREFIX := "oauth_"
  const CONSUMER_KEY := PREFIX + "consumer_key"
  const NONCE := PREFIX + "nonce"
  const SIGNATURE := PREFIX + "signature"
  const SIGNATURE_METHOD := SIGNATURE + "_method"
  const TIMESTAMP := PREFIX + "timestamp"
  const TOKEN := PREFIX + "token"
  const VERSION := PREFIX + "version"
  const HMAC_SHA1 := "HMAC-SHA1"
  const ONE_POINT_ZERO := "1.0"

  /** `Object.keys(p)`. */
  function Keys(p: Params): (ks: seq<string>)
    ensures |ks| == |p|
  {
    seq(|p|, i requires 0 <= i < |p| => p[i].0)
  }

  /** The position of the first property named `k` at or after `i`, or `|p|` when there is
      none. */
  function Find(p: Params, k: string, i: nat): (r: nat)
    requires i <= |p|
    ensures i <= r <= |p| && (r < |p| ==> p[r].0 == k)
    decreases |p| - i
  {
    if i == |p| then |p| else if p[i].0 == k then i else Find(p, k, i + 1)
  }

  /** No property before the one `Find` stops at is named `k`. */
  lemma {:induction false} FindSpan(p: Params, k: string, i: nat)
    requires i <= |p|
    ensures forall m :: i <= m < Find(p, k, i) ==> p[m].0 != k
    decreases |p| - i
  {
    if i < |p| && p[i].0 != k {
      FindSpan(p, k, i + 1);
    }
  }

  /** `Find` stops at the first property named `k`. */
  lemma {:induction false} FindFirst(p: Params, k: string, i: nat, j: nat)
    requires i <= j < |p| && p[j].0 == k
    requires forall m :: i <= m < j ==> p[m].0 != k
    ensures Find(p, k, i) == j
    decreases j - i
  {
    if i < j {
      FindFirst(p, k, i + 1, j);
    }
  }

  /** `Find` runs off the end when no property from `i` on is named `k`. */
  lemma {:induction false} FindAbsent(p: Params, k: string, i: nat)
    requires i <= |p|
    requires forall m :: i <= m < |p| ==> p[m].0 != k
    ensures Find(p, k, i) == |p|
    decreases |p| - i
  {
    if i < |p| {
      FindAbsent(p, k, i + 1);
    }
  }

  /** A key of the object is found. */
  lemma FindKey(p: Params, k: string)
    requires k in Keys(p)
    ensures Find(p, k, 0) < |p|
  {
    FindSpan(p, k, 0);
    var j :| 0 <= j < |p| && Keys(p)[j] == k;
    assert p[j].0 == k;
  }

  /** `p[k]`: the value stored under `k`. */
  function Get(p: Params, k: string): string
    requires k in Keys(p)
  {
    FindKey(p, k);
    p[Find(p, k, 0)].1
  }

  /** `p[k] = v`: an existing property keeps its place, a new one goes at the end. */
  function Put(p: Params, k: string, v: string): Params
  {
    var i := Find(p, k, 0);
    if i < |p| then p[i := (k, v)] else p + [(k, v)]
  }

  /** The value of the property at `j` is what `p[p[j].0]` reads when no property before it
      has the same key. */
  lemma GetFirst(p: Params, j: nat)
    requires j < |p| && forall m :: 0 <= m < j ==> p[m].0 != p[j].0
    ensures p[j].0 in Keys(p) && Get(p, p[j].0) == p[j].1
  {
    assert Keys(p)[j] == p[j].0;
    FindFirst(p, p[j].0, 0, j);
  }

  /** After `p[k] = v`, `k` reads `v`, every other key reads what it read before, and the
      keys are those of `p`, with `k` added at the end when it was not one of them. */
  lemma PutSpec(p: Params, k: string, v: string)
    ensures k in Keys(p) ==> Keys(Put(p, k, v)) == Keys(p)
    ensures k !in Keys(p) ==> Keys(Put(p, k, v)) == Keys(p) + [k]
    ensures k in Keys(Put(p, k, v)) && Get(Put(p, k, v), k) == v
    ensures forall j :: j in Keys(p) && j != k ==> j in Keys(Put(p, k, v)) && Get(Put(p, k, v), j) == Get(p, j)
  {
    var r, i := Put(p, k, v), Find(p, k, 0);
    FindSpan(p, k, 0);
    assert forall m :: 0 <= m < |p| ==> r[m].0 == p[m].0;
    if k in Keys(p) {
      FindKey(p, k);
      assert Keys(r) == Keys(p);
    } else {
      PutNew(p, k, v);
      assert Keys(r) == Keys(p) + [k];
    }
    assert r[i] == (k, v);
    FindFirst(r, k, 0, i);
    forall j | j in Keys(p) && j != k
      ensures j in Keys(r) && Get(r, j) == Get(p, j)
    {
      FindKey(p, j);
      var f := Find(p, j, 0);
      FindSpan(p, j, 0);
      FindFirst(r, j, 0, f);
    }
  }

  /** `s.toUpperCase()` on the ASCII letters. */
  function UpperAscii(s: string): (r: string)
    ensures |r| == |s|
    ensures forall i :: 0 <= i < |s| ==> r[i] == if 'a' <= s[i] <= 'z' then (s[i] as int - 32) as char else s[i]
  {
    if s == [] then [] else [if 'a' <= s[0] <= 'z' then (s[0] as int - 32) as char else s[0]] + UpperAscii(s[1..])
  }

  /** `key=value`. */
  function Item(k: string, v: string): string
  {
    k + "=" + v
  }

  /** `key="value"`. */
  function QuotedItem(k: string, v: string): string
  {
    k + "=\"" + v + "\""
  }

  /** One item of the parameter string, or of the header when `quoted`, both sides
      percent-encoded. */
  function EncodePair(k: string, v: string, quoted: bool): string
  {
    if quoted then QuotedItem(Encode(k), Encode(v)) else Item(Encode(k), Encode(v))
  }

  lemma SortedKeysAreKeys(p: Params)
    ensures forall k :: k in Sort(Keys(p)) ==> k in Keys(p)
  {
    forall k | k in Sort(Keys(p)) ensures k in Keys(p) {
      assert k in multiset(Sort(Keys(p)));
    }
  }

  /** The properties of `p` for the keys `ks`, in that order. */
  function Entries(p: Params, ks: seq<string>): (r: Params)
    requires forall k :: k in ks ==> k in Keys(p)
    ensures |r| == |ks|
  {
    seq(|ks|, i requires 0 <= i < |ks| => (ks[i], Get(p, ks[i])))
  }

  /** The properties of `p` in ascending key order. */
  function SortedParams(p: Params): Params
  {
    SortedKeysAreKeys(p);
    Entries(p, Sort(Keys(p)))
  }

  /** One encoded item per property, in the order given. */
  function Items(es: Params, quoted: bool): (r: seq<string>)
    ensures |r| == |es|
  {
    seq(|es|, i requires 0 <= i < |es| => EncodePair(es[i].0, es[i].1, quoted))
  }

  /** The normalized parameter string: the sorted `key=value` items joined by `&`. */
  function ParameterString(p: Params): string
  {
    Join(Items(SortedParams(p), false), "&")
  }

  /** The signature base string: method, URL and parameter string, each encoded, joined by `&`. */
  function SignatureBase(httpMethod: string, url: string, p: Params): string
  {
    UpperAscii(httpMethod) + "&" + Encode(url) + "&" + Encode(ParameterString(p))
  }

  function SigningKey(consumerSecret: string, tokenSecret: string): string
  {
    Encode(consumerSecret) + "&" + Encode(tokenSecret)
  }

  /** `generateOAuthSignature`: base64 of HMAC-SHA1 over the base string. */
  function Signature(crypto: Crypto, httpMethod: string, url: string, p: Params,
                     consumerSecret: string, tokenSecret: string): string
  {
    crypto.base64(crypto.hmacSha1(SigningKey(consumerSecret, tokenSecret), SignatureBase(httpMethod, url, p)))
  }

  /** The header value: `OAuth ` and the sorted `key="value"` items joined by `, `. */
  function HeaderString(p: Params): string
  {
    "OAuth " + Join(Items(SortedParams(p), true), ", ")
  }

  function HexLowerDigit(d: nat): (c: char)
    requires d < 16
    ensures IsUnreserved(c)
  {
    if d < 10 then (('0' as int) + d) as char else (('a' as int) + d - 10) as char
  }

  /** `buffer.toString('hex')`: two lower-case hexadecimal digits per byte. */
  function HexLower(bs: seq<Byte>): (r: string)
    ensures |r| == 2 * |bs| && AllUnreserved(r)
  {
    if bs == [] then [] else [HexLowerDigit(bs[0] / 16), HexLowerDigit(bs[0] % 16)] + HexLower(bs[1..])
  }

  /** `Math.floor(ms / 1000).toString()`. */
  function Timestamp(ms: nat): (r: string)
    ensures AllUnreserved(r)
  {
    NatToString(ms / 1000)
  }

  /** The six parameters that are signed, in the order the object literal lists them. */
  function OAuthParams(c: Credentials, nonce: string, timestamp: string): Params
  {
    [(CONSUMER_KEY, c.consumerKey), (NONCE, nonce), (SIGNATURE_METHOD, HMAC_SHA1),
     (TIMESTAMP, timestamp), (TOKEN, c.accessToken), (VERSION, ONE_POINT_ZERO)]
  }

  // ---- the order of the keys ----

  lemma ConsumerKeyBeforeNonce() ensures LessEq(CONSUMER_KEY, NONCE)
  {
    LessEqCommonPrefix(PREFIX, "consumer_key", "nonce");
  }

  lemma NonceBeforeSignature() ensures LessEq(NONCE, SIGNATURE)
  {
    LessEqCommonPrefix(PREFIX, "nonce", "signature");
  }

  lemma SignatureBeforeSignatureMethod() ensures LessEq(SIGNATURE, SIGNATURE_METHOD)
  {
    LessEqCommonPrefix(SIGNATURE, "", "_method");
    assert SIGNATURE + "" == SIGNATURE;
  }

  lemma SignatureMethodBeforeTimestamp() ensures LessEq(SIGNATURE_METHOD, TIMESTAMP)
  {
    LessEqCommonPrefix(PREFIX, "signature_method", "timestamp");
    assert SIGNATURE_METHOD == PREFIX + "signature_method";
  }

  lemma TimestampBeforeToken() ensures LessEq(TIMESTAMP, TOKEN)
  {
    LessEqCommonPrefix(PREFIX, "timestamp", "token");
  }

  lemma TokenBeforeVersion() ensures LessEq(TOKEN, VERSION)
  {
    LessEqCommonPrefix(PREFIX, "token", "version");
  }

  lemma NonceBeforeSignatureMethod() ensures LessEq(NONCE, SIGNATURE_METHOD)
  {
    NonceBeforeSignature();
    SignatureBeforeSignatureMethod();
    LessEqTransitive(NONCE, SIGNATURE, SIGNATURE_METHOD);
  }

  /** The seven keys are distinct strings. */
  lemma KeysDistinct()
    ensures SIGNATURE !in [CONSUMER_KEY, NONCE, SIGNATURE_METHOD, TIMESTAMP, TOKEN, VERSION]
    ensures CONSUMER_KEY != NONCE && NONCE != SIGNATURE_METHOD && SIGNATURE_METHOD != TIMESTAMP
    ensures TIMESTAMP != TOKEN && TOKEN != VERSION
  {
    assert SIGNATURE[6] != TIMESTAMP[6];
    assert TIMESTAMP[6] != TOKEN[7];
  }

  /** The signed keys, in the order the object literal lists them, are already ascending. */
  lemma SignedKeysOrder(c: Credentials, nonce: string, timestamp: string)
    ensures Sort(Keys(OAuthParams(c, nonce, timestamp)))
         == [CONSUMER_KEY, NONCE, SIGNATURE_METHOD, TIMESTAMP, TOKEN, VERSION]
  {
    var ks := [CONSUMER_KEY, NONCE, SIGNATURE_METHOD, TIMESTAMP, TOKEN, VERSION];
    assert Keys(OAuthParams(c, nonce, timestamp)) == ks;
    ConsumerKeyBeforeNonce();
    NonceBeforeSignatureMethod();
    SignatureMethodBeforeTimestamp();
    TimestampBeforeToken();
    TokenBeforeVersion();
    SortedByNeighbours(ks);
    SortedUnique(Sort(ks), ks);
  }

  /** With the signature added at the end, sorting moves it between the nonce and the
      signature method. */
  lemma HeaderKeysOrder(c: Credentials, nonce: string, timestamp: string, sig: string)
    ensures Sort(Keys(Put(OAuthParams(c, nonce, timestamp), SIGNATURE, sig)))
         == [CONSUMER_KEY, NONCE, SIGNATURE, SIGNATURE_METHOD, TIMESTAMP, TOKEN, VERSION]
  {
    var ks := [CONSUMER_KEY, NONCE, SIGNATURE, SIGNATURE_METHOD, TIMESTAMP, TOKEN, VERSION];
    var unsorted := Keys(Put(OAuthParams(c, nonce, timestamp), SIGNATURE, sig));
    SignedKeysWithSignature(c, nonce, timestamp, sig);
    HeaderKeysAscending();
    SortedUnique(Sort(unsorted), ks);
  }

  lemma SignedKeysWithSignature(c: Credentials, nonce: string, timestamp: string, sig: string)
    ensures multiset(Keys(Put(OAuthParams(c, nonce, timestamp), SIGNATURE, sig)))
         == multiset([CONSUMER_KEY, NONCE, SIGNATURE, SIGNATURE_METHOD, TIMESTAMP, TOKEN, VERSION])
  {
    SignatureAppended(c, nonce, timestamp, sig);
    var u, v := [CONSUMER_KEY, NONCE], [SIGNATURE_METHOD, TIMESTAMP, TOKEN, VERSION];
    assert u + v == [CONSUMER_KEY, NONCE, SIGNATURE_METHOD, TIMESTAMP, TOKEN, VERSION];
    assert u + [SIGNATURE] + v == [CONSUMER_KEY, NONCE, SIGNATURE, SIGNATURE_METHOD, TIMESTAMP, TOKEN, VERSION];
    MoveLast(u, v, SIGNATURE);
  }

  lemma MoveLast<T>(u: seq<T>, v: seq<T>, x: T)
    ensures multiset(u + v + [x]) == multiset(u + [x] + v)
  {
  }

  /** `p[k] = v` for a new key appends the property. */
  lemma PutNew(p: Params, k: string, v: string)
    requires k !in Keys(p)
    ensures Put(p, k, v) == p + [(k, v)]
  {
    forall m | 0 <= m < |p| ensures p[m].0 != k {
      assert Keys(p)[m] == p[m].0;
    }
    FindAbsent(p, k, 0);
  }

  /** The signature is a new key: the parameter object grows by it. */
  lemma SignatureAdded(c: Credentials, nonce: string, timestamp: string, sig: string)
    ensures Put(OAuthParams(c, nonce, timestamp), SIGNATURE, sig) == OAuthParams(c, nonce, timestamp) + [(SIGNATURE, sig)]
  {
    var p := OAuthParams(c, nonce, timestamp);
    assert Keys(p) == [CONSUMER_KEY, NONCE, SIGNATURE_METHOD, TIMESTAMP, TOKEN, VERSION];
    KeysDistinct();
    PutNew(p, SIGNATURE, sig);
  }

  lemma SignatureAppended(c: Credentials, nonce: string, timestamp: string, sig: string)
    ensures Keys(Put(OAuthParams(c, nonce, timestamp), SIGNATURE, sig))
         == [CONSUMER_KEY, NONCE, SIGNATURE_METHOD, TIMESTAMP, TOKEN, VERSION] + [SIGNATURE]
  {
    SignatureAdded(c, nonce, timestamp, sig);
    var p := OAuthParams(c, nonce, timestamp) + [(SIGNATURE, sig)];
    assert Keys(p) == [CONSUMER_KEY, NONCE, SIGNATURE_METHOD, TIMESTAMP, TOKEN, VERSION, SIGNATURE];
  }

  lemma HeaderKeysAscending()
    ensures Sorted([CONSUMER_KEY, NONCE, SIGNATURE, SIGNATURE_METHOD, TIMESTAMP, TOKEN, VERSION])
  {
    ConsumerKeyBeforeNonce();
    NonceBeforeSignature();
    SignatureBeforeSignatureMethod();
    SignatureMethodBeforeTimestamp();
    TimestampBeforeToken();
    TokenBeforeVersion();
    SortedByNeighbours([CONSUMER_KEY, NONCE, SIGNATURE, SIGNATURE_METHOD, TIMESTAMP, TOKEN, VERSION]);
  }

  // ---- what the signer builds for its six parameters ----

  /** Distinct lengths, and one letter for the two of length 11, tell the signed keys apart. */
  lemma SignedKeysDistinct()
    ensures CONSUMER_KEY != NONCE && CONSUMER_KEY != SIGNATURE_METHOD && CONSUMER_KEY != TIMESTAMP
    ensures CONSUMER_KEY != TOKEN && CONSUMER_KEY != VERSION && NONCE != SIGNATURE_METHOD
    ensures NONCE != TIMESTAMP && NONCE != TOKEN && NONCE != VERSION && SIGNATURE_METHOD != TIMESTAMP
    ensures SIGNATURE_METHOD != TOKEN && SIGNATURE_METHOD != VERSION && TIMESTAMP != TOKEN
    ensures TIMESTAMP != VERSION && TOKEN != VERSION
  {
    assert |CONSUMER_KEY| == 18 && |NONCE| == 11 && |SIGNATURE_METHOD| == 22;
    assert |TIMESTAMP| == 15 && |TOKEN| == 11 && |VERSION| == 13;
    assert NONCE[6] != TOKEN[6];
  }

  /** `p[k]` for each property of an object with six distinct keys. */
  lemma GetOfSix(k0: string, k1: string, k2: string, k3: string, k4: string, k5: string,
                 v0: string, v1: string, v2: string, v3: string, v4: string, v5: string)
    requires k0 != k1 && k0 != k2 && k0 != k3 && k0 != k4 && k0 != k5
    requires k1 != k2 && k1 != k3 && k1 != k4 && k1 != k5
    requires k2 != k3 && k2 != k4 && k2 != k5 && k3 != k4 && k3 != k5 && k4 != k5
    ensures var p := [(k0, v0), (k1, v1), (k2, v2), (k3, v3), (k4, v4), (k5, v5)];
      Keys(p) == [k0, k1, k2, k3, k4, k5]
      && Get(p, k0) == v0 && Get(p, k1) == v1 && Get(p, k2) == v2
      && Get(p, k3) == v3 && Get(p, k4) == v4 && Get(p, k5) == v5
  {
    var p := [(k0, v0), (k1, v1), (k2, v2), (k3, v3), (k4, v4), (k5, v5)];
    assert Keys(p) == [k0, k1, k2, k3, k4, k5];
    GetOfSixFront(p, Keys(p));
    GetOfSixBack(p, Keys(p));
  }

  lemma GetOfSixFront(p: Params, ks: seq<string>)
    requires |p| == 6 && ks == Keys(p)
    requires ks[0] != ks[1] && ks[0] != ks[2] && ks[1] != ks[2]
    ensures Get(p, p[0].0) == p[0].1 && Get(p, p[1].0) == p[1].1 && Get(p, p[2].0) == p[2].1
  {
    GetFirst(p, 0);
    GetFirst(p, 1);
    GetFirst(p, 2);
  }

  lemma GetOfSixBack(p: Params, ks: seq<string>)
    requires |p| == 6 && ks == Keys(p)
    requires ks[0] != ks[3] && ks[0] != ks[4] && ks[0] != ks[5]
    requires ks[1] != ks[3] && ks[1] != ks[4] && ks[1] != ks[5]
    requires ks[2] != ks[3] && ks[2] != ks[4] && ks[2] != ks[5]
    requires ks[3] != ks[4] && ks[3] != ks[5] && ks[4] != ks[5]
    ensures Get(p, p[3].0) == p[3].1 && Get(p, p[4].0) == p[4].1 && Get(p, p[5].0) == p[5].1
  {
    GetFirst(p, 3);
    GetFirst(p, 4);
    GetFirst(p, 5);
  }

  /** `p[k]` for each of the six signed keys. */
  lemma SignedValues(c: Credentials, nonce: string, timestamp: string)
    ensures var p := OAuthParams(c, nonce, timestamp);
      Keys(p) == [CONSUMER_KEY, NONCE, SIGNATURE_METHOD, TIMESTAMP, TOKEN, VERSION]
      && Get(p, CONSUMER_KEY) == c.consumerKey && Get(p, NONCE) == nonce
      && Get(p, SIGNATURE_METHOD) == HMAC_SHA1 && Get(p, TIMESTAMP) == timestamp
      && Get(p, TOKEN) == c.accessToken && Get(p, VERSION) == ONE_POINT_ZERO
  {
    SignedKeysDistinct();
    GetOfSix(CONSUMER_KEY, NONCE, SIGNATURE_METHOD, TIMESTAMP, TOKEN, VERSION,
             c.consumerKey, nonce, HMAC_SHA1, timestamp, c.accessToken, ONE_POINT_ZERO);
  }

  /** The properties of an object for six of its keys. */
  lemma EntriesOfSix(p: Params, k0: string, k1: string, k2: string, k3: string, k4: string, k5: string)
    requires k0 in Keys(p) && k1 in Keys(p) && k2 in Keys(p) && k3 in Keys(p) && k4 in Keys(p) && k5 in Keys(p)
    ensures Entries(p, [k0, k1, k2, k3, k4, k5])
         == [(k0, Get(p, k0)), (k1, Get(p, k1)), (k2, Get(p, k2)), (k3, Get(p, k3)),
             (k4, Get(p, k4)), (k5, Get(p, k5))]
  {
    var ks := [k0, k1, k2, k3, k4, k5];
    assert ks[0] == k0 && ks[1] == k1 && ks[2] == k2 && ks[3] == k3 && ks[4] == k4 && ks[5] == k5;
  }

  /** The six signed parameters, listed in the order of the object literal, are already in
      ascending key order: sorting them changes nothing. */
  lemma SignedParamsSorted(c: Credentials, nonce: string, timestamp: string)
    ensures SortedParams(OAuthParams(c, nonce, timestamp)) == OAuthParams(c, nonce, timestamp)
  {
    var p := OAuthParams(c, nonce, timestamp);
    SignedKeysOrder(c, nonce, timestamp);
    SignedValues(c, nonce, timestamp);
    EntriesOfSix(p, CONSUMER_KEY, NONCE, SIGNATURE_METHOD, TIMESTAMP, TOKEN, VERSION);
  }

  /** Section 3.4.1.3.2 of RFC 5849 for the six signed parameters: their encoded items in the
      order of the object literal, joined by `&`. */
  lemma SignedParameterString(c: Credentials, nonce: string, timestamp: string)
    ensures ParameterString(OAuthParams(c, nonce, timestamp)) == Join(Items(OAuthParams(c, nonce, timestamp), false), "&")
  {
    SignedParamsSorted(c, nonce, timestamp);
  }

  /** `p[k]` for each of the seven keys once the signature is added. */
  lemma HeaderValues(c: Credentials, nonce: string, timestamp: string, sig: string)
    ensures var p := Put(OAuthParams(c, nonce, timestamp), SIGNATURE, sig);
      Keys(p) == [CONSUMER_KEY, NONCE, SIGNATURE_METHOD, TIMESTAMP, TOKEN, VERSION, SIGNATURE]
      && Get(p, CONSUMER_KEY) == c.consumerKey && Get(p, NONCE) == nonce && Get(p, SIGNATURE) == sig
      && Get(p, SIGNATURE_METHOD) == HMAC_SHA1 && Get(p, TIMESTAMP) == timestamp
      && Get(p, TOKEN) == c.accessToken && Get(p, VERSION) == ONE_POINT_ZERO
  {
    SignedValues(c, nonce, timestamp);
    SignatureAppended(c, nonce, timestamp, sig);
    KeysDistinct();
    PutSpec(OAuthParams(c, nonce, timestamp), SIGNATURE, sig);
  }

  /** The properties of an object for seven of its keys. */
  lemma EntriesOfSeven(p: Params, k0: string, k1: string, k2: string, k3: string, k4: string, k5: string, k6: string)
    requires k0 in Keys(p) && k1 in Keys(p) && k2 in Keys(p) && k3 in Keys(p) && k4 in Keys(p) && k5 in Keys(p)
    requires k6 in Keys(p)
    ensures Entries(p, [k0, k1, k2, k3, k4, k5, k6])
         == [(k0, Get(p, k0)), (k1, Get(p, k1)), (k2, Get(p, k2)), (k3, Get(p, k3)),
             (k4, Get(p, k4)), (k5, Get(p, k5)), (k6, Get(p, k6))]
  {
    var ks := [k0, k1, k2, k3, k4, k5, k6];
    assert ks[0] == k0 && ks[1] == k1 && ks[2] == k2 && ks[3] == k3 && ks[4] == k4 && ks[5] == k5 && ks[6] == k6;
  }

  /** Section 3.5.1 of RFC 5849: once the signature is added, the header carries the seven
      parameters in ascending key order, the signature between the nonce and the signature
      method. */
  lemma HeaderParamsSorted(c: Credentials, nonce: string, timestamp: string, sig: string)
    ensures SortedParams(Put(OAuthParams(c, nonce, timestamp), SIGNATURE, sig)) == HeaderEntries(c, nonce, timestamp, sig)
  {
    var p := Put(OAuthParams(c, nonce, timestamp), SIGNATURE, sig);
    HeaderKeysOrder(c, nonce, timestamp, sig);
    HeaderValues(c, nonce, timestamp, sig);
    EntriesOfSeven(p, CONSUMER_KEY, NONCE, SIGNATURE, SIGNATURE_METHOD, TIMESTAMP, TOKEN, VERSION);
  }

  // ---- reading the header and the base string back ----

  /** Reads one `key=value` item, or `key="value"` when `quoted`, and percent-decodes both
      sides; the key ends at the first `=`. */
  function ParsePair(item: string, quoted: bool): Option<(string, string)>
  {
    if '=' !in item then None
    else
      var i := IndexOfChar(item, '=');
      var raw := item[i + 1..];
      var value :=
        if !quoted then Some(raw)
        else if |raw| >= 2 && raw[0] == '"' && raw[|raw| - 1] == '"' then Some(raw[1..|raw| - 1])
        else None;
      match (Decode(item[..i]), value)
      case (Some(k), Some(v)) => (match Decode(v) case Some(dv) => Some((k, dv)) case None => None)
      case _ => None
  }

  function ParsePairs(items: seq<string>, quoted: bool): Option<Params>
  {
    if items == [] then Some([])
    else
      match (ParsePair(items[0], quoted), ParsePairs(items[1..], quoted))
      case (Some(kv), Some(rest)) => Some([kv] + rest)
      case _ => None
  }

  function TrimAll(xs: seq<string>): (r: seq<string>)
    ensures |r| == |xs|
  {
    seq(|xs|, i requires 0 <= i < |xs| => Trim(xs[i]))
  }

  /** Reads a parameter string: `&`-separated items. */
  function ParseParameterString(s: string): Option<Params>
  {
    if s == [] then Some([]) else ParsePairs(Split(s, '&'), false)
  }

  /** Reads an `Authorization: OAuth …` value the way a server splits it: at the commas, each
      item trimmed. */
  function ParseHeader(h: string): Option<Params>
  {
    if !StartsWith(h, "OAuth ") then None
    else if h[6..] == [] then Some([])
    else ParsePairs(TrimAll(Split(h[6..], ',')), true)
  }

  /** Neither `=`, `&`, `,`, `"` nor white space occurs in a percent-encoded string. */
  lemma EncodedHasNoDelimiters(s: string)
    ensures forall i :: 0 <= i < |Encode(s)| ==>
      Encode(s)[i] != '=' && Encode(s)[i] != '&' && Encode(s)[i] != ',' && Encode(s)[i] != '"' && !IsSpace(Encode(s)[i])
  {
  }

  lemma {:induction false} ParsePairOfEncodePair(k: string, v: string, quoted: bool)
    ensures ParsePair(EncodePair(k, v, quoted), quoted) == Some((k, v))
  {
    var ek, ev := Encode(k), Encode(v);
    EncodedHasNoEquals(k);
    DecodeEncode(k);
    DecodeEncode(v);
    if quoted {
      ParseQuotedItem(ek, ev, k, v);
    } else {
      ParsePlainItem(ek, ev, k, v);
    }
  }

  /** A `key=value` item whose key has no `=` reads back as the decoded key and value. */
  lemma ParsePlainItem(ek: string, ev: string, k: string, v: string)
    requires '=' !in ek && Decode(ek) == Some(k) && Decode(ev) == Some(v)
    ensures ParsePair(Item(ek, ev), false) == Some((k, v))
  {
    assert Item(ek, ev) == ek + ['='] + ev;
    SplitAtEquals(ek, ev);
  }

  /** A `key="value"` item whose key has no `=` reads back as the decoded key and value. */
  lemma ParseQuotedItem(ek: string, ev: string, k: string, v: string)
    requires '=' !in ek && Decode(ek) == Some(k) && Decode(ev) == Some(v)
    ensures ParsePair(QuotedItem(ek, ev), true) == Some((k, v))
  {
    QuotedItemShape(ek, ev);
    QuotedValue(ev);
    SplitAtEquals(ek, ['"'] + ev + ['"']);
  }

  lemma QuotedItemShape(ek: string, ev: string)
    ensures QuotedItem(ek, ev) == ek + ['='] + (['"'] + ev + ['"'])
  {
    assert "=\"" == ['='] + ['"'];
  }

  /** The value between the quotes of a quoted value. */
  lemma QuotedValue(ev: string)
    ensures var r := ['"'] + ev + ['"'];
      |r| >= 2 && r[0] == '"' && r[|r| - 1] == '"' && r[1..|r| - 1] == ev
  {
  }

  lemma EncodedHasNoEquals(k: string)
    ensures '=' !in Encode(k)
  {
    EncodedHasNoDelimiters(k);
  }

  /** An item whose key has no `=` splits at the `=` after the key. */
  lemma SplitAtEquals(ek: string, rest: string)
    requires '=' !in ek
    ensures var item := ek + ['='] + rest;
      '=' in item && IndexOfChar(item, '=') == |ek| && item[..|ek|] == ek && item[|ek| + 1..] == rest
  {
    var item := ek + ['='] + rest;
    IndexOfCharPrefix(ek, '=', rest);
    assert item[..|ek|] == ek && item[|ek| + 1..] == rest;
  }

  /** A list of items reads back item by item. */
  lemma {:induction false} ParsePairsEach(items: seq<string>, es: Params, quoted: bool)
    requires |items| == |es|
    requires forall i :: 0 <= i < |items| ==> ParsePair(items[i], quoted) == Some(es[i])
    ensures ParsePairs(items, quoted) == Some(es)
  {
    if items != [] {
      ParsePairsEach(items[1..], es[1..], quoted);
      assert [es[0]] + es[1..] == es;
    }
  }

  /** The encoded items of a list of properties read back as that list. */
  lemma ParseItems(es: Params, quoted: bool)
    ensures ParsePairs(Items(es, quoted), quoted) == Some(es)
  {
    forall i | 0 <= i < |es| ensures ParsePair(Items(es, quoted)[i], quoted) == Some(es[i]) {
      ParsePairOfEncodePair(es[i].0, es[i].1, quoted);
    }
    ParsePairsEach(Items(es, quoted), es, quoted);
  }

  /** Encoded items contain no `&` and no `,`. */
  lemma ItemsHaveNo(es: Params, quoted: bool, c: char)
    requires c == '&' || c == ','
    ensures forall i :: 0 <= i < |es| ==> c !in Items(es, quoted)[i]
  {
    forall i | 0 <= i < |es| ensures c !in Items(es, quoted)[i] {
      EncodedHasNoDelimiters(es[i].0);
      EncodedHasNoDelimiters(es[i].1);
    }
  }

  /** Joined by `&`, the encoded items of a list of properties read back as that list. */
  lemma ItemsJoinedRoundTrip(es: Params)
    ensures ParseParameterString(Join(Items(es, false), "&")) == Some(es)
  {
    var items := Items(es, false);
    ParseItems(es, false);
    if items != [] {
      ItemsHaveNo(es, false, '&');
      SplitJoin(items, '&');
      assert |items[0]| > 0;
    }
  }

  /** The parameter string reads back as the sorted parameters. */
  lemma ParameterStringRoundTrip(p: Params)
    ensures ParseParameterString(ParameterString(p)) == Some(SortedParams(p))
  {
    ItemsJoinedRoundTrip(SortedParams(p));
  }

  lemma {:induction false} JoinIndent(ys: seq<string>)
    requires ys != []
    ensures Join(Prefixed(" ", ys), ",") == " " + Join(ys, ", ")
  {
    if |ys| > 1 {
      JoinIndent(ys[1..]);
      assert Prefixed(" ", ys)[1..] == Prefixed(" ", ys[1..]);
      assert Join(Prefixed(" ", ys), ",") == " " + ys[0] + "," + Join(Prefixed(" ", ys[1..]), ",");
    }
  }

  /** Joining by `, ` is joining by `,` with a space in front of every item but the first. */
  lemma {:induction false} CommaSpace(xs: seq<string>)
    requires xs != []
    ensures Join(xs, ", ") == Join([xs[0]] + Prefixed(" ", xs[1..]), ",")
  {
    var ys := [xs[0]] + Prefixed(" ", xs[1..]);
    if |xs| > 1 {
      var rest := Join(xs[1..], ", ");
      JoinIndent(xs[1..]);
      assert ys[1..] == Prefixed(" ", xs[1..]);
      assert Join(ys, ",") == xs[0] + "," + (" " + rest);
      assert Join(xs, ", ") == xs[0] + ", " + rest;
      assert xs[0] + "," + (" " + rest) == xs[0] + ", " + rest;
    } else {
      assert ys == xs;
    }
  }

  lemma QuotedPairUnpadded(k: string, v: string)
    ensures Unpadded(EncodePair(k, v, true)) && ',' !in EncodePair(k, v, true)
  {
    EncodedHasNoDelimiters(k);
    EncodedHasNoDelimiters(v);
    var item := EncodePair(k, v, true);
    if Encode(k) != [] { assert item[0] == Encode(k)[0]; } else { assert item[0] == '='; }
  }

  /** An item that neither starts nor ends with white space. */
  predicate Unpadded(x: string)
  {
    x != [] && !IsSpace(x[0]) && !IsSpace(x[|x| - 1])
  }

  lemma TrimIndentedAt(xs: seq<string>, i: nat)
    requires xs != [] && i < |xs| && Unpadded(xs[i])
    ensures Trim(([xs[0]] + Prefixed(" ", xs[1..]))[i]) == xs[i]
  {
    TrimUnpadded(xs[i]);
    if i > 0 {
      assert ([xs[0]] + Prefixed(" ", xs[1..]))[i] == " " + xs[i] + "";
      TrimAroundSpace(" ", xs[i], "");
    }
  }

  /** Trimming the items of a `, `-joined list after splitting it at the commas undoes the
      spaces. */
  lemma TrimIndented(xs: seq<string>)
    requires xs != []
    requires forall i :: 0 <= i < |xs| ==> Unpadded(xs[i])
    ensures TrimAll([xs[0]] + Prefixed(" ", xs[1..])) == xs
  {
    forall i | 0 <= i < |xs| ensures TrimAll([xs[0]] + Prefixed(" ", xs[1..]))[i] == xs[i] {
      TrimIndentedAt(xs, i);
    }
  }

  /** Indenting adds no comma. */
  lemma IndentHasNoComma(xs: seq<string>)
    requires xs != [] && forall i :: 0 <= i < |xs| ==> ',' !in xs[i]
    ensures forall i :: 0 <= i < |xs| ==> ',' !in ([xs[0]] + Prefixed(" ", xs[1..]))[i]
  {
    forall i | 0 < i < |xs| ensures ',' !in ([xs[0]] + Prefixed(" ", xs[1..]))[i] {
      assert ([xs[0]] + Prefixed(" ", xs[1..]))[i] == " " + xs[i];
    }
  }

  /** Every header item is unpadded and free of commas. */
  lemma HeaderItemsUnpadded(es: Params)
    ensures forall i :: 0 <= i < |es| ==> Unpadded(Items(es, true)[i]) && ',' !in Items(es, true)[i]
  {
    forall i | 0 <= i < |es| ensures Unpadded(Items(es, true)[i]) && ',' !in Items(es, true)[i] {
      QuotedPairUnpadded(es[i].0, es[i].1);
    }
  }

  /** A header of a list of properties reads back, by a server that splits it at the commas
      and trims each item, as that list. */
  lemma HeaderItemsRoundTrip(es: Params)
    ensures ParseHeader("OAuth " + Join(Items(es, true), ", ")) == Some(es)
  {
    var items := Items(es, true);
    var h := "OAuth " + Join(items, ", ");
    assert h[..6] == "OAuth " && h[6..] == Join(items, ", ");
    ParseItems(es, true);
    if items != [] {
      HeaderItemsUnpadded(es);
      var spaced := [items[0]] + Prefixed(" ", items[1..]);
      CommaSpace(items);
      IndentHasNoComma(items);
      SplitJoin(spaced, ',');
      TrimIndented(items);
      assert |items[0]| > 0;
    }
  }

  /** The header reads back, by a server that splits it at the commas and trims each item, as
      the parameters in ascending key order, every key and value as it was before encoding. */
  lemma HeaderRoundTrip(p: Params)
    ensures ParseHeader(HeaderString(p)) == Some(SortedParams(p))
  {
    HeaderItemsRoundTrip(SortedParams(p));
  }

  /** A string of three parts around two `&`, none of which contains `&`, splits back into them. */
  lemma SplitThree(a: string, b: string, c: string)
    requires '&' !in a && '&' !in b && '&' !in c
    ensures Split(a + "&" + b + "&" + c, '&') == [a, b, c]
  {
    var parts := [a, b, c];
    assert parts[1..] == [b, c];
    assert Join(parts[1..], "&") == b + "&" + c;
    assert Join(parts, "&") == a + "&" + (b + "&" + c);
    assert a + "&" + (b + "&" + c) == a + "&" + b + "&" + c;
    SplitJoin(parts, '&');
  }

  lemma EncodedHasNoAmpersand(s: string)
    ensures '&' !in Encode(s)
  {
    EncodedHasNoDelimiters(s);
  }

  /** The base string splits at its two `&` into the method and the encoded URL and parameter
      string; those decode back, and the parameter string reads back as the sorted parameters. */
  lemma BaseStringParts(httpMethod: string, url: string, p: Params)
    requires '&' !in httpMethod
    ensures Split(SignatureBase(httpMethod, url, p), '&') == [UpperAscii(httpMethod), Encode(url), Encode(ParameterString(p))]
    ensures Decode(Encode(url)) == Some(url) && Decode(Encode(ParameterString(p))) == Some(ParameterString(p))
    ensures ParseParameterString(ParameterString(p)) == Some(SortedParams(p))
  {
    var m := UpperAscii(httpMethod);
    assert '&' !in m;
    EncodedHasNoAmpersand(url);
    EncodedHasNoAmpersand(ParameterString(p));
    SplitThree(m, Encode(url), Encode(ParameterString(p)));
    DecodeEncode(url);
    DecodeEncode(ParameterString(p));
    ParameterStringRoundTrip(p);
  }

  /** Section 3.4.2 of RFC 5849: the key is the two encoded secrets around one `&`, so both
      secrets can be read back from it. */
  lemma SigningKeyParts(consumerSecret: string, tokenSecret: string)
    ensures Split(SigningKey(consumerSecret, tokenSecret), '&') == [Encode(consumerSecret), Encode(tokenSecret)]
    ensures Decode(Encode(consumerSecret)) == Some(consumerSecret) && Decode(Encode(tokenSecret)) == Some(tokenSecret)
  {
    EncodedHasNoDelimiters(consumerSecret);
    EncodedHasNoDelimiters(tokenSecret);
    SplitJoin([Encode(consumerSecret), Encode(tokenSecret)], '&');
    DecodeEncode(consumerSecret);
    DecodeEncode(tokenSecret);
  }

  /** The signature over the base string of the six signed parameters, their items in the
      order of the object literal. */
  function HeaderSignature(c: Credentials, crypto: Crypto, httpMethod: string, url: string,
                           nonce: string, timestamp: string): string
  {
    crypto.base64(crypto.hmacSha1(SigningKey(c.consumerSecret, c.accessTokenSecret),
      UpperAscii(httpMethod) + "&" + Encode(url) + "&" + Encode(Join(Items(OAuthParams(c, nonce, timestamp), false), "&"))))
  }

  /** The seven header parameters in ascending key order. */
  function HeaderEntries(c: Credentials, nonce: string, timestamp: string, sig: string): Params
  {
    [(CONSUMER_KEY, c.consumerKey), (NONCE, nonce), (SIGNATURE, sig), (SIGNATURE_METHOD, HMAC_SHA1),
     (TIMESTAMP, timestamp), (TOKEN, c.accessToken), (VERSION, ONE_POINT_ZERO)]
  }

  /** The header for a nonce and a clock reading: `OAuth ` and the items of the seven
      parameters in ascending key order, joined by `, `. */
  function SpecifiedHeader(c: Credentials, crypto: Crypto, httpMethod: string, url: string,
                           nonceBytes: seq<Byte>, nowMs: nat): string
  {
    var nonce, timestamp := HexLower(nonceBytes), Timestamp(nowMs);
    "OAuth " + Join(Items(HeaderEntries(c, nonce, timestamp, HeaderSignature(c, crypto, httpMethod, url, nonce, timestamp)), true), ", ")
  }

  /** `generateOAuthHeader`: signs the six parameters, adds the signature to the parameter
      object and renders all seven in ascending key order. A server that reads the header back
      finds the seven parameters with their original values. */
  method GenerateOAuthHeader(c: Credentials, crypto: Crypto, httpMethod: string, url: string,
                             nonceBytes: seq<Byte>, nowMs: nat) returns (header: string)
    ensures header == SpecifiedHeader(c, crypto, httpMethod, url, nonceBytes, nowMs)
    ensures ParseHeader(header) == Some(HeaderEntries(c, HexLower(nonceBytes), Timestamp(nowMs),
      HeaderSignature(c, crypto, httpMethod, url, HexLower(nonceBytes), Timestamp(nowMs))))
  {
    var nonce := HexLower(nonceBytes);
    var timestamp := Timestamp(nowMs);
    var params := OAuthParams(c, nonce, timestamp);
    var signature := Signature(crypto, httpMethod, url, params, c.consumerSecret, c.accessTokenSecret);
    SignedParameterString(c, nonce, timestamp);
    params := Put(params, SIGNATURE, signature);
    header := HeaderString(params);

    HeaderParamsSorted(c, nonce, timestamp, signature);
    HeaderRoundTrip(params);
  }
}
