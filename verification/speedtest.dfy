/** The measurement engine: download failover over a fixed list of endpoints, one
    streamed download attempt with its byte counter, the single-request upload, and
    the download-then-upload sequence.

    The HTTP client is replaced by a scripted `Exchange` per request: what the server
    answered (or that the connection failed), the chunks the body stream yields, and
    the wall-clock seconds the attempt took. */
module SpeedTest {
  import opened Errors

  // ---------------------------------------------------------------------------
  // Constants
  // ---------------------------------------------------------------------------

  type Url = string

  /** The download endpoints, in the order they are tried. */
  const DOWNLOAD_TEST_URLS: seq<Url> := [
    "https://speed.cloudflare.com/__down?bytes=10000000",
    "https://proof.ovh.net/files/10Mb.dat",
    "http://speedtest.ftp.otenet.gr/files/test10Mb.db"
  ]

  const UPLOAD_TEST_URL: Url := "https://httpbin.org/post"

  /** Size of the upload payload, in mebibytes. */
  const UPLOAD_SIZE_MB: nat := 5

  /** The error returned when the endpoint list yields no error to report. */
  const ALL_DOWNLOADS_FAILED: string := "All download servers failed"

  const DOWNLOAD_STATUS_PREFIX: string := "Download request failed with status: "
  const UPLOAD_STATUS_PREFIX: string := "Upload request failed with status: "

  /** The byte counter of a download attempt is an unsigned 64-bit integer. */
  const U64_MODULUS: nat := 0x1_0000_0000_0000_0000
  type U64 = n: nat | n < U64_MODULUS

  /** Elapsed wall-clock time of one request, in seconds; always positive here. */
  type Seconds = t: real | t > 0.0 witness 1.0

  // ---------------------------------------------------------------------------
  // Scripted transport
  // ---------------------------------------------------------------------------

  /** An HTTP status code as the HTTP library represents it (three digits). */
  type StatusCode = c: nat | 100 <= c <= 999 witness 200

  /** A response status: its code and the reason phrase the HTTP library prints
      after it. */
  datatype Status = Status(code: StatusCode, reason: string) {

    /** The 2xx class. */
    predicate IsSuccess() {
      200 <= code <= 299
    }

    /** The status as it appears in an error message: the code in decimal, a
        space, the reason phrase. */
    function Display(): (s: string)
      ensures |Decimal(code)| == 3
      ensures |s| == 4 + |reason| && s[..3] == Decimal(code) && s[3] == ' ' && s[4..] == reason
      ensures s[0] == Digit(code / 100) && s[1] == Digit(code / 10 % 10) && s[2] == Digit(code % 10)
    {
      var n: nat := code;
      assert Decimal(n) == Decimal(n / 10) + [Digit(n % 10)];
      assert Decimal(n / 10) == Decimal(n / 100) + [Digit(n / 10 % 10)];
      DecimalThreeDigits(code);
      Decimal(code) + " " + reason
    }
  }

  /** One item of a response body stream: a chunk of `len` bytes, or a read error. */
  datatype ChunkRead = Chunk(len: U64) | ReadError(cause: string)

  /** What sending one request produced: a transport failure before any response,
      or a status line followed by a body stream. */
  datatype Response =
    | ConnectFailed(cause: string)
    | Received(status: Status, body: seq<ChunkRead>)

  /** One scripted request: its response and the seconds measured for it. */
  datatype Exchange = Exchange(response: Response, elapsed: Seconds)

  function Digit(d: nat): (c: char)
    requires d < 10
    ensures '0' <= c <= '9'
  {
    ('0' as int + d) as char
  }

  /** The number a string of decimal digits denotes, most significant digit first. */
  function DigitsValue(s: string): nat
    requires forall i :: 0 <= i < |s| ==> '0' <= s[i] <= '9'
  {
    if |s| == 0 then 0
    else DigitsValue(s[..|s| - 1]) * 10 + (s[|s| - 1] as int - '0' as int)
  }

  /** The decimal rendering of a natural number, most significant digit first: a
      non-empty string of digits that denotes `n`. */
  function Decimal(n: nat): (s: string)
    ensures |s| > 0
    ensures forall i :: 0 <= i < |s| ==> '0' <= s[i] <= '9'
    ensures n < 10 <==> |s| == 1
    ensures DigitsValue(s) == n
  {
    if n < 10 then [Digit(n)]
    else
      var prefix := Decimal(n / 10);
      var s := prefix + [Digit(n % 10)];
      assert s[..|s| - 1] == prefix;
      s
  }

  /** A status code in [100, 999] is written with exactly three digits. */
  lemma DecimalThreeDigits(n: nat)
    requires 100 <= n <= 999
    ensures |Decimal(n)| == 3
  {
  }

  // ---------------------------------------------------------------------------
  // One download attempt
  // ---------------------------------------------------------------------------

  /** The index at which the body stream first yields a read error, or the length
      of the body when every item is a chunk. */
  function FirstReadError(body: seq<ChunkRead>): (k: nat)
    ensures k <= |body|
    ensures k < |body| ==> body[k].ReadError?
    ensures forall j :: 0 <= j < k ==> body[j].Chunk?
  {
    if |body| == 0 then 0
    else if body[0].ReadError? then 0
    else 1 + FirstReadError(body[1..])
  }

  /** Byte length of a stream item; a read error carries no bytes. */
  function LenOf(c: ChunkRead): U64 {
    if c.Chunk? then c.len else 0
  }

  /** Total length of the chunks in a stream prefix, in unbounded arithmetic. */
  function SumLens(items: seq<ChunkRead>): nat {
    if |items| == 0 then 0 else SumLens(items[..|items| - 1]) + LenOf(items[|items| - 1])
  }

  /** Unsigned 64-bit addition, wrapping on overflow. */
  function WrappingAdd(a: U64, b: U64): (r: U64)
    ensures r == (a + b) % U64_MODULUS
    ensures a + b < U64_MODULUS ==> r == a + b
  {
    if a + b < U64_MODULUS then a + b else a + b - U64_MODULUS
  }

  /** Value of the 64-bit byte counter after the lengths of the first `i` items of
      `body` were added to it one by one. */
  function Counter(body: seq<ChunkRead>, i: nat): U64
    requires i <= |body|
  {
    if i == 0 then 0 else WrappingAdd(Counter(body, i - 1), LenOf(body[i - 1]))
  }

  /** What one download attempt returns: the connection error; a TestFailed error
      naming a non-2xx status; the first read error of the body stream; or, when the
      whole body was read, the bytes counted divided by the seconds elapsed. */
  function DownloadOutcome(ex: Exchange): Result<real> {
    match ex.response
    case ConnectFailed(cause) => Err(NetworkError(cause))
    case Received(status, body) =>
      if !status.IsSuccess() then
        Err(TestFailed(DOWNLOAD_STATUS_PREFIX + status.Display()))
      else
        var k := FirstReadError(body);
        if k < |body| then Err(NetworkError(body[k].cause))
        else Ok(Counter(body, |body|) as real / ex.elapsed)
  }

  /** How many items of the body stream a download attempt pulls: none when the
      connection or the status fails, up to and including the first read error,
      otherwise the whole stream. */
  function ItemsPulled(ex: Exchange): nat {
    match ex.response
    case ConnectFailed(_) => 0
    case Received(status, body) =>
      if !status.IsSuccess() then 0
      else
        var k := FirstReadError(body);
        if k < |body| then k + 1 else |body|
  }

  /** The byte counter when a download attempt stops: 0 when no body is read,
      otherwise the wrapped sum of the chunks before the first read error. */
  function BytesCounted(ex: Exchange): U64 {
    match ex.response
    case ConnectFailed(_) => 0
    case Received(status, body) =>
      if !status.IsSuccess() then 0 else Counter(body, FirstReadError(body))
  }

  lemma SumLensAppend(items: seq<ChunkRead>, i: nat)
    requires i < |items|
    ensures SumLens(items[..i + 1]) == SumLens(items[..i]) + LenOf(items[i])
  {
    assert items[..i + 1][..i] == items[..i];
  }

  /** One download attempt: connect, check the status, then read the body stream
      chunk by chunk into a 64-bit counter, aborting on the first read error.
      Returns the attempt's result, the final counter and the number of stream
      items pulled. */
  method TryDownload(ex: Exchange) returns (r: Result<real>, total: U64, pulled: nat)
    ensures r == DownloadOutcome(ex)
    ensures total == BytesCounted(ex)
    ensures pulled == ItemsPulled(ex)
  {
    match ex.response
    case ConnectFailed(cause) =>
      return Err(NetworkError(cause)), 0, 0;
    case Received(status, body) =>
      if !status.IsSuccess() {
        return Err(TestFailed(DOWNLOAD_STATUS_PREFIX + status.Display())), 0, 0;
      }
      total := 0;
      var i := 0;
      while i < |body|
        invariant i <= FirstReadError(body)
        invariant total == Counter(body, i)
      {
        match body[i]
        case ReadError(cause) =>
          return Err(NetworkError(cause)), total, i + 1;
        case Chunk(len) =>
          total := WrappingAdd(total, len);
          i := i + 1;
      }
      r := Ok(total as real / ex.elapsed);
      pulled := |body|;
  }

  // ---------------------------------------------------------------------------
  // Endpoint failover
  // ---------------------------------------------------------------------------

  /** Index of the first endpoint whose attempt succeeds, or |urls| if none does. */
  function FirstSuccess(urls: seq<Url>, net: Url -> Exchange): (k: nat)
    ensures k <= |urls|
    ensures k < |urls| ==> DownloadOutcome(net(urls[k])).Ok?
    ensures forall j :: 0 <= j < k ==> DownloadOutcome(net(urls[j])).Err?
  {
    if |urls| == 0 then 0
    else if DownloadOutcome(net(urls[0])).Ok? then 0
    else 1 + FirstSuccess(urls[1..], net)
  }

  /** What the failover returns: the first successful attempt's result; else the
      last endpoint's error; else, for an empty list, the generic failure. */
  function DownloadResult(urls: seq<Url>, net: Url -> Exchange): Result<real> {
    var k := FirstSuccess(urls, net);
    if k < |urls| then DownloadOutcome(net(urls[k]))
    else if |urls| > 0 then DownloadOutcome(net(urls[|urls| - 1]))
    else Err(TestFailed(ALL_DOWNLOADS_FAILED))
  }

  /** How many endpoints the failover attempts: up to and including the first
      success, or all of them. */
  function AttemptCount(urls: seq<Url>, net: Url -> Exchange): (n: nat)
    ensures n <= |urls|
  {
    var k := FirstSuccess(urls, net);
    if k < |urls| then k + 1 else |urls|
  }

  /** The download test: try each endpoint in order, return the first success at
      once, remember the last error, and fall back to a generic error when there was
      none. `tried` lists the endpoints attempted, in order. The configured run uses
      `DOWNLOAD_TEST_URLS` for `urls`. */
  method TestDownload(urls: seq<Url>, net: Url -> Exchange) returns (r: Result<real>, tried: seq<Url>)
    ensures r == DownloadResult(urls, net)
    ensures tried == urls[..AttemptCount(urls, net)]
  {
    var lastError: Option<SpeedTestError> := None;
    tried := [];
    var i := 0;
    while i < |urls|
      invariant i <= FirstSuccess(urls, net)
      invariant tried == urls[..i]
      invariant i == 0 <==> lastError == None
      invariant i > 0 ==> lastError == Some(DownloadOutcome(net(urls[i - 1])).error)
    {
      tried := tried + [urls[i]];
      var attempt, _, _ := TryDownload(net(urls[i]));
      match attempt
      case Ok(speed) =>
        return Ok(speed), tried;
      case Err(e) =>
        lastError := Some(e);
        i := i + 1;
    }
    assert tried == urls[..|urls|];
    match lastError
    case Some(e) => r := Err(e);
    case None => r := Err(TestFailed(ALL_DOWNLOADS_FAILED));
  }

  /** The failover succeeds exactly when some endpoint's attempt succeeds, and then
      returns the value of the first such endpoint; every earlier endpoint failed. */
  lemma DownloadOkIffSomeSuccess(urls: seq<Url>, net: Url -> Exchange)
    ensures DownloadResult(urls, net).Ok? <==>
            exists i :: 0 <= i < |urls| && DownloadOutcome(net(urls[i])).Ok?
    ensures DownloadResult(urls, net).Ok? ==>
            var k := AttemptCount(urls, net) - 1;
            0 <= k < |urls| &&
            DownloadResult(urls, net) == DownloadOutcome(net(urls[k])) &&
            forall j :: 0 <= j < k ==> DownloadOutcome(net(urls[j])).Err?
  {
  }

  /** When every endpoint fails, the failover attempts all of them and returns the
      error of the last one in the list. */
  lemma DownloadAllFailLastError(urls: seq<Url>, net: Url -> Exchange)
    requires |urls| > 0
    requires forall i :: 0 <= i < |urls| ==> DownloadOutcome(net(urls[i])).Err?
    ensures DownloadResult(urls, net) == DownloadOutcome(net(urls[|urls| - 1]))
    ensures AttemptCount(urls, net) == |urls|
  {
  }

  /** The failover's attempts are a prefix of the list: an endpoint after the first
      success is never attempted. */
  lemma LaterEndpointsNeverAttempted(urls: seq<Url>, net: Url -> Exchange, i: nat)
    requires i < |urls| && DownloadOutcome(net(urls[i])).Ok?
    ensures AttemptCount(urls, net) <= i + 1
    ensures DownloadResult(urls, net).Ok?
  {
  }

  /** No single download attempt produces the generic "all servers failed" error:
      its errors are network errors or a TestFailed message that starts with the
      download status prefix. */
  lemma AttemptNeverDefaultError(ex: Exchange)
    ensures DownloadOutcome(ex) != Err(TestFailed(ALL_DOWNLOADS_FAILED))
    ensures DownloadOutcome(ex).Err? ==>
            DownloadOutcome(ex).error.NetworkError? ||
            (DownloadOutcome(ex).error.TestFailed? &&
             DOWNLOAD_STATUS_PREFIX <= DownloadOutcome(ex).error.message)
  {
  }

  /** The generic error comes out of the failover exactly when the endpoint list is
      empty. */
  lemma DefaultErrorOnlyForEmptyList(urls: seq<Url>, net: Url -> Exchange)
    ensures DownloadResult(urls, net) == Err(TestFailed(ALL_DOWNLOADS_FAILED)) <==> |urls| == 0
  {
    var k := FirstSuccess(urls, net);
    if k < |urls| {
      AttemptNeverDefaultError(net(urls[k]));
    } else if |urls| > 0 {
      AttemptNeverDefaultError(net(urls[|urls| - 1]));
    }
  }

  /** With the three configured endpoints the generic error is unreachable, and at
      least one endpoint is always attempted. */
  lemma ConfiguredDefaultUnreachable(net: Url -> Exchange)
    ensures DownloadResult(DOWNLOAD_TEST_URLS, net) != Err(TestFailed(ALL_DOWNLOADS_FAILED))
    ensures 1 <= AttemptCount(DOWNLOAD_TEST_URLS, net) <= 3
  {
    DefaultErrorOnlyForEmptyList(DOWNLOAD_TEST_URLS, net);
  }

  // ---------------------------------------------------------------------------
  // Facts about one download attempt
  // ---------------------------------------------------------------------------

  /** A failed connection fails the attempt with that network error, before any
      body item is read or any byte is counted. */
  lemma ConnectFailureAborts(ex: Exchange)
    requires ex.response.ConnectFailed?
    ensures DownloadOutcome(ex) == Err(NetworkError(ex.response.cause))
    ensures ItemsPulled(ex) == 0 && BytesCounted(ex) == 0
  {
  }

  /** A non-2xx status fails the attempt with TestFailed, naming the status, and no
      body item is read. */
  lemma BadStatusFailsWithoutReading(ex: Exchange)
    requires ex.response.Received? && !ex.response.status.IsSuccess()
    ensures DownloadOutcome(ex).Err? && DownloadOutcome(ex).error.TestFailed?
    ensures DownloadOutcome(ex).error.message
            == DOWNLOAD_STATUS_PREFIX + ex.response.status.Display()
    ensures ItemsPulled(ex) == 0 && BytesCounted(ex) == 0
  {
  }

  /** A read error aborts the attempt with that (first) error: no throughput is
      produced, and no item after it is pulled. */
  lemma ReadErrorAborts(ex: Exchange, k: nat)
    requires ex.response.Received? && ex.response.status.IsSuccess()
    requires k < |ex.response.body| && ex.response.body[k].ReadError?
    requires forall j :: 0 <= j < k ==> ex.response.body[j].Chunk?
    ensures DownloadOutcome(ex) == Err(NetworkError(ex.response.body[k].cause))
    ensures ItemsPulled(ex) == k + 1
  {
  }

  /** A successful attempt read every item of the body, and its throughput times the
      elapsed seconds is the byte count: the chunk total modulo 2^64, which is the
      total itself when the chunks total less than 2^64 bytes. */
  lemma SuccessCountsEveryChunk(ex: Exchange)
    requires DownloadOutcome(ex).Ok?
    ensures ex.response.Received? && ex.response.status.IsSuccess()
    ensures forall j :: 0 <= j < |ex.response.body| ==> ex.response.body[j].Chunk?
    ensures ItemsPulled(ex) == |ex.response.body|
    ensures DownloadOutcome(ex).value * ex.elapsed == BytesCounted(ex) as real
    ensures BytesCounted(ex) == SumLens(ex.response.body) % U64_MODULUS
    ensures SumLens(ex.response.body) < U64_MODULUS ==>
            BytesCounted(ex) == SumLens(ex.response.body)
  {
    var body := ex.response.body;
    assert body[..|body|] == body;
    CounterIsSumMod(body, |body|);
    if SumLens(body) < U64_MODULUS {
      CounterExact(body, |body|);
    }
  }

  /** Chunk totals never decrease along the stream. */
  lemma {:induction false} SumLensMonotone(body: seq<ChunkRead>, i: nat, j: nat)
    requires i <= j <= |body|
    ensures SumLens(body[..i]) <= SumLens(body[..j])
    decreases j - i
  {
    if i < j {
      SumLensAppend(body, i);
      SumLensMonotone(body, i + 1, j);
    }
  }

  /** The wrapping counter is the chunk total modulo 2^64. */
  lemma {:induction false} CounterIsSumMod(body: seq<ChunkRead>, i: nat)
    requires i <= |body|
    ensures Counter(body, i) == SumLens(body[..i]) % U64_MODULUS
  {
    if i > 0 {
      SumLensAppend(body, i - 1);
      CounterIsSumMod(body, i - 1);
    }
  }

  /** Below 2^64 the wrapping counter is the exact chunk total. */
  lemma {:induction false} CounterExact(body: seq<ChunkRead>, i: nat)
    requires i <= |body|
    requires SumLens(body[..i]) < U64_MODULUS
    ensures Counter(body, i) == SumLens(body[..i])
  {
    if i > 0 {
      SumLensAppend(body, i - 1);
      CounterExact(body, i - 1);
    }
  }

  /** While the stream total stays below 2^64 the byte counter never decreases from
      one item to a later one, and ends at the sum of all chunk lengths. */
  lemma CounterNeverDecreases(body: seq<ChunkRead>, i: nat, j: nat)
    requires i <= j <= |body|
    requires SumLens(body) < U64_MODULUS
    ensures Counter(body, i) <= Counter(body, j)
    ensures Counter(body, |body|) == SumLens(body)
  {
    assert body[..|body|] == body;
    SumLensMonotone(body, i, j);
    SumLensMonotone(body, j, |body|);
    CounterExact(body, i);
    CounterExact(body, j);
    CounterExact(body, |body|);
  }

  // ---------------------------------------------------------------------------
  // Upload and the combined test
  // ---------------------------------------------------------------------------

  /** The upload body: UPLOAD_SIZE_MB mebibytes of zero bytes. */
  function UploadPayload(): (data: seq<bv8>)
    ensures |data| == 5 * 1024 * 1024
    ensures forall i :: 0 <= i < |data| ==> data[i] == 0
  {
    seq(UPLOAD_SIZE_MB * 1024 * 1024, _ => 0)
  }

  /** The upload test: one POST of the payload to UPLOAD_TEST_URL, whose outcome is
      `ex`. It succeeds exactly when the server answers with a 2xx status, and then
      its throughput times the elapsed seconds is the payload size. The response
      body is not read. */
  function TestUpload(ex: Exchange): (r: Result<real>)
    ensures r.Ok? <==> ex.response.Received? && ex.response.status.IsSuccess()
    ensures r.Ok? ==> r.value * ex.elapsed == |UploadPayload()| as real
  {
    match ex.response
    case ConnectFailed(cause) => Err(NetworkError(cause))
    case Received(status, _) =>
      if !status.IsSuccess() then Err(TestFailed(UPLOAD_STATUS_PREFIX + status.Display()))
      else Ok(|UploadPayload()| as real / ex.elapsed)
  }

  /** A connection error fails the upload with that network error, a non-2xx status
      with a TestFailed error naming it; the payload is 5242880 bytes; the response
      body never affects the outcome. */
  lemma UploadOutcomes(ex: Exchange, otherBody: seq<ChunkRead>)
    ensures ex.response.ConnectFailed? ==> TestUpload(ex) == Err(NetworkError(ex.response.cause))
    ensures ex.response.Received? && !ex.response.status.IsSuccess() ==>
            TestUpload(ex) == Err(TestFailed(UPLOAD_STATUS_PREFIX + ex.response.status.Display()))
    ensures TestUpload(ex).Ok? ==> TestUpload(ex).value * ex.elapsed == 5242880.0
    ensures ex.response.Received? ==>
            TestUpload(ex) == TestUpload(Exchange(Received(ex.response.status, otherBody), ex.elapsed))
  {
  }

  /** Whether two networks give the same answer at every endpoint of a list. */
  predicate AgreeOn(urls: seq<Url>, net: Url -> Exchange, net2: Url -> Exchange) {
    forall i :: 0 <= i < |urls| ==> net(urls[i]) == net2(urls[i])
  }

  /** The failover depends only on the answers of the listed endpoints. */
  lemma {:induction false} DownloadDependsOnlyOnListed(urls: seq<Url>, net: Url -> Exchange, net2: Url -> Exchange)
    requires AgreeOn(urls, net, net2)
    ensures FirstSuccess(urls, net) == FirstSuccess(urls, net2)
    ensures DownloadResult(urls, net) == DownloadResult(urls, net2)
    ensures AttemptCount(urls, net) == AttemptCount(urls, net2)
  {
    if |urls| > 0 {
      assert net(urls[0]) == net2(urls[0]);
      assert AgreeOn(urls[1..], net, net2) by {
        forall i | 0 <= i < |urls| - 1 ensures net(urls[1..][i]) == net2(urls[1..][i]) {
          assert urls[1..][i] == urls[i + 1];
        }
      }
      DownloadDependsOnlyOnListed(urls[1..], net, net2);
    }
  }

  /** The combined test: the download over `urls`, then the upload to
      UPLOAD_TEST_URL; the first failure is returned as is. It succeeds exactly when
      both do, with the pair (download, upload). */
  function TestBoth(urls: seq<Url>, net: Url -> Exchange): (r: Result<(real, real)>)
    ensures r.Ok? <==> DownloadResult(urls, net).Ok? && TestUpload(net(UPLOAD_TEST_URL)).Ok?
    ensures r.Ok? ==> r.value == (DownloadResult(urls, net).value, TestUpload(net(UPLOAD_TEST_URL)).value)
  {
    var download :- DownloadResult(urls, net);
    var up :- TestUpload(net(UPLOAD_TEST_URL));
    Ok((download, up))
  }

  /** A failed download ends the combined test with that error, and then the result
      is the same for every network that answers the download endpoints alike,
      whatever the upload server would do; a failed upload after a successful
      download gives the upload's error. */
  lemma {:induction false} TestBothSequencing(urls: seq<Url>, net: Url -> Exchange, net2: Url -> Exchange)
    ensures DownloadResult(urls, net).Err? ==>
            TestBoth(urls, net) == Err(DownloadResult(urls, net).error)
    ensures DownloadResult(urls, net).Err? && AgreeOn(urls, net, net2) ==>
            TestBoth(urls, net2) == TestBoth(urls, net)
    ensures DownloadResult(urls, net).Ok? && TestUpload(net(UPLOAD_TEST_URL)).Err? ==>
            TestBoth(urls, net) == Err(TestUpload(net(UPLOAD_TEST_URL)).error)
  {
    if AgreeOn(urls, net, net2) {
      DownloadDependsOnlyOnListed(urls, net, net2);
    }
  }
}
