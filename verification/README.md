# speedtest-cli: a Dafny model of the measurement engine and its front end

This project models the core of `speedtest-cli`, a command-line tool that measures
download and upload throughput over HTTP.

- **Download failover.** The tool tries a fixed, ordered list of three download
  endpoints. It returns the first successful attempt at once. It remembers the last
  error. It falls back to the error "All download servers failed" when no error was
  recorded.
- **One download attempt.** An attempt connects, checks that the status is 2xx, and
  streams the body. It adds each chunk's length to an unsigned 64-bit counter and
  aborts on the first chunk read error. On success it returns bytes divided by
  elapsed seconds.
- **Upload.** A single POST of a 5 MiB zero-filled payload. It fails on a connection
  error or a non-2xx status.
- **`test_both` and the commands.** The download then the upload, stopping at the
  first failure. The commands `start`, `download` and `upload` each build a result
  with an optional download rate and an optional upload rate.
- **Display units.** Conversion from bytes per second to bps, Kbps, Mbps or Gbps,
  and the labels of those units.

The HTTP transport is replaced by a scripted `Exchange` per request. An `Exchange`
holds either a connection failure or a status plus the sequence of body-stream items
(chunk lengths or read errors). It also holds the elapsed seconds of the request, a
positive `real`. The network is a function from URL to `Exchange`. Throughput is exact
`real` division.

Files:
- `errors.dfy` (module `Errors`): the error enum and a `Result` usable with `:-`. The
  original's `?` operator is modelled with `:-`.
- `speedtest.dfy` (module `SpeedTest`): the engine. `TryDownload` and `TestDownload`
  are methods with loops. Each is proved equal to a specification function
  (`DownloadOutcome`, `DownloadResult`), and the lemmas are stated over those
  functions. `TestUpload` and `TestBoth` are functions. `TestBoth` uses
  `DownloadResult`, the function the `TestDownload` method is proved to compute.
- `cli.dfy` (module `Cli`): units, labels, command-line unit names and the three
  commands.

`run_full_test`, `run_download_test` and `run_upload_test` call
`test_download_with_progress` and `test_upload_with_progress`, which
`src/speedtest.rs` does not define. The engine modelled here makes one download request
per endpoint and one upload request, and a failed upload fails the test.

## Model

| member | source | states |
|---|---|---|
| `SpeedTest.TestDownload` | src/speedtest.rs:31-51 | The failover returns `DownloadResult`: the first successful endpoint's value, else the last endpoint's error, else the generic error. The endpoints it attempts are exactly the list's prefix up to and including the first success. |
| `SpeedTest.FirstSuccess` | src/speedtest.rs:36-40 | Gives the index of the first endpoint whose attempt succeeds, or the list length if none does. Every endpoint before it failed. |
| `SpeedTest.DownloadOkIffSomeSuccess` | src/speedtest.rs:36-40 | Download succeeds iff some endpoint succeeds. Its value is then that of the last attempted endpoint, which is the first success, and every endpoint before it failed. |
| `SpeedTest.LaterEndpointsNeverAttempted` | src/speedtest.rs:36-40 | If endpoint i succeeds, at most i+1 endpoints are attempted and the download succeeds. |
| `SpeedTest.DownloadAllFailLastError` | src/speedtest.rs:41-48 | If every endpoint of a non-empty list fails, all of them are attempted and the result is the last endpoint's error. |
| `SpeedTest.AttemptNeverDefaultError` | src/speedtest.rs:55-78 | No single attempt yields `TestFailed("All download servers failed")`. Its errors are network errors or `TestFailed` messages that start with "Download request failed with status: ". |
| `SpeedTest.DefaultErrorOnlyForEmptyList` | src/speedtest.rs:48-50 | The generic error is returned iff the endpoint list is empty. |
| `SpeedTest.ConfiguredDefaultUnreachable` | src/speedtest.rs:8-12 | With the three configured URLs the generic error never comes out, and between 1 and 3 endpoints are attempted. |
| `SpeedTest.TryDownload` | src/speedtest.rs:53-91 | One attempt returns `DownloadOutcome`. The final counter is `Counter` at the first read error, or 0 if no body is read; `CounterIsSumMod` proves that is the chunk sum modulo 2^64. It reports how many stream items it pulled. |
| `SpeedTest.Status.Display` | src/speedtest.rs:64-67 | The status in an error message is the code's hundreds, tens and units digits, a space, then the reason phrase. |
| `SpeedTest.Decimal` | src/speedtest.rs:67 | The decimal rendering of the status code is a non-empty digit string that denotes the code (`DigitsValue(Decimal(n)) == n`). |
| `SpeedTest.Status.IsSuccess` | src/speedtest.rs:64 | A status is successful iff it is 2xx. Its contract is carried by `BadStatusFailsWithoutReading` and `UploadOutcomes`. |
| `SpeedTest.FirstReadError` | src/speedtest.rs:74-78 | Gives the position of the first read error in the body stream, or its length. Every item before it is a chunk. |
| `SpeedTest.WrappingAdd` | src/speedtest.rs:79 | `u64` addition: the sum modulo 2^64, and the plain sum when it does not overflow. |
| `SpeedTest.ConnectFailureAborts` | src/speedtest.rs:55-62 | A failed connection gives `NetworkError` with its cause. No stream item is read and no byte is counted. |
| `SpeedTest.BadStatusFailsWithoutReading` | src/speedtest.rs:64-69 | A non-2xx status fails with `TestFailed("Download request failed with status: " + status)`. Zero stream items are read and zero bytes are counted. |
| `SpeedTest.ReadErrorAborts` | src/speedtest.rs:74-78 | The first read error at position k aborts with that error as a network error. Exactly k+1 items were pulled. |
| `SpeedTest.SuccessCountsEveryChunk` | src/speedtest.rs:72-83 | A successful attempt read every item, and all were chunks. Throughput × elapsed equals the counted bytes, which are the chunk sum modulo 2^64. Below 2^64 they are exactly the sum of the chunk lengths. |
| `SpeedTest.SumLensMonotone` | src/speedtest.rs:72-80 | The running chunk total never decreases along the stream. |
| `SpeedTest.CounterIsSumMod` | src/speedtest.rs:72-79 | After any number of items, the wrapping counter is the chunk total modulo 2^64. |
| `SpeedTest.CounterExact` | src/speedtest.rs:79 | While the running total is below 2^64, the wrapping counter equals it. |
| `SpeedTest.CounterNeverDecreases` | src/speedtest.rs:72-80 | When the stream totals less than 2^64 bytes, the counter never decreases from one item to a later one, and it ends at the sum of all chunk lengths. |
| `SpeedTest.UploadPayload` | src/speedtest.rs:97-98 | The upload body is 5 × 1024 × 1024 bytes, all zero. |
| `SpeedTest.TestUpload` | src/speedtest.rs:94-125 | The upload succeeds iff the server answers with a 2xx status. On success, throughput × elapsed equals the payload size. |
| `SpeedTest.UploadOutcomes` | src/speedtest.rs:101-116 | A connection failure gives that network error. A non-2xx status gives `TestFailed("Upload request failed with status: " + status)`. A success gives throughput × elapsed = 5242880. The response body never affects the outcome. |
| `SpeedTest.DownloadDependsOnlyOnListed` | src/speedtest.rs:36-40 | Two networks that answer the listed endpoints alike give the same failover result and the same endpoints attempted. |
| `SpeedTest.TestBoth` | src/speedtest.rs:127-132 | Download, then upload to the fixed upload URL. It succeeds iff both succeed, with the pair (download, upload) in that order. |
| `SpeedTest.TestBothSequencing` | src/speedtest.rs:127-129 | A failed download gives that error, and the result is the same whatever the upload server would do. A failed upload after a successful download gives the upload's error. |
| `Cli.SpeedUnit.Convert` | src/cli.rs:70-78 | Bytes per second times 8, divided by 1, 1e3, 1e6 or 1e9. Its contract is carried by `ConvertIsScaledBitRate`, `ConvertMbpsExample`, `AdjacentUnitsDifferBy1000` and `ConvertZeroSignMonotone`. |
| `Cli.ConvertIsScaledBitRate` | src/cli.rs:70-78 | For every unit, converted value × 1000^k = 8 × bytes per second, where k is 0, 1, 2 or 3 for bps, Kbps, Mbps or Gbps. |
| `Cli.ConvertMbpsExample` | src/cli.rs:71-75 | 125000 bytes/s is exactly 1.0 Mbps. |
| `Cli.AdjacentUnitsDifferBy1000` | src/cli.rs:73-76 | bps = 1000 × Kbps, Kbps = 1000 × Mbps, Mbps = 1000 × Gbps for every input. |
| `Cli.ConvertZeroSignMonotone` | src/cli.rs:70-77 | Every unit maps 0 to 0, non-negative rates to non-negative values, and is monotone. |
| `Cli.SpeedUnit.AsStr` | src/cli.rs:80-87 | The labels "bps", "Kbps", "Mbps", "Gbps". Its contract is carried by `LabelsDistinct`. |
| `Cli.LabelsDistinct` | src/cli.rs:80-87 | The labels "bps", "Kbps", "Mbps", "Gbps" are pairwise distinct: equal labels mean equal units. |
| `Cli.SpeedUnit.ValueName` | src/cli.rs:57-67 | The command-line names "bps", "kbps", "mbps", "gbps". Its contract is carried by `ParseUnitRoundTrip`. |
| `Cli.ParseUnit` | src/cli.rs:57-67 | The unit a command-line name selects, or none. Its contract is carried by `ParseUnitRoundTrip`. |
| `Cli.ParseUnitRoundTrip` | src/cli.rs:57-67 | Each unit's command-line name parses back to it, and only that name parses to it. The printed label equals the command-line name only for bps. |
| `Cli.RunFullTest` | src/cli.rs:90-109 | Download, then upload, stopping at the first failure. Its contract is carried by `FullTestSequencing`. |
| `Cli.RunDownloadTest` | src/cli.rs:111-120 | The download rate alone. Its contract is carried by `SingleTestsFillOneField`. |
| `Cli.RunUploadTest` | src/cli.rs:122-129 | The upload rate alone. Its contract is carried by `SingleTestsFillOneField`. |
| `Cli.Execute` | src/cli.rs:23-42 | Dispatches `start`, `download` and `upload` to their runners and passes the error through. Its contract is carried by `FullTestSequencing` and `SingleTestsFillOneField`. |
| `Cli.FullTestSequencing` | src/cli.rs:90-109 | `start` fails with the download error when the download fails, whatever the upload gives. Otherwise it fails with the upload error, or succeeds with both rates present in their fields. |
| `Cli.SingleTestsFillOneField` | src/cli.rs:111-129 | `download` returns (Some(download), None) and never depends on the upload. `upload` returns (None, Some(upload)) and never depends on the download. Each fails iff its own test fails. |

## Left out

- HTTP transport (the client, its 30-second request timeout, connection reuse, body streaming): replaced by a scripted `Exchange` per request.
- Wall-clock timing: elapsed seconds are an input of each `Exchange`. The case of zero elapsed time, where the original divides by zero and produces a non-finite float, is excluded by the positive `Seconds` type.
- Floating point: throughput and unit conversion are exact `real` arithmetic. The rounding of `u64` to `f64` and of the `f64` divisions is not modelled.
- `SpeedTest.WrappingAdd`: models the release-build behaviour of the `u64` counter, which wraps. A debug build panics on overflow instead. Either case needs at least 2^64 bytes in one response.
- The status text in the error messages is rendered as the code in decimal, a space, and the reason phrase. The reason phrase comes from the HTTP library and is a field of the scripted status here.
- The progress-reporting download and upload tests that `run_full_test`, `run_download_test` and `run_upload_test` call are not part of this model. Their results are inputs of `RunFullTest`, `RunDownloadTest`, `RunUploadTest` and `Execute`. Progress bars and progress callbacks are left out with them.
- The `--unit` option and its `Mbps` default are declared at src/cli.rs:15-16 and parsed by clap, which is left out. `ParseUnit` models only clap's case-sensitive matching of the four value names.
- Terminal output (success and error printing, colours), logging, argument parsing beyond the unit names, and process exit: I/O and plumbing.
- Async execution: the original awaits each request in sequence, so the model uses ordinary sequential calls.
- The display text of the error enum is not modelled; only the variants and their payloads are.
