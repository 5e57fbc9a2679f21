/** The command-line layer: the display units with their conversion from bytes per
    second and their labels, and the three commands that run the tests and gather
    their results. */
module Cli {
  import opened Errors

  /** The unit a throughput is shown in. */
  datatype SpeedUnit = Bps | Kbps | Mbps | Gbps {

    /** Bytes per second to this unit: times 8 to get bits per second, then divided
        by 1, 1e3, 1e6 or 1e9. */
    function Convert(bytesPerSecond: real): real {
      var bitsPerSecond := bytesPerSecond * 8.0;
      match this
      case Bps => bitsPerSecond
      case Kbps => bitsPerSecond / 1_000.0
      case Mbps => bitsPerSecond / 1_000_000.0
      case Gbps => bitsPerSecond / 1_000_000_000.0
    }

    /** The label printed after a converted value. */
    function AsStr(): string {
      match this
      case Bps => "bps"
      case Kbps => "Kbps"
      case Mbps => "Mbps"
      case Gbps => "Gbps"
    }

    /** The name that selects this unit on the command line. */
    function ValueName(): string {
      match this
      case Bps => "bps"
      case Kbps => "kbps"
      case Mbps => "mbps"
      case Gbps => "gbps"
    }

    /** The SI prefix power of the unit: the divisor of the bit rate is 1000 to this
        power. */
    function Exponent(): nat {
      match this
      case Bps => 0
      case Kbps => 1
      case Mbps => 2
      case Gbps => 3
    }
  }

  /** The unit named by a command-line value, if any. */
  function ParseUnit(s: string): Option<SpeedUnit> {
    if s == "bps" then Some(Bps)
    else if s == "kbps" then Some(Kbps)
    else if s == "mbps" then Some(Mbps)
    else if s == "gbps" then Some(Gbps)
    else None
  }

  function Pow1000(e: nat): (p: real)
    ensures p >= 1.0
  {
    if e == 0 then 1.0 else 1000.0 * Pow1000(e - 1)
  }

  /** Every unit is the bit rate scaled down by 1000 to its SI prefix power. */
  lemma {:induction false} ConvertIsScaledBitRate(u: SpeedUnit, b: real)
    ensures u.Convert(b) * Pow1000(u.Exponent()) == 8.0 * b
  {
    match u
    case Bps =>
    case Kbps =>
    case Mbps =>
      assert Pow1000(2) == 1_000_000.0 by { assert Pow1000(1) == 1000.0; }
    case Gbps =>
      assert Pow1000(3) == 1_000_000_000.0 by {
        assert Pow1000(1) == 1000.0;
        assert Pow1000(2) == 1_000_000.0;
      }
  }

  /** 125000 bytes per second are one megabit per second. */
  lemma ConvertMbpsExample()
    ensures Mbps.Convert(125000.0) == 1.0
  {
  }

  /** Adjacent units differ by a factor of 1000. */
  lemma AdjacentUnitsDifferBy1000(b: real)
    ensures Bps.Convert(b) == 1000.0 * Kbps.Convert(b)
    ensures Kbps.Convert(b) == 1000.0 * Mbps.Convert(b)
    ensures Mbps.Convert(b) == 1000.0 * Gbps.Convert(b)
  {
  }

  /** Conversion maps 0 to 0, keeps non-negative rates non-negative and preserves
      their order, in every unit. */
  lemma ConvertZeroSignMonotone(u: SpeedUnit, a: real, b: real)
    ensures u.Convert(0.0) == 0.0
    ensures a >= 0.0 ==> u.Convert(a) >= 0.0
    ensures a <= b ==> u.Convert(a) <= u.Convert(b)
  {
  }

  /** The four labels are pairwise distinct. */
  lemma LabelsDistinct(u: SpeedUnit, v: SpeedUnit)
    ensures u.AsStr() == v.AsStr() <==> u == v
  {
  }

  /** Parsing a unit's command-line name gives the unit back, and only those four
      names parse. The printed label differs from the command-line name for every
      unit but bps. */
  lemma ParseUnitRoundTrip(u: SpeedUnit, s: string)
    ensures ParseUnit(u.ValueName()) == Some(u)
    ensures ParseUnit(s) == Some(u) ==> s == u.ValueName()
    ensures u.AsStr() == u.ValueName() <==> u == Bps
  {
  }

  // ---------------------------------------------------------------------------
  // Commands
  // ---------------------------------------------------------------------------

  datatype Command = Start | Download | Upload

  /** The rates a command measured, in bytes per second; a test not run is None. */
  datatype SpeedTestResult = SpeedTestResult(downloadSpeed: Option<real>, uploadSpeed: Option<real>)

  /** `start`: the download test, then the upload test; the first failure is
      returned as is. `download` and `upload` are what the two progress-reporting
      tests return. */
  function RunFullTest(download: Result<real>, upload: Result<real>): Result<SpeedTestResult> {
    var d :- download;
    var u :- upload;
    Ok(SpeedTestResult(Some(d), Some(u)))
  }

  /** `download`: the download test alone. */
  function RunDownloadTest(download: Result<real>): Result<SpeedTestResult> {
    var d :- download;
    Ok(SpeedTestResult(Some(d), None))
  }

  /** `upload`: the upload test alone. */
  function RunUploadTest(upload: Result<real>): Result<SpeedTestResult> {
    var u :- upload;
    Ok(SpeedTestResult(None, Some(u)))
  }

  /** The command dispatch of the front end. */
  function Execute(cmd: Command, download: Result<real>, upload: Result<real>): Result<SpeedTestResult> {
    match cmd
    case Start => RunFullTest(download, upload)
    case Download => RunDownloadTest(download)
    case Upload => RunUploadTest(upload)
  }

  /** A failed download ends `start` with that error whatever the upload would
      give; a successful `start` carries both rates, in their fields. */
  lemma FullTestSequencing(download: Result<real>, upload: Result<real>, other: Result<real>)
    ensures download.Err? ==>
            RunFullTest(download, upload) == Err(download.error) &&
            RunFullTest(download, upload) == RunFullTest(download, other)
    ensures download.Ok? && upload.Err? ==> RunFullTest(download, upload) == Err(upload.error)
    ensures RunFullTest(download, upload).Ok? <==> download.Ok? && upload.Ok?
    ensures RunFullTest(download, upload).Ok? ==>
            RunFullTest(download, upload).value
            == SpeedTestResult(Some(download.value), Some(upload.value))
  {
  }

  /** The single-test commands fill only their own field and fail with their test's
      error; each ignores the other test entirely. */
  lemma SingleTestsFillOneField(download: Result<real>, upload: Result<real>, other: Result<real>)
    ensures Execute(Download, download, upload) == Execute(Download, download, other)
    ensures Execute(Upload, download, upload) == Execute(Upload, other, upload)
    ensures Execute(Download, download, upload).Ok? ==>
            Execute(Download, download, upload).value == SpeedTestResult(Some(download.value), None)
    ensures Execute(Upload, download, upload).Ok? ==>
            Execute(Upload, download, upload).value == SpeedTestResult(None, Some(upload.value))
    ensures Execute(Download, download, upload).Err? <==> download.Err?
    ensures Execute(Upload, download, upload).Err? <==> upload.Err?
  {
  }
}
