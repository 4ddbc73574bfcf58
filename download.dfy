/**
 * The download wrapper: it checks a response's status, body and size
 * header, registers the size with the progress accumulator, and then pumps
 * the body chunk by chunk into a new stream, reporting the running byte
 * count after every chunk.
 */
module Download {
  import opened Wrappers
  import Decimal
  import Progress

  newtype byte = x: int | 0 <= x < 256

  /**
   * What the wrapper sees of a fetched response. Header names are lower
   * case; a missing header is a missing key (`headers.get` gives `null`).
   */
  datatype Response = Response(
    ok: bool,
    status: nat,
    statusText: string,
    hasBody: bool,
    headers: map<string, string>)

  /** The three errors the wrapper throws before any byte is read. */
  datatype DownloadError =
    | BadStatus(status: nat, statusText: string)
    | NoReadableStream
    | SizeHeaderUnavailable

  /**
   * The message of the thrown `Error`. A status error's message starts with
   * the status number and ends with a space and the status text; the two
   * fixed messages start with no digit, so they can never be read as a status.
   */
  function Message(e: DownloadError): (m: string)
    ensures e.BadStatus? ==> Decimal.ParseInt(m) == Some(e.status as int)
    ensures e.BadStatus? ==> |m| > |e.statusText| && m[|m| - |e.statusText| - 1..] == " " + e.statusText
    ensures !e.BadStatus? ==> Decimal.ParseInt(m) == None
  {
    // The fixed texts are split after their first letter, which is all the
    // read-back argument looks at.
    match e
    case BadStatus(status, statusText) =>
      Decimal.ParseIntOfDecimal(status, " " + statusText);
      assert Decimal.DecimalString(status) + " " + statusText ==
        Decimal.DecimalString(status) + (" " + statusText);
      Decimal.DecimalString(status) + " " + statusText
    case NoReadableStream =>
      Decimal.ParseIntOfNonDigit('R', "eadableStream not yet supported in this browser.");
      ['R'] + "eadableStream not yet supported in this browser."
    case SizeHeaderUnavailable =>
      Decimal.ParseIntOfNonDigit('R', "esponse size header unavailable");
      ['R'] + "esponse size header unavailable"
  }

  /** `headers.get(name)`. */
  function Lookup(headers: map<string, string>, name: string): Option<string> {
    if name in headers then Some(headers[name]) else None
  }

  /**
   * The header that holds the body size: the uncompressed `x-file-size`
   * when a `content-encoding` header is set to a non-empty value (an empty
   * string is falsy), and `content-length` otherwise.
   */
  function SizeHeaderName(headers: map<string, string>): (name: string)
    ensures name == "x-file-size" || name == "content-length"
    ensures name == "x-file-size" <==> "content-encoding" in headers && headers["content-encoding"] != ""
  {
    var contentEncoding := Lookup(headers, "content-encoding");
    if contentEncoding.Some? && contentEncoding.value != "" then "x-file-size" else "content-length"
  }

  /**
   * The checks made before the stream is built, in their order: the status
   * first, then the body, then the size header. On success, the text of
   * the size header.
   */
  function CheckResponse(response: Response): (r: Result<string, DownloadError>)
    ensures (r.Failure? && r.error.BadStatus?) <==> !response.ok
    ensures r.Failure? && r.error.BadStatus? ==> r.error == BadStatus(response.status, response.statusText)
    ensures r == Failure(NoReadableStream) <==> response.ok && !response.hasBody
    ensures r == Failure(SizeHeaderUnavailable) <==>
      response.ok && response.hasBody && SizeHeaderName(response.headers) !in response.headers
    ensures r.Success? ==> Lookup(response.headers, SizeHeaderName(response.headers)) == Some(r.value)
  {
    if !response.ok then Failure(BadStatus(response.status, response.statusText))
    else if !response.hasBody then Failure(NoReadableStream)
    else
      match Lookup(response.headers, SizeHeaderName(response.headers))
      case None => Failure(SizeHeaderUnavailable)
      case Some(contentLength) => Success(contentLength)
  }

  /**
   * The size header of a response that passes the checks reads as a
   * positive integer (so that `register` is never given `NaN` or 0).
   */
  predicate HasPositiveSize(response: Response) {
    match CheckResponse(response)
    case Failure(_) => true
    case Success(contentLength) =>
      var total := Decimal.ParseInt(contentLength);
      total.Some? && total.value > 0
  }

  /**
   * The synchronous part of the wrapper: check the response, parse the
   * size and register it. A response that fails a check throws and
   * registers nothing; one that passes registers its size exactly once.
   */
  method DownloadProgressResponse(response: Response, progress: Progress.ProgressManager)
    returns (r: Result<nat, DownloadError>)
    requires progress.Valid() && HasPositiveSize(response)
    modifies progress
    ensures progress.Valid()
    ensures r.Failure? <==> CheckResponse(response).Failure?
    ensures r.Failure? ==> r.error == CheckResponse(response).error
    ensures r.Failure? ==> progress.Snapshot() == old(progress.Snapshot())
    ensures r.Success? ==> Decimal.ParseInt(CheckResponse(response).value) == Some(r.value as int)
    ensures r.Success? ==> r.value > 0
    ensures r.Success? ==> progress.Snapshot() == Progress.Registered(old(progress.Snapshot()), r.value)
  {
    var checked := CheckResponse(response);
    if checked.Failure? {
      return Failure(checked.error);
    }
    var total := Decimal.ParseInt(checked.value).value;
    progress.Register(total);
    return Success(total);
  }

  /** The state of the stream handed to the consumer. */
  datatype StreamState = Readable | Closed | Errored(reason: string)

  /** The controller of the new stream: what was enqueued so far, and whether the stream ended. */
  class StreamController {
    var queue: seq<seq<byte>>
    var state: StreamState

    constructor ()
      ensures queue == [] && state == Readable
    {
      queue := [];
      state := Readable;
    }

    method Enqueue(chunk: seq<byte>)
      requires state == Readable
      modifies this
      ensures queue == old(queue) + [chunk] && state == Readable
    {
      queue := queue + [chunk];
    }

    method Close()
      requires state == Readable
      modifies this
      ensures queue == old(queue) && state == Closed
    {
      state := Closed;
    }

    method Error(reason: string)
      modifies this
      ensures queue == old(queue) && state == Errored(reason)
    {
      state := Errored(reason);
    }
  }

  /** How the source body ends after its chunks: `done`, or a rejected `read()`. */
  datatype ReadEnd = EndOfStream | ReadFailure(reason: string)

  /** What successive `reader.read()` calls on the source body deliver. */
  datatype Reads = Reads(chunks: seq<seq<byte>>, end: ReadEnd)

  /** The total byte length of a sequence of chunks. */
  function TotalLength(chunks: seq<seq<byte>>): nat {
    if chunks == [] then 0 else TotalLength(chunks[..|chunks| - 1]) + |chunks[|chunks| - 1]|
  }

  /** The chunks joined into one byte sequence. */
  function Flatten(chunks: seq<seq<byte>>): (bytes: seq<byte>)
    ensures |bytes| == TotalLength(chunks)
  {
    if chunks == [] then [] else Flatten(chunks[..|chunks| - 1]) + chunks[|chunks| - 1]
  }

  /**
   * The calls the read loop makes on the accumulator: after each chunk, a
   * report whose `bytesDownloaded` is the running total so far.
   */
  function CumulativeReports(chunks: seq<seq<byte>>): (calls: seq<Progress.Call>)
    ensures |calls| == |chunks|
    ensures forall k :: 0 <= k < |calls| ==> calls[k].ReportCall? && calls[k].decoded.None?
  {
    if chunks == [] then [] else
    CumulativeReports(chunks[..|chunks| - 1]) + [Progress.ReportCall(Some(TotalLength(chunks)), None)]
  }

  /**
   * The `k`-th report carries, as `bytesDownloaded`, the total length of
   * the first `k + 1` chunks: the running total, not the chunk's own length.
   */
  lemma {:induction false} CumulativeReportsAt(chunks: seq<seq<byte>>, k: nat)
    requires k < |chunks|
    ensures CumulativeReports(chunks)[k] == Progress.ReportCall(Some(TotalLength(chunks[..k + 1])), None)
    decreases |chunks|
  {
    var n := |chunks| - 1;
    if k < n {
      CumulativeReportsAt(chunks[..n], k);
      assert chunks[..n][..k + 1] == chunks[..k + 1];
    } else {
      assert chunks[..k + 1] == chunks;
    }
  }

  /**
   * The loop that pumps the source body into the new stream. Every chunk
   * is forwarded unchanged and in order; after each one the running total
   * of bytes is reported; `done` closes the stream and a failed read
   * errors it.
   */
  method ReadLoop(source: Reads, controller: StreamController, progress: Progress.ProgressManager)
    returns (bytesDownloaded: nat)
    requires progress.Valid() && progress.totalFilesRegistered > 0
    requires controller.state == Readable
    modifies controller, progress
    ensures progress.Valid()
    ensures bytesDownloaded == TotalLength(source.chunks)
    ensures controller.queue == old(controller.queue) + source.chunks
    ensures Flatten(controller.queue) == Flatten(old(controller.queue)) + Flatten(source.chunks)
    ensures controller.state == match source.end
      case EndOfStream => Closed
      case ReadFailure(reason) => Errored(reason)
    ensures Progress.Admissible(old(progress.Snapshot()), CumulativeReports(source.chunks))
    ensures progress.Snapshot() == Progress.Run(old(progress.Snapshot()), CumulativeReports(source.chunks))
  {
    ghost var start := progress.Snapshot();
    bytesDownloaded := 0;
    var i := 0;
    while i < |source.chunks|
      invariant 0 <= i <= |source.chunks|
      invariant progress.Valid() && progress.totalFilesRegistered > 0
      invariant progress.totalFiles == start.totalFiles
      invariant controller.state == Readable
      invariant controller.queue == old(controller.queue) + source.chunks[..i]
      invariant bytesDownloaded == TotalLength(source.chunks[..i])
      invariant Progress.Admissible(start, CumulativeReports(source.chunks[..i]))
      invariant progress.Snapshot() == Progress.Run(start, CumulativeReports(source.chunks[..i]))
    {
      var value := source.chunks[i];
      bytesDownloaded := bytesDownloaded + |value|;
      progress.Report(Some(bytesDownloaded), None);
      controller.Enqueue(value);
      ghost var done := source.chunks[..i + 1];
      assert done[..i] == source.chunks[..i];
      assert CumulativeReports(done)[..i] == CumulativeReports(source.chunks[..i]);
      i := i + 1;
    }
    assert source.chunks[..i] == source.chunks;
    ForwardedBytesMatch(old(controller.queue), source.chunks);
    match source.end {
      case EndOfStream => controller.Close();
      case ReadFailure(reason) => controller.Error(reason);
    }
  }

  /** The size `parseInt` reads from a response that passes the checks. */
  function DeclaredSize(response: Response): nat
    requires HasPositiveSize(response) && CheckResponse(response).Success?
  {
    Decimal.ParseInt(CheckResponse(response).value).value
  }

  /**
   * A size header holding a positive decimal number, possibly followed by
   * text that does not start with a digit, declares exactly that number.
   */
  lemma DeclaredSizeOfDecimal(response: Response, n: nat, rest: string)
    requires n > 0 && (rest == [] || !Decimal.IsDigit(rest[0]))
    requires CheckResponse(response) == Success(Decimal.DecimalString(n) + rest)
    ensures HasPositiveSize(response)
    ensures DeclaredSize(response) == n
  {
    Decimal.ParseIntOfDecimal(n, rest);
  }

  /**
   * One whole download as the accumulator sees it: the size is registered
   * before the first chunk is reported, so the calls made are one
   * registration followed by the running-total reports, and the object
   * ends in the state that sequence of calls produces. A response that
   * fails a check makes no call at all and builds no stream.
   */
  method DownloadWithProgress(response: Response, source: Reads, progress: Progress.ProgressManager)
    returns (r: Result<StreamController, DownloadError>)
    requires progress.Valid() && HasPositiveSize(response)
    modifies progress
    ensures progress.Valid()
    ensures r.Failure? <==> CheckResponse(response).Failure?
    ensures r.Failure? ==> r.error == CheckResponse(response).error && progress.Snapshot() == old(progress.Snapshot())
    ensures r.Success? ==> fresh(r.value) && r.value.queue == source.chunks
    ensures r.Success? ==> r.value.state == match source.end
      case EndOfStream => Closed
      case ReadFailure(reason) => Errored(reason)
    ensures r.Success? ==>
      var calls := [Progress.RegisterCall(DeclaredSize(response))] + CumulativeReports(source.chunks);
      Progress.Admissible(old(progress.Snapshot()), calls) &&
      progress.Snapshot() == Progress.Run(old(progress.Snapshot()), calls)
  {
    ghost var before := progress.Snapshot();
    var total := DownloadProgressResponse(response, progress);
    if total.Failure? {
      return Failure(total.error);
    }
    ghost var register := [Progress.RegisterCall(total.value)];
    assert register[..0] == [];
    assert Progress.Allowed(before, register[0]);
    assert Progress.Run(before, register) == progress.Snapshot();
    var controller := new StreamController();
    var _ := ReadLoop(source, controller, progress);
    Progress.RunConcat(before, register, CumulativeReports(source.chunks));
    return Success(controller);
  }

  /**
   * The sum, over every chunk, of the running total reported after it:
   * what the read loop adds to the accumulator's downloaded counter.
   */
  function SumOfRunningTotals(chunks: seq<seq<byte>>): nat {
    if chunks == [] then 0 else SumOfRunningTotals(chunks[..|chunks| - 1]) + TotalLength(chunks)
  }

  /**
   * Because `report` is handed the running total and the accumulator adds
   * it, one body raises the downloaded counter by the sum of its running
   * totals, not by its length.
   */
  lemma {:induction false} ReadLoopAddsRunningTotals(chunks: seq<seq<byte>>)
    ensures Progress.ReportedBytes(CumulativeReports(chunks)) == SumOfRunningTotals(chunks)
    ensures Progress.Registrations(CumulativeReports(chunks)) == 0
    ensures Progress.RegisteredBytes(CumulativeReports(chunks)) == 0
    ensures Progress.ReportedDecodes(CumulativeReports(chunks)) == 0
  {
    if chunks != [] {
      var calls := CumulativeReports(chunks);
      assert calls[..|calls| - 1] == CumulativeReports(chunks[..|chunks| - 1]);
      ReadLoopAddsRunningTotals(chunks[..|chunks| - 1]);
    }
  }

  /** The running totals add up to at least the body length. */
  lemma {:induction false} RunningTotalsCoverLength(chunks: seq<seq<byte>>)
    ensures SumOfRunningTotals(chunks) >= TotalLength(chunks)
  {
    if chunks != [] {
      RunningTotalsCoverLength(chunks[..|chunks| - 1]);
    }
  }

  /**
   * The overcount made concrete: a 100-byte body read as two 50-byte
   * chunks reports 50 and then 100, so the downloaded counter grows by 150.
   */
  lemma TwoChunksOvercount(a: seq<byte>, b: seq<byte>)
    requires |a| == 50 && |b| == 50
    ensures TotalLength([a, b]) == 100
    ensures SumOfRunningTotals([a, b]) == 150
  {
    assert [a, b][..1] == [a];
    assert [a][..0] == [];
    assert TotalLength([a]) == 50;
    assert SumOfRunningTotals([a]) == 50;
  }

  /**
   * Two 50-byte chunks read after a registration add 150 to the
   * downloaded counter and nothing to the byte total: a 100-byte file
   * counts as 150 bytes downloaded.
   */
  lemma TwoChunksAdd150(c: Progress.Counters, a: seq<byte>, b: seq<byte>)
    requires c.Valid() && c.totalFilesRegistered > 0
    requires |a| == 50 && |b| == 50
    ensures Progress.Admissible(c, CumulativeReports([a, b]))
    ensures Progress.Run(c, CumulativeReports([a, b])).totalDownloaded == c.totalDownloaded + 150
    ensures Progress.Run(c, CumulativeReports([a, b])).totalToDownload == c.totalToDownload
  {
    ReportsAdmissible(c, [a, b]);
    ReadLoopAddsRunningTotals([a, b]);
    TwoChunksOvercount(a, b);
    Progress.RunTotals(c, CumulativeReports([a, b]));
  }

  /** Reports after a registration are always allowed. */
  lemma {:induction false} ReportsAdmissible(c: Progress.Counters, chunks: seq<seq<byte>>)
    requires c.Valid() && c.totalFilesRegistered > 0
    ensures Progress.Admissible(c, CumulativeReports(chunks))
    ensures Progress.Run(c, CumulativeReports(chunks)).totalFilesRegistered == c.totalFilesRegistered
  {
    if chunks != [] {
      var calls := CumulativeReports(chunks);
      assert calls[..|calls| - 1] == CumulativeReports(chunks[..|chunks| - 1]);
      ReportsAdmissible(c, chunks[..|chunks| - 1]);
    }
  }

  /** Joining chunks distributes over concatenation of chunk lists. */
  lemma ForwardedBytesMatch(before: seq<seq<byte>>, chunks: seq<seq<byte>>)
    ensures Flatten(before + chunks) == Flatten(before) + Flatten(chunks)
    decreases |chunks|
  {
    if chunks != [] {
      var all := before + chunks;
      assert all[..|all| - 1] == before + chunks[..|chunks| - 1];
      ForwardedBytesMatch(before, chunks[..|chunks| - 1]);
    } else {
      assert before + chunks == before;
    }
  }
}
