/**
 * Fetching and decoding every variant: each bitrate's file is downloaded
 * through the progress wrapper, decoded, and split into a left and a right
 * channel. Results keep the order of the bitrates; the transferable
 * channel copies are collected in the order the files finish.
 */
module Acquisition {
  import opened Wrappers
  import Download

  /** One decoded sample (a 32-bit float in the browser). */
  type Sample = real

  /** A decoded file: one sample sequence per channel. */
  datatype AudioBuffer = AudioBuffer(channels: seq<seq<Sample>>)

  /** What the network gave for one file: a rejected `fetch`, or a response and its body reads. */
  datatype Exchange =
    | NetworkFailure(reason: string)
    | Received(response: Download.Response, body: Download.Reads)

  /** The decoder of the audio context: the file's bytes to decoded audio, or a decoding error. */
  type Decoder = seq<Download.byte> -> Result<AudioBuffer, string>

  /** One entry of `files`. `fileSize` is the `content-length` header as text, if any. */
  datatype FileEntry = FileEntry(
    bitrate: nat,
    fileSize: Option<string>,
    pcmLeft: seq<Sample>,
    pcmRight: seq<Sample>)

  /** The result of `fetchAndDecode`. */
  datatype Acquired = Acquired(files: seq<FileEntry>, buffers: seq<seq<Sample>>)

  /** The two channels played for a file. */
  datatype Channels = Channels(left: seq<Sample>, right: seq<Sample>)

  /** What `getChannelData(0)` throws on a buffer without channels. */
  const NoChannelError: string := "IndexSizeError"

  /**
   * Channel selection: the left channel is channel 0; the right channel is
   * channel 1 when there is more than one channel, and otherwise the left
   * channel itself.
   */
  function ChannelPair(buffer: AudioBuffer): (r: Result<Channels, string>)
    ensures r.Failure? <==> |buffer.channels| == 0
    ensures r.Failure? ==> r.error == NoChannelError
    ensures r.Success? ==> r.value.left == buffer.channels[0]
    ensures r.Success? && |buffer.channels| <= 1 ==> r.value.right == r.value.left
    ensures r.Success? && |buffer.channels| > 1 ==> r.value.right == buffer.channels[1]
  {
    if |buffer.channels| == 0 then Failure(NoChannelError)
    else
      var pcmLeft := buffer.channels[0];
      var pcmRight := if |buffer.channels| > 1 then buffer.channels[1] else pcmLeft;
      Success(Channels(pcmLeft, pcmRight))
  }

  /**
   * The work done for one bitrate: fetch, check and register through the
   * wrapper, read the whole body, decode it, and pick its channels. The
   * first step that fails gives the file's error.
   */
  function FileTask(bitrate: nat, exchange: Exchange, decode: Decoder): (r: Result<FileEntry, string>)
    ensures r.Success? ==> r.value.bitrate == bitrate
  {
    match exchange
    case NetworkFailure(reason) => Failure(reason)
    case Received(response, body) =>
      match Download.CheckResponse(response)
      case Failure(e) => Failure(Download.Message(e))
      case Success(_) =>
        var fileSize := Download.Lookup(response.headers, "content-length");
        match body.end
        case ReadFailure(reason) => Failure(reason)
        case EndOfStream =>
          match decode(Download.Flatten(body.chunks))
          case Failure(reason) => Failure(reason)
          case Success(audioBuffer) =>
            match ChannelPair(audioBuffer)
            case Failure(e) => Failure(e)
            case Success(channels) => Success(FileEntry(bitrate, fileSize, channels.left, channels.right))
  }

  /**
   * What one task's outcome is made of: a rejected fetch, a failed check, a
   * failed read, a failed decode, or decoded audio without channels gives
   * that step's error; a success read its whole body, decoded it, and
   * carries the `content-length` text and the chosen channels.
   */
  lemma FileTaskSteps(bitrate: nat, exchange: Exchange, decode: Decoder)
    ensures exchange.NetworkFailure? ==> FileTask(bitrate, exchange, decode) == Failure(exchange.reason)
    ensures exchange.Received? && Download.CheckResponse(exchange.response).Failure? ==>
      FileTask(bitrate, exchange, decode) ==
        Failure(Download.Message(Download.CheckResponse(exchange.response).error))
    ensures (exchange.Received? && exchange.body.end.ReadFailure? &&
             Download.CheckResponse(exchange.response).Success?) ==>
      FileTask(bitrate, exchange, decode) == Failure(exchange.body.end.reason)
    ensures (exchange.Received? && exchange.body.end.EndOfStream? &&
             Download.CheckResponse(exchange.response).Success? &&
             decode(Download.Flatten(exchange.body.chunks)).Failure?) ==>
      FileTask(bitrate, exchange, decode) == Failure(decode(Download.Flatten(exchange.body.chunks)).error)
    ensures (exchange.Received? && exchange.body.end.EndOfStream? &&
             Download.CheckResponse(exchange.response).Success? &&
             decode(Download.Flatten(exchange.body.chunks)).Success? &&
             decode(Download.Flatten(exchange.body.chunks)).value.channels == []) ==>
      FileTask(bitrate, exchange, decode) == Failure(NoChannelError)
    ensures FileTask(bitrate, exchange, decode).Success? ==>
      var entry := FileTask(bitrate, exchange, decode).value;
      exchange.Received? && exchange.body.end == Download.EndOfStream &&
      entry.fileSize == Download.Lookup(exchange.response.headers, "content-length") &&
      decode(Download.Flatten(exchange.body.chunks)).Success? &&
      ChannelPair(decode(Download.Flatten(exchange.body.chunks)).value) ==
        Success(Channels(entry.pcmLeft, entry.pcmRight))
  {
  }

  /** A file whose decoded audio has a single channel plays that channel on both sides. */
  lemma MonoFileSharesChannel(bitrate: nat, exchange: Exchange, decode: Decoder)
    requires FileTask(bitrate, exchange, decode).Success?
    requires |decode(Download.Flatten(exchange.body.chunks)).value.channels| <= 1
    ensures FileTask(bitrate, exchange, decode).value.pcmRight == FileTask(bitrate, exchange, decode).value.pcmLeft
  {
    FileTaskSteps(bitrate, exchange, decode);
  }

  /** The outcome of each bitrate's task, in bitrate order. */
  function Tasks(bitrates: seq<nat>, exchanges: seq<Exchange>, decode: Decoder): (tasks: seq<Result<FileEntry, string>>)
    requires |exchanges| == |bitrates|
  {
    seq(|bitrates|, i requires 0 <= i < |bitrates| => FileTask(bitrates[i], exchanges[i], decode))
  }

  /**
   * The order in which the tasks finish: every task index exactly once
   * (`n` entries, all below `n`, covering every index, hence a permutation).
   */
  predicate IsCompletionOrder(order: seq<nat>, n: nat) {
    |order| == n &&
    (forall k :: 0 <= k < n ==> order[k] < n) &&
    (forall i :: 0 <= i < n ==> i in order)
  }

  /** Every task named in `order` succeeded. */
  predicate AllSucceed(tasks: seq<Result<FileEntry, string>>, order: seq<nat>) {
    forall k :: 0 <= k < |order| ==> order[k] < |tasks| && tasks[order[k]].Success?
  }

  /**
   * The transfer list `buffers`: for each finished task, in finishing order,
   * a copy of its left channel and then of its right channel.
   */
  function CompletionBuffers(tasks: seq<Result<FileEntry, string>>, order: seq<nat>): (buffers: seq<seq<Sample>>)
    requires AllSucceed(tasks, order)
    ensures |buffers| == 2 * |order|
  {
    if order == [] then [] else
    var last := tasks[order[|order| - 1]].value;
    CompletionBuffers(tasks, order[..|order| - 1]) + [last.pcmLeft, last.pcmRight]
  }

  /**
   * Entry `2k` of `buffers` is the left channel, and entry `2k + 1` the
   * right channel, of the `k`-th file to finish.
   */
  lemma {:induction false} CompletionBuffersAt(tasks: seq<Result<FileEntry, string>>, order: seq<nat>, k: nat)
    requires AllSucceed(tasks, order) && k < |order|
    ensures CompletionBuffers(tasks, order)[2 * k] == tasks[order[k]].value.pcmLeft
    ensures CompletionBuffers(tasks, order)[2 * k + 1] == tasks[order[k]].value.pcmRight
    decreases |order|
  {
    var m := |order| - 1;
    if k < m {
      assert AllSucceed(tasks, order[..m]);
      CompletionBuffersAt(tasks, order[..m], k);
      assert order[..m][k] == order[k];
    }
  }

  /** One more finished task: the finished prefix grows by one and so does `buffers`. */
  lemma FinishOne(tasks: seq<Result<FileEntry, string>>, completion: seq<nat>, k: nat)
    requires k < |completion| && completion[k] < |tasks| && tasks[completion[k]].Success?
    requires AllSucceed(tasks, completion[..k])
    ensures AllSucceed(tasks, completion[..k + 1])
    ensures CompletionBuffers(tasks, completion[..k + 1]) ==
      CompletionBuffers(tasks, completion[..k]) +
        [tasks[completion[k]].value.pcmLeft, tasks[completion[k]].value.pcmRight]
    ensures forall x :: x in completion[..k + 1] <==> x in completion[..k] || x == completion[k]
  {
    var done := completion[..k + 1];
    assert done == completion[..k] + [completion[k]];
    assert done[..k] == completion[..k];
  }

  /**
   * `Promise.all` over the outcomes of the file tasks, as they finish in `completion`
   * order. Each finished task pushes its two channel copies onto `buffers`
   * and fills its own slot of the result. The first task to fail, in
   * finishing order, fails the whole call; otherwise `files` lists every
   * entry in task order, whatever the finishing order.
   */
  method Collect(tasks: seq<Result<FileEntry, string>>, completion: seq<nat>) returns (r: Result<Acquired, string>)
    requires IsCompletionOrder(completion, |tasks|)
    ensures r.Success? <==> forall i :: 0 <= i < |tasks| ==> tasks[i].Success?
    ensures r.Failure? ==>
      exists k :: 0 <= k < |completion| && tasks[completion[k]] == Failure(r.error) && AllSucceed(tasks, completion[..k])
    ensures r.Success? ==> |r.value.files| == |tasks|
    ensures r.Success? ==> forall i :: 0 <= i < |tasks| ==> tasks[i] == Success(r.value.files[i])
    ensures r.Success? ==> AllSucceed(tasks, completion)
    ensures r.Success? ==> r.value.buffers == CompletionBuffers(tasks, completion)
  {
    var n := |tasks|;
    var slots: seq<Option<FileEntry>> := seq(n, _ => None);
    var buffers: seq<seq<Sample>> := [];
    var k := 0;
    while k < n
      invariant 0 <= k <= n && |slots| == n
      invariant AllSucceed(tasks, completion[..k])
      invariant forall i :: 0 <= i < n ==> (slots[i].Some? <==> i in completion[..k])
      invariant forall i :: 0 <= i < n && slots[i].Some? ==> tasks[i] == Success(slots[i].value)
      invariant buffers == CompletionBuffers(tasks, completion[..k])
    {
      var i := completion[k];
      var outcome := tasks[i];
      if outcome.Failure? {
        assert tasks[completion[k]] == Failure(outcome.error);
        return Failure(outcome.error);
      }
      FinishOne(tasks, completion, k);
      buffers := buffers + [outcome.value.pcmLeft, outcome.value.pcmRight];
      slots := slots[i := Some(outcome.value)];
      k := k + 1;
    }
    assert completion[..n] == completion;
    var files := seq(n, i requires 0 <= i < n && slots[i].Some? => slots[i].value);
    return Success(Acquired(files, buffers));
  }

  /**
   * `fetchAndDecode`: one task per bitrate, run concurrently and collected
   * as they finish in `completion` order. The call succeeds exactly when
   * every file does; `files[i]` is bitrate `i`'s entry and `buffers` holds
   * two channel copies per file, in finishing order.
   */
  method FetchAndDecode(bitrates: seq<nat>, exchanges: seq<Exchange>, decode: Decoder, completion: seq<nat>)
    returns (r: Result<Acquired, string>)
    requires |exchanges| == |bitrates|
    requires IsCompletionOrder(completion, |bitrates|)
    ensures r.Success? <==> forall i :: 0 <= i < |bitrates| ==> FileTask(bitrates[i], exchanges[i], decode).Success?
    ensures r.Failure? ==>
      exists k :: (0 <= k < |completion| &&
        Tasks(bitrates, exchanges, decode)[completion[k]] == Failure(r.error) &&
        AllSucceed(Tasks(bitrates, exchanges, decode), completion[..k]))
    ensures r.Success? ==> |r.value.files| == |bitrates|
    ensures r.Success? ==> forall i :: 0 <= i < |bitrates| ==>
      r.value.files[i] == FileTask(bitrates[i], exchanges[i], decode).value &&
      r.value.files[i].bitrate == bitrates[i]
    ensures r.Success? ==> AllSucceed(Tasks(bitrates, exchanges, decode), completion)
    ensures r.Success? ==> r.value.buffers == CompletionBuffers(Tasks(bitrates, exchanges, decode), completion)
    ensures r.Success? ==> |r.value.buffers| == 2 * |bitrates|
  {
    var tasks := Tasks(bitrates, exchanges, decode);
    assert |tasks| == |bitrates|;
    assert forall i :: 0 <= i < |bitrates| ==> tasks[i] == FileTask(bitrates[i], exchanges[i], decode);
    r := Collect(tasks, completion);
  }
}
