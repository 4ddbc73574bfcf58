/**
 * The progress accumulator behind the loading indicator: one instance
 * collects declared sizes, downloaded byte counts and decode counts from
 * every variant and turns them into a weighted, never-decreasing fraction.
 *
 * `Counters` is the accumulator's state as a value, and `Registered`,
 * `Reported` and `Updated` say what each call does to it; the class
 * `ProgressManager` is the object the program mutates, proved against
 * those functions.
 */
module Progress {
  import opened Wrappers
  import Config

  /** Share of the indicator given to downloading. */
  const DownloadWeight: real := 0.8
  /** Share given to decoding: `1 - downloadWeight`, exact here. */
  const DecoderWeight: real := 1.0 - DownloadWeight

  /** The accumulator's state. `totalFiles` is the number of variants expected. */
  datatype Counters = Counters(
    totalToDownload: nat,
    totalDownloaded: nat,
    totalFiles: nat,
    totalFilesRegistered: nat,
    totalDecoded: nat,
    lastTotalProgress: real)
  {
    /** Some file is expected, a registered file makes the byte total positive, and no negative value was accepted. */
    predicate Valid() {
      totalFiles > 0 &&
      (totalFilesRegistered > 0 ==> totalToDownload > 0) &&
      lastTotalProgress >= 0.0
    }
  }

  /** The state before any call: nothing registered, one expected file per entry of `BITRATES`. */
  function Start(): (c: Counters)
    ensures c.Valid() && c.totalFiles == 10
    ensures c.totalToDownload == c.totalDownloaded == c.totalFilesRegistered == c.totalDecoded == 0
    ensures c.lastTotalProgress == 0.0
  {
    Config.BitratesDescending();
    Counters(0, 0, |Config.Bitrates|, 0, 0, 0.0)
  }

  /**
   * The fraction `updateUI` computes: download and decode progress weighted
   * 0.8 and 0.2, scaled by the share of expected files that have registered.
   */
  function ComputedProgress(c: Counters): (p: real)
    requires c.totalToDownload > 0 && c.totalFiles > 0
    ensures p >= 0.0
    ensures c.totalFilesRegistered == 0 ==> p == 0.0
  {
    var registeredDownloadsWeight := c.totalFilesRegistered as real / c.totalFiles as real;
    var downloadProgress := (c.totalDownloaded as real / c.totalToDownload as real) * DownloadWeight;
    var decodeProgress := (c.totalDecoded as real / c.totalFiles as real) * DecoderWeight;
    assert downloadProgress >= 0.0 && decodeProgress >= 0.0 && registeredDownloadsWeight >= 0.0;
    (downloadProgress + decodeProgress) * registeredDownloadsWeight
  }

  /**
   * `updateUI`: the computed fraction is accepted unless it is strictly
   * below the last accepted one; only `lastTotalProgress` can change.
   */
  function Updated(c: Counters): (r: Counters)
    requires c.Valid() && c.totalToDownload > 0
    ensures r.Valid()
    ensures r == c.(lastTotalProgress := r.lastTotalProgress)
    ensures r.lastTotalProgress >= c.lastTotalProgress
    ensures r.lastTotalProgress >= ComputedProgress(c)
    ensures r.lastTotalProgress == c.lastTotalProgress || r.lastTotalProgress == ComputedProgress(c)
  {
    var totalProgress := ComputedProgress(c);
    if totalProgress < c.lastTotalProgress then c
    else c.(lastTotalProgress := totalProgress)
  }

  /** `register(fileSize)`: one more file and its size, then `updateUI`. */
  function Registered(c: Counters, fileSize: nat): (r: Counters)
    requires c.Valid() && fileSize > 0
    ensures r.Valid()
    ensures r.totalToDownload == c.totalToDownload + fileSize
    ensures r.totalFilesRegistered == c.totalFilesRegistered + 1
    ensures r.totalDownloaded == c.totalDownloaded && r.totalDecoded == c.totalDecoded
    ensures r.totalFiles == c.totalFiles
    ensures r.lastTotalProgress >= c.lastTotalProgress
  {
    Updated(c.(totalToDownload := c.totalToDownload + fileSize,
               totalFilesRegistered := c.totalFilesRegistered + 1))
  }

  /** `x || 0` on an optional count: an absent field adds nothing. */
  function OrZero(x: Option<nat>): nat
  {
    match x
    case None => 0
    case Some(n) => n
  }

  /** `report({ bytesDownloaded, decoded })`: add both fields (absent ones as 0), then `updateUI`. */
  function Reported(c: Counters, bytesDownloaded: Option<nat>, decoded: Option<nat>): (r: Counters)
    requires c.Valid() && c.totalFilesRegistered > 0
    ensures r.Valid()
    ensures r.totalDownloaded == c.totalDownloaded + OrZero(bytesDownloaded)
    ensures r.totalDecoded == c.totalDecoded + OrZero(decoded)
    ensures r.totalToDownload == c.totalToDownload && r.totalFilesRegistered == c.totalFilesRegistered
    ensures r.totalFiles == c.totalFiles
    ensures r.lastTotalProgress >= c.lastTotalProgress
  {
    Updated(c.(totalDownloaded := c.totalDownloaded + OrZero(bytesDownloaded),
               totalDecoded := c.totalDecoded + OrZero(decoded)))
  }

  /** One call into the accumulator, as the rest of the program makes it. */
  datatype Call =
    | RegisterCall(fileSize: nat)
    | ReportCall(bytesDownloaded: Option<nat>, decoded: Option<nat>)

  /**
   * What callers guarantee: a registered size is positive, and a report
   * follows at least one registration (each file registers before it reports).
   */
  predicate Allowed(c: Counters, call: Call) {
    match call
    case RegisterCall(fileSize) => fileSize > 0
    case ReportCall(_, _) => c.totalFilesRegistered > 0
  }

  function Step(c: Counters, call: Call): (r: Counters)
    requires c.Valid() && Allowed(c, call)
    ensures r.Valid() && r.totalFiles == c.totalFiles
  {
    match call
    case RegisterCall(fileSize) => Registered(c, fileSize)
    case ReportCall(bytesDownloaded, decoded) => Reported(c, bytesDownloaded, decoded)
  }

  /** The state after a sequence of calls, applied in order. */
  function Run(c: Counters, calls: seq<Call>): (r: Counters)
    requires c.Valid() && Admissible(c, calls)
    ensures r.Valid() && r.totalFiles == c.totalFiles
    decreases |calls|, 1
  {
    if calls == [] then c
    else Step(Run(c, calls[..|calls| - 1]), calls[|calls| - 1])
  }

  /** Every call in the sequence is allowed in the state it meets. */
  predicate Admissible(c: Counters, calls: seq<Call>)
    requires c.Valid()
    decreases |calls|, 0
  {
    calls == [] ||
    (Admissible(c, calls[..|calls| - 1]) &&
     Allowed(Run(c, calls[..|calls| - 1]), calls[|calls| - 1]))
  }

  /** Sum of the sizes registered by a sequence of calls. */
  function RegisteredBytes(calls: seq<Call>): nat {
    if calls == [] then 0 else
    var added := match calls[|calls| - 1] case RegisterCall(s) => s case ReportCall(_, _) => 0;
    RegisteredBytes(calls[..|calls| - 1]) + added
  }

  /** Number of registrations in a sequence of calls. */
  function Registrations(calls: seq<Call>): nat {
    if calls == [] then 0
    else Registrations(calls[..|calls| - 1]) + (if calls[|calls| - 1].RegisterCall? then 1 else 0)
  }

  /** Sum of the `bytesDownloaded` fields reported, absent ones as 0. */
  function ReportedBytes(calls: seq<Call>): nat {
    if calls == [] then 0 else
    var added := match calls[|calls| - 1] case ReportCall(b, _) => OrZero(b) case RegisterCall(_) => 0;
    ReportedBytes(calls[..|calls| - 1]) + added
  }

  /** Sum of the `decoded` fields reported, absent ones as 0. */
  function ReportedDecodes(calls: seq<Call>): nat {
    if calls == [] then 0 else
    var added := match calls[|calls| - 1] case ReportCall(_, d) => OrZero(d) case RegisterCall(_) => 0;
    ReportedDecodes(calls[..|calls| - 1]) + added
  }

  /** An admissible sequence stays admissible when cut short. */
  lemma {:induction false} AdmissiblePrefix(c: Counters, calls: seq<Call>, i: nat)
    requires c.Valid() && Admissible(c, calls) && i <= |calls|
    ensures Admissible(c, calls[..i])
    decreases |calls|
  {
    if i == |calls| {
      assert calls[..i] == calls;
    } else {
      assert calls[..|calls| - 1][..i] == calls[..i];
      AdmissiblePrefix(c, calls[..|calls| - 1], i);
    }
  }

  /**
   * Over any admissible sequence of `register`/`report` calls, the accepted
   * fraction never decreases: a later state has a value at least that of an
   * earlier one.
   */
  lemma {:induction false} ProgressNeverDecreases(c: Counters, calls: seq<Call>, i: nat, j: nat)
    requires c.Valid() && Admissible(c, calls)
    requires i <= j <= |calls|
    ensures AdmissiblePrefixes(c, calls, i, j)
    ensures Run(c, calls[..i]).lastTotalProgress <= Run(c, calls[..j]).lastTotalProgress
    decreases j
  {
    AdmissiblePrefix(c, calls, i);
    AdmissiblePrefix(c, calls, j);
    if i < j {
      AdmissiblePrefix(c, calls, j - 1);
      ProgressNeverDecreases(c, calls, i, j - 1);
      assert calls[..j][..j - 1] == calls[..j - 1];
    }
  }

  /** Both prefixes in `ProgressNeverDecreases` are admissible, so their runs are defined. */
  predicate AdmissiblePrefixes(c: Counters, calls: seq<Call>, i: nat, j: nat)
    requires c.Valid() && i <= j <= |calls|
  {
    Admissible(c, calls[..i]) && Admissible(c, calls[..j])
  }

  /**
   * Running two admissible sequences one after the other is running their
   * concatenation: calls compose.
   */
  lemma {:induction false} RunConcat(c: Counters, first: seq<Call>, second: seq<Call>)
    requires c.Valid() && Admissible(c, first) && Admissible(Run(c, first), second)
    ensures Admissible(c, first + second)
    ensures Run(c, first + second) == Run(Run(c, first), second)
    decreases |second|
  {
    var all := first + second;
    if second == [] {
      assert all == first;
    } else {
      assert all[..|all| - 1] == first + second[..|second| - 1];
      assert all[|all| - 1] == second[|second| - 1];
      RunConcat(c, first, second[..|second| - 1]);
    }
  }

  /**
   * Each counter ends at its start plus what the calls contributed:
   * registrations add their sizes and one file each, reports add their
   * fields, and the expected file count never changes.
   */
  lemma {:induction false} RunTotals(c: Counters, calls: seq<Call>)
    requires c.Valid() && Admissible(c, calls)
    ensures Run(c, calls).totalToDownload == c.totalToDownload + RegisteredBytes(calls)
    ensures Run(c, calls).totalFilesRegistered == c.totalFilesRegistered + Registrations(calls)
    ensures Run(c, calls).totalDownloaded == c.totalDownloaded + ReportedBytes(calls)
    ensures Run(c, calls).totalDecoded == c.totalDecoded + ReportedDecodes(calls)
    ensures Run(c, calls).totalFiles == c.totalFiles
    decreases |calls|
  {
    if calls != [] {
      RunTotals(c, calls[..|calls| - 1]);
    }
  }

  /**
   * When every expected file has registered, and the downloaded and decoded
   * totals match what was expected, the computed fraction is exactly 1.
   */
  lemma ProgressComplete(c: Counters)
    requires c.totalToDownload > 0 && c.totalFiles > 0
    requires c.totalDownloaded == c.totalToDownload
    requires c.totalDecoded == c.totalFiles && c.totalFilesRegistered == c.totalFiles
    ensures ComputedProgress(c) == 1.0
  {
    assert c.totalDownloaded as real / c.totalToDownload as real == 1.0;
    assert c.totalDecoded as real / c.totalFiles as real == 1.0;
  }

  /** The computed fraction is at most 1 as long as no counter has run past what was expected. */
  lemma ProgressAtMostOne(c: Counters)
    requires c.totalToDownload > 0 && c.totalFiles > 0
    requires c.totalDownloaded <= c.totalToDownload
    requires c.totalDecoded <= c.totalFiles && c.totalFilesRegistered <= c.totalFiles
    ensures ComputedProgress(c) <= 1.0
  {
    var a := c.totalDownloaded as real / c.totalToDownload as real;
    var b := c.totalDecoded as real / c.totalFiles as real;
    var w := c.totalFilesRegistered as real / c.totalFiles as real;
    DivAtMostOne(c.totalDownloaded as real, c.totalToDownload as real);
    DivAtMostOne(c.totalDecoded as real, c.totalFiles as real);
    DivAtMostOne(c.totalFilesRegistered as real, c.totalFiles as real);
    ComputedAsWeighted(c);
    WeightedMonotone(a, 1.0, b, 1.0, w);
    assert Weighted(1.0, 1.0, w) == w;
  }

  /**
   * Reports alone never lower the computed fraction: with the sizes and
   * registrations fixed, more downloaded or decoded gives at least as much.
   */
  lemma ReportsRaiseProgress(c: Counters, d: Counters)
    requires c.totalToDownload > 0 && c.totalFiles > 0
    requires d.totalToDownload == c.totalToDownload && d.totalFiles == c.totalFiles
    requires d.totalFilesRegistered == c.totalFilesRegistered
    requires c.totalDownloaded <= d.totalDownloaded && c.totalDecoded <= d.totalDecoded
    ensures ComputedProgress(c) <= ComputedProgress(d)
  {
    var td := c.totalToDownload as real;
    var tf := c.totalFiles as real;
    DivMonotone(c.totalDownloaded as real, d.totalDownloaded as real, td);
    DivMonotone(c.totalDecoded as real, d.totalDecoded as real, tf);
    DivAtMostOne(0.0, tf);
    ComputedAsWeighted(c);
    ComputedAsWeighted(d);
    WeightedMonotone(c.totalDownloaded as real / td, d.totalDownloaded as real / td,
                     c.totalDecoded as real / tf, d.totalDecoded as real / tf,
                     c.totalFilesRegistered as real / tf);
  }

  /** The weighted combination `updateUI` computes, from the three ratios. */
  function Weighted(downloaded: real, decoded: real, registered: real): real {
    (downloaded * DownloadWeight + decoded * DecoderWeight) * registered
  }

  lemma ComputedAsWeighted(c: Counters)
    requires c.totalToDownload > 0 && c.totalFiles > 0
    ensures ComputedProgress(c) == Weighted(
      c.totalDownloaded as real / c.totalToDownload as real,
      c.totalDecoded as real / c.totalFiles as real,
      c.totalFilesRegistered as real / c.totalFiles as real)
  {
  }

  lemma WeightedMonotone(a1: real, a2: real, b1: real, b2: real, w: real)
    requires 0.0 <= a1 <= a2 && 0.0 <= b1 <= b2 && w >= 0.0
    ensures 0.0 <= Weighted(a1, b1, w) <= Weighted(a2, b2, w)
  {
    var inner1 := a1 * DownloadWeight + b1 * DecoderWeight;
    var inner2 := a2 * DownloadWeight + b2 * DecoderWeight;
    assert 0.0 <= inner1 <= inner2;
    MulMonotone(inner1, inner2, w);
  }

  lemma MulMonotone(x: real, y: real, w: real)
    requires 0.0 <= x <= y && w >= 0.0
    ensures 0.0 <= x * w <= y * w
  {
    assert y * w - x * w == (y - x) * w;
  }

  lemma DivAtMostOne(x: real, y: real)
    requires 0.0 <= x <= y && y > 0.0
    ensures 0.0 <= x / y <= 1.0
  {
    assert x / y * y == x;
  }

  lemma DivMonotone(x: real, y: real, z: real)
    requires 0.0 <= x <= y && z > 0.0
    ensures 0.0 <= x / z <= y / z
  {
    assert y / z - x / z == (y - x) / z;
  }

  /**
   * A registration can lower the computed fraction, which is why the guard
   * in `updateUI` exists: one fully downloaded 100-byte file gives 0.08;
   * registering a 1000-byte file then computes 0.8 * (100 / 1100) * 0.2,
   * about 0.0145, and the accepted value stays 0.08.
   */
  lemma RegistrationCanLowerProgress()
    ensures var c := Counters(100, 100, 10, 1, 0, 0.08);
      c.Valid() && ComputedProgress(c) == 0.08 &&
      ComputedProgress(c.(totalToDownload := 1100, totalFilesRegistered := 2)) < 0.08 &&
      Registered(c, 1000).lastTotalProgress == 0.08
  {
  }

  /** The object behind `ProgressManager.register` and `ProgressManager.report`. */
  class ProgressManager {
    var totalToDownload: nat
    var totalDownloaded: nat
    const totalFiles: nat
    var totalFilesRegistered: nat
    var totalDecoded: nat
    var lastTotalProgress: real

    /** The object's state as a value. */
    function Snapshot(): Counters
      reads this
    {
      Counters(totalToDownload, totalDownloaded, totalFiles, totalFilesRegistered,
               totalDecoded, lastTotalProgress)
    }

    ghost predicate Valid()
      reads this
    {
      Snapshot().Valid()
    }

    /** A fresh accumulator expecting one file per entry of `BITRATES`. */
    constructor ()
      ensures Valid() && Snapshot() == Start()
    {
      totalToDownload := 0;
      totalDownloaded := 0;
      totalFiles := |Config.Bitrates|;
      totalFilesRegistered := 0;
      totalDecoded := 0;
      lastTotalProgress := 0.0;
      new;
      assert Snapshot() == Start();
    }

    method Register(fileSize: nat)
      requires Valid() && fileSize > 0
      modifies this
      ensures Valid()
      ensures Snapshot() == Registered(old(Snapshot()), fileSize)
    {
      totalToDownload := totalToDownload + fileSize;
      totalFilesRegistered := totalFilesRegistered + 1;
      UpdateUI();
    }

    method Report(bytesDownloaded: Option<nat>, decoded: Option<nat>)
      requires Valid() && totalFilesRegistered > 0
      modifies this
      ensures Valid()
      ensures Snapshot() == Reported(old(Snapshot()), bytesDownloaded, decoded)
    {
      totalDownloaded := totalDownloaded + OrZero(bytesDownloaded);
      totalDecoded := totalDecoded + OrZero(decoded);
      UpdateUI();
    }

    /** Recompute the fraction and keep it only if it does not go backwards. */
    method UpdateUI()
      requires Valid() && totalToDownload > 0
      modifies this`lastTotalProgress
      ensures Valid()
      ensures Snapshot() == Updated(old(Snapshot()))
    {
      var registeredDownloadsWeight := totalFilesRegistered as real / totalFiles as real;
      var downloadProgress := (totalDownloaded as real / totalToDownload as real) * DownloadWeight;
      var decodeProgress := (totalDecoded as real / totalFiles as real) * DecoderWeight;
      var totalProgress := (downloadProgress + decodeProgress) * registeredDownloadsWeight;
      assert totalProgress == ComputedProgress(Snapshot());
      if totalProgress < lastTotalProgress {
        return;
      }
      lastTotalProgress := totalProgress;
    }
  }
}
