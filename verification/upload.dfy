/**
 * Aggregate progress of a multi-file upload (`handleFilesUploadTo`): files go
 * up one after another, every progress event of the current file updates its
 * byte count, and the bar shows the floor of the loaded share of all bytes.
 */
module Upload {

  /**
   * One file of the batch: its size, the `bytesTransferred` values its task
   * reported in order, and whether its upload task completed (`false`: it failed).
   */
  datatype FileUpload = FileUpload(size: nat, reports: seq<nat>, ok: bool)

  function Sum(s: seq<nat>): nat {
    if s == [] then 0 else s[0] + Sum(s[1..])
  }

  function Sizes(files: seq<FileUpload>): (r: seq<nat>)
    ensures |r| == |files| && forall i | 0 <= i < |files| :: r[i] == files[i].size
  {
    seq(|files|, i requires 0 <= i < |files| => files[i].size)
  }

  /** `files.reduce((sum, f) => sum + (f.size || 0), 0)`. */
  function TotalBytes(files: seq<FileUpload>): nat {
    Sum(Sizes(files))
  }

  /**
   * The percentage on the bar: `Math.floor(loaded / total * 100)`, or 0 for an
   * empty batch. It is the whole number of percent the loaded bytes make of
   * the total, and reaches 100 exactly when everything is loaded.
   */
  function Percent(loaded: nat, total: nat): (r: nat)
    ensures total == 0 ==> r == 0
    ensures total > 0 ==> r * total <= loaded * 100 < (r + 1) * total
    ensures total > 0 && loaded <= total ==> r <= 100
    ensures total > 0 ==> (r >= 100 <==> loaded >= total)
  {
    if total == 0 then 0
    else
      var q := loaded * 100 / total;
      FloorPercent(loaded, total, q);
      q
  }

  /** The floor of `loaded * 100 / total` brackets the loaded share and reaches 100 exactly at the total. */
  lemma FloorPercent(loaded: nat, total: nat, q: nat)
    requires total > 0 && q == loaded * 100 / total
    ensures q * total <= loaded * 100 < (q + 1) * total
    ensures loaded <= total ==> q <= 100
    ensures q >= 100 <==> loaded >= total
  {
    var x := loaded * 100;
    DivBracket(x, total);
    DivAtLeast(x, total, 100);
    DivAtLeast(x, total, 101);
    if loaded >= total {
      MulLe(total, loaded, 100);
    } else {
      MulLe(loaded + 1, total, 100);
    }
    MulLe(100, 101, total);
  }

  /** More bytes never show a smaller percentage. */
  lemma PercentMonotone(a: nat, b: nat, total: nat)
    requires a <= b
    ensures Percent(a, total) <= Percent(b, total)
  {
    MulLe(a, b, 100);
    if total > 0 && Percent(a, total) > Percent(b, total) {
      MulLe(Percent(b, total) + 1, Percent(a, total), total);
    }
  }

  /** The quotient of floor division times the divisor stays within one divisor below the dividend. */
  lemma DivBracket(x: nat, d: nat)
    requires d > 0
    ensures (x / d) * d <= x < (x / d + 1) * d
  {
    assert x == (x / d) * d + x % d && 0 <= x % d < d;
  }

  /** Floor division reaches `q` exactly when the dividend reaches `q` times the divisor. */
  lemma DivAtLeast(x: nat, d: nat, q: nat)
    requires d > 0
    ensures x / d >= q <==> x >= q * d
  {
    var t := x / d;
    assert x == t * d + x % d && 0 <= x % d < d;
    if t >= q {
      MulLe(q, t, d);
    } else {
      MulLe(t + 1, q, d);
    }
  }

  lemma MulLe(a: nat, b: nat, d: nat)
    requires a <= b
    ensures a * d <= b * d
  {
  }

  lemma {:induction false} SumUpdate(p: seq<nat>, i: int, v: nat)
    requires 0 <= i < |p|
    ensures Sum(p[i := v]) == Sum(p) - p[i] + v
  {
    if i > 0 {
      SumUpdate(p[1..], i - 1, v);
      assert p[i := v][1..] == p[1..][i - 1 := v];
    }
  }

  lemma {:induction false} SumPointwise(p: seq<nat>, q: seq<nat>)
    requires |p| == |q| && forall j | 0 <= j < |p| :: p[j] <= q[j]
    ensures Sum(p) <= Sum(q)
  {
    if p != [] {
      SumPointwise(p[1..], q[1..]);
    }
  }

  /** No report claims more bytes than the file has. */
  predicate WellSized(files: seq<FileUpload>) {
    forall i, k | 0 <= i < |files| && 0 <= k < |files[i].reports| :: files[i].reports[k] <= files[i].size
  }

  /** Each file's reports never go backwards. */
  predicate Monotone(files: seq<FileUpload>) {
    forall i | 0 <= i < |files| :: NonDecreasing(files[i].reports)
  }

  /** The bytes a file ends at: its last report, or 0 when it reported nothing. */
  function FinalBytes(f: FileUpload): nat {
    if f.reports == [] then 0 else f.reports[|f.reports| - 1]
  }

  predicate AllOk(files: seq<FileUpload>) {
    forall i | 0 <= i < |files| :: files[i].ok
  }

  predicate NonDecreasing(s: seq<nat>) {
    forall k, m | 0 <= k < m < |s| :: s[k] <= s[m]
  }

  /** The bar values one file's reports produce while `done` bytes of earlier files are in. */
  function ReportsShown(reports: seq<nat>, done: nat, total: nat): (r: seq<nat>)
    ensures |r| == |reports|
  {
    seq(|reports|, k requires 0 <= k < |reports| => Percent(done + reports[k], total))
  }

  /**
   * The bar values of the remaining files when `done` bytes are already in:
   * each file's reports on top of the finished files' final byte counts; a
   * failed file ends the batch after its own reports.
   */
  function ShownFrom(files: seq<FileUpload>, done: nat, total: nat): seq<nat>
    decreases |files|
  {
    if files == [] then []
    else if files[0].ok then
      ReportsShown(files[0].reports, done, total) + ShownFrom(files[1..], done + FinalBytes(files[0]), total)
    else
      ReportsShown(files[0].reports, done, total)
  }

  /** Every value the bar shows in order: 0, then one per progress report. */
  function ExpectedShown(files: seq<FileUpload>): seq<nat> {
    [Percent(0, TotalBytes(files))] + ShownFrom(files, 0, TotalBytes(files))
  }

  /**
   * The upload loop: the percentages shown, starting with the initial 0%, and
   * whether every file completed (only then are the caches invalidated and
   * the listing refreshed; a failed task ends the loop by throwing).
   */
  method UploadProgress(files: seq<FileUpload>) returns (shown: seq<nat>, completed: bool)
    ensures shown == ExpectedShown(files)
    ensures |shown| >= 1 && shown[0] == 0
    ensures completed <==> AllOk(files)
    ensures WellSized(files) ==> forall k | 0 <= k < |shown| :: shown[k] <= 100
    ensures Monotone(files) ==> NonDecreasing(shown)
    ensures completed && TotalBytes(files) > 0 && (forall i | 0 <= i < |files| :: FinalBytes(files[i]) == files[i].size)
      ==> shown[|shown| - 1] == 100
  {
    var progress;
    shown, completed, progress := UploadFiles(files);
    ShownBar(files, shown);
    if completed && TotalBytes(files) > 0 && (forall j | 0 <= j < |files| :: FinalBytes(files[j]) == files[j].size) {
      assert progress == Sizes(files);
    }
  }

  /**
   * The loop over the batch: each file's reports in turn, ending after the
   * first failed file; `progress` holds each file's byte count.
   */
  method UploadFiles(files: seq<FileUpload>) returns (shown: seq<nat>, completed: bool, progress: seq<nat>)
    ensures shown == ExpectedShown(files)
    ensures completed <==> AllOk(files)
    ensures |progress| == |files|
    ensures completed ==> forall j | 0 <= j < |files| :: progress[j] == FinalBytes(files[j])
    ensures |shown| >= 1 && shown[|shown| - 1] == Percent(Sum(progress), TotalBytes(files))
  {
    var total := TotalBytes(files);
    progress := seq(|files|, _ => 0);
    assert Sum(progress) == 0 by { SumZeros(progress); }
    shown := [Percent(0, total)];
    completed := true;
    var i := 0;
    ghost var loaded: nat := 0;
    while i < |files| && completed
      invariant 0 <= i <= |files|
      invariant |progress| == |files|
      invariant forall j | i <= j < |files| :: progress[j] == 0
      invariant forall j | 0 <= j < i :: progress[j] == FinalBytes(files[j])
      invariant completed ==> forall j | 0 <= j < i :: files[j].ok
      invariant !completed ==> 0 < i && !files[i - 1].ok && shown == ExpectedShown(files)
      invariant |shown| >= 1 && shown[|shown| - 1] == Percent(Sum(progress), total)
      invariant loaded == Sum(progress)
      invariant completed ==> OnTrack(files, i, shown, loaded)
    {
      AdvanceShown(files, i, shown, loaded);
      progress, shown := ReportFile(files, i, progress, shown);
      loaded := loaded + FinalBytes(files[i]);
      completed := files[i].ok;
      i := i + 1;
    }
    if completed {
      assert files[i..] == [];
      assert shown + [] == ExpectedShown(files);
    }
  }

  /** The progress events of file `i`: each sets its byte count and redraws the bar. */
  method ReportFile(files: seq<FileUpload>, i: nat, progress0: seq<nat>, shown0: seq<nat>)
    returns (progress: seq<nat>, shown: seq<nat>)
    requires i < |files| == |progress0| && progress0[i] == 0
    requires |shown0| >= 1 && shown0[|shown0| - 1] == Percent(Sum(progress0), TotalBytes(files))
    ensures progress == progress0[i := FinalBytes(files[i])]
    ensures Sum(progress) == Sum(progress0) + FinalBytes(files[i])
    ensures shown == shown0 + ReportsShown(files[i].reports, Sum(progress0), TotalBytes(files))
    ensures |shown| >= 1 && shown[|shown| - 1] == Percent(Sum(progress), TotalBytes(files))
  {
    var total := TotalBytes(files);
    var reports := files[i].reports;
    progress, shown := progress0, shown0;
    var k := 0;
    while k < |reports|
      invariant 0 <= k <= |reports|
      invariant progress == progress0[i := if k == 0 then 0 else reports[k - 1]]
      invariant shown == shown0 + ReportsShown(reports[..k], Sum(progress0), total)
    {
      ReportsShownSnoc(reports, k, Sum(progress0), total);
      SumUpdate(progress0, i, reports[k]);
      assert progress[i := reports[k]] == progress0[i := reports[k]];
      progress := progress[i := reports[k]];
      shown := shown + [Percent(Sum(progress), total)];
      k := k + 1;
    }
    assert progress0[i := 0] == progress0;
    assert reports[..|reports|] == reports;
    if reports != [] {
      SumUpdate(progress0, i, reports[|reports| - 1]);
    }
  }

  lemma ReportsShownSnoc(reports: seq<nat>, k: nat, done: nat, total: nat)
    requires k < |reports|
    ensures ReportsShown(reports[..k + 1], done, total)
         == ReportsShown(reports[..k], done, total) + [Percent(done + reports[k], total)]
  {
  }

  /** `shown` and the bar values the files from `i` on will add, with `loaded` bytes in, make the whole reference. */
  predicate OnTrack(files: seq<FileUpload>, i: nat, shown: seq<nat>, loaded: nat)
    requires i <= |files|
  {
    shown + ShownFrom(files[i..], loaded, TotalBytes(files)) == ExpectedShown(files)
  }

  /**
   * Passing file `i` moves its reports from the bar values still to come to
   * those already shown; a failed file leaves nothing to come.
   */
  lemma AdvanceShown(files: seq<FileUpload>, i: nat, shown: seq<nat>, loaded: nat)
    requires i < |files| && OnTrack(files, i, shown, loaded)
    ensures files[i].ok ==>
      OnTrack(files, i + 1, shown + ReportsShown(files[i].reports, loaded, TotalBytes(files)), loaded + FinalBytes(files[i]))
    ensures !files[i].ok ==> shown + ReportsShown(files[i].reports, loaded, TotalBytes(files)) == ExpectedShown(files)
  {
    var total := TotalBytes(files);
    assert files[i..][0] == files[i];
    assert files[i..][1..] == files[i + 1..];
    var a := ReportsShown(files[i].reports, loaded, total);
    if files[i].ok {
      assert ShownFrom(files[i..], loaded, total) == a + ShownFrom(files[i + 1..], loaded + FinalBytes(files[i]), total);
    } else {
      assert ShownFrom(files[i..], loaded, total) == a;
    }
  }

  /** The bar the reference describes starts at 0, stays within 100 and never goes back under the respective conditions. */
  lemma ShownBar(files: seq<FileUpload>, shown: seq<nat>)
    requires shown == ExpectedShown(files)
    ensures |shown| >= 1 && shown[0] == 0
    ensures WellSized(files) ==> forall k | 0 <= k < |shown| :: shown[k] <= 100
    ensures Monotone(files) ==> NonDecreasing(shown)
  {
    if WellSized(files) {
      ExpectedShownBounded(files);
    }
    if Monotone(files) {
      ExpectedShownMonotone(files);
    }
  }

  /**
   * Against the reference: every value the bar shows stays within 100 when no
   * report exceeds its file's size.
   */
  lemma ExpectedShownBounded(files: seq<FileUpload>)
    requires WellSized(files)
    ensures forall k | 0 <= k < |ExpectedShown(files)| :: ExpectedShown(files)[k] <= 100
  {
    ShownFromBounded(files, 0, TotalBytes(files));
  }

  /** Against the reference: the bar never goes back when every file's reports are monotone. */
  lemma ExpectedShownMonotone(files: seq<FileUpload>)
    requires Monotone(files)
    ensures NonDecreasing(ExpectedShown(files))
  {
    var t := TotalBytes(files);
    ShownFromMonotone(files, 0, t);
    ConcatBetween([Percent(0, t)], ShownFrom(files, 0, t), Percent(0, t), Percent(0, t));
  }

  lemma {:induction false} ShownFromBounded(files: seq<FileUpload>, done: nat, total: nat)
    requires WellSized(files) && done + TotalBytes(files) <= total
    ensures forall k | 0 <= k < |ShownFrom(files, done, total)| :: ShownFrom(files, done, total)[k] <= 100
    decreases |files|
  {
    if files != [] {
      var f := files[0];
      assert Sizes(files)[1..] == Sizes(files[1..]);
      assert TotalBytes(files) == f.size + TotalBytes(files[1..]);
      forall k | 0 <= k < |ReportsShown(f.reports, done, total)|
        ensures ReportsShown(f.reports, done, total)[k] <= 100
      {
        assert f.reports[k] <= f.size;
      }
      if f.ok {
        WellSizedRest(files);
        assert FinalBytes(f) <= f.size;
        ShownFromBounded(files[1..], done + FinalBytes(f), total);
        ConcatAtMost(ReportsShown(f.reports, done, total), ShownFrom(files[1..], done + FinalBytes(f), total), 100);
      }
    }
  }

  /** The bar values of the remaining files rise and never drop below the percentage already reached. */
  lemma {:induction false} ShownFromMonotone(files: seq<FileUpload>, done: nat, total: nat)
    requires Monotone(files)
    ensures NonDecreasing(ShownFrom(files, done, total))
    ensures forall k | 0 <= k < |ShownFrom(files, done, total)| :: Percent(done, total) <= ShownFrom(files, done, total)[k]
    decreases |files|
  {
    if files != [] {
      var f := files[0];
      ReportsShownBetween(f, done, total);
      if f.ok {
        PercentMonotone(done, done + FinalBytes(f), total);
        MonotoneRest(files);
        ShownFromMonotone(files[1..], done + FinalBytes(f), total);
        ConcatBetween(ReportsShown(f.reports, done, total), ShownFrom(files[1..], done + FinalBytes(f), total),
                      Percent(done, total), Percent(done + FinalBytes(f), total));
      }
    }
  }

  /** One file's bar values rise with its reports and lie between the percentage before it and the one at its final report. */
  lemma ReportsShownBetween(f: FileUpload, done: nat, total: nat)
    requires NonDecreasing(f.reports)
    ensures NonDecreasing(ReportsShown(f.reports, done, total))
    ensures forall k | 0 <= k < |ReportsShown(f.reports, done, total)| ::
      Percent(done, total) <= ReportsShown(f.reports, done, total)[k] <= Percent(done + FinalBytes(f), total)
  {
    var a := ReportsShown(f.reports, done, total);
    forall k | 0 <= k < |a|
      ensures Percent(done, total) <= a[k] <= Percent(done + FinalBytes(f), total)
    {
      PercentMonotone(done, done + f.reports[k], total);
      PercentMonotone(done + f.reports[k], done + FinalBytes(f), total);
    }
    forall k, m | 0 <= k < m < |a|
      ensures a[k] <= a[m]
    {
      PercentMonotone(done + f.reports[k], done + f.reports[m], total);
    }
  }

  lemma WellSizedRest(files: seq<FileUpload>)
    requires files != [] && WellSized(files)
    ensures WellSized(files[1..])
  {
    forall j, k | 0 <= j < |files[1..]| && 0 <= k < |files[1..][j].reports|
      ensures files[1..][j].reports[k] <= files[1..][j].size
    {
      assert files[1..][j] == files[j + 1];
    }
  }

  lemma MonotoneRest(files: seq<FileUpload>)
    requires files != [] && Monotone(files)
    ensures Monotone(files[1..])
  {
    forall j | 0 <= j < |files[1..]|
      ensures NonDecreasing(files[1..][j].reports)
    {
      assert files[1..][j] == files[j + 1];
    }
  }

  /** Two runs within a bound stay within it when joined. */
  lemma ConcatAtMost(a: seq<nat>, b: seq<nat>, c: nat)
    requires forall k | 0 <= k < |a| :: a[k] <= c
    requires forall k | 0 <= k < |b| :: b[k] <= c
    ensures forall k | 0 <= k < |a + b| :: (a + b)[k] <= c
  {
    forall k | 0 <= k < |a + b|
      ensures (a + b)[k] <= c
    {
      if k >= |a| {
        assert (a + b)[k] == b[k - |a|];
      }
    }
  }

  /**
   * Two non-decreasing runs join into one when a threshold `c` separates them;
   * every value stays at least `p` when the first run does and `p <= c`.
   */
  lemma ConcatBetween(a: seq<nat>, b: seq<nat>, p: nat, c: nat)
    requires NonDecreasing(a) && NonDecreasing(b) && p <= c
    requires forall k | 0 <= k < |a| :: p <= a[k] <= c
    requires forall k | 0 <= k < |b| :: c <= b[k]
    ensures NonDecreasing(a + b)
    ensures forall k | 0 <= k < |a + b| :: p <= (a + b)[k]
  {
    forall k, m | 0 <= k < m < |a + b|
      ensures (a + b)[k] <= (a + b)[m]
    {
      if m < |a| {
      } else if k >= |a| {
        assert (a + b)[k] == b[k - |a|] && (a + b)[m] == b[m - |a|];
      } else {
        assert (a + b)[k] == a[k] && (a + b)[m] == b[m - |a|];
      }
    }
    forall k | 0 <= k < |a + b|
      ensures p <= (a + b)[k]
    {
      if k >= |a| {
        assert (a + b)[k] == b[k - |a|];
      }
    }
  }

  lemma {:induction false} SumZeros(p: seq<nat>)
    requires forall j | 0 <= j < |p| :: p[j] == 0
    ensures Sum(p) == 0
  {
    if p != [] {
      SumZeros(p[1..]);
    }
  }
}
