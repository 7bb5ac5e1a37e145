/**
 * The `calc` pipeline of assets/app.js on values: from sanitised hours,
 * minutes and seconds and the distance reading to what the results panel
 * shows (an error message, or the summary and the three tables).
 */
module Calculation {

  import opened JsNumber
  import opened Helpers

  /** The race-day checkpoint candidates, in km. */
  const RaceCheckpointsKm: seq<real> := [5.0, 10.0, 21.0975, 30.0, 40.0]
  /** The extended marker candidates, in km. */
  const MarkersKm: seq<real> := [5.0, 10.0, 15.0, 20.0, 21.0975, 25.0, 30.0, 35.0, 40.0]

  const DistanceInvalidMessage := "Distance is invalid. Please select a distance."
  const FinishTimeMessage := "Enter a finish time above 0."
  const NoCheckpointsNote := "No checkpoints for this distance."
  const NoMarkersNote := "No markers for this distance."

  /** What the results panel shows. `Blank` is empty markup. */
  datatype Output = Blank | Message(text: string) | Results(report: Report)

  /**
   * The summary line and the three tables. The summary shows the pace as
   * `PaceText`, the finish time as `FinishTimeText` and the distance.
   */
  datatype Report = Report(
    secPerKm: real,
    totalSeconds: int,
    distKm: real,
    race: seq<Row>,
    markers: seq<Row>,
    splits: seq<Row>)
  {
    /** "Average pace: M:SS min/km" */
    function PaceText(): string { SecondsToPace(secPerKm) }

    /** "Finish time: H:MM:SS" */
    function FinishTimeText(): string { SecondsToHMS(totalSeconds as real) }
  }

  predicate StrictlyIncreasing(ks: seq<real>)
  {
    forall i, j :: 0 <= i < j < |ks| ==> ks[i] < ks[j]
  }

  /** `ks.filter(k => k < dist)`. On increasing candidates the survivors are a prefix. */
  function FilterBelow(ks: seq<real>, dist: real): (r: seq<real>)
    ensures |r| <= |ks|
    ensures forall k :: k in r <==> k in ks && k < dist
    ensures StrictlyIncreasing(ks) ==> r == ks[..|r|]
  {
    if ks == [] then []
    else
      var rest := FilterBelow(ks[1..], dist);
      assert StrictlyIncreasing(ks) ==> StrictlyIncreasing(ks[1..]);
      if ks[0] < dist then
        assert StrictlyIncreasing(ks) ==> [ks[0]] + rest == ks[..|rest| + 1] by {
          if StrictlyIncreasing(ks) {
            assert rest == ks[1..][..|rest|];
          }
        }
        [ks[0]] + rest
      else
        assert StrictlyIncreasing(ks) ==> rest == [];
        rest
  }

  /** `h * 3600 + m * 60 + s`: with minutes and seconds below 60 the total lies in hour h and, within it, in minute m. */
  function TotalSeconds(h: int, m: int, s: int): (t: int)
    ensures 0 <= m < 60 && 0 <= s < 60 ==>
      && h * 3600 <= t < h * 3600 + 3600
      && h * 3600 + m * 60 <= t < h * 3600 + m * 60 + 60
  {
    h * 3600 + m * 60 + s
  }

  /** The filtered candidates as rows, or the single placeholder row when none is below the distance. */
  function CheckpointTable(ks: seq<real>, dist: real, secPerKm: real, note: string): (r: seq<Row>)
  {
    var below := FilterBelow(ks, dist);
    if below == [] then [Placeholder(note)] else CheckpointRows(below, secPerKm)
  }

  /** A checkpoint table is never empty, never holds a finish row, and is the placeholder alone exactly when no candidate is below the distance. */
  lemma CheckpointTableShape(ks: seq<real>, dist: real, secPerKm: real, note: string)
    ensures var r := CheckpointTable(ks, dist, secPerKm, note);
      && |r| >= 1
      && (r == [Placeholder(note)] <==> forall k :: k in ks ==> k >= dist)
      && (forall i :: 0 <= i < |r| ==> !r[i].Finish?)
  {
    var below := FilterBelow(ks, dist);
    if below != [] {
      assert below[0] in below;
      assert CheckpointTable(ks, dist, secPerKm, note)[0].Checkpoint?;
    }
  }

  /** The race table's finish caption: "Finish (42.2)" for the marathon, else "Finish (<dist> km)". */
  function RaceFinishLabel(dist: real): (l: Label)
    ensures l == MarathonFinish <==> IsMarathonDistance(dist)
    ensures l != MarathonFinish ==> l == DistanceFinish(dist)
  {
    if IsMarathonDistance(dist) then MarathonFinish else DistanceFinish(dist)
  }

  /** The split table's finish caption: "42.2 (Finish)" for the marathon, else "<dist> (Finish)". */
  function SplitFinishLabel(dist: real): (l: Label)
    ensures l == MarathonSplitFinish <==> IsMarathonDistance(dist)
    ensures l != MarathonSplitFinish ==> l == DistanceSplitFinish(dist)
  {
    if IsMarathonDistance(dist) then MarathonSplitFinish else DistanceSplitFinish(dist)
  }

  /** The number of whole kilometres the per-km loop visits: `Math.floor(dist)`, or none. */
  function WholeKm(dist: real): (n: nat)
    ensures dist >= 1.0 ==> n >= 1 && n as real <= dist < (n + 1) as real
    ensures dist < 1.0 ==> n == 0
  {
    if dist.Floor > 0 then dist.Floor else 0
  }

  /** The per-km split table: kilometres 1 to `WholeKm(dist)`, then the finish row. */
  function SplitTable(dist: real, secPerKm: real, finishSeconds: real): (r: seq<Row>)
    ensures |r| == WholeKm(dist) + 1
  {
    seq(WholeKm(dist), i requires 0 <= i < WholeKm(dist) => Checkpoint(SplitKm(i + 1), secPerKm * (i + 1) as real))
      + [Finish(SplitFinishLabel(dist), finishSeconds)]
  }

  /** What `calc` puts in the results panel for sanitised `h`, `m`, `s` and the distance reading. */
  function Evaluate(h: int, m: int, s: int, dist: Number): (out: Output)
    ensures out == Message(DistanceInvalidMessage) <==> !dist.IsFinite() || dist.value <= 0.0
    ensures out == Message(FinishTimeMessage) <==>
      dist.IsFinite() && dist.value > 0.0 && TotalSeconds(h, m, s) <= 0
    ensures out.Results? <==> dist.IsFinite() && dist.value > 0.0 && TotalSeconds(h, m, s) > 0
    ensures out.Results? ==> out.report.distKm == dist.value && out.report.totalSeconds == TotalSeconds(h, m, s)
    ensures out.Results? ==> out.report.secPerKm > 0.0
    ensures out.Results? ==> out.report.secPerKm == TotalSeconds(h, m, s) as real / out.report.distKm
  {
    if !dist.IsFinite() || dist.value <= 0.0 then Message(DistanceInvalidMessage)
    else if TotalSeconds(h, m, s) <= 0 then Message(FinishTimeMessage)
    else
      var d := dist.value;
      var total := TotalSeconds(h, m, s) as real;
      var secPerKm := total / d;
      Results(Report(
        secPerKm,
        TotalSeconds(h, m, s),
        d,
        CheckpointTable(RaceCheckpointsKm, d, secPerKm, NoCheckpointsNote) + [Finish(RaceFinishLabel(d), total)],
        CheckpointTable(MarkersKm, d, secPerKm, NoMarkersNote),
        SplitTable(d, secPerKm, total)))
  }

  /** The per-km loop of `calc`: a row for each whole kilometre, then the finish row. */
  method SplitRows(dist: real, secPerKm: real, finishSeconds: real) returns (rows: seq<Row>)
    ensures |rows| == WholeKm(dist) + 1
    ensures forall i :: 0 <= i < WholeKm(dist) ==> rows[i] == Checkpoint(SplitKm(i + 1), secPerKm * (i + 1) as real)
    ensures rows[WholeKm(dist)] == Finish(SplitFinishLabel(dist), finishSeconds)
    ensures rows == SplitTable(dist, secPerKm, finishSeconds)
  {
    var wholeKm := dist.Floor;
    rows := [];
    var km := 1;
    while km <= wholeKm
      invariant 1 <= km <= WholeKm(dist) + 1
      invariant |rows| == km - 1
      invariant forall i :: 0 <= i < |rows| ==> rows[i] == Checkpoint(SplitKm(i + 1), secPerKm * (i + 1) as real)
    {
      rows := rows + [Checkpoint(SplitKm(km), secPerKm * km as real)];
      km := km + 1;
    }
    rows := rows + [Finish(SplitFinishLabel(dist), finishSeconds)];
    var spec := SplitTable(dist, secPerKm, finishSeconds);
    assert forall i :: 0 <= i < |rows| ==> rows[i] == spec[i];
  }

  /** `calc` after sanitising, step by step: the distance check, the time check, then the tables. */
  method Run(h: int, m: int, s: int, dist: Number) returns (out: Output)
    ensures out == Evaluate(h, m, s, dist)
  {
    var totalSec := h * 3600 + m * 60 + s;
    if !dist.IsFinite() || dist.value <= 0.0 {
      return Message(DistanceInvalidMessage);
    }
    if totalSec <= 0 {
      return Message(FinishTimeMessage);
    }
    var d := dist.value;
    var total := totalSec as real;
    var secPerKm := total / d;

    var raceCheckpointsCore := FilterBelow(RaceCheckpointsKm, d);
    var raceRows := BuildCheckpointRows(raceCheckpointsCore, secPerKm);
    var raceTable := (if raceRows == [] then [Placeholder(NoCheckpointsNote)] else raceRows)
      + [Finish(RaceFinishLabel(d), totalSec as real)];

    var markersAll := FilterBelow(MarkersKm, d);
    var markerRows := BuildCheckpointRows(markersAll, secPerKm);
    var markerTable := if markerRows == [] then [Placeholder(NoMarkersNote)] else markerRows;

    var splitRows := SplitRows(d, secPerKm, totalSec as real);

    assert raceTable == CheckpointTable(RaceCheckpointsKm, d, secPerKm, NoCheckpointsNote) + [Finish(RaceFinishLabel(d), total)];
    assert markerTable == CheckpointTable(MarkersKm, d, secPerKm, NoMarkersNote);
    out := Results(Report(secPerKm, totalSec, d, raceTable, markerTable, splitRows));
  }
}
