/**
 * `buildChart` of assets/app.js: the static "common finish times" table for
 * the marathon, 2:30:00 to 6:00:00 in steps of five minutes, each with its
 * average pace over 42.195 km.
 */
module Chart {

  import opened JsNumber
  import opened Decimal
  import opened Helpers

  const StartMin := 150   // 2:30
  const EndMin := 360     // 6:00
  const StepMin := 5
  /** The number of rows the loop writes: (360 - 150) / 5 + 1. */
  const RowCount := 43

  /** One chart row: the finish time's hours and minutes, and the average pace in seconds per km. */
  datatype ChartRow = ChartRow(hh: int, mm: int, secPerKm: real)
  {
    /** The finish-time cell, "H:MM:00". */
    function FinishText(): string { IntToString(hh) + ":" + Pad2(mm) + ":00" }

    /** The pace cell, "M:SS min/km". */
    function PaceText(): string { SecondsToPace(secPerKm) }
  }

  /** The row the loop writes for a finish time of `min` minutes. */
  function ChartRowAt(min: int): (r: ChartRow)
    ensures min >= 0 ==> r.hh >= 0 && 0 <= r.mm < 60 && r.hh * 60 + r.mm == min
  {
    ChartRow(min / 60, min % 60, (min * 60) as real / 42.195)
  }

  /** The loop of `buildChart`: one row per five minutes from `StartMin` to `EndMin` inclusive. */
  method BuildChartRows() returns (rows: seq<ChartRow>)
    ensures |rows| == RowCount
    ensures forall i :: 0 <= i < RowCount ==> rows[i] == ChartRowAt(StartMin + StepMin * i)
  {
    rows := [];
    var min := StartMin;
    while min <= EndMin
      invariant StartMin <= min <= EndMin + StepMin
      invariant min == StartMin + StepMin * |rows|
      invariant forall i :: 0 <= i < |rows| ==> rows[i] == ChartRowAt(StartMin + StepMin * i)
    {
      var totalSec := min * 60;
      var pace := totalSec as real / 42.195;
      var hh := min / 60;     // Math.floor(min / 60)
      var mm := min % 60;
      rows := rows + [ChartRow(hh, mm, pace)];
      min := min + StepMin;
    }
  }

  /** The chart's finish column is `secondsToHMS` of the finish time in seconds. */
  lemma ChartFinishIsHMS(min: int)
    requires min >= 0
    ensures ChartRowAt(min).FinishText() == SecondsToHMS((min * 60) as real)
  {
    var t := min * 60;
    assert Round(t as real) == t;
    var q, r := min / 60, min % 60;
    assert t == 3600 * q + 60 * r && 0 <= 60 * r < 3600;
    assert t / 3600 == q && t % 3600 == 60 * r;
    assert Rem(t, 3600) / 60 == r;
    assert Rem(t, 60) == 0;
    assert Pad2(0) == "00";
  }

  /** Each chart row's finish cell reads back as its finish time in seconds. */
  lemma ChartFinishReadsBack(min: int)
    requires min >= 0
    ensures ParseHMS(ChartRowAt(min).FinishText()).Some?
    ensures var p := ParseHMS(ChartRowAt(min).FinishText()).value; p.0 * 3600 + p.1 * 60 + p.2 == min * 60
  {
    var t := (min * 60) as real;
    ChartFinishIsHMS(min);
    assert Round(t) == min * 60;
    HMSRoundTrip(t);
  }

  /** Each chart row's pace cell reads back as the rounded marathon pace, with a seconds field below 60. */
  lemma ChartPaceReadsBack(min: int)
    requires min >= 0
    ensures ParsePace(ChartRowAt(min).PaceText()).Some?
    ensures var p := ParsePace(ChartRowAt(min).PaceText()).value; p.1 < 60 && p.0 * 60 + p.1 == Round((min * 60) as real / 42.195)
  {
    var x := (min * 60) as real / 42.195;
    assert x >= 0.0;
    PaceRoundTrip(x);
  }

  /** The chart runs from 2:30:00 to 6:00:00. */
  lemma ChartSpan()
    ensures ChartRowAt(StartMin).FinishText() == "2:30:00"
    ensures ChartRowAt(StartMin + StepMin * (RowCount - 1)).FinishText() == "6:00:00"
  {
    assert NatToString(30) == "30";
    assert Pad2(0) == "00";
  }
}
