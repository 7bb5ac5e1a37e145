/**
 * What the tables that `calc` builds contain, stated against the candidate
 * lists and the distance, and what the summary line reads back as.
 */
module CalculationProperties {

  import opened JsNumber
  import opened Wrappers
  import opened Decimal
  import opened Helpers
  import opened Calculation

  /** `rows` lists exactly the candidates below `dist`, in the candidates' order, each at its cumulative time. */
  predicate ListsExactlyBelow(rows: seq<Row>, ks: seq<real>, dist: real, secPerKm: real)
  {
    && |rows| <= |ks|
    && (forall i :: 0 <= i < |ks| ==> (i < |rows| <==> ks[i] < dist))
    && (forall i :: 0 <= i < |rows| ==> rows[i] == Checkpoint(LabelForKm(ks[i]), secPerKm * ks[i]))
  }

  lemma CandidatesIncreasing()
    ensures StrictlyIncreasing(RaceCheckpointsKm) && StrictlyIncreasing(MarkersKm)
  {
  }

  /** A checkpoint table over increasing candidates: the candidates below the distance, or the placeholder alone. */
  lemma {:induction false} CheckpointTableExact(ks: seq<real>, dist: real, secPerKm: real, note: string)
    requires StrictlyIncreasing(ks)
    ensures |ks| > 0 && ks[0] < dist ==> ListsExactlyBelow(CheckpointTable(ks, dist, secPerKm, note), ks, dist, secPerKm)
    ensures !(|ks| > 0 && ks[0] < dist) ==> CheckpointTable(ks, dist, secPerKm, note) == [Placeholder(note)]
  {
    var below := FilterBelow(ks, dist);
    var t := CheckpointTable(ks, dist, secPerKm, note);
    if |ks| > 0 && ks[0] < dist {
      assert ks[0] in below;
      assert t == CheckpointRows(below, secPerKm);
      assert |t| == |below| && below == ks[..|below|];
      forall i | 0 <= i < |ks|
        ensures i < |t| <==> ks[i] < dist
      {
        if i < |below| {
          assert ks[i] == below[i];
          assert below[i] in below;
        }
        if ks[i] < dist {
          assert ks[i] in below;
          var j :| 0 <= j < |below| && below[j] == ks[i];
          assert ks[j] == ks[i];
          assert !(j < i) && !(i < j);
        }
      }
    }
  }

  /** The race-day table: the race candidates below the distance (or the placeholder), then exactly one finish row. */
  lemma RaceTableExact(h: int, m: int, s: int, dist: Number)
    requires dist.IsFinite() && dist.value > 0.0 && TotalSeconds(h, m, s) > 0
    ensures var r := Evaluate(h, m, s, dist).report;
      var total := TotalSeconds(h, m, s) as real;
      && |r.race| >= 2
      && r.race[|r.race| - 1] == Finish(if IsMarathonDistance(r.distKm) then MarathonFinish else DistanceFinish(r.distKm), total)
      && (forall i :: 0 <= i < |r.race| - 1 ==> !r.race[i].Finish?)
      && (r.distKm <= 5.0 ==> r.race[..|r.race| - 1] == [Placeholder(NoCheckpointsNote)])
      && (r.distKm > 5.0 ==> ListsExactlyBelow(r.race[..|r.race| - 1], RaceCheckpointsKm, r.distKm, r.secPerKm))
  {
    var r := Evaluate(h, m, s, dist).report;
    var total := TotalSeconds(h, m, s) as real;
    CandidatesIncreasing();
    CheckpointTableExact(RaceCheckpointsKm, r.distKm, r.secPerKm, NoCheckpointsNote);
    var body := CheckpointTable(RaceCheckpointsKm, r.distKm, r.secPerKm, NoCheckpointsNote);
    assert r.race == body + [Finish(RaceFinishLabel(r.distKm), total)];
    assert r.race[..|r.race| - 1] == body;
  }

  /** The extended markers: the marker candidates below the distance (or the placeholder), with no finish row. */
  lemma MarkerTableExact(h: int, m: int, s: int, dist: Number)
    requires dist.IsFinite() && dist.value > 0.0 && TotalSeconds(h, m, s) > 0
    ensures var r := Evaluate(h, m, s, dist).report;
      var total := TotalSeconds(h, m, s) as real;
      && (forall i :: 0 <= i < |r.markers| ==> !r.markers[i].Finish?)
      && (r.distKm <= 5.0 ==> r.markers == [Placeholder(NoMarkersNote)])
      && (r.distKm > 5.0 ==> ListsExactlyBelow(r.markers, MarkersKm, r.distKm, r.secPerKm))
  {
    var r := Evaluate(h, m, s, dist).report;
    var total := TotalSeconds(h, m, s) as real;
    CandidatesIncreasing();
    CheckpointTableExact(MarkersKm, r.distKm, r.secPerKm, NoMarkersNote);
  }

  /** The per-km table for a positive distance: kilometres 1 to floor(dist), then exactly one finish row. */
  lemma SplitTableShape(dist: real, secPerKm: real, finishSeconds: real)
    requires dist > 0.0
    ensures var t := SplitTable(dist, secPerKm, finishSeconds);
      && |t| == dist.Floor + 1
      && (forall k :: 1 <= k <= dist.Floor ==> t[k - 1] == Checkpoint(SplitKm(k), secPerKm * k as real))
      && t[|t| - 1] == Finish(if IsMarathonDistance(dist) then MarathonSplitFinish else DistanceSplitFinish(dist), finishSeconds)
      && (forall i :: 0 <= i < |t| - 1 ==> !t[i].Finish?)
  {
    assert WholeKm(dist) == dist.Floor;
  }

  /** The per-km splits: kilometres 1 to floor(dist) in increasing order, then exactly one finish row. */
  lemma SplitTableExact(h: int, m: int, s: int, dist: Number)
    requires dist.IsFinite() && dist.value > 0.0 && TotalSeconds(h, m, s) > 0
    ensures var r := Evaluate(h, m, s, dist).report;
      var total := TotalSeconds(h, m, s) as real;
      && |r.splits| == r.distKm.Floor + 1
      && (forall k :: 1 <= k <= r.distKm.Floor ==> r.splits[k - 1] == Checkpoint(SplitKm(k), r.secPerKm * k as real))
      && r.splits[|r.splits| - 1] == Finish(if IsMarathonDistance(r.distKm) then MarathonSplitFinish else DistanceSplitFinish(r.distKm), total)
      && (forall i :: 0 <= i < |r.splits| - 1 ==> !r.splits[i].Finish?)
  {
    var r := Evaluate(h, m, s, dist).report;
    ReportSplits(h, m, s, dist);
    SplitTableShape(r.distKm, r.secPerKm, TotalSeconds(h, m, s) as real);
  }

  /** The report's per-km table is the split table over its own distance, pace and total. */
  lemma ReportSplits(h: int, m: int, s: int, dist: Number)
    requires dist.IsFinite() && dist.value > 0.0 && TotalSeconds(h, m, s) > 0
    ensures var r := Evaluate(h, m, s, dist).report;
      r.splits == SplitTable(r.distKm, r.secPerKm, r.totalSeconds as real)
  {
  }

  /** The finish time of a sanitised entry reads back as exactly that entry. */
  lemma FinishTimeReadsBack(h: int, m: int, s: int)
    requires h >= 0 && 0 <= m < 60 && 0 <= s < 60
    ensures ParseHMS(SecondsToHMS(TotalSeconds(h, m, s) as real)) == Some((h, m, s))
  {
    var total := TotalSeconds(h, m, s);
    assert Round(total as real) == total;
    HMSRoundTrip(total as real);
    var p := ParseHMS(SecondsToHMS(total as real)).value;
    HMSUnique(p.0, p.1, p.2, h, m, s);
  }

  /** The time cell of split k reads back as the cumulative time secPerKm * k rounded. */
  lemma SplitTimeReadsBack(dist: real, secPerKm: real, finishSeconds: real, k: int)
    requires secPerKm > 0.0 && 1 <= k <= WholeKm(dist)
    ensures var p := ParseHMS(TimeText(SplitTable(dist, secPerKm, finishSeconds)[k - 1]));
      p.Some? && p.value.1 < 60 && p.value.2 < 60 && p.value.0 * 3600 + p.value.1 * 60 + p.value.2 == Round(secPerKm * k as real)
  {
    var x := secPerKm * k as real;
    assert x >= 0.0 by {
      assert x == secPerKm + secPerKm * (k - 1) as real;
    }
    var row := SplitTable(dist, secPerKm, finishSeconds)[k - 1];
    assert row == Checkpoint(SplitKm(k), x);
    RowTimeReadsBack(row);
  }

  /** The finish row of the splits shows the entered time. */
  lemma SplitFinishReadsBack(h: int, m: int, s: int, dist: Number)
    requires dist.IsFinite() && dist.value > 0.0 && TotalSeconds(h, m, s) > 0
    requires h >= 0 && 0 <= m < 60 && 0 <= s < 60
    ensures var r := Evaluate(h, m, s, dist).report;
      ParseHMS(TimeText(r.splits[|r.splits| - 1])) == Some((h, m, s))
  {
    SplitTableExact(h, m, s, dist);
    FinishTimeReadsBack(h, m, s);
  }

  /** For sanitised input the summary shows the time exactly as entered, and the pace as the rounded seconds per km. */
  lemma SummaryReadsBack(h: int, m: int, s: int, dist: Number)
    requires dist.IsFinite() && dist.value > 0.0 && TotalSeconds(h, m, s) > 0
    requires h >= 0 && 0 <= m < 60 && 0 <= s < 60
    ensures var r := Evaluate(h, m, s, dist).report;
      ParseHMS(r.FinishTimeText()) == Some((h, m, s))
    ensures var r := Evaluate(h, m, s, dist).report;
      var p := ParsePace(r.PaceText());
      p.Some? && p.value.1 < 60 && p.value.0 * 60 + p.value.1 == Round(TotalSeconds(h, m, s) as real / r.distKm)
  {
    var r := Evaluate(h, m, s, dist).report;
    FinishTimeReadsBack(h, m, s);
    assert r.secPerKm == TotalSeconds(h, m, s) as real / r.distKm;
    PaceRoundTrip(r.secPerKm);
  }

  /** 3:30:00 over the marathon distance: 298.6 s per km, shown as "4:59 min/km", finish "3:30:00". */
  lemma MarathonExample(h: int, m: int, s: int, dist: Number)
    requires h == 3 && m == 30 && s == 0 && dist == Finite(42.195)
    ensures Evaluate(h, m, s, dist).Results?
    ensures Evaluate(h, m, s, dist).report.PaceText() == "4:59 min/km"
    ensures Evaluate(h, m, s, dist).report.FinishTimeText() == "3:30:00"
  {
    var r := Evaluate(h, m, s, dist).report;
    assert r.secPerKm == 12600.0 / 42.195 && r.totalSeconds == 12600;
    PaceText299(r.secPerKm);
    FinishText12600();
  }

  lemma PaceText299(x: real)
    requires Round(x) == 299
    ensures SecondsToPace(x) == "4:59 min/km"
  {
    assert NatToString(59) == "59";
  }

  lemma FinishText12600()
    ensures SecondsToHMS(12600.0) == "3:30:00"
  {
    assert Round(12600.0) == 12600;
    assert NatToString(30) == "30";
  }

  /** One hour over 10 km: only the 5 km checkpoint precedes the finish row. */
  lemma TenKmExample(h: int, m: int, s: int, dist: Number)
    requires TotalSeconds(h, m, s) == 3600 && dist.IsFinite() && dist.value == 10.0
    ensures Evaluate(h, m, s, dist).report.race
      == [Checkpoint(Km(5.0), 1800.0), Finish(DistanceFinish(10.0), 3600.0)]
  {
    var r := Evaluate(h, m, s, dist).report;
    RaceTableExact(h, m, s, dist);
    assert r.secPerKm == 360.0;
  }

  /** The race table's finish row reads "Finish (42.2)" exactly when the distance is within 0.001 km of 42.195. */
  lemma RaceFinishText(dist: real)
    ensures LabelText(RaceFinishLabel(dist)) == Some("Finish (42.2)") <==> IsMarathonDistance(dist)
  {
    var t := LabelText(RaceFinishLabel(dist));
    if !IsMarathonDistance(dist) && t.Some? {
      var n := NumberText(dist).value;
      assert t.value == "Finish (" + n + " km)";
      assert t.value[|t.value| - 2] == 'm';
      assert "Finish (42.2)"[|"Finish (42.2)"| - 2] == '2';
    }
  }

  /** The half-marathon marker and whole-kilometre markers as they are printed. */
  lemma MarkerTextExamples()
    ensures LabelText(LabelForKm(21.0975)) == Some("Half (21.1)")
    ensures LabelText(LabelForKm(5.0)) == Some("5 km")
    ensures LabelText(LabelForKm(40.0)) == Some("40 km")
  {
    assert LabelForKm(5.0) == Km(5.0) && LabelForKm(40.0) == Km(40.0);
    assert 5.0.Floor == 5 && 40.0.Floor == 40;
    assert NumberText(5.0) == Some("5");
    assert NatToString(40) == "40";
    assert NumberText(40.0) == Some("40");
    assert LabelText(Km(5.0)) == Some("5" + " km");
    assert LabelText(Km(40.0)) == Some("40" + " km");
    assert "5" + " km" == "5 km";
    assert "40" + " km" == "40 km";
  }

  /** The clamping examples: -5 to 0, 70 to 59, a non-number to its fallback, 3.9 to 3. */
  lemma ClampExamples()
    ensures ClampInt(Finite(-5.0), 0, 59, 0) == 0
    ensures ClampInt(Finite(70.0), 0, 59, 0) == 59
    ensures ClampInt(NaN, 0, 59, 7) == 7
    ensures ClampInt(Finite(3.9), 0, 59, 0) == 3
  {
  }
}
