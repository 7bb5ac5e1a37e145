/**
 * The helper functions at the top of assets/app.js: input sanitisation,
 * the two time formats, the distance recognisers and the checkpoint rows.
 */
module Helpers {

  import opened Wrappers
  import opened JsNumber
  import opened Decimal

  /** `clampInt(val, min, max, fallback)`, given the number `Number(val)` reads. */
  function ClampInt(v: Number, min: int, max: int, fallback: int): (r: int)
    ensures !v.IsFinite() ==> r == fallback
    ensures v.IsFinite() && min <= max ==> min <= r <= max
    ensures v.IsFinite() && min <= v.value.Floor <= max ==> r == v.value.Floor
    ensures v.IsFinite() && v.value.Floor < min <= max ==> r == min
    ensures v.IsFinite() && v.value.Floor > max ==> r == max
    ensures v.IsFinite() && max < min ==> r == max
  {
    if !v.IsFinite() then fallback
    else
      var i := v.value.Floor;
      var lo := if min < i then i else min;     // Math.max(min, i)
      if max < lo then max else lo              // Math.min(max, ...)
  }

  /** `secondsToPace(secPerKm)`: "M:SS min/km" of the rounded number of seconds. */
  function SecondsToPace(secPerKm: real): (text: string)
    ensures |text| >= 7 && text[|text| - 7..] == " min/km"
  {
    var total := Round(secPerKm);
    var m := total / 60;           // Math.floor(total / 60)
    var s := Rem(total, 60);
    IntToString(m) + ":" + Pad2(s) + " min/km"
  }

  /** `secondsToHMS(totalSeconds)`: "H:MM:SS" of the rounded number of seconds. */
  function SecondsToHMS(totalSeconds: real): (r: string)
    ensures |r| >= 5 && (r[0] == '-' <==> Round(totalSeconds) < 0)
    ensures Round(totalSeconds) >= 0 ==>
      && |r| >= 7 && r[|r| - 6] == ':' && r[|r| - 3] == ':'
      && AllDigits(r[..|r| - 6]) && AllDigits(r[|r| - 5..|r| - 3]) && AllDigits(r[|r| - 2..])
  {
    var t := Round(totalSeconds);
    var h := t / 3600;             // Math.floor(t / 3600)
    var m := Rem(t, 3600) / 60;    // Math.floor((t % 3600) / 60)
    var s := Rem(t, 60);
    var r := IntToString(h) + ":" + Pad2(m) + ":" + Pad2(s);
    assert r[0] == IntToString(h)[0];
    assert t >= 0 ==> r[..|r| - 6] == IntToString(h) && r[|r| - 5..|r| - 3] == Pad2(m) && r[|r| - 2..] == Pad2(s);
    r
  }

  /** A reader of the "M:SS min/km" format: the minutes and the seconds field. */
  function ParsePace(text: string): Option<(nat, nat)>
  {
    var n := |text|;
    if n >= 11 && text[n - 7..] == " min/km" && text[n - 10] == ':'
       && AllDigits(text[..n - 10]) && AllDigits(text[n - 9..n - 7])
    then Some((DigitsValue(text[..n - 10]), DigitsValue(text[n - 9..n - 7])))
    else None
  }

  /** A reader of the "H:MM:SS" format: the hours, minutes and seconds fields. */
  function ParseHMS(text: string): Option<(nat, nat, nat)>
  {
    var n := |text|;
    if n >= 7 && text[n - 6] == ':' && text[n - 3] == ':'
       && AllDigits(text[..n - 6]) && AllDigits(text[n - 5..n - 3]) && AllDigits(text[n - 2..])
    then Some((DigitsValue(text[..n - 6]), DigitsValue(text[n - 5..n - 3]), DigitsValue(text[n - 2..])))
    else None
  }

  /** Splitting a non-negative number of seconds into hours, minutes and seconds loses nothing. */
  lemma SplitSeconds(t: int)
    requires t >= 0
    ensures t % 3600 / 60 < 60 && t % 3600 % 60 == t % 60
    ensures t == t / 3600 * 3600 + t % 3600 / 60 * 60 + t % 60
  {
    var a, b := t / 3600, t % 3600;
    var c, d := b / 60, b % 60;
    assert t == 60 * (60 * a + c) + d && 0 <= d < 60;
  }

  /** Two splittings of one duration into hours, minutes below 60 and seconds below 60 are the same. */
  lemma HMSUnique(a: int, b: int, c: int, h: int, m: int, s: int)
    requires 0 <= b < 60 && 0 <= c < 60 && 0 <= m < 60 && 0 <= s < 60
    requires a * 3600 + b * 60 + c == h * 3600 + m * 60 + s
    ensures a == h && b == m && c == s
  {
    assert (a - h) * 3600 == (m - b) * 60 + (s - c);
    assert -3600 < (m - b) * 60 + (s - c) < 3600;
    assert a == h;
    assert (b - m) * 60 == s - c;
  }

  /** Reading "H:MM:SS" assembled from digit fields gives the fields back. */
  lemma ReadHMSFields(hText: string, mText: string, sText: string)
    requires |hText| >= 1 && AllDigits(hText)
    requires |mText| == 2 && AllDigits(mText) && |sText| == 2 && AllDigits(sText)
    ensures ParseHMS(hText + ":" + mText + ":" + sText)
      == Some((DigitsValue(hText), DigitsValue(mText), DigitsValue(sText)))
  {
    var text := hText + ":" + mText + ":" + sText;
    var n := |text|;
    assert n == |hText| + 6;
    assert text[..n - 6] == hText;
    assert text[n - 6] == ':' && text[n - 3] == ':';
    assert text[n - 5..n - 3] == mText;
    assert text[n - 2..] == sText;
  }

  /** The text `secondsToHMS` prints reads back as the rounded number of seconds, with minutes and seconds below 60. */
  lemma HMSRoundTrip(x: real)
    requires Round(x) >= 0
    ensures ParseHMS(SecondsToHMS(x)).Some?
    ensures var p := ParseHMS(SecondsToHMS(x)).value;
      p.1 < 60 && p.2 < 60 && p.0 * 3600 + p.1 * 60 + p.2 == Round(x)
  {
    var t := Round(x);
    SplitSeconds(t);
    var h, m, s := t / 3600, t % 3600 / 60, t % 60;
    assert SecondsToHMS(x) == NatToString(h) + ":" + Pad2(m) + ":" + Pad2(s);
    NatToStringRoundTrip(h);
    Pad2RoundTrip(m);
    Pad2RoundTrip(s);
    ReadHMSFields(NatToString(h), Pad2(m), Pad2(s));
  }

  /** Two non-negative durations print the same "H:MM:SS" exactly when they round to the same second. */
  lemma HMSDeterminesSeconds(x: real, y: real)
    requires Round(x) >= 0 && Round(y) >= 0
    ensures SecondsToHMS(x) == SecondsToHMS(y) <==> Round(x) == Round(y)
  {
    HMSRoundTrip(x);
    HMSRoundTrip(y);
  }

  /** The pace text reads back as the rounded seconds per km, with a seconds field below 60 (never ":60"). */
  lemma PaceRoundTrip(secPerKm: real)
    requires Round(secPerKm) >= 0
    ensures ParsePace(SecondsToPace(secPerKm)).Some?
    ensures var p := ParsePace(SecondsToPace(secPerKm)).value;
      p.1 < 60 && p.0 * 60 + p.1 == Round(secPerKm)
  {
    var t := Round(secPerKm);
    var m, s := t / 60, t % 60;
    var mText, sText := NatToString(m), Pad2(s);
    var text := mText + ":" + sText + " min/km";
    assert SecondsToPace(secPerKm) == text;
    NatToStringRoundTrip(m);
    Pad2RoundTrip(s);
    var n := |text|;
    assert text[..n - 10] == mText;
    assert text[n - 9..n - 7] == sText;
  }

  /** `isMarathonDistance(distKm)`: within 0.001 km of 42.195. */
  function IsMarathonDistance(distKm: real): (b: bool)
    ensures b <==> 42.194 < distKm < 42.196
  {
    Abs(distKm - 42.195) < 0.001
  }

  /**
   * The first column of a table row. The text of a label that prints a
   * fractional number (`${km}`) is JavaScript's number formatting, which is
   * not modelled; `LabelText` gives the text where it is determined.
   */
  datatype Label =
    | Half                          // "Half (21.1)"
    | Km(km: real)                  // `${km} km`
    | SplitKm(whole: nat)           // `${km}` in the per-km table
    | MarathonFinish                // "Finish (42.2)"
    | DistanceFinish(distKm: real)  // `Finish (${dist} km)`
    | MarathonSplitFinish           // "42.2 (Finish)"
    | DistanceSplitFinish(distKm: real)  // `${dist} (Finish)`

  /** `${x}` for an integer-valued number below 10^21; `None` where number formatting is not modelled. */
  function NumberText(x: real): (r: Option<string>)
    ensures r.Some? <==> x == x.Floor as real && -1000000000000000000000.0 < x < 1000000000000000000000.0
    ensures r.Some? ==> |r.value| >= 1 && (r.value[0] == '-' <==> x < 0.0)
    ensures r.Some? && x >= 0.0 ==> AllDigits(r.value) && DigitsValue(r.value) == x.Floor
  {
    NatToStringRoundTrip(if x >= 0.0 then x.Floor else 0);
    if x == x.Floor as real && Abs(x) < 1000000000000000000000.0 then Some(IntToString(x.Floor)) else None
  }

  /**
   * The text of a label: the fixed captions always, and "<n> km", "Finish (<n> km)" or
   * "<n> (Finish)" where the number's text is determined. A whole-kilometre split reads back
   * as its kilometre.
   */
  function LabelText(l: Label): (r: Option<string>)
    ensures l.Half? || l.SplitKm? || l.MarathonFinish? || l.MarathonSplitFinish? ==> r.Some?
    ensures l.Km? ==> (r.Some? <==> NumberText(l.km).Some?)
    ensures l.DistanceFinish? || l.DistanceSplitFinish? ==> (r.Some? <==> NumberText(l.distKm).Some?)
    ensures l.SplitKm? ==> AllDigits(r.value) && DigitsValue(r.value) == l.whole
    ensures l.Km? && r.Some? ==> |r.value| > 3 && r.value[|r.value| - 3..] == " km"
    ensures (l.MarathonFinish? || l.DistanceFinish?) && r.Some? ==> |r.value| > 8 && r.value[..8] == "Finish ("
    ensures (l.MarathonSplitFinish? || l.DistanceSplitFinish?) && r.Some? ==> |r.value| > 9 && r.value[|r.value| - 9..] == " (Finish)"
    ensures l.Half? ==> r == Some("Half (21.1)")
    ensures l.Km? && r.Some? ==> r.value == NumberText(l.km).value + " km"
    ensures l.DistanceFinish? && r.Some? ==> r.value == "Finish (" + NumberText(l.distKm).value + " km)"
    ensures l.DistanceSplitFinish? && r.Some? ==> r.value == NumberText(l.distKm).value + " (Finish)"
  {
    NatToStringRoundTrip(if l.SplitKm? then l.whole else 0);
    match l
    case Half => Some("Half (21.1)")
    case Km(km) => if NumberText(km).Some? then Some(NumberText(km).value + " km") else None
    case SplitKm(km) => Some(NatToString(km))
    case MarathonFinish => Some("Finish (42.2)")
    case DistanceFinish(d) => if NumberText(d).Some? then Some("Finish (" + NumberText(d).value + " km)") else None
    case MarathonSplitFinish => Some("42.2 (Finish)")
    case DistanceSplitFinish(d) => if NumberText(d).Some? then Some(NumberText(d).value + " (Finish)") else None
  }

  /** `labelForKm(km)`: the half-marathon marker is recognised within 0.001 km, every other marker is "<km> km". */
  function LabelForKm(km: real): (l: Label)
    ensures l == Half <==> 21.0965 < km < 21.0985
    ensures l != Half ==> l == Km(km)
  {
    if Abs(km - 21.0975) < 0.001 then Half else Km(km)
  }

  /**
   * One row of a results table. A time cell holds a number of seconds and
   * shows `SecondsToHMS` of it.
   */
  datatype Row =
    | Checkpoint(caption: Label, seconds: real)  // <tr><td>caption</td><td>H:MM:SS</td></tr>
    | Placeholder(note: string)                  // one muted cell across both columns
    | Finish(caption: Label, seconds: real)      // the bold last row

  /** The text in a row's time cell. */
  function TimeText(row: Row): string
    requires !row.Placeholder?
  {
    SecondsToHMS(row.seconds)
  }

  /** A time cell reads back as its seconds rounded, with minutes and seconds below 60. */
  lemma RowTimeReadsBack(row: Row)
    requires !row.Placeholder? && row.seconds >= 0.0
    ensures var p := ParseHMS(TimeText(row));
      p.Some? && p.value.1 < 60 && p.value.2 < 60 && p.value.0 * 3600 + p.value.1 * 60 + p.value.2 == Round(row.seconds)
  {
    HMSRoundTrip(row.seconds);
  }

  /** The rows `buildCheckpointRows` writes, as a value. */
  function CheckpointRows(checkpoints: seq<real>, secPerKm: real): (r: seq<Row>)
    ensures |r| == |checkpoints|
  {
    seq(|checkpoints|, i requires 0 <= i < |checkpoints| => Checkpoint(LabelForKm(checkpoints[i]), secPerKm * checkpoints[i]))
  }

  /** `buildCheckpointRows(checkpoints, secPerKm)`: one row per checkpoint, in order, at its cumulative time. */
  method BuildCheckpointRows(checkpoints: seq<real>, secPerKm: real) returns (rows: seq<Row>)
    ensures |rows| == |checkpoints|
    ensures forall i :: 0 <= i < |checkpoints| ==>
      rows[i] == Checkpoint(LabelForKm(checkpoints[i]), secPerKm * checkpoints[i])
    ensures rows == CheckpointRows(checkpoints, secPerKm)
  {
    rows := [];
    for i := 0 to |checkpoints|
      invariant |rows| == i
      invariant forall j :: 0 <= j < i ==> rows[j] == Checkpoint(LabelForKm(checkpoints[j]), secPerKm * checkpoints[j])
    {
      var k := checkpoints[i];
      rows := rows + [Checkpoint(LabelForKm(k), secPerKm * k)];
    }
    var spec := CheckpointRows(checkpoints, secPerKm);
    assert forall i :: 0 <= i < |checkpoints| ==> rows[i] == spec[i];
  }
}
