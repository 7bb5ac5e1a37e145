/**
 * The calculator page: its input fields, the results panel and the chart
 * container, and the three handlers of assets/app.js that change them —
 * `calc`, `resetForm` and `applyGoalPageDefaults` — plus the page-load
 * handler. A field whose element is missing from the page is `None`; the
 * value of a present input is the number `Number(value)` reads from it.
 */
module Form {

  import opened Wrappers
  import opened JsNumber
  import opened Helpers
  import opened Calculation
  import Chart

  /**
   * `window.GOAL_PAGE`, passed in rather than read from a global. A missing
   * or non-number `goalSeconds` behaves as `NaN`; a missing `lockDistanceKm`
   * as `NaN` (falsy).
   */
  datatype GoalConfig = GoalConfig(goalSeconds: Number, lockDistanceKm: Number)

  /** What the handlers read and write: the inputs h, m, s, dist, whether the distance control is hidden, and the results panel. */
  datatype Fields = Fields(
    h: Option<Number>,
    m: Option<Number>,
    s: Option<Number>,
    dist: Option<Number>,
    distHidden: bool,
    results: Option<Output>)

  /** `calc` runs only when all five elements exist. */
  function AllPresent(f: Fields): (b: bool)
    ensures b ==> f.h.Some? && f.m.Some? && f.s.Some? && f.dist.Some? && f.results.Some?
    ensures f.h.None? || f.m.None? || f.s.None? || f.dist.None? || f.results.None? ==> !b
  {
    f.h.Some? && f.m.Some? && f.s.Some? && f.dist.Some? && f.results.Some?
  }

  /** A present field holding a whole number in [0, max]. */
  predicate HoldsWhole(v: Option<Number>, max: int)
  {
    v.Some? && v.value.IsFinite() && v.value.value == v.value.value.Floor as real && 0 <= v.value.value.Floor <= max
  }

  /** The time inputs hold what `calc` writes back: hours in [0, 99], minutes and seconds in [0, 59]. */
  predicate Sanitised(f: Fields)
  {
    HoldsWhole(f.h, 99) && HoldsWhole(f.m, 59) && HoldsWhole(f.s, 59)
  }

  function Whole(v: Option<Number>): int
    requires v.Some? && v.value.IsFinite()
  {
    v.value.value.Floor
  }

  /** The finish time the sanitised inputs stand for, at most 99:59:59. */
  function FieldSeconds(f: Fields): (t: int)
    requires Sanitised(f)
    ensures 0 <= t <= 359999
  {
    TotalSeconds(Whole(f.h), Whole(f.m), Whole(f.s))
  }

  /** The effect of `calc`: sanitise and write back h, m, s, then show the outcome for the distance. */
  function CalcFields(f: Fields): (r: Fields)
    ensures r.dist == f.dist && r.distHidden == f.distHidden
    ensures !AllPresent(f) ==> r == f
    ensures AllPresent(f) ==> AllPresent(r) && Sanitised(r)
    ensures AllPresent(f) && Sanitised(f) ==> r.h == f.h && r.m == f.m && r.s == f.s
    ensures AllPresent(f) ==> r.results == Some(Evaluate(Whole(r.h), Whole(r.m), Whole(r.s), f.dist.value))
  {
    if !AllPresent(f) then f
    else
      var h := ClampInt(f.h.value, 0, 99, 0);
      var m := ClampInt(f.m.value, 0, 59, 0);
      var s := ClampInt(f.s.value, 0, 59, 0);
      f.(h := Some(Finite(h as real)), m := Some(Finite(m as real)), s := Some(Finite(s as real)),
         results := Some(Evaluate(h, m, s, f.dist.value)))
  }

  /** The inputs `calc` writes back are the ones a second `calc` would use: running it twice is running it once. */
  lemma CalcIdempotent(f: Fields)
    ensures CalcFields(CalcFields(f)) == CalcFields(f)
  {
    var r := CalcFields(f);
    if AllPresent(f) {
      assert Whole(CalcFields(r).h) == Whole(r.h);
    }
  }

  /** After `calc` with every element present, the inputs hold a whole, in-range time of at most 99:59:59 and the panel shows its outcome. */
  lemma CalcSanitises(f: Fields)
    requires AllPresent(f)
    ensures var r := CalcFields(f);
      && Sanitised(r)
      && r.h == Some(Finite(ClampInt(f.h.value, 0, 99, 0) as real))
      && r.m == Some(Finite(ClampInt(f.m.value, 0, 59, 0) as real))
      && r.s == Some(Finite(ClampInt(f.s.value, 0, 59, 0) as real))
      && 0 <= FieldSeconds(r) <= 359999
      && (r.results == Some(Message(DistanceInvalidMessage)) <==> !f.dist.value.IsFinite() || f.dist.value.value <= 0.0)
      && (r.results == Some(Message(FinishTimeMessage)) <==>
            f.dist.value.IsFinite() && f.dist.value.value > 0.0 && FieldSeconds(r) == 0)
  {
  }

  /** `applyGoalPageDefaults` runs only for a finite, positive `goalSeconds`. */
  function GoalRuns(goal: Option<GoalConfig>): (b: bool)
    ensures goal.None? ==> !b
    ensures goal.Some? && !goal.value.goalSeconds.IsFinite() ==> !b
    ensures b ==> goal.value.goalSeconds.Truthy() && goal.value.goalSeconds.value.Floor >= 0
    ensures goal.Some? && goal.value.goalSeconds.IsFinite() && goal.value.goalSeconds.value > 0.0 ==> b
  {
    goal.Some? && goal.value.goalSeconds.IsFinite() && goal.value.goalSeconds.value > 0.0
  }

  /** `Math.floor` of `g / 3600`, of `(g % 3600) / 60` and of `g % 60`. */
  function GoalParts(g: real): (p: (int, int, int))
    requires g > 0.0
    ensures p.0 >= 0 && 0 <= p.1 < 60 && 0 <= p.2 < 60
    ensures (p.0 * 3600) as real <= g < ((p.0 + 1) * 3600) as real
  {
    ((g / 3600.0).Floor, (RealRem(g, 3600.0) / 60.0).Floor, RealRem(g, 60.0).Floor)
  }

  /** The goal's hours, minutes and seconds make up its whole number of seconds, with minutes and seconds below 60. */
  lemma GoalPartsSplit(g: real)
    requires g > 0.0
    ensures var p := GoalParts(g);
      p.0 >= 0 && 0 <= p.1 < 60 && 0 <= p.2 < 60 && p.0 * 3600 + p.1 * 60 + p.2 == g.Floor
  {
    var n := g.Floor;
    FloorOfPart(g, 3600);
    FloorOfRem(g, 3600);
    FloorOfPart(RealRem(g, 3600.0), 60);
    FloorOfRem(g, 60);
    Helpers.SplitSeconds(n);
  }

  /** Step 1 and 2 of `applyGoalPageDefaults`: set the present time inputs and, for a truthy lock, the distance. */
  function GoalFields(f: Fields, cfg: GoalConfig): (r: Fields)
    requires cfg.goalSeconds.IsFinite() && cfg.goalSeconds.value > 0.0
    ensures r.results == f.results
    ensures r.h.Some? == f.h.Some? && r.m.Some? == f.m.Some? && r.s.Some? == f.s.Some? && r.dist.Some? == f.dist.Some?
    ensures f.h.Some? ==> r.h.value.IsFinite() && r.h.value.value == r.h.value.value.Floor as real && r.h.value.value >= 0.0
    ensures f.m.Some? ==> HoldsWhole(r.m, 59)
    ensures f.s.Some? ==> HoldsWhole(r.s, 59)
    ensures f.h.Some? ==> r.h == Some(Finite(GoalParts(cfg.goalSeconds.value).0 as real))
    ensures f.m.Some? ==> r.m == Some(Finite(GoalParts(cfg.goalSeconds.value).1 as real))
    ensures f.s.Some? ==> r.s == Some(Finite(GoalParts(cfg.goalSeconds.value).2 as real))
    ensures f.h.Some? && f.m.Some? && f.s.Some? ==>
      Whole(r.h) * 3600 + Whole(r.m) * 60 + Whole(r.s) == cfg.goalSeconds.value.Floor
    ensures r.dist == (if f.dist.Some? && cfg.lockDistanceKm.Truthy() then Some(cfg.lockDistanceKm) else f.dist)
    ensures r.distHidden <==> f.distHidden || (f.dist.Some? && cfg.lockDistanceKm.Truthy())
  {
    GoalPartsSplit(cfg.goalSeconds.value);
    var p := GoalParts(cfg.goalSeconds.value);
    var lock := f.dist.Some? && cfg.lockDistanceKm.Truthy();
    f.(h := if f.h.Some? then Some(Finite(p.0 as real)) else None,
       m := if f.m.Some? then Some(Finite(p.1 as real)) else None,
       s := if f.s.Some? then Some(Finite(p.2 as real)) else None,
       dist := if lock then Some(cfg.lockDistanceKm) else f.dist,
       distHidden := f.distHidden || lock)
  }

  /** The effect of `applyGoalPageDefaults`: nothing without a runnable goal, else the goal's fields followed by `calc`. */
  function ApplyGoalFields(f: Fields, goal: Option<GoalConfig>): (r: Fields)
    ensures !GoalRuns(goal) ==> r == f
    ensures GoalRuns(goal) ==> r.results.Some? == f.results.Some? && r.h.Some? == f.h.Some?
  {
    if GoalRuns(goal) then CalcFields(GoalFields(f, goal.value)) else f
  }

  /** On a full page a goal sets the time to its whole seconds (hours capped at 99 by `calc`), locks the distance when asked, and shows the outcome. */
  lemma GoalApplied(f: Fields, cfg: GoalConfig)
    requires AllPresent(f) && GoalRuns(Some(cfg))
    ensures var r := ApplyGoalFields(f, Some(cfg));
      var n := cfg.goalSeconds.value.Floor;
      && Sanitised(r)
      && FieldSeconds(r) == (if n < 360000 then n else 99 * 3600 + n % 3600)
      && r.dist == (if cfg.lockDistanceKm.Truthy() then Some(cfg.lockDistanceKm) else f.dist)
      && r.distHidden == (f.distHidden || cfg.lockDistanceKm.Truthy())
      && r.results == Some(Evaluate(Whole(r.h), Whole(r.m), Whole(r.s), r.dist.value))
  {
    var g := cfg.goalSeconds.value;
    var n := g.Floor;
    GoalPartsSplit(g);
    Helpers.SplitSeconds(n);
    var p := GoalParts(g);
    assert p.0 == n / 3600 && p.1 == n % 3600 / 60 && p.2 == n % 60 by {
      HMSUnique(p.0, p.1, p.2, n / 3600, n % 3600 / 60, n % 60);
    }
    var q := GoalFields(f, cfg);
    assert AllPresent(q);
    var r := CalcFields(q);
    assert r == ApplyGoalFields(f, Some(cfg));
    assert Whole(r.h) == (if p.0 <= 99 then p.0 else 99);
    assert Whole(r.m) == p.1 && Whole(r.s) == p.2;
  }

  /**
   * On a page missing one of the five elements `calc` returns at once, so the goal's parts are
   * written to the time inputs that exist as they are (hours not capped at 99), the lock applies
   * when the distance control exists, and the results panel is left alone.
   */
  lemma GoalOnPartialPage(f: Fields, cfg: GoalConfig)
    requires !AllPresent(f) && GoalRuns(Some(cfg))
    ensures var r := ApplyGoalFields(f, Some(cfg));
      && r.results == f.results
      && r.h.Some? == f.h.Some? && r.m.Some? == f.m.Some? && r.s.Some? == f.s.Some?
      && (f.m.Some? ==> HoldsWhole(r.m, 59))
      && (f.s.Some? ==> HoldsWhole(r.s, 59))
      && (f.h.Some? ==> r.h == Some(Finite(GoalParts(cfg.goalSeconds.value).0 as real)))
      && (f.m.Some? ==> r.m == Some(Finite(GoalParts(cfg.goalSeconds.value).1 as real)))
      && (f.s.Some? ==> r.s == Some(Finite(GoalParts(cfg.goalSeconds.value).2 as real)))
      && (f.h.Some? && f.m.Some? && f.s.Some? ==>
            Whole(r.h) * 3600 + Whole(r.m) * 60 + Whole(r.s) == cfg.goalSeconds.value.Floor)
      && r.dist == (if f.dist.Some? && cfg.lockDistanceKm.Truthy() then Some(cfg.lockDistanceKm) else f.dist)
      && r.distHidden == (f.distHidden || (f.dist.Some? && cfg.lockDistanceKm.Truthy()))
  {
    var q := GoalFields(f, cfg);
    assert !AllPresent(q);
    assert ApplyGoalFields(f, Some(cfg)) == q;
  }

  /** The effect of `resetForm`: on a goal page the goal again, otherwise 4:00:00 over 42.195 km and an empty panel. */
  function ResetFields(f: Fields, goal: Option<GoalConfig>): (r: Fields)
    ensures goal.Some? ==> r == ApplyGoalFields(f, goal)
    ensures goal.None? ==> r.distHidden == f.distHidden && AllPresent(r) == AllPresent(f)
    ensures goal.None? ==>
      && r.h == (if f.h.Some? then Some(Finite(4.0)) else None)
      && r.m == (if f.m.Some? then Some(Finite(0.0)) else None)
      && r.s == (if f.s.Some? then Some(Finite(0.0)) else None)
      && r.dist == (if f.dist.Some? then Some(Finite(42.195)) else None)
      && r.results == (if f.results.Some? then Some(Blank) else None)
    ensures goal.None? && AllPresent(f) ==>
      Sanitised(r) && FieldSeconds(r) == 4 * 3600 && r.dist == Some(Finite(42.195)) && r.results == Some(Blank)
  {
    if goal.Some? then ApplyGoalFields(f, goal)
    else
      f.(h := if f.h.Some? then Some(Finite(4.0)) else None,
         m := if f.m.Some? then Some(Finite(0.0)) else None,
         s := if f.s.Some? then Some(Finite(0.0)) else None,
         dist := if f.dist.Some? then Some(Finite(42.195)) else None,
         results := if f.results.Some? then Some(Blank) else None)
  }

  /** The page's elements. */
  class Page {
    var h: Option<Number>
    var m: Option<Number>
    var s: Option<Number>
    var dist: Option<Number>
    var distHidden: bool
    var results: Option<Output>
    var chart: Option<seq<Chart.ChartRow>>

    constructor (h0: Option<Number>, m0: Option<Number>, s0: Option<Number>, dist0: Option<Number>,
                 results0: Option<Output>, chart0: Option<seq<Chart.ChartRow>>)
      ensures Snapshot() == Fields(h0, m0, s0, dist0, false, results0) && chart == chart0
    {
      h, m, s, dist, distHidden, results, chart := h0, m0, s0, dist0, false, results0, chart0;
    }

    function Snapshot(): Fields
      reads this
    {
      Fields(h, m, s, dist, distHidden, results)
    }

    /** `calc()` */
    method Calc()
      modifies this
      ensures Snapshot() == CalcFields(old(Snapshot()))
      ensures chart == old(chart)
    {
      ghost var f0 := Snapshot();
      if h.None? || m.None? || s.None? || dist.None? || results.None? {
        return;
      }
      var hv := ClampInt(h.value, 0, 99, 0);
      var mv := ClampInt(m.value, 0, 59, 0);
      var sv := ClampInt(s.value, 0, 59, 0);
      assert CalcFields(f0) == f0.(h := Some(Finite(hv as real)), m := Some(Finite(mv as real)), s := Some(Finite(sv as real)),
                                   results := Some(Evaluate(hv, mv, sv, f0.dist.value)));
      var out := Run(hv, mv, sv, dist.value);
      h, m, s, results := Some(Finite(hv as real)), Some(Finite(mv as real)), Some(Finite(sv as real)), Some(out);
    }

    /** `applyGoalPageDefaults()` */
    method ApplyGoalPageDefaults(goal: Option<GoalConfig>)
      modifies this
      ensures Snapshot() == ApplyGoalFields(old(Snapshot()), goal)
      ensures chart == old(chart)
    {
      if goal.None? {
        return;
      }
      var cfg := goal.value;
      if !cfg.goalSeconds.IsFinite() || cfg.goalSeconds.value <= 0.0 {
        return;
      }
      SetGoalFields(cfg);
      Calc();
    }

    /** Steps 1 and 2 of `applyGoalPageDefaults`: the goal's parts into the time inputs, the lock into the distance. */
    method SetGoalFields(cfg: GoalConfig)
      requires cfg.goalSeconds.IsFinite() && cfg.goalSeconds.value > 0.0
      modifies this
      ensures Snapshot() == GoalFields(old(Snapshot()), cfg)
      ensures chart == old(chart)
    {
      var g := cfg.goalSeconds.value;
      var hours := (g / 3600.0).Floor;
      var mins := (RealRem(g, 3600.0) / 60.0).Floor;
      var secs := RealRem(g, 60.0).Floor;
      assert (hours, mins, secs) == GoalParts(g);
      if h.Some? { h := Some(Finite(hours as real)); }
      if m.Some? { m := Some(Finite(mins as real)); }
      if s.Some? { s := Some(Finite(secs as real)); }
      if dist.Some? && cfg.lockDistanceKm.Truthy() {
        // Number(String(lockDistanceKm)) reads back the same number
        dist := Some(cfg.lockDistanceKm);
        distHidden := true;
      }
    }

    /** `resetForm()` */
    method ResetForm(goal: Option<GoalConfig>)
      modifies this
      ensures Snapshot() == ResetFields(old(Snapshot()), goal)
      ensures chart == old(chart)
    {
      if goal.Some? {
        ApplyGoalPageDefaults(goal);
        return;
      }
      if h.Some? { h := Some(Finite(4.0)); }
      if m.Some? { m := Some(Finite(0.0)); }
      if s.Some? { s := Some(Finite(0.0)); }
      if dist.Some? { dist := Some(Finite(42.195)); }
      if results.Some? { results := Some(Blank); }
    }

    /** `buildChart()`: fill the chart container, if there is one. */
    method BuildChart()
      modifies this
      ensures Snapshot() == old(Snapshot())
      ensures chart.Some? == old(chart).Some?
      ensures chart.Some? ==>
        && |chart.value| == Chart.RowCount
        && (forall i :: 0 <= i < Chart.RowCount ==> chart.value[i] == Chart.ChartRowAt(Chart.StartMin + Chart.StepMin * i))
    {
      if chart.None? {
        return;
      }
      var rows := Chart.BuildChartRows();
      chart := Some(rows);
    }

    /** The DOMContentLoaded handler: build the chart, then apply the goal defaults. */
    method Load(goal: Option<GoalConfig>)
      modifies this
      ensures Snapshot() == ApplyGoalFields(old(Snapshot()), goal)
      ensures chart.Some? == old(chart).Some?
      ensures chart.Some? ==>
        && |chart.value| == Chart.RowCount
        && (forall i :: 0 <= i < Chart.RowCount ==> chart.value[i] == Chart.ChartRowAt(Chart.StartMin + Chart.StepMin * i))
    {
      BuildChart();
      ApplyGoalPageDefaults(goal);
    }
  }
}
