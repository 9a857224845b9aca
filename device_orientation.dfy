/**
 * The device-orientation handler (src/js/deviceOrientation.js): it keeps the
 * last deviceorientation event, and a check that runs every 200 ms reports
 * availability to its client: true as soon as an event with an alpha reading
 * and absolute === true has arrived, false once, on the tenth failed check.
 *
 * The yaw and pitch conversions are floating-point trigonometry and are left
 * out; their defaulting of missing readings to 0 is kept.
 */
module DeviceOrientation {
  import opened Wrappers

  /** One reading of an event: null, undefined, or a number. */
  datatype Reading = Null | Undefined | Num(v: real)

  /** A deviceorientation event: the three angles in degrees and whether absolute === true. */
  datatype OrientationEvent = OrientationEvent(alpha: Reading, beta: Reading, gamma: Reading, absolute: bool)

  /** The number of failed checks at which false is reported. */
  const MaxTries: nat := 10

  /** The condition of CheckAvailability: an event has arrived, its alpha is not null, and it is absolute. */
  predicate Available(data: Option<OrientationEvent>)
  {
    data.Some? && data.value.alpha != Null && data.value.absolute
  }

  /**
   * One check from a count of failed checks: available reports true and leaves the
   * count; otherwise the count goes up and false is reported when it reaches 10.
   */
  function CheckStep(tryCount: nat, available: bool): (r: (nat, Option<bool>))
    ensures available ==> r == (tryCount, Some(true))
    ensures !available ==> r.0 == tryCount + 1 && (r.1 == Some(false) <==> tryCount + 1 == MaxTries)
    ensures r.1 != Some(true) <==> !available
  {
    if available then (tryCount, Some(true))
    else (tryCount + 1, if tryCount + 1 == MaxTries then Some(false) else None)
  }

  /** `x ? x : 0` for a reading: null, undefined and 0 all become 0. */
  function Defaulted(r: Reading): (d: real)
    ensures r.Num? ==> d == r.v
    ensures !r.Num? ==> d == 0.0
  {
    if r.Num? && r.v != 0.0 then r.v else 0.0
  }

  /** The angles GetYaw and GetPitch start from, in degrees, before the conversion to radians. */
  datatype Angles = Angles(x: real, y: real, z: real)

  class DeviceOrientationHandler {
    /** The last event (null before the first). */
    var data: Option<OrientationEvent>
    var availabilityCheckTryCount: nat
    /** Whether the 200 ms availability interval still fires. */
    var intervalRunning: bool

    /** No event yet, no failed check, and the interval started. */
    constructor ()
      ensures data == None && availabilityCheckTryCount == 0 && intervalRunning
    {
      data := None;
      availabilityCheckTryCount := 0;
      intervalRunning := true;
    }

    /** GetRaw: the last stored event. */
    method GetRaw() returns (e: Option<OrientationEvent>)
      ensures e == data
    {
      e := data;
    }

    /** UpdateOrientation: the event replaces whatever was stored. */
    method UpdateOrientation(e: OrientationEvent)
      modifies this`data
      ensures data == Some(e)
    {
      data := Some(e);
    }

    /**
     * The readings GetYaw and GetPitch use: beta, gamma and alpha with a missing
     * or zero reading taken as 0; None where data is still null and reading it
     * throws a TypeError.
     */
    method InputAngles() returns (a: Option<Angles>)
      ensures data.None? <==> a.None?
      ensures data.Some? ==> a == Some(Angles(Defaulted(data.value.beta), Defaulted(data.value.gamma), Defaulted(data.value.alpha)))
    {
      if data.None? {
        return None;
      }
      var e := data.value;
      var x := if e.beta.Num? && e.beta.v != 0.0 then e.beta.v else 0.0;
      var y := if e.gamma.Num? && e.gamma.v != 0.0 then e.gamma.v else 0.0;
      var z := if e.alpha.Num? && e.alpha.v != 0.0 then e.alpha.v else 0.0;
      a := Some(Angles(x, y, z));
    }

    /**
     * CheckAvailability: report true and stop the interval when available;
     * otherwise count the failure and, at the tenth, stop the interval and report
     * false. report is what fctAvailability receives, None when it is not called.
     */
    method CheckAvailability() returns (report: Option<bool>)
      modifies this`availabilityCheckTryCount, this`intervalRunning
      ensures (availabilityCheckTryCount, report) == CheckStep(old(availabilityCheckTryCount), Available(data))
      ensures intervalRunning == (old(intervalRunning) && report.None?)
    {
      if data.Some? && data.value.alpha != Null && data.value.absolute {
        intervalRunning := false;
        report := Some(true);
      } else {
        availabilityCheckTryCount := availabilityCheckTryCount + 1;
        report := None;
        if availabilityCheckTryCount == 10 {
          intervalRunning := false;
          report := Some(false);
        }
      }
    }
  }

  /** The number of failed checks in a run. */
  function Failures(available: seq<bool>): (n: nat)
    ensures n <= |available|
    decreases |available|
  {
    if available == [] then 0
    else Failures(available[..|available| - 1]) + (if available[|available| - 1] then 0 else 1)
  }

  /** The reports of successive checks from a fresh handler, one per check. */
  function Reports(available: seq<bool>): (r: seq<Option<bool>>)
    ensures |r| == |available|
    decreases |available|
  {
    if available == [] then []
    else
      var init := available[..|available| - 1];
      Reports(init) + [CheckStep(Failures(init), available[|available| - 1]).1]
  }

  /** The k-th report is the step from the failures counted before it. */
  lemma {:induction false} ReportAt(available: seq<bool>, k: nat)
    requires k < |available|
    ensures Reports(available)[k] == CheckStep(Failures(available[..k]), available[k]).1
    decreases |available|
  {
    var init := available[..|available| - 1];
    if k < |init| {
      ReportAt(init, k);
      assert init[..k] == available[..k];
    } else {
      assert init == available[..k];
    }
  }

  /** One more check counts one more failure exactly when it failed. */
  lemma FailuresStep(available: seq<bool>, k: nat)
    requires k < |available|
    ensures Failures(available[..k + 1]) == Failures(available[..k]) + (if available[k] then 0 else 1)
  {
    var before, through := available[..k], available[..k + 1];
    assert through[..|through| - 1] == before && through[|through| - 1] == available[k];
  }

  /** Counting failures over a longer prefix never counts fewer. */
  lemma {:induction false} FailuresMonotone(available: seq<bool>, i: nat, j: nat)
    requires i <= j <= |available|
    ensures Failures(available[..i]) <= Failures(available[..j])
    decreases j - i
  {
    if i < j {
      FailuresStep(available, j - 1);
      FailuresMonotone(available, i, j - 1);
    }
  }

  /**
   * Check k reports true exactly when data is available then, and false exactly
   * when it fails and is the tenth failure.
   */
  lemma ReportMeaning(available: seq<bool>, k: nat)
    requires k < |available|
    ensures Reports(available)[k] == Some(true) <==> available[k]
    ensures Reports(available)[k] == Some(false) <==> !available[k] && Failures(available[..k + 1]) == MaxTries
  {
    ReportAt(available, k);
    FailuresStep(available, k);
  }

  /** The failure count passes 10 only once: no later failed check is again the tenth failure. */
  lemma TenthFailureOnce(available: seq<bool>, i: nat, j: nat)
    requires i < j < |available|
    requires Failures(available[..i + 1]) == MaxTries
    ensures available[j] || Failures(available[..j + 1]) != MaxTries
  {
    FailuresMonotone(available, i + 1, j);
    FailuresStep(available, j);
  }

  /** false is reported at most once, however long the checks go on. */
  lemma FalseReportedOnce(available: seq<bool>, i: nat, j: nat)
    requires i < j < |available|
    requires Reports(available)[i] == Some(false)
    ensures Reports(available)[j] != Some(false)
  {
    ReportMeaning(available, i);
    TenthFailureOnce(available, i, j);
    ReportMeaning(available, j);
  }
}
