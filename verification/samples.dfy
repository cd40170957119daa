/**
 * One recorded instant of a device's control loop, reduced to the fields the
 * no-load analysis reads: the time index in milliseconds, the raw commanded
 * value, and the commanded and measured positions in degrees.
 */
module Samples {
  import opened Stats

  datatype Sample = Sample(time: int, setPointRaw: real, setPointDeg: real, actualDeg: real)

  function SetPoints(d: seq<Sample>): (r: seq<real>)
    ensures |r| == |d|
    ensures forall i :: 0 <= i < |d| ==> r[i] == d[i].setPointDeg
  {
    seq(|d|, i requires 0 <= i < |d| => d[i].setPointDeg)
  }

  function AbsSetPoints(d: seq<Sample>): (r: seq<real>)
    ensures |r| == |d|
    ensures forall i :: 0 <= i < |d| ==> r[i] == Abs(d[i].setPointDeg)
  {
    seq(|d|, i requires 0 <= i < |d| => Abs(d[i].setPointDeg))
  }

  function Actuals(d: seq<Sample>): (r: seq<real>)
    ensures |r| == |d|
    ensures forall i :: 0 <= i < |d| ==> r[i] == d[i].actualDeg
  {
    seq(|d|, i requires 0 <= i < |d| => d[i].actualDeg)
  }

  /** The samples come ordered by time, as the sample source promises. */
  predicate TimesNonDecreasing(d: seq<Sample>)
  {
    forall i, j :: 0 <= i <= j < |d| ==> d[i].time <= d[j].time
  }

  /** A time difference in milliseconds, expressed in seconds. */
  function Seconds(ms: int): real
  {
    ms as real / 1000.0
  }
}
