/** A running workout (`Running`): tag "running", a cadence, and the pace in minutes per km. */
module RunningWorkout {
  import opened Wrappers
  import opened JsNumbers
  import opened Workouts
  import Decimal

  const Tag: string := "running"

  /** Minutes per km: duration over distance. */
  function Pace(distance: real, duration: real): Number
  {
    Divide(duration, distance)
  }

  /** A running record whose tag, description and pace agree with its inputs. */
  predicate Consistent(w: Workout) {
    && w.Running?
    && w.base.kind == Tag
    && w.base.description == Describe(Tag, w.base.date)
    && w.pace == Pace(w.base.distance, w.base.duration)
  }

  /** `new Running(coords, distance, duration, cedance)` */
  function NewRunning(coords: Coords, distance: real, duration: real, cedance: Option<real>, clock: Clock): (w: Workout)
    ensures w.Running? && w.base.kind == Tag && w.cedance == cedance
    ensures w.base.coords == coords && w.base.distance == distance && w.base.duration == duration
    ensures w.base.clicks == 0 && w.base.id == IdOf(clock.millis) && w.base.date == clock.date
    ensures w.pace.Finite? <==> distance != 0.0
    ensures w.pace.Finite? ==> w.pace.value * distance == duration
    ensures Consistent(w)
  {
    Running(NewBase(coords, distance, duration, Tag, clock), cedance, Pace(distance, duration))
  }

  /** `calcPace()`: stores the pace and returns the value it stored. */
  function CalcPace(w: Workout): (r: (Workout, Number))
    requires w.Running?
    ensures r.0 == w.(pace := r.1)
    ensures r.1.Finite? <==> w.base.distance != 0.0
    ensures r.1.Finite? ==> r.1.value * w.base.distance == w.base.duration
  {
    var pace := Pace(w.base.distance, w.base.duration);
    (w.(pace := pace), pace)
  }

  lemma CalcPaceIdempotent(w: Workout)
    requires w.Running?
    ensures CalcPace(CalcPace(w).0) == CalcPace(w)
  {
  }

  /** On a consistent record, recomputing the pace changes nothing and returns the stored pace. */
  lemma CalcPaceOnConsistent(w: Workout)
    requires Consistent(w)
    ensures CalcPace(w) == (w, w.pace)
  {
  }

  /** With a positive distance the pace is the duration per km exactly. */
  lemma PaceTimesDistance(distance: real, duration: real)
    requires distance > 0.0
    ensures Pace(distance, duration).Finite?
    ensures Pace(distance, duration).value * distance == duration
    ensures Pace(distance, duration).value == duration / distance
  {
  }

  lemma RunningDescriptionPrefix(coords: Coords, distance: real, duration: real, cedance: Option<real>, clock: Clock)
    ensures NewRunning(coords, distance, duration, cedance, clock).base.description[..11] == "Running on "
  {
    var d := NewRunning(coords, distance, duration, cedance, clock).base.description;
    assert Capitalize(Tag) == "Running";
    assert d == "Running" + " on " + MonthNames[clock.date.month] + " " + Decimal.NatToString(clock.date.day);
  }

  /** 5 km in 30 minutes is a pace of 6 minutes per km. */
  lemma FiveKmInThirtyMinutes(clock: Clock)
    ensures NewRunning(Coords(10.0, 20.0), 5.0, 30.0, Some(150.0), clock).pace == Finite(6.0)
  {
  }
}
