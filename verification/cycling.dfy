/** A cycling workout (`Cycling`): tag "cycling", an elevation gain, and the speed in km/h. */
module CyclingWorkout {
  import opened Wrappers
  import opened JsNumbers
  import opened Workouts
  import Decimal

  const Tag: string := "cycling"

  /** Km per hour: distance over the duration converted from minutes to hours. */
  function Speed(distance: real, duration: real): Number
  {
    Divide(distance, duration / 60.0)
  }

  /** A cycling record whose tag, description and speed agree with its inputs. */
  predicate Consistent(w: Workout) {
    && w.Cycling?
    && w.base.kind == Tag
    && w.base.description == Describe(Tag, w.base.date)
    && w.speed == Speed(w.base.distance, w.base.duration)
  }

  /** `new Cycling(coords, distance, duration, elevationGain)` */
  function NewCycling(coords: Coords, distance: real, duration: real, elevationGain: Option<real>, clock: Clock): (w: Workout)
    ensures w.Cycling? && w.base.kind == Tag && w.elevationGain == elevationGain
    ensures w.base.coords == coords && w.base.distance == distance && w.base.duration == duration
    ensures w.base.clicks == 0 && w.base.id == IdOf(clock.millis) && w.base.date == clock.date
    ensures w.speed.Finite? <==> duration != 0.0
    ensures w.speed.Finite? ==> w.speed.value * duration == 60.0 * distance
    ensures Consistent(w)
  {
    Cycling(NewBase(coords, distance, duration, Tag, clock), elevationGain, Speed(distance, duration))
  }

  /** `calcSpeed()`: stores the speed and returns the value it stored. */
  function CalcSpeed(w: Workout): (r: (Workout, Number))
    requires w.Cycling?
    ensures r.0 == w.(speed := r.1)
    ensures r.1.Finite? <==> w.base.duration != 0.0
    ensures r.1.Finite? ==> r.1.value * w.base.duration == 60.0 * w.base.distance
  {
    var speed := Speed(w.base.distance, w.base.duration);
    (w.(speed := speed), speed)
  }

  lemma CalcSpeedIdempotent(w: Workout)
    requires w.Cycling?
    ensures CalcSpeed(CalcSpeed(w).0) == CalcSpeed(w)
  {
  }

  /** On a consistent record, recomputing the speed changes nothing and returns the stored speed. */
  lemma CalcSpeedOnConsistent(w: Workout)
    requires Consistent(w)
    ensures CalcSpeed(w) == (w, w.speed)
  {
  }

  /** With a positive duration the speed is the distance per hour exactly. */
  lemma SpeedTimesDuration(distance: real, duration: real)
    requires duration > 0.0
    ensures Speed(distance, duration).Finite?
    ensures Speed(distance, duration).value * duration == 60.0 * distance
    ensures Speed(distance, duration).value == distance / (duration / 60.0)
  {
  }

  lemma CyclingDescriptionPrefix(coords: Coords, distance: real, duration: real, elevationGain: Option<real>, clock: Clock)
    ensures NewCycling(coords, distance, duration, elevationGain, clock).base.description[..11] == "Cycling on "
  {
    var d := NewCycling(coords, distance, duration, elevationGain, clock).base.description;
    assert Capitalize(Tag) == "Cycling";
    assert d == "Cycling" + " on " + MonthNames[clock.date.month] + " " + Decimal.NatToString(clock.date.day);
  }

  /** 20 km in 60 minutes is 20 km/h. */
  lemma TwentyKmInAnHour(clock: Clock)
    ensures NewCycling(Coords(10.0, 20.0), 20.0, 60.0, Some(400.0), clock).speed == Finite(20.0)
  {
  }
}
