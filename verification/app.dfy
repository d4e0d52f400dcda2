/**
 The application state (`App`): the ordered list of workouts and the stored
 copy of it. Covers submitting the form (`_newWorkout` with its
 `validInputs`/`allPositive` checks), selecting a workout from the list
 (`_moveToPopup`), start-up and reset. Map, markers and HTML are not modelled.
 */
module AppModel {
  import opened Wrappers
  import opened JsNumbers
  import opened Workouts
  import opened Storage
  import RunningWorkout
  import CyclingWorkout

  /** What the form's activity selector offers */
  datatype FormType = CyclingForm | RunningForm

  /** The form's fields after `Number(...)`; the map click supplies the coordinates. */
  datatype Form = Form(
    formType: FormType,
    distance: Number,
    duration: Number,
    cadence: Number,
    elevation: Number)

  datatype App = App(workouts: seq<Workout>, stored: Stored)

  /** The result of a form submission: the new state, and the alert shown, if any. */
  datatype Submission = Submission(app: App, alert: Option<string>)

  const InvalidInputAlert: string := "Please enter a valid positive number"

  /** Every record held is well formed. */
  predicate Valid(app: App) {
    forall i :: 0 <= i < |app.workouts| ==> WellFormed(app.workouts[i])
  }

  /** `validInputs(...)`: every input is a finite number. */
  predicate ValidInputs(xs: seq<Number>) {
    forall i :: 0 <= i < |xs| ==> IsFinite(xs[i])
  }

  /** `allPositive(...)`: every input is `>= 0`. */
  predicate AllPositive(xs: seq<Number>) {
    forall i :: 0 <= i < |xs| ==> AtLeastZero(xs[i])
  }

  /**
   Whether `_newWorkout` goes past its checks. Cycling needs a finite
   distance, duration and elevation, with distance and duration at least
   zero; the elevation may be negative. Running needs all three of distance,
   duration and cadence finite and at least zero.
   */
  function Accepts(f: Form): (ok: bool)
    ensures f.formType == CyclingForm ==>
              (ok <==> && f.distance.Finite? && f.duration.Finite? && f.elevation.Finite?
                       && f.distance.value >= 0.0 && f.duration.value >= 0.0)
    ensures f.formType == RunningForm ==>
              (ok <==> && f.distance.Finite? && f.duration.Finite? && f.cadence.Finite?
                       && f.distance.value >= 0.0 && f.duration.value >= 0.0 && f.cadence.value >= 0.0)
  {
    match f.formType
    case CyclingForm =>
      var inputs := [f.distance, f.duration, f.elevation];
      assert inputs[0] == f.distance && inputs[1] == f.duration && inputs[2] == f.elevation;
      ValidInputs(inputs) && AllPositive(inputs[..2])
    case RunningForm =>
      var inputs := [f.distance, f.duration, f.cadence];
      assert inputs[0] == f.distance && inputs[1] == f.duration && inputs[2] == f.cadence;
      ValidInputs(inputs) && AllPositive(inputs)
  }

  /**
   `_newWorkout`: a rejected form raises the alert and changes nothing; an
   accepted one appends exactly one record of the selected kind, built from
   the form's values, and writes the whole list to storage.
   */
  function NewWorkout(app: App, f: Form, latlng: Coords, clock: Clock): (r: Submission)
    ensures !Accepts(f) ==> r.app == app && r.alert == Some(InvalidInputAlert)
    ensures Accepts(f) ==>
              && r.alert == None
              && |r.app.workouts| == |app.workouts| + 1
              && r.app.workouts[..|app.workouts|] == app.workouts
              && r.app.stored == Entries(FlattenAll(r.app.workouts))
    ensures Accepts(f) ==>
              var w := r.app.workouts[|app.workouts|];
              && WellFormed(w)
              && (w.Cycling? <==> f.formType == CyclingForm)
              && w.base.coords == latlng
              && w.base.distance == f.distance.value
              && w.base.duration == f.duration.value
              && w.base.clicks == 0
              && (w.Running? ==> w.cedance == Some(f.cadence.value))
              && (w.Cycling? ==> w.elevationGain == Some(f.elevation.value))
  {
    if !Accepts(f) then
      Submission(app, Some(InvalidInputAlert))
    else
      var w := match f.formType
        case CyclingForm =>
          CyclingWorkout.NewCycling(latlng, f.distance.value, f.duration.value, Some(f.elevation.value), clock)
        case RunningForm =>
          RunningWorkout.NewRunning(latlng, f.distance.value, f.duration.value, Some(f.cadence.value), clock);
      var workouts := app.workouts + [w];
      Submission(App(workouts, Entries(FlattenAll(workouts))), None)
  }

  /** `workouts.find(w => w.id === id)` as a position, searching from `from` on. */
  function FindFrom(ws: seq<Workout>, id: string, from: nat): (r: Option<nat>)
    requires from <= |ws|
    ensures r.Some? ==> from <= r.value < |ws| && ws[r.value].base.id == id
    ensures r.Some? ==> forall j :: from <= j < r.value ==> ws[j].base.id != id
    ensures r.None? ==> forall j :: from <= j < |ws| ==> ws[j].base.id != id
    decreases |ws| - from
  {
    if from == |ws| then None
    else if ws[from].base.id == id then Some(from)
    else FindFrom(ws, id, from + 1)
  }

  /** The position of the first record with the given id, if there is one. */
  function FindById(ws: seq<Workout>, id: string): (r: Option<nat>)
    ensures r.Some? ==> r.value < |ws| && ws[r.value].base.id == id
    ensures r.Some? ==> forall j :: 0 <= j < r.value ==> ws[j].base.id != id
    ensures r.None? ==> forall j :: 0 <= j < |ws| ==> ws[j].base.id != id
  {
    FindFrom(ws, id, 0)
  }

  /**
   `_moveToPopup`: a click outside any list entry, or on an id no record has,
   changes nothing; otherwise the first record with that id gets one more
   click. Storage is not rewritten.
   */
  function MoveToPopup(app: App, clickedId: Option<string>): (r: App)
    ensures r.stored == app.stored
    ensures |r.workouts| == |app.workouts|
    ensures clickedId.None? ==> r == app
    ensures (clickedId.Some? && forall j :: 0 <= j < |app.workouts| ==> app.workouts[j].base.id != clickedId.value)
            ==> r == app
    ensures forall i :: 0 <= i < |app.workouts| && r.workouts[i] != app.workouts[i] ==>
              && clickedId.Some?
              && app.workouts[i].base.id == clickedId.value
              && (forall j :: 0 <= j < i ==> app.workouts[j].base.id != clickedId.value)
              && r.workouts[i] == Click(app.workouts[i])
    ensures forall i :: && clickedId.Some?
                        && 0 <= i < |app.workouts|
                        && app.workouts[i].base.id == clickedId.value
                        && (forall j :: 0 <= j < i ==> app.workouts[j].base.id != clickedId.value)
                        ==> r.workouts[i] == Click(app.workouts[i])
  {
    if clickedId.None? then app
    else match FindById(app.workouts, clickedId.value)
      case None => app
      case Some(i) => app.(workouts := app.workouts[i := Click(app.workouts[i])])
  }

  /** Selecting a record that has a match bumps exactly the first match. */
  lemma MoveToPopupClicksFirstMatch(app: App, id: string, i: nat)
    requires i < |app.workouts| && app.workouts[i].base.id == id
    requires forall j :: 0 <= j < i ==> app.workouts[j].base.id != id
    ensures MoveToPopup(app, Some(id)).workouts == app.workouts[i := Click(app.workouts[i])]
  {
    var r := FindById(app.workouts, id);
    assert r == Some(i);
  }

  /** Start-up: an empty list, then the stored records restored onto it. */
  function Startup(stored: Stored, clock: nat -> Clock): (r: App)
    ensures r.stored == stored
    ensures !stored.Entries? ==> r.workouts == []
    ensures stored.Entries? ==> |r.workouts| == |KeptIndices(stored.entries)|
    ensures stored.Entries? ==> r.workouts == Restore(stored.entries, clock)
    ensures Valid(r)
  {
    RestoreWellFormed(if stored.Entries? then stored.entries else [], clock);
    App(Load([], stored, clock), stored)
  }

  /** `reset()`: the stored item is removed and the page starts again with no records. */
  function Reset(app: App, clock: nat -> Clock): (r: App)
    ensures r.workouts == [] && r.stored == NoItem
  {
    Startup(NoItem, clock)
  }

  lemma NewWorkoutKeepsValid(app: App, f: Form, latlng: Coords, clock: Clock)
    requires Valid(app)
    ensures Valid(NewWorkout(app, f, latlng, clock).app)
  {
    var r := NewWorkout(app, f, latlng, clock);
    if Accepts(f) {
      forall i | 0 <= i < |r.app.workouts|
        ensures WellFormed(r.app.workouts[i])
      {
        if i < |app.workouts| {
          assert r.app.workouts[i] == r.app.workouts[..|app.workouts|][i];
        }
      }
    }
  }

  lemma ClickKeepsWellFormed(w: Workout)
    requires WellFormed(w)
    ensures WellFormed(Click(w))
  {
  }

  lemma MoveToPopupKeepsValid(app: App, clickedId: Option<string>)
    requires Valid(app)
    ensures Valid(MoveToPopup(app, clickedId))
  {
    var r := MoveToPopup(app, clickedId);
    forall i | 0 <= i < |r.workouts|
      ensures WellFormed(r.workouts[i])
    {
      if r.workouts[i] != app.workouts[i] {
        ClickKeepsWellFormed(app.workouts[i]);
      }
    }
  }

  /**
   Reloading the page after an accepted submission restores as many records
   as were held, each of the same kind with the same inputs and metric.
   */
  lemma ReloadAfterSubmit(app: App, f: Form, latlng: Coords, clock: Clock, later: nat -> Clock)
    requires Valid(app) && Accepts(f)
    ensures var held := NewWorkout(app, f, latlng, clock).app.workouts;
            var reloaded := Startup(NewWorkout(app, f, latlng, clock).app.stored, later).workouts;
            && |reloaded| == |held|
            && forall i :: 0 <= i < |held| ==> SameInputs(reloaded[i], held[i]) && reloaded[i].base.clicks == 0
  {
    var s := NewWorkout(app, f, latlng, clock).app;
    NewWorkoutKeepsValid(app, f, latlng, clock);
    RestoreRoundTrip(s.workouts, later);
    assert Load([], s.stored, later) == Restore(FlattenAll(s.workouts), later);
  }
}
