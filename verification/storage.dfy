/**
 The persisted form of the workout list and its restore on start-up
 (`_getLocalStorage`). Storage holds one flat, kind-erased entry per record;
 restore dispatches on each entry's tag to the matching constructor, so the
 derived fields, id, date and click count are regenerated, not copied, and
 entries with any other tag are dropped.
 */
module Storage {
  import opened Wrappers
  import opened JsNumbers
  import opened Workouts
  import RunningWorkout
  import CyclingWorkout

  /**
   One parsed entry of the stored array: every field either kind may have,
   merged into one shape. An absent key is `None`; the stored pace or speed
   is `None` also where JSON wrote a non-finite number as `null`.
   */
  datatype StoredEntry = StoredEntry(
    kind: string,
    coords: Coords,
    distance: real,
    duration: real,
    cedance: Option<real>,
    elevationGain: Option<real>,
    pace: Option<real>,
    speed: Option<real>,
    id: string,
    description: string,
    clicks: int)

  /** What `localStorage.getItem('workouts')` yields once parsed. */
  datatype Stored =
    | NoItem                                // no item, or the empty string
    | NullItem                              // the item parses to a falsy value such as `null`
    | Entries(entries: seq<StoredEntry>)    // the item is a JSON array

  /** A record is well formed when its tag, description and metric agree with its inputs. */
  predicate WellFormed(w: Workout) {
    RunningWorkout.Consistent(w) || CyclingWorkout.Consistent(w)
  }

  /** Two records of the same kind with the same inputs and the same derived metric. */
  predicate SameInputs(a: Workout, b: Workout) {
    && a.Running? == b.Running?
    && a.base.kind == b.base.kind
    && a.base.coords == b.base.coords
    && a.base.distance == b.base.distance
    && a.base.duration == b.base.duration
    && (a.Running? ==> a.cedance == b.cedance && a.pace == b.pace)
    && (a.Cycling? ==> a.elevationGain == b.elevationGain && a.speed == b.speed)
  }

  function FiniteValue(x: Number): Option<real> {
    if x.Finite? then Some(x.value) else None
  }

  /** The record as `JSON.stringify` flattens it; the date is not kept. */
  function Flatten(w: Workout): (e: StoredEntry)
    ensures e.kind == w.base.kind && e.coords == w.base.coords
    ensures e.distance == w.base.distance && e.duration == w.base.duration
    ensures e.id == w.base.id && e.description == w.base.description && e.clicks == w.base.clicks
    ensures w.Running? ==> e.cedance == w.cedance && e.elevationGain == None
    ensures w.Cycling? ==> e.elevationGain == w.elevationGain && e.cedance == None
  {
    match w
    case Running(b, cedance, pace) =>
      StoredEntry(b.kind, b.coords, b.distance, b.duration, cedance, None, FiniteValue(pace), None,
                  b.id, b.description, b.clicks)
    case Cycling(b, elevationGain, speed) =>
      StoredEntry(b.kind, b.coords, b.distance, b.duration, None, elevationGain, None, FiniteValue(speed),
                  b.id, b.description, b.clicks)
  }

  function FlattenAll(ws: seq<Workout>): (es: seq<StoredEntry>)
    ensures |es| == |ws|
    ensures forall i :: 0 <= i < |ws| ==> es[i] == Flatten(ws[i])
  {
    seq(|ws|, i requires 0 <= i < |ws| => Flatten(ws[i]))
  }

  /** The tags restore recognises */
  predicate Recognised(e: StoredEntry) {
    e.kind == RunningWorkout.Tag || e.kind == CyclingWorkout.Tag
  }

  /**
   The body of the restore loop for one entry: a `Running` from coords,
   distance, duration and cadence, a `Cycling` from coords, distance, duration
   and elevation gain, nothing for any other tag.
   */
  function Rebuild(e: StoredEntry, clock: Clock): (r: Option<Workout>)
    ensures r.Some? <==> Recognised(e)
  {
    if e.kind == RunningWorkout.Tag then
      Some(RunningWorkout.NewRunning(e.coords, e.distance, e.duration, e.cedance, clock))
    else if e.kind == CyclingWorkout.Tag then
      Some(CyclingWorkout.NewCycling(e.coords, e.distance, e.duration, e.elevationGain, clock))
    else
      None
  }

  /**
   A rebuilt record is well formed, of the kind its tag names, carries the
   entry's inputs, starts with no clicks and takes its id and date from the
   clock reading.
   */
  lemma RebuildFromInputs(e: StoredEntry, clock: Clock)
    requires Recognised(e)
    ensures var w := Rebuild(e, clock).value;
            && WellFormed(w)
            && w.base.kind == e.kind
            && (w.Running? <==> e.kind == RunningWorkout.Tag)
            && w.base.coords == e.coords
            && w.base.distance == e.distance
            && w.base.duration == e.duration
            && (w.Running? ==> w.cedance == e.cedance)
            && (w.Cycling? ==> w.elevationGain == e.elevationGain)
            && w.base.clicks == 0
            && w.base.id == IdOf(clock.millis)
            && w.base.date == clock.date
  {
  }

  /** The stored id, description, click count and metric play no part in rebuilding a record. */
  lemma RebuildIgnoresStoredDerivedFields(e: StoredEntry, e': StoredEntry, clock: Clock)
    requires e.kind == e'.kind && e.coords == e'.coords
    requires e.distance == e'.distance && e.duration == e'.duration
    requires e.cedance == e'.cedance && e.elevationGain == e'.elevationGain
    ensures Rebuild(e, clock) == Rebuild(e', clock)
  {
  }

  /** The positions of the recognised entries, in increasing order. */
  function KeptIndices(es: seq<StoredEntry>): (idx: seq<nat>)
    ensures forall k :: 0 <= k < |idx| ==> idx[k] < |es| && Recognised(es[idx[k]])
    ensures forall k, l :: 0 <= k < l < |idx| ==> idx[k] < idx[l]
    ensures forall i :: 0 <= i < |es| && Recognised(es[i]) ==> i in idx
  {
    if |es| == 0 then []
    else
      var prev := KeptIndices(es[..|es| - 1]);
      if Recognised(es[|es| - 1]) then prev + [|es| - 1] else prev
  }

  /**
   Restore over the parsed entries: the rebuilt records of the recognised
   entries, in their original order. Entry `i` is rebuilt with the clock
   reading `clock(i)`.
   */
  function Restore(es: seq<StoredEntry>, clock: nat -> Clock): (r: seq<Workout>)
    ensures |r| == |KeptIndices(es)|
  {
    if |es| == 0 then []
    else
      var prev := Restore(es[..|es| - 1], clock);
      match Rebuild(es[|es| - 1], clock(|es| - 1))
      case Some(w) => prev + [w]
      case None => prev
  }

  /** The `k`-th restored record is the rebuild of the `k`-th recognised entry. */
  lemma {:induction false} RestoreContents(es: seq<StoredEntry>, clock: nat -> Clock)
    ensures forall k :: 0 <= k < |Restore(es, clock)| ==>
              Rebuild(es[KeptIndices(es)[k]], clock(KeptIndices(es)[k])) == Some(Restore(es, clock)[k])
  {
    if |es| > 0 {
      var n := |es| - 1;
      var init := es[..n];
      RestoreContents(init, clock);
      var prev := Restore(init, clock);
      var idx := KeptIndices(init);
      var r := Restore(es, clock);
      forall k | 0 <= k < |r|
        ensures Rebuild(es[KeptIndices(es)[k]], clock(KeptIndices(es)[k])) == Some(r[k])
      {
        if k < |prev| {
          assert KeptIndices(es)[k] == idx[k];
          assert es[idx[k]] == init[idx[k]];
          assert r[k] == prev[k];
        } else {
          assert Recognised(es[n]);
          assert KeptIndices(es)[k] == n;
        }
      }
    }
  }

  /** Restoring one more entry appends its rebuild, or nothing when its tag is not recognised. */
  lemma RestoreSnoc(es: seq<StoredEntry>, e: StoredEntry, clock: nat -> Clock)
    ensures Restore(es + [e], clock) ==
              Restore(es, clock) + (if Recognised(e) then [Rebuild(e, clock(|es|)).value] else [])
  {
    assert (es + [e])[..|es|] == es;
  }

  lemma RestoreThree(a: StoredEntry, b: StoredEntry, c: StoredEntry, clock: nat -> Clock)
    requires Recognised(a) && !Recognised(b) && Recognised(c)
    ensures Restore([a, b, c], clock) == [Rebuild(a, clock(0)).value, Rebuild(c, clock(2)).value]
  {
    assert [] + [a] == [a] && [a] + [b] == [a, b] && [a, b] + [c] == [a, b, c];
    RestoreSnoc([], a, clock);
    RestoreSnoc([a], b, clock);
    RestoreSnoc([a, b], c, clock);
  }

  /** An entry tagged "swimming" between a running and a cycling entry is dropped. */
  lemma RestoreDropsUnknownTag(a: StoredEntry, b: StoredEntry, c: StoredEntry, clock: nat -> Clock)
    requires a.kind == RunningWorkout.Tag && b.kind == "swimming" && c.kind == CyclingWorkout.Tag
    ensures var r := Restore([a, b, c], clock);
            && |r| == 2
            && r[0].Running? && r[0].base.coords == a.coords && r[0].base.id == IdOf(clock(0).millis)
            && r[1].Cycling? && r[1].base.coords == c.coords && r[1].base.id == IdOf(clock(2).millis)
  {
    RestoreThree(a, b, c, clock);
    RebuildFromInputs(a, clock(0));
    RebuildFromInputs(c, clock(2));
  }

  /** `_getLocalStorage`: appends the restored records to the records already held. */
  function Load(ws: seq<Workout>, stored: Stored, clock: nat -> Clock): (r: seq<Workout>)
    ensures |ws| <= |r| && r[..|ws|] == ws
    ensures !stored.Entries? ==> r == ws
    ensures stored.Entries? ==> r[|ws|..] == Restore(stored.entries, clock)
  {
    match stored
    case NoItem => ws
    case NullItem => ws
    case Entries(es) => ws + Restore(es, clock)
  }

  /** Every restored record is well formed and starts with no clicks. */
  lemma RestoreWellFormed(es: seq<StoredEntry>, clock: nat -> Clock)
    ensures forall k :: 0 <= k < |Restore(es, clock)| ==>
              WellFormed(Restore(es, clock)[k]) && Restore(es, clock)[k].base.clicks == 0
  {
    var r := Restore(es, clock);
    RestoreContents(es, clock);
    forall k | 0 <= k < |r|
      ensures WellFormed(r[k]) && r[k].base.clicks == 0
    {
      assert Rebuild(es[KeptIndices(es)[k]], clock(KeptIndices(es)[k])) == Some(r[k]);
      RebuildFromInputs(es[KeptIndices(es)[k]], clock(KeptIndices(es)[k]));
    }
  }

  lemma {:induction false} AllRecognisedKeepsAll(es: seq<StoredEntry>)
    requires forall i :: 0 <= i < |es| ==> Recognised(es[i])
    ensures |KeptIndices(es)| == |es|
    ensures forall k :: 0 <= k < |es| ==> KeptIndices(es)[k] == k
  {
    if |es| > 0 {
      AllRecognisedKeepsAll(es[..|es| - 1]);
    }
  }

  /**
   Persisting and restoring a list of well-formed records gives back the same
   number of records, position by position of the same kind with the same
   inputs and the same derived metric; the clicks start again from zero and
   the ids come from the new clock readings.
   */
  lemma RestoreRoundTrip(ws: seq<Workout>, clock: nat -> Clock)
    requires forall i :: 0 <= i < |ws| ==> WellFormed(ws[i])
    ensures |Restore(FlattenAll(ws), clock)| == |ws|
    ensures forall i :: 0 <= i < |ws| ==>
              && SameInputs(Restore(FlattenAll(ws), clock)[i], ws[i])
              && Restore(FlattenAll(ws), clock)[i].base.clicks == 0
              && Restore(FlattenAll(ws), clock)[i].base.id == IdOf(clock(i).millis)
  {
    var es := FlattenAll(ws);
    var r := Restore(es, clock);
    AllRecognisedKeepsAll(es);
    RestoreContents(es, clock);
    forall i | 0 <= i < |ws|
      ensures SameInputs(r[i], ws[i]) && r[i].base.clicks == 0 && r[i].base.id == IdOf(clock(i).millis)
    {
      assert Rebuild(es[i], clock(i)) == Some(r[i]);
      RebuildFromInputs(es[i], clock(i));
    }
  }
}
