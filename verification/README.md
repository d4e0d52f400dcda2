# Workout records and their restore from storage

A Dafny model of the data core of the Mapty workout tracker. A user logs a
running or cycling workout by clicking the map and filling in a form. The app
keeps the workouts in an ordered list and saves the list to the browser's
local storage. On start-up it rebuilds the list from storage.

The model covers:

- **The record** (`Workout`, `Running`, `Cycling`). The record is one tagged
  union, `Workouts.Workout = Running(base, cedance, pace) | Cycling(base,
  elevationGain, speed)`. So a running record has a cadence and a pace and no
  elevation or speed, and a cycling record the other way round. `Base` holds
  the fields of the `Workout` base class:
  - the date;
  - the id: the last ten characters of the millisecond timestamp in decimal;
  - the description `"<Type> on <Month> <Day>"`;
  - the click counter;
  - coordinates, distance, duration and the `type` tag (a keyword in Dafny, so
    the field is called `kind`).
- **Derived metrics.** Pace is duration / distance. Speed is distance /
  (duration / 60). They follow JavaScript division: a zero divisor gives
  +Infinity, -Infinity or NaN, modelled by `JsNumbers.Number`.
- **Restore** (`_getLocalStorage`). It works over the already-parsed stored
  array of flat entries. Each entry is rebuilt by the constructor its tag names,
  and an entry with any other tag is dropped. The order of the kept entries is
  preserved.
- **Form submission** (`_newWorkout`): the `validInputs`/`allPositive` checks
  for each kind, the single append, and the write of the whole list to storage.
- **Selecting a workout** (`_moveToPopup`): the first record with the clicked id
  gets one more click.
- **Start-up and `reset()`.**

Whatever the source reads from outside is a parameter:

- the clock: `Clock`, with the calendar date and the millisecond timestamp
  given separately, because the source calls `new Date()` twice;
- the map click's coordinates;
- the form fields, already converted by `Number(...)`;
- the parsed content of local storage (`Storage.Stored`);
- the id on the clicked list entry.

Restore takes one clock reading per entry position (`clock: nat -> Clock`).

Behaviours of the code that the model keeps, which a reader might not expect:

- Cycling input accepts a negative elevation gain. Only distance and duration
  are checked for being at least zero (`src/scripts/App.ts:202-205`).
- Restore checks only the tag. An entry tagged "running" with no cadence is
  rebuilt, and its cadence is `undefined` (`None` here).
- The date in the description and the id come from two separate clock readings.
- Selecting a workout does not write storage. Clicks reach storage only with
  the next submission, and restore sets them back to zero anyway.

## Model

| member | source | states |
|---|---|---|
| `Workouts.NewBase` | src/scripts/Workout.ts:1-18 | The base constructor stores coords, distance, duration and type unchanged, starts clicks at 0, takes the date from the clock, and derives the id from the timestamp and the description from the type and date; the description begins with the capitalised type |
| `Workouts.Capitalize` | src/scripts/Workout.ts:36 | Same length as the type; the first character is upper-cased and the rest is kept |
| `Workouts.DescriptionLayout` | src/scripts/Workout.ts:20-38 | The description reads back as the capitalised type, " on ", the name at the month's index in the 12-entry table, a space, then one or two digits whose value is the day of the month |
| `Workouts.IdOf` | src/scripts/Workout.ts:3 | The id has at most 10 characters and is a suffix of the timestamp's decimal string; it is the whole string when that is shorter than 10 |
| `Workouts.IdIsTimestampModulo` | src/scripts/Workout.ts:3 | For a timestamp of at least 10^9 ms, the id is the timestamp modulo 10^10 written with exactly ten digits |
| `Workouts.IdCollision` | src/scripts/Workout.ts:3 | Two timestamps of at least 10^9 ms give the same id exactly when they agree modulo 10^10, so ids repeat every 10^10 ms |
| `Workouts.Click` | src/scripts/Workout.ts:41-43 | `click()` raises clicks by exactly 1 and changes no other field |
| `Workouts.ClickTimesCounts` | src/scripts/Workout.ts:41-43 | n clicks raise the counter by n and change no other field |
| `Decimal.NatToString` | src/scripts/Workout.ts:38 | The decimal rendering is a non-empty digit string with no leading zero |
| `Decimal.IntToString` | src/scripts/Workout.ts:3 | A timestamp's string is non-empty and starts with a minus sign exactly when the timestamp is negative |
| `Decimal.IntToStringRoundTrip` | src/scripts/Workout.ts:3 | The digits of a timestamp's string, after the sign if there is one, read back as the timestamp's magnitude |
| `Decimal.Suffix` | src/scripts/Workout.ts:3 | `slice(-k)` is a suffix of the string: for k >= 1 it keeps the last min(k, length) characters, and `slice(-0)` keeps the whole string |
| `Decimal.NatToStringRoundTrip` | src/scripts/Workout.ts:38 | Reading the decimal rendering back gives the number |
| `Decimal.NatToStringLength` | src/scripts/Workout.ts:3 | For k >= 1, a number's decimal string has more than k digits exactly when the number is at least 10^k |
| `Decimal.NatToStringSuffix` | src/scripts/Workout.ts:3 | The last k digits of a number are its value modulo 10^k, zero padded to k digits |
| `Decimal.PaddedInjective` | src/scripts/Workout.ts:3 | Ten-digit zero-padded values below 10^10 are distinct, so distinct residues give distinct ids |
| `JsNumbers.Divide` | src/scripts/Running.ts:19 | JavaScript division of finite numbers: finite exactly when the divisor is nonzero, and then it times the divisor gives the dividend; 0/0 is NaN and a positive over zero is +Infinity |
| `JsNumbers.DivideIsInverseOfMultiply` | src/scripts/Cycling.ts:19 | A finite quotient q of a by b is characterised by b != 0 and q * b == a |
| `RunningWorkout.NewRunning` | src/scripts/Running.ts:4-15 | A new Running has tag "running", the given cadence, coords, distance and duration, zero clicks and the clock's id and date; its pace is finite iff the distance is nonzero, and then pace * distance == duration |
| `RunningWorkout.CalcPace` | src/scripts/Running.ts:17-22 | `calcPace()` returns the value it stores in `pace` and changes nothing else; the value is finite iff the distance is nonzero and then times the distance gives the duration |
| `RunningWorkout.CalcPaceIdempotent` | src/scripts/Running.ts:17-22 | Recomputing the pace twice gives the same record and value as once |
| `RunningWorkout.CalcPaceOnConsistent` | src/scripts/Running.ts:14-22 | On a record built by the constructor, `calcPace()` changes nothing and returns the stored pace |
| `RunningWorkout.PaceTimesDistance` | src/scripts/Running.ts:18-19 | With a positive distance the pace is finite, equals duration / distance, and times the distance gives the duration |
| `RunningWorkout.RunningDescriptionPrefix` | src/scripts/Running.ts:11 | A Running's description starts with "Running on " |
| `RunningWorkout.FiveKmInThirtyMinutes` | src/scripts/Running.ts:17-22 | 5 km in 30 minutes gives a pace of 6 minutes per km |
| `CyclingWorkout.NewCycling` | src/scripts/Cycling.ts:4-15 | A new Cycling has tag "cycling", the given elevation gain, coords, distance and duration, zero clicks and the clock's id and date; its speed is finite iff the duration is nonzero, and then speed * duration == 60 * distance |
| `CyclingWorkout.CalcSpeed` | src/scripts/Cycling.ts:17-22 | `calcSpeed()` returns the value it stores in `speed` and changes nothing else; the value is finite iff the duration is nonzero and then times the duration gives 60 times the distance |
| `CyclingWorkout.CalcSpeedIdempotent` | src/scripts/Cycling.ts:17-22 | Recomputing the speed twice gives the same record and value as once |
| `CyclingWorkout.CalcSpeedOnConsistent` | src/scripts/Cycling.ts:14-22 | On a record built by the constructor, `calcSpeed()` changes nothing and returns the stored speed |
| `CyclingWorkout.SpeedTimesDuration` | src/scripts/Cycling.ts:18-19 | With a positive duration the speed is finite, equals distance / (duration / 60), and times the duration gives 60 times the distance (km/h from km and minutes) |
| `CyclingWorkout.CyclingDescriptionPrefix` | src/scripts/Cycling.ts:11 | A Cycling's description starts with "Cycling on " |
| `CyclingWorkout.TwentyKmInAnHour` | src/scripts/Cycling.ts:17-22 | 20 km in 60 minutes gives 20 km/h |
| `Storage.Flatten` | src/scripts/App.ts:255-257 | The stored entry keeps the tag, coords, distance, duration, id, description and clicks, and only the kind-specific input of the record's own kind |
| `Storage.FlattenAll` | src/scripts/App.ts:255-257 | The stored array has one entry per record, in list order |
| `Storage.Rebuild` | src/scripts/App.ts:75-98 | An entry yields a record exactly when its tag is "running" or "cycling" |
| `Storage.RebuildFromInputs` | src/scripts/App.ts:76-97 | A "running" entry becomes a Running and a "cycling" entry a Cycling, built from the entry's coords, distance, duration and cadence or elevation gain; the result is well formed, has zero clicks, and takes its id and date from the clock |
| `Storage.RebuildIgnoresStoredDerivedFields` | src/scripts/App.ts:79-95 | Entries that differ only in stored id, description, clicks, pace or speed rebuild to the same record |
| `Storage.KeptIndices` | src/scripts/App.ts:75-98 | The kept positions are strictly increasing, and a position is kept exactly when its entry's tag is recognised |
| `Storage.Restore` | src/scripts/App.ts:75-98 | Restore yields one record per recognised entry |
| `Storage.RestoreContents` | src/scripts/App.ts:75-98 | The k-th restored record is the rebuild of the k-th recognised entry, so the kept entries keep their original relative order |
| `Storage.RestoreSnoc` | src/scripts/App.ts:75-98 | One more entry appends its rebuild, or nothing when its tag is unrecognised |
| `Storage.RestoreDropsUnknownTag` | src/scripts/App.ts:75-98 | Of the entries running, "swimming" and cycling, restore keeps a Running then a Cycling, with their own coords and ids |
| `Storage.RestoreWellFormed` | src/scripts/App.ts:79-95 | Every restored record has a recomputed pace or speed, a matching tag and description, and zero clicks |
| `Storage.Load` | src/scripts/App.ts:66-99 | Loading keeps the records already held as a prefix; a missing item or a stored falsy value such as `null` adds nothing; a stored array adds its restore |
| `Storage.RestoreRoundTrip` | src/scripts/App.ts:66-98 | Restoring the stored form of well-formed records gives the same number of records, each of the same kind with the same inputs and the same metric, with zero clicks and ids from the new clock readings |
| `AppModel.Accepts` | src/scripts/App.ts:177-228 | Cycling input passes iff distance, duration and elevation are finite and distance and duration are at least 0; running input passes iff distance, duration and cadence are finite and at least 0 |
| `AppModel.NewWorkout` | src/scripts/App.ts:176-253 | Rejected input raises the alert and changes nothing. Accepted input appends exactly one well-formed record of the selected kind, built from the form's values and the map click, after the unchanged existing list, and stores the flattened list |
| `AppModel.FindFrom` | src/scripts/App.ts:350-352 | The search from a position returns the first later record with the id, or none when no such record exists |
| `AppModel.FindById` | src/scripts/App.ts:350-352 | `find` returns the first record with the id, or nothing when no record has it |
| `AppModel.MoveToPopup` | src/scripts/App.ts:342-364 | Selecting changes nothing when the click is outside an entry or no record has the id; otherwise the first record with the id gets one more click and is the only record that changes; storage is untouched |
| `AppModel.MoveToPopupClicksFirstMatch` | src/scripts/App.ts:350-363 | When position i holds the first record with the id, selecting it replaces exactly that record by its clicked version |
| `AppModel.Startup` | src/scripts/App.ts:24-63 | Start-up begins from an empty list: no stored array gives no records; a stored array gives exactly its restore, one well-formed record per recognised entry, and the stored item is left as it was |
| `AppModel.Reset` | src/scripts/App.ts:366-369 | After reset the stored item is gone and the reloaded app holds no records |
| `AppModel.NewWorkoutKeepsValid` | src/scripts/App.ts:199-240 | A submission keeps every held record well formed |
| `AppModel.ClickKeepsWellFormed` | src/scripts/Workout.ts:41-43 | A click keeps a record's tag, description and metric consistent |
| `AppModel.MoveToPopupKeepsValid` | src/scripts/App.ts:350-363 | Selecting keeps every held record well formed |
| `AppModel.ReloadAfterSubmit` | src/scripts/App.ts:240-257 | After an accepted submission, a reload restores as many records as were held, each of the same kind with the same inputs and metric and zero clicks |

## Left out

- The Leaflet map, markers, popups, tile layer and geolocation (`src/scripts/App.ts:1-12`, `102-136`, `259-277`). These are calls into a foreign library.
- HTML rendering with `toFixed` and showing, hiding or toggling the form, including the `setTimeout`. This is presentation.
- Reading and writing `localStorage`, the JSON text, and the page reload in `reset()`. These are I/O. Restore works over the parsed array. A parsed value that is truthy but not an array (a number, a string, `true` or an object) makes `forEach` throw; that case is not modelled.
- Entries whose coords, distance or duration are missing, `null` or not numbers. The stored fields are reals here, as `JSON.stringify` writes them for finite values.
- An element of the stored array that is `null`. On it `workout.type` throws a TypeError: the earlier entries stay pushed and the error escapes the `App` constructor. Entries are never `null` here, so restore is claimed to run to the end only for arrays without `null`. A number, string or boolean element has no `type`, so both tag tests fail and it is dropped, the same outcome the model gives an entry with an unrecognised tag. Such an element can come from hand-edited storage, or from the `undefined` that the unreachable form-type path would push.
- `Number(...)` string parsing, so `Number("")` being 0 is not modelled. The form fields arrive as numbers.
- IEEE rounding and negative zero. Finite numbers are exact reals, and only the non-finite outcomes of division are kept.
- The system clock and the map click. They are parameters. A date's day is any value 1..31, whatever the month.
- The null `mapEvent` before any map click, and a form type other than the two options, which is unreachable. The form type is a two-value enum.
- The `date` field in the stored entry. Restore never reads it.
- `Workouts.Capitalize`: upper-cases only the ASCII letters a-z. `toUpperCase` maps all of Unicode, but the only tags the code builds are "running" and "cycling".
- `Workouts.NewBase`: requires a non-empty type, because the source's `type[0].toUpperCase()` throws on an empty string.
- `Workouts.IdOf`: uses plain decimal. JavaScript switches to exponent notation only from 10^21, far beyond the ±8.64·10^15 ms range of a date.
