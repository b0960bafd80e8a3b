# lts-schedule: release phases as a verified Dafny model

`lts-schedule` draws the release schedule of a project such as Node.js. Its
data core is `parseInput` in `lib/index.js`. The function takes a registry of
release lines, keyed by a version key such as `v18`. Each line records the
milestone dates `start`, `lts`, `maintenance` and `end`. The function also
takes a query window `[queryStart, queryEnd)`. It returns a flat, ordered
list of phase intervals `{name, type, start, end}`:

- For each record, a cursor starts at `end` and walks back through
  `maintenance`, `lts` and `start`.
- At each present milestone, the function emits the phase that runs from the
  milestone to the cursor, if the milestone is before the window's end and
  the cursor is after the window's start. Then the cursor moves to that
  milestone.
- Emitted intervals keep their own bounds; nothing is clipped to the window.
- A record without `start` or `end` makes the whole call throw.
- Unless `excludeMaster` is set, an `unstable` interval named `Master`,
  spanning the whole window, is put at the front.

The model is split into these modules:

- `Wrappers` (`wrappers.dfy`): `Option` and `Result`.
- `Names` (`names.dfy`): the display name, `projectName + " " + key` with the
  first `v` of the key removed.
- `Phases` (`phases.dfy`): the records and intervals, plus two views of one
  record's output. `Candidates` is the chain of a record's phases from
  `start` to `end`, and `Filter` keeps the ones that overlap the window.
  `ExtractPhases` is the source's cursor walk, one `Step` per milestone.
  `WalkIsFilter` proves the two views agree.
- `PhaseLemmas` (`phase_lemmas.dfy`): what one record contributes. This
  covers when each phase appears, its exact bounds, how phases chain, their
  order, and their count.
- `Timeline` (`timeline.dfy`): the fold over the registry (`ParseRecords`),
  the model of `parseInput` (`ParseInput`), and `ParseInputLoop`. That
  method mirrors the source's single pass with its early throw, and it is
  proved equal to `ParseInput`.
- `Scenarios` (`scenarios.dfy`): worked registries, with dates written as
  YYYYMMDD integers.

Dates are only compared, never computed with, so they are modelled as
integer timestamps. The registry is a sequence of `(key, record)` entries in
the order `Object.keys` lists them. A milestone is `None` when the field is
absent or holds a falsy value, because the source tests each field for
truthiness before using it.

## Model

| member | source | states |
|---|---|---|
| `Names.DisplayName` | lib/index.js:47 | The label `projectName + " " + key` with the key's first `v` removed; its contract is carried by `RemoveFirst`, `RemoveFirstSplit` and `DisplayNameOfVersionKey`. |
| `Names.RemoveFirst` | lib/index.js:47 | The key is unchanged when it holds no `v`. Otherwise it loses exactly one character. |
| `Names.RemoveFirstMultiset` | lib/index.js:47 | The only character removed is one `v`, and only when the key has one. |
| `Names.RemoveFirstSplit` | lib/index.js:47 | Only the first `v` is removed. The text before it and everything after it are kept, later `v`s included. |
| `Names.DisplayNameOfVersionKey` | lib/index.js:47 | A key `v<digits>` is labelled `<projectName> <digits>`. |
| `Phases.Filter` | lib/index.js:61-79 | Keeps exactly the intervals that overlap the window, and nothing else. |
| `Phases.CandidatesChained` | lib/index.js:61-79 | A record's phases form a chain with one more phase than it has optional milestones. Each phase ends where the one before it in the list starts. The first ends at `end`, and the last is `current` from `start`. The order is maintenance, active, current. |
| `Phases.ExtractPhases` | lib/index.js:61-79 | The backward cursor walk over one valid record; what it emits is stated by `WalkIsFilter` and the `*Emitted` lemmas of `PhaseLemmas`. |
| `Phases.WalkIsFilter` | lib/index.js:61-79 | The cursor walk emits exactly the record's phases that overlap the window, in order. The milestone/cursor test is the overlap test on the phase's own, unclipped bounds. |
| `Phases.RecordPhases` | lib/index.js:48-59 | A record fails exactly when `start` or `end` is missing. A missing `start` is reported before a missing `end`. |
| `PhaseLemmas.MaintenanceEmitted` | lib/index.js:61-67 | A maintenance interval appears iff `maintenance` is present, `maintenance < queryEnd` and `end > queryStart`. It runs from `maintenance` to `end`. |
| `PhaseLemmas.ActiveEmitted` | lib/index.js:69-75 | An active interval appears iff `lts` is present, `lts < queryEnd`, and its end is after `queryStart`. That end is `maintenance` if present, else `end`. |
| `PhaseLemmas.CurrentEmitted` | lib/index.js:77-79 | The current interval runs from `start` to `lts`, else `maintenance`, else `end`. It appears iff `start < queryEnd` and that end is after `queryStart`. |
| `PhaseLemmas.RecordOutputShape` | lib/index.js:61-79 | A record contributes at most three intervals, all with its name and none unstable. They come in the order maintenance, active, current. |
| `PhaseLemmas.EmittedPhasesChain` | lib/index.js:61-79 | Emitted phases meet exactly: `current.end == active.start` and `active.end == maintenance.start`. With no `lts`, `current.end == maintenance.start`. |
| `PhaseLemmas.WellOrderedGivesProperIntervals` | lib/index.js:61-79 | If the milestones are monotonic, every emitted interval has `start <= end`. |
| `PhaseLemmas.ZeroLengthPhaseKept` | lib/index.js:77-79 | A zero-length current phase inside the window is still emitted, because the test never looks at length. |
| `PhaseLemmas.WindowEndsExclusive` | lib/index.js:77 | A current phase that starts exactly at `queryEnd` is not emitted. Neither is one that ends exactly at `queryStart`. |
| `Timeline.ParseRecords` | lib/index.js:45-80 | The fold over the registry in iteration order; its contract is carried by `ParseRecordsSucceeds`, `ParseRecordsError`, `ParseRecordsMembers` and `ParseRecordsAppend`. |
| `Timeline.ParseRecordsSucceeds` | lib/index.js:45-59 | The pass over the registry succeeds iff every record has `start` and `end`. |
| `Timeline.ParseRecordsError` | lib/index.js:53-59 | A failure reports the missing field of the first entry, in registry order, that lacks one. |
| `Timeline.ParseRecordsShape` | lib/index.js:45-80 | At most three intervals per entry, and none of them unstable. |
| `Timeline.ParseRecordsMembers` | lib/index.js:45-80 | The output holds exactly the phases of the entries that overlap the window, each with its entry's display name. None is lost and none is invented. |
| `Timeline.ParseRecordsAppend` | lib/index.js:45 | Entries are processed in registry order. Splitting the registry gives the first half's error, else the second half's. Otherwise it gives the first half's intervals followed by the second half's. |
| `Timeline.ParseInput` | lib/index.js:42-92 | The call succeeds iff every record is valid, else fails with the first missing field. The output has at most `3·n + 1` intervals (`3·n` when excluded). Unless excluded, `Master` spanning the window comes first. No other interval is unstable. |
| `Timeline.ParseInputLoop` | lib/index.js:42-92 | The single pass with a mutable output, early throw and final `unshift` computes exactly `ParseInput`. |
| `Scenarios.Node18Timeline` | lib/index.js:42-92 | `v18` over 2022-01-01..2026-01-01 yields `Master`, then maintenance, active and current for "Node.js 18", with their own dates. |
| `Scenarios.Node18EarlyWindow` | lib/index.js:61-79 | A window ending 2023-01-01 drops maintenance. It keeps the active phase that straddles the window's end, unclipped. |
| `Scenarios.MissingEndAbortsAll` | lib/index.js:57-59 | A later entry without `end` makes the whole call fail. The valid entry before it contributes nothing. |

## Left out

- `create` in `lib/index.js` (lines 95-222): D3/SVG layout, axes, opacity adjustments and animation. This is rendering over floating-point scales.
- File output (`Fs.writeFileSync`, the lazily loaded `svg2png`): I/O and a foreign library.
- The CSS `styles` string: presentation only.
- `bin/lts.js`: argument parsing, loading the JSON registry, parsing date strings with `new Date(...)`, and the two `create` calls. Dates reach the model already parsed, as integers. The command line sets `excludeMain` while `create` reads `excludeMaster`. That wiring sits outside `parseInput`, which just takes the boolean.
- Date strings that parse to an invalid date (`NaN`) make every comparison false in the source. The model has no such value.
- The order of `Object.keys` (integer-like keys first, then insertion order) is not modelled. The registry is given as a sequence already in iteration order.
- The text of the thrown error messages. They interpolate the record object, not its key, so the model's error records only which field was missing.
