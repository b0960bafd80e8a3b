/**
 * One release line's lifecycle phases.  A release record carries up to four
 * milestone dates; the walk goes backwards from `end`, emitting the
 * maintenance, active and current phases that touch the query window, each
 * with its own unclipped bounds.
 *
 * Dates are only ever compared, so they are modelled as integer timestamps.
 */
module Phases {
  import opened Wrappers

  /** The `type` tag of an output interval. */
  datatype PhaseKind = Unstable | Current | Active | Maintenance

  /** One output element: `{name, type, start, end}`. */
  datatype Interval = Interval(name: string, kind: PhaseKind, start: int, end: int)

  /**
   * A registry record as the walk sees it.  `None` stands for a field that is
   * absent or holds a falsy value: such a field is treated as missing.
   */
  datatype Record = Record(start: Option<int>, lts: Option<int>, maintenance: Option<int>, end: Option<int>)

  /** The failure raised for a record: which mandatory field was missing. */
  datatype ParseError = MissingStart | MissingEnd

  /** A record whose mandatory fields are both present. */
  predicate Valid(rec: Record)
  {
    rec.start.Some? && rec.end.Some?
  }

  /** The error a record raises: `start` is checked before `end`. */
  function MissingField(rec: Record): ParseError
    requires !Valid(rec)
  {
    if rec.start.None? then MissingStart else MissingEnd
  }

  /** The milestones are monotonic wherever they are present. */
  predicate WellOrdered(rec: Record)
    requires Valid(rec)
  {
    var bound := rec.maintenance.GetOr(rec.end.value);
    var upper := rec.lts.GetOr(bound);
    && rec.start.value <= upper
    && upper <= bound
    && bound <= rec.end.value
  }

  /** Rank of a phase in emission order within one record. */
  function Rank(k: PhaseKind): nat
  {
    match k
    case Maintenance => 0
    case Active => 1
    case Current => 2
    case Unstable => 3
  }

  // ---------------------------------------------------------------------
  // Reference definition: the phases of a record, then the window filter.
  // ---------------------------------------------------------------------

  /** The window test on an interval's own bounds: it overlaps `[queryStart, queryEnd)`. */
  predicate Overlaps(iv: Interval, queryStart: int, queryEnd: int)
  {
    iv.start < queryEnd && iv.end > queryStart
  }

  /** The intervals of `s` that overlap the window, in their original order. */
  function Filter(s: seq<Interval>, queryStart: int, queryEnd: int): (r: seq<Interval>)
    ensures |r| <= |s|
    ensures forall i :: 0 <= i < |r| ==> r[i] in s && Overlaps(r[i], queryStart, queryEnd)
    ensures forall iv :: iv in s && Overlaps(iv, queryStart, queryEnd) ==> iv in r
  {
    if |s| == 0 then []
    else
      var rest := Filter(s[1..], queryStart, queryEnd);
      assert forall iv :: iv in s ==> iv == s[0] || iv in s[1..];
      if Overlaps(s[0], queryStart, queryEnd) then [s[0]] + rest else rest
  }

  /** Consecutive phases chain: each one ends where the previous one in the list starts. */
  predicate Chained(s: seq<Interval>)
  {
    forall i :: 0 < i < |s| ==> s[i].end == s[i - 1].start
  }

  /** Kinds appear in strictly increasing rank, so no kind occurs twice. */
  predicate RankOrdered(s: seq<Interval>)
  {
    forall i, j :: 0 <= i < j < |s| ==> Rank(s[i].kind) < Rank(s[j].kind)
  }

  /** Number of optional milestones a record has. */
  function OptionalCount(rec: Record): nat
  {
    (if rec.maintenance.Some? then 1 else 0) + (if rec.lts.Some? then 1 else 0)
  }

  /**
   * Every phase of a valid record, before any filtering: maintenance from its
   * milestone to `end`, active from `lts` up to the next present milestone,
   * current from `start` up to the next present milestone.
   */
  function Candidates(name: string, rec: Record): seq<Interval>
    requires Valid(rec)
  {
    var activeEnd := rec.maintenance.GetOr(rec.end.value);
    var currentEnd := rec.lts.GetOr(activeEnd);
    Phase(name, Maintenance, rec.maintenance, rec.end.value)
      + Phase(name, Active, rec.lts, activeEnd)
      + Phase(name, Current, rec.start, currentEnd)
  }

  /**
   * A record's phases chain from `start` to `end`: one more phase than it has
   * optional milestones, each ending where the previous one in the list
   * starts, the first ending at `end`, the last being current from `start`.
   */
  lemma CandidatesChained(name: string, rec: Record)
    requires Valid(rec)
    ensures var r := Candidates(name, rec);
      && |r| == 1 + OptionalCount(rec)
      && Chained(r) && RankOrdered(r)
      && r[0].end == rec.end.value
      && r[|r| - 1] == Interval(name, Current, rec.start.value, r[|r| - 1].end)
      && forall i :: 0 <= i < |r| ==> r[i].name == name && r[i].kind != Unstable
  {
  }

  /** The phase `[milestone, end]` of the given kind, or nothing when the milestone is absent. */
  function Phase(name: string, kind: PhaseKind, milestone: Option<int>, end: int): seq<Interval>
  {
    match milestone
    case None => []
    case Some(m) => [Interval(name, kind, m, end)]
  }

  // ---------------------------------------------------------------------
  // The walk as the source performs it: a cursor narrowed step by step.
  // ---------------------------------------------------------------------

  /** The state of the backward walk: intervals emitted so far and the cursor. */
  datatype Walk = Walk(output: seq<Interval>, cursor: int)

  /**
   * One step of the walk for an optional milestone: when present, emit
   * `[milestone, cursor]` if `milestone < queryEnd && cursor > queryStart`,
   * then narrow the cursor to the milestone; when absent, change nothing.
   */
  function Step(w: Walk, name: string, kind: PhaseKind, milestone: Option<int>, queryStart: int, queryEnd: int): Walk
  {
    match milestone
    case None => w
    case Some(m) =>
      var emitted := if m < queryEnd && w.cursor > queryStart then w.output + [Interval(name, kind, m, w.cursor)] else w.output;
      Walk(emitted, m)
  }

  /**
   * The intervals one valid record contributes: the cursor starts at `end`
   * and the walk visits `maintenance`, `lts` and finally `start`.
   */
  function ExtractPhases(name: string, rec: Record, queryStart: int, queryEnd: int): seq<Interval>
    requires Valid(rec)
  {
    var w0 := Walk([], rec.end.value);
    var w1 := Step(w0, name, Maintenance, rec.maintenance, queryStart, queryEnd);
    var w2 := Step(w1, name, Active, rec.lts, queryStart, queryEnd);
    var w3 := Step(w2, name, Current, rec.start, queryStart, queryEnd);
    w3.output
  }

  /**
   * The cursor walk emits exactly the record's phases that overlap the
   * window, in order: the test on milestone and cursor is the overlap test
   * on the phase's own bounds.
   */
  lemma WalkIsFilter(name: string, rec: Record, queryStart: int, queryEnd: int)
    requires Valid(rec)
    ensures ExtractPhases(name, rec, queryStart, queryEnd) == Filter(Candidates(name, rec), queryStart, queryEnd)
  {
    var w0 := Walk([], rec.end.value);
    var w1 := Step(w0, name, Maintenance, rec.maintenance, queryStart, queryEnd);
    var w2 := Step(w1, name, Active, rec.lts, queryStart, queryEnd);
    StepFilters(w0, name, Maintenance, rec.maintenance, queryStart, queryEnd);
    StepFilters(w1, name, Active, rec.lts, queryStart, queryEnd);
    StepFilters(w2, name, Current, rec.start, queryStart, queryEnd);
    FilterAppend(Phase(name, Maintenance, rec.maintenance, w0.cursor), Phase(name, Active, rec.lts, w1.cursor), queryStart, queryEnd);
    FilterAppend(Phase(name, Maintenance, rec.maintenance, w0.cursor) + Phase(name, Active, rec.lts, w1.cursor),
      Phase(name, Current, rec.start, w2.cursor), queryStart, queryEnd);
  }

  /** Filtering a list is filtering its two halves and joining the results. */
  lemma {:induction false} FilterAppend(a: seq<Interval>, b: seq<Interval>, queryStart: int, queryEnd: int)
    ensures Filter(a + b, queryStart, queryEnd) == Filter(a, queryStart, queryEnd) + Filter(b, queryStart, queryEnd)
  {
    if |a| == 0 {
      assert a + b == b;
    } else {
      assert (a + b)[1..] == a[1..] + b;
      FilterAppend(a[1..], b, queryStart, queryEnd);
    }
  }

  /**
   * One step of the walk emits the filtered phase that runs from its
   * milestone up to the cursor, and moves the cursor to the milestone.
   */
  lemma StepFilters(w: Walk, name: string, kind: PhaseKind, milestone: Option<int>, queryStart: int, queryEnd: int)
    ensures Step(w, name, kind, milestone, queryStart, queryEnd)
      == Walk(w.output + Filter(Phase(name, kind, milestone, w.cursor), queryStart, queryEnd), milestone.GetOr(w.cursor))
  {
    if milestone.Some? {
      var single := Phase(name, kind, milestone, w.cursor);
      assert single[1..] == [];
    } else {
      assert w.output + [] == w.output;
    }
  }

  /** A record's contribution, or the error its missing field raises. */
  function RecordPhases(name: string, rec: Record, queryStart: int, queryEnd: int): (r: Result<seq<Interval>, ParseError>)
    ensures r.Failure? <==> !Valid(rec)
    ensures r.Failure? ==> r.error == MissingField(rec)
  {
    if rec.start.None? then Failure(MissingStart)
    else if rec.end.None? then Failure(MissingEnd)
    else Success(ExtractPhases(name, rec, queryStart, queryEnd))
  }
}
