/**
 * Properties of the intervals a single release record contributes.
 */
module PhaseLemmas {
  import opened Wrappers
  import opened Phases

  /** Some interval of `s` has kind `k`. */
  predicate HasKind(s: seq<Interval>, k: PhaseKind)
  {
    exists iv :: iv in s && iv.kind == k
  }

  /**
   * The maintenance phase is emitted exactly when the record has a
   * `maintenance` milestone before the window's end and an `end` after the
   * window's start; it runs from that milestone to `end`, unclipped.
   */
  lemma MaintenanceEmitted(name: string, rec: Record, queryStart: int, queryEnd: int)
    requires Valid(rec)
    ensures var out := ExtractPhases(name, rec, queryStart, queryEnd);
      HasKind(out, Maintenance) <==>
        rec.maintenance.Some? && rec.maintenance.value < queryEnd && rec.end.value > queryStart
    ensures forall iv :: iv in ExtractPhases(name, rec, queryStart, queryEnd) && iv.kind == Maintenance ==>
      iv == Interval(name, Maintenance, iv.start, rec.end.value) && rec.maintenance == Some(iv.start)
  {
  }

  /**
   * The active phase is emitted exactly when the record has an `lts`
   * milestone before the window's end and the phase's end — `maintenance`
   * if present, else `end` — after the window's start.
   */
  lemma ActiveEmitted(name: string, rec: Record, queryStart: int, queryEnd: int)
    requires Valid(rec)
    ensures var out := ExtractPhases(name, rec, queryStart, queryEnd);
      HasKind(out, Active) <==>
        rec.lts.Some? && rec.lts.value < queryEnd && rec.maintenance.GetOr(rec.end.value) > queryStart
    ensures forall iv :: iv in ExtractPhases(name, rec, queryStart, queryEnd) && iv.kind == Active ==>
      iv == Interval(name, Active, iv.start, rec.maintenance.GetOr(rec.end.value)) && rec.lts == Some(iv.start)
  {
  }

  /**
   * The current phase always starts at `start` and ends at the next present
   * milestone (`lts`, else `maintenance`, else `end`); it is emitted exactly
   * when it overlaps the window.
   */
  lemma CurrentEmitted(name: string, rec: Record, queryStart: int, queryEnd: int)
    requires Valid(rec)
    ensures var out := ExtractPhases(name, rec, queryStart, queryEnd);
      HasKind(out, Current) <==>
        rec.start.value < queryEnd && rec.lts.GetOr(rec.maintenance.GetOr(rec.end.value)) > queryStart
    ensures forall iv :: iv in ExtractPhases(name, rec, queryStart, queryEnd) && iv.kind == Current ==>
      iv == Interval(name, Current, rec.start.value, rec.lts.GetOr(rec.maintenance.GetOr(rec.end.value)))
  {
  }

  /** Filtering keeps the relative order of what it keeps. */
  lemma {:induction false} FilterKeepsRankOrder(s: seq<Interval>, queryStart: int, queryEnd: int)
    requires RankOrdered(s)
    ensures RankOrdered(Filter(s, queryStart, queryEnd))
  {
    if |s| > 0 {
      assert RankOrdered(s[1..]);
      FilterKeepsRankOrder(s[1..], queryStart, queryEnd);
      var rest := Filter(s[1..], queryStart, queryEnd);
      assert forall i :: 0 <= i < |rest| ==> Rank(s[0].kind) < Rank(rest[i].kind);
    }
  }

  /**
   * A record contributes at most three intervals, all labelled with its
   * name, none unstable, in the order maintenance, active, current.
   */
  lemma RecordOutputShape(name: string, rec: Record, queryStart: int, queryEnd: int)
    requires Valid(rec)
    ensures var out := ExtractPhases(name, rec, queryStart, queryEnd);
      && |out| <= 3
      && RankOrdered(out)
      && forall iv :: iv in out ==> iv.name == name && iv.kind != Unstable
  {
    WalkIsFilter(name, rec, queryStart, queryEnd);
    CandidatesChained(name, rec);
    FilterKeepsRankOrder(Candidates(name, rec), queryStart, queryEnd);
  }

  /**
   * Emitted phases of one record meet exactly: current ends where active
   * starts, active ends where maintenance starts, and without an active
   * phase current ends where maintenance starts.
   */
  lemma EmittedPhasesChain(name: string, rec: Record, queryStart: int, queryEnd: int)
    requires Valid(rec)
    ensures var out := ExtractPhases(name, rec, queryStart, queryEnd);
      forall a, b :: a in out && b in out ==>
        && (a.kind == Current && b.kind == Active ==> a.end == b.start)
        && (a.kind == Active && b.kind == Maintenance ==> a.end == b.start)
        && (a.kind == Current && b.kind == Maintenance && rec.lts.None? ==> a.end == b.start)
  {
  }

  /** For a record with monotonic milestones, no emitted interval ends before it starts. */
  lemma WellOrderedGivesProperIntervals(name: string, rec: Record, queryStart: int, queryEnd: int)
    requires Valid(rec) && WellOrdered(rec)
    ensures forall iv :: iv in ExtractPhases(name, rec, queryStart, queryEnd) ==> iv.start <= iv.end
  {
  }

  /**
   * The window test never looks at length: a record whose `start` equals its
   * `end`, strictly inside the window, still yields a zero-length current phase.
   */
  lemma ZeroLengthPhaseKept(name: string, t: int, queryStart: int, queryEnd: int)
    requires queryStart < t < queryEnd
    ensures ExtractPhases(name, Record(Some(t), None, None, Some(t)), queryStart, queryEnd)
      == [Interval(name, Current, t, t)]
  {
  }

  /**
   * Both ends of the window are exclusive: a phase starting exactly at the
   * window's end, or ending exactly at its start, is dropped.
   */
  lemma WindowEndsExclusive(name: string, rec: Record, queryStart: int, queryEnd: int)
    requires Valid(rec)
    requires rec.start.value == queryEnd || rec.lts.GetOr(rec.maintenance.GetOr(rec.end.value)) == queryStart
    ensures !HasKind(ExtractPhases(name, rec, queryStart, queryEnd), Current)
  {
  }
}
