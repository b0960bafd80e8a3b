/**
 * The whole timeline: every registry entry's phases in registry order,
 * optionally preceded by one unstable interval spanning the query window.
 * A record missing `start` or `end` aborts the call with no output at all.
 */
module Timeline {
  import opened Wrappers
  import opened Names
  import opened Phases
  import PhaseLemmas

  /** One registry entry, in the registry's key iteration order. */
  datatype Entry = Entry(key: string, record: Record)

  /** The interval for the main development line, spanning the whole window. */
  function MasterInterval(queryStart: int, queryEnd: int): Interval
  {
    Interval("Master", Unstable, queryStart, queryEnd)
  }

  /** Every record of the registry has its mandatory fields. */
  predicate AllValid(registry: seq<Entry>)
  {
    forall i :: 0 <= i < |registry| ==> Valid(registry[i].record)
  }

  /** Entry `i` is the first one whose record lacks a mandatory field. */
  predicate FirstInvalid(registry: seq<Entry>, i: int)
  {
    && 0 <= i < |registry|
    && !Valid(registry[i].record)
    && forall j :: 0 <= j < i ==> Valid(registry[j].record)
  }

  /**
   * The phases of every entry, concatenated in registry order; the first
   * entry lacking a mandatory field aborts with that field's error.
   */
  function ParseRecords(registry: seq<Entry>, projectName: string, queryStart: int, queryEnd: int): Result<seq<Interval>, ParseError>
    decreases |registry|
  {
    if |registry| == 0 then Success([])
    else
      var head := RecordPhases(DisplayName(projectName, registry[0].key), registry[0].record, queryStart, queryEnd);
      var rest := ParseRecords(registry[1..], projectName, queryStart, queryEnd);
      Join(head, rest)
  }

  /** The first failure of two, or both lists of intervals one after the other. */
  function Join(x: Result<seq<Interval>, ParseError>, y: Result<seq<Interval>, ParseError>): Result<seq<Interval>, ParseError>
  {
    if x.Failure? then x
    else if y.Failure? then y
    else Success(x.value + y.value)
  }

  /** The fold succeeds exactly when every record has both `start` and `end`. */
  lemma {:induction false} ParseRecordsSucceeds(registry: seq<Entry>, projectName: string, queryStart: int, queryEnd: int)
    ensures ParseRecords(registry, projectName, queryStart, queryEnd).Success? <==> AllValid(registry)
    decreases |registry|
  {
    if |registry| > 0 {
      ParseRecordsSucceeds(registry[1..], projectName, queryStart, queryEnd);
      assert AllValid(registry) <==> Valid(registry[0].record) && AllValid(registry[1..]) by {
        assert forall i :: 0 < i < |registry| ==> registry[i] == registry[1..][i - 1];
      }
    }
  }

  /** A failure names the missing field of the first entry that lacks one. */
  lemma {:induction false} ParseRecordsError(registry: seq<Entry>, projectName: string, queryStart: int, queryEnd: int)
    ensures var r := ParseRecords(registry, projectName, queryStart, queryEnd);
      r.Failure? ==> exists i :: FirstInvalid(registry, i) && r.error == MissingField(registry[i].record)
    decreases |registry|
  {
    ParseRecordsSucceeds(registry, projectName, queryStart, queryEnd);
    if ParseRecords(registry, projectName, queryStart, queryEnd).Success? {
    } else if Valid(registry[0].record) {
      ParseRecordsError(registry[1..], projectName, queryStart, queryEnd);
      var i :| FirstInvalid(registry[1..], i) &&
        ParseRecords(registry[1..], projectName, queryStart, queryEnd).error == MissingField(registry[1..][i].record);
      assert FirstInvalid(registry, i + 1);
    } else {
      assert FirstInvalid(registry, 0);
    }
  }

  /** Each entry contributes at most three intervals, none of them unstable. */
  lemma {:induction false} ParseRecordsShape(registry: seq<Entry>, projectName: string, queryStart: int, queryEnd: int)
    requires ParseRecords(registry, projectName, queryStart, queryEnd).Success?
    ensures var out := ParseRecords(registry, projectName, queryStart, queryEnd).value;
      |out| <= 3 * |registry| && forall iv :: iv in out ==> iv.kind != Unstable
    decreases |registry|
  {
    if |registry| > 0 {
      var name := DisplayName(projectName, registry[0].key);
      PhaseLemmas.RecordOutputShape(name, registry[0].record, queryStart, queryEnd);
      ParseRecordsShape(registry[1..], projectName, queryStart, queryEnd);
    }
  }

  /** Entry `i` is valid and `iv` is one of its phases that overlaps the window. */
  predicate PhaseOfEntry(registry: seq<Entry>, i: int, iv: Interval, projectName: string, queryStart: int, queryEnd: int)
  {
    && 0 <= i < |registry|
    && Valid(registry[i].record)
    && iv in Candidates(DisplayName(projectName, registry[i].key), registry[i].record)
    && Overlaps(iv, queryStart, queryEnd)
  }

  /**
   * The output holds exactly the phases of the registry's entries that
   * overlap the window, each labelled with its entry's display name: none
   * is lost and none is invented.
   */
  lemma {:induction false} ParseRecordsMembers(registry: seq<Entry>, projectName: string, queryStart: int, queryEnd: int)
    requires ParseRecords(registry, projectName, queryStart, queryEnd).Success?
    ensures forall iv :: iv in ParseRecords(registry, projectName, queryStart, queryEnd).value <==>
      exists i :: PhaseOfEntry(registry, i, iv, projectName, queryStart, queryEnd)
    decreases |registry|
  {
    if |registry| > 0 {
      var name := DisplayName(projectName, registry[0].key);
      Phases.WalkIsFilter(name, registry[0].record, queryStart, queryEnd);
      ParseRecordsMembers(registry[1..], projectName, queryStart, queryEnd);
      var head := ExtractPhases(name, registry[0].record, queryStart, queryEnd);
      var tail := ParseRecords(registry[1..], projectName, queryStart, queryEnd).value;
      assert ParseRecords(registry, projectName, queryStart, queryEnd).value == head + tail;
      forall iv: Interval
        ensures iv in head + tail <==> exists i :: PhaseOfEntry(registry, i, iv, projectName, queryStart, queryEnd)
      {
        if iv in head + tail {
          if iv in head {
            assert PhaseOfEntry(registry, 0, iv, projectName, queryStart, queryEnd);
          } else {
            var i :| PhaseOfEntry(registry[1..], i, iv, projectName, queryStart, queryEnd);
            assert registry[1..][i] == registry[i + 1];
            assert PhaseOfEntry(registry, i + 1, iv, projectName, queryStart, queryEnd);
          }
        }
        if i :| PhaseOfEntry(registry, i, iv, projectName, queryStart, queryEnd) {
          if i == 0 {
            assert iv in head;
          } else {
            assert registry[1..][i - 1] == registry[i];
            assert PhaseOfEntry(registry[1..], i - 1, iv, projectName, queryStart, queryEnd);
          }
        }
      }
    }
  }

  /**
   * The model of `parseInput`: the entries' phases in registry order, with
   * the unstable `Master` interval in front unless `excludeMaster` is set.
   */
  function ParseInput(registry: seq<Entry>, queryStart: int, queryEnd: int, excludeMaster: bool, projectName: string): (r: Result<seq<Interval>, ParseError>)
    ensures r.Success? <==> AllValid(registry)
    ensures r.Failure? ==> exists i :: FirstInvalid(registry, i) && r.error == MissingField(registry[i].record)
    ensures r.Success? ==> |r.value| <= 3 * |registry| + (if excludeMaster then 0 else 1)
    ensures r.Success? && !excludeMaster ==> |r.value| >= 1 && r.value[0] == MasterInterval(queryStart, queryEnd)
    ensures r.Success? ==> forall i :: 0 <= i < |r.value| && r.value[i].kind == Unstable ==> i == 0 && !excludeMaster
  {
    ParseRecordsSucceeds(registry, projectName, queryStart, queryEnd);
    ParseRecordsError(registry, projectName, queryStart, queryEnd);
    var body :- ParseRecords(registry, projectName, queryStart, queryEnd);
    ParseRecordsShape(registry, projectName, queryStart, queryEnd);
    if excludeMaster then Success(body) else Success([MasterInterval(queryStart, queryEnd)] + body)
  }

  /**
   * Entries are processed in registry order: parsing a registry split in two
   * fails with the first half's error, else with the second half's, and
   * otherwise yields the first half's intervals followed by the second's.
   */
  lemma {:induction false} ParseRecordsAppend(a: seq<Entry>, b: seq<Entry>, projectName: string, queryStart: int, queryEnd: int)
    ensures ParseRecords(a + b, projectName, queryStart, queryEnd) ==
      Join(ParseRecords(a, projectName, queryStart, queryEnd), ParseRecords(b, projectName, queryStart, queryEnd))
    decreases |a|
  {
    if |a| == 0 {
      assert a + b == b;
      var y := ParseRecords(b, projectName, queryStart, queryEnd);
      if y.Success? {
        assert [] + y.value == y.value;
      }
    } else {
      assert (a + b)[0] == a[0];
      assert (a + b)[1..] == a[1..] + b;
      ParseRecordsAppend(a[1..], b, projectName, queryStart, queryEnd);
      var head := RecordPhases(DisplayName(projectName, a[0].key), a[0].record, queryStart, queryEnd);
      JoinAssociative(head, ParseRecords(a[1..], projectName, queryStart, queryEnd), ParseRecords(b, projectName, queryStart, queryEnd));
    }
  }

  lemma JoinAssociative(x: Result<seq<Interval>, ParseError>, y: Result<seq<Interval>, ParseError>, z: Result<seq<Interval>, ParseError>)
    ensures Join(x, Join(y, z)) == Join(Join(x, y), z)
  {
    if x.Success? && y.Success? && z.Success? {
      assert x.value + (y.value + z.value) == (x.value + y.value) + z.value;
    }
  }

  /** Once a valid prefix is followed by an invalid entry, the whole registry fails with that entry's error. */
  lemma FailsAtEntry(data: seq<Entry>, k: nat, projectName: string, queryStart: int, queryEnd: int)
    requires k < |data|
    requires ParseRecords(data[..k], projectName, queryStart, queryEnd).Success?
    requires !Valid(data[k].record)
    ensures ParseRecords(data, projectName, queryStart, queryEnd) == Failure(MissingField(data[k].record))
  {
    var rest := data[k..];
    assert data == data[..k] + rest;
    ParseRecordsAppend(data[..k], rest, projectName, queryStart, queryEnd);
    HeadFails(rest, projectName, queryStart, queryEnd);
  }

  /** A registry whose first entry lacks a mandatory field fails with that entry's error. */
  lemma HeadFails(registry: seq<Entry>, projectName: string, queryStart: int, queryEnd: int)
    requires |registry| > 0 && !Valid(registry[0].record)
    ensures ParseRecords(registry, projectName, queryStart, queryEnd) == Failure(MissingField(registry[0].record))
  {
  }

  /** Extending the processed prefix by one entry joins in that entry's contribution. */
  lemma ExtendsByEntry(data: seq<Entry>, k: nat, projectName: string, queryStart: int, queryEnd: int)
    requires k < |data|
    ensures ParseRecords(data[..k + 1], projectName, queryStart, queryEnd) ==
      Join(ParseRecords(data[..k], projectName, queryStart, queryEnd),
           RecordPhases(DisplayName(projectName, data[k].key), data[k].record, queryStart, queryEnd))
  {
    assert data[..k + 1] == data[..k] + [data[k]];
    ParseRecordsAppend(data[..k], [data[k]], projectName, queryStart, queryEnd);
    ParseSingle(data[k], projectName, queryStart, queryEnd);
  }

  /** A one-entry registry yields exactly that entry's contribution. */
  lemma ParseSingle(e: Entry, projectName: string, queryStart: int, queryEnd: int)
    ensures ParseRecords([e], projectName, queryStart, queryEnd) ==
      RecordPhases(DisplayName(projectName, e.key), e.record, queryStart, queryEnd)
  {
    assert [e][1..] == [];
    var head := RecordPhases(DisplayName(projectName, e.key), e.record, queryStart, queryEnd);
    if head.Success? {
      assert head.value + [] == head.value;
    }
  }

  /**
   * `parseInput` as the source runs it: one pass over the registry pushing
   * each record's intervals, an early exit on a missing field (start checked
   * first), and the `Master` interval put in front last.
   */
  method ParseInputLoop(data: seq<Entry>, queryStart: int, queryEnd: int, excludeMaster: bool, projectName: string)
    returns (r: Result<seq<Interval>, ParseError>)
    ensures r == ParseInput(data, queryStart, queryEnd, excludeMaster, projectName)
  {
    var output: seq<Interval> := [];
    var k := 0;
    while k < |data|
      invariant 0 <= k <= |data|
      invariant ParseRecords(data[..k], projectName, queryStart, queryEnd) == Success(output)
    {
      var version := data[k].record;
      var name := DisplayName(projectName, data[k].key);
      if version.start.None? {
        FailsAtEntry(data, k, projectName, queryStart, queryEnd);
        return Failure(MissingStart);
      }
      if version.end.None? {
        FailsAtEntry(data, k, projectName, queryStart, queryEnd);
        return Failure(MissingEnd);
      }
      ExtendsByEntry(data, k, projectName, queryStart, queryEnd);
      output := output + ExtractPhases(name, version, queryStart, queryEnd);
      k := k + 1;
    }
    assert data[..k] == data;
    if !excludeMaster {
      output := [MasterInterval(queryStart, queryEnd)] + output;
    }
    return Success(output);
  }
}
