/**
 * Worked registries, with dates written as YYYYMMDD integers (an
 * order-preserving encoding, which is all the model needs).
 */
module Scenarios {
  import opened Wrappers
  import opened Names
  import opened Phases
  import opened Timeline

  /** The release line `v18` with every milestone present. */
  function Node18(): Entry
  {
    Entry("v18", Record(Some(20220419), Some(20221018), Some(20231018), Some(20250430)))
  }

  /**
   * Over the window 2022-01-01 to 2026-01-01 the `v18` line yields its
   * maintenance, active and current phases, unclipped and chained, after the
   * unstable `Master` interval spanning the window.
   */
  lemma Node18Timeline()
    ensures ParseInput([Node18()], 20220101, 20260101, false, "Node.js") == Success([
      Interval("Master", Unstable, 20220101, 20260101),
      Interval("Node.js 18", Maintenance, 20231018, 20250430),
      Interval("Node.js 18", Active, 20221018, 20231018),
      Interval("Node.js 18", Current, 20220419, 20221018)])
  {
    var phases := [
      Interval("Node.js 18", Maintenance, 20231018, 20250430),
      Interval("Node.js 18", Active, 20221018, 20231018),
      Interval("Node.js 18", Current, 20220419, 20221018)];
    Node18Name();
    assert ExtractPhases("Node.js 18", Node18().record, 20220101, 20260101) == phases;
    ParseSingle(Node18(), "Node.js", 20220101, 20260101);
    assert ParseRecords([Node18()], "Node.js", 20220101, 20260101) == Success(phases);
    assert [MasterInterval(20220101, 20260101)] + phases == [
      Interval("Master", Unstable, 20220101, 20260101),
      Interval("Node.js 18", Maintenance, 20231018, 20250430),
      Interval("Node.js 18", Active, 20221018, 20231018),
      Interval("Node.js 18", Current, 20220419, 20221018)];
  }

  /** The `v18` line is labelled "Node.js 18". */
  lemma Node18Name()
    ensures DisplayName("Node.js", Node18().key) == "Node.js 18"
  {
    DisplayNameOfVersionKey("Node.js", "18");
    assert "v" + "18" == "v18";
  }

  /**
   * A window ending on 2023-01-01 drops the maintenance phase, whose
   * milestone lies after it, while the active phase that straddles the
   * window's end is kept whole.
   */
  lemma Node18EarlyWindow()
    ensures ParseInput([Node18()], 20220601, 20230101, true, "Node.js") == Success([
      Interval("Node.js 18", Active, 20221018, 20231018),
      Interval("Node.js 18", Current, 20220419, 20221018)])
  {
    var phases := [
      Interval("Node.js 18", Active, 20221018, 20231018),
      Interval("Node.js 18", Current, 20220419, 20221018)];
    Node18Name();
    assert ExtractPhases("Node.js 18", Node18().record, 20220601, 20230101) == phases;
    ParseSingle(Node18(), "Node.js", 20220601, 20230101);
    assert ParseRecords([Node18()], "Node.js", 20220601, 20230101) == Success(phases);
  }

  /**
   * A later entry without `end` makes the whole call fail: nothing is
   * returned, not even the intervals of the valid entry processed before it.
   */
  lemma MissingEndAbortsAll()
    ensures ParseInput([Node18(), Entry("v20", Record(Some(20230418), None, None, None))],
      20220101, 20260101, false, "Node.js") == Failure(MissingEnd)
  {
    var bad := Entry("v20", Record(Some(20230418), None, None, None));
    assert [Node18(), bad] == [Node18()] + [bad];
    ParseRecordsAppend([Node18()], [bad], "Node.js", 20220101, 20260101);
    ParseSingle(Node18(), "Node.js", 20220101, 20260101);
    ParseSingle(bad, "Node.js", 20220101, 20260101);
    assert ParseRecords([Node18()], "Node.js", 20220101, 20260101).Success?;
    assert ParseRecords([bad], "Node.js", 20220101, 20260101) == Failure(MissingEnd);
    assert ParseRecords([Node18(), bad], "Node.js", 20220101, 20260101) == Failure(MissingEnd);
  }
}
