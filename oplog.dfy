/**
 * The in-memory operation log: an append-only sequence of
 * (request, op number) records with read-last and undo-last.
 */
module OpLog {
  import opened Messages

  /** The op number of the last record, or 0 for an empty log (what a caller reads when ReadLast fails). */
  function LastOpNum(log: seq<OpRequest>): int
  {
    if log == [] then 0 else log[|log| - 1].opNum
  }

  /** The last record of a non-empty log, the empty-log error otherwise. */
  datatype ReadResult = LastRecord(request: Request, opNum: int) | EmptyLog

  class OpRequestLog {
    var requests: seq<OpRequest>

    /** A new log is empty. */
    constructor New()
      ensures requests == []
    {
      requests := [];
    }

    /** A log holding the given records verbatim (used when a log is adopted wholesale). */
    constructor FromRecords(records: seq<OpRequest>)
      ensures requests == records
    {
      requests := records;
    }

    /** Appends exactly one record at the end; the error result is always nil. */
    method AppendRequest(request: Request, opNum: int) returns (err: Option<string>)
      modifies this
      ensures requests == old(requests) + [OpRequest(request, opNum)]
      ensures err == None
    {
      requests := requests + [OpRequest(request, opNum)];
      err := None;
    }

    /** Reads the last record without changing the log; an empty log yields the error and op number 0. */
    method ReadLast() returns (r: ReadResult, opNum: int)
      ensures requests == [] <==> r.EmptyLog?
      ensures r.EmptyLog? ==> opNum == 0
      ensures r.LastRecord? ==> requests[|requests| - 1] == OpRequest(r.request, r.opNum) && opNum == r.opNum
      ensures opNum == LastOpNum(requests)
    {
      if |requests| == 0 {
        return EmptyLog, 0;
      }
      var last := requests[|requests| - 1];
      r := LastRecord(last.request, last.opNum);
      opNum := last.opNum;
    }

    /** Removes exactly the last record; slicing an empty log is a run-time fault, so the log must be non-empty. */
    method Undo()
      requires requests != []
      modifies this
      ensures requests == old(requests)[..|old(requests)| - 1]
      ensures requests + [old(requests)[|old(requests)| - 1]] == old(requests)
    {
      requests := requests[..|requests| - 1];
    }
  }

  /** Appending then undoing restores the log, and reading after appending returns the new record. */
  method AppendThenUndo(l: OpRequestLog, request: Request, opNum: int)
    modifies l
    ensures l.requests == old(l.requests)
  {
    var _ := l.AppendRequest(request, opNum);
    var r, n := l.ReadLast();
    assert r == LastRecord(request, opNum) && n == opNum;
    l.Undo();
  }
}
