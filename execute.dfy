/**
 * Client request admission on the replica (the Execute call): a replica that
 * is not the primary answers with a redirect hint; a request the client table
 * already covers is answered from the table; anything else is handed to the
 * primary's pipeline.
 */
module ClientAdmission {
  import opened Messages
  import Table
  import Globals
  import Primary

  /** The hint returned by a replica that is not the primary. */
  function ModeError(mode: Mode): string
  {
    if mode == BackupMode then "not primary"
    else if mode == ViewChangeMode || mode == ViewChangeInitMode then "view change"
    else ""
  }

  /** How Execute treats a request. */
  datatype Decision =
    | Reject(reply: Response)   // not the primary
    | Resend(reply: Response)   // duplicate: the stored response, verbatim
    | Process                   // hand to the pipeline
    | NilEntryPanic             // type assertion on a nil table value

  /** A present, non-nil entry whose request number is at least the request's. */
  predicate Covers(stored: (Table.Slot, bool), req: Request)
  {
    stored.1 && stored.0.Some? && req.requestNum <= stored.0.value.requestNum
  }

  /**
   * The decision as the code is written: a present entry is type-asserted to
   * a response, which fails on the nil value that Undo leaves behind.
   */
  function DecideAsWritten(mode: Mode, viewNum: int, stored: (Table.Slot, bool), req: Request): (d: Decision)
    ensures d == NilEntryPanic <==> mode == PrimaryMode && stored.1 && stored.0.None?
    ensures d.Reject? <==> mode != PrimaryMode
    ensures d.Resend? <==> mode == PrimaryMode && Covers(stored, req)
    ensures d.Resend? ==> d.reply == stored.0.value
    ensures d.Process? <==> mode == PrimaryMode && !(stored.1 && stored.0.None?) && !Covers(stored, req)
  {
    if mode != PrimaryMode then Reject(NotPrimaryReply(viewNum, ModeError(mode)))
    else if stored.1 && stored.0.None? then NilEntryPanic
    else if stored.1 && req.requestNum <= stored.0.value.requestNum then Resend(stored.0.value)
    else Process
  }

  /** The decision with a nil entry treated as no entry. */
  function Decide(mode: Mode, viewNum: int, stored: (Table.Slot, bool), req: Request): (d: Decision)
    ensures d != NilEntryPanic
    ensures d.Reject? <==> mode != PrimaryMode
    ensures mode == BackupMode ==> d == Reject(Response(viewNum, 0, "", "not primary"))
    ensures mode == ViewChangeMode || mode == ViewChangeInitMode ==> d == Reject(Response(viewNum, 0, "", "view change"))
    ensures mode !in {PrimaryMode, BackupMode, ViewChangeMode, ViewChangeInitMode} ==> d == Reject(Response(viewNum, 0, "", ""))
    ensures d.Resend? <==> mode == PrimaryMode && Covers(stored, req)
    ensures d.Resend? ==> d.reply == stored.0.value
    ensures d.Process? <==> mode == PrimaryMode && !Covers(stored, req)
  {
    if mode != PrimaryMode then Reject(NotPrimaryReply(viewNum, ModeError(mode)))
    else if Covers(stored, req) then Resend(stored.0.value)
    else Process
  }

  /** The two decisions differ only on a primary holding a nil entry for the client. */
  lemma DecideMatchesAsWrittenOffNil(mode: Mode, viewNum: int, stored: (Table.Slot, bool), req: Request)
    requires !(mode == PrimaryMode && stored == (None, true))
    ensures DecideAsWritten(mode, viewNum, stored, req) == Decide(mode, viewNum, stored, req)
  {
  }

  /**
   * A client's first request cancelled during the quorum wait leaves a nil
   * entry (Set then Undo with nothing saved); the client's resend to this
   * replica as a later primary then fails the type assertion.
   */
  lemma CancelledFirstRequestPanicsAsWritten(t: Table.TableState, req: Request, v: int, v': int)
    requires Table.Consistent(t) && req.clientId !in t.entries
    ensures var t' := Table.TableUndo(Table.TableSet(t, req.clientId, ProvisionalReply(v, req)), req.clientId);
      DecideAsWritten(PrimaryMode, v', Table.TableGet(t', req.clientId), req) == NilEntryPanic
  {
  }

  /** With the correction, that resend is processed as a new request. */
  lemma CancelledFirstRequestIsReprocessed(t: Table.TableState, req: Request, v: int, v': int)
    requires Table.Consistent(t) && req.clientId !in t.entries
    ensures var t' := Table.TableUndo(Table.TableSet(t, req.clientId, ProvisionalReply(v, req)), req.clientId);
      Decide(PrimaryMode, v', Table.TableGet(t', req.clientId), req) == Process
  {
  }

  /** A resend while the request is in flight is answered from the provisional entry: an empty result. */
  lemma InFlightResendGetsProvisional(t: Table.TableState, req: Request, v: int, v': int)
    ensures var t' := Table.TableSet(t, req.clientId, ProvisionalReply(v, req));
      Decide(PrimaryMode, v', Table.TableGet(t', req.clientId), req) == Resend(Response(v, req.requestNum, "", ""))
  {
  }

  /**
   * The pipeline never writes the committed reply into the table, so after a
   * commit the entry is still the provisional one: a resend of the committed
   * request is answered with an empty result, not the operation's result.
   */
  lemma ResendAfterCommitGetsEmptyResult(t: Table.TableState, req: Request, v: int)
    requires req.op != ""
    ensures var t' := Table.TableSet(t, req.clientId, ProvisionalReply(v, req));
      var d := Decide(PrimaryMode, v, Table.TableGet(t', req.clientId), req);
      d == Resend(Response(v, req.requestNum, "", "")) && d.reply != Primary.CommitReply(v, req)
  {
  }

  /** What the client's call gets: a reply now, a handle the pipeline replies on, or a blocked enqueue. */
  datatype Admission = Replied(reply: Response) | Pending(done: nat) | QueueBlocked

  /** Execute; it reads the client table and never writes it. */
  method Execute(g: Globals.Globals, q: Primary.RequestQueue, req: Request) returns (a: Admission)
    modifies q
    ensures var d := Decide(old(g.mode), g.viewNum, Table.TableGet(g.clientTable.State(), req.clientId), req);
      && (!d.Process? ==> a == Replied(d.reply) && q.items == old(q.items) && q.nextHandle == old(q.nextHandle))
      && (d.Process? && |old(q.items)| < Primary.IncomingReqsSize ==>
            a == Pending(old(q.nextHandle)) && q.items == old(q.items) + [Primary.ClientRequest(req, old(q.nextHandle))]
            && q.nextHandle == old(q.nextHandle) + 1)
      && (d.Process? && |old(q.items)| >= Primary.IncomingReqsSize ==>
            a == QueueBlocked && q.items == old(q.items) && q.nextHandle == old(q.nextHandle))
  {
    var mode := g.mode;
    var res, ok := g.clientTable.Get(req.clientId);
    var d := Decide(mode, g.viewNum, (res, ok), req);
    match d
    case Process =>
      var done := q.AddIncomingReq(req);
      a := if done.Some? then Pending(done.value) else QueueBlocked;
    case Reject(r) =>
      a := Replied(r);
    case Resend(r) =>
      a := Replied(r);
  }
}
