/**
 * The backup's prepare handler: a bounded queue of Prepare messages whose
 * every receipt re-arms the view timer, and one iteration of the single
 * consumer that checks for a log gap, appends, records and acknowledges.
 */
module Backup {
  import opened Messages
  import OpLog
  import Table
  import Globals

  /** Capacity of the incoming prepare queue. */
  const IncomingPrepareSize: nat := 5

  /** Seconds the view timer is re-armed to on every Prepare. */
  const BackupTimeoutSeconds: nat := 5

  /** A queued Prepare with its one-shot completion handle. */
  datatype PrimaryPrepare = PrimaryPrepare(args: PrepareArgs, done: nat)

  class PrepareQueue {
    var items: seq<PrimaryPrepare>
    var nextHandle: nat
    /** The duration the view timer was last (re-)armed to. */
    var viewTimerSeconds: nat
    /** How many times the view timer has been re-armed. */
    var timerResets: nat

    constructor New(timerSeconds: nat)
      ensures items == [] && nextHandle == 0 && viewTimerSeconds == timerSeconds && timerResets == 0
    {
      items := [];
      nextHandle := 0;
      viewTimerSeconds := timerSeconds;
      timerResets := 0;
    }

    /**
     * Re-arms the view timer to five seconds, then enqueues the Prepare with
     * a fresh handle; on a full queue the sender blocks after the re-arm.
     */
    method AddIncomingPrepare(args: PrepareArgs) returns (done: Option<nat>)
      modifies this
      ensures viewTimerSeconds == BackupTimeoutSeconds && timerResets == old(timerResets) + 1
      ensures |old(items)| < IncomingPrepareSize ==>
        done == Some(old(nextHandle)) && items == old(items) + [PrimaryPrepare(args, old(nextHandle))]
        && nextHandle == old(nextHandle) + 1
      ensures |old(items)| >= IncomingPrepareSize ==>
        done == None && items == old(items) && nextHandle == old(nextHandle)
    {
      viewTimerSeconds := BackupTimeoutSeconds;
      timerResets := timerResets + 1;
      if |items| >= IncomingPrepareSize {
        return None;
      }
      done := Some(nextHandle);
      items := items + [PrimaryPrepare(args, nextHandle)];
      nextHandle := nextHandle + 1;
    }
  }

  /**
   * Entering backup mode: a new, empty prepare queue replaces the old one
   * (Prepares still queued are dropped) and the new view timer, armed to
   * `timerSeconds`, is installed in place of the old one.
   */
  method Init(q: PrepareQueue, timerSeconds: nat)
    modifies q`items, q`viewTimerSeconds, q`timerResets
    ensures q.items == [] && q.viewTimerSeconds == timerSeconds && q.timerResets == 0
    ensures q.nextHandle == old(q.nextHandle)
  {
    q.items := [];
    q.viewTimerSeconds := timerSeconds;
    q.timerResets := 0;
  }

  /** A Prepare leaves a gap when its op number is beyond the one after the log's last (0 for an empty log). */
  predicate HasGap(log: seq<OpRequest>, args: PrepareArgs)
  {
    args.opNum > OpLog.LastOpNum(log) + 1
  }

  /** On an empty log only op numbers above 1 are gaps; otherwise the last record's op number decides. */
  lemma GapAgainstLastRecord(log: seq<OpRequest>, args: PrepareArgs)
    ensures log == [] ==> (HasGap(log, args) <==> args.opNum > 1)
    ensures log != [] ==> (HasGap(log, args) <==> args.opNum > log[|log| - 1].opNum + 1)
  {
  }

  /** What one iteration of the prepare handler did. */
  datatype PrepareStep =
    | Stopped                          // cancelled while waiting for a Prepare; the loop returns
    | Idle                             // nothing queued; still waiting
    | BlockedOnGap(args: PrepareArgs)  // waiting for the commit signal
    | Prepared(done: nat, ok: PrepareOk)

  /**
   * One iteration of the handler loop. `cancelled` says whether cancellation
   * won the wait for a Prepare; `commitArrived` whether the commit signal that
   * releases a gap has arrived.
   */
  method ProcessIncomingPrepare(g: Globals.Globals, q: PrepareQueue, cancelled: bool, commitArrived: bool)
    returns (step: PrepareStep)
    requires g.Valid()
    modifies g`opNum, g.opLog, g.clientTable, q`items
    ensures g.Valid()
    ensures cancelled || old(q.items) == [] ==>
      && step == (if cancelled then Stopped else Idle)
      && q.items == old(q.items) && g.opNum == old(g.opNum)
      && g.opLog.requests == old(g.opLog.requests) && g.clientTable.State() == old(g.clientTable.State())
    ensures !cancelled && old(q.items) != [] ==>
      var pp := old(q.items)[0];
      var req := pp.args.request;
      && q.items == old(q.items)[1..]
      && (HasGap(old(g.opLog.requests), pp.args) && !commitArrived ==>
            && step == BlockedOnGap(pp.args)
            && g.opNum == old(g.opNum) && g.opLog.requests == old(g.opLog.requests)
            && g.clientTable.State() == old(g.clientTable.State()))
      && (!HasGap(old(g.opLog.requests), pp.args) || commitArrived ==>
            && g.opNum == old(g.opNum) + 1
            && g.opLog.requests == old(g.opLog.requests) + [OpRequest(req, old(g.opNum) + 1)]
            && g.clientTable.State() == Table.TableSet(old(g.clientTable.State()), req.clientId, ProvisionalReply(g.viewNum, req))
            && step == Prepared(pp.done, PrepareOk(g.viewNum, old(g.opNum) + 1, g.id)))
  {
    if cancelled {
      return Stopped;
    }
    if q.items == [] {
      return Idle;
    }
    var primaryPrepare := q.items[0];
    q.items := q.items[1..];
    var prepareRequest := primaryPrepare.args.request;

    var _, lastOp := g.opLog.ReadLast();

    // Block until the commit signal when earlier operations are missing.
    if primaryPrepare.args.opNum > lastOp + 1 && !commitArrived {
      return BlockedOnGap(primaryPrepare.args);
    }

    // 1. Increment the op number.
    g.opNum := g.opNum + 1;
    // 2. Append the request to the log.
    var _ := g.opLog.AppendRequest(prepareRequest, g.opNum);
    // 3. Record the request in the client table.
    g.clientTable.Set(prepareRequest.clientId, ProvisionalReply(g.viewNum, prepareRequest));
    // 4. Deliver the PrepareOk on the Prepare's own handle.
    step := Prepared(primaryPrepare.done, PrepareOk(g.viewNum, g.opNum, g.id));
  }
}
