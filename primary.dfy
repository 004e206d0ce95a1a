/**
 * The primary's replication pipeline: a bounded FIFO of client requests and
 * one iteration of the single consumer that orders, logs, records,
 * replicates and then commits or undoes each request. Replies from backups
 * and cancellation of the primary's context are inputs.
 */
module Primary {
  import opened Messages
  import Table
  import Globals

  /** Capacity of the incoming request queue. */
  const IncomingReqsSize: nat := 5

  /** A queued client request with its one-shot completion handle. */
  datatype ClientRequest = ClientRequest(request: Request, done: nat)

  class RequestQueue {
    var items: seq<ClientRequest>
    var nextHandle: nat

    constructor New()
      ensures items == [] && nextHandle == 0
    {
      items := [];
      nextHandle := 0;
    }

    /**
     * Enqueues a request with a fresh completion handle. On a full queue the
     * sender would block: nothing is enqueued and no handle is returned.
     */
    method AddIncomingReq(req: Request) returns (done: Option<nat>)
      modifies this
      ensures |old(items)| < IncomingReqsSize ==>
        done == Some(old(nextHandle)) && items == old(items) + [ClientRequest(req, old(nextHandle))]
        && nextHandle == old(nextHandle) + 1
      ensures |old(items)| >= IncomingReqsSize ==>
        done == None && items == old(items) && nextHandle == old(nextHandle)
    {
      if |items| >= IncomingReqsSize {
        return None;
      }
      done := Some(nextHandle);
      items := items + [ClientRequest(req, nextHandle)];
      nextHandle := nextHandle + 1;
    }
  }

  /** Replies a primary with `backups` backups waits for. */
  function Subquorum(backups: nat): nat
  {
    backups / 2
  }

  /** Number of backup calls that succeeded. */
  function Successes(replies: seq<bool>): nat
  {
    if replies == [] then 0
    else Successes(replies[..|replies| - 1]) + (if replies[|replies| - 1] then 1 else 0)
  }

  lemma {:induction false} SuccessesBounded(replies: seq<bool>)
    ensures Successes(replies) <= |replies|
    ensures Successes(replies) == |replies| <==> forall i :: 0 <= i < |replies| ==> replies[i]
  {
    if replies != [] {
      SuccessesBounded(replies[..|replies| - 1]);
      assert forall i :: 0 <= i < |replies| - 1 ==> replies[..|replies| - 1][i] == replies[i];
    }
  }

  /** A failed backup call adds nothing to the count, a successful one adds one. */
  lemma SuccessesAppend(replies: seq<bool>, ok: bool)
    ensures Successes(replies + [ok]) == Successes(replies) + (if ok then 1 else 0)
  {
    assert (replies + [ok])[..|replies|] == replies;
  }

  /** With at most one backup nothing has to be awaited. */
  lemma SmallClusterNeedsNoReplies(backups: nat)
    requires backups <= 1
    ensures Subquorum(backups) == 0
  {
  }

  /**
   * The quorum wait: take successful replies one at a time, in arrival order,
   * until `subquorum` of them have been seen.
   */
  method WaitForQuorum(replies: seq<bool>, subquorum: nat) returns (ready: bool)
    ensures ready <==> Successes(replies) >= subquorum
  {
    var received := 0;
    var i := 0;
    while received < subquorum && i < |replies|
      invariant 0 <= i <= |replies|
      invariant received == Successes(replies[..i]) <= subquorum
    {
      assert replies[..i + 1][..i] == replies[..i];
      if replies[i] {
        received := received + 1;
      }
      i := i + 1;
    }
    ready := received >= subquorum;
    if !ready {
      assert replies[..i] == replies;
    } else {
      SuccessesPrefix(replies, i);
    }
  }

  lemma {:induction false} SuccessesPrefix(replies: seq<bool>, i: nat)
    requires i <= |replies|
    ensures Successes(replies[..i]) <= Successes(replies)
  {
    if i < |replies| {
      SuccessesPrefix(replies[..|replies| - 1], i);
      assert replies[..|replies| - 1][..i] == replies[..i];
    } else {
      assert replies[..i] == replies;
    }
  }

  /** What entering primary mode did: the pipeline started with these backup connections, or dialling a port failed and the process exits. */
  datatype InitOutcome = Started(backups: seq<Globals.Client>) | DialFatal(port: int)

  /**
   * Dialling the backup ports in turn, appending each connection to the
   * connections already held; the first failed dial ends the process.
   */
  function DialAll(backups: seq<Globals.Client>, ports: seq<int>, dials: seq<Globals.DialResult>): InitOutcome
    requires |dials| == |ports|
    decreases |dials|
  {
    if dials == [] then Started(backups)
    else match dials[0]
      case DialFailed(_) => DialFatal(ports[0])
      case Dialed(c) => DialAll(backups + [c], ports[1..], dials[1..])
  }

  /**
   * Dialling succeeds exactly when every dial does, and then keeps the
   * connections held and appends one per port, in order; otherwise it names
   * the first port that failed.
   */
  lemma {:induction false} DialAllAppends(backups: seq<Globals.Client>, ports: seq<int>, dials: seq<Globals.DialResult>)
    requires |dials| == |ports|
    ensures DialAll(backups, ports, dials).Started? <==> forall i :: 0 <= i < |dials| ==> dials[i].Dialed?
    ensures DialAll(backups, ports, dials).Started? ==>
      var bs := DialAll(backups, ports, dials).backups;
      && |bs| == |backups| + |dials| && bs[..|backups|] == backups
      && forall i :: 0 <= i < |dials| ==> bs[|backups| + i] == dials[i].client
    ensures DialAll(backups, ports, dials).DialFatal? ==>
      exists k :: 0 <= k < |dials| && dials[k].DialFailed? && ports[k] == DialAll(backups, ports, dials).port
        && forall j :: 0 <= j < k ==> dials[j].Dialed?
    decreases |dials|
  {
    if dials != [] {
      match dials[0]
      case DialFailed(_) =>
      case Dialed(c) =>
        var backups', ports', dials' := backups + [c], ports[1..], dials[1..];
        DialAllAppends(backups', ports', dials');
        assert forall i :: 0 < i < |dials| ==> dials[i] == dials'[i - 1];
        if DialAll(backups', ports', dials').DialFatal? {
          var k :| 0 <= k < |dials'| && dials'[k].DialFailed? && ports'[k] == DialAll(backups', ports', dials').port
            && forall j :: 0 <= j < k ==> dials'[j].Dialed?;
          assert dials[k + 1] == dials'[k] && ports[k + 1] == ports'[k];
        }
    }
  }

  /**
   * Entering primary mode a second time dials the same backup ports again and
   * appends the new connections to those of the first entry: every Prepare
   * then goes to each backup twice, and the pipeline waits for as many
   * successes as there are backups instead of half of them.
   */
  lemma ReentryDoublesBackups(ports: seq<int>, dials: seq<Globals.DialResult>, redials: seq<Globals.DialResult>)
    requires |dials| == |ports| && DialAll([], ports, dials).Started?
    requires |redials| == |ports| && DialAll([], ports, redials).Started?
    ensures var first := DialAll([], ports, dials).backups;
      var again := DialAll([], ports, redials).backups;
      && DialAll(first, ports, redials) == Started(first + again)
      && |first| == |again| == |ports|
      && Subquorum(|first + again|) == |ports|
  {
    DialAllAppends([], ports, dials);
    DialAllAppends([], ports, redials);
    var first := DialAll([], ports, dials).backups;
    var again := DialAll([], ports, redials).backups;
    DialAllAppends(first, ports, redials);
    var second := DialAll(first, ports, redials).backups;
    forall i | 0 <= i < |second|
      ensures second[i] == (first + again)[i]
    {
      if i < |first| {
        assert second[..|first|][i] == second[i];
      } else {
        var k := i - |first|;
        assert second[|first| + k] == redials[k].client == again[k];
      }
    }
    assert second == first + again;
  }

  /**
   * Entering primary mode: a new, empty request queue replaces the old one
   * (requests still queued are dropped), then every backup port is dialled
   * and its connection appended to those already held.
   */
  method Init(q: RequestQueue, backups: seq<Globals.Client>, ports: seq<int>, dials: seq<Globals.DialResult>)
    returns (r: InitOutcome)
    requires |dials| == |ports|
    modifies q`items
    ensures q.items == []
    ensures r == DialAll(backups, ports, dials)
  {
    q.items := [];
    var bs := backups;
    var i := 0;
    while i < |dials|
      invariant 0 <= i <= |dials|
      invariant DialAll(bs, ports[i..], dials[i..]) == DialAll(backups, ports, dials)
    {
      match dials[i]
      case DialFailed(_) =>
        return DialFatal(ports[i]);
      case Dialed(c) =>
        assert ports[i..][1..] == ports[i + 1..] && dials[i..][1..] == dials[i + 1..];
        bs := bs + [c];
      i := i + 1;
    }
    r := Started(bs);
  }

  /** What one iteration of the pipeline did. */
  datatype PipelineStep =
    | Stopped                    // cancelled while waiting for a request; the loop returns
    | Idle                       // no request queued; still waiting
    | Committed(prepare: PrepareArgs, done: nat, reply: Response)
    | Undone(prepare: PrepareArgs)   // cancelled while waiting for replies; the loop returns
    | Stalled(prepare: PrepareArgs)  // too few replies and no cancellation; blocked on this request

  /** The final reply for a committed request. */
  function CommitReply(viewNum: int, req: Request): Response
  {
    Response(viewNum, req.requestNum, req.op, "")
  }

  /**
   * One iteration of the pipeline loop. `cancelledWaitingForRequest` and
   * `cancelledWaitingForQuorum` say whether the context's cancellation won the
   * respective wait; `replies` are the outcomes of the backup calls that
   * completed before the wait ended.
   */
  method ProcessIncomingReq(
    g: Globals.Globals, q: RequestQueue, backups: nat,
    cancelledWaitingForRequest: bool, replies: seq<bool>, cancelledWaitingForQuorum: bool)
    returns (step: PipelineStep)
    requires g.Valid() && |replies| <= backups
    modifies g`opNum, g`commitNum, g.opLog, g.clientTable, q`items
    ensures g.Valid()
    ensures cancelledWaitingForRequest || old(q.items) == [] ==>
      && step == (if cancelledWaitingForRequest then Stopped else Idle)
      && q.items == old(q.items) && g.opNum == old(g.opNum) && g.commitNum == old(g.commitNum)
      && g.opLog.requests == old(g.opLog.requests) && g.clientTable.State() == old(g.clientTable.State())
    ensures !cancelledWaitingForRequest && old(q.items) != [] ==>
      var cr := old(q.items)[0];
      var newOp := old(g.opNum) + 1;
      var prepare := PrepareArgs(g.viewNum, cr.request, newOp, old(g.commitNum));
      var provisional := Table.TableSet(old(g.clientTable.State()), cr.request.clientId, ProvisionalReply(g.viewNum, cr.request));
      && q.items == old(q.items)[1..]
      && (cancelledWaitingForQuorum ==>
            && step == Undone(prepare)
            && g.opNum == old(g.opNum) && g.commitNum == old(g.commitNum)
            && g.opLog.requests == old(g.opLog.requests)
            && g.clientTable.State() == Table.TableUndo(provisional, cr.request.clientId))
      && (!cancelledWaitingForQuorum ==>
            && g.opNum == newOp
            && g.opLog.requests == old(g.opLog.requests) + [OpRequest(cr.request, newOp)]
            && g.clientTable.State() == provisional
            && (Successes(replies) >= Subquorum(backups) ==>
                  step == Committed(prepare, cr.done, CommitReply(g.viewNum, cr.request))
                  && g.commitNum == old(g.commitNum) + 1)
            && (Successes(replies) < Subquorum(backups) ==>
                  step == Stalled(prepare) && g.commitNum == old(g.commitNum)))
  {
    // 1. Take a request, unless the context is cancelled first.
    if cancelledWaitingForRequest {
      return Stopped;
    }
    if q.items == [] {
      return Idle;
    }
    var clientReq := q.items[0];
    q.items := q.items[1..];

    // 2. Advance the op number.
    g.opNum := g.opNum + 1;

    // 3. Append the request to the log.
    var _ := g.opLog.AppendRequest(clientReq.request, g.opNum);

    // 4. Record the request in the client table with an empty result.
    g.clientTable.Set(clientReq.request.clientId, ProvisionalReply(g.viewNum, clientReq.request));

    // 5. Build the Prepare sent to every backup.
    var args := PrepareArgs(g.viewNum, clientReq.request, g.opNum, g.commitNum);

    // 6. Wait for a subquorum of PrepareOks or for cancellation.
    var ready := WaitForQuorum(replies, Subquorum(backups));
    if cancelledWaitingForQuorum {
      g.opNum := g.opNum - 1;
      g.opLog.Undo();
      g.clientTable.Undo(clientReq.request.clientId);
      return Undone(args);
    }
    if !ready {
      return Stalled(args);
    }

    // 7-8. The operation is committed.
    g.commitNum := g.commitNum + 1;

    // 9. Reply through the request's completion handle.
    step := Committed(args, clientReq.done, CommitReply(g.viewNum, clientReq.request));
  }
}
