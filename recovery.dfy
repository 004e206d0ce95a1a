/**
 * The recovery sub-protocol (section 4.3 of "Viewstamped Replication
 * Revisited"): the Recover reply a replica gives, which replies a recovering
 * replica accepts, and how it validates and adopts them.
 */
module Recovery {
  import opened Messages
  import Globals

  // ---------------------------------------------------------------------------
  // The Recover reply.
  // ---------------------------------------------------------------------------

  /** The reply of a replica with the given state; only a primary reports its log and numbers. */
  function RecoverReply(viewNum: int, opNum: int, commitNum: int, log: seq<OpRequest>, mode: Mode, id: int,
                        request: RecoveryRequest): (r: RecoveryResponse)
    ensures r.nonce == request.nonce && r.viewNum == viewNum && r.id == id && r.mode == mode
    ensures mode == PrimaryMode ==> r.log == log && r.opNum == opNum && r.commitNum == commitNum
    ensures mode != PrimaryMode ==> r.log == [] && r.opNum == 0 && r.commitNum == 0
  {
    if mode == PrimaryMode then RecoveryResponse(viewNum, request.nonce, log, opNum, commitNum, id, mode)
    else RecoveryResponse(viewNum, request.nonce, [], 0, 0, id, mode)
  }

  /** The Recover handler; it reads the replica state and changes nothing. */
  method Recover(g: Globals.Globals, request: RecoveryRequest) returns (response: RecoveryResponse)
    ensures response == RecoverReply(g.viewNum, g.opNum, g.commitNum, g.opLog.requests, g.mode, g.id, request)
  {
    response := RecoveryResponse(g.viewNum, request.nonce, [], 0, 0, g.id, g.mode);
    if g.mode == PrimaryMode {
      response := response.(log := g.opLog.requests, opNum := g.opNum, commitNum := g.commitNum);
    }
  }

  // ---------------------------------------------------------------------------
  // Which replies are accepted.
  // ---------------------------------------------------------------------------

  /** The replies of the given mode, in arrival order. */
  function WithMode(rs: seq<RecoveryResponse>, mode: Mode): (r: seq<RecoveryResponse>)
    ensures |r| <= |rs|
    ensures forall i :: 0 <= i < |r| ==> r[i].mode == mode
  {
    if rs == [] then []
    else WithMode(rs[..|rs| - 1], mode) + (if rs[|rs| - 1].mode == mode then [rs[|rs| - 1]] else [])
  }

  /** Every reply of the mode is kept, and nothing else. */
  lemma {:induction false} WithModeMembers(rs: seq<RecoveryResponse>, mode: Mode)
    ensures forall x :: x in WithMode(rs, mode) <==> x in rs && x.mode == mode
  {
    if rs != [] {
      WithModeMembers(rs[..|rs| - 1], mode);
      assert rs == rs[..|rs| - 1] + [rs[|rs| - 1]];
    }
  }

  /** At most the first `k` elements. */
  function Take(s: seq<RecoveryResponse>, k: nat): (r: seq<RecoveryResponse>)
    ensures |r| == if |s| <= k then |s| else k
    ensures r == s[..|r|]
  {
    if |s| <= k then s else s[..k]
  }

  /**
   * The replies the collector finishes with: the first primary-mode reply,
   * then the first `subquorum` backup-mode replies; replies in other modes are
   * dropped. Without a primary reply or with too few backup replies the
   * collector never finishes.
   */
  function Selected(arrivals: seq<RecoveryResponse>, subquorum: nat): Option<seq<RecoveryResponse>>
  {
    var primaries := WithMode(arrivals, PrimaryMode);
    var backups := WithMode(arrivals, BackupMode);
    if |primaries| >= 1 && |backups| >= subquorum then Some([primaries[0]] + backups[..subquorum]) else None
  }

  /** The selection has one primary reply first, then `subquorum` backup replies, all of them received. */
  lemma SelectedShape(arrivals: seq<RecoveryResponse>, subquorum: nat)
    requires Selected(arrivals, subquorum).Some?
    ensures var rs := Selected(arrivals, subquorum).value;
      && |rs| == subquorum + 1
      && rs[0].mode == PrimaryMode
      && (forall i :: 1 <= i < |rs| ==> rs[i].mode == BackupMode)
      && (forall i :: 0 <= i < |rs| ==> rs[i] in arrivals)
  {
    WithModeMembers(arrivals, PrimaryMode);
    WithModeMembers(arrivals, BackupMode);
    var rs := Selected(arrivals, subquorum).value;
    var backups := WithMode(arrivals, BackupMode);
    forall i | 1 <= i < |rs|
      ensures rs[i] in arrivals && rs[i].mode == BackupMode
    {
      assert rs[i] == backups[i - 1];
    }
  }

  /** The collector over the arrival sequence: keep the first primary reply and the first `subquorum` backup replies. */
  method CollectResponses(arrivals: seq<RecoveryResponse>, subquorum: nat)
    returns (ready: bool, responses: seq<RecoveryResponse>)
    ensures ready <==> Selected(arrivals, subquorum).Some?
    ensures ready ==> responses == Selected(arrivals, subquorum).value
  {
    var primary: Option<RecoveryResponse> := None;
    var backups: seq<RecoveryResponse> := [];
    for i := 0 to |arrivals|
      invariant primary.None? <==> WithMode(arrivals[..i], PrimaryMode) == []
      invariant primary.Some? ==> primary.value == WithMode(arrivals[..i], PrimaryMode)[0]
      invariant backups == Take(WithMode(arrivals[..i], BackupMode), subquorum)
    {
      assert arrivals[..i + 1][..i] == arrivals[..i];
      var r := arrivals[i];
      if r.mode == PrimaryMode {
        if primary.None? {
          primary := Some(r);
        }
      } else if r.mode == BackupMode {
        if |backups| < subquorum {
          backups := backups + [r];
        }
      }
    }
    assert arrivals[..|arrivals|] == arrivals;
    ready := primary.Some? && |backups| == subquorum;
    responses := if primary.Some? then [primary.value] + backups else [];
  }

  // ---------------------------------------------------------------------------
  // Validation and adoption of the accepted replies.
  // ---------------------------------------------------------------------------

  /** Every reply carries the first reply's nonce. */
  predicate NoncesAgree(rs: seq<RecoveryResponse>)
    requires rs != []
  {
    forall i :: 0 <= i < |rs| ==> rs[i].nonce == rs[0].nonce
  }

  /** The index of the last primary-mode reply. */
  function LastPrimary(rs: seq<RecoveryResponse>): (r: Option<nat>)
    ensures r.Some? ==> r.value < |rs|
  {
    if rs == [] then None
    else if rs[|rs| - 1].mode == PrimaryMode then Some(|rs| - 1)
    else LastPrimary(rs[..|rs| - 1])
  }

  lemma {:induction false} LastPrimaryIsLast(rs: seq<RecoveryResponse>)
    ensures LastPrimary(rs).None? <==> forall i :: 0 <= i < |rs| ==> rs[i].mode != PrimaryMode
    ensures LastPrimary(rs).Some? ==>
      var k := LastPrimary(rs).value;
      rs[k].mode == PrimaryMode && forall j :: k < j < |rs| ==> rs[j].mode != PrimaryMode
  {
    if rs != [] && rs[|rs| - 1].mode != PrimaryMode {
      var init := rs[..|rs| - 1];
      LastPrimaryIsLast(init);
      assert forall i :: 0 <= i < |init| ==> init[i] == rs[i];
    }
  }

  /** The state a recovering replica adopts from the replies, or None when it rejects them. */
  function Adopted(rs: seq<RecoveryResponse>): Option<RecoveryResponse>
    requires rs != []
  {
    if !NoncesAgree(rs) then None
    else match LastPrimary(rs)
      case None => None
      case Some(k) => Some(rs[k])
  }

  /** The nonce loop of applyRecoveryResps. */
  method CheckNonces(rs: seq<RecoveryResponse>) returns (same: bool)
    requires rs != []
    ensures same <==> NoncesAgree(rs)
  {
    var nonce := rs[0].nonce;
    for i := 0 to |rs|
      invariant forall j :: 0 <= j < i ==> rs[j].nonce == nonce
    {
      if rs[i].nonce != nonce {
        return false;
      }
    }
    return true;
  }

  /** The primary-search loop of applyRecoveryResps: the last primary-mode reply wins. */
  method FindPrimaryResponse(rs: seq<RecoveryResponse>) returns (primaryResp: Option<nat>)
    ensures primaryResp == LastPrimary(rs)
  {
    primaryResp := None;
    for i := 0 to |rs|
      invariant primaryResp == LastPrimary(rs[..i])
    {
      assert rs[..i + 1][..i] == rs[..i];
      if rs[i].mode == PrimaryMode {
        primaryResp := Some(i);
      }
    }
    assert rs[..|rs|] == rs;
  }

  /**
   * applyRecoveryResps: reject a nonce mismatch or a missing primary reply
   * without change; otherwise adopt the primary reply's view, log, op number
   * and commit number.
   */
  method ApplyRecoveryResps(g: Globals.Globals, rs: seq<RecoveryResponse>) returns (ok: bool)
    requires rs != []
    modifies g`viewNum, g`opNum, g`commitNum, g.opLog
    ensures ok <==> Adopted(rs).Some?
    ensures !ok ==> g.viewNum == old(g.viewNum) && g.opNum == old(g.opNum) && g.commitNum == old(g.commitNum)
                    && g.opLog.requests == old(g.opLog.requests)
    ensures ok ==> var p := Adopted(rs).value;
      g.viewNum == p.viewNum && g.opLog.requests == p.log && g.opNum == p.opNum && g.commitNum == p.commitNum
  {
    // 1. All nonces must agree.
    var same := CheckNonces(rs);
    if !same {
      return false;
    }
    // 2. Adopt the primary's state.
    var k := FindPrimaryResponse(rs);
    if k.None? {
      return false;
    }
    var primaryResp := rs[k.value];
    g.viewNum := primaryResp.viewNum;
    g.opLog.requests := primaryResp.log;
    g.opNum := primaryResp.opNum;
    g.commitNum := primaryResp.commitNum;
    ok := true;
  }

  /** Mismatched nonces or no primary reply: rejected. */
  lemma AdoptedRejects(rs: seq<RecoveryResponse>)
    requires rs != []
    ensures !NoncesAgree(rs) ==> Adopted(rs).None?
    ensures (forall i :: 0 <= i < |rs| ==> rs[i].mode != PrimaryMode) ==> Adopted(rs).None?
    ensures NoncesAgree(rs) && (exists i :: 0 <= i < |rs| && rs[i].mode == PrimaryMode) ==>
      Adopted(rs).Some? && Adopted(rs).value.mode == PrimaryMode && Adopted(rs).value in rs
  {
    LastPrimaryIsLast(rs);
  }

  /** Replies to one Recovery request all echo its nonce, so they agree. */
  lemma RepliesToOneRequestAgree(rs: seq<RecoveryResponse>, request: RecoveryRequest)
    requires rs != []
    requires forall i :: 0 <= i < |rs| ==> rs[i].nonce == request.nonce
    ensures NoncesAgree(rs)
  {
  }

  /**
   * The round trip: when the accepted replies answer this replica's own
   * request, the recovering replica ends with the state of the primary whose
   * reply arrived first.
   */
  lemma {:induction false} RecoveryAdoptsFirstPrimaryState(arrivals: seq<RecoveryResponse>, subquorum: nat, request: RecoveryRequest,
                                                          viewNum: int, opNum: int, commitNum: int, log: seq<OpRequest>, id: int)
    requires forall i :: 0 <= i < |arrivals| ==> arrivals[i].nonce == request.nonce
    requires Selected(arrivals, subquorum).Some?
    requires WithMode(arrivals, PrimaryMode)[0] == RecoverReply(viewNum, opNum, commitNum, log, PrimaryMode, id, request)
    ensures var p := Adopted(Selected(arrivals, subquorum).value);
      p.Some? && p.value.viewNum == viewNum && p.value.log == log && p.value.opNum == opNum && p.value.commitNum == commitNum
  {
    var rs := Selected(arrivals, subquorum).value;
    SelectedShape(arrivals, subquorum);
    forall i | 0 <= i < |rs|
      ensures rs[i].nonce == request.nonce
    {
      var j :| 0 <= j < |arrivals| && arrivals[j] == rs[i];
    }
    assert NoncesAgree(rs);
    LastPrimaryIsLast(rs);
    assert LastPrimary(rs) == Some(0);
  }

  // ---------------------------------------------------------------------------
  // PerformRecovery.
  // ---------------------------------------------------------------------------

  datatype RecoveryOutcome =
    | Recovered   // replies accepted and adopted
    | Rejected    // replies collected but a nonce differed or no primary reply
    | Cancelled   // the context was cancelled first
    | Waiting     // the collector is still short of replies

  /**
   * One recovery attempt. `nonce` is the random nonce, `arrivals` the replies
   * in arrival order, `cancelled` whether cancellation won the wait. Returns
   * the ports the Recovery request goes to and the request itself.
   */
  method PerformRecovery(g: Globals.Globals, nonce: int, arrivals: seq<RecoveryResponse>, cancelled: bool, order: seq<int>)
    returns (targets: seq<int>, request: RecoveryRequest, outcome: RecoveryOutcome)
    requires Globals.Enumerates(order, g.allPorts.Keys)
    modifies g`viewNum, g`opNum, g`commitNum, g.opLog
    ensures targets == Globals.OtherPorts(g.allPorts, g.port, order)
    ensures forall p :: p in targets <==> p != g.port && p in g.allPorts.Values
    ensures request == RecoveryRequest(g.id, nonce)
    ensures var sel := Selected(arrivals, |targets| / 2);
      && (outcome == Recovered <==> !cancelled && sel.Some? && Adopted(sel.value).Some?)
      && (outcome == Rejected <==> !cancelled && sel.Some? && Adopted(sel.value).None?)
      && (outcome == Cancelled <==> cancelled)
      && (outcome == Recovered ==> var p := Adopted(sel.value).value;
            g.viewNum == p.viewNum && g.opLog.requests == p.log && g.opNum == p.opNum && g.commitNum == p.commitNum)
      && (outcome != Recovered ==>
            g.viewNum == old(g.viewNum) && g.opNum == old(g.opNum) && g.commitNum == old(g.commitNum)
            && g.opLog.requests == old(g.opLog.requests))
  {
    targets := g.AllOtherPorts(order);
    var subquorum := |targets| / 2;
    request := RecoveryRequest(g.id, nonce);
    var ready, responses := CollectResponses(arrivals, subquorum);
    if cancelled {
      return targets, request, Cancelled;
    }
    if !ready {
      return targets, request, Waiting;
    }
    var ok := ApplyRecoveryResps(g, responses);
    outcome := if ok then Recovered else Rejected;
  }
}
