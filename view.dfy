/**
 * The view-change sub-protocol (section 4.2 of "Viewstamped Replication
 * Revisited"): the ballot kept across StartViewChange messages, the
 * DoViewChange collection and log reconciliation on the new primary, and
 * StartView on the others. Outgoing messages and the signals to the mode
 * supervisor are returned as a list of `Outbound` items.
 *
 * Each handler is specified by a function over `ViewState` (the replica's
 * numbers, its log and the ballot); the imperative handlers on the replica
 * state are proved to compute exactly that function.
 */
module View {
  import opened Messages
  import OpLog
  import Globals

  // ---------------------------------------------------------------------------
  // Pure parts: the new primary, the collected messages' checks and maxima.
  // ---------------------------------------------------------------------------

  /** Go's `%`: the remainder truncated toward zero (negative for a negative dividend). */
  function GoRem(a: int, n: int): int
    requires n > 0
  {
    if a >= 0 then a % n else -((-a) % n)
  }

  /** The id of the primary of view `viewNum` in a cluster of `clusterSize` replicas. */
  function NewPrimaryId(viewNum: int, clusterSize: nat): int
    requires clusterSize > 0
  {
    GoRem(viewNum, clusterSize)
  }

  /** For a non-negative view the new primary is `view mod n`, a valid id, and ids rotate with period n. */
  lemma NewPrimaryIdRotates(viewNum: int, clusterSize: nat)
    requires clusterSize > 0 && viewNum >= 0
    ensures NewPrimaryId(viewNum, clusterSize) == viewNum % clusterSize
    ensures 0 <= NewPrimaryId(viewNum, clusterSize) < clusterSize
    ensures NewPrimaryId(viewNum + clusterSize, clusterSize) == NewPrimaryId(viewNum, clusterSize)
    ensures NewPrimaryId(viewNum + 1, clusterSize) == if NewPrimaryId(viewNum, clusterSize) == clusterSize - 1 then 0
                                                     else NewPrimaryId(viewNum, clusterSize) + 1
  {
    var q, r := viewNum / clusterSize, viewNum % clusterSize;
    assert viewNum == q * clusterSize + r;
    assert viewNum + clusterSize == (q + 1) * clusterSize + r;
    RemainderUnique(viewNum + clusterSize, clusterSize, q + 1, r);
    if r == clusterSize - 1 {
      assert viewNum + 1 == (q + 1) * clusterSize + 0;
      RemainderUnique(viewNum + 1, clusterSize, q + 1, 0);
    } else {
      assert viewNum + 1 == q * clusterSize + (r + 1);
      RemainderUnique(viewNum + 1, clusterSize, q, r + 1);
    }
  }

  /** The remainder of a division is the unique `r` in [0, n) with a = q * n + r. */
  lemma RemainderUnique(a: int, n: int, q: int, r: int)
    requires n > 0 && 0 <= r < n && a == q * n + r
    ensures a % n == r
  {
    var q', r' := a / n, a % n;
    assert a == q' * n + r';
    assert (q - q') * n == r' - r;
    if q - q' >= 1 {
      assert false;
    } else if q - q' <= -1 {
      assert false;
    }
  }

  /**
   * For a negative view Go's remainder takes the sign of the view: the id is
   * in (-n, 0], so it names no replica unless the view is a multiple of n,
   * which gives replica 0.
   */
  lemma NegativeViewPrimaryId(viewNum: int, clusterSize: nat)
    requires clusterSize > 0 && viewNum < 0
    ensures NewPrimaryId(viewNum, clusterSize) == -((-viewNum) % clusterSize)
    ensures -(clusterSize as int) < NewPrimaryId(viewNum, clusterSize) <= 0
    ensures NewPrimaryId(viewNum, clusterSize) == 0 <==> viewNum % clusterSize == 0
  {
    var a := -viewNum;
    var q := a / clusterSize;
    assert a == q * clusterSize + a % clusterSize;
    if a % clusterSize == 0 {
      assert viewNum == (-q) * clusterSize + 0;
      RemainderUnique(viewNum, clusterSize, -q, 0);
    }
    if viewNum % clusterSize == 0 {
      var q' := viewNum / clusterSize;
      assert viewNum == q' * clusterSize + 0;
      assert a == (-q') * clusterSize + 0;
      RemainderUnique(a, clusterSize, -q', 0);
    }
  }

  /** All collected DoViewChange messages carry the view number of the first. */
  predicate AllSameView(args: seq<DoViewChangeArgs>)
    requires args != []
  {
    forall i :: 0 <= i < |args| ==> args[i].viewNum == args[0].viewNum
  }

  /** The reconciliation choice as the loop makes it: strictly greater latest normal view wins, starting from -1. */
  function PickLogIndex(args: seq<DoViewChangeArgs>): (r: Option<nat>)
    ensures r.Some? ==> r.value < |args|
  {
    if args == [] then None
    else
      var prev := PickLogIndex(args[..|args| - 1]);
      var best := if prev.None? then -1 else args[prev.value].latestNormalViewNum;
      if args[|args| - 1].latestNormalViewNum > best then Some(|args| - 1) else prev
  }

  /**
   * The chosen message has the largest latest normal view number, ties go to
   * the earliest received; nothing is chosen only when every number is at
   * most -1.
   */
  lemma {:induction false} PickLogIndexIsFirstMaximum(args: seq<DoViewChangeArgs>)
    ensures PickLogIndex(args).None? <==> forall i :: 0 <= i < |args| ==> args[i].latestNormalViewNum <= -1
    ensures PickLogIndex(args).Some? ==>
      var k := PickLogIndex(args).value;
      && args[k].latestNormalViewNum > -1
      && (forall i :: 0 <= i < |args| ==> args[i].latestNormalViewNum <= args[k].latestNormalViewNum)
      && (forall i :: 0 <= i < k ==> args[i].latestNormalViewNum < args[k].latestNormalViewNum)
  {
    if args != [] {
      var init := args[..|args| - 1];
      PickLogIndexIsFirstMaximum(init);
      assert forall i :: 0 <= i < |init| ==> init[i] == args[i];
    }
  }

  /** Of two messages with equal latest normal view the later one is never adopted, whatever the op numbers. */
  lemma TieGoesToEarliest(args: seq<DoViewChangeArgs>, i: int, j: int)
    requires 0 <= i < j < |args| && args[i].latestNormalViewNum == args[j].latestNormalViewNum
    ensures PickLogIndex(args) != Some(j)
  {
    PickLogIndexIsFirstMaximum(args);
  }

  /** The largest commit number collected, floored at 0. */
  function MaxCommit(args: seq<DoViewChangeArgs>): int
  {
    if args == [] then 0
    else
      var prev := MaxCommit(args[..|args| - 1]);
      if args[|args| - 1].commitNum > prev then args[|args| - 1].commitNum else prev
  }

  lemma {:induction false} MaxCommitIsMaximum(args: seq<DoViewChangeArgs>)
    ensures MaxCommit(args) >= 0
    ensures forall i :: 0 <= i < |args| ==> args[i].commitNum <= MaxCommit(args)
    ensures MaxCommit(args) == 0 || exists i :: 0 <= i < |args| && args[i].commitNum == MaxCommit(args)
  {
    if args != [] {
      var init := args[..|args| - 1];
      MaxCommitIsMaximum(init);
      assert forall i :: 0 <= i < |init| ==> init[i] == args[i];
      if MaxCommit(init) != 0 && MaxCommit(args) == MaxCommit(init) {
        var i :| 0 <= i < |init| && init[i].commitNum == MaxCommit(init);
        assert args[i].commitNum == MaxCommit(args);
      }
    }
  }

  /** The sameViewNums loop. */
  method SameViewNums(args: seq<DoViewChangeArgs>) returns (same: bool)
    requires args != []
    ensures same <==> AllSameView(args)
  {
    var vn := args[0].viewNum;
    for i := 0 to |args|
      invariant forall j :: 0 <= j < i ==> args[j].viewNum == vn
    {
      if args[i].viewNum != vn {
        return false;
      }
    }
    return true;
  }

  /** The refreshLog loop: which collected message's log is adopted. */
  method MaxNormalViewLog(args: seq<DoViewChangeArgs>) returns (pick: Option<nat>)
    ensures pick == PickLogIndex(args)
  {
    var maxNormalViewNum := -1;
    pick := None;
    for i := 0 to |args|
      invariant pick == PickLogIndex(args[..i])
      invariant maxNormalViewNum == if pick.None? then -1 else args[pick.value].latestNormalViewNum
    {
      assert args[..i + 1][..i] == args[..i];
      if args[i].latestNormalViewNum > maxNormalViewNum {
        pick := Some(i);
        maxNormalViewNum := args[i].latestNormalViewNum;
      }
    }
    assert args[..|args|] == args;
  }

  /** The refreshCommitNum loop. */
  method MaxCommitNum(args: seq<DoViewChangeArgs>) returns (maxCommitNum: int)
    ensures maxCommitNum == MaxCommit(args)
  {
    maxCommitNum := 0;
    for i := 0 to |args|
      invariant maxCommitNum == MaxCommit(args[..i])
    {
      assert args[..i + 1][..i] == args[..i];
      if args[i].commitNum > maxCommitNum {
        maxCommitNum := args[i].commitNum;
      }
    }
    assert args[..|args|] == args;
  }

  // ---------------------------------------------------------------------------
  // The handlers as functions of the replica's view-change state.
  // ---------------------------------------------------------------------------

  /** The ballot: StartViewChange count, proposed view, collected DoViewChanges, DoViewChange-sent flag. */
  datatype BallotState = BallotState(received: int, proposed: int, collected: seq<DoViewChangeArgs>, sent: bool)

  datatype ViewState = ViewState(viewNum: int, opNum: int, commitNum: int, log: seq<OpRequest>, ballot: BallotState)

  /** The replica's id, the membership map and the other replicas' ports. */
  datatype Env = Env(id: int, allPorts: map<int, int>, others: seq<int>)

  /** Messages a view-change quorum needs beyond the replica's own: half the cluster, rounded down. */
  function Subquorum(env: Env): int
  {
    |env.allPorts| / 2
  }

  /** The port of an id; a missing id reads as Go's zero value. */
  function PortOf(allPorts: map<int, int>, id: int): int
  {
    if id in allPorts then allPorts[id] else 0
  }

  datatype ViewResult = Stale | Pending | Installed | Fatal(reason: string)

  /** The new view state, what was emitted, and how the handler ended. */
  datatype Effect = Effect(state: ViewState, out: seq<Outbound>, result: ViewResult)

  function StartViewChanges(others: seq<int>, viewNum: int, id: int): (out: seq<Outbound>)
    ensures |out| == |others|
    ensures forall i :: 0 <= i < |others| ==> out[i] == SendStartViewChange(others[i], StartViewChangeArgs(viewNum, id))
  {
    seq(|others|, i requires 0 <= i < |others| => SendStartViewChange(others[i], StartViewChangeArgs(viewNum, id)))
  }

  function StartViews(others: seq<int>, sv: StartViewArgs): (out: seq<Outbound>)
    ensures |out| == |others|
    ensures forall i :: 0 <= i < |others| ==> out[i] == SendStartView(others[i], sv)
  {
    seq(|others|, i requires 0 <= i < |others| => SendStartView(others[i], sv))
  }

  /** DoViewChange received (over the wire or from this replica itself). */
  function DoViewChangeStep(s: ViewState, args: DoViewChangeArgs, env: Env): Effect
  {
    if args.viewNum <= s.viewNum then Effect(s, [], Stale)
    else
      var collected := s.ballot.collected + [args];
      var s1 := s.(ballot := s.ballot.(collected := collected));
      if |collected| != Subquorum(env) then Effect(s1, [], Pending)
      else if !AllSameView(collected) then Effect(s1, [], Fatal("DoViewChange messages with different view nums"))
      else InstallStep(s1, args.viewNum, env)
  }

  /** The new view from the collected messages: view number, reconciled log, op and commit numbers, then StartViews. */
  function InstallStep(s: ViewState, viewNum: int, env: Env): Effect
  {
    var s2 := s.(viewNum := viewNum);
    match PickLogIndex(s.ballot.collected)
    case None => Effect(s2, [], Fatal("no log to adopt"))
    case Some(k) =>
      var log := s.ballot.collected[k].log;
      if log == [] then Effect(s2.(log := log), [], Fatal("failed to read the last entry in the new log"))
      else
        var s3 := s2.(log := log, opNum := log[|log| - 1].opNum, commitNum := MaxCommit(s.ballot.collected));
        Effect(s3, StartViews(env.others, StartViewArgs(s3.viewNum, log, s3.opNum, s3.commitNum))
                   + [ViewChangeDone(PrimaryMode)], Installed)
  }

  /** The DoViewChange for the proposed view, to its new primary; to itself it is handled locally. */
  function SendDoViewChangeStep(s: ViewState, env: Env): Effect
  {
    if |env.allPorts| == 0 then Effect(s, [], Fatal("integer divide by zero"))
    else
      var target := NewPrimaryId(s.ballot.proposed, |env.allPorts|);
      var dvc := DoViewChangeArgs(s.ballot.proposed, s.log, s.viewNum, s.opNum, s.commitNum, env.id);
      if target == env.id then DoViewChangeStep(s, dvc, env)
      else Effect(s, [Messages.SendDoViewChange(PortOf(env.allPorts, target), dvc)], Pending)
  }

  /** The StartViewChange count: a larger proposal restarts it and is re-broadcast; then it goes up by one. */
  function CountStartViewChange(s: ViewState, args: StartViewChangeArgs, env: Env): (ViewState, seq<Outbound>)
  {
    var adopt := args.viewNum > s.ballot.proposed;
    var b1 := if adopt then s.ballot.(received := 0, proposed := args.viewNum) else s.ballot;
    (s.(ballot := b1.(received := b1.received + 1)),
     [SignalViewChange] + (if adopt then StartViewChanges(env.others, args.viewNum, env.id) else []))
  }

  /** StartViewChange received. */
  function StartViewChangeStep(s: ViewState, args: StartViewChangeArgs, env: Env): Effect
  {
    if args.viewNum <= s.viewNum then Effect(s, [], Stale)
    else
      var c := CountStartViewChange(s, args, env);
      if c.0.ballot.received >= Subquorum(env) && !c.0.ballot.sent then
        var e := SendDoViewChangeStep(c.0, env);
        Effect(e.state.(ballot := e.state.ballot.(sent := true)), c.1 + e.out, e.result)
      else Effect(c.0, c.1, Pending)
  }

  /** StartView received: only the view number is adopted. */
  function StartViewStep(s: ViewState, args: StartViewArgs): Effect
  {
    Effect(s.(viewNum := args.viewNum), [ViewChangeDone(BackupMode)], Installed)
  }

  /** The ballot reset; the proposed view is set back to the current view only when asked. */
  function ClearStep(s: ViewState, clearProposedView: bool): ViewState
  {
    s.(ballot := BallotState(0, if clearProposedView then s.viewNum else s.ballot.proposed, [], false))
  }

  /** A view change started by this replica: propose one view further and tell all others. */
  function InitiateStep(s: ViewState, env: Env): Effect
  {
    var proposed := s.ballot.proposed + 1;
    Effect(s.(ballot := s.ballot.(proposed := proposed)), StartViewChanges(env.others, proposed, env.id), Pending)
  }

  // ---------------------------------------------------------------------------
  // What the handlers promise.
  // ---------------------------------------------------------------------------

  /** A stale view number changes nothing and sends nothing, for both ballot messages. */
  lemma StaleMessagesAreIgnored(s: ViewState, svc: StartViewChangeArgs, dvc: DoViewChangeArgs, env: Env)
    ensures svc.viewNum <= s.viewNum ==> StartViewChangeStep(s, svc, env) == Effect(s, [], Stale)
    ensures dvc.viewNum <= s.viewNum ==> DoViewChangeStep(s, dvc, env) == Effect(s, [], Stale)
  {
  }

  /** A DoViewChange never lowers the view; the new view is installed only on exactly a subquorum of agreeing messages. */
  lemma DoViewChangeInstall(s: ViewState, args: DoViewChangeArgs, env: Env)
    ensures DoViewChangeStep(s, args, env).state.viewNum >= s.viewNum
    ensures var e := DoViewChangeStep(s, args, env);
      e.result == Installed ==>
        var collected := s.ballot.collected + [args];
        && |collected| == Subquorum(env) && AllSameView(collected)
        && e.state.ballot == s.ballot.(collected := collected)
        && e.state.viewNum == args.viewNum
        && PickLogIndex(collected).Some?
        && e.state.log == collected[PickLogIndex(collected).value].log
        && e.state.log != [] && e.state.opNum == e.state.log[|e.state.log| - 1].opNum
        && e.state.commitNum == MaxCommit(collected)
        && e.out == StartViews(env.others, StartViewArgs(e.state.viewNum, e.state.log, e.state.opNum, e.state.commitNum))
                    + [ViewChangeDone(PrimaryMode)]
    ensures var e := DoViewChangeStep(s, args, env);
      args.viewNum > s.viewNum && |s.ballot.collected| + 1 != Subquorum(env) ==>
        e == Effect(s.(ballot := s.ballot.(collected := s.ballot.collected + [args])), [], Pending)
    ensures var collected := s.ballot.collected + [args];
      args.viewNum > s.viewNum && |collected| == Subquorum(env) && !AllSameView(collected) ==>
        DoViewChangeStep(s, args, env).result.Fatal?
  {
  }

  /** The installed log comes from a message with the largest latest normal view; the commit number bounds all collected ones. */
  lemma InstalledStateIsMostAdvanced(s: ViewState, args: DoViewChangeArgs, env: Env)
    requires DoViewChangeStep(s, args, env).result == Installed
    ensures var collected := s.ballot.collected + [args];
      var e := DoViewChangeStep(s, args, env);
      && (exists k :: 0 <= k < |collected| && e.state.log == collected[k].log
            && forall i :: 0 <= i < |collected| ==> collected[i].latestNormalViewNum <= collected[k].latestNormalViewNum)
      && e.state.commitNum >= 0
      && forall i :: 0 <= i < |collected| ==> collected[i].commitNum <= e.state.commitNum
  {
    var collected := s.ballot.collected + [args];
    DoViewChangeInstall(s, args, env);
    PickLogIndexIsFirstMaximum(collected);
    MaxCommitIsMaximum(collected);
    var k := PickLogIndex(collected).value;
    assert DoViewChangeStep(s, args, env).state.log == collected[k].log;
  }

  /** A StartViewChange never lowers the view, also when it installs a view locally. */
  lemma StartViewChangeKeepsViewMonotone(s: ViewState, args: StartViewChangeArgs, env: Env)
    ensures StartViewChangeStep(s, args, env).state.viewNum >= s.viewNum
  {
    if args.viewNum > s.viewNum {
      SendDoViewChangeKeepsBallotAndView(CountStartViewChange(s, args, env).0, env);
    }
  }

  /**
   * A larger proposal resets the count, is adopted and re-broadcast to all
   * others; then the count goes up by one. A proposal no larger than the
   * tracked one only counts.
   */
  lemma StartViewChangeBallot(s: ViewState, args: StartViewChangeArgs, env: Env)
    requires args.viewNum > s.viewNum
    ensures var e := StartViewChangeStep(s, args, env);
      && e.out[0] == SignalViewChange
      && (args.viewNum > s.ballot.proposed ==>
            && e.state.ballot.proposed == args.viewNum && e.state.ballot.received == 1
            && e.out[1..1 + |env.others|] == StartViewChanges(env.others, args.viewNum, env.id))
      && (args.viewNum <= s.ballot.proposed ==>
            e.state.ballot.proposed == s.ballot.proposed && e.state.ballot.received == s.ballot.received + 1)
  {
    var e := StartViewChangeStep(s, args, env);
    var c := CountStartViewChange(s, args, env);
    if c.0.ballot.received >= Subquorum(env) && !c.0.ballot.sent {
      SendDoViewChangeKeepsBallotAndView(c.0, env);
      assert e.out == c.1 + SendDoViewChangeStep(c.0, env).out;
      if args.viewNum > s.ballot.proposed {
        assert e.out[1..1 + |env.others|] == c.1[1..];
      }
    }
  }

  /** Sending a DoViewChange leaves the StartViewChange count, the proposal and the sent flag alone, and never lowers the view. */
  lemma SendDoViewChangeKeepsBallotAndView(s: ViewState, env: Env)
    ensures var e := SendDoViewChangeStep(s, env);
      && e.state.ballot.received == s.ballot.received && e.state.ballot.proposed == s.ballot.proposed
      && e.state.ballot.sent == s.ballot.sent
      && e.state.viewNum >= s.viewNum
  {
    if |env.allPorts| > 0 {
      var dvc := DoViewChangeArgs(s.ballot.proposed, s.log, s.viewNum, s.opNum, s.commitNum, env.id);
      if NewPrimaryId(s.ballot.proposed, |env.allPorts|) == env.id {
        DoViewChangeKeepsCounters(s, dvc, env);
      }
    }
  }

  /** A DoViewChange, wherever it ends, only touches the collection of the ballot and never lowers the view. */
  lemma DoViewChangeKeepsCounters(s: ViewState, args: DoViewChangeArgs, env: Env)
    ensures var e := DoViewChangeStep(s, args, env);
      && e.state.ballot.received == s.ballot.received && e.state.ballot.proposed == s.ballot.proposed
      && e.state.ballot.sent == s.ballot.sent
      && e.state.viewNum >= s.viewNum
  {
  }

  /**
   * The DoViewChange is sent at most once per ballot, and only once the count
   * reaches the subquorum; afterwards the sent flag is set.
   */
  lemma DoViewChangeSentOnce(s: ViewState, args: StartViewChangeArgs, env: Env)
    requires args.viewNum > s.viewNum
    ensures var e := StartViewChangeStep(s, args, env);
      && e.state.ballot.sent == (s.ballot.sent || e.state.ballot.received >= Subquorum(env))
      && (s.ballot.sent || e.state.ballot.received < Subquorum(env) ==>
            e.result == Pending && forall i :: 0 <= i < |e.out| ==> !e.out[i].SendDoViewChange?)
  {
    var c := CountStartViewChange(s, args, env);
    if c.0.ballot.received >= Subquorum(env) && !c.0.ballot.sent {
      SendDoViewChangeKeepsBallotAndView(c.0, env);
    }
  }

  /**
   * When due and addressed to another replica, the DoViewChange goes to the
   * port of `proposed mod n` and carries the replica's log, its current view
   * as latest normal view, its op and commit numbers.
   */
  lemma DoViewChangeTarget(s: ViewState, args: StartViewChangeArgs, env: Env)
    requires args.viewNum > s.viewNum && |env.allPorts| > 0
    requires var e := StartViewChangeStep(s, args, env);
      !s.ballot.sent && e.state.ballot.received >= Subquorum(env)
    requires NewPrimaryId(StartViewChangeStep(s, args, env).state.ballot.proposed, |env.allPorts|) != env.id
    ensures var e := StartViewChangeStep(s, args, env);
      var p := e.state.ballot.proposed;
      && e.out[|e.out| - 1] == Messages.SendDoViewChange(PortOf(env.allPorts, NewPrimaryId(p, |env.allPorts|)),
                                              DoViewChangeArgs(p, s.log, s.viewNum, s.opNum, s.commitNum, env.id))
      && e.state.viewNum == s.viewNum && e.state.log == s.log && e.result == Pending
  {
    SendDoViewChangeKeepsBallotAndView(CountStartViewChange(s, args, env).0, env);
  }

  /** StartView adopts only the view number and reports completion as a backup. */
  lemma StartViewAdoptsOnlyView(s: ViewState, args: StartViewArgs)
    ensures var e := StartViewStep(s, args);
      && e.state == s.(viewNum := args.viewNum)
      && e.state.log == s.log && e.state.opNum == s.opNum && e.state.commitNum == s.commitNum
      && e.out == [ViewChangeDone(BackupMode)]
  {
  }

  /** StartView has no staleness check: an older view number lowers the replica's view. */
  lemma StartViewCanLowerView(s: ViewState, args: StartViewArgs)
    requires args.viewNum < s.viewNum
    ensures StartViewStep(s, args).state.viewNum < s.viewNum
  {
  }

  /** Clearing zeroes the count, empties the collection and the sent flag; the proposal follows the flag. */
  lemma ClearResetsBallot(s: ViewState, clearProposedView: bool)
    ensures var b := ClearStep(s, clearProposedView).ballot;
      && b.received == 0 && b.collected == [] && !b.sent
      && b.proposed == (if clearProposedView then s.viewNum else s.ballot.proposed)
    ensures ClearStep(s, clearProposedView).(ballot := s.ballot) == s
  {
  }

  /** Initiating raises the proposal by exactly one and broadcasts it to every other replica. */
  lemma InitiateRaisesProposal(s: ViewState, env: Env)
    ensures var e := InitiateStep(s, env);
      && e.state.ballot.proposed == s.ballot.proposed + 1
      && e.state.(ballot := s.ballot) == s
      && e.state.ballot.(proposed := s.ballot.proposed) == s.ballot
      && |e.out| == |env.others|
      && forall i :: 0 <= i < |env.others| ==>
           e.out[i] == SendStartViewChange(env.others[i], StartViewChangeArgs(s.ballot.proposed + 1, env.id))
  {
  }

  // ---------------------------------------------------------------------------
  // The handlers on the replica state.
  // ---------------------------------------------------------------------------

  class Ballot {
    var startViewChangeReceived: int
    var currentProposedViewNum: int
    var doViewChangeArgsReceived: seq<DoViewChangeArgs>
    var sendDoViewChangeExecuted: bool

    constructor New()
      ensures startViewChangeReceived == 0 && currentProposedViewNum == 0
      ensures doViewChangeArgsReceived == [] && !sendDoViewChangeExecuted
    {
      startViewChangeReceived := 0;
      currentProposedViewNum := 0;
      doViewChangeArgsReceived := [];
      sendDoViewChangeExecuted := false;
    }
  }

  ghost function BallotOf(b: Ballot): BallotState
    reads b
  {
    BallotState(b.startViewChangeReceived, b.currentProposedViewNum, b.doViewChangeArgsReceived, b.sendDoViewChangeExecuted)
  }

  ghost function ViewOf(g: Globals.Globals, b: Ballot): ViewState
    reads g, g.opLog, b
  {
    ViewState(g.viewNum, g.opNum, g.commitNum, g.opLog.requests, BallotOf(b))
  }

  /** `order` is one run of the iteration over the replica's port map. */
  ghost predicate OrderOk(g: Globals.Globals, order: seq<int>)
    reads g
  {
    Globals.Enumerates(order, g.allPorts.Keys)
  }

  ghost function EnvOf(g: Globals.Globals, order: seq<int>): Env
    reads g
    requires OrderOk(g, order)
  {
    Env(g.id, g.allPorts, Globals.OtherPorts(g.allPorts, g.port, order))
  }

  /** The broadcasts of the handlers reach every other replica's port and never the replica's own. */
  lemma EnvOthersAreEveryOtherReplica(g: Globals.Globals, order: seq<int>)
    requires OrderOk(g, order)
    ensures forall p :: p in EnvOf(g, order).others <==> p != g.port && p in g.allPorts.Values
  {
    Globals.OtherPortsAreEveryOther(g.allPorts, g.port, order);
  }

  /** The DoViewChange handler (runDoViewChange). */
  method RunDoViewChange(g: Globals.Globals, b: Ballot, args: DoViewChangeArgs, order: seq<int>)
    returns (out: seq<Outbound>, r: ViewResult)
    requires OrderOk(g, order)
    modifies g`viewNum, g`opNum, g`commitNum, g`opLog, b`doViewChangeArgsReceived
    ensures Effect(ViewOf(g, b), out, r) == DoViewChangeStep(old(ViewOf(g, b)), args, EnvOf(g, order))
    ensures r == Installed ==> fresh(g.opLog)
  {
    if args.viewNum <= g.viewNum {
      return [], Stale;
    }
    b.doViewChangeArgsReceived := b.doViewChangeArgsReceived + [args];
    if |b.doViewChangeArgsReceived| != |g.allPorts| / 2 {
      return [], Pending;
    }
    var same := SameViewNums(b.doViewChangeArgsReceived);
    if !same {
      return [], Fatal("DoViewChange messages with different view nums");
    }
    out, r := InstallView(g, b, args.viewNum, order);
  }

  /** Steps 1-6 of runDoViewChange, once a subquorum of agreeing messages is collected. */
  method InstallView(g: Globals.Globals, b: Ballot, viewNum: int, order: seq<int>)
    returns (out: seq<Outbound>, r: ViewResult)
    requires OrderOk(g, order)
    modifies g`viewNum, g`opNum, g`commitNum, g`opLog
    ensures Effect(ViewOf(g, b), out, r) == InstallStep(old(ViewOf(g, b)), viewNum, EnvOf(g, order))
    ensures r == Installed ==> fresh(g.opLog)
  {
    // 1. The new view number.
    g.viewNum := viewNum;

    // 2. Adopt the log of the message with the largest latest normal view.
    var pick := MaxNormalViewLog(b.doViewChangeArgsReceived);
    if pick.None? {
      return [], Fatal("no log to adopt");
    }
    g.opLog := new OpLog.OpRequestLog.FromRecords(b.doViewChangeArgsReceived[pick.value].log);

    // 3. The op number of the adopted log's last record.
    var last, opNum := g.opLog.ReadLast();
    if last.EmptyLog? {
      return [], Fatal("failed to read the last entry in the new log");
    }
    g.opNum := opNum;

    // 4. The largest collected commit number.
    g.commitNum := MaxCommitNum(b.doViewChangeArgsReceived);

    // 5. StartView to all others; 6. report completion as primary.
    var others := g.AllOtherPorts(order);
    out := StartViews(others, StartViewArgs(g.viewNum, g.opLog.requests, g.opNum, g.commitNum)) + [ViewChangeDone(PrimaryMode)];
    r := Installed;
  }

  /** The DoViewChange dispatch (sendDoViewChange): locally when this replica is the new primary. */
  method SendDoViewChange(g: Globals.Globals, b: Ballot, order: seq<int>)
    returns (out: seq<Outbound>, r: ViewResult)
    requires OrderOk(g, order)
    modifies g`viewNum, g`opNum, g`commitNum, g`opLog, b`doViewChangeArgsReceived
    ensures Effect(ViewOf(g, b), out, r) == SendDoViewChangeStep(old(ViewOf(g, b)), EnvOf(g, order))
  {
    if |g.allPorts| == 0 {
      return [], Fatal("integer divide by zero");
    }
    var newPrimaryId := NewPrimaryId(b.currentProposedViewNum, |g.allPorts|);
    var req := DoViewChangeArgs(b.currentProposedViewNum, g.opLog.requests, g.viewNum, g.opNum, g.commitNum, g.id);
    if newPrimaryId == g.id {
      out, r := RunDoViewChange(g, b, req, order);
      return;
    }
    out := [Messages.SendDoViewChange(PortOf(g.allPorts, newPrimaryId), req)];
    r := Pending;
  }

  /** The signal, the adoption of a larger proposal with its broadcast, and the count. */
  method CountProposal(g: Globals.Globals, b: Ballot, args: StartViewChangeArgs, order: seq<int>)
    returns (out: seq<Outbound>)
    requires OrderOk(g, order)
    modifies b`startViewChangeReceived, b`currentProposedViewNum
    ensures ViewOf(g, b) == CountStartViewChange(old(ViewOf(g, b)), args, EnvOf(g, order)).0
    ensures out == CountStartViewChange(old(ViewOf(g, b)), args, EnvOf(g, order)).1
  {
    // Signal the supervisor to enter view change.
    out := [SignalViewChange];

    // Advocate a larger proposal instead of the tracked one.
    if args.viewNum > b.currentProposedViewNum {
      b.startViewChangeReceived := 0;
      b.currentProposedViewNum := args.viewNum;
      var others := g.AllOtherPorts(order);
      out := out + StartViewChanges(others, args.viewNum, g.id);
    }
    b.startViewChangeReceived := b.startViewChangeReceived + 1;
  }

  /** The StartViewChange handler. */
  method StartViewChange(g: Globals.Globals, b: Ballot, args: StartViewChangeArgs, order: seq<int>)
    returns (out: seq<Outbound>, r: ViewResult)
    requires OrderOk(g, order)
    modifies g`viewNum, g`opNum, g`commitNum, g`opLog, b
    ensures Effect(ViewOf(g, b), out, r) == StartViewChangeStep(old(ViewOf(g, b)), args, EnvOf(g, order))
  {
    if args.viewNum <= g.viewNum {
      return [], Stale;
    }
    out := CountProposal(g, b, args, order);

    // DoViewChange once enough StartViewChanges arrived and none was sent yet.
    if b.startViewChangeReceived >= |g.allPorts| / 2 && !b.sendDoViewChangeExecuted {
      var more;
      more, r := SendDoViewChange(g, b, order);
      out := out + more;
      b.sendDoViewChangeExecuted := true;
    } else {
      r := Pending;
    }
  }

  /** The StartView handler. */
  method StartView(g: Globals.Globals, args: StartViewArgs) returns (out: seq<Outbound>)
    modifies g`viewNum
    ensures g.viewNum == args.viewNum
    ensures out == [ViewChangeDone(BackupMode)]
  {
    out := [ViewChangeDone(BackupMode)];
    g.viewNum := args.viewNum;
  }

  /** ClearViewChangeStates. */
  method ClearViewChangeStates(g: Globals.Globals, b: Ballot, clearProposedView: bool)
    modifies b
    ensures BallotOf(b) == ClearStep(ViewOf(g, b), clearProposedView).ballot
    ensures ViewOf(g, b) == ClearStep(old(ViewOf(g, b)), clearProposedView)
  {
    b.startViewChangeReceived := 0;
    if clearProposedView {
      b.currentProposedViewNum := g.viewNum;
    }
    b.doViewChangeArgsReceived := [];
    b.sendDoViewChangeExecuted := false;
  }

  /** InitiateStartViewChange. */
  method InitiateStartViewChange(g: Globals.Globals, b: Ballot, order: seq<int>) returns (out: seq<Outbound>)
    requires OrderOk(g, order)
    modifies b`currentProposedViewNum
    ensures Effect(ViewOf(g, b), out, Pending) == InitiateStep(old(ViewOf(g, b)), EnvOf(g, order))
  {
    b.currentProposedViewNum := b.currentProposedViewNum + 1;
    var others := g.AllOtherPorts(order);
    out := StartViewChanges(others, b.currentProposedViewNum, g.id);
  }
}
