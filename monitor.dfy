/**
 * The mode supervisor: the initial mode of a starting replica, and the loop
 * that runs the current mode until an event moves it to the next. Each turn
 * of the loop is split into `Enter`, the part of the mode's case that runs
 * before it blocks, and `WakeUp`, the branch of its wait that an event
 * selects. Timers are events; starting the primary or backup goroutines is
 * reported, not run.
 */
module Monitor {
  import opened Messages
  import OpLog
  import Table
  import Globals
  import View
  import Primary
  import Backup

  /** Seconds a backup waits without a Prepare before it starts a view change. */
  const BackupTimeoutSeconds: nat := 5

  /** Seconds a view change may take before it is started over. */
  const ViewChangeTimeoutSeconds: nat := 10

  /** A crash marker left by an earlier run forces recovery; otherwise the configured mode stands. */
  function InitialMode(crashed: bool, configured: Mode): (m: Mode)
    ensures crashed ==> m == RecoveryMode
    ensures !crashed ==> m == configured
  {
    if crashed then RecoveryMode else configured
  }

  /** The start of StartVrgo: the initial mode, then a fresh empty log and client table. */
  method Start(g: Globals.Globals, crashed: bool)
    modifies g`mode, g`opLog, g`clientTable
    ensures g.mode == InitialMode(crashed, old(g.mode))
    ensures fresh(g.opLog) && g.opLog.requests == []
    ensures fresh(g.clientTable) && g.clientTable.State() == Table.EmptyTable()
    ensures g.Valid()
  {
    if crashed {
      g.mode := RecoveryMode;
    }
    g.clientTable := new Table.ClientTable.New();
    g.opLog := new OpLog.OpRequestLog.New();
  }

  /** What wakes the supervisor. */
  datatype Event =
    | ViewChangeSignal      // a StartViewChange with a larger view arrived
    | TimerExpired          // the backup's view timer fired
    | Done(mode: Mode)      // the view change completed in this role
    | ViewChangeTimeout     // the view change did not complete in time

  /**
   * The mode an event moves to, for the modes that wait on it; None when the
   * mode does not wait for that event (or does not wait at all).
   */
  function Wake(mode: Mode, ev: Event): Option<Mode>
  {
    if mode == PrimaryMode then
      (if ev == ViewChangeSignal then Some(ViewChangeMode) else None)
    else if mode == BackupMode then
      (if ev == TimerExpired then Some(ViewChangeInitMode)
       else if ev == ViewChangeSignal then Some(ViewChangeMode)
       else None)
    else if mode == ViewChangeMode then
      (match ev
       case Done(m) => Some(m)
       case ViewChangeTimeout => Some(ViewChangeInitMode)
       case _ => None)
    else None
  }

  /** Every transition of the supervisor's waits, in both directions. */
  lemma WakeTransitions(mode: Mode, ev: Event, next: Mode)
    ensures Wake(mode, ev) == Some(next) <==>
      || (mode == PrimaryMode && ev == ViewChangeSignal && next == ViewChangeMode)
      || (mode == BackupMode && ev == TimerExpired && next == ViewChangeInitMode)
      || (mode == BackupMode && ev == ViewChangeSignal && next == ViewChangeMode)
      || (mode == ViewChangeMode && ev == Done(next))
      || (mode == ViewChangeMode && ev == ViewChangeTimeout && next == ViewChangeInitMode)
  {
  }

  /** A replica takes up a role (primary or backup) only when a view change reports it done. */
  lemma RoleOnlyAfterViewChange(mode: Mode, ev: Event)
    requires Wake(mode, ev) == Some(PrimaryMode) || Wake(mode, ev) == Some(BackupMode)
    ensures mode == ViewChangeMode && ev.Done?
  {
  }

  /** Recovery (like any unknown mode and viewchange-init) waits for nothing: no event moves it. */
  lemma RecoveryIsTerminal(ev: Event)
    ensures Wake(RecoveryMode, ev) == None
    ensures Wake(ViewChangeInitMode, ev) == None
  {
  }

  /** What entering a mode did before its wait. */
  datatype Entry =
    | StartedPrimary(backups: seq<Globals.Client>) // ballot cleared, queue replaced, backups dialled, pipeline started
    | StartedBackup(viewTimerSeconds: nat)         // ballot cleared, queue and view timer replaced, handler started
    | Exited(port: int)                            // a backup port could not be dialled: the process exits
    | Initiated(out: seq<Outbound>)                // view change proposed, now in view change
    | AwaitingViewChange(timeoutSeconds: nat)      // view change timer armed
    | NoCase                                       // no case for this mode

  /**
   * The non-blocking part of the current mode's case. `rq` and `pq` are the
   * primary's and the backup's queues, `backups` the primary's backup
   * connections so far, and `dials` what dialling each of `ports` gives.
   */
  method Enter(
    g: Globals.Globals, b: View.Ballot, order: seq<int>,
    rq: Primary.RequestQueue, pq: Backup.PrepareQueue,
    backups: seq<Globals.Client>, ports: seq<int>, dials: seq<Globals.DialResult>)
    returns (entry: Entry)
    requires View.OrderOk(g, order) && |dials| == |ports|
    modifies g`mode, b, rq`items, pq`items, pq`viewTimerSeconds, pq`timerResets
    ensures old(g.mode) == PrimaryMode ==>
      && entry == (match Primary.DialAll(backups, ports, dials)
                   case Started(bs) => StartedPrimary(bs)
                   case DialFatal(p) => Exited(p))
      && rq.items == [] && unchanged(pq)
    ensures old(g.mode) == BackupMode ==>
      && entry == StartedBackup(BackupTimeoutSeconds)
      && pq.items == [] && pq.viewTimerSeconds == BackupTimeoutSeconds && pq.timerResets == 0
      && pq.nextHandle == old(pq.nextHandle) && unchanged(rq)
    ensures old(g.mode) == PrimaryMode || old(g.mode) == BackupMode ==>
      View.ViewOf(g, b) == View.ClearStep(old(View.ViewOf(g, b)), true) && g.mode == old(g.mode)
    ensures old(g.mode) == ViewChangeInitMode ==>
      && entry.Initiated?
      && View.Effect(View.ViewOf(g, b), entry.out, View.Pending) == View.InitiateStep(old(View.ViewOf(g, b)), View.EnvOf(g, order))
      && g.mode == ViewChangeMode
    ensures old(g.mode) == ViewChangeMode ==>
      entry == AwaitingViewChange(ViewChangeTimeoutSeconds) && View.ViewOf(g, b) == old(View.ViewOf(g, b)) && g.mode == old(g.mode)
    ensures old(g.mode) !in {PrimaryMode, BackupMode, ViewChangeInitMode, ViewChangeMode} ==>
      entry == NoCase && View.ViewOf(g, b) == old(View.ViewOf(g, b)) && g.mode == old(g.mode)
    ensures old(g.mode) != PrimaryMode && old(g.mode) != BackupMode ==> unchanged(rq, pq)
  {
    if g.mode == PrimaryMode {
      View.ClearViewChangeStates(g, b, true);
      var r := Primary.Init(rq, backups, ports, dials);
      entry := match r
        case Started(bs) => StartedPrimary(bs)
        case DialFatal(p) => Exited(p);
    } else if g.mode == BackupMode {
      View.ClearViewChangeStates(g, b, true);
      Backup.Init(pq, BackupTimeoutSeconds);
      entry := StartedBackup(BackupTimeoutSeconds);
    } else if g.mode == ViewChangeInitMode {
      var out := View.InitiateStartViewChange(g, b, order);
      g.mode := ViewChangeMode;
      entry := Initiated(out);
    } else if g.mode == ViewChangeMode {
      entry := AwaitingViewChange(ViewChangeTimeoutSeconds);
    } else {
      entry := NoCase;
    }
  }

  /**
   * The branch of the current mode's wait that `ev` selects. Leaving primary
   * or backup cancels the mode's context; a view-change timeout clears the
   * ballot but keeps the proposed view.
   */
  method WakeUp(g: Globals.Globals, b: View.Ballot, ev: Event) returns (next: Option<Mode>, cancelContext: bool)
    modifies g`mode, b
    ensures next == Wake(old(g.mode), ev)
    ensures g.mode == if next.Some? then next.value else old(g.mode)
    ensures cancelContext <==> (old(g.mode) == PrimaryMode || old(g.mode) == BackupMode) && next.Some?
    ensures old(g.mode) == ViewChangeMode && ev == ViewChangeTimeout ==>
      View.ViewOf(g, b) == View.ClearStep(old(View.ViewOf(g, b)), false)
    ensures !(old(g.mode) == ViewChangeMode && ev == ViewChangeTimeout) ==>
      View.BallotOf(b) == old(View.BallotOf(b))
  {
    next, cancelContext := None, false;
    if g.mode == PrimaryMode {
      if ev == ViewChangeSignal {
        cancelContext := true;
        next := Some(ViewChangeMode);
      }
    } else if g.mode == BackupMode {
      if ev == TimerExpired {
        cancelContext := true;
        next := Some(ViewChangeInitMode);
      } else if ev == ViewChangeSignal {
        cancelContext := true;
        next := Some(ViewChangeMode);
      }
    } else if g.mode == ViewChangeMode {
      match ev
      case Done(m) =>
        next := Some(m);
      case ViewChangeTimeout =>
        View.ClearViewChangeStates(g, b, false);
        next := Some(ViewChangeInitMode);
      case _ =>
    }
    if next.Some? {
      g.mode := next.value;
    }
  }

  /** A backup that hears nothing ends up proposing the next view: timer, then viewchange-init, whose entry raises the proposal. */
  lemma SilentBackupProposesNextView(s: View.ViewState, env: View.Env)
    ensures Wake(BackupMode, TimerExpired) == Some(ViewChangeInitMode)
    ensures View.InitiateStep(View.ClearStep(s, true), env).state.ballot.proposed == s.viewNum + 1
  {
  }
}
