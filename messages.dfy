/**
 * Message and record types shared by every component of the replica:
 * the client request and response, the log record, and the arguments of
 * the Prepare, StartViewChange, DoViewChange, StartView and Recover calls.
 * Only the fields that the replica logic reads or writes are kept.
 */
module Messages {

  datatype Option<T> = None | Some(value: T)

  /** A replica's mode is a plain string in the system; these are the five it acts on. */
  type Mode = string

  const PrimaryMode: Mode := "primary"
  const BackupMode: Mode := "backup"
  const ViewChangeMode: Mode := "viewchange"
  const ViewChangeInitMode: Mode := "viewchange-init"
  const RecoveryMode: Mode := "recovery"

  /** A client request: the operation's message, the client's id and its request number. */
  datatype Request = Request(op: string, clientId: int, requestNum: int)

  /** A reply to a client; `opResult` is the operation result's message, `err` the redirect hint. */
  datatype Response = Response(viewNum: int, requestNum: int, opResult: string, err: string)

  /** One record of the operation log. */
  datatype OpRequest = OpRequest(request: Request, opNum: int)

  datatype PrepareArgs = PrepareArgs(viewNum: int, request: Request, opNum: int, commitNum: int)

  datatype PrepareOk = PrepareOk(viewNum: int, opNum: int, id: int)

  datatype StartViewChangeArgs = StartViewChangeArgs(viewNum: int, id: int)

  datatype DoViewChangeArgs = DoViewChangeArgs(
    viewNum: int,
    log: seq<OpRequest>,
    latestNormalViewNum: int,
    opNum: int,
    commitNum: int,
    id: int)

  datatype StartViewArgs = StartViewArgs(viewNum: int, log: seq<OpRequest>, opNum: int, commitNum: int)

  datatype RecoveryRequest = RecoveryRequest(id: int, nonce: int)

  datatype RecoveryResponse = RecoveryResponse(
    viewNum: int,
    nonce: int,
    log: seq<OpRequest>,
    opNum: int,
    commitNum: int,
    id: int,
    mode: Mode)

  /** The response a client receives when the replica is not the primary. */
  function NotPrimaryReply(viewNum: int, err: string): Response
  {
    Response(viewNum, 0, "", err)
  }

  /** The provisional table entry written before an operation is replicated: an empty result. */
  function ProvisionalReply(viewNum: int, req: Request): Response
  {
    Response(viewNum, req.requestNum, "", "")
  }

  /** Something a replica step hands to the transport or to the mode supervisor. */
  datatype Outbound =
    | SendStartViewChange(port: int, args: StartViewChangeArgs)
    | SendDoViewChange(port: int, dvc: DoViewChangeArgs)
    | SendStartView(port: int, sv: StartViewArgs)
    | SignalViewChange
    | ViewChangeDone(mode: Mode)
}
