/** TLS scan events (internal/persistence/handlers/scan_events.go) and the row writer below them
    (internal/persistence/storage/postgres.go), one handler call at a time. */
module TlsEvents {
  import opened Common
  import opened ScanState
  import opened UsageLedger

  /** The result columns that a plan-limit rejection clears. */
  datatype Posture = NoPosture | UnknownPosture | Measured(text: string)

  /** A tls_scan_results row; handshake stands for the result columns that a rejection leaves alone. */
  datatype Row = Row(
    user: Option<Uuid>, url: string, isDefault: bool, status: State, error: string,
    posture: Posture, handshake: string, createdAt: nat, deleted: bool)

  type Rows = map<Uuid, Row>

  datatype TlsResult = TlsResult(url: string, isDefault: bool, posture: Posture, handshake: string)

  datatype Plan = Plan(limit: int, unlimited: bool)

  /** user 0 is the nil user of the default catalogue. The faults are the ones that the handlers do not
      undo: a failed status read, and a failed replacement after the new row is in. A plan of None is a
      failed lookup and a result of None is undecodable. */
  datatype Event =
    | Started(scan: Uuid, user: Uuid, url: string, replaceFails: bool, at: nat)
    | Completed(scan: Uuid, user: Uuid, endpoint: string, result: Option<TlsResult>, plan: Option<Plan>, statusRead: bool, at: nat)
    | Failed(scan: Uuid, user: Uuid, url: string, error: string, statusRead: bool, at: nat)
    | OwnerDelete(scan: Uuid, user: Uuid)
    | Reserve(scan: Uuid, credit: Credit)

  /** Ignored: not acted on. Broken: returned an error. Stored: committed, and announced with this success. */
  datatype Reply = Ignored | Broken | Stored(success: bool)

  datatype Database = Tables(rows: Rows, credits: Credits)

  const PLAN_LIMIT_EXCEEDED := "PLAN_LIMIT_EXCEEDED"

  function OwnerOf(user: Uuid): Option<Uuid> {
    if user == NIL_UUID then None else Some(user)
  }

  predicate Live(rows: Rows, scan: Uuid) {
    scan in rows && !rows[scan].deleted
  }

  function StatusOf(rows: Rows, scan: Uuid): State {
    if Live(rows, scan) then rows[scan].status else Blank
  }

  /* ---- The writer ---- */

  function StartedRow(user: Option<Uuid>, url: string, at: nat): Row {
    Row(user, url, user.None?, RUNNING, "", NoPosture, "", at, false)
  }

  /** Soft-deletes the other live nil-user rows of a URL. */
  function Replaced(rows: Rows, scan: Uuid, url: string): Rows {
    map s | s in rows ::
      if rows[s].user.None? && rows[s].url == url && s != scan then rows[s].(deleted := true) else rows[s]
  }

  function CompletedRow(user: Option<Uuid>, result: TlsResult, createdAt: nat): Row {
    Row(user, result.url, result.isDefault, SUCCESS, "", result.posture, result.handshake, createdAt, false)
  }

  function RejectedRow(row: Row): Row {
    row.(status := FAILED, error := PLAN_LIMIT_EXCEEDED, posture := NoPosture)
  }

  function FailedRow(row: Row, error: string): Row {
    row.(status := FAILED, error := error)
  }

  /** The owner's soft delete; catalogue rows have no owner. */
  function Dropped(rows: Rows, scan: Uuid, user: Uuid): Rows {
    if Live(rows, scan) && rows[scan].user == Some(user) && !rows[scan].isDefault
    then rows[scan := rows[scan].(deleted := true)] else rows
  }

  class TlsWriter {
    var rows: Rows

    constructor ()
      ensures rows == map[]
    {
      rows := map[];
    }

    method GetStatus(scan: Uuid) returns (status: State)
      ensures status == StatusOf(rows, scan)
    {
      status := if Live(rows, scan) then rows[scan].status else Blank;
    }

    /** INSERT; refused when the id is taken, by a live or by a soft-deleted row. */
    method Create(scan: Uuid, row: Row) returns (ok: bool)
      modifies this
      ensures ok <==> scan !in old(rows)
      ensures rows == if ok then old(rows)[scan := row] else old(rows)
    {
      ok := scan !in rows;
      if ok {
        rows := rows[scan := row];
      }
    }

    method OnStarted(scan: Uuid, user: Option<Uuid>, url: string, replaceFails: bool, at: nat) returns (reply: Reply)
      modifies this
      ensures scan in old(rows) ==>
                && rows == old(rows)
                && reply == (if StatusOf(rows, scan) != Blank || (user.None? && rows[scan].deleted) then Ignored else Broken)
      ensures scan !in old(rows) ==>
                var added := old(rows)[scan := StartedRow(user, url, at)];
                && rows == (if user.None? && !replaceFails then Replaced(added, scan, url) else added)
                && reply == (if user.None? && replaceFails then Broken else Stored(true))
    {
      var current := GetStatus(scan);
      if current != Blank {
        return Ignored;
      }
      if user.None? && scan in rows && rows[scan].deleted {
        return Ignored;
      }
      var ok := Create(scan, StartedRow(user, url, at));
      if !ok {
        return Broken;
      }
      if user.None? {
        if replaceFails {
          return Broken;
        }
        rows := Replaced(rows, scan, url);
      }
      reply := Stored(true);
    }

    method OnCompleted(scan: Uuid, user: Option<Uuid>, result: TlsResult, at: nat) returns (ok: bool)
      modifies this
      ensures ok <==> scan !in old(rows) || Live(old(rows), scan)
      ensures rows == if !ok then old(rows) else
                      old(rows)[scan := CompletedRow(user, result, if scan in old(rows) then old(rows)[scan].createdAt else at)]
    {
      if Live(rows, scan) {
        rows := rows[scan := CompletedRow(user, result, rows[scan].createdAt)];
        return true;
      }
      ok := Create(scan, CompletedRow(user, result, at));
    }

    method OnPlanLimitExceeded(scan: Uuid, user: Option<Uuid>, url: string, at: nat) returns (ok: bool)
      modifies this
      ensures ok <==> scan !in old(rows) || Live(old(rows), scan)
      ensures rows == if !ok then old(rows)
                      else if scan in old(rows) then old(rows)[scan := RejectedRow(old(rows)[scan])]
                      else old(rows)[scan := Row(user, url, false, FAILED, PLAN_LIMIT_EXCEEDED, NoPosture, "", at, false)]
    {
      if Live(rows, scan) {
        rows := rows[scan := RejectedRow(rows[scan])];
        return true;
      }
      ok := Create(scan, Row(user, url, false, FAILED, PLAN_LIMIT_EXCEEDED, NoPosture, "", at, false));
    }

    method OnFailed(scan: Uuid, user: Option<Uuid>, url: string, error: string, at: nat) returns (ok: bool)
      modifies this
      ensures ok <==> scan !in old(rows) || Live(old(rows), scan)
      ensures rows == if !ok then old(rows)
                      else if scan in old(rows) then old(rows)[scan := FailedRow(old(rows)[scan], error)]
                      else old(rows)[scan := Row(user, url, false, FAILED, error, UnknownPosture, "", at, false)]
    {
      if Live(rows, scan) {
        rows := rows[scan := FailedRow(rows[scan], error)];
        return true;
      }
      ok := Create(scan, Row(user, url, false, FAILED, error, UnknownPosture, "", at, false));
    }

    method DeleteOwned(user: Uuid, scan: Uuid) returns (deleted: bool)
      modifies this
      ensures rows == Dropped(old(rows), scan, user)
      ensures deleted <==> rows != old(rows)
    {
      deleted := Live(rows, scan) && rows[scan].user == Some(user) && !rows[scan].isDefault;
      if deleted {
        rows := rows[scan := rows[scan].(deleted := true)];
        assert rows[scan] != old(rows)[scan];
      }
    }
  }

  /* ---- The handlers ---- */

  ghost function HandleStarted(st: Database, ev: Event): (Database, Reply)
    requires ev.Started?
  {
    var user := OwnerOf(ev.user);
    if ev.scan in st.rows then
      (st, if StatusOf(st.rows, ev.scan) != Blank || (user.None? && st.rows[ev.scan].deleted) then Ignored else Broken)
    else
      var added := st.rows[ev.scan := StartedRow(user, ev.url, ev.at)];
      if user.Some? then (st.(rows := added), Stored(true))
      else if ev.replaceFails then (st.(rows := added), Broken)
      else (st.(rows := Replaced(added, ev.scan, ev.url)), Stored(true))
  }

  /** What a completion writes once its transaction may start; a soft-deleted row refuses it. */
  ghost function CommitCompletion(st: Database, ev: Event, result: TlsResult): (Database, Reply)
    requires ev.Completed? && (ev.user != NIL_UUID ==> ev.plan.Some?)
  {
    var user := OwnerOf(ev.user);
    if ev.scan in st.rows && st.rows[ev.scan].deleted then (st, Broken)
    else
      var createdAt := if ev.scan in st.rows then st.rows[ev.scan].createdAt else ev.at;
      var done := st.rows[ev.scan := CompletedRow(user, result, createdAt)];
      if user.None? then (st.(rows := done), Stored(true))
      else if MayHold(st.credits, ev.user, ev.scan, Endpoint, ev.plan.value.limit, ev.plan.value.unlimited) then
        (Tables(done, Recorded(st.credits, ev.user, ev.scan, Endpoint)), Stored(true))
      else
        var url := if ev.endpoint != "" then ev.endpoint else result.url;
        var rejected :=
          if ev.scan in st.rows then RejectedRow(st.rows[ev.scan])
          else Row(user, url, false, FAILED, PLAN_LIMIT_EXCEEDED, NoPosture, "", ev.at, false);
        (st.(rows := st.rows[ev.scan := rejected]), Stored(false))
  }

  ghost function HandleCompleted(st: Database, ev: Event): (Database, Reply)
    requires ev.Completed?
  {
    var current := if ev.statusRead then StatusOf(st.rows, ev.scan) else Blank;
    if !ValidTransition(current, SUCCESS) then (st, Ignored)
    else if ev.result.None? then (st, Broken)
    else if ev.user != NIL_UUID && ev.plan.None? then (st, Broken)
    else CommitCompletion(st, ev, ev.result.value)
  }

  ghost function HandleFailed(st: Database, ev: Event): (Database, Reply)
    requires ev.Failed?
  {
    if !ev.statusRead then (st, Broken)
    else if !ValidTransition(StatusOf(st.rows, ev.scan), FAILED) then (st, Ignored)
    else if ev.scan in st.rows && st.rows[ev.scan].deleted then (st, Broken)
    else
      var failed :=
        if ev.scan in st.rows then FailedRow(st.rows[ev.scan], ev.error)
        else Row(OwnerOf(ev.user), ev.url, false, FAILED, ev.error, UnknownPosture, "", ev.at, false);
      (Tables(st.rows[ev.scan := failed], Released(st.credits, ev.scan)), Stored(false))
  }

  ghost function Handle(st: Database, ev: Event): (Database, Reply) {
    match ev
    case Started(_, _, _, _, _) => HandleStarted(st, ev)
    case Completed(_, _, _, _, _, _, _) => HandleCompleted(st, ev)
    case Failed(_, _, _, _, _, _) => HandleFailed(st, ev)
    case OwnerDelete(scan, user) =>
      (st.(rows := Dropped(st.rows, scan, user)), if Dropped(st.rows, scan, user) == st.rows then Ignored else Stored(true))
    case Reserve(scan, credit) =>
      (st.(credits := Recorded(st.credits, credit.user, scan, credit.kind)), Stored(true))
  }

  class ScanEventHandler {
    const writer: TlsWriter
    const ledger: Ledger

    constructor (writer: TlsWriter, ledger: Ledger)
      ensures this.writer == writer && this.ledger == ledger
    {
      this.writer, this.ledger := writer, ledger;
    }

    ghost function Contents(): Database
      reads writer, ledger
    {
      Tables(writer.rows, ledger.credits)
    }

    method ApplyStarted(ev: Event) returns (reply: Reply)
      requires ev.Started?
      modifies writer
      ensures (Contents(), reply) == Handle(old(Contents()), ev)
    {
      reply := writer.OnStarted(ev.scan, OwnerOf(ev.user), ev.url, ev.replaceFails, ev.at);
    }

    method ApplyCompleted(ev: Event) returns (reply: Reply)
      requires ev.Completed?
      modifies writer, ledger
      ensures (Contents(), reply) == Handle(old(Contents()), ev)
    {
      var current := Blank;
      if ev.statusRead {
        current := writer.GetStatus(ev.scan);
      }
      if !ValidTransition(current, SUCCESS) {
        return Ignored;
      }
      if ev.result.None? {
        return Broken;
      }
      var acquired, ok := Commit(ev, ev.result.value);
      reply := if ok then Stored(acquired) else Broken;
    }

    /** The transaction of a completion: a failed write takes the acquired credit back. */
    method Commit(ev: Event, result: TlsResult) returns (acquired: bool, ok: bool)
      requires ev.Completed?
      modifies writer, ledger
      ensures var expected := if ev.user != NIL_UUID && ev.plan.None? then (old(Contents()), Broken)
                              else CommitCompletion(old(Contents()), ev, result);
              (Contents(), if ok then Stored(acquired) else Broken) == expected
    {
      if ev.user == NIL_UUID {
        ok := writer.OnCompleted(ev.scan, Common.None, result, ev.at);
        return ok, ok;
      }
      if ev.plan.None? {
        return false, false;
      }
      var url := ev.endpoint;
      if url == "" {
        url := result.url;
      }
      var user := Common.Some(ev.user);
      var savedCredits := ledger.credits;
      var plan := ev.plan.value;
      acquired, ok := ledger.ConfirmExistingOrAcquire(ev.user, ev.scan, Endpoint, plan.limit, plan.unlimited);
      if acquired {
        ok := writer.OnCompleted(ev.scan, user, result, ev.at);
      } else {
        ok := writer.OnPlanLimitExceeded(ev.scan, user, url, ev.at);
      }
      if !ok {
        ledger.credits := savedCredits;
      }
    }

    method ApplyFailed(ev: Event) returns (reply: Reply)
      requires ev.Failed?
      modifies writer, ledger
      ensures (Contents(), reply) == Handle(old(Contents()), ev)
    {
      if !ev.statusRead {
        return Broken;
      }
      var current := writer.GetStatus(ev.scan);
      if current != Blank && !ValidTransition(current, FAILED) {
        return Ignored;
      }
      var ok := writer.OnFailed(ev.scan, OwnerOf(ev.user), ev.url, ev.error, ev.at);
      if !ok {
        return Broken;
      }
      ledger.Release(ev.scan);
      reply := Stored(false);
    }
  }
}
