/** One wallet command against one scan row (internal/wallettransition/apply.go): rows, commands,
    the SQL guard of the conditional UPDATE, and the serial meaning of Apply. */
module WalletTransition {
  import opened Common
  import opened ScanState
  import opened UsageLedger

  datatype Quota = NoQuota | Keep | Release

  /** The decoded scan result columns. */
  datatype Payload = Payload(
    algorithm: string, nistLevel: int, keyExposed: bool, networks: seq<string>, detail: string)

  const NO_PAYLOAD := Payload("", 0, false, [], "")

  /** A scan_results row. A NULL status is None and reads back as the empty string. */
  datatype Row = Row(
    owner: Uuid, address: string, status: Option<State>, error: string, transitionId: Option<string>,
    payload: Payload, createdAt: nat, updatedAt: nat, deleted: bool)
  {
    function LogicalStatus(): State {
      Logical(ReadStatus(status))
    }
  }

  type Rows = map<Uuid, Row>

  /** A decoded command; at is the clock reading of its write. */
  datatype Command = Command(
    transitionId: string, user: Uuid, address: string, sources: seq<State>, target: State, quota: Quota,
    result: Payload, error: string, at: nat)

  datatype Outcome = Applied | AlreadyApplied | AlreadyRunning | AlreadyTerminal | Retryable | Rejected

  /** Status is Blank when the state was not reread; row is set when a projection may use it. */
  datatype Result = Result(outcome: Outcome, status: State, row: Option<Row>)

  datatype Store = Store(rows: Rows, credits: Credits)

  function ReadStatus(stored: Option<State>): State {
    if stored.None? then Blank else stored.value
  }

  /* ---- The guard of the conditional UPDATE ---- */

  /** SQL three-valued logic. */
  datatype Truth = True | False | Unknown

  function Or(a: Truth, b: Truth): Truth {
    if a == True || b == True then True
    else if a == Unknown || b == Unknown then Unknown
    else False
  }

  function Equals(stored: Option<State>, s: State): Truth {
    if stored.None? then Unknown else if stored.value == s then True else False
  }

  function InList(stored: Option<State>, list: seq<State>): Truth {
    if list == [] then False else Or(Equals(stored, list[0]), InList(stored, list[1..]))
  }

  function IsNull(stored: Option<State>): Truth {
    if stored.None? then True else False
  }

  /** The four WHERE clauses that the code can attach to the UPDATE. */
  datatype Scope =
    | InOrBlank(stored: seq<State>)
    | InOnly(stored: seq<State>)
    | BlankOrPending
    | Nothing

  function Holds(scope: Scope, stored: Option<State>): Truth {
    match scope
    case InOrBlank(list) => Or(Or(InList(stored, list), Equals(stored, Blank)), IsNull(stored))
    case InOnly(list) => InList(stored, list)
    case BlankOrPending => Or(Or(Equals(stored, Blank), IsNull(stored)), Equals(stored, PENDING))
    case Nothing => False
  }

  function NonBlank(sources: seq<State>): seq<State> {
    if sources == [] then []
    else if sources[|sources| - 1] == Blank then NonBlank(sources[..|sources| - 1])
    else NonBlank(sources[..|sources| - 1]) + [sources[|sources| - 1]]
  }

  function ScopeOf(sources: seq<State>): Scope {
    var stored := NonBlank(sources);
    if PENDING in sources && stored != [] then InOrBlank(stored)
    else if stored != [] then InOnly(stored)
    else if PENDING in sources then BlankOrPending
    else Nothing
  }

  method SourceScope(sources: seq<State>) returns (scope: Scope)
    ensures scope == ScopeOf(sources)
  {
    var pending := PENDING in sources;
    var stored: seq<State> := [];
    for i := 0 to |sources|
      invariant stored == NonBlank(sources[..i])
    {
      assert sources[..i + 1][..i] == sources[..i];
      if sources[i] != Blank {
        stored := stored + [sources[i]];
      }
    }
    assert sources[..|sources|] == sources;
    scope :=
      if pending && |stored| > 0 then InOrBlank(stored)
      else if |stored| > 0 then InOnly(stored)
      else if pending then BlankOrPending
      else Nothing;
  }

  lemma {:induction false} NonBlankKeeps(sources: seq<State>, s: State)
    ensures s in NonBlank(sources) <==> s in sources && s != Blank
  {
    if sources != [] {
      var n := |sources| - 1;
      NonBlankKeeps(sources[..n], s);
      assert sources == sources[..n] + [sources[n]];
    }
  }

  lemma {:induction false} InListMeansMember(stored: Option<State>, list: seq<State>)
    ensures InList(stored, list) == True <==> stored.Some? && stored.value in list
  {
    if list != [] {
      InListMeansMember(stored, list[1..]);
    }
  }

  /** The UPDATE touches a row exactly when the in-memory check accepts its status, for every list of
      sources (duplicates and blanks included) and every stored status (NULL and blank included). */
  lemma GuardAgreement(sources: seq<State>, stored: Option<State>)
    ensures Holds(ScopeOf(sources), stored) == True <==> Logical(ReadStatus(stored)) in sources
  {
    InListMeansMember(stored, NonBlank(sources));
    NonBlankKeeps(sources, PENDING);
    NonBlankKeeps(sources, ReadStatus(stored));
    if NonBlank(sources) == [] {
      assert ReadStatus(stored) !in NonBlank(sources);
    }
  }

  /** A blank source stands for nothing: dropping it changes no guard. */
  lemma BlankSourceIsInert(sources: seq<State>, stored: Option<State>)
    ensures Holds(ScopeOf(sources + [Blank]), stored) == Holds(ScopeOf(sources), stored)
  {
    var more := sources + [Blank];
    assert more[..|more| - 1] == sources;
    assert NonBlank(more) == NonBlank(sources);
    assert PENDING in more <==> PENDING in sources;
  }

  /* ---- The rows that a command writes ---- */

  function NewRow(cmd: Command): Row {
    match cmd.target
    case SUCCESS =>
      Row(cmd.user, cmd.address, Some(SUCCESS), "", Some(cmd.transitionId), cmd.result, cmd.at, cmd.at, false)
    case FAILED =>
      Row(cmd.user, cmd.address, Some(FAILED), cmd.error, Some(cmd.transitionId), NO_PAYLOAD, cmd.at, cmd.at, false)
    case _ =>
      Row(cmd.user, cmd.address, Some(RUNNING), "", Some(cmd.transitionId), NO_PAYLOAD, cmd.at, cmd.at, false)
  }

  /** A SUCCESS write replaces every column except created_at and deleted_at; the other writes leave
      the result columns as they were. */
  function UpdatedRow(row: Row, cmd: Command): Row {
    var written := NewRow(cmd);
    if cmd.target == SUCCESS then written.(createdAt := row.createdAt, deleted := row.deleted)
    else row.(status := written.status, error := written.error, owner := written.owner, address := written.address,
              transitionId := written.transitionId, updatedAt := written.updatedAt)
  }

  /** The owner's soft delete: a live row of that owner stays in the table, marked. */
  function Dropped(rows: Rows, scan: Uuid, user: Uuid): Rows {
    if Live(rows, scan) && rows[scan].owner == user then rows[scan := rows[scan].(deleted := true)] else rows
  }

  /* ---- The serial meaning of Apply ---- */

  predicate Live(rows: Rows, scan: Uuid) {
    scan in rows && !rows[scan].deleted
  }

  /** The status that a command finds: a row that was never written is pending. */
  function StatusAt(rows: Rows, scan: Uuid): State {
    if scan in rows then rows[scan].LogicalStatus() else PENDING
  }

  /** A command may write a scan that has no row, or a live row, whose status is among its sources;
      a keep also needs the credit. */
  predicate MayWrite(st: Store, scan: Uuid, cmd: Command) {
    && (scan in st.rows ==> Live(st.rows, scan))
    && StatusAt(st.rows, scan) in cmd.sources
    && (cmd.quota == Keep ==> scan in st.credits)
  }

  function WrittenRow(rows: Rows, scan: Uuid, cmd: Command): Row {
    if scan in rows then UpdatedRow(rows[scan], cmd) else NewRow(cmd)
  }

  function Write(st: Store, scan: Uuid, cmd: Command): Store {
    Store(st.rows[scan := WrittenRow(st.rows, scan, cmd)],
          if cmd.quota == Release then Released(st.credits, scan) else st.credits)
  }

  predicate SameTransition(row: Row, cmd: Command) {
    row.transitionId == Some(cmd.transitionId)
  }

  function Classify(status: State, cmd: Command): Result {
    if cmd.target == RUNNING && status == RUNNING then Result(AlreadyRunning, status, None)
    else if IsTerminal(status) then Result(AlreadyTerminal, status, None)
    else Result(Rejected, status, None)
  }

  /** What one command answers and leaves behind when no other transaction is in flight. */
  function Apply(st: Store, scan: Uuid, cmd: Command): (Store, Result) {
    var status := StatusAt(st.rows, scan);
    if Live(st.rows, scan) && SameTransition(st.rows[scan], cmd) then
      (st, Result(AlreadyApplied, status, Some(st.rows[scan].(status := Some(status)))))
    else if Live(st.rows, scan) && status !in cmd.sources then
      (st, Classify(status, cmd))
    else if !Live(st.rows, scan) && PENDING !in cmd.sources then
      (st, Result(Rejected, PENDING, None))
    else if cmd.quota == Keep && scan !in st.credits then
      (st, Result(Retryable, if Live(st.rows, scan) then status else PENDING, None))
    else if scan in st.rows && !Live(st.rows, scan) then
      (st, Result(Retryable, PENDING, None))
    else
      var next := Write(st, scan, cmd);
      (next, Result(Applied, next.rows[scan].LogicalStatus(), Some(next.rows[scan])))
  }

  /** Apply writes exactly when the command may write and has not already been applied; every other
      answer leaves rows and credits as they were. */
  lemma ApplyWritesWhenItMay(st: Store, scan: Uuid, cmd: Command)
    ensures var (next, result) := Apply(st, scan, cmd);
            && (result.outcome == Applied <==>
                MayWrite(st, scan, cmd) && !(scan in st.rows && SameTransition(st.rows[scan], cmd)))
            && next == (if result.outcome == Applied then Write(st, scan, cmd) else st)
  {
  }

  /** Delivering an applied command again answers already_applied with the stored row, and changes nothing. */
  lemma ApplyTwice(st: Store, scan: Uuid, cmd: Command)
    requires Apply(st, scan, cmd).1.outcome == Applied
    ensures var (next, result) := Apply(st, scan, cmd);
            var (again, replay) := Apply(next, scan, cmd);
            again == next && replay.outcome == AlreadyApplied
            && replay.row == result.row && replay.status == result.status
  {
  }

  /* ---- What each answer means ---- */

  /** The status that a stored row stands for: NULL and blank are PENDING. */
  function Standing(row: Row): State {
    match row.status
    case None => PENDING
    case Some(s) => if s == Blank then PENDING else s
  }

  /** What a refusal says of the row that it met. */
  predicate Refuses(outcome: Outcome, status: State, cmd: Command) {
    match outcome
    case AlreadyRunning => cmd.target == RUNNING && status == RUNNING
    case AlreadyTerminal => status in {SUCCESS, FAILED, TIMEOUT, UNREACHABLE}
    case Rejected => !(cmd.target == RUNNING && status == RUNNING) && status !in {SUCCESS, FAILED, TIMEOUT, UNREACHABLE}
    case _ => false
  }

  /** Every answer to a command that meets a live row, with its cause. */
  lemma LiveAnswers(st: Store, scan: Uuid, cmd: Command)
    requires scan in st.rows && !st.rows[scan].deleted
    ensures var (next, result) := Apply(st, scan, cmd);
            var row, status := st.rows[scan], Standing(st.rows[scan]);
            var mine, admitted := row.transitionId == Some(cmd.transitionId), status in cmd.sources;
            var paid := cmd.quota == Keep ==> scan in st.credits;
            && (result.outcome == AlreadyApplied <==> mine)
            && (result.outcome == Retryable <==> !mine && admitted && !paid)
            && (result.outcome == Applied <==> !mine && admitted && paid)
            && (!mine && !admitted ==> Refuses(result.outcome, status, cmd))
            && (mine ==> result.row == Some(row.(status := Some(status))))
            && (result.outcome == Applied ==> result.row == Some(next.rows[scan]) && Some(result.status) == next.rows[scan].status)
            && (result.outcome != Applied ==> next == st && result.status == status)
            && (result.outcome != Applied && !mine ==> result.row == None)
  {
  }

  /** Every answer to a command that meets no live row: none at all, or a soft-deleted one. */
  lemma MissingAnswers(st: Store, scan: Uuid, cmd: Command)
    requires scan in st.rows ==> st.rows[scan].deleted
    ensures var (next, result) := Apply(st, scan, cmd);
            var admitted, paid := PENDING in cmd.sources, cmd.quota == Keep ==> scan in st.credits;
            && (result.outcome == Rejected <==> !admitted)
            && (result.outcome == Applied <==> admitted && paid && scan !in st.rows)
            && (result.outcome == Retryable <==> admitted && (!paid || scan in st.rows))
            && (result.outcome == Applied ==> result.row == Some(next.rows[scan]) && Some(result.status) == next.rows[scan].status)
            && (result.outcome != Applied ==> next == st && result.status == PENDING && result.row == None)
  {
  }

  /** What an applied command leaves in the tables, column by column. */
  lemma AppliedRowSays(st: Store, scan: Uuid, cmd: Command)
    requires Apply(st, scan, cmd).1.outcome == Applied
    ensures var next := Apply(st, scan, cmd).0;
            && scan in next.rows && next.rows - {scan} == st.rows - {scan}
            && var row := next.rows[scan];
               && row.owner == cmd.user && row.address == cmd.address && row.transitionId == Some(cmd.transitionId)
               && row.updatedAt == cmd.at && !row.deleted
               && row.createdAt == (if scan in st.rows then st.rows[scan].createdAt else cmd.at)
               && row.status == Some(if cmd.target == SUCCESS || cmd.target == FAILED then cmd.target else RUNNING)
               && row.error == (if cmd.target == FAILED then cmd.error else "")
               && row.payload == (if cmd.target == SUCCESS then cmd.result
                                  else if scan in st.rows then st.rows[scan].payload else NO_PAYLOAD)
    ensures var next := Apply(st, scan, cmd).0;
            && next.credits - {scan} == st.credits - {scan}
            && (scan in next.credits <==> scan in st.credits && cmd.quota != Release)
            && (scan in next.credits ==> next.credits[scan] == st.credits[scan])
  {
  }

  /** A soft delete marks a live row of its owner, and changes nothing else. */
  lemma DropMarksRow(rows: Rows, scan: Uuid, user: Uuid)
    ensures var after := Dropped(rows, scan, user);
            && after.Keys == rows.Keys && after - {scan} == rows - {scan}
            && (scan in rows ==> after[scan] == rows[scan].(deleted := rows[scan].deleted || rows[scan].owner == user))
  {
  }
}
