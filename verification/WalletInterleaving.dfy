/** Wallet commands in flight together (internal/wallettransition/apply.go) under PostgreSQL READ
    COMMITTED: every statement sees the latest committed state, a write holds its row until the
    transaction ends, and a blocked UPDATE evaluates its WHERE clause again on the new row version.
    Owners delete rows and other services reserve credits in between.

    The main theorem: every interleaving has the effect of a serial run of atomic writes, one for each
    transaction that answers applied and none for any other. */
module WalletInterleaving {
  import opened Common
  import opened ScanState
  import opened UsageLedger
  import opened WalletTransition

  type TxId = nat

  /** The next statement of a transaction, with what it has read. */
  datatype Statement =
    | FirstRead
    | CheckBeforeInsert
    | InsertRow
    | ReadWinner
    | CheckBeforeUpdate(ent: Row)
    | UpdateRow(ent: Row, again: bool)
    | AwaitRow(ent: Row, again: bool)
    | ReadAgain(ent: Row)
    | ReadLast(ent: Row)
    | FinishQuota(written: Row)
    | Commit(written: Row, freed: bool)

  datatype Tx = Tx(scan: Uuid, cmd: Command, next: Statement)

  /** rows and credits are committed; locks maps a row to the transaction that holds it; log keeps the
      answer of every ended transaction. */
  datatype Machine = Machine(
    rows: Rows, credits: Credits, txs: map<TxId, Tx>, locks: map<Uuid, TxId>, log: map<TxId, Outcome>)

  datatype Action =
    | Begin(tx: TxId, scan: Uuid, cmd: Command)
    | Step(tx: TxId)
    | Abort(tx: TxId)
    | SoftDelete(scan: Uuid, user: Uuid)
    | Reserve(scan: Uuid, credit: Credit)

  /* ---- Steps. An action that is blocked or does not apply leaves the machine as it is. ---- */

  /** t was already answered applied. */
  predicate HasApplied(m: Machine, t: TxId) {
    t in m.log && m.log[t] == Applied
  }

  /** A statement of t moves no other transaction and no other row's lock, and t keeps its command. */
  ghost predicate LocalTo(m: Machine, after: Machine, t: TxId)
    requires t in m.txs
  {
    && after.txs.Keys <= m.txs.Keys
    && (t in after.txs ==> after.txs[t].scan == m.txs[t].scan && after.txs[t].cmd == m.txs[t].cmd)
    && (forall other | other != t && other in m.txs :: other in after.txs && after.txs[other] == m.txs[other])
    && (forall other | other != t :: HasApplied(after, other) <==> HasApplied(m, other))
    && (forall other | other != m.txs[t].scan ::
          (other in after.locks <==> other in m.locks)
          && (other in m.locks ==> after.locks[other] == m.locks[other]))
  }

  function Goto(m: Machine, t: TxId, next: Statement): Machine
    requires t in m.txs
  {
    m.(txs := m.txs[t := m.txs[t].(next := next)])
  }

  function End(m: Machine, t: TxId, outcome: Outcome): Machine
    requires t in m.txs
  {
    m.(txs := m.txs - {t}, log := m.log[t := outcome],
       locks := if Holding(m.txs[t].next) then m.locks - {m.txs[t].scan} else m.locks)
  }

  predicate Holding(next: Statement) {
    next.FinishQuota? || next.Commit?
  }

  predicate Hits(m: Machine, scan: Uuid, cmd: Command) {
    Live(m.rows, scan) && Holds(ScopeOf(cmd.sources), m.rows[scan].status) == True
  }

  /** What the transaction does with a row it has read. */
  function Qualify(m: Machine, t: TxId, ent: Row): Machine
    requires t in m.txs && !Holding(m.txs[t].next)
  {
    var cmd := m.txs[t].cmd;
    if SameTransition(ent, cmd) then End(m, t, AlreadyApplied)
    else if ent.LogicalStatus() !in cmd.sources then End(m, t, Classify(ent.LogicalStatus(), cmd).outcome)
    else if cmd.quota == Keep then Goto(m, t, CheckBeforeUpdate(ent))
    else Goto(m, t, UpdateRow(ent, false))
  }

  function Missed(m: Machine, t: TxId, ent: Row, again: bool): Machine
    requires t in m.txs
  {
    Goto(m, t, if again then ReadLast(ent) else ReadAgain(ent))
  }

  function Acquire(m: Machine, t: TxId, written: Row): Machine
    requires t in m.txs
  {
    Goto(m, t, FinishQuota(written)).(locks := m.locks[m.txs[t].scan := t])
  }

  /** Statements that only read. */
  function RunRead(m: Machine, t: TxId): Machine
    requires t in m.txs
    requires var next := m.txs[t].next; !next.InsertRow? && !next.UpdateRow? && !next.AwaitRow? && !Holding(next)
  {
    var Tx(scan, cmd, next) := m.txs[t];
    match next
    case FirstRead =>
      if Live(m.rows, scan) then Qualify(m, t, m.rows[scan])
      else if PENDING !in cmd.sources then End(m, t, Rejected)
      else Goto(m, t, if cmd.quota == Keep then CheckBeforeInsert else InsertRow)
    case CheckBeforeInsert =>
      if scan in m.credits then Goto(m, t, InsertRow) else End(m, t, Retryable)
    case ReadWinner =>
      if Live(m.rows, scan) then Qualify(m, t, m.rows[scan]) else End(m, t, Retryable)
    case CheckBeforeUpdate(ent) =>
      if scan in m.credits then Goto(m, t, UpdateRow(ent, false)) else End(m, t, Retryable)
    case ReadAgain(ent) =>
      if !Live(m.rows, scan) then End(m, t, Retryable)
      else
        var row := m.rows[scan];
        if SameTransition(row, cmd) || row.LogicalStatus() !in cmd.sources
        then End(m, t, Classify(row.LogicalStatus(), cmd).outcome)
        else Goto(m, t, UpdateRow(row, true))
    case ReadLast(ent) =>
      var row := if Live(m.rows, scan) then m.rows[scan] else ent;
      End(m, t, Classify(row.LogicalStatus(), cmd).outcome)
  }

  /** Statements that write the row, once they get it. */
  function RunWrite(m: Machine, t: TxId): Machine
    requires t in m.txs
    requires var next := m.txs[t].next; next.InsertRow? || next.UpdateRow? || next.AwaitRow?
  {
    var Tx(scan, cmd, next) := m.txs[t];
    match next
    case InsertRow =>
      if scan in m.rows then Goto(m, t, ReadWinner)
      else if scan in m.locks then m
      else Acquire(m, t, NewRow(cmd))
    case UpdateRow(ent, again) =>
      if Hits(m, scan, cmd) then Goto(m, t, AwaitRow(ent, again)) else Missed(m, t, ent, again)
    case AwaitRow(ent, again) =>
      if scan in m.locks then m
      else if Hits(m, scan, cmd) then Acquire(m, t, UpdatedRow(m.rows[scan], cmd))
      else Missed(m, t, ent, again)
  }

  /** The quota statement and the commit of a transaction that has written. */
  function RunHolding(m: Machine, t: TxId): Machine
    requires t in m.txs && Holding(m.txs[t].next)
  {
    var Tx(scan, cmd, next) := m.txs[t];
    match next
    case FinishQuota(written) =>
      if cmd.quota == Release then Goto(m, t, Commit(written, scan in m.credits))
      else if cmd.quota == Keep && scan !in m.credits then End(m, t, Retryable)
      else Goto(m, t, Commit(written, false))
    case Commit(written, freed) =>
      End(m, t, Applied).(
        rows := m.rows[scan := written],
        credits := if freed then Released(m.credits, scan) else m.credits)
  }

  function RunStatement(m: Machine, t: TxId): Machine
    requires t in m.txs
  {
    match m.txs[t].next
    case InsertRow => RunWrite(m, t)
    case UpdateRow(_, _) => RunWrite(m, t)
    case AwaitRow(_, _) => RunWrite(m, t)
    case FinishQuota(_) => RunHolding(m, t)
    case Commit(_, _) => RunHolding(m, t)
    case _ => RunRead(m, t)
  }

  lemma GotoIsLocal(m: Machine, t: TxId, next: Statement)
    requires t in m.txs
    ensures LocalTo(m, Goto(m, t, next), t)
  {
  }

  lemma EndIsLocal(m: Machine, t: TxId, outcome: Outcome)
    requires t in m.txs
    ensures LocalTo(m, End(m, t, outcome), t)
  {
  }

  /** A statement before the write only moves its own transaction, and is not answered applied. */
  predicate Moves(m: Machine, t: TxId, after: Machine)
    requires t in m.txs
  {
    || (t in after.txs && after == Goto(m, t, after.txs[t].next))
    || (t in after.log && after == End(m, t, after.log[t]) && after.log[t] != Applied)
  }

  lemma QualifyMoves(m: Machine, t: TxId, ent: Row)
    requires t in m.txs && !Holding(m.txs[t].next)
    ensures Moves(m, t, Qualify(m, t, ent))
  {
  }

  lemma ReadMoves(m: Machine, t: TxId)
    requires t in m.txs
    requires var next := m.txs[t].next; !next.InsertRow? && !next.UpdateRow? && !next.AwaitRow? && !Holding(next)
    ensures Moves(m, t, RunRead(m, t))
  {
    var Tx(scan, cmd, next) := m.txs[t];
    if (next.FirstRead? || next.ReadWinner?) && Live(m.rows, scan) {
      QualifyMoves(m, t, m.rows[scan]);
    }
  }

  lemma AcquireIsLocal(m: Machine, t: TxId, written: Row)
    requires t in m.txs
    ensures LocalTo(m, Acquire(m, t, written), t)
  {
  }

  /** A write waits, moves on, or takes a free row. */
  predicate Waits(m: Machine, t: TxId, after: Machine)
    requires t in m.txs
  {
    && t in after.txs
    && var next := after.txs[t].next;
       || after == m
       || (!Holding(next) && after == Goto(m, t, next))
       || (m.txs[t].scan !in m.locks && next.FinishQuota? && after == Acquire(m, t, next.written))
  }

  lemma WriteWaits(m: Machine, t: TxId)
    requires t in m.txs
    requires var next := m.txs[t].next; next.InsertRow? || next.UpdateRow? || next.AwaitRow?
    ensures Waits(m, t, RunWrite(m, t))
  {
  }

  lemma WriteIsLocal(m: Machine, t: TxId)
    requires t in m.txs
    requires var next := m.txs[t].next; next.InsertRow? || next.UpdateRow? || next.AwaitRow?
    ensures var after := RunWrite(m, t);
            LocalTo(m, after, t) && after.rows == m.rows && after.credits == m.credits && after.log == m.log
  {
    hide RunWrite;
    WriteWaits(m, t);
    var next := RunWrite(m, t).txs[t].next;
    GotoIsLocal(m, t, next);
    if next.FinishQuota? {
      AcquireIsLocal(m, t, next.written);
    }
  }

  lemma HoldingIsLocal(m: Machine, t: TxId)
    requires t in m.txs && Holding(m.txs[t].next)
    ensures var after := RunHolding(m, t);
            && LocalTo(m, after, t) && after.credits.Keys <= m.credits.Keys
            && (m.txs[t].next.FinishQuota? ==> after.rows == m.rows && after.credits == m.credits)
            && (t !in m.log ==> (HasApplied(after, t) <==> m.txs[t].next.Commit?))
  {
    var Tx(scan, cmd, next) := m.txs[t];
    if next.Commit? {
      EndIsLocal(m, t, Applied);
    } else {
      EndIsLocal(m, t, Retryable);
      GotoIsLocal(m, t, Commit(next.written, cmd.quota == Release && scan in m.credits));
    }
  }

  /** What every statement leaves alone, and that only a commit changes the tables or is answered applied. */
  lemma StatementIsLocal(m: Machine, t: TxId)
    requires t in m.txs
    ensures var after := RunStatement(m, t);
            && LocalTo(m, after, t) && after.credits.Keys <= m.credits.Keys
            && (!m.txs[t].next.Commit? ==> after.rows == m.rows && after.credits == m.credits)
            && (t !in m.log ==> (HasApplied(after, t) <==> m.txs[t].next.Commit?))
  {
    hide RunRead, RunWrite, RunHolding;
    var next := m.txs[t].next;
    if next.InsertRow? || next.UpdateRow? || next.AwaitRow? {
      WriteIsLocal(m, t);
    } else if Holding(next) {
      HoldingIsLocal(m, t);
    } else {
      ReadMoves(m, t);
      var after := RunRead(m, t);
      if t in after.txs {
        GotoIsLocal(m, t, after.txs[t].next);
      }
      if t in after.log {
        EndIsLocal(m, t, after.log[t]);
      }
    }
  }

  /** A credit row that an open transaction has deleted: another insert of it waits. */
  predicate Freeing(m: Machine, scan: Uuid) {
    scan in m.locks && m.locks[scan] in m.txs && m.txs[m.locks[scan]].next.Commit? && m.txs[m.locks[scan]].next.freed
  }

  function Next(m: Machine, act: Action): Machine {
    match act
    case Begin(t, scan, cmd) =>
      if t in m.txs || t in m.log then m else m.(txs := m.txs[t := Tx(scan, cmd, FirstRead)])
    case Step(t) =>
      if t in m.txs then RunStatement(m, t) else m
    case Abort(t) =>
      if t in m.txs then End(m, t, Retryable) else m
    case SoftDelete(scan, user) =>
      if scan in m.locks then m else m.(rows := Dropped(m.rows, scan, user))
    case Reserve(scan, credit) =>
      if Freeing(m, scan) then m else m.(credits := Recorded(m.credits, credit.user, scan, credit.kind))
  }

  function Run(m: Machine, acts: seq<Action>): Machine {
    if acts == [] then m else Next(Run(m, acts[..|acts| - 1]), acts[|acts| - 1])
  }

  /* ---- The serial machine ---- */

  datatype Op =
    | WriteOp(tx: TxId, scan: Uuid, cmd: Command)
    | DropOp(scan: Uuid, user: Uuid)
    | ReserveOp(scan: Uuid, credit: Credit)

  function Perform(st: Store, op: Op): Store {
    match op
    case WriteOp(_, scan, cmd) => Write(st, scan, cmd)
    case DropOp(scan, user) => st.(rows := Dropped(st.rows, scan, user))
    case ReserveOp(scan, credit) => st.(credits := Recorded(st.credits, credit.user, scan, credit.kind))
  }

  predicate Enabled(st: Store, op: Op) {
    op.WriteOp? ==> MayWrite(st, op.scan, op.cmd)
  }

  function PerformAll(st: Store, ops: seq<Op>): Store {
    if ops == [] then st else Perform(PerformAll(st, ops[..|ops| - 1]), ops[|ops| - 1])
  }

  /** Every write of the serial run is one that its command may make in the state it finds. */
  predicate Legal(st: Store, ops: seq<Op>) {
    ops == [] ||
    (Legal(st, ops[..|ops| - 1]) && Enabled(PerformAll(st, ops[..|ops| - 1]), ops[|ops| - 1]))
  }

  /* ---- The invariant of the interleaved machine ---- */

  /** The row of a transaction that has written cannot have moved since: it still admits the command,
      and the pending version is what the command writes to it. */
  predicate TxOk(m: Machine, t: TxId)
    requires t in m.txs
  {
    var Tx(scan, cmd, next) := m.txs[t];
    && t !in m.log
    && (next.CheckBeforeInsert? || next.InsertRow? ==> PENDING in cmd.sources)
    && (Holding(next) ==>
          && scan in m.locks && m.locks[scan] == t
          && (scan in m.rows ==> Live(m.rows, scan))
          && StatusAt(m.rows, scan) in cmd.sources
          && next.written == WrittenRow(m.rows, scan, cmd))
    && (next.Commit? ==>
          && (cmd.quota == Keep ==> scan in m.credits)
          && (next.freed ==> cmd.quota == Release && scan in m.credits))
  }

  predicate LockOk(m: Machine, scan: Uuid)
    requires scan in m.locks
  {
    var t := m.locks[scan];
    t in m.txs && m.txs[t].scan == scan && Holding(m.txs[t].next)
  }

  ghost predicate Inv(m: Machine) {
    && (forall t | t in m.txs :: TxOk(m, t))
    && (forall scan | scan in m.locks :: LockOk(m, scan))
  }

  /** A statement before the write, other than an insert, assumes nothing of the tables. */
  predicate Plain(next: Statement) {
    !Holding(next) && !next.CheckBeforeInsert? && !next.InsertRow?
  }

  lemma InvPlain(m: Machine, t: TxId, next: Statement)
    requires Inv(m) && t in m.txs && !Holding(m.txs[t].next) && Plain(next)
    ensures Inv(Goto(m, t, next))
  {
    assert TxOk(m, t);
    InvGoto(m, t, next);
  }

  lemma InvGoto(m: Machine, t: TxId, next: Statement)
    requires Inv(m) && t in m.txs && TxOk(Goto(m, t, next), t)
    requires Holding(next) <==> Holding(m.txs[t].next)
    ensures Inv(Goto(m, t, next))
  {
  }

  lemma InvEnd(m: Machine, t: TxId, outcome: Outcome)
    requires Inv(m) && t in m.txs
    ensures Inv(End(m, t, outcome))
  {
    forall other | other in End(m, t, outcome).txs ensures TxOk(End(m, t, outcome), other) {
      assert TxOk(m, other) && TxOk(m, t);
    }
  }

  lemma InvAcquire(m: Machine, t: TxId, written: Row)
    requires Inv(m) && t in m.txs && !Holding(m.txs[t].next) && m.txs[t].scan !in m.locks
    requires TxOk(Acquire(m, t, written), t)
    ensures Inv(Acquire(m, t, written))
  {
  }

  lemma InvQualify(m: Machine, t: TxId, ent: Row)
    requires Inv(m) && t in m.txs && !Holding(m.txs[t].next)
    ensures Inv(Qualify(m, t, ent))
  {
    var cmd := m.txs[t].cmd;
    if SameTransition(ent, cmd) {
      InvEnd(m, t, AlreadyApplied);
    } else if ent.LogicalStatus() !in cmd.sources {
      InvEnd(m, t, Classify(ent.LogicalStatus(), cmd).outcome);
    } else {
      InvPlain(m, t, if cmd.quota == Keep then CheckBeforeUpdate(ent) else UpdateRow(ent, false));
    }
  }

  lemma InvCommit(m: Machine, t: TxId)
    requires Inv(m) && t in m.txs && m.txs[t].next.Commit?
    ensures Inv(RunHolding(m, t))
  {
    var after := RunHolding(m, t);
    assert TxOk(m, t);
    forall other | other in after.txs ensures TxOk(after, other) {
      assert TxOk(m, other);
    }
    forall scan | scan in after.locks ensures LockOk(after, scan) {
      assert LockOk(m, scan);
    }
  }

  lemma InvRead(m: Machine, t: TxId)
    requires Inv(m) && t in m.txs && (m.txs[t].next.FirstRead? || m.txs[t].next.ReadWinner?)
    ensures Inv(RunRead(m, t))
  {
    var Tx(scan, cmd, next) := m.txs[t];
    if Live(m.rows, scan) {
      InvQualify(m, t, m.rows[scan]);
    } else if next.ReadWinner? {
      InvEnd(m, t, Retryable);
    } else if PENDING !in cmd.sources {
      InvEnd(m, t, Rejected);
    } else {
      InvGoto(m, t, if cmd.quota == Keep then CheckBeforeInsert else InsertRow);
    }
  }

  lemma InvInsert(m: Machine, t: TxId)
    requires Inv(m) && t in m.txs && m.txs[t].next.InsertRow?
    ensures Inv(RunWrite(m, t))
  {
    var Tx(scan, cmd, next) := m.txs[t];
    assert TxOk(m, t);
    if scan in m.rows {
      InvPlain(m, t, ReadWinner);
    } else if scan !in m.locks {
      InvAcquire(m, t, NewRow(cmd));
    }
  }

  lemma InvUpdate(m: Machine, t: TxId)
    requires Inv(m) && t in m.txs && (m.txs[t].next.UpdateRow? || m.txs[t].next.AwaitRow?)
    ensures Inv(RunWrite(m, t))
  {
    var Tx(scan, cmd, next) := m.txs[t];
    var ent, again := next.ent, next.again;
    if next.AwaitRow? && scan in m.locks {
    } else if !Hits(m, scan, cmd) {
      InvPlain(m, t, if again then ReadLast(ent) else ReadAgain(ent));
    } else if next.UpdateRow? {
      InvPlain(m, t, AwaitRow(ent, again));
    } else {
      GuardAgreement(cmd.sources, m.rows[scan].status);
      InvAcquire(m, t, UpdatedRow(m.rows[scan], cmd));
    }
  }

  lemma InvReread(m: Machine, t: TxId)
    requires Inv(m) && t in m.txs && (m.txs[t].next.ReadAgain? || m.txs[t].next.ReadLast?)
    ensures Inv(RunRead(m, t))
  {
    var Tx(scan, cmd, next) := m.txs[t];
    if next.ReadLast? {
      var row := if Live(m.rows, scan) then m.rows[scan] else next.ent;
      InvEnd(m, t, Classify(row.LogicalStatus(), cmd).outcome);
    } else if !Live(m.rows, scan) {
      InvEnd(m, t, Retryable);
    } else {
      var row := m.rows[scan];
      if SameTransition(row, cmd) || row.LogicalStatus() !in cmd.sources {
        InvEnd(m, t, Classify(row.LogicalStatus(), cmd).outcome);
      } else {
        InvPlain(m, t, UpdateRow(row, true));
      }
    }
  }

  lemma InvQuota(m: Machine, t: TxId)
    requires Inv(m) && t in m.txs
    requires m.txs[t].next.CheckBeforeInsert? || m.txs[t].next.CheckBeforeUpdate? || m.txs[t].next.FinishQuota?
    ensures Inv(RunStatement(m, t))
  {
    var Tx(scan, cmd, next) := m.txs[t];
    assert TxOk(m, t);
    if (!next.FinishQuota? || cmd.quota == Keep) && scan !in m.credits {
      InvEnd(m, t, Retryable);
    } else {
      InvGoto(m, t,
        match next
        case CheckBeforeInsert => InsertRow
        case CheckBeforeUpdate(ent) => UpdateRow(ent, false)
        case FinishQuota(written) => Commit(written, cmd.quota == Release && scan in m.credits)
        case _ => next);
    }
  }

  lemma InvStatement(m: Machine, t: TxId)
    requires Inv(m) && t in m.txs
    ensures Inv(RunStatement(m, t))
  {
    match m.txs[t].next
    case FirstRead => InvRead(m, t);
    case ReadWinner => InvRead(m, t);
    case InsertRow => InvInsert(m, t);
    case UpdateRow(_, _) => InvUpdate(m, t);
    case AwaitRow(_, _) => InvUpdate(m, t);
    case ReadAgain(_) => InvReread(m, t);
    case ReadLast(_) => InvReread(m, t);
    case Commit(_, _) => InvCommit(m, t);
    case _ => InvQuota(m, t);
  }

  lemma InvNext(m: Machine, act: Action)
    requires Inv(m)
    ensures Inv(Next(m, act))
  {
    match act
    case Step(t) =>
      if t in m.txs { InvStatement(m, t); }
    case Abort(t) =>
      if t in m.txs { InvEnd(m, t, Retryable); }
    case Begin(t, scan, cmd) =>
    case SoftDelete(scan, user) =>
      InvSoftDelete(m, scan, user);
    case Reserve(scan, credit) =>
      InvReserve(m, scan, credit);
  }

  lemma InvSoftDelete(m: Machine, scan: Uuid, user: Uuid)
    requires Inv(m)
    ensures Inv(Next(m, SoftDelete(scan, user)))
  {
    var after := Next(m, SoftDelete(scan, user));
    forall t | t in after.txs ensures TxOk(after, t) {
      assert TxOk(m, t);
    }
    forall held | held in after.locks ensures LockOk(after, held) {
      assert LockOk(m, held);
    }
  }

  lemma InvReserve(m: Machine, scan: Uuid, credit: Credit)
    requires Inv(m)
    ensures Inv(Next(m, Reserve(scan, credit)))
  {
    var after := Next(m, Reserve(scan, credit));
    forall t | t in after.txs ensures TxOk(after, t) {
      assert TxOk(m, t);
    }
    forall held | held in after.locks ensures LockOk(after, held) {
      assert LockOk(m, held);
    }
  }

  /* ---- Refinement ---- */

  /** The holder of this row has released a credit that was not there: a reservation that arrives before
      it commits is, serially, one that follows the release. */
  predicate Deferring(m: Machine, scan: Uuid) {
    Defers(m.locks, m.txs, scan)
  }

  predicate Defers(locks: map<Uuid, TxId>, txs: map<TxId, Tx>, scan: Uuid) {
    && scan in locks && locks[scan] in txs
    && txs[locks[scan]].next.Commit? && !txs[locks[scan]].next.freed
    && txs[locks[scan]].cmd.quota == Release
  }

  /** The serial state that a machine stands for: the committed rows, and the committed credits without
      deferred reservations. */
  function View(m: Machine): Store {
    Store(m.rows, map scan | scan in m.credits && !Deferring(m, scan) :: m.credits[scan])
  }

  function Deferred(m: Machine, scan: Uuid): seq<Op> {
    if Deferring(m, scan) && scan in m.credits then [ReserveOp(scan, m.credits[scan])] else []
  }

  /** The serial operations that one action of the machine stands for. */
  function Emit(m: Machine, act: Action): seq<Op> {
    match act
    case Begin(_, _, _) => []
    case Step(t) =>
      if t in m.txs && m.txs[t].next.Commit?
      then [WriteOp(t, m.txs[t].scan, m.txs[t].cmd)] + Deferred(m, m.txs[t].scan) else []
    case Abort(t) =>
      if t in m.txs && m.txs[t].next.Commit? then Deferred(m, m.txs[t].scan) else []
    case SoftDelete(scan, user) =>
      if scan in m.locks then [] else [DropOp(scan, user)]
    case Reserve(scan, credit) =>
      if Freeing(m, scan) || Deferring(m, scan) then [] else [ReserveOp(scan, credit)]
  }

  function Trace(m: Machine, acts: seq<Action>): seq<Op> {
    if acts == [] then []
    else Trace(m, acts[..|acts| - 1]) + Emit(Run(m, acts[..|acts| - 1]), acts[|acts| - 1])
  }

  /** One operation more. */
  lemma PerformOne(st: Store, ops: seq<Op>, op: Op)
    ensures PerformAll(st, ops + [op]) == Perform(PerformAll(st, ops), op)
    ensures Legal(st, ops + [op]) <==> Legal(st, ops) && Enabled(PerformAll(st, ops), op)
  {
    assert (ops + [op])[..|ops|] == ops;
  }

  lemma PerformSingle(st: Store, op: Op)
    ensures PerformAll(st, [op]) == Perform(st, op)
    ensures Legal(st, [op]) <==> Enabled(st, op)
  {
    PerformOne(st, [], op);
    assert [] + [op] == [op];
  }

  lemma {:induction false} PerformMore(st: Store, ops: seq<Op>, more: seq<Op>)
    ensures PerformAll(st, ops + more) == PerformAll(PerformAll(st, ops), more)
    ensures Legal(st, ops + more) <==> Legal(st, ops) && Legal(PerformAll(st, ops), more)
  {
    if more == [] {
      assert ops + more == ops;
    } else {
      var n := |more| - 1;
      PerformMore(st, ops, more[..n]);
      assert ops + more == (ops + more[..n]) + [more[n]];
      PerformOne(st, ops + more[..n], more[n]);
    }
  }

  lemma OthersUnmoved(m: Machine, after: Machine, t: TxId, other: Uuid)
    requires Inv(m) && t in m.txs && LocalTo(m, after, t) && other != m.txs[t].scan
    ensures Deferring(after, other) == Deferring(m, other)
  {
    if other in m.locks {
      assert LockOk(m, other);
    }
  }

  /** A commit is one write that its command may make in the serial state, then the reservation that
      waited for it. */
  lemma SimulateCommit(m: Machine, t: TxId)
    requires Inv(m) && t in m.txs && m.txs[t].next.Commit?
    ensures Legal(View(m), Emit(m, Step(t)))
    ensures View(RunStatement(m, t)) == PerformAll(View(m), Emit(m, Step(t)))
  {
    assert RunStatement(m, t) == RunHolding(m, t);
    hide RunStatement, RunHolding;
    var scan := m.txs[t].scan;
    var write := WriteOp(t, scan, m.txs[t].cmd);
    assert MayWrite(View(m), scan, m.txs[t].cmd) by {
      assert TxOk(m, t);
    }
    PerformSingle(View(m), write);
    CommittedView(m, t);
    if Deferring(m, scan) && scan in m.credits {
      PerformOne(View(m), [write], ReserveOp(scan, m.credits[scan]));
    } else {
      assert [write] + [] == [write];
    }
  }

  /** The credits of the view after a commit, scan by scan. */
  lemma CommittedCredit(m: Machine, t: TxId, scan: Uuid)
    requires Inv(m) && t in m.txs && m.txs[t].next.Commit? && m.txs[t].scan == scan
    ensures var after := RunHolding(m, t);
            && !Deferring(after, scan)
            && (Deferring(m, scan) <==> m.txs[t].cmd.quota == Release && !m.txs[t].next.freed)
            && after.credits == (if m.txs[t].next.freed then Released(m.credits, scan) else m.credits)
  {
    assert TxOk(m, t);
  }

  /** Scans other than the committed one look as before. */
  lemma CommittedElsewhere(m: Machine, t: TxId, other: Uuid)
    requires Inv(m) && t in m.txs && m.txs[t].next.Commit? && other != m.txs[t].scan
    ensures var now := View(RunHolding(m, t)).credits;
            && (other in now <==> other in View(m).credits)
            && (other in now ==> now[other] == View(m).credits[other])
  {
    CommittedCredit(m, t, m.txs[t].scan);
    HoldingIsLocal(m, t);
    hide RunHolding;
    OthersUnmoved(m, RunHolding(m, t), t, other);
  }

  lemma CommittedView(m: Machine, t: TxId)
    requires Inv(m) && t in m.txs && m.txs[t].next.Commit?
    ensures var scan := m.txs[t].scan;
            var written := Write(View(m), scan, m.txs[t].cmd);
            View(RunHolding(m, t)) ==
              if Deferring(m, scan) && scan in m.credits
              then Perform(written, ReserveOp(scan, m.credits[scan])) else written
  {
    var scan, after := m.txs[t].scan, RunHolding(m, t);
    assert TxOk(m, t);
    CommittedCredit(m, t, scan);
    var written := Write(View(m), scan, m.txs[t].cmd);
    var expected := if Deferring(m, scan) && scan in m.credits
                    then Perform(written, ReserveOp(scan, m.credits[scan])) else written;
    assert after.rows == expected.rows;
    hide RunHolding;
    forall other | other != scan
      ensures other in View(after).credits <==> other in expected.credits
      ensures other in expected.credits ==> View(after).credits[other] == expected.credits[other]
    {
      CommittedElsewhere(m, t, other);
    }
    assert scan in View(after).credits <==> scan in expected.credits;
    assert View(after).credits == expected.credits;
  }

  lemma SimulateAbort(m: Machine, t: TxId)
    requires Inv(m) && t in m.txs
    ensures Legal(View(m), Emit(m, Abort(t)))
    ensures View(End(m, t, Retryable)) == PerformAll(View(m), Emit(m, Abort(t)))
  {
    var scan, after := m.txs[t].scan, End(m, t, Retryable);
    assert TxOk(m, t);
    if scan in m.locks {
      assert LockOk(m, scan);
    }
    EndIsLocal(m, t, Retryable);
    forall other | other != scan {
      OthersUnmoved(m, after, t, other);
    }
    if m.txs[t].next.Commit? && Deferring(m, scan) && scan in m.credits {
      var late := ReserveOp(scan, m.credits[scan]);
      PerformSingle(View(m), late);
      assert View(after).credits == Perform(View(m), late).credits;
    } else {
      assert View(after).credits == View(m).credits;
    }
  }

  /** Any other statement of a transaction is invisible. */
  lemma SimulateStatement(m: Machine, t: TxId)
    requires Inv(m) && t in m.txs && !m.txs[t].next.Commit?
    ensures View(RunStatement(m, t)) == View(m)
  {
    hide RunStatement;
    var scan, after := m.txs[t].scan, RunStatement(m, t);
    StatementIsLocal(m, t);
    SameHolder(m, t);
    forall other | other in m.credits ensures Deferring(after, other) == Deferring(m, other) {
      if other != scan {
        OthersUnmoved(m, after, t, other);
      }
    }
  }

  lemma SameHolder(m: Machine, t: TxId)
    requires Inv(m) && t in m.txs && !m.txs[t].next.Commit?
    ensures var scan := m.txs[t].scan;
            scan in m.credits ==> Deferring(RunStatement(m, t), scan) == Deferring(m, scan)
  {
    if m.txs[t].next.FinishQuota? {
      SameHolderFinishing(m, t);
    } else {
      SameHolderBefore(m, t);
    }
  }

  lemma SameHolderFinishing(m: Machine, t: TxId)
    requires Inv(m) && t in m.txs && m.txs[t].next.FinishQuota?
    ensures var scan := m.txs[t].scan;
            scan in m.credits ==> !Deferring(RunHolding(m, t), scan) && !Deferring(m, scan)
  {
    assert TxOk(m, t);
  }

  lemma SameHolderBefore(m: Machine, t: TxId)
    requires Inv(m) && t in m.txs && !Holding(m.txs[t].next)
    ensures Deferring(RunStatement(m, t), m.txs[t].scan) == Deferring(m, m.txs[t].scan)
  {
    hide RunRead, RunWrite;
    var scan, next := m.txs[t].scan, m.txs[t].next;
    if scan in m.locks {
      assert LockOk(m, scan);
    }
    if next.InsertRow? || next.UpdateRow? || next.AwaitRow? {
      WriteWaits(m, t);
    } else {
      ReadMoves(m, t);
    }
  }

  lemma SimulateBegin(m: Machine, t: TxId, scan: Uuid, cmd: Command)
    requires Inv(m)
    ensures View(Next(m, Begin(t, scan, cmd))) == View(m)
  {
    var after := Next(m, Begin(t, scan, cmd));
    forall held | held in m.credits ensures Deferring(after, held) == Deferring(m, held) {
      if held in m.locks {
        assert LockOk(m, held);
      }
    }
  }

  lemma SimulateSoftDelete(m: Machine, scan: Uuid, user: Uuid)
    ensures var act := SoftDelete(scan, user);
            Legal(View(m), Emit(m, act)) && View(Next(m, act)) == PerformAll(View(m), Emit(m, act))
  {
    var op := DropOp(scan, user);
    PerformSingle(View(m), op);
  }

  lemma SimulateReserve(m: Machine, scan: Uuid, credit: Credit)
    ensures var act := Reserve(scan, credit);
            Legal(View(m), Emit(m, act)) && View(Next(m, act)) == PerformAll(View(m), Emit(m, act))
  {
    var after := Next(m, Reserve(scan, credit));
    if Freeing(m, scan) {
    } else if Deferring(m, scan) {
      assert View(after).credits == View(m).credits;
    } else {
      var op := ReserveOp(scan, credit);
      PerformSingle(View(m), op);
      assert View(after).credits == Perform(View(m), op).credits;
    }
  }

  lemma Simulate(m: Machine, act: Action)
    requires Inv(m)
    ensures Legal(View(m), Emit(m, act))
    ensures View(Next(m, act)) == PerformAll(View(m), Emit(m, act))
  {
    hide RunStatement, RunHolding;
    match act
    case Begin(t, scan, cmd) =>
      SimulateBegin(m, t, scan, cmd);
    case Step(t) =>
      if t in m.txs {
        if m.txs[t].next.Commit? { SimulateCommit(m, t); } else { SimulateStatement(m, t); }
      }
    case Abort(t) =>
      if t in m.txs { SimulateAbort(m, t); }
    case SoftDelete(scan, user) =>
      SimulateSoftDelete(m, scan, user);
    case Reserve(scan, credit) =>
      SimulateReserve(m, scan, credit);
  }

  /** Every interleaving of any number of transactions, soft deletes and reservations has the effect of a
      legal serial run: its writes are the committed transactions in commit order. */
  lemma {:induction false} InterleavingsAreSerial(m: Machine, acts: seq<Action>)
    requires Inv(m)
    ensures Inv(Run(m, acts))
    ensures Legal(View(m), Trace(m, acts))
    ensures View(Run(m, acts)) == PerformAll(View(m), Trace(m, acts))
  {
    if acts != [] {
      var n := |acts| - 1;
      InterleavingsAreSerial(m, acts[..n]);
      var before := Run(m, acts[..n]);
      InvNext(before, acts[n]);
      Simulate(before, acts[n]);
      PerformMore(View(m), Trace(m, acts[..n]), Emit(before, acts[n]));
    }
  }

  /* ---- What the trace says about answers and commands ---- */

  function WritesBy(ops: seq<Op>, t: TxId): nat {
    if ops == [] then 0
    else WritesBy(ops[..|ops| - 1], t) + if ops[|ops| - 1].WriteOp? && ops[|ops| - 1].tx == t then 1 else 0
  }

  lemma {:induction false} WritesByMore(ops: seq<Op>, more: seq<Op>, t: TxId)
    ensures WritesBy(ops + more, t) == WritesBy(ops, t) + WritesBy(more, t)
  {
    if more == [] {
      assert ops + more == ops;
    } else {
      var n := |more| - 1;
      WritesByMore(ops, more[..n], t);
      assert (ops + more)[..|ops + more| - 1] == ops + more[..n];
    }
  }

  lemma EmitWrites(m: Machine, act: Action, t: TxId)
    requires Inv(m)
    ensures WritesBy(Emit(m, act), t) ==
              if act == Step(t) && t in m.txs && m.txs[t].next.Commit? then 1 else 0
  {
    if act.Step? && act.tx in m.txs && m.txs[act.tx].next.Commit? {
      var scan := m.txs[act.tx].scan;
      var write := WriteOp(act.tx, scan, m.txs[act.tx].cmd);
      WritesByMore([write], Deferred(m, scan), t);
    }
  }

  lemma LogNext(m: Machine, act: Action, t: TxId)
    requires Inv(m)
    ensures HasApplied(Next(m, act), t) <==>
              HasApplied(m, t) || (act == Step(t) && t in m.txs && m.txs[t].next.Commit?)
  {
    if act.Step? && act.tx in m.txs {
      hide RunStatement;
      assert TxOk(m, act.tx);
      StatementIsLocal(m, act.tx);
    }
  }

  /** A transaction contributes one write to the serial run when it is answered applied, and none
      otherwise: rejected, racing, retried and failed commands leave rows and credits alone. */
  lemma {:induction false} AppliedWritesOnce(m: Machine, acts: seq<Action>, t: TxId)
    requires Inv(m) && t !in m.log
    ensures WritesBy(Trace(m, acts), t) == if HasApplied(Run(m, acts), t) then 1 else 0
  {
    if acts != [] {
      var n := |acts| - 1;
      AppliedWritesOnce(m, acts[..n], t);
      InterleavingsAreSerial(m, acts[..n]);
      var before := Run(m, acts[..n]);
      WritesByMore(Trace(m, acts[..n]), Emit(before, acts[n]), t);
      EmitWrites(before, acts[n], t);
      LogNext(before, acts[n], t);
      if t in before.txs {
        assert TxOk(before, t);
      }
    }
  }

  /** p holds of every command in flight and of every command begun later. */
  ghost predicate AllCommands(m: Machine, acts: seq<Action>, p: (Uuid, Command) -> bool) {
    && (forall t | t in m.txs :: p(m.txs[t].scan, m.txs[t].cmd))
    && (forall act | act in acts && act.Begin? :: p(act.scan, act.cmd))
  }

  ghost predicate AllWrites(ops: seq<Op>, p: (Uuid, Command) -> bool) {
    forall op | op in ops && op.WriteOp? :: p(op.scan, op.cmd)
  }

  lemma CommandsNext(m: Machine, act: Action, p: (Uuid, Command) -> bool)
    requires AllCommands(m, [act], p)
    ensures AllCommands(Next(m, act), [], p)
    ensures AllWrites(Emit(m, act), p)
  {
    match act
    case Step(t) =>
      if t in m.txs {
        hide RunStatement;
        StatementIsLocal(m, t);
      }
    case Begin(t, scan, cmd) =>
      assert act in [act];
    case _ =>
  }

  /** The serial run writes only commands that were begun. */
  lemma {:induction false} TraceCommands(m: Machine, acts: seq<Action>, p: (Uuid, Command) -> bool)
    requires AllCommands(m, acts, p)
    ensures AllWrites(Trace(m, acts), p)
    ensures AllCommands(Run(m, acts), [], p)
  {
    if acts != [] {
      var n := |acts| - 1;
      TraceCommands(m, acts[..n], p);
      var before, after := Run(m, acts[..n]), Run(m, acts);
      assert acts[n] in acts;
      CommandsNext(before, acts[n], p);
    }
  }
}
