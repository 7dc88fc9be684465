/** What every interleaving of wallet commands keeps. Each property is proved of legal serial runs and
    carried over to the interleaved machine by WalletInterleaving.InterleavingsAreSerial. */
module WalletSafety {
  import opened Common
  import opened ScanState
  import opened UsageLedger
  import opened WalletTransition
  import opened WalletInterleaving

  /* ---- Hypotheses on commands ---- */

  predicate NoTerminalSource(scan: Uuid, cmd: Command) {
    forall s | s in cmd.sources :: !IsTerminal(s)
  }

  /** The handler ties the quota action to the target state. */
  predicate Tied(scan: Uuid, cmd: Command) {
    match cmd.target
    case RUNNING => cmd.quota == NoQuota
    case SUCCESS => cmd.quota == Keep
    case FAILED => cmd.quota == Release
    case _ => false
  }

  /** Moves a scan strictly forward: lifecycle sources, none of them terminal or the target itself. */
  predicate Forward(scan: Uuid, cmd: Command) {
    && Tied(scan, cmd)
    && cmd.target !in cmd.sources
    && forall s | s in cmd.sources :: !IsTerminal(s) && !s.Other?
  }

  /* ---- Terminal is final ---- */

  predicate Settled(rows: Rows, scan: Uuid) {
    scan in rows && IsTerminal(rows[scan].LogicalStatus())
  }

  /** The same row, possibly soft-deleted since. */
  predicate SameContent(before: Row, after: Row) {
    after == before.(deleted := after.deleted) && (before.deleted ==> after.deleted)
  }

  predicate IsTerminalWrite(op: Op, scan: Uuid) {
    op.WriteOp? && op.scan == scan && (op.cmd.target == SUCCESS || op.cmd.target == FAILED)
  }

  function TerminalWrites(ops: seq<Op>, scan: Uuid): nat {
    if ops == [] then 0
    else TerminalWrites(ops[..|ops| - 1], scan) + if IsTerminalWrite(ops[|ops| - 1], scan) then 1 else 0
  }

  lemma {:induction false} SettledStaysSerial(st: Store, ops: seq<Op>, scan: Uuid)
    requires Legal(st, ops) && AllWrites(ops, NoTerminalSource) && Settled(st.rows, scan)
    ensures var rows := PerformAll(st, ops).rows; scan in rows && SameContent(st.rows[scan], rows[scan])
    ensures TerminalWrites(ops, scan) == 0
  {
    if ops != [] {
      SettledStaysSerial(st, ops[..|ops| - 1], scan);
      assert ops[|ops| - 1] in ops;
    }
  }

  lemma {:induction false} TerminalOnceSerial(st: Store, ops: seq<Op>, scan: Uuid)
    requires Legal(st, ops) && AllWrites(ops, NoTerminalSource)
    ensures TerminalWrites(ops, scan) <= 1
    ensures TerminalWrites(ops, scan) == 1 ==> Settled(PerformAll(st, ops).rows, scan)
  {
    if ops != [] {
      TerminalOnceSerial(st, ops[..|ops| - 1], scan);
      assert ops[|ops| - 1] in ops;
    }
  }

  /** Over every interleaving at most one terminal command is applied to a scan, when no command lists a
      terminal source. */
  lemma TerminalOnce(m: Machine, acts: seq<Action>, scan: Uuid)
    requires Inv(m) && AllCommands(m, acts, NoTerminalSource)
    ensures TerminalWrites(Trace(m, acts), scan) <= 1
    ensures TerminalWrites(Trace(m, acts), scan) == 1 ==> Settled(Run(m, acts).rows, scan)
  {
    InterleavingsAreSerial(m, acts);
    TraceCommands(m, acts, NoTerminalSource);
    TerminalOnceSerial(View(m), Trace(m, acts), scan);
  }

  /** From any reachable machine on, a settled row keeps its status, error, result, owner, address and
      transition id whatever happens next. */
  lemma TerminalIsFinal(m: Machine, acts: seq<Action>, scan: Uuid)
    requires Inv(m) && AllCommands(m, acts, NoTerminalSource) && Settled(m.rows, scan)
    ensures scan in Run(m, acts).rows && SameContent(m.rows[scan], Run(m, acts).rows[scan])
    ensures TerminalWrites(Trace(m, acts), scan) == 0
  {
    InterleavingsAreSerial(m, acts);
    TraceCommands(m, acts, NoTerminalSource);
    SettledStaysSerial(View(m), Trace(m, acts), scan);
  }

  /** The hypothesis is needed: any command that lists the status of a settled live row among its sources and
      names another transition id rewrites the row. */
  lemma TerminalSourceRewrites(st: Store, scan: Uuid, cmd: Command)
    requires Settled(st.rows, scan) && Live(st.rows, scan) && !SameTransition(st.rows[scan], cmd)
    requires st.rows[scan].LogicalStatus() in cmd.sources && (cmd.quota == Keep ==> scan in st.credits)
    ensures var (next, result) := Apply(st, scan, cmd);
            && result.outcome == Applied && SameTransition(next.rows[scan], cmd)
            && !SameContent(st.rows[scan], next.rows[scan])
            && (Tied(scan, cmd) ==> next.rows[scan].status == Some(cmd.target))
            && (cmd.quota == Release ==> scan !in next.credits)
  {
  }

  /* ---- Credits ---- */

  ghost predicate SuccessHasCredit(rows: Rows, credits: Credits) {
    forall scan | scan in rows && rows[scan].status == Some(SUCCESS) :: scan in credits
  }

  lemma {:induction false} SuccessHasCreditSerial(st: Store, ops: seq<Op>)
    requires Legal(st, ops) && AllWrites(ops, Tied) && SuccessHasCredit(st.rows, st.credits)
    ensures SuccessHasCredit(PerformAll(st, ops).rows, PerformAll(st, ops).credits)
  {
    if ops != [] {
      SuccessHasCreditSerial(st, ops[..|ops| - 1]);
      assert ops[|ops| - 1] in ops;
    }
  }

  /** In every committed state of every interleaving, keeps racing releases included, a wallet row in
      SUCCESS has its credit, for any source lists. */
  lemma CreditInvariant(m: Machine, acts: seq<Action>)
    requires Inv(m) && AllCommands(m, acts, Tied) && SuccessHasCredit(View(m).rows, View(m).credits)
    ensures SuccessHasCredit(Run(m, acts).rows, Run(m, acts).credits)
  {
    InterleavingsAreSerial(m, acts);
    TraceCommands(m, acts, Tied);
    SuccessHasCreditSerial(View(m), Trace(m, acts));
    var after := Run(m, acts);
    assert View(after).credits.Keys <= after.credits.Keys;
  }

  /** The scans with an applied FAILED command. */
  function FailedScans(ops: seq<Op>): set<Uuid> {
    if ops == [] then {}
    else FailedScans(ops[..|ops| - 1])
         + if ops[|ops| - 1].WriteOp? && ops[|ops| - 1].cmd.target == FAILED then {ops[|ops| - 1].scan} else {}
  }

  predicate NoReservation(acts: seq<Action>) {
    forall act | act in acts :: !act.Reserve?
  }

  lemma {:induction false} ConservationSerial(st: Store, ops: seq<Op>)
    requires Legal(st, ops) && AllWrites(ops, Tied)
    requires forall op | op in ops :: !op.ReserveOp?
    ensures PerformAll(st, ops).credits == st.credits - FailedScans(ops)
  {
    if ops != [] {
      ConservationSerial(st, ops[..|ops| - 1]);
      assert ops[|ops| - 1] in ops;
    }
  }

  /** No transaction has a reservation waiting for it. */
  ghost predicate NothingDeferred(m: Machine) {
    forall scan :: Deferred(m, scan) == []
  }

  lemma NothingDeferredAfter(m: Machine, after: Machine, t: TxId, scan: Uuid)
    requires Inv(m) && NothingDeferred(m) && t in m.txs
    requires after == RunStatement(m, t) || after == End(m, t, Retryable)
    ensures Deferred(after, scan) == []
  {
    hide RunStatement;
    assert Deferred(m, scan) == [];
    StatementIsLocal(m, t);
    EndIsLocal(m, t, Retryable);
    if scan != m.txs[t].scan {
      OthersUnmoved(m, after, t, scan);
    } else if after == RunStatement(m, t) && !m.txs[t].next.Commit? {
      SameHolder(m, t);
    } else {
      EndedDefersNothing(m, after, t);
    }
  }

  /** Once a transaction has ended, its own row is held by nobody that defers. */
  lemma EndedDefersNothing(m: Machine, after: Machine, t: TxId)
    requires Inv(m) && t in m.txs
    requires after == End(m, t, Retryable) || (m.txs[t].next.Commit? && after == RunStatement(m, t))
    ensures m.txs[t].next.Commit? || !Deferring(m, m.txs[t].scan) ==> Deferred(after, m.txs[t].scan) == []
  {
    var scan := m.txs[t].scan;
    assert TxOk(m, t);
    if scan in m.locks {
      assert LockOk(m, scan);
    }
  }

  lemma NothingDeferredNext(m: Machine, act: Action)
    requires Inv(m) && NothingDeferred(m) && !act.Reserve?
    ensures NothingDeferred(Next(m, act))
    ensures forall op | op in Emit(m, act) :: !op.ReserveOp?
  {
    var after := Next(m, act);
    forall scan ensures Deferred(after, scan) == [] {
      assert Deferred(m, scan) == [];
      if (act.Step? || act.Abort?) && act.tx in m.txs {
        NothingDeferredAfter(m, after, act.tx, scan);
      } else if scan in m.locks {
        assert LockOk(m, scan);
      }
    }
    if (act.Step? || act.Abort?) && act.tx in m.txs {
      assert Deferred(m, m.txs[act.tx].scan) == [];
    }
  }

  lemma {:induction false} NothingDeferredRun(m: Machine, acts: seq<Action>)
    requires Inv(m) && NothingDeferred(m) && NoReservation(acts)
    ensures NothingDeferred(Run(m, acts))
    ensures forall op | op in Trace(m, acts) :: !op.ReserveOp?
  {
    if acts != [] {
      var n := |acts| - 1;
      assert acts[n] in acts;
      NothingDeferredRun(m, acts[..n]);
      InterleavingsAreSerial(m, acts[..n]);
      NothingDeferredNext(Run(m, acts[..n]), acts[n]);
    }
  }

  /** Without new reservations the committed credits are exactly the initial ones minus the scans with an
      applied FAILED command: transitions add none, and rejected, racing or retried commands remove none. */
  lemma CreditConservation(m: Machine, acts: seq<Action>)
    requires Inv(m) && AllCommands(m, acts, Tied) && NothingDeferred(m) && NoReservation(acts)
    ensures Run(m, acts).credits == m.credits - FailedScans(Trace(m, acts))
  {
    InterleavingsAreSerial(m, acts);
    TraceCommands(m, acts, Tied);
    NothingDeferredRun(m, acts);
    ConservationSerial(View(m), Trace(m, acts));
    ViewOfNothingDeferred(m);
    ViewOfNothingDeferred(Run(m, acts));
  }

  lemma ViewOfNothingDeferred(m: Machine)
    requires NothingDeferred(m)
    ensures View(m).credits == m.credits
  {
    forall scan | scan in m.credits ensures !Deferring(m, scan) {
      assert Deferred(m, scan) == [];
    }
  }

  lemma StatementAddsNoCredit(m: Machine, t: TxId, scan: Uuid)
    requires t in m.txs && scan !in m.credits
    ensures scan !in RunStatement(m, t).credits
  {
    if m.txs[t].next.Commit? {
      assert RunStatement(m, t) == RunHolding(m, t);
    }
  }

  /** A scan gets a credit only from a reservation made for it. */
  lemma {:induction false} OnlyReservationsAdd(m: Machine, acts: seq<Action>, scan: Uuid)
    requires scan !in m.credits && forall act | act in acts && act.Reserve? :: act.scan != scan
    ensures scan !in Run(m, acts).credits
  {
    if acts != [] {
      var n := |acts| - 1;
      assert acts[n] in acts;
      OnlyReservationsAdd(m, acts[..n], scan);
      var before := Run(m, acts[..n]);
      if acts[n].Step? && acts[n].tx in before.txs {
        StatementAddsNoCredit(before, acts[n].tx, scan);
      }
    }
  }

  /* ---- Forward commands ---- */

  /** Each write raises the rank of its scan, and its target is not below what the scan had reached. */
  lemma {:induction false} RanksRiseSerial(st: Store, ops: seq<Op>, i: nat)
    requires Legal(st, ops) && AllWrites(ops, Forward) && i < |ops| && ops[i].WriteOp?
    ensures forall j | i < j < |ops| && ops[j].WriteOp? && ops[j].scan == ops[i].scan ::
              Rank(ops[i].cmd.target) < Rank(ops[j].cmd.target)
    ensures Rank(ops[i].cmd.target) <= Rank(StatusAt(PerformAll(st, ops).rows, ops[i].scan))
  {
    var n := |ops| - 1;
    assert ops[n] in ops;
    if i < n {
      RanksRiseSerial(st, ops[..n], i);
      assert ops[..n][i] == ops[i];
      assert forall j | 0 <= j < n :: ops[..n][j] == ops[j];
    }
  }

  /** Exactly-once effect under redelivery and reordering: when sources contain neither the target nor a
      terminal state, the commands applied to one scan have strictly rising targets. So at most two are
      applied, and no target is applied twice. */
  lemma RanksRise(m: Machine, acts: seq<Action>, i: nat, j: nat)
    requires Inv(m) && AllCommands(m, acts, Forward)
    requires i < j < |Trace(m, acts)|
    requires var ops := Trace(m, acts); ops[i].WriteOp? && ops[j].WriteOp? && ops[i].scan == ops[j].scan
    ensures var ops := Trace(m, acts); 1 == Rank(ops[i].cmd.target) && 2 == Rank(ops[j].cmd.target)
  {
    InterleavingsAreSerial(m, acts);
    TraceCommands(m, acts, Forward);
    var ops := Trace(m, acts);
    RanksRiseSerial(View(m), ops, i);
    assert ops[i] in ops && ops[j] in ops;
  }

  function WritesOn(ops: seq<Op>, scan: Uuid): nat {
    if ops == [] then 0
    else WritesOn(ops[..|ops| - 1], scan) + if ops[|ops| - 1].WriteOp? && ops[|ops| - 1].scan == scan then 1 else 0
  }

  lemma {:induction false} WritesRaiseRank(st: Store, ops: seq<Op>, scan: Uuid)
    requires Legal(st, ops) && AllWrites(ops, Forward)
    ensures Rank(StatusAt(st.rows, scan)) + WritesOn(ops, scan) <= Rank(StatusAt(PerformAll(st, ops).rows, scan))
  {
    if ops != [] {
      WritesRaiseRank(st, ops[..|ops| - 1], scan);
      assert ops[|ops| - 1] in ops;
    }
  }

  /** However often and in whatever order its commands arrive, a scan sees at most two applied commands:
      every one of them raises its rank. */
  lemma AtMostTwoApplied(m: Machine, acts: seq<Action>, scan: Uuid)
    requires Inv(m) && AllCommands(m, acts, Forward)
    ensures Rank(StatusAt(m.rows, scan)) + WritesOn(Trace(m, acts), scan) <= Rank(StatusAt(Run(m, acts).rows, scan)) <= 2
  {
    InterleavingsAreSerial(m, acts);
    TraceCommands(m, acts, Forward);
    WritesRaiseRank(View(m), Trace(m, acts), scan);
  }

  /** From any machine, whatever is in flight: a transition id that always names the same target has at most
      one effect on a scan. WalletRedelivery.OneEffectPerIdIff has the exact condition from a machine at rest. */
  lemma TransitionHasOneEffect(m: Machine, acts: seq<Action>, targetOf: string -> State, i: nat, j: nat)
    requires Inv(m) && AllCommands(m, acts, Forward)
    requires AllCommands(m, acts, (scan: Uuid, cmd: Command) => targetOf(cmd.transitionId) == cmd.target)
    requires i < j < |Trace(m, acts)|
    requires var ops := Trace(m, acts); ops[i].WriteOp? && ops[j].WriteOp? && ops[i].scan == ops[j].scan
    ensures var ops := Trace(m, acts); ops[i].cmd.transitionId != ops[j].cmd.transitionId
  {
    RanksRise(m, acts, i, j);
    TraceCommands(m, acts, (scan: Uuid, cmd: Command) => targetOf(cmd.transitionId) == cmd.target);
    var ops := Trace(m, acts);
    assert ops[i] in ops && ops[j] in ops;
  }

  /* ---- What a row shows ---- */

  /** The command of the last write to a scan. */
  function LastWrite(ops: seq<Op>, scan: Uuid): Option<Command> {
    if ops == [] then None
    else
      var last := ops[|ops| - 1];
      if last.WriteOp? && last.scan == scan then Some(last.cmd) else LastWrite(ops[..|ops| - 1], scan)
  }

  /** The result of the last SUCCESS write to a scan, or what the scan had before. */
  function LastResult(rows: Rows, ops: seq<Op>, scan: Uuid): Payload {
    if ops == [] then (if scan in rows then rows[scan].payload else NO_PAYLOAD)
    else
      var last := ops[|ops| - 1];
      if last.WriteOp? && last.scan == scan && last.cmd.target == SUCCESS then last.cmd.result
      else LastResult(rows, ops[..|ops| - 1], scan)
  }

  predicate Shows(row: Row, cmd: Command) {
    && row.owner == cmd.user && row.address == cmd.address && row.transitionId == Some(cmd.transitionId)
    && row.status == Some(cmd.target) && row.updatedAt == cmd.at
    && row.error == (if cmd.target == FAILED then cmd.error else "")
  }

  lemma WriteShows(st: Store, scan: Uuid, cmd: Command)
    requires Tied(scan, cmd)
    ensures var row := Write(st, scan, cmd).rows[scan];
            && Shows(row, cmd)
            && row.payload == (if cmd.target == SUCCESS then cmd.result
                               else if scan in st.rows then st.rows[scan].payload else NO_PAYLOAD)
  {
  }

  lemma {:induction false} RowsShowLastWriteSerial(st: Store, ops: seq<Op>, scan: Uuid)
    requires Legal(st, ops) && AllWrites(ops, Tied)
    ensures var rows, last := PerformAll(st, ops).rows, LastWrite(ops, scan);
            && (last.Some? ==> scan in rows && Shows(rows[scan], last.value))
            && (last.None? && scan in rows ==> scan in st.rows && SameContent(st.rows[scan], rows[scan]))
            && (scan in rows ==> rows[scan].payload == LastResult(st.rows, ops, scan))
            && (scan !in rows ==> scan !in st.rows && LastResult(st.rows, ops, scan) == NO_PAYLOAD)
  {
    if ops != [] {
      var n := |ops| - 1;
      assert ops[n] in ops;
      RowsShowLastWriteSerial(st, ops[..n], scan);
      if ops[n].WriteOp? && ops[n].scan == scan {
        WriteShows(PerformAll(st, ops[..n]), scan, ops[n].cmd);
      }
    }
  }

  /** After every interleaving of tied commands, with any sources, each written row shows exactly the command
      applied to it last and carries the result of the last applied SUCCESS; a row that no command wrote is
      as it was, up to its soft delete. */
  lemma RowsShowLastWrite(m: Machine, acts: seq<Action>, scan: Uuid)
    requires Inv(m) && AllCommands(m, acts, Tied)
    ensures var rows, last := Run(m, acts).rows, LastWrite(Trace(m, acts), scan);
            && (last.Some? ==> scan in rows && Shows(rows[scan], last.value))
            && (last.None? && scan in rows ==> scan in m.rows && SameContent(m.rows[scan], rows[scan]))
            && (scan in rows ==> rows[scan].payload == LastResult(m.rows, Trace(m, acts), scan))
  {
    InterleavingsAreSerial(m, acts);
    TraceCommands(m, acts, Tied);
    RowsShowLastWriteSerial(View(m), Trace(m, acts), scan);
  }

  ghost predicate ResultsAreOfSuccess(rows: Rows) {
    forall scan | scan in rows && rows[scan].LogicalStatus() != SUCCESS :: rows[scan].payload == NO_PAYLOAD
  }

  lemma {:induction false} ResultsAreOfSuccessSerial(st: Store, ops: seq<Op>)
    requires Legal(st, ops) && AllWrites(ops, NoTerminalSource) && ResultsAreOfSuccess(st.rows)
    ensures ResultsAreOfSuccess(PerformAll(st, ops).rows)
  {
    if ops != [] {
      var n := |ops| - 1;
      assert ops[n] in ops;
      ResultsAreOfSuccessSerial(st, ops[..n]);
      if ops[n].WriteOp? {
        WriteLeavesNoResult(PerformAll(st, ops[..n]), ops[n].scan, ops[n].cmd);
      }
    }
  }

  lemma WriteLeavesNoResult(st: Store, scan: Uuid, cmd: Command)
    requires MayWrite(st, scan, cmd) && NoTerminalSource(scan, cmd) && ResultsAreOfSuccess(st.rows)
    ensures ResultsAreOfSuccess(Write(st, scan, cmd).rows)
  {
    if scan in st.rows {
      assert st.rows[scan].LogicalStatus() in cmd.sources;
    }
  }

  /** Without terminal sources only SUCCESS rows carry a result, in every interleaving. */
  lemma OnlySuccessHasResult(m: Machine, acts: seq<Action>)
    requires Inv(m) && AllCommands(m, acts, NoTerminalSource) && ResultsAreOfSuccess(m.rows)
    ensures ResultsAreOfSuccess(Run(m, acts).rows)
  {
    InterleavingsAreSerial(m, acts);
    TraceCommands(m, acts, NoTerminalSource);
    ResultsAreOfSuccessSerial(View(m), Trace(m, acts));
  }

  /* ---- No resurrection ---- */

  lemma {:induction false} DeletedStaysSerial(st: Store, ops: seq<Op>, scan: Uuid)
    requires Legal(st, ops) && scan in st.rows && st.rows[scan].deleted
    ensures var after := PerformAll(st, ops);
            && scan in after.rows && after.rows[scan] == st.rows[scan]
            && (scan in st.credits ==> scan in after.credits && after.credits[scan] == st.credits[scan])
    ensures forall op | op in ops && op.WriteOp? :: op.scan != scan
  {
    if ops != [] {
      DeletedStaysSerial(st, ops[..|ops| - 1], scan);
    }
  }

  /** Once a row is soft-deleted no command makes it live or changes it, gives up its credit or takes one,
      in any interleaving and for any commands at all. */
  lemma NoResurrection(m: Machine, acts: seq<Action>, scan: Uuid)
    requires Inv(m) && scan in m.rows && m.rows[scan].deleted
    ensures scan in Run(m, acts).rows && Run(m, acts).rows[scan] == m.rows[scan]
    ensures scan in m.credits ==> scan in Run(m, acts).credits && Run(m, acts).credits[scan] == m.credits[scan]
    ensures scan !in m.credits && (forall act | act in acts && act.Reserve? :: act.scan != scan)
            ==> scan !in Run(m, acts).credits
    ensures forall op | op in Trace(m, acts) && op.WriteOp? :: op.scan != scan
  {
    InterleavingsAreSerial(m, acts);
    DeletedStaysSerial(View(m), Trace(m, acts), scan);
    assert scan in m.locks ==> LockOk(m, scan);
    assert forall t | t in m.txs :: TxOk(m, t);
    assert scan in m.credits ==> scan in View(m).credits;
    if scan !in m.credits && (forall act | act in acts && act.Reserve? :: act.scan != scan) {
      OnlyReservationsAdd(m, acts, scan);
    }
  }
}
