/** Commands that are delivered more than once, and commands that share a transition id. The conditional
    UPDATE of internal/wallettransition/apply.go tests the status and not the transition id, so a race may
    apply two of them. This module says exactly when. */
module WalletRedelivery {
  import opened Common
  import opened ScanState
  import opened UsageLedger
  import opened WalletTransition
  import opened WalletInterleaving
  import opened WalletSafety
  import opened WalletSolo

  /* ---- A race that applies two commands ---- */

  /** The row is live, has one of the command's sources as its status, and carries another transition id. */
  predicate Ready(rows: Rows, scan: Uuid, cmd: Command) {
    Live(rows, scan) && !SameTransition(rows[scan], cmd) && StatusAt(rows, scan) in cmd.sources
  }

  /** The statements from the first read of a live row to its update. */
  function ReadSteps(cmd: Command): nat {
    if cmd.quota == Keep then 2 else 1
  }

  lemma ReadOnce(m: Machine, t: TxId)
    requires t in m.txs && m.txs[t].next.FirstRead? && Ready(m.rows, m.txs[t].scan, m.txs[t].cmd)
    ensures var row := m.rows[m.txs[t].scan];
            Next(m, Step(t)) == Goto(m, t, if m.txs[t].cmd.quota == Keep then CheckBeforeUpdate(row) else UpdateRow(row, false))
  {
  }

  lemma CheckOnce(m: Machine, t: TxId, row: Row)
    requires t in m.txs && m.txs[t].next == CheckBeforeUpdate(row) && m.txs[t].scan in m.credits
    ensures Next(m, Step(t)) == Goto(m, t, UpdateRow(row, false))
  {
  }

  lemma ReadToUpdate(m: Machine, t: TxId)
    requires t in m.txs && m.txs[t].next.FirstRead? && Ready(m.rows, m.txs[t].scan, m.txs[t].cmd)
    requires m.txs[t].scan in m.credits
    ensures Drive(m, t, ReadSteps(m.txs[t].cmd)) == Goto(m, t, UpdateRow(m.rows[m.txs[t].scan], false))
  {
    var Tx(scan, cmd, _) := m.txs[t];
    var n := ReadSteps(cmd);
    ReadOnce(m, t);
    DriveFirst(m, t, n);
    if cmd.quota == Keep {
      var checking := Goto(m, t, CheckBeforeUpdate(m.rows[scan]));
      CheckOnce(checking, t, m.rows[scan]);
      DriveFirst(checking, t, n - 1);
    }
  }

  function Reservation(scan: Uuid): Action {
    Reserve(scan, Credit(NIL_UUID, Wallet))
  }

  /** Both transactions read the row, then both write it; a credit is reserved before each write, in case
      there is none. */
  function Race(scan: Uuid, c: Command, d: Command, t: TxId, u: TxId, n: nat): seq<Action> {
    [Reservation(scan), Begin(t, scan, c), Begin(u, scan, d)] + Steps(t, ReadSteps(c)) + Steps(u, ReadSteps(d))
    + Steps(t, n) + [Reservation(scan)] + Steps(u, n)
  }

  lemma RunThree(m: Machine, a: Action, b: Action, c: Action)
    ensures Run(m, [a, b, c]) == Next(Next(Next(m, a), b), c)
  {
    assert [a, b, c] == [a] + [b] + [c];
    RunMore(m, [a] + [b], [c]);
    RunMore(m, [a], [b]);
    RunSingle(m, a);
    RunSingle(Next(m, a), b);
    RunSingle(Next(Next(m, a), b), c);
  }

  lemma RunRace(m: Machine, scan: Uuid, c: Command, d: Command, t: TxId, u: TxId, n: nat)
    ensures var begun := Next(Next(Next(m, Reservation(scan)), Begin(t, scan, c)), Begin(u, scan, d));
            var first := Drive(Drive(Drive(begun, t, ReadSteps(c)), u, ReadSteps(d)), t, n);
            Run(m, Race(scan, c, d, t, u, n)) == Drive(Next(first, Reservation(scan)), u, n)
  {
    var a, b := [Reservation(scan), Begin(t, scan, c), Begin(u, scan, d)], [Reservation(scan)];
    var readT, readU, endT, endU := Steps(t, ReadSteps(c)), Steps(u, ReadSteps(d)), Steps(t, n), Steps(u, n);
    RunThree(m, Reservation(scan), Begin(t, scan, c), Begin(u, scan, d));
    RunMore(m, a + readT + readU + endT + b, endU);
    RunMore(m, a + readT + readU + endT, b);
    RunMore(m, a + readT + readU, endT);
    RunMore(m, a + readT, readU);
    RunMore(m, a, readT);
    RunSingle(Run(m, a + readT + readU + endT), Reservation(scan));
  }

  lemma RaceReads(m: Machine, scan: Uuid, c: Command, d: Command, t: TxId, u: TxId)
    requires t !in m.txs && u !in m.txs && t !in m.log && u !in m.log && t != u
    requires Ready(m.rows, scan, c) && Ready(m.rows, scan, d) && scan in m.credits
    ensures var begun := Next(Next(m, Begin(t, scan, c)), Begin(u, scan, d));
            var update := UpdateRow(m.rows[scan], false);
            Drive(Drive(begun, t, ReadSteps(c)), u, ReadSteps(d))
              == m.(txs := m.txs[t := Tx(scan, c, update)][u := Tx(scan, d, update)])
  {
    hide RunStatement, Run;
    var update := UpdateRow(m.rows[scan], false);
    var begun := m.(txs := m.txs[t := Tx(scan, c, FirstRead)][u := Tx(scan, d, FirstRead)]);
    assert Next(Next(m, Begin(t, scan, c)), Begin(u, scan, d)) == begun;
    ReadToUpdate(begun, t);
    var half := m.(txs := m.txs[t := Tx(scan, c, update)][u := Tx(scan, d, FirstRead)]);
    assert half.txs == begun.txs[t := Tx(scan, c, update)];
    ReadToUpdate(half, u);
    assert half.txs[u := Tx(scan, d, update)] == m.txs[t := Tx(scan, c, update)][u := Tx(scan, d, update)];
  }

  lemma ReservationHolds(m: Machine, scan: Uuid)
    requires scan !in m.locks
    ensures var after := Next(m, Reservation(scan));
            scan in after.credits && after == m.(credits := after.credits)
  {
  }

  /** Two commands that both admit the row, the second also the first one's target: in this race both are
      answered applied, whatever their transition ids and quota actions. */
  lemma BothApply(m: Machine, scan: Uuid, c: Command, d: Command, t: TxId, u: TxId, n: nat)
    requires t !in m.txs && u !in m.txs && t !in m.log && u !in m.log && t != u && scan !in m.locks && n >= 4
    requires Ready(m.rows, scan, c) && Ready(m.rows, scan, d) && Tied(scan, c) && c.target in d.sources
    ensures var after := Run(m, Race(scan, c, d, t, u, n)); HasApplied(after, t) && HasApplied(after, u)
  {
    hide RunStatement, Run;
    RunRace(m, scan, c, d, t, u, n);
    ReservationHolds(m, scan);
    var reserved := Next(m, Reservation(scan));
    RaceReads(reserved, scan, c, d, t, u);
    var row := m.rows[scan];
    var ready := reserved.(txs := m.txs[t := Tx(scan, c, UpdateRow(row, false))][u := Tx(scan, d, UpdateRow(row, false))]);
    SoloUpdate(ready, t, scan, c, row, n);
    var first := Drive(ready, t, n);
    SecondApplies(first, scan, d, u, row, n);
  }

  /** The second write of the race, on a row that still admits it. */
  lemma SecondApplies(m: Machine, scan: Uuid, d: Command, u: TxId, read: Row, n: nat)
    requires u in m.txs && m.txs[u] == Tx(scan, d, UpdateRow(read, false)) && scan !in m.locks && n >= 4
    requires Live(m.rows, scan) && StatusAt(m.rows, scan) in d.sources
    ensures var after := Drive(Next(m, Reservation(scan)), u, n);
            HasApplied(after, u) && forall t | HasApplied(m, t) :: HasApplied(after, t)
  {
    hide RunStatement, Run;
    ReservationHolds(m, scan);
    SoloUpdate(Next(m, Reservation(scan)), u, scan, d, read, n);
  }

  /** One command delivered twice, when its target is among its sources: both deliveries are answered
      applied. */
  lemma RedeliveryMayApplyTwice(m: Machine, scan: Uuid, cmd: Command, t: TxId, u: TxId, n: nat)
    requires t !in m.txs && u !in m.txs && t !in m.log && u !in m.log && t != u && scan !in m.locks && n >= 4
    requires Ready(m.rows, scan, cmd) && Tied(scan, cmd) && cmd.target in cmd.sources
    ensures var after := Run(m, Race(scan, cmd, cmd, t, u, n)); HasApplied(after, t) && HasApplied(after, u)
  {
    BothApply(m, scan, cmd, cmd, t, u, n);
  }

  /* ---- The commands sent for a scan ---- */

  ghost predicate AtRest(m: Machine) {
    m.txs == map[] && m.locks == map[]
  }

  /** Every command begun for this scan is one of cmds, each delivered any number of times; commands for other
      scans, soft deletes, reservations and aborts are free. */
  ghost predicate Sends(acts: seq<Action>, scan: Uuid, cmds: iset<Command>) {
    forall act | act in acts && act.Begin? && act.scan == scan :: act.cmd in cmds
  }

  ghost predicate InFlight(m: Machine, scan: Uuid, cmds: iset<Command>) {
    forall t | t in m.txs && m.txs[t].scan == scan :: m.txs[t].cmd in cmds
  }

  /** A statement that has read no live row yet. */
  predicate Early(next: Statement) {
    next.FirstRead? || next.CheckBeforeInsert? || next.InsertRow? || next.ReadWinner?
  }

  /** The ways in which a transaction gets past its first read: it never returns, it qualifies a live row
      that admits its command and carries another transition id, or it inserts the row. */
  lemma StatementAdvances(m: Machine, t: TxId)
    requires t in m.txs
    ensures var Tx(scan, cmd, next), after := m.txs[t], RunStatement(m, t);
            t in after.txs ==>
              || Early(after.txs[t].next)
              || (!Early(next) && (Holding(next) ==> Holding(after.txs[t].next)))
              || (Ready(m.rows, scan, cmd) && !Holding(after.txs[t].next))
              || (scan !in m.rows && Holding(after.txs[t].next))
  {
    hide RunWrite, RunHolding;
    var Tx(scan, cmd, next) := m.txs[t];
    if next.InsertRow? {
      InsertAdvances(m, t);
    } else if Holding(next) {
      HoldingAdvances(m, t);
    }
  }

  lemma HoldingAdvances(m: Machine, t: TxId)
    requires t in m.txs && Holding(m.txs[t].next)
    ensures t in RunHolding(m, t).txs ==> Holding(RunHolding(m, t).txs[t].next)
  {
  }

  lemma InsertAdvances(m: Machine, t: TxId)
    requires t in m.txs && m.txs[t].next.InsertRow?
    ensures var after := RunWrite(m, t).txs[t].next; Early(after) || (m.txs[t].scan !in m.rows && Holding(after))
  {
  }

  lemma StatementKeepsRows(m: Machine, t: TxId)
    requires t in m.txs
    ensures RunStatement(m, t).rows ==
              if m.txs[t].next.Commit? then m.rows[m.txs[t].scan := m.txs[t].next.written] else m.rows
  {
    if m.txs[t].next.Commit? {
      assert RunStatement(m, t) == RunHolding(m, t);
    } else {
      StatementIsLocal(m, t);
    }
  }

  /** The holder of a row is alone, its command admits the row, and it writes what the command says. */
  lemma HolderWrites(m: Machine, t: TxId)
    requires Inv(m) && t in m.txs && Holding(m.txs[t].next)
    ensures var Tx(scan, cmd, next) := m.txs[t];
            && (scan in m.rows ==> Live(m.rows, scan))
            && StatusAt(m.rows, scan) in cmd.sources
            && next.written == WrittenRow(m.rows, scan, cmd)
            && forall u | u in m.txs && u != t && m.txs[u].scan == scan :: !Holding(m.txs[u].next)
  {
    assert TxOk(m, t);
    forall u | u in m.txs && u != t && m.txs[u].scan == m.txs[t].scan ensures !Holding(m.txs[u].next) {
      assert TxOk(m, u);
    }
  }

  lemma EndedIsGone(m: Machine, t: TxId)
    requires t in m.txs && m.txs[t].next.Commit?
    ensures t !in RunStatement(m, t).txs
  {
    assert RunStatement(m, t) == RunHolding(m, t);
  }

  /** A write is of this scan exactly at the commit of one of its transactions. */
  predicate Commits(m: Machine, act: Action, scan: Uuid) {
    act.Step? && act.tx in m.txs && m.txs[act.tx].next.Commit? && m.txs[act.tx].scan == scan
  }

  lemma EmitWritesOn(m: Machine, act: Action, scan: Uuid)
    requires Inv(m)
    ensures WritesOn(Emit(m, act), scan) == if Commits(m, act, scan) then 1 else 0
  {
    if act.Step? && act.tx in m.txs && m.txs[act.tx].next.Commit? {
      var Tx(s, cmd, _) := m.txs[act.tx];
      WritesOnMore([WriteOp(act.tx, s, cmd)], Deferred(m, s), scan);
    }
  }

  lemma {:induction false} WritesOnMore(ops: seq<Op>, more: seq<Op>, scan: Uuid)
    ensures WritesOn(ops + more, scan) == WritesOn(ops, scan) + WritesOn(more, scan)
  {
    if more == [] {
      assert ops + more == ops;
    } else {
      var n := |more| - 1;
      WritesOnMore(ops, more[..n], scan);
      assert (ops + more)[..|ops + more| - 1] == ops + more[..n];
    }
  }

  /** Rows of a scan change only by its commits and its soft delete. */
  lemma RowNext(m: Machine, act: Action, scan: Uuid)
    ensures !Commits(m, act, scan) ==>
              && (scan in Next(m, act).rows <==> scan in m.rows)
              && (scan in m.rows ==> SameContent(m.rows[scan], Next(m, act).rows[scan]))
  {
    if act.Step? && act.tx in m.txs {
      hide RunStatement;
      StatementKeepsRows(m, act.tx);
    }
  }

  /** A transaction of the scan after one action: as before, just begun, or advanced by its own statement. */
  lemma TxNext(m: Machine, act: Action, scan: Uuid, cmds: iset<Command>, t: TxId)
    requires InFlight(m, scan, cmds) && Sends([act], scan, cmds)
    requires t in Next(m, act).txs && Next(m, act).txs[t].scan == scan
    ensures var after := Next(m, act).txs[t];
            && after.cmd in cmds
            && (|| Early(after.next)
                || (t in m.txs && m.txs[t] == after)
                || (t in m.txs && act == Step(t) && m.txs[t].scan == scan && m.txs[t].cmd == after.cmd && !Commits(m, act, scan)
                    && (|| (!Early(m.txs[t].next) && (Holding(m.txs[t].next) ==> Holding(after.next)))
                        || (Ready(m.rows, scan, after.cmd) && !Holding(after.next))
                        || (scan !in m.rows && Holding(after.next)))))
  {
    hide RunStatement;
    match act
    case Step(u) =>
      if u in m.txs {
        StatementIsLocal(m, u);
        StatementAdvances(m, u);
        if m.txs[u].next.Commit? {
          EndedIsGone(m, u);
        }
      }
    case Begin(u, s, c) =>
      assert act in [act];
    case _ =>
  }

  /* ---- Commands that share a transition id ---- */

  predicate Carries(rows: Rows, scan: Uuid, id: string) {
    scan in rows && rows[scan].transitionId == Some(id)
  }

  ghost predicate ShareId(cmds: iset<Command>, scan: Uuid, id: string) {
    forall c | c in cmds :: c.transitionId == id && Tied(scan, c)
  }

  /** Both commands admit status s, and the second also what the first one writes. */
  predicate Chained(c: Command, d: Command, s: State) {
    s in c.sources && s in d.sources && c.target in d.sources
  }

  ghost predicate Unchained(cmds: iset<Command>, s: State) {
    forall c, d | c in cmds && d in cmds :: !Chained(c, d, s)
  }

  predicate Opens(cmd: Command, start: Option<State>) {
    start.Some? && start.value in cmd.sources
  }

  ghost predicate ClosedBy(m: Machine, scan: Uuid, cmds: iset<Command>, start: Option<State>) {
    exists c :: c in cmds && Opens(c, start) && StatusAt(m.rows, scan) == c.target
  }

  /** A transaction past its first read inserts the row, or admits the status that the row had before any
      of these commands wrote it. */
  ghost predicate Fits(m: Machine, scan: Uuid, cmds: iset<Command>, id: string, start: Option<State>, t: TxId)
    requires t in m.txs
  {
    || Early(m.txs[t].next)
    || (scan !in m.rows && Holding(m.txs[t].next))
    || (&& scan in m.rows && Opens(m.txs[t].cmd, start)
        && (Carries(m.rows, scan, id) ==> ClosedBy(m, scan, cmds, start)))
  }

  /** start is the status of a row that does not carry the id yet. */
  ghost predicate OneId(m: Machine, scan: Uuid, cmds: iset<Command>, id: string, start: Option<State>) {
    && InFlight(m, scan, cmds)
    && (scan in m.rows && !Carries(m.rows, scan, id) ==> start == Some(StatusAt(m.rows, scan)))
    && forall t | t in m.txs && m.txs[t].scan == scan :: Fits(m, scan, cmds, id, start, t)
  }

  /** A commit finds a row without the id, and leaves one with it. */
  lemma OneIdCommits(m: Machine, t: TxId, scan: Uuid, cmds: iset<Command>, id: string, start: Option<State>)
    requires Inv(m) && OneId(m, scan, cmds, id, start) && ShareId(cmds, scan, id)
    requires start.Some? ==> Unchained(cmds, start.value)
    requires t in m.txs && m.txs[t].scan == scan && m.txs[t].next.Commit?
    ensures var cmd, after := m.txs[t].cmd, RunStatement(m, t);
            && !Carries(m.rows, scan, id) && Carries(after.rows, scan, id) && StatusAt(after.rows, scan) == cmd.target
            && (scan in m.rows ==> Opens(cmd, start))
  {
    HolderWrites(m, t);
    StatementKeepsRows(m, t);
    hide RunStatement;
    assert Fits(m, scan, cmds, id, start, t);
    assert forall c | c in cmds && Opens(c, start) && StatusAt(m.rows, scan) == c.target :: Chained(c, m.txs[t].cmd, start.value);
  }

  /** The others after a commit of the scan: they stand where they stood. */
  lemma FitsAfterCommit(m: Machine, u: TxId, scan: Uuid, cmds: iset<Command>, id: string, start: Option<State>, t: TxId)
    requires Inv(m) && OneId(m, scan, cmds, id, start) && ShareId(cmds, scan, id)
    requires start.Some? ==> Unchained(cmds, start.value)
    requires u in m.txs && m.txs[u].scan == scan && m.txs[u].next.Commit?
    requires t in m.txs && m.txs[t].scan == scan && t != u && t in RunStatement(m, u).txs && RunStatement(m, u).txs[t] == m.txs[t]
    ensures Fits(RunStatement(m, u), scan, cmds, id, start, t)
  {
    OneIdCommits(m, u, scan, cmds, id, start);
    HolderWrites(m, u);
    StatementKeepsRows(m, u);
    hide RunStatement, Inv, Unchained;
    assert Fits(m, scan, cmds, id, start, t);
    if !Early(m.txs[t].next) {
      assert scan in m.rows;
      assert m.txs[u].cmd in cmds;
      assert ClosedBy(RunStatement(m, u), scan, cmds, start);
    }
  }

  /** Without a commit of the scan its row is the same, so a transaction that fitted still fits. */
  lemma FitsWithoutCommit(m: Machine, after: Machine, scan: Uuid, cmds: iset<Command>, id: string, start: Option<State>, t: TxId)
    requires OneId(m, scan, cmds, id, start) && ShareId(cmds, scan, id)
    requires scan in after.rows <==> scan in m.rows
    requires scan in m.rows ==> SameContent(m.rows[scan], after.rows[scan])
    requires t in m.txs && m.txs[t].scan == scan && t in after.txs && after.txs[t].cmd == m.txs[t].cmd
    requires || after.txs[t] == m.txs[t]
             || (!Early(m.txs[t].next) && (Holding(m.txs[t].next) ==> Holding(after.txs[t].next)))
             || (Ready(m.rows, scan, m.txs[t].cmd) && !Holding(after.txs[t].next))
             || (scan !in m.rows && Holding(after.txs[t].next))
    ensures Fits(after, scan, cmds, id, start, t)
  {
    assert Fits(m, scan, cmds, id, start, t);
    assert ClosedBy(m, scan, cmds, start) && scan in m.rows ==> ClosedBy(after, scan, cmds, start);
  }

  lemma OneIdFits(m: Machine, act: Action, scan: Uuid, cmds: iset<Command>, id: string, start: Option<State>, t: TxId)
    requires Inv(m) && OneId(m, scan, cmds, id, start) && ShareId(cmds, scan, id)
    requires start.Some? ==> Unchained(cmds, start.value)
    requires Sends([act], scan, cmds)
    requires t in Next(m, act).txs && Next(m, act).txs[t].scan == scan
    ensures Fits(Next(m, act), scan, cmds, id, start, t)
  {
    TxNext(m, act, scan, cmds, t);
    RowNext(m, act, scan);
    hide Next, RunStatement, Inv, OneId, ShareId, Unchained, Sends, Ready, SameContent;
    var after := Next(m, act);
    if Early(after.txs[t].next) {
    } else if Commits(m, act, scan) {
      StepIsStatement(m, act.tx);
      EndedIsGone(m, act.tx);
      FitsAfterCommit(m, act.tx, scan, cmds, id, start, t);
    } else {
      FitsWithoutCommit(m, after, scan, cmds, id, start, t);
    }
  }

  lemma StepIsStatement(m: Machine, t: TxId)
    requires t in m.txs
    ensures Next(m, Step(t)) == RunStatement(m, t)
  {
  }

  lemma OneIdNext(m: Machine, act: Action, scan: Uuid, cmds: iset<Command>, id: string, start: Option<State>)
    requires Inv(m) && OneId(m, scan, cmds, id, start) && ShareId(cmds, scan, id)
    requires start.Some? ==> Unchained(cmds, start.value)
    requires Sends([act], scan, cmds)
    ensures OneId(Next(m, act), scan, cmds, id, start)
    ensures Commits(m, act, scan) ==> !Carries(m.rows, scan, id) && Carries(Next(m, act).rows, scan, id)
    ensures Carries(m.rows, scan, id) ==> Carries(Next(m, act).rows, scan, id)
  {
    hide RunStatement, Next;
    var after := Next(m, act);
    forall t | t in after.txs && after.txs[t].scan == scan
      ensures after.txs[t].cmd in cmds && Fits(after, scan, cmds, id, start, t)
    {
      TxNext(m, act, scan, cmds, t);
      OneIdFits(m, act, scan, cmds, id, start, t);
    }
    RowNext(m, act, scan);
    if Commits(m, act, scan) {
      StepIsStatement(m, act.tx);
      OneIdCommits(m, act.tx, scan, cmds, id, start);
    }
  }

  function Count(b: bool): nat {
    if b then 1 else 0
  }

  lemma {:induction false} OneIdOnce(m: Machine, acts: seq<Action>, scan: Uuid, cmds: iset<Command>, id: string, start: Option<State>)
    requires Inv(m) && OneId(m, scan, cmds, id, start) && ShareId(cmds, scan, id)
    requires start.Some? ==> Unchained(cmds, start.value)
    requires Sends(acts, scan, cmds)
    ensures Inv(Run(m, acts)) && OneId(Run(m, acts), scan, cmds, id, start)
    ensures Count(Carries(m.rows, scan, id)) + WritesOn(Trace(m, acts), scan) <= Count(Carries(Run(m, acts).rows, scan, id))
  {
    if acts != [] {
      var n := |acts| - 1;
      assert acts[n] in acts;
      OneIdOnce(m, acts[..n], scan, cmds, id, start);
      hide Next, Emit, OneId, Inv;
      var before := Run(m, acts[..n]);
      InvNext(before, acts[n]);
      OneIdNext(before, acts[n], scan, cmds, id, start);
      EmitWritesOn(before, acts[n], scan);
      WritesOnMore(Trace(m, acts[..n]), Emit(before, acts[n]), scan);
    }
  }

  /** What can be looked up before sending: the row is live without the id, and two of the commands, or one
      of them twice, follow each other from its status. */
  ghost predicate Repeatable(rows: Rows, scan: Uuid, cmds: iset<Command>, id: string) {
    Live(rows, scan) && !Carries(rows, scan, id) && !Unchained(cmds, StatusAt(rows, scan))
  }

  /** In any interleaving of any number of deliveries at most one of the commands is applied, once, unless
      the scan was repeatable for them at the start. */
  lemma AppliedOnce(m: Machine, acts: seq<Action>, scan: Uuid, cmds: iset<Command>, id: string)
    requires AtRest(m) && ShareId(cmds, scan, id) && Sends(acts, scan, cmds) && !Repeatable(m.rows, scan, cmds, id)
    ensures WritesOn(Trace(m, acts), scan) <= 1
  {
    if scan in m.rows && m.rows[scan].deleted {
      NoResurrection(m, acts, scan);
      NoWriteNone(Trace(m, acts), scan);
    } else {
      var start := if scan in m.rows && !Carries(m.rows, scan, id) then Some(StatusAt(m.rows, scan)) else None;
      OneIdOnce(m, acts, scan, cmds, id, start);
    }
  }

  lemma {:induction false} NoWriteNone(ops: seq<Op>, scan: Uuid)
    requires forall op | op in ops && op.WriteOp? :: op.scan != scan
    ensures WritesOn(ops, scan) == 0 && LastWrite(ops, scan) == None
  {
    if ops != [] {
      assert ops[|ops| - 1] in ops;
      NoWriteNone(ops[..|ops| - 1], scan);
    }
  }

  lemma {:induction false} WritesByTwo(ops: seq<Op>, scan: Uuid, t: TxId, u: TxId)
    requires t != u && AllWrites(ops, (s: Uuid, c: Command) => s == scan)
    ensures WritesBy(ops, t) + WritesBy(ops, u) <= WritesOn(ops, scan)
  {
    if ops != [] {
      assert ops[|ops| - 1] in ops;
      WritesByTwo(ops[..|ops| - 1], scan, t, u);
    }
  }

  lemma RaceSends(scan: Uuid, c: Command, d: Command, t: TxId, u: TxId, n: nat)
    ensures forall act | act in Race(scan, c, d, t, u, n) && act.Begin? :: act.scan == scan && (act.cmd == c || act.cmd == d)
  {
    StepsAre(t, ReadSteps(c));
    StepsAre(u, ReadSteps(d));
    StepsAre(t, n);
    StepsAre(u, n);
  }

  lemma AppliedTwice(m: Machine, scan: Uuid, c: Command, d: Command, t: TxId, u: TxId, n: nat)
    requires AtRest(m) && t !in m.log && u !in m.log && t != u && n >= 4
    requires Ready(m.rows, scan, c) && Ready(m.rows, scan, d) && Tied(scan, c) && c.target in d.sources
    ensures WritesOn(Trace(m, Race(scan, c, d, t, u, n)), scan) >= 2
  {
    var acts := Race(scan, c, d, t, u, n);
    hide Race;
    RaceSends(scan, c, d, t, u, n);
    BothApply(m, scan, c, d, t, u, n);
    AppliedWritesOnce(m, acts, t);
    AppliedWritesOnce(m, acts, u);
    TraceCommands(m, acts, (s: Uuid, x: Command) => s == scan);
    WritesByTwo(Trace(m, acts), scan, t, u);
  }

  /** From a machine at rest, any commands that share a transition id, each delivered any number of times, are
      applied to the scan at most once in total in every interleaving, exactly when the scan is not
      repeatable for them. t and u are two unused transactions. */
  lemma AppliedOnceIff(m: Machine, scan: Uuid, cmds: iset<Command>, id: string, t: TxId, u: TxId)
    requires AtRest(m) && ShareId(cmds, scan, id) && t !in m.log && u !in m.log && t != u
    ensures (forall acts | Sends(acts, scan, cmds) :: WritesOn(Trace(m, acts), scan) <= 1)
       <==> !Repeatable(m.rows, scan, cmds, id)
  {
    if Repeatable(m.rows, scan, cmds, id) {
      var c, d :| c in cmds && d in cmds && Chained(c, d, StatusAt(m.rows, scan));
      RaceSends(scan, c, d, t, u, 4);
      AppliedTwice(m, scan, c, d, t, u, 4);
      assert Sends(Race(scan, c, d, t, u, 4), scan, cmds);
    } else {
      forall acts | Sends(acts, scan, cmds) ensures WritesOn(Trace(m, acts), scan) <= 1 {
        AppliedOnce(m, acts, scan, cmds, id);
      }
    }
  }

  /** One live row with this status and no transition id, and nothing in flight. */
  function OneRow(scan: Uuid, s: State): Machine {
    Machine(map[scan := Row(1, "", Some(s), "", None, NO_PAYLOAD, 0, 0, false)], map[], map[], map[], map[])
  }

  /** Commands that share a transition id are applied at most once in total, whatever the tables hold, exactly
      when no two of them, nor one of them twice, follow each other from one status. A blank source matches
      no stored status. */
  lemma SharedIdIsSafeIff(scan: Uuid, cmds: iset<Command>, id: string)
    requires ShareId(cmds, scan, id)
    ensures (forall m, acts | AtRest(m) && Sends(acts, scan, cmds) :: WritesOn(Trace(m, acts), scan) <= 1)
       <==> (forall s | s != Blank :: Unchained(cmds, s))
  {
    if s :| s != Blank && !Unchained(cmds, s) {
      AppliedOnceIff(OneRow(scan, s), scan, cmds, id, 0, 1);
    } else {
      forall m, acts | AtRest(m) && Sends(acts, scan, cmds) ensures WritesOn(Trace(m, acts), scan) <= 1 {
        assert Live(m.rows, scan) ==> Unchained(cmds, StatusAt(m.rows, scan));
        AppliedOnce(m, acts, scan, cmds, id);
      }
    }
  }

  /** A command is safe to deliver any number of times, whatever the tables hold, exactly when its target is
      not among its sources. */
  lemma SafeToRedeliverIff(scan: Uuid, cmd: Command)
    requires Tied(scan, cmd)
    ensures (forall m, acts | AtRest(m) && Sends(acts, scan, iset{cmd}) :: WritesOn(Trace(m, acts), scan) <= 1)
       <==> cmd.target !in cmd.sources
  {
    var cmds := iset{cmd};
    SharedIdIsSafeIff(scan, cmds, cmd.transitionId);
    assert Chained(cmd, cmd, cmd.target) <==> cmd.target in cmd.sources;
    if cmd.target in cmd.sources {
      assert cmd in cmds && !Unchained(cmds, cmd.target);
    }
  }

  /** Two forward commands under one id, one that starts the scan and one that ends it: they are applied at
      most once in total exactly when they do not both admit a pending scan that the end may follow on. */
  lemma StartAndEndAreSafeIff(scan: Uuid, c: Command, d: Command)
    requires Forward(scan, c) && Forward(scan, d) && c.transitionId == d.transitionId
    requires c.target == RUNNING && IsTerminal(d.target)
    ensures (forall m, acts | AtRest(m) && Sends(acts, scan, iset{c, d}) :: WritesOn(Trace(m, acts), scan) <= 1)
       <==> !(PENDING in c.sources && PENDING in d.sources && RUNNING in d.sources)
  {
    var cmds := iset{c, d};
    SharedIdIsSafeIff(scan, cmds, c.transitionId);
    forall s | s != Blank ensures Unchained(cmds, s) <==> !Chained(c, d, s) {
      assert c in cmds && d in cmds;
    }
    assert forall s | s != Blank && Chained(c, d, s) :: s == PENDING;
    assert Unchained(cmds, PENDING) <==> !Chained(c, d, PENDING);
  }

  /* ---- Rows that no command can change ---- */

  /** The row is deleted, or every command meets its own transition id or a status outside its sources. */
  ghost predicate Shut(row: Row, cmds: iset<Command>) {
    row.deleted || forall c | c in cmds :: SameTransition(row, c) || row.LogicalStatus() !in c.sources
  }

  ghost predicate Untouched(m: Machine, scan: Uuid, cmds: iset<Command>, row: Row) {
    && InFlight(m, scan, cmds)
    && scan in m.rows && SameContent(row, m.rows[scan])
    && forall t | t in m.txs && m.txs[t].scan == scan :: Early(m.txs[t].next)
  }

  lemma UntouchedNext(m: Machine, act: Action, scan: Uuid, cmds: iset<Command>, row: Row)
    requires Untouched(m, scan, cmds, row) && Shut(row, cmds) && Sends([act], scan, cmds)
    ensures Untouched(Next(m, act), scan, cmds, row)
  {
    hide RunStatement, Next;
    var after := Next(m, act);
    forall t | t in after.txs && after.txs[t].scan == scan ensures after.txs[t].cmd in cmds && Early(after.txs[t].next) {
      TxNext(m, act, scan, cmds, t);
    }
    RowNext(m, act, scan);
  }

  lemma {:induction false} UntouchedOverRuns(m: Machine, acts: seq<Action>, scan: Uuid, cmds: iset<Command>, row: Row)
    requires Untouched(m, scan, cmds, row) && Shut(row, cmds) && Sends(acts, scan, cmds)
    ensures Untouched(Run(m, acts), scan, cmds, row)
  {
    if acts != [] {
      var n := |acts| - 1;
      assert acts[n] in acts;
      UntouchedOverRuns(m, acts[..n], scan, cmds, row);
      UntouchedNext(Run(m, acts[..n]), acts[n], scan, cmds, row);
    }
  }

  /** A reservation, and then one command that nothing interrupts. */
  function Undisturbed(scan: Uuid, cmd: Command, t: TxId, n: nat): seq<Action> {
    [Reservation(scan)] + ([Begin(t, scan, cmd)] + Steps(t, n))
  }

  lemma ReadyIsWritten(m: Machine, scan: Uuid, cmd: Command, t: TxId, n: nat)
    requires AtRest(m) && t !in m.log && n >= 6 && Ready(m.rows, scan, cmd)
    ensures var rows := Run(m, Undisturbed(scan, cmd, t, n)).rows; scan in rows && SameTransition(rows[scan], cmd)
  {
    RunMore(m, [Reservation(scan)], [Begin(t, scan, cmd)] + Steps(t, n));
    RunSingle(m, Reservation(scan));
    ReservationHolds(m, scan);
    var reserved := Next(m, Reservation(scan));
    SoloRunIsSerial(reserved, t, scan, cmd, n);
    ApplyWritesWhenItMay(Store(reserved.rows, reserved.credits), scan, cmd);
  }

  lemma UndisturbedSends(scan: Uuid, cmd: Command, t: TxId, n: nat)
    ensures forall act | act in Undisturbed(scan, cmd, t, n) && act.Begin? :: act.scan == scan && act.cmd == cmd
  {
    StepsAre(t, n);
  }

  /** From a machine at rest a row keeps its content, settled or not, in every interleaving of any number of
      deliveries of any commands, exactly when it is deleted or every command meets its own transition id
      or a status outside its sources. t is an unused transaction. */
  lemma RowIsFinalIff(m: Machine, scan: Uuid, cmds: iset<Command>, t: TxId)
    requires AtRest(m) && scan in m.rows && t !in m.log
    ensures (forall acts | Sends(acts, scan, cmds) :: scan in Run(m, acts).rows && SameContent(m.rows[scan], Run(m, acts).rows[scan]))
       <==> Shut(m.rows[scan], cmds)
  {
    var row := m.rows[scan];
    if Shut(row, cmds) {
      forall acts | Sends(acts, scan, cmds) ensures scan in Run(m, acts).rows && SameContent(row, Run(m, acts).rows[scan]) {
        UntouchedOverRuns(m, acts, scan, cmds, row);
      }
    } else {
      var c :| c in cmds && !SameTransition(row, c) && row.LogicalStatus() in c.sources;
      var acts := Undisturbed(scan, c, t, 6);
      UndisturbedSends(scan, c, t, 6);
      ReadyIsWritten(m, scan, c, t, 6);
      assert Sends(acts, scan, cmds);
    }
  }

  /* ---- Forward commands of any transition ids ---- */

  /** A scan is started and ended under one transition id, and the end also admits the pending scan. */
  predicate Overtakes(c: Command, d: Command) {
    && c.transitionId == d.transitionId && c.target == RUNNING && IsTerminal(d.target)
    && PENDING in c.sources && PENDING in d.sources && RUNNING in d.sources
  }

  ghost predicate AllForward(cmds: iset<Command>, scan: Uuid) {
    forall c | c in cmds :: Forward(scan, c)
  }

  ghost predicate Starts(cmds: iset<Command>, id: string) {
    exists c :: c in cmds && c.transitionId == id && c.target == RUNNING && PENDING in c.sources
  }

  /** A transaction past its first read inserts the row, or admits the status it has read; where the row has
      since been started under the transaction's own id, that status was PENDING. */
  ghost predicate Mixes(m: Machine, scan: Uuid, cmds: iset<Command>, t: TxId)
    requires t in m.txs
  {
    var cmd := m.txs[t].cmd;
    || Early(m.txs[t].next)
    || (scan !in m.rows && Holding(m.txs[t].next))
    || (&& scan in m.rows
        && (StatusAt(m.rows, scan) == PENDING ==> PENDING in cmd.sources)
        && (Carries(m.rows, scan, cmd.transitionId) && StatusAt(m.rows, scan) == RUNNING ==>
              PENDING in cmd.sources && Starts(cmds, cmd.transitionId)))
  }

  ghost predicate Mixed(m: Machine, scan: Uuid, cmds: iset<Command>) {
    InFlight(m, scan, cmds) && forall t | t in m.txs && m.txs[t].scan == scan :: Mixes(m, scan, cmds, t)
  }

  /** A forward commit raises the status, to its target. */
  lemma ForwardCommit(m: Machine, u: TxId, scan: Uuid)
    requires Inv(m) && u in m.txs && m.txs[u].scan == scan && m.txs[u].next.Commit? && Forward(scan, m.txs[u].cmd)
    ensures var cmd, rows := m.txs[u].cmd, RunStatement(m, u).rows;
            && Carries(rows, scan, cmd.transitionId) && StatusAt(rows, scan) == cmd.target
            && StatusAt(m.rows, scan) in cmd.sources && Rank(StatusAt(m.rows, scan)) < Rank(cmd.target)
            && (StatusAt(m.rows, scan) == PENDING || StatusAt(m.rows, scan) == RUNNING)
  {
    HolderWrites(m, u);
    StatementKeepsRows(m, u);
  }

  lemma MixesAfterCommit(m: Machine, u: TxId, scan: Uuid, cmds: iset<Command>, t: TxId)
    requires Inv(m) && Mixed(m, scan, cmds) && AllForward(cmds, scan)
    requires u in m.txs && m.txs[u].scan == scan && m.txs[u].next.Commit?
    requires t in m.txs && m.txs[t].scan == scan && t != u && t in RunStatement(m, u).txs && RunStatement(m, u).txs[t] == m.txs[t]
    ensures Mixes(RunStatement(m, u), scan, cmds, t)
  {
    ForwardCommit(m, u, scan);
    HolderWrites(m, u);
    hide RunStatement, Inv, AllForward;
    assert Mixes(m, scan, cmds, t);
    assert m.txs[u].cmd in cmds;
  }

  lemma MixesWithoutCommit(m: Machine, after: Machine, scan: Uuid, cmds: iset<Command>, t: TxId)
    requires Mixed(m, scan, cmds)
    requires scan in after.rows <==> scan in m.rows
    requires scan in m.rows ==> SameContent(m.rows[scan], after.rows[scan])
    requires t in m.txs && m.txs[t].scan == scan && t in after.txs && after.txs[t].cmd == m.txs[t].cmd
    requires || after.txs[t] == m.txs[t]
             || (!Early(m.txs[t].next) && (Holding(m.txs[t].next) ==> Holding(after.txs[t].next)))
             || (Ready(m.rows, scan, m.txs[t].cmd) && !Holding(after.txs[t].next))
             || (scan !in m.rows && Holding(after.txs[t].next))
    ensures Mixes(after, scan, cmds, t)
  {
    assert Mixes(m, scan, cmds, t);
  }

  lemma MixedNext(m: Machine, act: Action, scan: Uuid, cmds: iset<Command>)
    requires Inv(m) && Mixed(m, scan, cmds) && AllForward(cmds, scan) && Sends([act], scan, cmds)
    ensures Mixed(Next(m, act), scan, cmds)
  {
    hide Next, RunStatement, Inv, AllForward, Sends, Ready, SameContent, Mixes;
    var after := Next(m, act);
    forall t | t in after.txs && after.txs[t].scan == scan
      ensures after.txs[t].cmd in cmds && Mixes(after, scan, cmds, t)
    {
      TxNext(m, act, scan, cmds, t);
      MixesNext(m, act, scan, cmds, t);
    }
  }

  lemma MixesNext(m: Machine, act: Action, scan: Uuid, cmds: iset<Command>, t: TxId)
    requires Inv(m) && Mixed(m, scan, cmds) && AllForward(cmds, scan) && Sends([act], scan, cmds)
    requires t in Next(m, act).txs && Next(m, act).txs[t].scan == scan
    ensures Mixes(Next(m, act), scan, cmds, t)
  {
    TxNext(m, act, scan, cmds, t);
    RowNext(m, act, scan);
    hide Next, RunStatement, Inv, Mixed, AllForward, Sends, Ready, SameContent;
    var after := Next(m, act);
    if Early(after.txs[t].next) {
    } else if Commits(m, act, scan) {
      StepIsStatement(m, act.tx);
      EndedIsGone(m, act.tx);
      MixesAfterCommit(m, act.tx, scan, cmds, t);
    } else {
      MixesWithoutCommit(m, after, scan, cmds, t);
    }
  }

  /** The writes to a scan under one transition id. */
  function EffectsOf(ops: seq<Op>, scan: Uuid, id: string): nat {
    if ops == [] then 0
    else
      var last := ops[|ops| - 1];
      EffectsOf(ops[..|ops| - 1], scan, id) + Count(last.WriteOp? && last.scan == scan && last.cmd.transitionId == id)
  }

  lemma {:induction false} EffectsOfMore(ops: seq<Op>, more: seq<Op>, scan: Uuid, id: string)
    ensures EffectsOf(ops + more, scan, id) == EffectsOf(ops, scan, id) + EffectsOf(more, scan, id)
  {
    if more == [] {
      assert ops + more == ops;
    } else {
      var n := |more| - 1;
      EffectsOfMore(ops, more[..n], scan, id);
      assert (ops + more)[..|ops + more| - 1] == ops + more[..n];
    }
  }

  lemma EmitEffects(m: Machine, act: Action, scan: Uuid, id: string)
    requires Inv(m)
    ensures EffectsOf(Emit(m, act), scan, id) ==
              Count(Commits(m, act, scan) && m.txs[act.tx].cmd.transitionId == id)
  {
    if act.Step? && act.tx in m.txs && m.txs[act.tx].next.Commit? {
      var Tx(s, cmd, _) := m.txs[act.tx];
      EffectsOfMore([WriteOp(act.tx, s, cmd)], Deferred(m, s), scan, id);
    }
  }

  ghost predicate NoneOvertakes(cmds: iset<Command>) {
    forall c, d | c in cmds && d in cmds :: !Overtakes(c, d)
  }

  /** After an effect under an id the scan is running under that id, or settled. */
  ghost predicate Spent(m: Machine, scan: Uuid, id: string) {
    scan in m.rows && (Rank(StatusAt(m.rows, scan)) == 2 || (Carries(m.rows, scan, id) && StatusAt(m.rows, scan) == RUNNING))
  }

  lemma SpentNext(m: Machine, act: Action, scan: Uuid, cmds: iset<Command>, id: string)
    requires Inv(m) && Mixed(m, scan, cmds) && AllForward(cmds, scan) && NoneOvertakes(cmds)
    ensures Spent(m, scan, id) ==> Spent(Next(m, act), scan, id) && !(Commits(m, act, scan) && m.txs[act.tx].cmd.transitionId == id)
    ensures Commits(m, act, scan) && m.txs[act.tx].cmd.transitionId == id ==> Spent(Next(m, act), scan, id)
  {
    RowNext(m, act, scan);
    if Commits(m, act, scan) {
      var u := act.tx;
      var cmd := m.txs[u].cmd;
      assert cmd in cmds;
      ForwardCommit(m, u, scan);
      StepIsStatement(m, u);
      hide Next, RunStatement, Inv;
      assert Mixes(m, scan, cmds, u);
      assert StatusAt(m.rows, scan) == RUNNING && PENDING in cmd.sources ==>
          forall c | c in cmds && c.transitionId == cmd.transitionId && c.target == RUNNING && PENDING in c.sources ::
            Overtakes(c, cmd);
    }
  }

  /** In every interleaving of forward commands, none of which overtakes another, each transition id has at
      most one effect on the scan. */
  lemma {:induction false} OneEffectPerId(m: Machine, acts: seq<Action>, scan: Uuid, cmds: iset<Command>, id: string)
    requires Inv(m) && Mixed(m, scan, cmds) && AllForward(cmds, scan) && NoneOvertakes(cmds) && Sends(acts, scan, cmds)
    ensures Inv(Run(m, acts)) && Mixed(Run(m, acts), scan, cmds)
    ensures EffectsOf(Trace(m, acts), scan, id) <= 1
    ensures EffectsOf(Trace(m, acts), scan, id) == 1 ==> Spent(Run(m, acts), scan, id)
  {
    if acts != [] {
      var n := |acts| - 1;
      assert acts[n] in acts;
      OneEffectPerId(m, acts[..n], scan, cmds, id);
      hide Next, Emit, Mixed, Inv, AllForward, NoneOvertakes, Spent;
      var before := Run(m, acts[..n]);
      InvNext(before, acts[n]);
      MixedNext(before, acts[n], scan, cmds);
      SpentNext(before, acts[n], scan, cmds, id);
      EmitEffects(before, acts[n], scan, id);
      EffectsOfMore(Trace(m, acts[..n]), Emit(before, acts[n]), scan, id);
    }
  }

  lemma {:induction false} EffectsOfOneId(ops: seq<Op>, scan: Uuid, id: string)
    requires AllWrites(ops, (s: Uuid, c: Command) => c.transitionId == id)
    ensures EffectsOf(ops, scan, id) == WritesOn(ops, scan)
  {
    if ops != [] {
      assert ops[|ops| - 1] in ops;
      EffectsOfOneId(ops[..|ops| - 1], scan, id);
    }
  }

  /** A pair that shares an id has two effects on a live pending scan. */
  lemma OneIdTwoTargets(scan: Uuid, c: Command, d: Command, n: nat)
    requires Forward(scan, c) && Overtakes(c, d) && n >= 4
    ensures var m := OneRow(scan, PENDING);
            HasApplied(Run(m, Race(scan, c, d, 0, 1, n)), 0) && HasApplied(Run(m, Race(scan, c, d, 0, 1, n)), 1)
    ensures EffectsOf(Trace(OneRow(scan, PENDING), Race(scan, c, d, 0, 1, n)), scan, c.transitionId) >= 2
  {
    var m, acts := OneRow(scan, PENDING), Race(scan, c, d, 0, 1, n);
    hide Race;
    BothApply(m, scan, c, d, 0, 1, n);
    AppliedTwice(m, scan, c, d, 0, 1, n);
    RaceSends(scan, c, d, 0, 1, n);
    TraceCommands(m, acts, (s: Uuid, x: Command) => x.transitionId == c.transitionId);
    EffectsOfOneId(Trace(m, acts), scan, c.transitionId);
  }

  /** Forward commands of any transition ids, duplicated and reordered in any interleaving: each id has at most
      one effect on the scan, whatever the tables hold, exactly when none of the commands overtakes another. */
  lemma OneEffectPerIdIff(scan: Uuid, cmds: iset<Command>)
    requires AllForward(cmds, scan)
    ensures (forall m, acts, id | AtRest(m) && Sends(acts, scan, cmds) :: EffectsOf(Trace(m, acts), scan, id) <= 1)
       <==> NoneOvertakes(cmds)
  {
    if c, d :| c in cmds && d in cmds && Overtakes(c, d) {
      var m, acts := OneRow(scan, PENDING), Race(scan, c, d, 0, 1, 4);
      OneIdTwoTargets(scan, c, d, 4);
      RaceSends(scan, c, d, 0, 1, 4);
      assert AtRest(m) && Sends(acts, scan, cmds) && EffectsOf(Trace(m, acts), scan, c.transitionId) >= 2;
    } else {
      forall m, acts, id | AtRest(m) && Sends(acts, scan, cmds) ensures EffectsOf(Trace(m, acts), scan, id) <= 1 {
        OneEffectPerId(m, acts, scan, cmds, id);
      }
    }
  }
}
