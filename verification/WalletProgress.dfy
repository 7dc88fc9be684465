/** What a transaction is answered, wherever it stands: internal/wallettransition/apply.go once no other
    transaction holds its row. */
module WalletProgress {
  import opened Common
  import opened ScanState
  import opened UsageLedger
  import opened WalletTransition
  import opened WalletInterleaving
  import opened WalletSafety
  import opened WalletSolo
  import opened WalletRedelivery

  /* ---- What it is owed ---- */

  predicate Paid(m: Machine, scan: Uuid, cmd: Command) {
    cmd.quota == Keep ==> scan in m.credits
  }

  /** The answer to a transaction that reads the row now. Only a first read says already_applied; a read after a
      lost UPDATE says what the row's status is. */
  predicate Meets(m: Machine, scan: Uuid, cmd: Command, first: bool, outcome: Outcome) {
    if !(scan in m.rows && !m.rows[scan].deleted) then outcome == Retryable
    else
      var mine, status := m.rows[scan].transitionId == Some(cmd.transitionId), Standing(m.rows[scan]);
      if mine && first then outcome == AlreadyApplied
      else if mine || status !in cmd.sources then Refuses(outcome, status, cmd)
      else outcome == if Paid(m, scan, cmd) then Applied else Retryable
  }

  /** A row that appeared since the first read is met like any other; without one the command inserts it. */
  predicate Inserts(m: Machine, scan: Uuid, cmd: Command, outcome: Outcome) {
    if scan in m.rows then Meets(m, scan, cmd, true, outcome)
    else outcome == if Paid(m, scan, cmd) then Applied else Retryable
  }

  /** A live row that admits the command is updated, whoever wrote it; another is read again, or, the second
      time, only classified. */
  predicate Updates(m: Machine, scan: Uuid, cmd: Command, ent: Row, again: bool, outcome: Outcome) {
    if scan in m.rows && !m.rows[scan].deleted && Standing(m.rows[scan]) in cmd.sources
    then outcome == if Paid(m, scan, cmd) then Applied else Retryable
    else if again then Refuses(outcome, LastSeen(m, scan, ent), cmd)
    else Meets(m, scan, cmd, false, outcome)
  }

  function LastSeen(m: Machine, scan: Uuid, ent: Row): State {
    if scan in m.rows && !m.rows[scan].deleted then Standing(m.rows[scan]) else Standing(ent)
  }

  /** The answer that a transaction before its write gets when nothing interrupts it from here on. */
  predicate Owed(m: Machine, t: TxId, outcome: Outcome)
    requires t in m.txs
  {
    var Tx(scan, cmd, next) := m.txs[t];
    match next
    case FirstRead =>
      if scan in m.rows && !m.rows[scan].deleted then Meets(m, scan, cmd, true, outcome)
      else if PENDING !in cmd.sources then outcome == Rejected
      else if !Paid(m, scan, cmd) then outcome == Retryable
      else Inserts(m, scan, cmd, outcome)
    case CheckBeforeInsert => if scan !in m.credits then outcome == Retryable else Inserts(m, scan, cmd, outcome)
    case InsertRow => Inserts(m, scan, cmd, outcome)
    case ReadWinner => Meets(m, scan, cmd, true, outcome)
    case CheckBeforeUpdate(ent) => if scan !in m.credits then outcome == Retryable else Updates(m, scan, cmd, ent, false, outcome)
    case UpdateRow(ent, again) => Updates(m, scan, cmd, ent, again, outcome)
    case AwaitRow(ent, again) => Updates(m, scan, cmd, ent, again, outcome)
    case ReadAgain(_) => Meets(m, scan, cmd, false, outcome)
    case ReadLast(ent) => Refuses(outcome, LastSeen(m, scan, ent), cmd)
    case FinishQuota(_) => outcome == if Paid(m, scan, cmd) then Applied else Retryable
    case Commit(_, _) => outcome == Applied
  }

  /** t has ended with this answer. Applied wrote the command to the row; any other answer wrote nothing. */
  predicate Ended(m: Machine, t: TxId, scan: Uuid, cmd: Command, outcome: Outcome, after: Machine) {
    var st := Store(m.rows, m.credits);
    EndsAs(m, t, if outcome == Applied then Write(st, scan, cmd) else st, outcome, after)
  }

  /* ---- Steps ---- */

  lemma EndsNow(m: Machine, t: TxId, scan: Uuid, cmd: Command, outcome: Outcome, n: nat)
    requires t in m.txs && m.txs[t].scan == scan && !Holding(m.txs[t].next) && n >= 1 && outcome != Applied
    requires Next(m, Step(t)) == End(m, t, outcome)
    ensures Ended(m, t, scan, cmd, outcome, Drive(m, t, n))
  {
    DriveFirst(m, t, n);
    EndedStays(End(m, t, outcome), t, n - 1);
  }

  lemma GoesOn(m: Machine, t: TxId, scan: Uuid, cmd: Command, next: Statement, outcome: Outcome, n: nat)
    requires t in m.txs && n >= 1 && Next(m, Step(t)) == Goto(m, t, next)
    requires Ended(Goto(m, t, next), t, scan, cmd, outcome, Drive(Goto(m, t, next), t, n - 1))
    ensures Ended(m, t, scan, cmd, outcome, Drive(m, t, n))
  {
    DriveFirst(m, t, n);
    assert Goto(m, t, next).txs - {t} == m.txs - {t};
  }

  lemma LogicalIsStanding(row: Row)
    ensures row.LogicalStatus() == Standing(row)
  {
  }

  lemma ClassifyRefuses(status: State, cmd: Command)
    ensures Refuses(Classify(status, cmd).outcome, status, cmd)
  {
  }

  /** Holding the row, an unpaid keep gives it back unwritten. */
  lemma AcquiredAlone(m: Machine, t: TxId, scan: Uuid, cmd: Command, next: Statement, n: nat) returns (outcome: Outcome)
    requires Alone(m, t, scan, cmd, next) && n >= 2
    ensures outcome == if Paid(m, scan, cmd) then Applied else Retryable
    ensures Ended(m, t, scan, cmd, outcome, Drive(Acquire(m, t, WrittenRow(m.rows, scan, cmd)), t, n))
  {
    var held := Acquire(m, t, WrittenRow(m.rows, scan, cmd));
    if Paid(m, scan, cmd) {
      SoloWritten(m, t, scan, cmd, n);
      outcome := Applied;
    } else {
      outcome := Retryable;
      UnpaidGivesUp(held, t);
      DriveFirst(held, t, n);
      EndedStays(End(held, t, Retryable), t, n - 1);
      assert held.locks - {scan} == m.locks;
      assert held.txs - {t} == m.txs - {t};
    }
  }

  lemma UnpaidGivesUp(m: Machine, t: TxId)
    requires t in m.txs && m.txs[t].next.FinishQuota? && m.txs[t].cmd.quota == Keep && m.txs[t].scan !in m.credits
    ensures Next(m, Step(t)) == End(m, t, Retryable)
  {
  }

  lemma LastReadAlone(m: Machine, t: TxId, scan: Uuid, cmd: Command, ent: Row, n: nat) returns (outcome: Outcome)
    requires Alone(m, t, scan, cmd, ReadLast(ent)) && n >= 1
    ensures Refuses(outcome, LastSeen(m, scan, ent), cmd)
    ensures Ended(m, t, scan, cmd, outcome, Drive(m, t, n))
  {
    var row := if Live(m.rows, scan) then m.rows[scan] else ent;
    LogicalIsStanding(row);
    ClassifyRefuses(row.LogicalStatus(), cmd);
    outcome := Classify(row.LogicalStatus(), cmd).outcome;
    assert Next(m, Step(t)) == End(m, t, outcome);
    EndsNow(m, t, scan, cmd, outcome, n);
  }

  lemma AwaitSteps(m: Machine, t: TxId, scan: Uuid, cmd: Command, ent: Row, again: bool)
    requires Alone(m, t, scan, cmd, AwaitRow(ent, again))
    ensures Next(m, Step(t)) ==
              if Live(m.rows, scan) && Standing(m.rows[scan]) in cmd.sources then Acquire(m, t, WrittenRow(m.rows, scan, cmd))
              else Goto(m, t, if again then ReadLast(ent) else ReadAgain(ent))
  {
    if Live(m.rows, scan) {
      LogicalIsStanding(m.rows[scan]);
      GuardAgreement(cmd.sources, m.rows[scan].status);
    }
  }

  lemma UpdateSteps(m: Machine, t: TxId, scan: Uuid, cmd: Command, ent: Row, again: bool)
    requires Alone(m, t, scan, cmd, UpdateRow(ent, again))
    ensures Next(m, Step(t)) ==
              Goto(m, t, if Live(m.rows, scan) && Standing(m.rows[scan]) in cmd.sources then AwaitRow(ent, again)
                         else if again then ReadLast(ent) else ReadAgain(ent))
  {
    if Live(m.rows, scan) {
      LogicalIsStanding(m.rows[scan]);
      GuardAgreement(cmd.sources, m.rows[scan].status);
    }
  }

  /** The second UPDATE, and what follows it. */
  lemma SecondUpdateAlone(m: Machine, t: TxId, scan: Uuid, cmd: Command, ent: Row, n: nat) returns (outcome: Outcome)
    requires (Alone(m, t, scan, cmd, AwaitRow(ent, true)) && n >= 3) || (Alone(m, t, scan, cmd, UpdateRow(ent, true)) && n >= 4)
    ensures Updates(m, scan, cmd, ent, true, outcome)
    ensures Ended(m, t, scan, cmd, outcome, Drive(m, t, n))
    decreases n
  {
    hide RunStatement;
    var hits := Live(m.rows, scan) && Standing(m.rows[scan]) in cmd.sources;
    if m.txs[t].next.AwaitRow? {
      AwaitSteps(m, t, scan, cmd, ent, true);
      if hits {
        DriveFirst(m, t, n);
        outcome := AcquiredAlone(m, t, scan, cmd, AwaitRow(ent, true), n - 1);
      } else {
        outcome := LastReadAlone(Goto(m, t, ReadLast(ent)), t, scan, cmd, ent, n - 1);
        GoesOn(m, t, scan, cmd, ReadLast(ent), outcome, n);
      }
    } else {
      UpdateSteps(m, t, scan, cmd, ent, true);
      if hits {
        outcome := SecondUpdateAlone(Goto(m, t, AwaitRow(ent, true)), t, scan, cmd, ent, n - 1);
        GoesOn(m, t, scan, cmd, AwaitRow(ent, true), outcome, n);
      } else {
        outcome := LastReadAlone(Goto(m, t, ReadLast(ent)), t, scan, cmd, ent, n - 1);
        GoesOn(m, t, scan, cmd, ReadLast(ent), outcome, n);
      }
    }
  }

  /** The read after a lost first UPDATE. */
  lemma ReadAgainAlone(m: Machine, t: TxId, scan: Uuid, cmd: Command, ent: Row, n: nat) returns (outcome: Outcome)
    requires Alone(m, t, scan, cmd, ReadAgain(ent)) && n >= 5
    ensures Meets(m, scan, cmd, false, outcome)
    ensures Ended(m, t, scan, cmd, outcome, Drive(m, t, n))
  {
    if !Live(m.rows, scan) {
      outcome := Retryable;
      assert Next(m, Step(t)) == End(m, t, outcome);
      EndsNow(m, t, scan, cmd, outcome, n);
    } else {
      var row := m.rows[scan];
      LogicalIsStanding(row);
      if SameTransition(row, cmd) || row.LogicalStatus() !in cmd.sources {
        ClassifyRefuses(row.LogicalStatus(), cmd);
        outcome := Classify(row.LogicalStatus(), cmd).outcome;
        assert Next(m, Step(t)) == End(m, t, outcome);
        EndsNow(m, t, scan, cmd, outcome, n);
      } else {
        assert Next(m, Step(t)) == Goto(m, t, UpdateRow(row, true));
        outcome := SecondUpdateAlone(Goto(m, t, UpdateRow(row, true)), t, scan, cmd, row, n - 1);
        GoesOn(m, t, scan, cmd, UpdateRow(row, true), outcome, n);
      }
    }
  }

  /** The first UPDATE, and what follows it. */
  lemma FirstUpdateAlone(m: Machine, t: TxId, scan: Uuid, cmd: Command, ent: Row, n: nat) returns (outcome: Outcome)
    requires (Alone(m, t, scan, cmd, AwaitRow(ent, false)) && n >= 6) || (Alone(m, t, scan, cmd, UpdateRow(ent, false)) && n >= 7)
    ensures Updates(m, scan, cmd, ent, false, outcome)
    ensures Ended(m, t, scan, cmd, outcome, Drive(m, t, n))
    decreases n
  {
    hide RunStatement;
    var hits := Live(m.rows, scan) && Standing(m.rows[scan]) in cmd.sources;
    if m.txs[t].next.AwaitRow? {
      AwaitSteps(m, t, scan, cmd, ent, false);
      if hits {
        DriveFirst(m, t, n);
        outcome := AcquiredAlone(m, t, scan, cmd, AwaitRow(ent, false), n - 1);
      } else {
        outcome := ReadAgainAlone(Goto(m, t, ReadAgain(ent)), t, scan, cmd, ent, n - 1);
        GoesOn(m, t, scan, cmd, ReadAgain(ent), outcome, n);
      }
    } else {
      UpdateSteps(m, t, scan, cmd, ent, false);
      if hits {
        outcome := FirstUpdateAlone(Goto(m, t, AwaitRow(ent, false)), t, scan, cmd, ent, n - 1);
        GoesOn(m, t, scan, cmd, AwaitRow(ent, false), outcome, n);
      } else {
        outcome := ReadAgainAlone(Goto(m, t, ReadAgain(ent)), t, scan, cmd, ent, n - 1);
        GoesOn(m, t, scan, cmd, ReadAgain(ent), outcome, n);
      }
    }
  }

  lemma CheckAlone(m: Machine, t: TxId, scan: Uuid, cmd: Command, ent: Row, n: nat) returns (outcome: Outcome)
    requires Alone(m, t, scan, cmd, CheckBeforeUpdate(ent)) && n >= 8
    ensures if scan !in m.credits then outcome == Retryable else Updates(m, scan, cmd, ent, false, outcome)
    ensures Ended(m, t, scan, cmd, outcome, Drive(m, t, n))
  {
    if scan in m.credits {
      assert Next(m, Step(t)) == Goto(m, t, UpdateRow(ent, false));
      outcome := FirstUpdateAlone(Goto(m, t, UpdateRow(ent, false)), t, scan, cmd, ent, n - 1);
      GoesOn(m, t, scan, cmd, UpdateRow(ent, false), outcome, n);
    } else {
      outcome := Retryable;
      assert Next(m, Step(t)) == End(m, t, outcome);
      EndsNow(m, t, scan, cmd, outcome, n);
    }
  }

  /** A live row is met in the same way by a first read and by the loser of an insert. */
  lemma FirstReadAlone(m: Machine, t: TxId, scan: Uuid, cmd: Command, next: Statement, n: nat) returns (outcome: Outcome)
    requires Alone(m, t, scan, cmd, next) && (next == ReadWinner || (next == FirstRead && Live(m.rows, scan))) && n >= 9
    ensures Meets(m, scan, cmd, true, outcome)
    ensures Ended(m, t, scan, cmd, outcome, Drive(m, t, n))
  {
    if !Live(m.rows, scan) {
      outcome := Retryable;
      assert Next(m, Step(t)) == End(m, t, outcome);
      EndsNow(m, t, scan, cmd, outcome, n);
    } else {
      var row := m.rows[scan];
      LogicalIsStanding(row);
      assert Next(m, Step(t)) == Qualify(m, t, row);
      if SameTransition(row, cmd) {
        outcome := AlreadyApplied;
        EndsNow(m, t, scan, cmd, outcome, n);
      } else if row.LogicalStatus() !in cmd.sources {
        ClassifyRefuses(row.LogicalStatus(), cmd);
        outcome := Classify(row.LogicalStatus(), cmd).outcome;
        EndsNow(m, t, scan, cmd, outcome, n);
      } else {
        outcome := QualifiedAlone(m, t, scan, cmd, row, n);
      }
    }
  }

  lemma QualifiedAlone(m: Machine, t: TxId, scan: Uuid, cmd: Command, row: Row, n: nat) returns (outcome: Outcome)
    requires t in m.txs && m.txs[t].scan == scan && m.txs[t].cmd == cmd && scan !in m.locks && n >= 9
    requires Live(m.rows, scan) && row == m.rows[scan] && Standing(row) in cmd.sources
    requires Next(m, Step(t)) == Goto(m, t, if cmd.quota == Keep then CheckBeforeUpdate(row) else UpdateRow(row, false))
    ensures outcome == if Paid(m, scan, cmd) then Applied else Retryable
    ensures Ended(m, t, scan, cmd, outcome, Drive(m, t, n))
  {
    hide RunStatement, Next;
    if cmd.quota == Keep {
      outcome := CheckAlone(Goto(m, t, CheckBeforeUpdate(row)), t, scan, cmd, row, n - 1);
      GoesOn(m, t, scan, cmd, CheckBeforeUpdate(row), outcome, n);
    } else {
      outcome := FirstUpdateAlone(Goto(m, t, UpdateRow(row, false)), t, scan, cmd, row, n - 1);
      GoesOn(m, t, scan, cmd, UpdateRow(row, false), outcome, n);
    }
  }

  lemma InsertAlone(m: Machine, t: TxId, scan: Uuid, cmd: Command, n: nat) returns (outcome: Outcome)
    requires Alone(m, t, scan, cmd, InsertRow) && n >= 10
    ensures Inserts(m, scan, cmd, outcome)
    ensures Ended(m, t, scan, cmd, outcome, Drive(m, t, n))
  {
    if scan in m.rows {
      assert Next(m, Step(t)) == Goto(m, t, ReadWinner);
      outcome := FirstReadAlone(Goto(m, t, ReadWinner), t, scan, cmd, ReadWinner, n - 1);
      GoesOn(m, t, scan, cmd, ReadWinner, outcome, n);
    } else {
      assert Next(m, Step(t)) == Acquire(m, t, WrittenRow(m.rows, scan, cmd));
      DriveFirst(m, t, n);
      outcome := AcquiredAlone(m, t, scan, cmd, InsertRow, n - 1);
    }
  }

  lemma CheckInsertAlone(m: Machine, t: TxId, scan: Uuid, cmd: Command, n: nat) returns (outcome: Outcome)
    requires Alone(m, t, scan, cmd, CheckBeforeInsert) && n >= 11
    ensures if scan !in m.credits then outcome == Retryable else Inserts(m, scan, cmd, outcome)
    ensures Ended(m, t, scan, cmd, outcome, Drive(m, t, n))
  {
    if scan in m.credits {
      assert Next(m, Step(t)) == Goto(m, t, InsertRow);
      outcome := InsertAlone(Goto(m, t, InsertRow), t, scan, cmd, n - 1);
      GoesOn(m, t, scan, cmd, InsertRow, outcome, n);
    } else {
      outcome := Retryable;
      assert Next(m, Step(t)) == End(m, t, outcome);
      EndsNow(m, t, scan, cmd, outcome, n);
    }
  }

  lemma NoRowAlone(m: Machine, t: TxId, scan: Uuid, cmd: Command, n: nat) returns (outcome: Outcome)
    requires Alone(m, t, scan, cmd, FirstRead) && !Live(m.rows, scan) && n >= 12
    ensures Owed(m, t, outcome)
    ensures Ended(m, t, scan, cmd, outcome, Drive(m, t, n))
  {
    if PENDING !in cmd.sources {
      outcome := Rejected;
      assert Next(m, Step(t)) == End(m, t, outcome);
      EndsNow(m, t, scan, cmd, outcome, n);
    } else if cmd.quota == Keep {
      assert Next(m, Step(t)) == Goto(m, t, CheckBeforeInsert);
      outcome := CheckInsertAlone(Goto(m, t, CheckBeforeInsert), t, scan, cmd, n - 1);
      GoesOn(m, t, scan, cmd, CheckBeforeInsert, outcome, n);
    } else {
      assert Next(m, Step(t)) == Goto(m, t, InsertRow);
      outcome := InsertAlone(Goto(m, t, InsertRow), t, scan, cmd, n - 1);
      GoesOn(m, t, scan, cmd, InsertRow, outcome, n);
    }
  }

  /** Wherever a transaction stands before its write, once nobody holds its row and nothing interrupts it, it
      ends within twelve statements with the answer it is owed, and writes the row exactly when that is
      applied. The other transactions, the other rows and the other answers stay as they are. */
  lemma AnswersWhenAlone(m: Machine, t: TxId, n: nat) returns (outcome: Outcome)
    requires t in m.txs && !Holding(m.txs[t].next) && m.txs[t].scan !in m.locks && n >= 12
    ensures Owed(m, t, outcome)
    ensures Ended(m, t, m.txs[t].scan, m.txs[t].cmd, outcome, Drive(m, t, n))
    ensures outcome == Applied && Tied(m.txs[t].scan, m.txs[t].cmd) ==>
              var rows := Drive(m, t, n).rows; m.txs[t].scan in rows && Shows(rows[m.txs[t].scan], m.txs[t].cmd)
  {
    hide RunStatement, Run, Steps, Next;
    var Tx(scan, cmd, next) := m.txs[t];
    match next {
      case FirstRead =>
        if Live(m.rows, scan) {
          outcome := FirstReadAlone(m, t, scan, cmd, next, n);
        } else {
          outcome := NoRowAlone(m, t, scan, cmd, n);
        }
      case ReadWinner => outcome := FirstReadAlone(m, t, scan, cmd, next, n);
      case CheckBeforeInsert => outcome := CheckInsertAlone(m, t, scan, cmd, n);
      case InsertRow => outcome := InsertAlone(m, t, scan, cmd, n);
      case CheckBeforeUpdate(ent) => outcome := CheckAlone(m, t, scan, cmd, ent, n);
      case UpdateRow(ent, again) => outcome := UpdateAlone(m, t, scan, cmd, ent, again, n);
      case AwaitRow(ent, again) => outcome := UpdateAlone(m, t, scan, cmd, ent, again, n);
      case ReadAgain(ent) => outcome := ReadAgainAlone(m, t, scan, cmd, ent, n);
      case ReadLast(ent) => outcome := LastReadAlone(m, t, scan, cmd, ent, n);
    }
    if outcome == Applied && Tied(scan, cmd) {
      WriteShows(Store(m.rows, m.credits), scan, cmd);
    }
  }

  lemma UpdateAlone(m: Machine, t: TxId, scan: Uuid, cmd: Command, ent: Row, again: bool, n: nat) returns (outcome: Outcome)
    requires (Alone(m, t, scan, cmd, UpdateRow(ent, again)) || Alone(m, t, scan, cmd, AwaitRow(ent, again))) && n >= 7
    ensures Updates(m, scan, cmd, ent, again, outcome)
    ensures Ended(m, t, scan, cmd, outcome, Drive(m, t, n))
  {
    if again {
      outcome := SecondUpdateAlone(m, t, scan, cmd, ent, n);
    } else {
      outcome := FirstUpdateAlone(m, t, scan, cmd, ent, n);
    }
  }

  /** The holder of a row ends within two statements: applied with its pending version, or, for a keep whose
      credit is gone, with nothing written. Its row is free again. */
  lemma HolderAnswers(m: Machine, t: TxId, n: nat)
    requires t in m.txs && Holding(m.txs[t].next) && n >= 2
    ensures var Tx(scan, cmd, next), after := m.txs[t], Drive(m, t, n);
            var paid := next.Commit? || (cmd.quota == Keep ==> scan in m.credits);
            && after.log == m.log[t := if paid then Applied else Retryable]
            && after.txs == m.txs - {t} && after.locks == m.locks - {scan}
            && after.rows == (if paid then m.rows[scan := next.written] else m.rows)
            && after.credits == (if paid && (if next.Commit? then next.freed else cmd.quota == Release)
                                 then m.credits - {scan} else m.credits)
  {
    var Tx(scan, cmd, next) := m.txs[t];
    if next.Commit? {
      SoloCommit(m, t, n);
    } else if cmd.quota == Keep && scan !in m.credits {
      UnpaidGivesUp(m, t);
      DriveFirst(m, t, n);
      EndedStays(End(m, t, Retryable), t, n - 1);
    } else {
      SoloFinish(m, t, n);
    }
  }

  /** A write of a row that another transaction holds waits, and so does the owner's delete. */
  lemma HeldRowMakesWait(m: Machine, t: TxId, user: Uuid)
    requires t in m.txs && m.txs[t].scan in m.locks
    ensures m.txs[t].next.AwaitRow? || (m.txs[t].next.InsertRow? && m.txs[t].scan !in m.rows) ==> Next(m, Step(t)) == m
    ensures Next(m, SoftDelete(m.txs[t].scan, user)) == m
  {
  }

  /** On a free row the delete takes effect at once. */
  lemma FreeRowIsDropped(m: Machine, scan: Uuid, user: Uuid)
    requires scan !in m.locks
    ensures var after := Next(m, SoftDelete(scan, user));
            && after == m.(rows := after.rows) && after.rows.Keys == m.rows.Keys && after.rows - {scan} == m.rows - {scan}
            && (scan in m.rows ==>
                  after.rows[scan] == m.rows[scan].(deleted := m.rows[scan].deleted || m.rows[scan].owner == user))
  {
    DropMarksRow(m.rows, scan, user);
  }

  /** An abort answers retryable_error, writes nothing, and frees the row if the transaction held it. */
  lemma AbortGivesUp(m: Machine, t: TxId)
    requires t in m.txs
    ensures var after := Next(m, Abort(t));
            && after.rows == m.rows && after.credits == m.credits && after.log == m.log[t := Retryable]
            && after.txs == m.txs - {t}
            && after.locks == if Holding(m.txs[t].next) then m.locks - {m.txs[t].scan} else m.locks
  {
  }

  /** A reservation gives a scan without a credit one, and waits only while an uncommitted release holds the old
      one. */
  lemma ReservationTakesEffect(m: Machine, scan: Uuid, credit: Credit)
    requires scan in m.locks ==> !(m.locks[scan] in m.txs && m.txs[m.locks[scan]].next.Commit? && m.txs[m.locks[scan]].next.freed)
    ensures Next(m, Reserve(scan, credit)) ==
              m.(credits := if scan in m.credits then m.credits else m.credits[scan := credit])
  {
  }

  /* ---- The insert race ---- */

  /** Both commands find no row and reach their insert; then the first one runs to its end, then the second. */
  function InsertRace(scan: Uuid, c: Command, d: Command, t: TxId, u: TxId, n: nat): seq<Action> {
    [Begin(t, scan, c)] + [Begin(u, scan, d)] + Steps(t, ReadSteps(c)) + Steps(u, ReadSteps(d)) + Steps(t, n) + Steps(u, n)
  }

  lemma RunInsertRace(m: Machine, scan: Uuid, c: Command, d: Command, t: TxId, u: TxId, n: nat)
    ensures var begun := Next(Next(m, Begin(t, scan, c)), Begin(u, scan, d));
            Run(m, InsertRace(scan, c, d, t, u, n))
              == Drive(Drive(Drive(Drive(begun, t, ReadSteps(c)), u, ReadSteps(d)), t, n), u, n)
  {
    var a, b := [Begin(t, scan, c)], [Begin(u, scan, d)];
    var readT, readU, endT, endU := Steps(t, ReadSteps(c)), Steps(u, ReadSteps(d)), Steps(t, n), Steps(u, n);
    RunMore(m, a + b + readT + readU + endT, endU);
    RunMore(m, a + b + readT + readU, endT);
    RunMore(m, a + b + readT, readU);
    RunMore(m, a + b, readT);
    RunMore(m, a, b);
    RunSingle(m, Begin(t, scan, c));
    RunSingle(Next(m, Begin(t, scan, c)), Begin(u, scan, d));
  }

  /** A first read of no row, and the quota check of a keep. */
  lemma ReadsNoRow(m: Machine, t: TxId)
    requires t in m.txs && m.txs[t].next.FirstRead? && m.txs[t].scan !in m.rows
    requires PENDING in m.txs[t].cmd.sources && Paid(m, m.txs[t].scan, m.txs[t].cmd)
    ensures Drive(m, t, ReadSteps(m.txs[t].cmd)) == Goto(m, t, InsertRow)
  {
    var n := ReadSteps(m.txs[t].cmd);
    DriveFirst(m, t, n);
    if m.txs[t].cmd.quota == Keep {
      var checking := Goto(m, t, CheckBeforeInsert);
      assert Next(m, Step(t)) == checking;
      assert Next(checking, Step(t)) == Goto(checking, t, InsertRow);
      DriveFirst(checking, t, n - 1);
    } else {
      assert Next(m, Step(t)) == Goto(m, t, InsertRow);
    }
  }

  lemma BothReadNoRow(m: Machine, scan: Uuid, c: Command, d: Command, t: TxId, u: TxId)
    requires t !in m.txs && u !in m.txs && t !in m.log && u !in m.log && t != u && scan !in m.rows
    requires PENDING in c.sources && PENDING in d.sources && Paid(m, scan, c) && Paid(m, scan, d)
    ensures var begun := Next(Next(m, Begin(t, scan, c)), Begin(u, scan, d));
            Drive(Drive(begun, t, ReadSteps(c)), u, ReadSteps(d))
              == m.(txs := m.txs[t := Tx(scan, c, InsertRow)][u := Tx(scan, d, InsertRow)])
  {
    hide RunStatement, Run;
    var begun := m.(txs := m.txs[t := Tx(scan, c, FirstRead)][u := Tx(scan, d, FirstRead)]);
    assert Next(Next(m, Begin(t, scan, c)), Begin(u, scan, d)) == begun;
    ReadsNoRow(begun, t);
    var half := m.(txs := m.txs[t := Tx(scan, c, InsertRow)][u := Tx(scan, d, FirstRead)]);
    assert half.txs == begun.txs[t := Tx(scan, c, InsertRow)];
    ReadsNoRow(half, u);
    assert half.txs[u := Tx(scan, d, InsertRow)] == m.txs[t := Tx(scan, c, InsertRow)][u := Tx(scan, d, InsertRow)];
  }

  /** The loser of an insert race is answered, and acts, as a command that came after the winner: it applies when
      it admits the winner's target, unless it keeps a credit that the winner released; under the winner's
      id it was already applied; and otherwise its refusal says what the row now is. */
  lemma InsertRaceLoser(m: Machine, scan: Uuid, c: Command, d: Command, t: TxId, u: TxId, n: nat) returns (outcome: Outcome)
    requires t !in m.txs && u !in m.txs && t !in m.log && u !in m.log && t != u && scan !in m.rows && scan !in m.locks && n >= 12
    requires Tied(scan, c) && PENDING in c.sources && PENDING in d.sources && Paid(m, scan, c) && Paid(m, scan, d)
    ensures var after := Run(m, InsertRace(scan, c, d, t, u, n));
            var won := Write(Store(m.rows, m.credits), scan, c);
            && after.log == m.log[t := Applied][u := outcome]
            && Store(after.rows, after.credits) == (if outcome == Applied then Write(won, scan, d) else won)
    ensures if d.transitionId == c.transitionId then outcome == AlreadyApplied
            else if c.target !in d.sources then Refuses(outcome, c.target, d)
            else outcome == if d.quota == Keep && c.quota == Release then Retryable else Applied
  {
    hide RunStatement, Run, Next;
    RunInsertRace(m, scan, c, d, t, u, n);
    BothReadNoRow(m, scan, c, d, t, u);
    var ready := m.(txs := m.txs[t := Tx(scan, c, InsertRow)][u := Tx(scan, d, InsertRow)]);
    var first := InsertAlone(ready, t, scan, c, n);
    var won := Drive(ready, t, n);
    WriteShows(Store(m.rows, m.credits), scan, c);
    outcome := InsertAlone(won, u, scan, d, n);
  }
}
