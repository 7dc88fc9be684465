/** The interleaved machine against the serial meaning of a command: a transaction that nothing interrupts
    gives exactly the serial answer. */
module WalletSolo {
  import opened Common
  import opened ScanState
  import opened UsageLedger
  import opened WalletTransition
  import opened WalletInterleaving

  lemma {:induction false} RunMore(m: Machine, acts: seq<Action>, more: seq<Action>)
    ensures Run(m, acts + more) == Run(Run(m, acts), more)
  {
    if more == [] {
      assert acts + more == acts;
    } else {
      var n := |more| - 1;
      RunMore(m, acts, more[..n]);
      assert (acts + more)[..|acts + more| - 1] == acts + more[..n];
    }
  }

  lemma RunSingle(m: Machine, act: Action)
    ensures Run(m, [act]) == Next(m, act)
  {
    assert [act][..0] == [];
  }

  function Steps(t: TxId, n: nat): seq<Action> {
    if n == 0 then [] else [Step(t)] + Steps(t, n - 1)
  }

  lemma {:induction false} StepsAre(t: TxId, n: nat)
    ensures forall act | act in Steps(t, n) :: act == Step(t)
  {
    if n > 0 {
      StepsAre(t, n - 1);
    }
  }

  /** n steps of one transaction in a row; those after its end do nothing. */
  function Drive(m: Machine, t: TxId, n: nat): Machine {
    Run(m, Steps(t, n))
  }

  lemma DriveFirst(m: Machine, t: TxId, n: nat)
    requires n > 0
    ensures Drive(m, t, n) == Drive(Next(m, Step(t)), t, n - 1)
  {
    RunMore(m, [Step(t)], Steps(t, n - 1));
    RunSingle(m, Step(t));
  }

  lemma {:induction false} EndedStays(m: Machine, t: TxId, n: nat)
    requires t !in m.txs
    ensures Drive(m, t, n) == m
  {
    if n > 0 {
      DriveFirst(m, t, n);
      EndedStays(m, t, n - 1);
    }
  }

  /** t has ended with this answer, and moved nothing but the store. */
  predicate EndsAs(m: Machine, t: TxId, st: Store, outcome: Outcome, after: Machine) {
    && Store(after.rows, after.credits) == st
    && after.log == m.log[t := outcome]
    && after.txs == m.txs - {t}
    && after.locks == m.locks
  }

  /** Nobody holds the row, and t stands before next. */
  predicate Alone(m: Machine, t: TxId, scan: Uuid, cmd: Command, next: Statement) {
    t in m.txs && m.txs[t] == Tx(scan, cmd, next) && scan !in m.locks
  }

  lemma SoloCommit(m: Machine, t: TxId, n: nat)
    requires t in m.txs && m.txs[t].next.Commit? && n >= 1
    ensures var Tx(scan, cmd, Commit(written, freed)) := m.txs[t];
            var st := Store(m.rows[scan := written], if freed then Released(m.credits, scan) else m.credits);
            EndsAs(m.(locks := m.locks - {scan}), t, st, Applied, Drive(m, t, n))
  {
    DriveFirst(m, t, n);
    EndedStays(RunHolding(m, t), t, n - 1);
  }

  lemma FinishStep(m: Machine, t: TxId)
    requires t in m.txs && m.txs[t].next.FinishQuota?
    requires m.txs[t].cmd.quota == Keep ==> m.txs[t].scan in m.credits
    ensures var Tx(scan, cmd, FinishQuota(written)) := m.txs[t];
            Next(m, Step(t)) == Goto(m, t, Commit(written, cmd.quota == Release && scan in m.credits))
  {
  }

  lemma SoloFinish(m: Machine, t: TxId, n: nat)
    requires t in m.txs && m.txs[t].next.FinishQuota? && n >= 2
    requires m.txs[t].cmd.quota == Keep ==> m.txs[t].scan in m.credits
    ensures var Tx(scan, cmd, FinishQuota(written)) := m.txs[t];
            var st := Store(m.rows[scan := written],
                            if cmd.quota == Release then Released(m.credits, scan) else m.credits);
            EndsAs(m.(locks := m.locks - {scan}), t, st, Applied, Drive(m, t, n))
  {
    var Tx(scan, cmd, FinishQuota(written)) := m.txs[t];
    var freed := cmd.quota == Release && scan in m.credits;
    FinishStep(m, t);
    DriveFirst(m, t, n);
    var committing := Goto(m, t, Commit(written, freed));
    SoloCommit(committing, t, n - 1);
    assert committing.txs - {t} == m.txs - {t};
    assert scan !in m.credits ==> Released(m.credits, scan) == m.credits;
  }

  lemma SoloWritten(m: Machine, t: TxId, scan: Uuid, cmd: Command, n: nat)
    requires t in m.txs && m.txs[t].scan == scan && m.txs[t].cmd == cmd && scan !in m.locks && n >= 2
    requires cmd.quota == Keep ==> scan in m.credits
    ensures EndsAs(m, t, Write(Store(m.rows, m.credits), scan, cmd), Applied,
                   Drive(Acquire(m, t, WrittenRow(m.rows, scan, cmd)), t, n))
  {
    var held := Acquire(m, t, WrittenRow(m.rows, scan, cmd));
    SoloFinish(held, t, n);
    assert held.locks - {scan} == m.locks;
    assert held.txs - {t} == m.txs - {t};
  }

  lemma SoloAwait(m: Machine, t: TxId, scan: Uuid, cmd: Command, ent: Row, n: nat)
    requires Alone(m, t, scan, cmd, AwaitRow(ent, false)) && n >= 3
    requires Live(m.rows, scan) && StatusAt(m.rows, scan) in cmd.sources && (cmd.quota == Keep ==> scan in m.credits)
    ensures EndsAs(m, t, Write(Store(m.rows, m.credits), scan, cmd), Applied, Drive(m, t, n))
  {
    GuardAgreement(cmd.sources, m.rows[scan].status);
    DriveFirst(m, t, n);
    assert RunWrite(m, t) == Acquire(m, t, WrittenRow(m.rows, scan, cmd));
    SoloWritten(m, t, scan, cmd, n - 1);
  }

  lemma SoloUpdate(m: Machine, t: TxId, scan: Uuid, cmd: Command, ent: Row, n: nat)
    requires Alone(m, t, scan, cmd, UpdateRow(ent, false)) && n >= 4
    requires Live(m.rows, scan) && StatusAt(m.rows, scan) in cmd.sources && (cmd.quota == Keep ==> scan in m.credits)
    ensures EndsAs(m, t, Write(Store(m.rows, m.credits), scan, cmd), Applied, Drive(m, t, n))
  {
    GuardAgreement(cmd.sources, m.rows[scan].status);
    DriveFirst(m, t, n);
    var waiting := Goto(m, t, AwaitRow(ent, false));
    assert RunWrite(m, t) == waiting;
    SoloAwait(waiting, t, scan, cmd, ent, n - 1);
    assert waiting.txs - {t} == m.txs - {t};
  }

  lemma SoloKeep(m: Machine, t: TxId, scan: Uuid, cmd: Command, ent: Row, n: nat)
    requires Alone(m, t, scan, cmd, CheckBeforeUpdate(ent)) && Live(m.rows, scan) && n >= 5
    requires StatusAt(m.rows, scan) in cmd.sources && cmd.quota == Keep
    ensures if scan in m.credits
            then EndsAs(m, t, Write(Store(m.rows, m.credits), scan, cmd), Applied, Drive(m, t, n))
            else EndsAs(m, t, Store(m.rows, m.credits), Retryable, Drive(m, t, n))
  {
    DriveFirst(m, t, n);
    if scan in m.credits {
      var checked := Goto(m, t, UpdateRow(ent, false));
      assert RunRead(m, t) == checked;
      SoloUpdate(checked, t, scan, cmd, ent, n - 1);
      assert checked.txs - {t} == m.txs - {t};
    } else {
      EndedStays(RunRead(m, t), t, n - 1);
    }
  }

  lemma SoloExisting(m: Machine, t: TxId, scan: Uuid, cmd: Command, n: nat)
    requires Alone(m, t, scan, cmd, FirstRead) && Live(m.rows, scan) && n >= 6
    ensures var (st, result) := Apply(Store(m.rows, m.credits), scan, cmd);
            EndsAs(m, t, st, result.outcome, Drive(m, t, n))
  {
    var row := m.rows[scan];
    DriveFirst(m, t, n);
    var read := Qualify(m, t, row);
    assert RunRead(m, t) == read;
    if SameTransition(row, cmd) || row.LogicalStatus() !in cmd.sources {
      EndedStays(read, t, n - 1);
    } else if cmd.quota == Keep {
      SoloKeep(read, t, scan, cmd, row, n - 1);
      assert read.txs - {t} == m.txs - {t};
    } else {
      SoloUpdate(read, t, scan, cmd, row, n - 1);
      assert read.txs - {t} == m.txs - {t};
    }
  }

  lemma SoloConflict(m: Machine, t: TxId, scan: Uuid, cmd: Command, n: nat)
    requires Alone(m, t, scan, cmd, InsertRow) && scan in m.rows && !Live(m.rows, scan) && n >= 3
    ensures EndsAs(m, t, Store(m.rows, m.credits), Retryable, Drive(m, t, n))
  {
    DriveFirst(m, t, n);
    var tried := Goto(m, t, ReadWinner);
    assert RunWrite(m, t) == tried;
    DriveFirst(tried, t, n - 1);
    EndedStays(RunRead(tried, t), t, n - 2);
    assert tried.txs - {t} == m.txs - {t};
  }

  lemma SoloInsert(m: Machine, t: TxId, scan: Uuid, cmd: Command, n: nat)
    requires Alone(m, t, scan, cmd, InsertRow) && !Live(m.rows, scan) && n >= 3
    requires PENDING in cmd.sources && (cmd.quota == Keep ==> scan in m.credits)
    ensures var (st, result) := Apply(Store(m.rows, m.credits), scan, cmd);
            EndsAs(m, t, st, result.outcome, Drive(m, t, n))
  {
    if scan in m.rows {
      SoloConflict(m, t, scan, cmd, n);
    } else {
      DriveFirst(m, t, n);
      assert RunWrite(m, t) == Acquire(m, t, WrittenRow(m.rows, scan, cmd));
      SoloWritten(m, t, scan, cmd, n - 1);
    }
  }

  lemma SoloMissing(m: Machine, t: TxId, scan: Uuid, cmd: Command, n: nat)
    requires Alone(m, t, scan, cmd, FirstRead) && !Live(m.rows, scan) && n >= 6
    ensures var (st, result) := Apply(Store(m.rows, m.credits), scan, cmd);
            EndsAs(m, t, st, result.outcome, Drive(m, t, n))
  {
    DriveFirst(m, t, n);
    if PENDING !in cmd.sources {
      EndedStays(RunRead(m, t), t, n - 1);
    } else if cmd.quota != Keep {
      var read := Goto(m, t, InsertRow);
      assert RunRead(m, t) == read;
      SoloInsert(read, t, scan, cmd, n - 1);
      assert read.txs - {t} == m.txs - {t};
    } else {
      var read := Goto(m, t, CheckBeforeInsert);
      assert RunRead(m, t) == read;
      SoloCheck(read, t, scan, cmd, n - 1);
      assert read.txs - {t} == m.txs - {t};
    }
  }

  lemma SoloCheck(m: Machine, t: TxId, scan: Uuid, cmd: Command, n: nat)
    requires Alone(m, t, scan, cmd, CheckBeforeInsert) && !Live(m.rows, scan) && n >= 5
    requires PENDING in cmd.sources && cmd.quota == Keep
    ensures var (st, result) := Apply(Store(m.rows, m.credits), scan, cmd);
            EndsAs(m, t, st, result.outcome, Drive(m, t, n))
  {
    DriveFirst(m, t, n);
    if scan in m.credits {
      var checked := Goto(m, t, InsertRow);
      assert RunRead(m, t) == checked;
      SoloInsert(checked, t, scan, cmd, n - 1);
      assert checked.txs - {t} == m.txs - {t};
    } else {
      EndedStays(RunRead(m, t), t, n - 1);
    }
  }

  /** A transaction that nothing interrupts ends within six statements with the serial answer and the
      serial effect, whatever else is in flight on other rows. */
  lemma SoloRunIsSerial(m: Machine, t: TxId, scan: Uuid, cmd: Command, n: nat)
    requires t !in m.txs && t !in m.log && scan !in m.locks && n >= 6
    ensures var (st, result) := Apply(Store(m.rows, m.credits), scan, cmd);
            EndsAs(m, t, st, result.outcome, Run(m, [Begin(t, scan, cmd)] + Steps(t, n)))
  {
    RunMore(m, [Begin(t, scan, cmd)], Steps(t, n));
    RunSingle(m, Begin(t, scan, cmd));
    var begun := Next(m, Begin(t, scan, cmd));
    if Live(m.rows, scan) {
      SoloExisting(begun, t, scan, cmd, n);
    } else {
      SoloMissing(begun, t, scan, cmd, n);
    }
    assert begun.txs - {t} == m.txs;
    assert m.txs - {t} == m.txs;
  }
}
