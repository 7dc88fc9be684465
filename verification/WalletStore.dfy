/** The transaction of internal/wallettransition/apply.go over its two tables, statement by statement,
    with the rollback of a transaction whose statement fails. */
module WalletStore {
  import opened Common
  import opened ScanState
  import opened UsageLedger
  import WT = WalletTransition

  /** The statements that the database may fail. */
  datatype Statement =
    | FirstRead | CheckCredit | InsertRow | ReadWinner
    | UpdateRow | ReadAgain | UpdateAgain | FinishQuota | Reload

  /** The first statement on the command's way that the database fails, if any. Statements it does not reach
      do not matter. */
  function Failing(st: WT.Store, scan: Uuid, cmd: WT.Command, faults: set<Statement>): Option<Statement> {
    var live := WT.Live(st.rows, scan);
    var stops := if live then WT.SameTransition(st.rows[scan], cmd) || WT.StatusAt(st.rows, scan) !in cmd.sources
                 else PENDING !in cmd.sources;
    var write := if live then UpdateRow else InsertRow;
    if FirstRead in faults then Common.Some(FirstRead)
    else if stops then Common.None
    else if cmd.quota == WT.Keep && CheckCredit in faults then Common.Some(CheckCredit)
    else if cmd.quota == WT.Keep && scan !in st.credits then Common.None
    else if write in faults then Common.Some(write)
    else if !live && scan in st.rows then (if ReadWinner in faults then Common.Some(ReadWinner) else Common.None)
    else if cmd.quota != WT.NoQuota && FinishQuota in faults then Common.Some(FinishQuota)
    else if Reload in faults then Common.Some(Reload)
    else Common.None
  }

  /** The answer to a failed statement; the first and the last read report no status. */
  function FaultResult(st: WT.Store, scan: Uuid, failing: Statement): WT.Result {
    var status := if failing == FirstRead || failing == Reload then Blank
                  else if WT.Live(st.rows, scan) then WT.StatusAt(st.rows, scan) else PENDING;
    WT.Result(WT.Retryable, status, Common.None)
  }

  class WalletDb {
    var rows: WT.Rows
    const ledger: Ledger

    constructor (ledger: Ledger)
      ensures rows == map[] && this.ledger == ledger
    {
      rows := map[];
      this.ledger := ledger;
    }

    ghost function Contents(): WT.Store
      reads this, ledger
    {
      WT.Store(rows, ledger.credits)
    }

    /** All or nothing: the command has its serial meaning, or a statement that it reaches failed, both
        tables are as they were, and the answer is retryable_error. */
    method Apply(scan: Uuid, cmd: WT.Command, faults: set<Statement>) returns (out: WT.Result)
      modifies this, ledger
      ensures var failing := Failing(old(Contents()), scan, cmd, faults);
              (Contents(), out) == if failing.Some? then (old(Contents()), FaultResult(old(Contents()), scan, failing.value))
                                   else WT.Apply(old(Contents()), scan, cmd)
    {
      var savedRows, savedCredits := rows, ledger.credits;
      var ok: bool;
      out, ok := ApplyTx(scan, cmd, faults);
      if !ok {
        rows, ledger.credits := savedRows, savedCredits;
        out := WT.Result(WT.Retryable, out.status, Common.None);
      }
    }

    method ApplyTx(scan: Uuid, cmd: WT.Command, faults: set<Statement>) returns (out: WT.Result, ok: bool)
      modifies this, ledger
      ensures var failing := Failing(old(Contents()), scan, cmd, faults);
              && (failing.Some? ==> !ok && out.status == FaultResult(old(Contents()), scan, failing.value).status)
              && (ok ==> (Contents(), out) == WT.Apply(old(Contents()), scan, cmd))
              && (!ok && failing.None? ==>
                    WT.Apply(old(Contents()), scan, cmd) == (old(Contents()), WT.Result(WT.Retryable, out.status, Common.None)))
    {
      if FirstRead in faults {
        return WT.Result(WT.Retryable, Blank, Common.None), false;
      }
      if WT.Live(rows, scan) {
        out, ok := ApplyExisting(scan, cmd, rows[scan], faults);
      } else {
        out, ok := ApplyMissing(scan, cmd, faults);
      }
    }

    /** Also called with a row that appeared after the first read: the winner is then qualified like
        any existing row. */
    method ApplyMissing(scan: Uuid, cmd: WT.Command, faults: set<Statement>) returns (out: WT.Result, ok: bool)
      modifies this, ledger
      ensures ok && (!WT.Live(old(rows), scan) || (PENDING in cmd.sources && (cmd.quota == WT.Keep ==> scan in old(ledger.credits))))
              ==> (Contents(), out) == WT.Apply(old(Contents()), scan, cmd)
      ensures ok && PENDING !in cmd.sources
              ==> Contents() == old(Contents()) && out == WT.Result(WT.Rejected, PENDING, Common.None)
      ensures FirstRead !in faults && !WT.Live(old(rows), scan) ==>
                var failing := Failing(old(Contents()), scan, cmd, faults);
                && (failing.Some? ==> !ok && out.status == FaultResult(old(Contents()), scan, failing.value).status)
                && (!ok && failing.None? ==>
                      WT.Apply(old(Contents()), scan, cmd) == (old(Contents()), WT.Result(WT.Retryable, out.status, Common.None)))
    {
      if PENDING !in cmd.sources {
        return WT.Result(WT.Rejected, PENDING, Common.None), true;
      }
      var stop;
      stop, ok := PrepareQuota(scan, cmd, PENDING, faults);
      if !ok || stop.Some? {
        return if stop.Some? then stop.value else WT.Result(WT.Retryable, PENDING, Common.None), ok;
      }
      if InsertRow in faults {
        return WT.Result(WT.Retryable, PENDING, Common.None), false;
      }
      if scan in rows {
        // ON CONFLICT DO NOTHING: no row was inserted.
        if ReadWinner in faults || rows[scan].deleted {
          return WT.Result(WT.Retryable, PENDING, Common.None), false;
        }
        out, ok := ApplyExisting(scan, cmd, rows[scan], faults);
        return;
      }
      rows := rows[scan := WT.NewRow(cmd)];
      ok := Finish(scan, cmd, faults);
      if !ok {
        return WT.Result(WT.Retryable, PENDING, Common.None), false;
      }
      if Reload in faults {
        return WT.Result(WT.Retryable, Blank, Common.None), false;
      }
      out := WT.Result(WT.Applied, rows[scan].LogicalStatus(), Common.Some(rows[scan]));
    }

    /** ent is what the transaction read; it may be stale. Even then the transaction writes only what
        the command may write to the current row, and any other answer writes nothing. */
    method ApplyExisting(scan: Uuid, cmd: WT.Command, ent: WT.Row, faults: set<Statement>)
      returns (out: WT.Result, ok: bool)
      modifies this, ledger
      ensures ok && out.outcome == WT.Applied ==>
                WT.MayWrite(old(Contents()), scan, cmd) && Contents() == WT.Write(old(Contents()), scan, cmd)
      ensures ok && out.outcome != WT.Applied ==> Contents() == old(Contents())
      ensures ok && WT.Live(old(rows), scan) && ent == old(rows)[scan] ==>
                (Contents(), out) == WT.Apply(old(Contents()), scan, cmd)
      ensures ok ==>
                if ent.transitionId == Common.Some(cmd.transitionId) then out.outcome == WT.AlreadyApplied
                else if WT.Standing(ent) !in cmd.sources then WT.Refuses(out.outcome, WT.Standing(ent), cmd)
                else if cmd.quota == WT.Keep && scan !in old(ledger.credits) then out.outcome == WT.Retryable
                else
                  && WT.Live(old(rows), scan)
                  && if WT.Standing(old(rows)[scan]) in cmd.sources then out.outcome == WT.Applied
                     else WT.Refuses(out.outcome, WT.Standing(old(rows)[scan]), cmd)
      ensures FirstRead !in faults && WT.Live(old(rows), scan) && ent == old(rows)[scan] ==>
                var failing := Failing(old(Contents()), scan, cmd, faults);
                && (ok <==> failing.None?)
                && (failing.Some? ==> out.status == FaultResult(old(Contents()), scan, failing.value).status)
    {
      var status := ent.LogicalStatus();
      if WT.SameTransition(ent, cmd) {
        return WT.Result(WT.AlreadyApplied, status, Common.Some(ent.(status := Common.Some(status)))), true;
      }
      if status !in cmd.sources {
        return WT.Classify(status, cmd), true;
      }
      var stop;
      stop, ok := PrepareQuota(scan, cmd, status, faults);
      if !ok || stop.Some? {
        return if stop.Some? then stop.value else WT.Result(WT.Retryable, status, Common.None), ok;
      }
      if WT.Live(rows, scan) {
        WT.GuardAgreement(cmd.sources, rows[scan].status);
      }
      var hit;
      hit, ok := WriteScoped(scan, cmd, UpdateRow in faults);
      if !ok {
        return WT.Result(WT.Retryable, status, Common.None), false;
      }
      if !hit {
        if ReadAgain in faults || !WT.Live(rows, scan) {
          return WT.Result(WT.Retryable, status, Common.None), false;
        }
        var again := rows[scan];
        if WT.SameTransition(again, cmd) || again.LogicalStatus() !in cmd.sources {
          return WT.Classify(again.LogicalStatus(), cmd), true;
        }
        // Nothing moved since the first UPDATE, so the second cannot be reached here; the lost race is
        // the subject of WalletInterleaving.
        assert false;
      }
      ok := Finish(scan, cmd, faults);
      if !ok {
        return WT.Result(WT.Retryable, status, Common.None), false;
      }
      if Reload in faults {
        return WT.Result(WT.Retryable, Blank, Common.None), false;
      }
      out := WT.Result(WT.Applied, rows[scan].LogicalStatus(), Common.Some(rows[scan]));
    }

    /** A stop answer ends the transaction without an error and without a write. */
    method PrepareQuota(scan: Uuid, cmd: WT.Command, status: State, faults: set<Statement>)
      returns (stop: Option<WT.Result>, ok: bool)
      ensures !ok <==> cmd.quota == WT.Keep && CheckCredit in faults
      ensures ok ==> stop == if cmd.quota == WT.Keep && scan !in ledger.credits
                             then Common.Some(WT.Result(WT.Retryable, status, Common.None)) else Common.None
      ensures !ok ==> stop.None?
    {
      stop, ok := Common.None, true;
      if cmd.quota != WT.Keep {
        return;
      }
      if CheckCredit in faults {
        return Common.None, false;
      }
      var has := ledger.Has(scan);
      if !has {
        stop := Common.Some(WT.Result(WT.Retryable, status, Common.None));
      }
    }

    /** Runs after the row was written: releases the credit, or fails the transaction when a kept
        credit is gone. */
    method Finish(scan: Uuid, cmd: WT.Command, faults: set<Statement>) returns (ok: bool)
      modifies ledger
      ensures ok ==> ledger.credits == if cmd.quota == WT.Release then Released(old(ledger.credits), scan) else old(ledger.credits)
      ensures ok && cmd.quota == WT.Keep ==> scan in ledger.credits
      ensures !ok <==> (cmd.quota != WT.NoQuota && FinishQuota in faults) || (cmd.quota == WT.Keep && scan !in old(ledger.credits))
    {
      if cmd.quota == WT.NoQuota {
        return true;
      }
      if FinishQuota in faults {
        return false;
      }
      if cmd.quota == WT.Release {
        ledger.Release(scan);
        return true;
      }
      ok := ledger.Has(scan);
    }

    /** The conditional UPDATE; hit reports one affected row. */
    method WriteScoped(scan: Uuid, cmd: WT.Command, fault: bool) returns (hit: bool, ok: bool)
      modifies this`rows
      ensures ok <==> !fault
      ensures hit <==> !fault && WT.Live(old(rows), scan)
                       && WT.Holds(WT.ScopeOf(cmd.sources), old(rows)[scan].status) == WT.True
      ensures rows == if hit then old(rows)[scan := WT.UpdatedRow(old(rows)[scan], cmd)] else old(rows)
    {
      if fault {
        return false, false;
      }
      var scope := WT.SourceScope(cmd.sources);
      hit, ok := WT.Live(rows, scan) && WT.Holds(scope, rows[scan].status) == WT.True, true;
      if hit {
        rows := rows[scan := WT.UpdatedRow(rows[scan], cmd)];
      }
    }

    /** DELETE of a live owned row (internal/repository/scan_result_repository.go): the row stays, marked. */
    method SoftDelete(user: Uuid, scan: Uuid) returns (deleted: bool)
      modifies this`rows
      ensures deleted <==> WT.Live(old(rows), scan) && old(rows)[scan].owner == user
      ensures rows == WT.Dropped(old(rows), scan, user)
    {
      deleted := WT.Live(rows, scan) && rows[scan].owner == user;
      if deleted {
        rows := rows[scan := rows[scan].(deleted := true)];
      }
    }
  }
}
