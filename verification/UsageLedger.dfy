/** The plan-quota ledger (internal/repository/scan_usage_ledger_repository.go and the slot
    logic of internal/persistence/handlers/scan_events.go). One row per scan id. */
module UsageLedger {
  import opened Common

  datatype Kind = Wallet | Endpoint | OtherKind(text: string)

  datatype Credit = Credit(user: Uuid, kind: Kind)

  // The unique index on scan_id makes the table a map.
  type Credits = map<Uuid, Credit>

  predicate ValidKind(kind: Kind) {
    kind.Wallet? || kind.Endpoint?
  }

  ghost function Held(credits: Credits, user: Uuid, kind: Kind): set<Uuid> {
    HeldAmong(credits, credits.Keys, user, kind)
  }

  ghost function HeldAmong(credits: Credits, among: set<Uuid>, user: Uuid, kind: Kind): set<Uuid> {
    set scan | scan in among && scan in credits && credits[scan] == Credit(user, kind)
  }

  lemma HeldGrows(credits: Credits, among: set<Uuid>, scan: Uuid, user: Uuid, kind: Kind)
    requires scan in credits && scan !in among
    ensures |HeldAmong(credits, among + {scan}, user, kind)|
         == |HeldAmong(credits, among, user, kind)| + if credits[scan] == Credit(user, kind) then 1 else 0
  {
    var before, after := HeldAmong(credits, among, user, kind), HeldAmong(credits, among + {scan}, user, kind);
    if credits[scan] == Credit(user, kind) {
      assert after == before + {scan};
    } else {
      assert after == before;
    }
  }

  /** INSERT .. ON CONFLICT (scan_id) DO NOTHING. */
  function Recorded(credits: Credits, user: Uuid, scan: Uuid, kind: Kind): Credits {
    if scan in credits then credits else credits[scan := Credit(user, kind)]
  }

  function Released(credits: Credits, scan: Uuid): Credits {
    credits - {scan}
  }

  /** A completion may hold a credit: it has one, its plan has no limit, or the user is below it. */
  ghost predicate MayHold(credits: Credits, user: Uuid, scan: Uuid, kind: Kind, limit: int, unlimited: bool) {
    scan in credits || unlimited || limit <= 0 || |Held(credits, user, kind)| < limit
  }

  ghost function Confirmed(credits: Credits, user: Uuid, scan: Uuid, kind: Kind, limit: int, unlimited: bool): Credits {
    if MayHold(credits, user, scan, kind, limit, unlimited)
    then Recorded(credits, user, scan, kind)
    else credits
  }

  class Ledger {
    var credits: Credits

    constructor ()
      ensures credits == map[]
    {
      credits := map[];
    }

    /** Counts the rows of one user and kind by visiting every row once. */
    method Count(user: Uuid, kind: Kind) returns (count: nat)
      ensures count == |Held(credits, user, kind)|
    {
      count := 0;
      var rest := credits.Keys;
      ghost var seen: set<Uuid> := {};
      while rest != {}
        invariant seen + rest == credits.Keys && seen !! rest
        invariant count == |HeldAmong(credits, seen, user, kind)|
        decreases rest
      {
        var scan :| scan in rest;
        HeldGrows(credits, seen, scan, user, kind);
        rest := rest - {scan};
        seen := seen + {scan};
        if credits[scan] == Credit(user, kind) {
          count := count + 1;
        }
      }
      assert seen == credits.Keys;
    }

    method Has(scan: Uuid) returns (has: bool)
      ensures has <==> scan in credits
    {
      has := scan in credits;
    }

    method Record(user: Uuid, scan: Uuid, kind: Kind) returns (ok: bool)
      modifies this
      ensures ok <==> ValidKind(kind)
      ensures credits == if ok then Recorded(old(credits), user, scan, kind) else old(credits)
    {
      if !ValidKind(kind) {
        return false;
      }
      if scan !in credits {
        credits := credits[scan := Credit(user, kind)];
      }
      ok := true;
    }

    /** Inserts only while the user is below the limit; acquired reports whether a row was written,
        or true without a limit. */
    method RecordIfUnderLimit(user: Uuid, scan: Uuid, kind: Kind, limit: int) returns (acquired: bool, ok: bool)
      modifies this
      ensures ok <==> ValidKind(kind)
      ensures ok ==> (acquired <==> limit <= 0 || (|Held(old(credits), user, kind)| < limit && scan !in old(credits)))
      ensures !ok ==> !acquired
      ensures credits == if acquired then Recorded(old(credits), user, scan, kind) else old(credits)
    {
      if limit <= 0 {
        ok := Record(user, scan, kind);
        return ok, ok;
      }
      if !ValidKind(kind) {
        return false, false;
      }
      var count := Count(user, kind);
      acquired, ok := count < limit && scan !in credits, true;
      if acquired {
        credits := credits[scan := Credit(user, kind)];
      }
    }

    method Release(scan: Uuid)
      modifies this
      ensures credits == Released(old(credits), scan)
    {
      credits := credits - {scan};
    }

    /** Keeps the row that already belongs to the scan, otherwise takes a credit under the limit. */
    method ConfirmExistingOrAcquire(user: Uuid, scan: Uuid, kind: Kind, limit: int, unlimited: bool)
      returns (acquired: bool, ok: bool)
      modifies this
      ensures ok <==> scan in old(credits) || ValidKind(kind)
      ensures ok ==> (acquired <==> scan in credits)
      ensures ok ==> (acquired <==> MayHold(old(credits), user, scan, kind, limit, unlimited))
      ensures credits == if ok then Confirmed(old(credits), user, scan, kind, limit, unlimited) else old(credits)
      ensures !ok ==> !acquired
    {
      var reserved := Has(scan);
      if reserved {
        return true, true;
      }
      if unlimited {
        ok := Record(user, scan, kind);
        return ok, ok;
      }
      acquired, ok := RecordIfUnderLimit(user, scan, kind, limit);
      if !ok || acquired {
        return;
      }
      acquired := Has(scan);
    }
  }

  /** Inserting one new row adds one to its user and kind and nothing to anyone else. */
  lemma RecordAddsOne(credits: Credits, user: Uuid, scan: Uuid, kind: Kind, other: Uuid, otherKind: Kind)
    requires scan !in credits
    ensures |Held(Recorded(credits, user, scan, kind), other, otherKind)|
         == |Held(credits, other, otherKind)| + if other == user && otherKind == kind then 1 else 0
  {
    var before, after := Held(credits, other, otherKind), Held(Recorded(credits, user, scan, kind), other, otherKind);
    if other == user && otherKind == kind {
      assert after == before + {scan};
    } else {
      assert after == before;
    }
  }

  /** A release never raises a count. */
  lemma ReleaseNeverAdds(credits: Credits, scan: Uuid, user: Uuid, kind: Kind)
    ensures |Held(Released(credits, scan), user, kind)| <= |Held(credits, user, kind)|
  {
    var before, after := Held(credits, user, kind), Held(Released(credits, scan), user, kind);
    assert after == before - {scan};
    assert before == after + (before * {scan});
  }

  /** Confirming a scan touches no other scan's row, and keeps the user within the larger of the
      limit and the count it started from. */
  lemma ConfirmStaysWithinLimit(credits: Credits, user: Uuid, scan: Uuid, kind: Kind, limit: int, bound: nat, other: Uuid, otherKind: Kind)
    requires limit > 0
    requires other == user && otherKind == kind ==> limit <= bound
    requires |Held(credits, other, otherKind)| <= bound
    ensures forall s | s != scan ::
              (s in Confirmed(credits, user, scan, kind, limit, false) <==> s in credits)
              && (s in credits ==> Confirmed(credits, user, scan, kind, limit, false)[s] == credits[s])
    ensures |Held(Confirmed(credits, user, scan, kind, limit, false), other, otherKind)| <= bound
  {
    if scan !in credits {
      RecordAddsOne(credits, user, scan, kind, other, otherKind);
    }
  }

  /** Who is given a credit, by counting the rows of the user and kind: the scan that has one, every scan of a
      plan without a limit, and below the limit the next one. Nothing else in the ledger moves. */
  lemma ConfirmGrants(credits: Credits, user: Uuid, scan: Uuid, kind: Kind, limit: int, unlimited: bool)
    ensures var after := Confirmed(credits, user, scan, kind, limit, unlimited);
            var used := |set s | s in credits && credits[s] == Credit(user, kind)|;
            && (scan in after <==> scan in credits || unlimited || limit <= 0 || used < limit)
            && (scan in after ==> after[scan] == if scan in credits then credits[scan] else Credit(user, kind))
            && after - {scan} == credits - {scan}
  {
    assert (set s | s in credits && credits[s] == Credit(user, kind)) == Held(credits, user, kind);
  }

  /** A release takes the scan's row out and nothing else. */
  lemma ReleaseRemoves(credits: Credits, scan: Uuid)
    ensures scan !in Released(credits, scan) && Released(credits, scan) - {scan} == credits - {scan}
  {
  }
}
