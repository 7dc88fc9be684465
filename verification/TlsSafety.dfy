/** What serial runs of TLS events keep. */
module TlsSafety {
  import opened Common
  import opened ScanState
  import opened UsageLedger
  import opened TlsEvents

  ghost function Run(st: Database, evs: seq<Event>): Database {
    if evs == [] then st else Handle(Run(st, evs[..|evs| - 1]), evs[|evs| - 1]).0
  }

  predicate Settled(st: Database, scan: Uuid) {
    scan in st.rows && IsTerminal(st.rows[scan].status)
  }

  /* ---- The first terminal event wins ---- */

  predicate SameContent(before: Row, after: Row) {
    after == before.(deleted := after.deleted) && (before.deleted ==> after.deleted)
  }

  predicate SameCredit(before: Credits, after: Credits, scan: Uuid) {
    (scan in before <==> scan in after) && (scan in before ==> after[scan] == before[scan])
  }

  /** Reads of the status succeed, and nobody reserves a credit for this scan any more. */
  predicate Undisturbed(ev: Event, scan: Uuid) {
    && (ev.Completed? && ev.scan == scan ==> ev.statusRead)
    && (ev.Reserve? ==> ev.scan != scan)
  }

  lemma SettledStep(st: Database, ev: Event, scan: Uuid)
    requires Settled(st, scan) && Undisturbed(ev, scan)
    ensures var after := Handle(st, ev).0;
            && scan in after.rows && SameContent(st.rows[scan], after.rows[scan])
            && SameCredit(st.credits, after.credits, scan)
            && (st.rows[scan].user.Some? && !ev.OwnerDelete? ==> after.rows[scan] == st.rows[scan])
  {
  }

  /** Whatever events follow, duplicated and in any order, a settled scan keeps its row content and its
      credit; a user-owned row is touched at all only by its owner's delete. */
  lemma {:induction false} FirstTerminalWins(st: Database, evs: seq<Event>, scan: Uuid)
    requires Settled(st, scan) && forall ev | ev in evs :: Undisturbed(ev, scan)
    ensures var after := Run(st, evs);
            && scan in after.rows && SameContent(st.rows[scan], after.rows[scan])
            && SameCredit(st.credits, after.credits, scan)
            && (st.rows[scan].user.Some? && (forall ev | ev in evs :: !ev.OwnerDelete?)
                ==> after.rows[scan] == st.rows[scan])
  {
    if evs != [] {
      var n := |evs| - 1;
      assert evs[n] in evs;
      FirstTerminalWins(st, evs[..n], scan);
      SettledStep(Run(st, evs[..n]), evs[n], scan);
    }
  }

  /** The completion says again what the row and the ledger already hold: the same result with its credit, or
      one more rejection of a rejected scan. */
  ghost predicate Repeats(st: Database, ev: Event)
    requires ev.Completed? && ev.result.Some? && (ev.user != NIL_UUID ==> ev.plan.Some?) && ev.scan in st.rows
  {
    var row, user := st.rows[ev.scan], OwnerOf(ev.user);
    var same := row == CompletedRow(user, ev.result.value, row.createdAt);
    if user.None? then same
    else if MayHold(st.credits, ev.user, ev.scan, Endpoint, ev.plan.value.limit, ev.plan.value.unlimited)
    then same && ev.scan in st.credits
    else row == RejectedRow(row)
  }

  /** The handler of a completion drops the error of its status read. A well-formed completion of a settled
      live scan is ignored exactly when that read succeeded, and leaves the tables alone exactly when it
      succeeded or the completion only repeats what they hold. */
  lemma CompletionIgnoredWhenRead(st: Database, ev: Event)
    requires ev.Completed? && ev.result.Some? && (ev.user != NIL_UUID ==> ev.plan.Some?)
    requires Settled(st, ev.scan) && Live(st.rows, ev.scan)
    ensures Handle(st, ev).1 == Ignored <==> ev.statusRead
    ensures Handle(st, ev).0 == st <==> ev.statusRead || Repeats(st, ev)
  {
    if !ev.statusRead {
      var after, row := Handle(st, ev).0, st.rows[ev.scan];
      assert ev.scan in after.rows;
      assert st.rows[ev.scan := row] == st.rows;
    }
  }

  /** With a failed read a failed scan becomes a success and takes a credit. */
  lemma FailedReadReopens(st: Database, scan: Uuid, user: Uuid, result: TlsResult, at: nat)
    requires user != NIL_UUID && Live(st.rows, scan) && st.rows[scan].status == FAILED && scan !in st.credits
    ensures var after := Handle(st, Completed(scan, user, "", Some(result), Some(Plan(0, true)), false, at)).0;
            after.rows[scan].status == SUCCESS && scan in after.credits
  {
  }

  /* ---- Credits ---- */

  /** A settled user-owned scan holds a credit exactly when it succeeded. */
  predicate CreditMatches(st: Database, scan: Uuid) {
    Settled(st, scan) && st.rows[scan].user.Some? ==> (scan in st.credits <==> st.rows[scan].status == SUCCESS)
  }

  ghost predicate CreditsMatch(st: Database) {
    forall scan | scan in st.rows :: CreditMatches(st, scan)
  }

  /** Reservations are made before the scan they are for has ended. */
  ghost predicate ReservesEarly(st: Database, evs: seq<Event>) {
    evs == [] ||
    (ReservesEarly(st, evs[..|evs| - 1])
     && (evs[|evs| - 1].Reserve? ==> !Settled(Run(st, evs[..|evs| - 1]), evs[|evs| - 1].scan)))
  }

  lemma CreditsMatchStep(st: Database, ev: Event)
    requires CreditsMatch(st) && (ev.Reserve? ==> !Settled(st, ev.scan))
    ensures CreditsMatch(Handle(st, ev).0)
  {
    var after := Handle(st, ev).0;
    forall scan | scan in after.rows ensures CreditMatches(after, scan) {
      assert scan in st.rows ==> CreditMatches(st, scan);
    }
  }

  /** Over every run of events, plan-limit rejections, missing starts and failed status reads included, a
      settled user-owned scan holds a credit exactly when its status is SUCCESS. */
  lemma {:induction false} CreditIffSuccess(st: Database, evs: seq<Event>)
    requires CreditsMatch(st) && ReservesEarly(st, evs)
    ensures CreditsMatch(Run(st, evs))
  {
    if evs != [] {
      CreditIffSuccess(st, evs[..|evs| - 1]);
      CreditsMatchStep(Run(st, evs[..|evs| - 1]), evs[|evs| - 1]);
    }
  }

  /** The user's plan limits endpoint scans to limit, and nobody reserves endpoint credits for the user. */
  predicate Limited(ev: Event, user: Uuid, limit: int) {
    && (ev.Completed? && ev.user == user && ev.plan.Some? ==> ev.plan.value == Plan(limit, false))
    && (ev.Reserve? ==> ev.credit != Credit(user, Endpoint))
  }

  function Max(a: nat, b: nat): nat {
    if a < b then b else a
  }

  lemma LimitStep(st: Database, ev: Event, user: Uuid, limit: nat, bound: nat)
    requires limit > 0 && Limited(ev, user, limit)
    requires limit <= bound && |Held(st.credits, user, Endpoint)| <= bound
    ensures |Held(Handle(st, ev).0.credits, user, Endpoint)| <= bound
  {
    match ev
    case Completed(scan, owner, _, _, plan, _, _) =>
      if scan !in st.credits {
        RecordAddsOne(st.credits, owner, scan, Endpoint, user, Endpoint);
      }
    case Failed(scan, _, _, _, _, _) =>
      ReleaseNeverAdds(st.credits, scan, user, Endpoint);
    case Reserve(scan, credit) =>
      if scan !in st.credits {
        RecordAddsOne(st.credits, credit.user, scan, credit.kind, user, Endpoint);
      }
    case _ =>
  }

  /** Over a run under a fixed positive limit the user's endpoint count never exceeds the larger of the
      limit and the count it started from. */
  lemma {:induction false} QuotaBound(st: Database, evs: seq<Event>, user: Uuid, limit: nat)
    requires limit > 0 && forall ev | ev in evs :: Limited(ev, user, limit)
    ensures |Held(Run(st, evs).credits, user, Endpoint)| <= Max(limit, |Held(st.credits, user, Endpoint)|)
  {
    if evs != [] {
      var n := |evs| - 1;
      assert evs[n] in evs;
      QuotaBound(st, evs[..n], user, limit);
      LimitStep(Run(st, evs[..n]), evs[n], user, limit, Max(limit, |Held(st.credits, user, Endpoint)|));
    }
  }

  /* ---- No resurrection ---- */

  /** Once a row is soft-deleted no event makes it live or changes it or its credit: the refused insert
      rolls the whole handler transaction back. */
  lemma {:induction false} NoResurrection(st: Database, evs: seq<Event>, scan: Uuid)
    requires scan in st.rows && st.rows[scan].deleted
    requires forall ev | ev in evs && ev.Reserve? :: ev.scan != scan
    ensures var after := Run(st, evs);
            scan in after.rows && after.rows[scan] == st.rows[scan] && SameCredit(st.credits, after.credits, scan)
  {
    if evs != [] {
      assert evs[|evs| - 1] in evs;
      NoResurrection(st, evs[..|evs| - 1], scan);
    }
  }

  /* ---- The default catalogue ---- */

  function Catalogue(rows: Rows, url: string): set<Uuid> {
    set scan | scan in rows && !rows[scan].deleted && rows[scan].user.None? && rows[scan].url == url
  }

  predicate FreshDefaultStart(st: Database, ev: Event, url: string) {
    ev.Started? && ev.user == NIL_UUID && ev.url == url && ev.scan !in st.rows
  }

  /** The last first-seen nil-user start of a URL. */
  ghost function LatestStart(st: Database, evs: seq<Event>, url: string): Option<Uuid> {
    if evs == [] then None
    else if FreshDefaultStart(Run(st, evs[..|evs| - 1]), evs[|evs| - 1], url) then Some(evs[|evs| - 1].scan)
    else LatestStart(st, evs[..|evs| - 1], url)
  }

  /** A start whose replacement works, or an event about a known scan that keeps its owner and URL. */
  predicate KeepsIdentity(st: Database, ev: Event) {
    match ev
    case Started(_, _, _, replaceFails, _) => !replaceFails
    case Completed(scan, user, _, result, _, _, _) =>
      scan in st.rows && (result.Some? ==> OwnerOf(user) == st.rows[scan].user && result.value.url == st.rows[scan].url)
    case Failed(scan, _, _, _, _, _) => scan in st.rows
    case _ => true
  }

  ghost predicate AllKeepIdentity(st: Database, evs: seq<Event>) {
    evs == [] ||
    (AllKeepIdentity(st, evs[..|evs| - 1]) && KeepsIdentity(Run(st, evs[..|evs| - 1]), evs[|evs| - 1]))
  }

  lemma CatalogueStep(st: Database, ev: Event, url: string)
    requires KeepsIdentity(st, ev)
    ensures Catalogue(Handle(st, ev).0.rows, url) ==
              if FreshDefaultStart(st, ev, url) then {ev.scan} else Catalogue(st.rows, url)
  {
    var after := Handle(st, ev).0;
    if FreshDefaultStart(st, ev, url) {
      assert Catalogue(after.rows, url) == {ev.scan};
    } else {
      assert Catalogue(after.rows, url) == Catalogue(st.rows, url);
    }
  }

  /** From any tables, a URL that has a fresh nil-user start in the run ends with exactly one live nil-user
      row, the latest first-seen one; any other URL keeps the rows it had. */
  lemma {:induction false} CatalogueIsLatest(st: Database, evs: seq<Event>, url: string)
    requires AllKeepIdentity(st, evs)
    ensures Catalogue(Run(st, evs).rows, url) ==
              match LatestStart(st, evs, url) { case Some(scan) => {scan} case None => Catalogue(st.rows, url) }
  {
    if evs != [] {
      var n := |evs| - 1;
      CatalogueIsLatest(st, evs[..n], url);
      CatalogueStep(Run(st, evs[..n]), evs[n], url);
    }
  }

  /** Starts never touch the row of a user. */
  lemma {:induction false} StartsLeaveOwnedRows(st: Database, evs: seq<Event>, scan: Uuid)
    requires forall ev | ev in evs :: ev.Started?
    requires scan in st.rows && st.rows[scan].user.Some?
    ensures var after := Run(st, evs); scan in after.rows && after.rows[scan] == st.rows[scan] && after.credits == st.credits
  {
    if evs != [] {
      assert evs[|evs| - 1] in evs;
      StartsLeaveOwnedRows(st, evs[..|evs| - 1], scan);
    }
  }

  /** The start is not one transaction: its replacement may fail after its insert. A fresh nil-user start
      leaves one live row for its URL exactly when the replacement works or there was nothing to replace. */
  lemma ReplacementDecides(st: Database, ev: Event)
    requires ev.Started? && FreshDefaultStart(st, ev, ev.url)
    ensures Catalogue(Handle(st, ev).0.rows, ev.url) == {ev.scan} <==> !ev.replaceFails || Catalogue(st.rows, ev.url) == {}
  {
    var after := Handle(st, ev).0;
    if ev.replaceFails {
      assert Catalogue(after.rows, ev.url) == Catalogue(st.rows, ev.url) + {ev.scan};
      assert ev.scan !in Catalogue(st.rows, ev.url);
    } else {
      assert Catalogue(after.rows, ev.url) == {ev.scan};
    }
  }

  /** Two starts of one URL, the second with a failed replacement, leave two live rows. */
  lemma TwoLiveDefaults(url: string)
    ensures var evs := [Started(1, NIL_UUID, url, false, 0), Started(2, NIL_UUID, url, true, 0)];
            Catalogue(Run(Tables(map[], map[]), evs).rows, url) == {1, 2}
  {
    var empty := Tables(map[], map[]);
    var first, second := Started(1, NIL_UUID, url, false, 0), Started(2, NIL_UUID, url, true, 0);
    var one := Handle(empty, first).0;
    assert Run(empty, [first]) == one by {
      assert [first][..0] == [];
    }
    assert Run(empty, [first, second]) == Handle(one, second).0 by {
      assert [first, second][..1] == [first];
    }
    assert one.rows == map[1 := StartedRow(None, url, 0)];
  }

  /** The event makes its scan a live nil-user row of the URL without replacing the others: a start whose
      replacement fails, a completion that is acted on, or a failure of an unknown scan. */
  ghost predicate Joins(st: Database, ev: Event, url: string) {
    match ev
    case Started(_, _, _, replaceFails, _) => FreshDefaultStart(st, ev, url) && replaceFails
    case Completed(scan, user, _, result, _, statusRead, _) =>
      && user == NIL_UUID && result.Some? && result.value.url == url
      && (scan in st.rows ==> Live(st.rows, scan))
      && ValidTransition(if statusRead then StatusOf(st.rows, scan) else Blank, SUCCESS)
    case Failed(scan, user, failedUrl, _, statusRead, _) =>
      statusRead && user == NIL_UUID && failedUrl == url && scan !in st.rows
    case _ => false
  }

  /** An event that joins finds no other live nil-user row of the URL. */
  ghost predicate KeepsSingle(st: Database, ev: Event, url: string) {
    Joins(st, ev, url) ==> Catalogue(st.rows, url) <= {ev.scan}
  }

  ghost predicate Single(st: Database, url: string) {
    forall a, b | a in Catalogue(st.rows, url) && b in Catalogue(st.rows, url) :: a == b
  }

  /** What an event does to the live nil-user rows of a URL. */
  lemma CatalogueNext(st: Database, ev: Event, url: string)
    ensures var before, after := Catalogue(st.rows, url), Catalogue(Handle(st, ev).0.rows, url);
            if Joins(st, ev, url) then after == before + {ev.scan}
            else if FreshDefaultStart(st, ev, url) then after == {ev.scan}
            else after <= before
  {
    var before, after := Catalogue(st.rows, url), Catalogue(Handle(st, ev).0.rows, url);
    if Joins(st, ev, url) {
      assert after == before + {ev.scan};
    } else if FreshDefaultStart(st, ev, url) {
      assert after == {ev.scan};
    } else {
      assert after <= before;
    }
  }

  lemma SingleNext(st: Database, ev: Event, url: string)
    requires Single(st, url)
    ensures Single(Handle(st, ev).0, url) <==> KeepsSingle(st, ev, url)
  {
    hide Handle, Joins, Catalogue;
    CatalogueNext(st, ev, url);
    if Joins(st, ev, url) && !(Catalogue(st.rows, url) <= {ev.scan}) {
      var other :| other in Catalogue(st.rows, url) && other != ev.scan;
      assert other in Catalogue(Handle(st, ev).0.rows, url) && ev.scan in Catalogue(Handle(st, ev).0.rows, url);
    }
  }

  ghost predicate AlwaysSingle(st: Database, evs: seq<Event>, url: string) {
    Single(Run(st, evs), url) && (evs != [] ==> AlwaysSingle(st, evs[..|evs| - 1], url))
  }

  ghost predicate AllKeepSingle(st: Database, evs: seq<Event>, url: string) {
    evs != [] ==>
      var last := |evs| - 1;
      AllKeepSingle(st, evs[..last], url) && KeepsSingle(Run(st, evs[..last]), evs[last], url)
  }

  /** All through a run of any events, faults and unknown scans included, a URL has at most one live nil-user
      row exactly when every event that joins finds no other. */
  lemma {:induction false} SingleOverRuns(st: Database, evs: seq<Event>, url: string)
    requires Single(st, url)
    ensures AlwaysSingle(st, evs, url) <==> AllKeepSingle(st, evs, url)
  {
    if evs != [] {
      var last := |evs| - 1;
      SingleOverRuns(st, evs[..last], url);
      if AllKeepSingle(st, evs[..last], url) {
        SingleNext(Run(st, evs[..last]), evs[last], url);
      }
    }
  }

  /** A completion that overtakes its own start joins the row of an earlier scan, and the late start is
      ignored: two live rows. */
  lemma EarlyCompletionJoins(result: TlsResult)
    ensures var evs := [Started(1, NIL_UUID, result.url, false, 0), Completed(2, NIL_UUID, "", Some(result), None, true, 0),
                        Started(2, NIL_UUID, result.url, false, 0)];
            Catalogue(Run(Tables(map[], map[]), evs).rows, result.url) == {1, 2}
  {
    var empty := Tables(map[], map[]);
    var first, early := Started(1, NIL_UUID, result.url, false, 0), Completed(2, NIL_UUID, "", Some(result), None, true, 0);
    var late := Started(2, NIL_UUID, result.url, false, 0);
    var one := Handle(empty, first).0;
    assert Run(empty, [first]) == one by {
      assert [first][..0] == [];
    }
    assert one.rows == map[1 := StartedRow(None, result.url, 0)];
    var two := Handle(one, early).0;
    assert Run(empty, [first, early]) == two by {
      assert [first, early][..1] == [first];
    }
    assert Run(empty, [first, early, late]) == Handle(two, late).0 by {
      assert [first, early, late][..2] == [first, early];
    }
    CatalogueNext(one, early, result.url);
  }

  /** A redelivery does not repair it: the row is known, so the start does nothing at all. */
  lemma RedeliveredStartDoesNothing(st: Database, ev: Event)
    requires ev.Started? && ev.scan in st.rows
    ensures Handle(st, ev).0 == st
  {
  }
}
