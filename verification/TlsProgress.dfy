/** What each TLS event does, column by column, and that a scan with a terminal event ends. */
module TlsProgress {
  import opened Common
  import opened ScanState
  import opened UsageLedger
  import opened TlsEvents
  import opened TlsSafety

  /** Nothing but this scan's row has changed. */
  predicate OnlyRow(before: Rows, after: Rows, scan: Uuid) {
    after - {scan} == before - {scan}
  }

  /** The scan is unknown, or a live row that is pending or running. */
  predicate Open(st: Database, scan: Uuid) {
    scan in st.rows ==> !st.rows[scan].deleted && st.rows[scan].status in {Blank, PENDING, RUNNING}
  }

  /** The event carries all that its handler needs to end the scan. A completion needs no status read for
      that: its handler goes on without one. */
  predicate Decides(ev: Event, scan: Uuid) {
    match ev
    case Completed(s, user, _, result, plan, _, _) => s == scan && result.Some? && (user == NIL_UUID || plan.Some?)
    case Failed(s, _, _, _, statusRead, _) => s == scan && statusRead
    case _ => false
  }

  /* ---- Starts ---- */

  /** A start of an unseen scan leaves a running row with no result; one of a known scan leaves everything. */
  lemma StartRuns(st: Database, ev: Event)
    requires ev.Started?
    ensures var (after, reply) := Handle(st, ev);
            && after.credits == st.credits
            && (ev.scan in st.rows ==> after == st)
            && (ev.scan !in st.rows ==>
                  && ev.scan in after.rows
                  && after.rows[ev.scan] == Row(if ev.user == NIL_UUID then None else Some(ev.user), ev.url,
                                                ev.user == NIL_UUID, RUNNING, "", NoPosture, "", ev.at, false))
            && (ev.scan !in st.rows && ev.user != NIL_UUID ==> OnlyRow(st.rows, after.rows, ev.scan) && reply == Stored(true))
            && (ev.scan !in st.rows && ev.user == NIL_UUID ==> reply == if ev.replaceFails then Broken else Stored(true))
  {
  }

  /** A fresh catalogue start takes every other catalogue row of its URL down, and nothing else. */
  lemma StartReplaces(st: Database, ev: Event, other: Uuid)
    requires ev.Started? && ev.scan !in st.rows && ev.user == NIL_UUID && !ev.replaceFails && other != ev.scan
    ensures var after := Handle(st, ev).0.rows;
            && (other in after <==> other in st.rows)
            && (other in st.rows ==>
                  after[other] == st.rows[other].(deleted := st.rows[other].deleted
                                                    || (st.rows[other].user == None && st.rows[other].url == ev.url)))
  {
  }

  /* ---- Completions ---- */

  /** Whether the completion gets its credit: nobody pays for the catalogue, a reserved scan has paid, a plan
      without a limit always pays, and otherwise fewer rows than the limit may be in use. */
  predicate Granted(st: Database, ev: Event)
    requires ev.Completed? && (ev.user == NIL_UUID || ev.plan.Some?)
  {
    || ev.user == NIL_UUID
    || ev.scan in st.credits
    || ev.plan.value.unlimited || ev.plan.value.limit <= 0
    || |set s | s in st.credits && st.credits[s] == Credit(ev.user, Endpoint)| < ev.plan.value.limit
  }

  /** A well-formed completion of an open scan ends it as a success, with its credit, exactly when that credit is
      granted, and otherwise as a plan-limit failure without one. */
  lemma CompletionSettles(st: Database, ev: Event)
    requires ev.Completed? && Decides(ev, ev.scan) && Open(st, ev.scan)
    ensures var (after, reply) := Handle(st, ev);
            && ev.scan in after.rows && OnlyRow(st.rows, after.rows, ev.scan)
            && after.credits - {ev.scan} == st.credits - {ev.scan}
            && reply == Stored(Granted(st, ev))
            && (Granted(st, ev) ==>
                  after.rows[ev.scan] ==
                    Row(if ev.user == NIL_UUID then None else Some(ev.user), ev.result.value.url, ev.result.value.isDefault,
                        SUCCESS, "", ev.result.value.posture, ev.result.value.handshake,
                        if ev.scan in st.rows then st.rows[ev.scan].createdAt else ev.at, false))
            && (Granted(st, ev) && ev.user == NIL_UUID ==> after.credits == st.credits)
            && (Granted(st, ev) && ev.user != NIL_UUID ==>
                  && ev.scan in after.credits
                  && after.credits[ev.scan] == if ev.scan in st.credits then st.credits[ev.scan] else Credit(ev.user, Endpoint))
            && (!Granted(st, ev) ==>
                  && ev.scan !in after.credits
                  && after.rows[ev.scan] ==
                       if ev.scan in st.rows then
                         st.rows[ev.scan].(status := FAILED, error := "PLAN_LIMIT_EXCEEDED", posture := NoPosture)
                       else
                         Row(Some(ev.user), if ev.endpoint == "" then ev.result.value.url else ev.endpoint, false,
                             FAILED, "PLAN_LIMIT_EXCEEDED", NoPosture, "", ev.at, false))
  {
    assert (set s | s in st.credits && st.credits[s] == Credit(ev.user, Endpoint)) == Held(st.credits, ev.user, Endpoint);
  }

  /** What stops a completion that arrives in order, and that it then changes nothing: a settled scan or foreign
      status is ignored; a missing result, a failed plan lookup and a soft-deleted row are errors. */
  lemma CompletionRefused(st: Database, ev: Event)
    requires ev.Completed? && ev.statusRead && (ev.scan in st.rows ==> st.rows[ev.scan].status != Blank)
    ensures var (after, reply) := Handle(st, ev);
            var closed := ev.scan in st.rows && !st.rows[ev.scan].deleted && st.rows[ev.scan].status !in {PENDING, RUNNING};
            && (reply == Ignored <==> closed)
            && (reply == Broken <==> !closed && (!Decides(ev, ev.scan) || (ev.scan in st.rows && st.rows[ev.scan].deleted)))
            && (reply == Ignored || reply == Broken ==> after == st)
  {
  }

  /* ---- Failures ---- */

  /** A failure of an open scan ends it with the event's error and without a credit; the other columns of a known
      row stay. */
  lemma FailureSettles(st: Database, ev: Event)
    requires ev.Failed? && Decides(ev, ev.scan) && Open(st, ev.scan)
    ensures var (after, reply) := Handle(st, ev);
            && ev.scan in after.rows && OnlyRow(st.rows, after.rows, ev.scan)
            && ev.scan !in after.credits && after.credits - {ev.scan} == st.credits - {ev.scan}
            && reply == Stored(false)
            && after.rows[ev.scan] ==
                 if ev.scan in st.rows then st.rows[ev.scan].(status := FAILED, error := ev.error)
                 else Row(if ev.user == NIL_UUID then None else Some(ev.user), ev.url, false, FAILED, ev.error,
                          UnknownPosture, "", ev.at, false)
  {
  }

  lemma FailureRefused(st: Database, ev: Event)
    requires ev.Failed? && (ev.scan in st.rows ==> st.rows[ev.scan].status != Blank)
    ensures var (after, reply) := Handle(st, ev);
            var closed := ev.scan in st.rows && !st.rows[ev.scan].deleted && st.rows[ev.scan].status !in {PENDING, RUNNING};
            && (reply == Ignored <==> ev.statusRead && closed)
            && (reply == Broken <==> !ev.statusRead || (ev.scan in st.rows && st.rows[ev.scan].deleted))
            && (reply == Ignored || reply == Broken ==> after == st)
  {
  }

  /* ---- Deletes and reservations ---- */

  lemma OwnerDeleteMarks(st: Database, ev: Event)
    requires ev.OwnerDelete?
    ensures var (after, reply) := Handle(st, ev);
            var owned := ev.scan in st.rows && !st.rows[ev.scan].deleted && st.rows[ev.scan].user == Some(ev.user)
                         && !st.rows[ev.scan].isDefault;
            && after.credits == st.credits && OnlyRow(st.rows, after.rows, ev.scan) && after.rows.Keys == st.rows.Keys
            && (ev.scan in st.rows ==> after.rows[ev.scan] == st.rows[ev.scan].(deleted := st.rows[ev.scan].deleted || owned))
  {
  }

  lemma ReserveRecords(st: Database, ev: Event)
    requires ev.Reserve?
    ensures Handle(st, ev).0 == Tables(st.rows, if ev.scan in st.credits then st.credits else st.credits[ev.scan := ev.credit])
  {
  }

  /* ---- Runs ---- */

  ghost predicate Lifecycle(st: Database) {
    forall scan | scan in st.rows :: !st.rows[scan].status.Other?
  }

  predicate Over(st: Database, scan: Uuid) {
    scan in st.rows && (st.rows[scan].deleted || IsTerminal(st.rows[scan].status))
  }

  lemma OverStays(st: Database, ev: Event, scan: Uuid)
    requires Lifecycle(st)
    ensures Lifecycle(Handle(st, ev).0)
    ensures Over(st, scan) ==> Over(Handle(st, ev).0, scan)
  {
  }

  lemma DecisionEnds(st: Database, ev: Event, scan: Uuid)
    requires Lifecycle(st) && Decides(ev, scan)
    ensures Over(Handle(st, ev).0, scan)
  {
    if Open(st, scan) {
      if ev.Completed? {
        CompletionSettles(st, ev);
      } else {
        FailureSettles(st, ev);
      }
    } else {
      OverStays(st, ev, scan);
    }
  }

  /** A scan does not end without an event that decides it. */
  lemma OnlyDecisionsSettle(st: Database, ev: Event, scan: Uuid)
    requires !Settled(st, scan) && Settled(Handle(st, ev).0, scan)
    ensures Decides(ev, scan)
  {
  }

  ghost predicate HasDecision(evs: seq<Event>, scan: Uuid) {
    exists ev :: ev in evs && Decides(ev, scan)
  }

  /** Over every run, duplicated and in any order, a scan that is not settled at the start is settled at the end
      only if some event decides it, and if one does, the scan has ended: settled, or deleted before. */
  lemma {:induction false} DecidedScansEnd(st: Database, evs: seq<Event>, scan: Uuid)
    requires Lifecycle(st) && !Settled(st, scan)
    ensures Lifecycle(Run(st, evs))
    ensures Settled(Run(st, evs), scan) ==> HasDecision(evs, scan)
    ensures HasDecision(evs, scan) ==> Over(Run(st, evs), scan)
  {
    if evs != [] {
      var n := |evs| - 1;
      var before := Run(st, evs[..n]);
      DecidedScansEnd(st, evs[..n], scan);
      OverStays(before, evs[n], scan);
      assert forall ev :: ev in evs <==> ev in evs[..n] || ev == evs[n];
      if Decides(evs[n], scan) {
        DecisionEnds(before, evs[n], scan);
      } else if Settled(Run(st, evs), scan) && !Settled(before, scan) {
        OnlyDecisionsSettle(before, evs[n], scan);
      }
    }
  }
}
