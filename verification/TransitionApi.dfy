/** The transition endpoint (internal/scanapi/transition.go): which bodies become commands, and what a
    transition or a delete projects to the Redis cache and the event bus. */
module TransitionApi {
  import opened Common
  import opened ScanState
  import opened UsageLedger
  import opened WalletTransition
  import opened Text
  import ChainExport
  import WalletSafety
  import WalletStore

  /* ---- Admission ---- */

  datatype ResultBody = ResultBody(address: string, payload: Payload)

  /** A decoded body. user is None when the text is no UUID, quota is None for an unknown action. */
  datatype Body = Body(
    transitionId: string, user: Option<Uuid>, address: string, sources: seq<State>, target: State,
    quota: Option<Quota>, result: Option<ResultBody>, error: Option<string>)

  predicate Known(states: seq<State>) {
    states != [] && forall s | s in states :: !s.Other?
  }

  method KnownSources(states: seq<State>) returns (known: bool)
    ensures known <==> Known(states)
  {
    if |states| == 0 {
      return false;
    }
    for i := 0 to |states|
      invariant forall j | 0 <= j < i :: !states[j].Other?
    {
      if states[i].Other? {
        assert states[i] in states;
        return false;
      }
    }
    known := true;
  }

  function QuotaForTarget(target: State): Option<Quota> {
    match target
    case RUNNING => Some(NoQuota)
    case SUCCESS => Some(Keep)
    case FAILED => Some(Release)
    case _ => None
  }

  /** The bodies that the endpoint accepts from headerUser. */
  predicate Acceptable(headerUser: Uuid, body: Body) {
    && body.user == Some(headerUser) && headerUser != NIL_UUID
    && Normal(body.address) != "" && TrimSpace(body.transitionId) != "" && Known(body.sources)
    && match body.target {
         case RUNNING => body.quota == Some(NoQuota) && body.result.None? && body.error.None?
         case SUCCESS =>
           && body.quota == Some(Keep) && body.error.None?
           && body.result.Some? && Normal(body.result.value.address) == Normal(body.address)
         case FAILED =>
           && body.quota == Some(Release) && body.result.None?
           && body.error.Some? && TrimSpace(body.error.value) != ""
         case _ => false
       }
  }

  /** What every command that reaches the database satisfies. */
  predicate Admitted(scan: Uuid, cmd: Command) {
    WalletSafety.Tied(scan, cmd) && Known(cmd.sources) && cmd.address != "" && Normal(cmd.address) == cmd.address
  }

  method TransitionCommand(headerUser: Uuid, body: Body, at: nat) returns (cmd: Option<Command>)
    ensures cmd.Some? <==> Acceptable(headerUser, body)
    ensures cmd.Some? ==> forall scan :: Admitted(scan, cmd.value)
    ensures cmd.Some? ==>
              && cmd.value.user == headerUser && cmd.value.transitionId == TrimSpace(body.transitionId)
              && cmd.value.address == Normal(body.address) && cmd.value.sources == body.sources
              && cmd.value.target == body.target && cmd.value.at == at
              && (body.result.Some? ==> cmd.value.result == body.result.value.payload)
              && (body.error.Some? ==> cmd.value.error == TrimSpace(body.error.value))
  {
    cmd := None;
    if body.user.None? || body.user.value == NIL_UUID || body.user.value != headerUser {
      return;
    }
    var address := Normal(body.address);
    var known := KnownSources(body.sources);
    if address == "" || TrimSpace(body.transitionId) == "" || !known {
      return;
    }
    var quota := QuotaForTarget(body.target);
    if quota.None? || body.quota != quota {
      return;
    }
    var result, error := NO_PAYLOAD, "";
    if body.target == RUNNING {
      if body.result.Some? || body.error.Some? {
        return;
      }
    } else if body.target == SUCCESS {
      if body.error.Some? || body.result.None? || Normal(body.result.value.address) != address {
        return;
      }
      result := body.result.value.payload;
    } else {
      if body.result.Some? || body.error.None? || TrimSpace(body.error.value) == "" {
        return;
      }
      error := TrimSpace(body.error.value);
    }
    NormalIdempotent(body.address);
    cmd := Some(Command(TrimSpace(body.transitionId), headerUser, address, body.sources, body.target,
                        quota.value, result, error, at));
  }

  /* ---- Projection ---- */

  type Key = (Uuid, string)

  datatype CacheEntry = Scanned(address: string, payload: Payload, scannedAt: nat) | Failure(error: string)

  datatype Posture = ClassicalOnly | Hybrid | FullPq | UnknownPosture

  /** The wallet.observed payload; its envelope ids are functions of the scan id. */
  datatype Observation = Observation(
    subject: string, chainIds: seq<int>, algorithm: string, keyExposed: bool, isMultichain: bool,
    observedAt: nat, posture: Posture)

  datatype Event =
    | Ready(user: Uuid, address: string, success: bool)
    | Observed(scan: Uuid, observation: Observation)

  datatype Service = Service(store: Store, cache: map<Key, CacheEntry>, events: seq<Event>)

  /** Which of the outside services answer during a request. */
  datatype Links = Links(redis: bool, ready: bool, observed: bool)

  /** The exporter's configuration: the chain ids, and the validation of the external event contract. */
  datatype Exporter = Exporter(ids: ChainExport.NetworkIds, accepts: Observation -> bool)

  function SubjectId(address: string): string {
    var a := TrimSpace(ToLower(address));
    "wallet:" + if HasPrefix(a, "0x") then a else "0x" + a
  }

  function PostureOf(nistLevel: int): Posture {
    match nistLevel
    case 1 => ClassicalOnly
    case 2 => Hybrid
    case 3 => Hybrid
    case 4 => Hybrid
    case 5 => FullPq
    case _ => UnknownPosture
  }

  function Observe(row: Row, ids: ChainExport.NetworkIds): Observation {
    Observation(
      SubjectId(row.address), ChainExport.ExportedIds(row.payload.networks, ids),
      if row.payload.algorithm == "" then "" else "secp256k1_ecrecover",
      row.payload.keyExposed, ChainExport.Multichain(row.payload.networks, ids), row.updatedAt,
      PostureOf(row.payload.nistLevel))
  }

  function EntryOf(row: Row): CacheEntry {
    if row.LogicalStatus() == SUCCESS then Scanned(row.address, row.payload, row.updatedAt)
    else Failure(row.error)
  }

  function KeyOf(row: Row): Key {
    (row.owner, row.address)
  }

  /** The cache entry and the events of a terminal row; nothing at all while Redis is away. */
  function ProjectTerminal(svc: Service, scan: Uuid, row: Row, exporter: Exporter, links: Links): (after: Service)
    ensures after.store == svc.store
  {
    if !links.redis then svc
    else
      var success := row.LogicalStatus() == SUCCESS;
      var observation := Observe(row, exporter.ids);
      svc.(cache := svc.cache[KeyOf(row) := EntryOf(row)],
           events := svc.events
             + (if links.ready then [Ready(row.owner, row.address, success)] else [])
             + (if success && links.observed && exporter.accepts(observation) then [Observed(scan, observation)] else []))
  }

  function Project(svc: Service, scan: Uuid, result: Result, exporter: Exporter, links: Links): (after: Service)
    ensures after.store == svc.store
  {
    if result.outcome != Applied && result.outcome != AlreadyApplied then svc
    else if result.row.None? || !IsTerminal(result.row.value.LogicalStatus()) then svc
    else ProjectTerminal(svc, scan, result.row.value, exporter, links)
  }

  function Transition(svc: Service, scan: Uuid, cmd: Command, exporter: Exporter, links: Links): (Service, Result) {
    var (st, result) := Apply(svc.store, scan, cmd);
    (Project(svc.(store := st), scan, result, exporter, links), result)
  }

  /** The owner's live rows for an address, in any letter case. */
  predicate OwnsLive(rows: Rows, user: Uuid, address: string) {
    exists s | s in rows :: !rows[s].deleted && rows[s].owner == user && ToLower(rows[s].address) == Normal(address)
  }

  /** Soft-deletes a live owned row, and drops the cache entry with the last live row of its address if the
      remaining rows can be listed and Redis answers. */
  function Delete(svc: Service, scan: Uuid, user: Uuid, listed: bool, redis: bool): Service {
    if !Live(svc.store.rows, scan) || svc.store.rows[scan].owner != user then svc
    else
      var address := svc.store.rows[scan].address;
      var rows := Dropped(svc.store.rows, scan, user);
      svc.(store := svc.store.(rows := rows),
           cache := if OwnsLive(rows, user, address) || !listed || !redis then svc.cache else svc.cache - {(user, address)})
  }

  datatype DeleteReply = NoSuchScan | ListFailed | Deleted

  class ScanApi {
    const db: WalletStore.WalletDb
    const exporter: Exporter
    var cache: map<Key, CacheEntry>
    var events: seq<Event>

    constructor (db: WalletStore.WalletDb, exporter: Exporter)
      ensures this.db == db && this.exporter == exporter && cache == map[] && events == []
    {
      this.db, this.exporter, cache, events := db, exporter, map[], [];
    }

    ghost function Contents(): Service
      reads this, db, db.ledger
    {
      Service(db.Contents(), cache, events)
    }

    /** The endpoint has its serial meaning, or a statement that the command reaches failed and all three
        stores are as they were. */
    method ApplyTransition(scan: Uuid, cmd: Command, links: Links, faults: set<WalletStore.Statement>) returns (res: Result)
      modifies this, db, db.ledger
      ensures var failed := WalletStore.Failing(old(Contents()).store, scan, cmd, faults).Some?;
              && (!failed ==> (Contents(), res) == Transition(old(Contents()), scan, cmd, exporter, links))
              && (failed ==> Contents() == old(Contents()) && res.outcome == Retryable && res.row == None)
    {
      res := db.Apply(scan, cmd, faults);
      if (res.outcome == Applied || res.outcome == AlreadyApplied) && res.row.Some? && IsTerminal(res.row.value.LogicalStatus()) {
        PublishTerminal(scan, res.row.value, links);
      }
    }

    method PublishTerminal(scan: Uuid, row: Row, links: Links)
      modifies this
      ensures Contents() == ProjectTerminal(old(Contents()), scan, row, exporter, links)
    {
      if !links.redis {
        return;
      }
      var success := row.LogicalStatus() == SUCCESS;
      cache := cache[KeyOf(row) := EntryOf(row)];
      if links.ready {
        events := events + [Ready(row.owner, row.address, success)];
      }
      if success && links.observed && exporter.accepts(Observe(row, exporter.ids)) {
        events := events + [Observed(scan, Observe(row, exporter.ids))];
      }
    }

    /** The delete is committed before the remaining rows are listed: a failed listing is answered with an
        error and keeps the entry. The error of the cache delete is dropped. */
    method DeleteWalletScan(user: Uuid, scan: Uuid, listed: bool, redis: bool) returns (reply: DeleteReply)
      modifies this, db
      ensures reply.NoSuchScan? <==> !(Live(old(db.rows), scan) && old(db.rows)[scan].owner == user)
      ensures !reply.NoSuchScan? ==> (reply.Deleted? <==> listed)
      ensures Contents() == Delete(old(Contents()), scan, user, listed, redis)
    {
      if !Live(db.rows, scan) || db.rows[scan].owner != user {
        return NoSuchScan;
      }
      var address := db.rows[scan].address;
      var deleted := db.SoftDelete(user, scan);
      if !listed {
        return ListFailed;
      }
      if !OwnsLive(db.rows, user, address) && redis {
        cache := cache - {(user, address)};
      }
      reply := Deleted;
    }
  }

  /* ---- Runs ---- */

  datatype Request =
    | DoTransition(scan: Uuid, cmd: Command, links: Links)
    | DoDelete(scan: Uuid, user: Uuid, listed: bool, redis: bool)
    | DoReserve(scan: Uuid, credit: Credit)
    | DoExpire(key: Key)

  function Serve(svc: Service, req: Request, exporter: Exporter): Service {
    match req
    case DoTransition(scan, cmd, links) => Transition(svc, scan, cmd, exporter, links).0
    case DoDelete(scan, user, listed, redis) => Delete(svc, scan, user, listed, redis)
    case DoReserve(scan, credit) =>
      svc.(store := svc.store.(credits := Recorded(svc.store.credits, credit.user, scan, credit.kind)))
    case DoExpire(key) => svc.(cache := svc.cache - {key})
  }

  function ServeAll(svc: Service, reqs: seq<Request>, exporter: Exporter): Service {
    if reqs == [] then svc
    else Serve(ServeAll(svc, reqs[..|reqs| - 1], exporter), reqs[|reqs| - 1], exporter)
  }

  /** No command of the request lists a terminal source. */
  predicate NonTerminal(req: Request) {
    req.DoTransition? ==> WalletSafety.NoTerminalSource(req.scan, req.cmd)
  }

  /** A command that neither applies nor replays changes no store, no cache entry and no event. */
  lemma LosersChangeNothing(svc: Service, scan: Uuid, cmd: Command, exporter: Exporter, links: Links)
    ensures var (after, result) := Transition(svc, scan, cmd, exporter, links);
            result.outcome != Applied && result.outcome != AlreadyApplied ==> after == svc
  {
    ApplyWritesWhenItMay(svc.store, scan, cmd);
  }

  /* ---- What an answer projects ---- */

  /** The observation of a row, column by column: its subject is the 0x form of the address, its ids are those of
      the recognised networks in increasing order, and its posture follows the level. */
  predicate Describes(o: Observation, row: Row, ids: ChainExport.NetworkIds) {
    && (Normal(row.address) == row.address ==>
          o.subject == "wallet:" + if "0x" <= row.address then row.address else "0x" + row.address)
    && (forall i, j | 0 <= i < j < |o.chainIds| :: o.chainIds[i] < o.chainIds[j])
    && (forall id | id in o.chainIds :: exists n | n in row.payload.networks :: n in ids && ids[n] == id && id != 0)
    && (forall n | n in row.payload.networks && n in ids && ids[n] != 0 :: ids[n] in o.chainIds)
    && o.algorithm == (if row.payload.algorithm == "" then "" else "secp256k1_ecrecover")
    && o.keyExposed == row.payload.keyExposed && o.observedAt == row.updatedAt
    && (o.isMultichain <==> |o.chainIds| > 1 || |set n | n in row.payload.networks && TrimSpace(n) != "" :: TrimSpace(n)| > 1)
    && (o.posture == ClassicalOnly <==> row.payload.nistLevel == 1)
    && (o.posture == Hybrid <==> 2 <= row.payload.nistLevel <= 4)
    && (o.posture == FullPq <==> row.payload.nistLevel == 5)
  }

  lemma SubjectOfNormal(address: string)
    requires Normal(address) == address
    ensures SubjectId(address) == "wallet:" + if "0x" <= address then address else "0x" + address
  {
    NormalOfLower(address);
  }

  lemma ObservationDescribes(row: Row, ids: ChainExport.NetworkIds)
    ensures Describes(Observe(row, ids), row, ids)
  {
    if Normal(row.address) == row.address {
      SubjectOfNormal(row.address);
    }
    var out := ChainExport.ExportedIds(row.payload.networks, ids);
    forall id | id in out ensures exists n | n in row.payload.networks :: n in ids && ids[n] == id && id != 0 {
      var n :| n in ChainExport.Recognised(row.payload.networks, ids) && ids[n] == id;
    }
    forall n | n in row.payload.networks && n in ids && ids[n] != 0 ensures ids[n] in out {
      assert n in ChainExport.Recognised(row.payload.networks, ids);
    }
  }

  /** The cache entry of a terminal row: the result of a success, the error of anything else. */
  predicate Caches(entry: CacheEntry, row: Row) {
    if row.status == Some(SUCCESS) then entry == Scanned(row.address, row.payload, row.updatedAt)
    else entry == Failure(row.error)
  }

  /** An applied or replayed command whose row is terminal caches the row under its owner and address, then
      announces it once, as a success exactly when it is one, and then, for a success that the exporter
      accepts, observes it once. Without Redis nothing of this happens; without the bus, no event. */
  lemma TerminalIsAnnounced(svc: Service, scan: Uuid, cmd: Command, exporter: Exporter, links: Links)
    requires Transition(svc, scan, cmd, exporter, links).1.outcome in {Applied, AlreadyApplied}
    ensures var after := Transition(svc, scan, cmd, exporter, links).0;
            && after.store == Apply(svc.store, scan, cmd).0 && scan in after.store.rows
            && var row := after.store.rows[scan];
               var key, success := (row.owner, row.address), row.status == Some(SUCCESS);
               var observation := Observe(row, exporter.ids);
               if row.status in {Some(SUCCESS), Some(FAILED), Some(TIMEOUT), Some(UNREACHABLE)} && links.redis then
                 && key in after.cache && Caches(after.cache[key], row) && after.cache - {key} == svc.cache - {key}
                 && after.events == svc.events
                      + (if links.ready then [Ready(row.owner, row.address, success)] else [])
                      + (if success && links.observed && exporter.accepts(observation) then [Observed(scan, observation)] else [])
                 && Describes(observation, row, exporter.ids)
               else
                 after.cache == svc.cache && after.events == svc.events
  {
    ApplyWritesWhenItMay(svc.store, scan, cmd);
    ProjectedRowIsStored(svc.store, scan, cmd);
    ObservationDescribes(Apply(svc.store, scan, cmd).0.rows[scan], exporter.ids);
    hide Observe, Describes;
    var result := Apply(svc.store, scan, cmd).1;
    ReplayedRow(svc.store, scan, cmd);
    assert result.row.Some?;
  }

  /** The row that is projected is the stored one, up to how a pending status is written. */
  lemma ReplayedRow(st: Store, scan: Uuid, cmd: Command)
    requires Apply(st, scan, cmd).1.outcome in {Applied, AlreadyApplied}
    ensures var (next, result) := Apply(st, scan, cmd);
            && scan in next.rows && result.row.Some?
            && result.row.value == next.rows[scan].(status := result.row.value.status)
            && (next.rows[scan].status.Some? && next.rows[scan].status.value != Blank ==> result.row.value == next.rows[scan])
            && (IsTerminal(result.row.value.LogicalStatus()) <==>
                next.rows[scan].status in {Some(SUCCESS), Some(FAILED), Some(TIMEOUT), Some(UNREACHABLE)})
  {
  }

  /** Events are never taken back. */
  lemma {:induction false} EventsGrow(svc: Service, reqs: seq<Request>, exporter: Exporter)
    ensures svc.events <= ServeAll(svc, reqs, exporter).events
  {
    if reqs != [] {
      var n := |reqs| - 1;
      EventsGrow(svc, reqs[..n], exporter);
      var before := ServeAll(svc, reqs[..n], exporter);
      assert before.events <= Serve(before, reqs[n], exporter).events;
    }
  }

  lemma {:induction false} ServeMore(svc: Service, reqs: seq<Request>, more: seq<Request>, exporter: Exporter)
    ensures ServeAll(svc, reqs + more, exporter) == ServeAll(ServeAll(svc, reqs, exporter), more, exporter)
  {
    if more == [] {
      assert reqs + more == reqs;
    } else {
      var n := |more| - 1;
      ServeMore(svc, reqs, more[..n], exporter);
      assert (reqs + more)[..|reqs + more| - 1] == reqs + more[..n];
    }
  }

  /** Over every run, once a SUCCESS command has applied while Redis and the bus answered, its owner has been
      told so, and an observation that the exporter accepts is among the events, whatever comes before and
      after. */
  lemma SuccessIsObserved(svc: Service, before: seq<Request>, scan: Uuid, cmd: Command, after: seq<Request>, exporter: Exporter)
    requires cmd.target == SUCCESS
    requires Apply(ServeAll(svc, before, exporter).store, scan, cmd).1.outcome == Applied
    ensures var served := ServeAll(svc, before, exporter);
            var row := Apply(served.store, scan, cmd).0.rows[scan];
            var events := ServeAll(svc, before + [DoTransition(scan, cmd, Links(true, true, true))] + after, exporter).events;
            && Ready(cmd.user, cmd.address, true) in events
            && (exporter.accepts(Observe(row, exporter.ids)) ==> Observed(scan, Observe(row, exporter.ids)) in events)
  {
    var served, request := ServeAll(svc, before, exporter), DoTransition(scan, cmd, Links(true, true, true));
    ServeMore(svc, before + [request], after, exporter);
    ServeMore(svc, before, [request], exporter);
    assert [request][..0] == [];
    var now := Serve(served, request, exporter);
    TerminalIsAnnounced(served, scan, cmd, exporter, request.links);
    AppliedRowSays(served.store, scan, cmd);
    EventsGrow(now, after, exporter);
    assert forall e | e in now.events :: e in ServeAll(now, after, exporter).events;
  }

  /** A delete of a live owned row marks it, and drops the entry of its owner and address exactly when the rest
      could be listed, Redis answers, and no other live row of the owner has the address in any letter
      case. Nothing else changes, and nothing at all for any other scan. */
  lemma DeleteDropsEntry(svc: Service, scan: Uuid, user: Uuid, listed: bool, redis: bool)
    ensures var after := Delete(svc, scan, user, listed, redis);
            var rows := svc.store.rows;
            && after.events == svc.events && after.store.credits == svc.store.credits
            && after.store.rows.Keys == rows.Keys && after.store.rows - {scan} == rows - {scan}
            && if scan in rows && !rows[scan].deleted && rows[scan].owner == user then
                 var key := (user, rows[scan].address);
                 && after.store.rows[scan] == rows[scan].(deleted := true)
                 && after.cache - {key} == svc.cache - {key}
                 && (key in svc.cache && key !in after.cache <==>
                      && key in svc.cache && listed && redis
                      && !exists s :: s in rows && s != scan && !rows[s].deleted && rows[s].owner == user
                                      && ToLower(rows[s].address) == Normal(rows[scan].address))
                 && (key in after.cache ==> key in svc.cache && after.cache[key] == svc.cache[key])
               else after == svc
  {
    var rows := svc.store.rows;
    DropMarksRow(rows, scan, user);
    if scan in rows && !rows[scan].deleted && rows[scan].owner == user {
      var address, after := rows[scan].address, Dropped(rows, scan, user);
      assert forall s | s != scan :: (s in after <==> s in rows) && (s in rows ==> after[s] == rows[s]);
      assert OwnsLive(after, user, address) <==>
          exists s :: s in rows && s != scan && !rows[s].deleted && rows[s].owner == user && ToLower(rows[s].address) == Normal(address);
    }
  }

  /* ---- Cache entries show committed terminal rows ---- */

  predicate SourceOf(rows: Rows, s: Uuid, key: Key, entry: CacheEntry) {
    s in rows && IsTerminal(rows[s].LogicalStatus()) && KeyOf(rows[s]) == key && EntryOf(rows[s]) == entry
  }

  ghost predicate HasSource(rows: Rows, key: Key, entry: CacheEntry) {
    exists s :: SourceOf(rows, s, key, entry)
  }

  ghost predicate CacheSourced(svc: Service) {
    forall key | key in svc.cache :: HasSource(svc.store.rows, key, svc.cache[key])
  }

  /** Terminal rows stay, deleted or not, and so do the entries that show them. */
  lemma SourceSurvives(svc: Service, req: Request, exporter: Exporter, key: Key, entry: CacheEntry)
    requires NonTerminal(req) && HasSource(svc.store.rows, key, entry)
    ensures HasSource(Serve(svc, req, exporter).store.rows, key, entry)
  {
    var source :| SourceOf(svc.store.rows, source, key, entry);
    var after := Serve(svc, req, exporter).store.rows;
    if req.DoTransition? {
      ApplyWritesWhenItMay(svc.store, req.scan, req.cmd);
    }
    assert SourceOf(after, source, key, entry);
  }

  lemma ServeKeepsSourced(svc: Service, req: Request, exporter: Exporter)
    requires NonTerminal(req) && CacheSourced(svc)
    ensures CacheSourced(Serve(svc, req, exporter))
  {
    var after := Serve(svc, req, exporter);
    forall key | key in after.cache ensures HasSource(after.store.rows, key, after.cache[key]) {
      if key in svc.cache && svc.cache[key] == after.cache[key] {
        SourceSurvives(svc, req, exporter, key, svc.cache[key]);
      } else {
        ProjectedRowIsStored(svc.store, req.scan, req.cmd);
        assert SourceOf(after.store.rows, req.scan, key, after.cache[key]);
      }
    }
  }

  /** The row that a transition projects is the live row in the table. */
  lemma ProjectedRowIsStored(st: Store, scan: Uuid, cmd: Command)
    ensures var (next, result) := Apply(st, scan, cmd);
            result.row.Some? ==>
              && Live(next.rows, scan) && KeyOf(next.rows[scan]) == KeyOf(result.row.value)
              && next.rows[scan].LogicalStatus() == result.row.value.LogicalStatus()
              && EntryOf(next.rows[scan]) == EntryOf(result.row.value)
  {
  }

  /** Over every serial run without terminal sources each cache entry shows a committed terminal row of its
      owner and address, whatever owners and addresses the commands name. */
  lemma {:induction false} EntriesShowTerminalRows(svc: Service, reqs: seq<Request>, exporter: Exporter)
    requires CacheSourced(svc) && forall req | req in reqs :: NonTerminal(req)
    ensures CacheSourced(ServeAll(svc, reqs, exporter))
  {
    if reqs != [] {
      var n := |reqs| - 1;
      assert reqs[n] in reqs;
      EntriesShowTerminalRows(svc, reqs[..n], exporter);
      ServeKeepsSourced(ServeAll(svc, reqs[..n], exporter), reqs[n], exporter);
    }
  }

  /* ---- Observations of one scan agree ---- */

  /** Every wallet.observed event shows the SUCCESS row of its scan. */
  ghost predicate ObservedFaithful(svc: Service, ids: ChainExport.NetworkIds) {
    forall e | e in svc.events && e.Observed? ::
      && e.scan in svc.store.rows && svc.store.rows[e.scan].LogicalStatus() == SUCCESS
      && e.observation == Observe(svc.store.rows[e.scan], ids)
  }

  lemma TransitionKeepsObserved(svc: Service, scan: Uuid, cmd: Command, exporter: Exporter, links: Links)
    requires WalletSafety.NoTerminalSource(scan, cmd) && ObservedFaithful(svc, exporter.ids)
    ensures ObservedFaithful(Transition(svc, scan, cmd, exporter, links).0, exporter.ids)
  {
    ApplyWritesWhenItMay(svc.store, scan, cmd);
  }

  lemma ServeKeepsObserved(svc: Service, req: Request, exporter: Exporter)
    requires NonTerminal(req) && ObservedFaithful(svc, exporter.ids)
    ensures ObservedFaithful(Serve(svc, req, exporter), exporter.ids)
  {
    if req.DoTransition? {
      TransitionKeepsObserved(svc, req.scan, req.cmd, exporter, req.links);
    }
  }

  lemma {:induction false} ObservationsShowSuccess(svc: Service, reqs: seq<Request>, exporter: Exporter)
    requires ObservedFaithful(svc, exporter.ids) && forall req | req in reqs :: NonTerminal(req)
    ensures ObservedFaithful(ServeAll(svc, reqs, exporter), exporter.ids)
  {
    if reqs != [] {
      var n := |reqs| - 1;
      assert reqs[n] in reqs;
      ObservationsShowSuccess(svc, reqs[..n], exporter);
      ServeKeepsObserved(ServeAll(svc, reqs[..n], exporter), reqs[n], exporter);
    }
  }

  /** All wallet.observed events of one scan are identical, in every serial run without terminal sources. */
  lemma ObservationsOfOneScanAgree(svc: Service, reqs: seq<Request>, exporter: Exporter, e: Event, e': Event)
    requires ObservedFaithful(svc, exporter.ids) && forall req | req in reqs :: NonTerminal(req)
    requires e in ServeAll(svc, reqs, exporter).events && e' in ServeAll(svc, reqs, exporter).events
    requires e.Observed? && e'.Observed? && e.scan == e'.scan
    ensures e == e'
  {
    ObservationsShowSuccess(svc, reqs, exporter);
  }

  /* ---- Cached wallets keep a live row ---- */

  predicate LiveFor(rows: Rows, s: Uuid, key: Key) {
    s in rows && !rows[s].deleted && KeyOf(rows[s]) == key
  }

  ghost predicate HasLive(rows: Rows, key: Key) {
    exists s :: LiveFor(rows, s, key)
  }

  ghost predicate AnotherLive(rows: Rows, scan: Uuid, key: Key) {
    exists s :: s != scan && LiveFor(rows, s, key)
  }

  ghost predicate CacheLive(svc: Service) {
    forall key | key in svc.cache :: HasLive(svc.store.rows, key)
  }

  /** The request takes no cached wallet's last live row away: a command that applies keeps the owner and
      address of a cached row or leaves another live row there, and so does a delete that does not drop
      the entry. */
  ghost predicate KeepsLiveRow(svc: Service, req: Request) {
    var rows := svc.store.rows;
    match req
    case DoTransition(scan, cmd, _) =>
      Live(rows, scan) && KeyOf(rows[scan]) in svc.cache && MayWrite(svc.store, scan, cmd) && !SameTransition(rows[scan], cmd) ==>
        (cmd.user, cmd.address) == KeyOf(rows[scan]) || AnotherLive(rows, scan, KeyOf(rows[scan]))
    case DoDelete(scan, user, listed, redis) =>
      Live(rows, scan) && rows[scan].owner == user && KeyOf(rows[scan]) in svc.cache
      && (!listed || !redis || OwnsLive(Dropped(rows, scan, user), user, rows[scan].address)) ==>
        AnotherLive(rows, scan, KeyOf(rows[scan]))
    case _ => true
  }

  /** An applied command on a live row leaves a live row behind the row's key exactly when it keeps owner
      and address or another live row has them. */
  lemma ReaddressingMovesRow(st: Store, scan: Uuid, cmd: Command, key: Key)
    requires Live(st.rows, scan)
    ensures HasLive(Write(st, scan, cmd).rows, key) <==>
              (cmd.user, cmd.address) == key || AnotherLive(st.rows, scan, key)
  {
    var rows := Write(st, scan, cmd).rows;
    if s :| LiveFor(rows, s, key) {
      assert s != scan ==> LiveFor(st.rows, s, key);
    }
    if (cmd.user, cmd.address) == key {
      assert LiveFor(rows, scan, key);
    }
    if s :| s != scan && LiveFor(st.rows, s, key) {
      assert LiveFor(rows, s, key);
    }
  }

  lemma TransitionKeepsLive(svc: Service, scan: Uuid, cmd: Command, links: Links, exporter: Exporter)
    requires CacheLive(svc)
    ensures CacheLive(Transition(svc, scan, cmd, exporter, links).0) <==> KeepsLiveRow(svc, DoTransition(scan, cmd, links))
  {
    var rows, after := svc.store.rows, Transition(svc, scan, cmd, exporter, links).0;
    ApplyWritesWhenItMay(svc.store, scan, cmd);
    ProjectedRowIsStored(svc.store, scan, cmd);
    assert svc.cache.Keys <= after.cache.Keys;
    forall key | key in after.cache && !(Live(rows, scan) && KeyOf(rows[scan]) == key)
      ensures HasLive(after.store.rows, key)
    {
      if key in svc.cache {
        var s :| LiveFor(rows, s, key);
        assert LiveFor(after.store.rows, s, key);
      } else {
        assert LiveFor(after.store.rows, scan, key);
      }
    }
    if Live(rows, scan) {
      var key := KeyOf(rows[scan]);
      assert LiveFor(rows, scan, key);
      ReaddressingMovesRow(svc.store, scan, cmd, key);
      if key in after.cache && key !in svc.cache {
        assert LiveFor(after.store.rows, scan, key);
      }
    }
  }

  lemma DeleteKeepsLive(svc: Service, scan: Uuid, user: Uuid, listed: bool, redis: bool)
    requires CacheLive(svc)
    ensures CacheLive(Delete(svc, scan, user, listed, redis)) <==> KeepsLiveRow(svc, DoDelete(scan, user, listed, redis))
  {
    var rows, after := svc.store.rows, Delete(svc, scan, user, listed, redis);
    if Live(rows, scan) && rows[scan].owner == user {
      var key := KeyOf(rows[scan]);
      assert HasLive(after.store.rows, key) <==> AnotherLive(rows, scan, key) by {
        if s :| LiveFor(after.store.rows, s, key) {
          assert s != scan && LiveFor(rows, s, key);
        }
        if s :| s != scan && LiveFor(rows, s, key) {
          assert LiveFor(after.store.rows, s, key);
        }
      }
      forall other | other in svc.cache && other != key ensures HasLive(after.store.rows, other) {
        var s :| LiveFor(rows, s, other);
        assert LiveFor(after.store.rows, s, other);
      }
    }
  }

  ghost predicate AlwaysLive(svc: Service, reqs: seq<Request>, exporter: Exporter) {
    CacheLive(ServeAll(svc, reqs, exporter)) && (reqs != [] ==> AlwaysLive(svc, reqs[..|reqs| - 1], exporter))
  }

  ghost predicate AllKeepLiveRows(svc: Service, reqs: seq<Request>, exporter: Exporter) {
    reqs != [] ==>
      var last := |reqs| - 1;
      AllKeepLiveRows(svc, reqs[..last], exporter) && KeepsLiveRow(ServeAll(svc, reqs[..last], exporter), reqs[last])
  }

  lemma ServeKeepsLive(svc: Service, req: Request, exporter: Exporter)
    requires CacheLive(svc)
    ensures CacheLive(Serve(svc, req, exporter)) <==> KeepsLiveRow(svc, req)
  {
    match req
    case DoTransition(scan, cmd, links) => TransitionKeepsLive(svc, scan, cmd, links, exporter);
    case DoDelete(scan, user, listed, redis) => DeleteKeepsLive(svc, scan, user, listed, redis);
    case DoReserve(scan, credit) =>
      assert forall key | key in svc.cache :: HasLive(svc.store.rows, key);
    case DoExpire(key) =>
      assert forall key | key in svc.cache :: HasLive(svc.store.rows, key);
  }

  /** All through a run of any requests each cached wallet has a live row exactly when no request of the
      run takes the last one of a cached wallet away. */
  lemma {:induction false} CacheLiveOverRuns(svc: Service, reqs: seq<Request>, exporter: Exporter)
    requires CacheLive(svc)
    ensures AlwaysLive(svc, reqs, exporter) <==> AllKeepLiveRows(svc, reqs, exporter)
  {
    if reqs != [] {
      var last := |reqs| - 1;
      CacheLiveOverRuns(svc, reqs[..last], exporter);
      if AllKeepLiveRows(svc, reqs[..last], exporter) {
        ServeKeepsLive(ServeAll(svc, reqs[..last], exporter), reqs[last], exporter);
      }
    }
  }

  /* ---- Scans that keep their owner and address ---- */

  /** One owner and normalised address for all commands of a scan, and deletes that list the remaining rows and
      reach Redis. */
  predicate Consistent(req: Request, identity: Uuid -> Key) {
    match req
    case DoTransition(scan, cmd, _) =>
      (cmd.user, cmd.address) == identity(scan) && Normal(cmd.address) == cmd.address
    case DoDelete(_, _, listed, redis) => listed && redis
    case _ => true
  }

  ghost predicate RowsHaveIdentity(rows: Rows, identity: Uuid -> Key) {
    forall s | s in rows :: KeyOf(rows[s]) == identity(s) && Normal(rows[s].address) == rows[s].address
  }

  lemma LowerOfNormal(address: string)
    requires Normal(address) == address
    ensures ToLower(address) == address
  {
    LowerIdempotent(TrimSpace(address));
  }

  lemma WrittenRowIsAddressed(rows: Rows, scan: Uuid, cmd: Command)
    ensures KeyOf(WrittenRow(rows, scan, cmd)) == (cmd.user, cmd.address)
  {
  }

  lemma WriteKeepsIdentity(st: Store, scan: Uuid, cmd: Command, identity: Uuid -> Key)
    requires RowsHaveIdentity(st.rows, identity)
    requires (cmd.user, cmd.address) == identity(scan) && Normal(cmd.address) == cmd.address
    ensures RowsHaveIdentity(Write(st, scan, cmd).rows, identity)
  {
    WrittenRowIsAddressed(st.rows, scan, cmd);
    hide WrittenRow, Normal;
  }

  lemma ServeKeepsIdentity(svc: Service, req: Request, exporter: Exporter, identity: Uuid -> Key)
    requires RowsHaveIdentity(svc.store.rows, identity) && Consistent(req, identity)
    ensures RowsHaveIdentity(Serve(svc, req, exporter).store.rows, identity)
  {
    match req
    case DoTransition(scan, cmd, links) =>
      ApplyWritesWhenItMay(svc.store, scan, cmd);
      WriteKeepsIdentity(svc.store, scan, cmd, identity);
      assert Serve(svc, req, exporter).store == Apply(svc.store, scan, cmd).0;
    case _ =>
  }

  lemma ConsistentKeepsLiveRow(svc: Service, req: Request, identity: Uuid -> Key)
    requires RowsHaveIdentity(svc.store.rows, identity) && Consistent(req, identity)
    ensures KeepsLiveRow(svc, req)
  {
    var rows := svc.store.rows;
    if req.DoDelete? && Live(rows, req.scan) && rows[req.scan].owner == req.user {
      var after, address := Dropped(rows, req.scan, req.user), rows[req.scan].address;
      if OwnsLive(after, req.user, address) {
        var s :| s in after && !after[s].deleted && after[s].owner == req.user && ToLower(after[s].address) == Normal(address);
        LowerOfNormal(rows[s].address);
        assert s != req.scan && LiveFor(rows, s, KeyOf(rows[req.scan]));
      }
    }
  }

  /** With a stable owner and address for each scan every cached wallet keeps a live row, over every run. */
  lemma {:induction false} StableScansKeepCacheLive(svc: Service, reqs: seq<Request>, exporter: Exporter, identity: Uuid -> Key)
    requires RowsHaveIdentity(svc.store.rows, identity) && CacheLive(svc)
    requires forall req | req in reqs :: Consistent(req, identity)
    ensures RowsHaveIdentity(ServeAll(svc, reqs, exporter).store.rows, identity)
    ensures CacheLive(ServeAll(svc, reqs, exporter))
  {
    if reqs != [] {
      var n := |reqs| - 1;
      assert reqs[n] in reqs;
      StableScansKeepCacheLive(svc, reqs[..n], exporter, identity);
      var before := ServeAll(svc, reqs[..n], exporter);
      ServeKeepsIdentity(before, reqs[n], exporter, identity);
      ConsistentKeepsLiveRow(before, reqs[n], identity);
      ServeKeepsLive(before, reqs[n], exporter);
    }
  }

  /* A run that breaks the cache: a scan of wallet "w" succeeds and is cached, a second scan of it starts,
     the first is deleted, and the second moves to another owner. */

  const DONE := Command("a", 1, "w", [PENDING], SUCCESS, Keep, NO_PAYLOAD, "", 1)
  const START := Command("b", 1, "w", [PENDING], RUNNING, NoQuota, NO_PAYLOAD, "", 2)
  const MOVE := Command("c", 2, "w", [RUNNING], FAILED, Release, NO_PAYLOAD, "x", 3)
  const UP := Links(true, false, false)

  function Reserved(): Service {
    Service(Store(map[], map[10 := Credit(1, Wallet)]), map[], [])
  }

  function Cached(rows: Rows): Service {
    Service(Store(rows, map[10 := Credit(1, Wallet)]), map[(1, "w") := Scanned("w", NO_PAYLOAD, 1)], [])
  }

  lemma DoneIsCached(exporter: Exporter)
    ensures Serve(Reserved(), DoTransition(10, DONE, UP), exporter) == Cached(map[10 := NewRow(DONE)])
  {
    assert PENDING in DONE.sources;
  }

  lemma SecondScanStarts(exporter: Exporter)
    ensures Serve(Cached(map[10 := NewRow(DONE)]), DoTransition(11, START, UP), exporter)
         == Cached(map[10 := NewRow(DONE), 11 := NewRow(START)])
  {
    assert PENDING in START.sources;
  }

  lemma FirstScanDeleted(exporter: Exporter)
    ensures Serve(Cached(map[10 := NewRow(DONE), 11 := NewRow(START)]), DoDelete(10, 1, true, true), exporter)
         == Cached(map[10 := NewRow(DONE).(deleted := true), 11 := NewRow(START)])
  {
    var rows := map[10 := NewRow(DONE).(deleted := true), 11 := NewRow(START)];
    assert Dropped(map[10 := NewRow(DONE), 11 := NewRow(START)], 10, 1) == rows;
    assert OwnsLive(rows, 1, "w") by {
      assert 11 in rows && ToLower("w") == Normal("w");
    }
  }

  lemma SecondScanMoves(exporter: Exporter)
    ensures !CacheLive(Serve(Cached(map[10 := NewRow(DONE).(deleted := true), 11 := NewRow(START)]),
                             DoTransition(11, MOVE, UP), exporter))
  {
    var rows := map[10 := NewRow(DONE).(deleted := true), 11 := NewRow(START)];
    var after := Serve(Cached(rows), DoTransition(11, MOVE, UP), exporter);
    assert RUNNING in MOVE.sources;
    assert after.store.rows == rows[11 := UpdatedRow(NewRow(START), MOVE)];
    assert (1, "w") in after.cache;
    assert !HasLive(after.store.rows, (1, "w"));
  }

  lemma RunIsAdmitted()
    ensures forall cmd | cmd in [DONE, START, MOVE] :: WalletSafety.NoTerminalSource(0, cmd) && Admitted(0, cmd)
  {
    assert Normal("w") == "w";
  }

  /** Every command of the run is admitted and has no terminal source, and still the cached wallet ends
      without a live row. */
  lemma CacheWithoutLiveRow(exporter: Exporter)
    ensures forall cmd | cmd in [DONE, START, MOVE] :: WalletSafety.NoTerminalSource(0, cmd) && Admitted(0, cmd)
    ensures var s1 := Serve(Reserved(), DoTransition(10, DONE, UP), exporter);
            var s2 := Serve(s1, DoTransition(11, START, UP), exporter);
            var s3 := Serve(s2, DoDelete(10, 1, true, true), exporter);
            var s4 := Serve(s3, DoTransition(11, MOVE, UP), exporter);
            CacheLive(s1) && !CacheLive(s4)
  {
    DoneIsCached(exporter);
    SecondScanStarts(exporter);
    FirstScanDeleted(exporter);
    SecondScanMoves(exporter);
    var first := Cached(map[10 := NewRow(DONE)]);
    assert LiveFor(first.store.rows, 10, (1, "w"));
    RunIsAdmitted();
  }
}
