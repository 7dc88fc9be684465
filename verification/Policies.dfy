/** Owner-scoped crypto policies (internal/cpstore/store.go) under the unique index on live rows
    (internal/cpddl/migrate.go). Deleting a policy only marks its row. */
module Policies {
  import opened Common
  import opened Text
  import opened WalletTarget

  datatype Scope = Scope(user: string, tenant: string)

  datatype Policy = Policy(
    owner: Scope, scan: Uuid, wallet: string, chainId: int, payload: string, sha256: string, messageHash: string,
    controlMethod: string, verifiedAt: int, deleted: bool)

  datatype Request = Request(
    scan: Uuid, walletAddress: string, chainId: int, payload: Option<string>, sha256: string, messageHash: string,
    controlMethod: string, verifiedAt: Option<int>)

  type Table = map<Uuid, Policy>

  datatype Error =
    | OwnerRequired | ScanIdRequired | Sha256Required | PayloadRequired | InvalidChainId | InvalidWalletAddress
    | AlreadyExists | NotFound | Forbidden | Unavailable

  datatype Outcome<T> = Done(value: T) | Failed(error: Error)

  datatype Created = Created(policy: Uuid, scan: Uuid, wallet: string, chainId: int, sha256: string, persistedAt: int)

  /* ---- Specification ---- */

  /** The first fault of a create request, in the order they are checked. */
  function FirstFault(scope: Scope, request: Request): Option<Error> {
    if scope.user == "" then Some(OwnerRequired)
    else if request.scan == NIL_UUID then Some(ScanIdRequired)
    else if TrimSpace(request.sha256) == "" then Some(Sha256Required)
    else if request.payload.None? then Some(PayloadRequired)
    else if request.chainId < 1 then Some(InvalidChainId)
    else if !Normalized(request.walletAddress).Canonical? then Some(InvalidWalletAddress)
    else None
  }

  function PolicyOf(scope: Scope, request: Request, now: int): Policy
    requires FirstFault(scope, request).None?
  {
    Policy(
      scope, request.scan, Normalized(request.walletAddress).address, request.chainId, request.payload.value,
      TrimSpace(request.sha256), TrimSpace(request.messageHash),
      if TrimSpace(request.controlMethod) == "" then "eoa_signature" else TrimSpace(request.controlMethod),
      if request.verifiedAt.Some? then request.verifiedAt.value else now,
      false)
  }

  /** The live rows of one user and wallet, whatever their tenant. */
  function LiveFor(table: Table, user: string, wallet: string): set<Uuid> {
    set p | p in table && !table[p].deleted && table[p].owner.user == user && table[p].wallet == wallet
  }

  /** What the unique index and the primary key enforce. */
  predicate Conflicts(table: Table, id: Uuid, policy: Policy) {
    id in table || LiveFor(table, policy.owner.user, policy.wallet) != {}
  }

  predicate Admits(table: Table, scope: Scope, request: Request, id: Uuid, now: int) {
    FirstFault(scope, request).None? && !Conflicts(table, id, PolicyOf(scope, request, now))
  }

  function Create(table: Table, scope: Scope, request: Request, id: Uuid, now: int): Table {
    if Admits(table, scope, request, id, now) then table[id := PolicyOf(scope, request, now)] else table
  }

  /** A row that its own owner may still see and delete. */
  predicate Visible(table: Table, scope: Scope, id: Uuid) {
    scope.user != "" && id in table && !table[id].deleted && table[id].owner == scope
  }

  function Delete(table: Table, scope: Scope, id: Uuid): Table {
    if Visible(table, scope, id) then table[id := table[id].(deleted := true)] else table
  }

  function WalletRows(table: Table, scope: Scope, wallet: string): set<Uuid> {
    set p | p in table && !table[p].deleted && table[p].owner == scope && table[p].wallet == wallet
  }

  function ScanRows(table: Table, scope: Scope, scan: Uuid): set<Uuid> {
    set p | p in table && !table[p].deleted && table[p].owner == scope && table[p].scan == scan
  }

  /* ---- Implementation ---- */

  class PolicyStore {
    var table: Table

    constructor ()
      ensures table == map[]
    {
      table := map[];
    }

    method CreatePolicy(scope: Scope, request: Request, id: Uuid, now: int, fails: bool) returns (r: Outcome<Created>)
      modifies this
      ensures table == if fails then old(table) else Create(old(table), scope, request, id, now)
      ensures r.Done? <==> !fails && Admits(old(table), scope, request, id, now)
      ensures r.Done? ==> id in table && r.value == Created(id, table[id].scan, table[id].wallet, table[id].chainId,
                                                            table[id].sha256, table[id].verifiedAt)
      ensures r.Failed? ==>
                var fault := FirstFault(scope, request);
                r.error == if fault.Some? then fault.value else if fails then Unavailable else AlreadyExists
    {
      if scope.user == "" {
        return Failed(OwnerRequired);
      }
      if request.scan == NIL_UUID {
        return Failed(ScanIdRequired);
      }
      var sha := TrimSpace(request.sha256);
      if sha == "" {
        return Failed(Sha256Required);
      }
      if request.payload.None? {
        return Failed(PayloadRequired);
      }
      if request.chainId < 1 {
        return Failed(InvalidChainId);
      }
      var verifiedAt := if request.verifiedAt.Some? then request.verifiedAt.value else now;
      var target := NormalizeWalletTargetAddress(request.walletAddress);
      if !target.Canonical? {
        return Failed(InvalidWalletAddress);
      }
      var control := TrimSpace(request.controlMethod);
      if control == "" {
        control := "eoa_signature";
      }
      var policy := Policy(scope, request.scan, target.address, request.chainId, request.payload.value, sha,
                           TrimSpace(request.messageHash), control, verifiedAt, false);
      if fails {
        return Failed(Unavailable);
      }
      if Conflicts(table, id, policy) {
        return Failed(AlreadyExists);
      }
      table := table[id := policy];
      r := Done(Created(id, request.scan, target.address, request.chainId, sha, verifiedAt));
    }

    /** A row of another owner is reported as forbidden, even after its own deletion. */
    method DeletePolicy(scope: Scope, id: Uuid) returns (error: Option<Error>)
      modifies this
      ensures table == Delete(old(table), scope, id)
      ensures error.None? <==> Visible(old(table), scope, id)
      ensures error.Some? ==>
                error.value == if scope.user == "" then OwnerRequired
                               else if id in table && table[id].owner != scope then Forbidden
                               else NotFound
    {
      if scope.user == "" {
        return Some(OwnerRequired);
      }
      if id in table && table[id].owner.user == scope.user && table[id].owner.tenant == scope.tenant && !table[id].deleted {
        table := table[id := table[id].(deleted := true)];
        return None;
      }
      if id !in table {
        return Some(NotFound);
      }
      if table[id].owner.user != scope.user || table[id].owner.tenant != scope.tenant {
        return Some(Forbidden);
      }
      error := Some(NotFound);
    }

    method CountPoliciesByWallet(scope: Scope, walletAddress: string) returns (r: Outcome<nat>)
      ensures r.Done? <==> scope.user != "" && Normalized(walletAddress).Canonical?
      ensures r.Done? ==> r.value == |WalletRows(table, scope, Normalized(walletAddress).address)|
      ensures r.Failed? ==> r.error == if scope.user == "" then OwnerRequired else InvalidWalletAddress
    {
      if scope.user == "" {
        return Failed(OwnerRequired);
      }
      var needle := NormalizeWalletTargetAddress(walletAddress);
      if !needle.Canonical? {
        return Failed(InvalidWalletAddress);
      }
      r := Done(|WalletRows(table, scope, needle.address)|);
    }

    method CountPoliciesByScan(scope: Scope, scan: Uuid) returns (r: Outcome<nat>)
      ensures r.Done? <==> scope.user != "" && scan != NIL_UUID
      ensures r.Done? ==> r.value == |ScanRows(table, scope, scan)|
      ensures r.Failed? ==> r.error == if scope.user == "" then OwnerRequired else ScanIdRequired
    {
      if scope.user == "" {
        return Failed(OwnerRequired);
      }
      if scan == NIL_UUID {
        return Failed(ScanIdRequired);
      }
      r := Done(|ScanRows(table, scope, scan)|);
    }
  }

  /* ---- Runs ---- */

  datatype Step =
    | Creating(scope: Scope, request: Request, id: Uuid, now: int)
    | Deleting(scope: Scope, id: Uuid)

  function Next(table: Table, step: Step): Table {
    match step
    case Creating(scope, request, id, now) => Create(table, scope, request, id, now)
    case Deleting(scope, id) => Delete(table, scope, id)
  }

  function Run(table: Table, steps: seq<Step>): Table {
    if steps == [] then table else Next(Run(table, steps[..|steps| - 1]), steps[|steps| - 1])
  }

  /** At most one live policy for each user and wallet, across all tenants. */
  ghost predicate UniqueLive(table: Table) {
    forall p, q | p in table && q in table && !table[p].deleted && !table[q].deleted ::
      table[p].owner.user == table[q].owner.user && table[p].wallet == table[q].wallet ==> p == q
  }

  /** Wallets are stored in canonical form. */
  ghost predicate CanonicalWallets(table: Table) {
    forall p | p in table :: Normalized(table[p].wallet) == Canonical(table[p].wallet)
  }

  lemma {:induction false} UniquenessOverRuns(table: Table, steps: seq<Step>)
    requires UniqueLive(table) && CanonicalWallets(table)
    ensures UniqueLive(Run(table, steps)) && CanonicalWallets(Run(table, steps))
  {
    if steps != [] {
      var last := |steps| - 1;
      UniquenessOverRuns(table, steps[..last]);
      UniqueNext(Run(table, steps[..last]), steps[last]);
    }
  }

  lemma UniqueAfterInsert(table: Table, id: Uuid, policy: Policy)
    requires UniqueLive(table) && !Conflicts(table, id, policy)
    ensures UniqueLive(table[id := policy])
  {
    forall p | p in table && !table[p].deleted
      ensures table[p].owner.user != policy.owner.user || table[p].wallet != policy.wallet
    {
      assert p !in LiveFor(table, policy.owner.user, policy.wallet);
    }
  }

  lemma UniqueAfterDelete(table: Table, scope: Scope, id: Uuid)
    requires UniqueLive(table) && CanonicalWallets(table)
    ensures UniqueLive(Delete(table, scope, id)) && CanonicalWallets(Delete(table, scope, id))
  {
  }

  lemma UniqueNext(table: Table, step: Step)
    requires UniqueLive(table) && CanonicalWallets(table)
    ensures UniqueLive(Next(table, step)) && CanonicalWallets(Next(table, step))
  {
    match step
    case Creating(scope, request, id, now) =>
      if Admits(table, scope, request, id, now) {
        NormalizedIdempotent(request.walletAddress);
        UniqueAfterInsert(table, id, PolicyOf(scope, request, now));
      }
    case Deleting(scope, id) =>
      UniqueAfterDelete(table, scope, id);
  }

  /** Every wallet count is 0 or 1, and is 1 exactly when the live policy of that user and wallet belongs
      to the counting tenant. */
  lemma WalletCount(table: Table, scope: Scope, wallet: string)
    requires UniqueLive(table)
    ensures |WalletRows(table, scope, wallet)| <= 1
    ensures |LiveFor(table, scope.user, wallet)| <= 1
    ensures |WalletRows(table, scope, wallet)| == 1 <==>
              exists p :: p in LiveFor(table, scope.user, wallet) && table[p].owner.tenant == scope.tenant
  {
    AtMostOne(WalletRows(table, scope, wallet));
    AtMostOne(LiveFor(table, scope.user, wallet));
    assert forall p :: p in WalletRows(table, scope, wallet) <==>
        p in LiveFor(table, scope.user, wallet) && table[p].owner.tenant == scope.tenant;
  }

  lemma AtMostOne(s: set<Uuid>)
    requires forall p, q | p in s && q in s :: p == q
    ensures |s| <= 1 && (s != {} ==> |s| == 1)
  {
    if s != {} {
      var p :| p in s;
      assert s == {p};
    }
  }

  /** A zero count in one's own tenant promises a successful create exactly when no other tenant of the
      same user holds a live policy for the wallet. */
  lemma CountPredictsCreate(table: Table, scope: Scope, request: Request, id: Uuid, now: int)
    requires UniqueLive(table) && id !in table && FirstFault(scope, request).None?
    requires WalletRows(table, scope, Normalized(request.walletAddress).address) == {}
    ensures Admits(table, scope, request, id, now) <==>
              !exists p :: p in LiveFor(table, scope.user, Normalized(request.walletAddress).address)
                           && table[p].owner.tenant != scope.tenant
  {
    var wallet := Normalized(request.walletAddress).address;
    if p :| p in LiveFor(table, scope.user, wallet) {
      assert p !in WalletRows(table, scope, wallet);
    }
  }

  /** After a create in one tenant, the same user's other tenants count zero and are refused the wallet. */
  lemma OtherTenantIsRefused(a: Scope, b: Scope, request: Request, id: Uuid, other: Uuid, now: int)
    requires FirstFault(a, request).None? && a.user == b.user && a != b
    ensures var wallet, created := Normalized(request.walletAddress).address, Create(map[], a, request, id, now);
            Admits(map[], a, request, id, now) && WalletRows(created, b, wallet) == {} && !Admits(created, b, request, other, now)
  {
    var policy := PolicyOf(a, request, now);
    assert LiveFor(map[], a.user, policy.wallet) == {};
    assert id in LiveFor(map[id := policy], a.user, policy.wallet);
  }

  function SomeWallet(): string {
    seq(40, _ => '0')
  }

  const SOME_REQUEST := Request(1, SomeWallet(), 1, Some("p"), "h", "", "", None)

  lemma SomeWalletIsCanonical()
    ensures Normalized(SomeWallet()).Canonical?
  {
    DigitsAreTrimmed(SomeWallet(), SomeWallet());
    AcceptedSpellings(SomeWallet(), SomeWallet());
  }

  /** A run from the empty table: tenant "a" creates, tenant "b" of the same user counts zero with a valid
      request, and its create is refused. */
  lemma ZeroCountThenRefused()
    ensures var a, b := Scope("u", "a"), Scope("u", "b");
            var created := Create(map[], a, SOME_REQUEST, 1, 0);
            && Admits(map[], a, SOME_REQUEST, 1, 0) && Normalized(SOME_REQUEST.walletAddress).Canonical?
            && WalletRows(created, b, Normalized(SOME_REQUEST.walletAddress).address) == {}
            && FirstFault(b, SOME_REQUEST).None? && !Admits(created, b, SOME_REQUEST, 2, 0)
  {
    hide Normalized, Conflicts, Create, WalletRows;
    SomeWalletIsCanonical();
    assert TrimSpace("h") == "h";
    OtherTenantIsRefused(Scope("u", "a"), Scope("u", "b"), SOME_REQUEST, 1, 2, 0);
  }

  /** Deleting the live policy of a wallet makes room for a new one under any spelling and any tenant. */
  lemma DeleteThenCreate(table: Table, scope: Scope, id: Uuid, again: Scope, request: Request, newId: Uuid, now: int)
    requires UniqueLive(table) && Visible(table, scope, id)
    requires again.user == scope.user && FirstFault(again, request).None? && newId !in table
    requires Normalized(request.walletAddress) == Canonical(table[id].wallet)
    ensures !Admits(table, again, request, newId, now)
    ensures Admits(Delete(table, scope, id), again, request, newId, now)
  {
    var wallet := table[id].wallet;
    assert id in LiveFor(table, scope.user, wallet);
    assert LiveFor(Delete(table, scope, id), scope.user, wallet) == {};
  }

  /* ---- What a create and a delete do ---- */

  /** The wallet text of the request spells these digits. */
  predicate Names(request: Request, digits: string) {
    Spells(TrimSpace(request.walletAddress), digits)
  }

  /** Why a request is refused before the table is looked at, first cause first. */
  lemma FaultsSayWhy(scope: Scope, request: Request)
    ensures var fault := FirstFault(scope, request);
            var noDigest, noWallet := AllSpace(request.sha256), !exists digits :: Names(request, digits);
            && (fault == Some(OwnerRequired) <==> scope.user == "")
            && (fault == Some(ScanIdRequired) <==> scope.user != "" && request.scan == NIL_UUID)
            && (fault == Some(Sha256Required) <==> scope.user != "" && request.scan != NIL_UUID && noDigest)
            && (fault == Some(PayloadRequired) <==>
                scope.user != "" && request.scan != NIL_UUID && !noDigest && request.payload == None)
            && (fault == Some(InvalidChainId) <==>
                scope.user != "" && request.scan != NIL_UUID && !noDigest && request.payload != None && request.chainId < 1)
            && (fault == Some(InvalidWalletAddress) <==>
                scope.user != "" && request.scan != NIL_UUID && !noDigest && request.payload != None && request.chainId >= 1
                && noWallet)
            && (fault == None <==>
                scope.user != "" && request.scan != NIL_UUID && !noDigest && request.payload != None && request.chainId >= 1
                && !noWallet)
  {
    BlankMeansSpaces(request.sha256);
    AcceptedSpellings(request.walletAddress, "");
    if Normalized(request.walletAddress).Canonical? {
      var digits :| Spells(TrimSpace(request.walletAddress), digits);
      assert Names(request, digits);
    }
    if digits :| Names(request, digits) {
      AcceptedSpellings(request.walletAddress, digits);
    }
  }

  /** A create adds one row exactly when its request is valid, its id is unused, and the user has no live policy
      for the wallet in any tenant; the row is what the request says, and every other row stays. */
  lemma CreateStores(table: Table, scope: Scope, request: Request, id: Uuid, now: int, digits: string)
    requires Names(request, digits)
    ensures var wallet := "0x" + ToLower(digits);
            var after := Create(table, scope, request, id, now);
            var taken := exists p :: p in table && !table[p].deleted && table[p].owner.user == scope.user && table[p].wallet == wallet;
            var control := TrimSpace(request.controlMethod);
            && after - {id} == table - {id}
            && (FirstFault(scope, request) == None && id !in table && !taken <==> id !in table && id in after)
            && (id in table ==> after == table)
            && (id !in table && id in after ==>
                  after[id] == Policy(scope, request.scan, wallet, request.chainId, request.payload.value,
                                      TrimSpace(request.sha256), TrimSpace(request.messageHash),
                                      if AllSpace(request.controlMethod) then "eoa_signature" else control,
                                      if request.verifiedAt == None then now else request.verifiedAt.value, false))
  {
    AcceptedSpellings(request.walletAddress, digits);
    BlankMeansSpaces(request.controlMethod);
    var wallet := "0x" + ToLower(digits);
    assert LiveFor(table, scope.user, wallet) != {} <==>
        exists p :: p in table && !table[p].deleted && table[p].owner.user == scope.user && table[p].wallet == wallet by {
      if p :| p in table && !table[p].deleted && table[p].owner.user == scope.user && table[p].wallet == wallet {
        assert p in LiveFor(table, scope.user, wallet);
      }
      if LiveFor(table, scope.user, wallet) != {} {
        var p :| p in LiveFor(table, scope.user, wallet);
      }
    }
  }

  /** A delete marks a live row of exactly this owner, and changes nothing else. */
  lemma DeleteMarks(table: Table, scope: Scope, id: Uuid)
    ensures var after := Delete(table, scope, id);
            && after.Keys == table.Keys && after - {id} == table - {id}
            && (id in table ==>
                  after[id] == table[id].(deleted := table[id].deleted || (scope.user != "" && table[id].owner == scope)))
  {
  }

  /** What the two counts count. */
  lemma CountsAre(table: Table, scope: Scope, wallet: string, scan: Uuid, p: Uuid)
    ensures p in WalletRows(table, scope, wallet) <==>
              p in table && !table[p].deleted && table[p].owner == scope && table[p].wallet == wallet
    ensures p in ScanRows(table, scope, scan) <==>
              p in table && !table[p].deleted && table[p].owner == scope && table[p].scan == scan
  {
  }

  /* ---- Conservation ---- */

  /** What a step adds to the live policies of one owner and scan. */
  function Change(table: Table, step: Step, scope: Scope, scan: Uuid): int {
    match step
    case Creating(owner, request, id, now) =>
      if owner == scope && request.scan == scan && Admits(table, owner, request, id, now) then 1 else 0
    case Deleting(owner, id) =>
      if owner == scope && Visible(table, owner, id) && table[id].scan == scan then -1 else 0
  }

  function Balance(table: Table, steps: seq<Step>, scope: Scope, scan: Uuid): int {
    if steps == [] then 0
    else
      var last := |steps| - 1;
      Balance(table, steps[..last], scope, scan) + Change(Run(table, steps[..last]), steps[last], scope, scan)
  }

  lemma RowsAfterInsert(table: Table, id: Uuid, policy: Policy, scope: Scope, scan: Uuid)
    requires id !in table && !policy.deleted
    ensures id !in ScanRows(table, scope, scan)
    ensures ScanRows(table[id := policy], scope, scan)
         == ScanRows(table, scope, scan) + if policy.owner == scope && policy.scan == scan then {id} else {}
  {
  }

  lemma InsertCounts(table: Table, id: Uuid, policy: Policy, scope: Scope, scan: Uuid)
    requires id !in table && !policy.deleted
    ensures |ScanRows(table[id := policy], scope, scan)|
         == |ScanRows(table, scope, scan)| + if policy.owner == scope && policy.scan == scan then 1 else 0
  {
    RowsAfterInsert(table, id, policy, scope, scan);
    hide ScanRows;
    var before, after := ScanRows(table, scope, scan), ScanRows(table[id := policy], scope, scan);
    if policy.owner == scope && policy.scan == scan {
      assert after == before + {id};
    } else {
      assert after == before;
    }
  }

  lemma CloseCounts(table: Table, id: Uuid, scope: Scope, scan: Uuid)
    requires id in table && !table[id].deleted
    ensures |ScanRows(table[id := table[id].(deleted := true)], scope, scan)|
         == |ScanRows(table, scope, scan)| - if table[id].owner == scope && table[id].scan == scan then 1 else 0
  {
    var before, after := ScanRows(table, scope, scan), ScanRows(table[id := table[id].(deleted := true)], scope, scan);
    assert before == if table[id].owner == scope && table[id].scan == scan then after + {id} else after;
  }

  lemma CountNext(table: Table, step: Step, scope: Scope, scan: Uuid)
    ensures |ScanRows(Next(table, step), scope, scan)| == |ScanRows(table, scope, scan)| + Change(table, step, scope, scan)
  {
    match step
    case Creating(owner, request, id, now) =>
      if Admits(table, owner, request, id, now) {
        InsertCounts(table, id, PolicyOf(owner, request, now), scope, scan);
      }
    case Deleting(owner, id) =>
      if Visible(table, owner, id) {
        CloseCounts(table, id, scope, scan);
      }
  }

  /** The scan count is the successful creates minus the successful deletes of that owner and scan. */
  lemma {:induction false} CountConservation(table: Table, steps: seq<Step>, scope: Scope, scan: Uuid)
    ensures |ScanRows(Run(table, steps), scope, scan)| == |ScanRows(table, scope, scan)| + Balance(table, steps, scope, scan)
  {
    if steps != [] {
      var last := |steps| - 1;
      CountConservation(table, steps[..last], scope, scan);
      CountNext(Run(table, steps[..last]), steps[last], scope, scan);
    }
  }

  /* ---- Independence of users ---- */

  function UserRows(table: Table, user: string): Table {
    map p | p in table && table[p].owner.user == user :: table[p]
  }

  function StepsOf(steps: seq<Step>, user: string): seq<Step> {
    if steps == [] then []
    else
      var last := |steps| - 1;
      StepsOf(steps[..last], user) + if steps[last].scope.user == user then [steps[last]] else []
  }

  /** Every create brings an unused policy id. */
  ghost predicate FreshIds(table: Table, steps: seq<Step>) {
    steps != [] ==>
      var last := |steps| - 1;
      FreshIds(table, steps[..last]) && (steps[last].Creating? ==> steps[last].id !in Run(table, steps[..last]))
  }

  lemma UserRowsOfUpdate(table: Table, id: Uuid, policy: Policy, user: string)
    requires id in table ==> table[id].owner == policy.owner
    ensures UserRows(table[id := policy], user)
         == if policy.owner.user == user then UserRows(table, user)[id := policy] else UserRows(table, user)
  {
  }

  lemma LiveForOwnRows(table: Table, user: string, wallet: string)
    ensures LiveFor(UserRows(table, user), user, wallet) == LiveFor(table, user, wallet)
  {
  }

  lemma UserRowsNext(table: Table, step: Step, user: string)
    requires step.Creating? ==> step.id !in table
    ensures UserRows(Next(table, step), user)
         == if step.scope.user == user then Next(UserRows(table, user), step) else UserRows(table, user)
  {
    match step
    case Creating(owner, request, id, now) =>
      if FirstFault(owner, request).None? {
        var policy := PolicyOf(owner, request, now);
        LiveForOwnRows(table, user, policy.wallet);
        UserRowsOfUpdate(table, id, policy, user);
      }
    case Deleting(owner, id) =>
      if Visible(table, owner, id) {
        UserRowsOfUpdate(table, id, table[id].(deleted := true), user);
      }
  }

  /** A user's rows after any run are what that user's own steps alone would have made of them. */
  lemma {:induction false} UsersAreIndependent(table: Table, steps: seq<Step>, user: string)
    requires FreshIds(table, steps)
    ensures UserRows(Run(table, steps), user) == Run(UserRows(table, user), StepsOf(steps, user))
  {
    if steps != [] {
      var last := |steps| - 1;
      UsersAreIndependent(table, steps[..last], user);
      UserRowsNext(Run(table, steps[..last]), steps[last], user);
      var own := StepsOf(steps[..last], user);
      assert (own + [steps[last]])[..|own|] == own;
      assert own + [] == own;
    }
  }
}
