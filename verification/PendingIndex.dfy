/** Scans accepted before their rows exist (internal/repository/pending_v1_scan_repository.go): a reservation
    per owner and wallet address, and a record per scan, each of which may expire on its own. */
module PendingIndex {
  import opened Common
  import opened Text

  datatype Record = Record(scan: Uuid, user: Uuid, family: string, address: string, endpoint: string, createdAt: int)

  datatype Key = Key(user: Uuid, address: string)

  datatype Index = Index(keys: map<Key, Uuid>, recs: map<Uuid, Record>)

  datatype ReserveFault = NoFault | ReserveFails | StoreFails(rollbackFails: bool)

  datatype ReleaseFault = Healthy | ReadFails | DeleteFails | CompareFails

  datatype Reply = Reserved | Taken | Incomplete | Unavailable

  function KeyFor(user: Uuid, address: string): Key {
    Key(user, Normal(address))
  }

  function KeyOf(rec: Record): Key {
    KeyFor(rec.user, rec.address)
  }

  predicate IsComplete(rec: Record) {
    rec.scan != NIL_UUID && rec.user != NIL_UUID && TrimSpace(rec.address) != ""
  }

  function AsWallet(rec: Record): Record {
    rec.(family := "wallet")
  }

  predicate Owns(rec: Record, key: Key) {
    rec.family == "wallet" && KeyOf(rec) == key
  }

  /* ---- Specification ---- */

  function Answer(ix: Index, rec: Record, fault: ReserveFault): Reply {
    if !IsComplete(rec) then Incomplete
    else if fault.ReserveFails? then Unavailable
    else if KeyOf(rec) in ix.keys then Taken
    else if fault.StoreFails? then Unavailable
    else Reserved
  }

  function Reserve(ix: Index, rec: Record, fault: ReserveFault): Index {
    var key := KeyOf(rec);
    if Answer(ix, rec, fault) == Reserved then
      Index(ix.keys[key := rec.scan], ix.recs[rec.scan := AsWallet(rec)])
    else if IsComplete(rec) && fault == StoreFails(true) && key !in ix.keys then
      ix.(keys := ix.keys[key := rec.scan])
    else
      ix
  }

  function Store(ix: Index, rec: Record): Index {
    ix.(recs := ix.recs[rec.scan := rec])
  }

  /** The owner of a wallet, from the record or, once that has expired, from the reservation alone. */
  function Lookup(ix: Index, user: Uuid, address: string): Option<Record> {
    var key := KeyFor(user, address);
    if key !in ix.keys then None
    else if ix.keys[key] in ix.recs then Some(ix.recs[ix.keys[key]])
    else Some(Record(ix.keys[key], user, "wallet", key.address, "", 0))
  }

  function DropKey(ix: Index, key: Key, scan: Uuid): Index {
    if scan != NIL_UUID && key in ix.keys && ix.keys[key] == scan then ix.(keys := ix.keys - {key}) else ix
  }

  predicate NamesReservation(ix: Index, scan: Uuid) {
    && scan in ix.recs && ix.recs[scan].family == "wallet"
    && ix.recs[scan].user != NIL_UUID && TrimSpace(ix.recs[scan].address) != ""
  }

  function Release(ix: Index, scan: Uuid, fault: ReleaseFault): Index {
    if fault.DeleteFails? then ix
    else
      var rest := ix.(recs := ix.recs - {scan});
      if fault.Healthy? && NamesReservation(ix, scan)
      then DropKey(rest, KeyOf(ix.recs[scan]), ix.recs[scan].scan)
      else rest
  }

  /* ---- Implementation ---- */

  class PendingStore {
    var keys: map<Key, Uuid>
    var recs: map<Uuid, Record>

    ghost function Contents(): Index
      reads this
    {
      Index(keys, recs)
    }

    constructor ()
      ensures Contents() == Index(map[], map[])
    {
      keys, recs := map[], map[];
    }

    method Put(rec: Record, fails: bool) returns (ok: bool)
      modifies this`recs
      ensures ok <==> !fails
      ensures Contents() == if ok then Store(old(Contents()), rec) else old(Contents())
    {
      if !fails {
        recs := recs[rec.scan := rec];
      }
      ok := !fails;
    }

    method PutWallet(rec: Record, fault: ReserveFault) returns (reply: Reply)
      modifies this
      ensures reply == Answer(old(Contents()), rec, fault)
      ensures Contents() == Reserve(old(Contents()), rec, fault)
    {
      if rec.scan == NIL_UUID || rec.user == NIL_UUID || TrimSpace(rec.address) == "" {
        return Incomplete;
      }
      var wallet := rec.(family := "wallet");
      var key := KeyFor(rec.user, rec.address);
      if fault.ReserveFails? {
        return Unavailable;
      }
      if key in keys {
        return Taken;
      }
      keys := keys[key := rec.scan];
      var stored := Put(wallet, fault.StoreFails?);
      if !stored {
        if !fault.rollbackFails {
          keys := keys - {key};
          assert keys == old(keys);
        }
        return Unavailable;
      }
      reply := Reserved;
    }

    method Get(scan: Uuid) returns (rec: Option<Record>)
      ensures rec == if scan in recs then Some(recs[scan]) else None
    {
      rec := if scan in recs then Some(recs[scan]) else None;
    }

    method GetWalletByOwnerAddress(user: Uuid, address: string) returns (rec: Option<Record>)
      ensures rec == Lookup(Contents(), user, address)
    {
      var key := KeyFor(user, address);
      if key !in keys {
        return None;
      }
      var scan := keys[key];
      rec := Get(scan);
      if rec.None? {
        rec := Some(Record(scan, user, "wallet", ToLower(TrimSpace(address)), "", 0));
      }
    }

    /** Deletes only a reservation that still holds the given scan. */
    method DeleteWalletReservation(user: Uuid, address: string, scan: Uuid, fails: bool) returns (ok: bool)
      modifies this`keys
      ensures ok <==> scan == NIL_UUID || !fails
      ensures Contents() == if fails then old(Contents()) else DropKey(old(Contents()), KeyFor(user, address), scan)
    {
      if scan == NIL_UUID {
        return true;
      }
      var key := KeyFor(user, address);
      if !fails && key in keys && keys[key] == scan {
        keys := keys - {key};
      }
      ok := !fails;
    }

    method Delete(scan: Uuid, fault: ReleaseFault) returns (ok: bool)
      modifies this
      ensures Contents() == Release(old(Contents()), scan, fault)
      ensures ok <==> fault.Healthy? || (fault.CompareFails? &&
                      (NamesReservation(old(Contents()), scan) ==> old(recs)[scan].scan == NIL_UUID))
    {
      var rec := Get(scan);
      if fault.DeleteFails? {
        return false;
      }
      recs := recs - {scan};
      if !fault.ReadFails? && rec.Some? && rec.value.family == "wallet" && rec.value.user != NIL_UUID
         && TrimSpace(rec.value.address) != "" {
        ok := DeleteWalletReservation(rec.value.user, rec.value.address, rec.value.scan, fault.CompareFails?);
        if !ok {
          return;
        }
      }
      ok := !fault.ReadFails?;
    }
  }

  /* ---- Runs ---- */

  datatype Step =
    | Reserving(rec: Record, fault: ReserveFault)
    | Storing(rec: Record)
    | Releasing(scan: Uuid, outage: ReleaseFault)
    | Dropping(user: Uuid, address: string, scan: Uuid)
    | KeyExpires(key: Key)
    | RecordExpires(scan: Uuid)

  function Next(ix: Index, step: Step): Index {
    match step
    case Reserving(rec, fault) => Reserve(ix, rec, fault)
    case Storing(rec) => Store(ix, rec)
    case Releasing(scan, outage) => Release(ix, scan, outage)
    case Dropping(user, address, scan) => DropKey(ix, KeyFor(user, address), scan)
    case KeyExpires(key) => ix.(keys := ix.keys - {key})
    case RecordExpires(scan) => ix.(recs := ix.recs - {scan})
  }

  function Run(ix: Index, steps: seq<Step>): Index {
    if steps == [] then ix else Next(Run(ix, steps[..|steps| - 1]), steps[|steps| - 1])
  }

  const EMPTY := Index(map[], map[])

  /** Records are filed under their own id, and reservations under proper normalised keys. */
  ghost predicate WellFormed(ix: Index) {
    && (forall s | s in ix.recs :: ix.recs[s].scan == s)
    && (forall k | k in ix.keys :: ix.keys[k] != NIL_UUID && k.user != NIL_UUID && k.address != "" && Normal(k.address) == k.address)
  }

  /** A reservation whose record exists points to a record whose own owner and address are that reservation. */
  ghost predicate Agree(ix: Index) {
    forall k | k in ix.keys && ix.keys[k] in ix.recs :: Owns(ix.recs[ix.keys[k]], k)
  }

  /** The scan id of a write does not clash: no standing reservation of another key holds it. */
  ghost predicate Fits(ix: Index, step: Step) {
    match step
    case Reserving(rec, fault) =>
      IsComplete(rec) && KeyOf(rec) !in ix.keys ==>
        && (fault.NoFault? ==> rec.scan !in ix.keys.Values)
        && (fault == StoreFails(true) && rec.scan in ix.recs ==> Owns(ix.recs[rec.scan], KeyOf(rec)))
    case Storing(rec) =>
      forall k | k in ix.keys && ix.keys[k] == rec.scan :: Owns(rec, k)
    case _ => true
  }

  lemma WellFormedNext(ix: Index, step: Step)
    requires WellFormed(ix)
    ensures WellFormed(Next(ix, step))
  {
    if step.Reserving? {
      NormalIdempotent(step.rec.address);
    }
  }

  /** A step keeps the two maps in agreement exactly when its scan id fits. */
  lemma AgreeNext(ix: Index, step: Step)
    requires WellFormed(ix) && Agree(ix)
    ensures Agree(Next(ix, step)) <==> Fits(ix, step)
  {
    var after := Next(ix, step);
    if step.Reserving? && after != ix {
      var key := KeyOf(step.rec);
      assert key in after.keys && after.keys[key] == step.rec.scan;
      if step.fault.NoFault? && step.rec.scan in ix.keys.Values {
        var k :| k in ix.keys && ix.keys[k] == step.rec.scan;
        assert k in after.keys && !Owns(after.recs[step.rec.scan], k);
      }
    }
    if step.Storing? && !Fits(ix, step) {
      var k :| k in ix.keys && ix.keys[k] == step.rec.scan && !Owns(step.rec, k);
      assert k in after.keys && after.keys[k] in after.recs;
    }
  }

  ghost predicate AlwaysAgrees(ix: Index, steps: seq<Step>) {
    Agree(Run(ix, steps)) && (steps != [] ==> AlwaysAgrees(ix, steps[..|steps| - 1]))
  }

  ghost predicate AllFit(ix: Index, steps: seq<Step>) {
    steps != [] ==>
      var last := |steps| - 1;
      AllFit(ix, steps[..last]) && Fits(Run(ix, steps[..last]), steps[last])
  }

  /** From any agreeing state, the maps agree all through a run exactly when every scan id in it fits. */
  lemma {:induction false} AgreementOverRuns(ix: Index, steps: seq<Step>)
    requires WellFormed(ix) && Agree(ix)
    ensures WellFormed(Run(ix, steps))
    ensures AlwaysAgrees(ix, steps) <==> AllFit(ix, steps)
  {
    if steps != [] {
      var last := |steps| - 1;
      AgreementOverRuns(ix, steps[..last]);
      WellFormedNext(Run(ix, steps[..last]), steps[last]);
      if AllFit(ix, steps[..last]) {
        AgreeNext(Run(ix, steps[..last]), steps[last]);
      }
    }
  }

  /** Every write of the run brings a scan id that the index does not hold at that point. */
  ghost predicate AllFresh(ix: Index, steps: seq<Step>) {
    steps != [] ==>
      var last := |steps| - 1;
      var before := Run(ix, steps[..last]);
      && AllFresh(ix, steps[..last])
      && (steps[last].Reserving? || steps[last].Storing? ==>
            steps[last].rec.scan !in before.keys.Values && steps[last].rec.scan !in before.recs)
  }

  lemma {:induction false} FreshScansFit(ix: Index, steps: seq<Step>)
    requires AllFresh(ix, steps)
    ensures AllFit(ix, steps)
  {
    if steps != [] {
      FreshScansFit(ix, steps[..|steps| - 1]);
    }
  }

  /** With a fresh scan id for each write the two maps agree all through every run. */
  lemma FreshRunsAgree(steps: seq<Step>)
    requires AllFresh(EMPTY, steps)
    ensures AlwaysAgrees(EMPTY, steps)
  {
    FreshScansFit(EMPTY, steps);
    AgreementOverRuns(EMPTY, steps);
  }

  /* ---- What a reserve answers and does ---- */

  /** Scan and user are set, and the address is not all spaces. */
  predicate Asks(rec: Record) {
    rec.scan != NIL_UUID && rec.user != NIL_UUID && !AllSpace(rec.address)
  }

  /** Every reply with its cause. A key is taken by a reservation of the same owner and address alone, whatever
      else the owner has reserved. */
  lemma ReserveAnswers(ix: Index, rec: Record, fault: ReserveFault)
    ensures var key := Key(rec.user, ToLower(TrimSpace(rec.address)));
            var reply := Answer(ix, rec, fault);
            && (reply == Incomplete <==> !Asks(rec))
            && (reply == Taken <==> Asks(rec) && !fault.ReserveFails? && key in ix.keys)
            && (reply == Reserved <==> Asks(rec) && fault.NoFault? && key !in ix.keys)
            && (reply == Unavailable <==> Asks(rec) && (fault.ReserveFails? || (fault.StoreFails? && key !in ix.keys)))
  {
    BlankMeansSpaces(rec.address);
  }

  /** What a reserve leaves behind: the key and the record of its scan when it is accepted, the bare key when
      neither the record could be stored nor the key taken back, and otherwise nothing. */
  lemma ReserveWrites(ix: Index, rec: Record, fault: ReserveFault)
    ensures var key := Key(rec.user, ToLower(TrimSpace(rec.address)));
            var after := Next(ix, Reserving(rec, fault));
            var free := Asks(rec) && key !in ix.keys;
            && after.keys == (if free && (fault.NoFault? || fault == StoreFails(true)) then ix.keys[key := rec.scan] else ix.keys)
            && after.recs == (if free && fault.NoFault? then ix.recs[rec.scan := rec.(family := "wallet")] else ix.recs)
  {
    BlankMeansSpaces(rec.address);
  }

  predicate OnFile(ix: Index, key: Key, rec: Record) {
    key in ix.keys && ix.keys[key] == rec.scan && rec.scan in ix.recs && ix.recs[rec.scan] == rec.(family := "wallet")
  }

  /** A reserve without a fault ends with its scan on the key and its record on file exactly when it asks for a
      wallet whose key is free, or holds this very scan and record already. */
  lemma ReserveSucceedsIff(ix: Index, rec: Record)
    requires WellFormed(ix) && Agree(ix)
    ensures var key := Key(rec.user, ToLower(TrimSpace(rec.address)));
            var after := Next(ix, Reserving(rec, NoFault));
            OnFile(after, key, rec) <==> Asks(rec) && (key in ix.keys ==> OnFile(ix, key, rec))
  {
    ReserveWrites(ix, rec, NoFault);
    BlankMeansSpaces(rec.address);
    hide Next;
    if KeyOf(rec) in ix.keys {
      assert Normal(KeyOf(rec).address) == KeyOf(rec).address && KeyOf(rec).address != "";
    }
  }

  /** A record put directly is filed under its scan; a release takes the record out unless the delete fails. */
  lemma RecordsFollowScans(ix: Index, rec: Record, outage: ReleaseFault, scan: Uuid)
    ensures Next(ix, Storing(rec)) == Index(ix.keys, ix.recs[rec.scan := rec])
    ensures Next(ix, Releasing(scan, outage)).recs == if outage.DeleteFails? then ix.recs else ix.recs - {scan}
    ensures outage.DeleteFails? || outage.ReadFails? || outage.CompareFails? ==> Next(ix, Releasing(scan, outage)).keys == ix.keys
    ensures Next(ix, RecordExpires(scan)) == Index(ix.keys, ix.recs - {scan})
    ensures Next(ix, KeyExpires(KeyOf(rec))).recs == ix.recs == Next(ix, Dropping(rec.user, rec.address, scan)).recs
  {
  }

  /** The steps that free a reservation: its own expiry, or a release that names the scan holding it. */
  ghost predicate Frees(ix: Index, step: Step, key: Key)
    requires key in ix.keys
  {
    var holder := ix.keys[key];
    match step
    case KeyExpires(k) => k == key
    case Dropping(user, address, scan) => scan == holder && KeyFor(user, address) == key
    case Releasing(scan, outage) =>
      scan == holder && outage.Healthy? && scan in ix.recs && Owns(ix.recs[scan], key)
    case _ => false
  }

  /** A drop frees the key exactly when it names it and its holder. */
  lemma DropFrees(ix: Index, dropped: Key, scan: Uuid, key: Key)
    requires key in ix.keys && ix.keys[key] != NIL_UUID
    ensures var after := DropKey(ix, dropped, scan).keys;
            && (key !in after <==> scan == ix.keys[key] && dropped == key)
            && (key in after ==> after[key] == ix.keys[key])
  {
  }

  lemma ReleaseFrees(ix: Index, scan: Uuid, outage: ReleaseFault, key: Key)
    requires WellFormed(ix) && key in ix.keys
    ensures var after := Release(ix, scan, outage).keys;
            && (key !in after <==> Frees(ix, Releasing(scan, outage), key))
            && (key in after ==> after[key] == ix.keys[key])
  {
    var rest := ix.(recs := ix.recs - {scan});
    if scan in ix.recs {
      var rec := ix.recs[scan];
      DropFrees(rest, KeyOf(rec), rec.scan, key);
      if KeyOf(rec) == key {
        assert Normal(rec.address) == key.address;
        assert TrimSpace(rec.address) != "";
      }
    }
    hide TrimSpace, Normal, DropKey;
  }

  lemma ReserveFrees(ix: Index, rec: Record, fault: ReserveFault, key: Key)
    requires key in ix.keys
    ensures key in Reserve(ix, rec, fault).keys && Reserve(ix, rec, fault).keys[key] == ix.keys[key]
  {
  }

  /** No other step removes a reservation or hands it to another scan. */
  lemma OnlyHolderFrees(ix: Index, step: Step, key: Key)
    requires WellFormed(ix) && key in ix.keys
    ensures key !in Next(ix, step).keys <==> Frees(ix, step, key)
    ensures key in Next(ix, step).keys ==> Next(ix, step).keys[key] == ix.keys[key]
  {
    hide Reserve, Release, DropKey, Owns, KeyFor;
    match step
    case Reserving(rec, fault) => ReserveFrees(ix, rec, fault, key);
    case Releasing(scan, outage) => ReleaseFrees(ix, scan, outage, key);
    case Dropping(user, address, scan) => DropFrees(ix, KeyFor(user, address), scan, key);
    case _ =>
  }

  /** Until it is freed, a reservation stays with its scan and every other reserve of that owner and
      address is refused. */
  lemma {:induction false} ReservationExcludes(ix: Index, steps: seq<Step>, key: Key)
    requires WellFormed(ix) && key in ix.keys
    requires forall n | 0 <= n < |steps| ::
               key in Run(ix, steps[..n]).keys ==> !Frees(Run(ix, steps[..n]), steps[n], key)
    ensures WellFormed(Run(ix, steps))
    ensures key in Run(ix, steps).keys && Run(ix, steps).keys[key] == ix.keys[key]
    ensures forall rec: Record, fault: ReserveFault | KeyOf(rec) == key && IsComplete(rec) && !fault.ReserveFails? ::
              Answer(Run(ix, steps), rec, fault) == Taken && Reserve(Run(ix, steps), rec, fault) == Run(ix, steps)
  {
    if steps != [] {
      var last := |steps| - 1;
      assert forall n | 0 <= n < last :: steps[..last][..n] == steps[..n];
      ReservationExcludes(ix, steps[..last], key);
      WellFormedNext(Run(ix, steps[..last]), steps[last]);
      OnlyHolderFrees(Run(ix, steps[..last]), steps[last], key);
    }
  }

  /** The step takes a free key. */
  ghost predicate Takes(ix: Index, step: Step, key: Key) {
    && step.Reserving? && Asks(step.rec) && (step.fault.NoFault? || step.fault == StoreFails(true))
    && Key(step.rec.user, ToLower(TrimSpace(step.rec.address))) == key && key !in ix.keys
  }

  /** The key was taken at step i and not freed since. */
  ghost predicate StandsSince(steps: seq<Step>, key: Key, i: nat)
    requires i < |steps|
  {
    && Takes(Run(EMPTY, steps[..i]), steps[i], key)
    && forall j | i < j < |steps| ::
         key in Run(EMPTY, steps[..j]).keys && !Frees(Run(EMPTY, steps[..j]), steps[j], key)
  }

  lemma TakenNext(ix: Index, step: Step, key: Key)
    requires WellFormed(ix)
    ensures key in Next(ix, step).keys <==> if key in ix.keys then !Frees(ix, step, key) else Takes(ix, step, key)
  {
    if key in ix.keys {
      OnlyHolderFrees(ix, step, key);
    } else {
      match step
      case Reserving(rec, fault) => ReserveWrites(ix, rec, fault);
      case _ =>
    }
  }

  lemma {:induction false} WellFormedRun(ix: Index, steps: seq<Step>)
    requires WellFormed(ix)
    ensures WellFormed(Run(ix, steps))
  {
    if steps != [] {
      WellFormedRun(ix, steps[..|steps| - 1]);
      WellFormedNext(Run(ix, steps[..|steps| - 1]), steps[|steps| - 1]);
    }
  }

  lemma {:induction false} TakenIff(steps: seq<Step>, key: Key)
    ensures key in Run(EMPTY, steps).keys <==> exists i: nat | i < |steps| :: StandsSince(steps, key, i)
  {
    if steps != [] {
      var last := |steps| - 1;
      var before := Run(EMPTY, steps[..last]);
      TakenIff(steps[..last], key);
      WellFormedRun(EMPTY, steps[..last]);
      TakenNext(before, steps[last], key);
      forall i: nat | i < last
        ensures StandsSince(steps, key, i) <==>
                  StandsSince(steps[..last], key, i) && key in before.keys && !Frees(before, steps[last], key)
      {
        StandsLonger(steps, key, i);
      }
      if key in before.keys && !Frees(before, steps[last], key) {
        var i: nat :| i < last && StandsSince(steps[..last], key, i);
        assert StandsSince(steps, key, i);
      }
      assert StandsSince(steps, key, last) <==> Takes(before, steps[last], key);
    }
  }

  lemma StandsLonger(steps: seq<Step>, key: Key, i: nat)
    requires i < |steps| - 1
    ensures var last := |steps| - 1;
            var before := Run(EMPTY, steps[..last]);
            StandsSince(steps, key, i) <==>
              StandsSince(steps[..last], key, i) && key in before.keys && !Frees(before, steps[last], key)
  {
    hide Run, Frees, Takes;
    var last := |steps| - 1;
    assert steps[..last][..i] == steps[..i] && steps[..last][i] == steps[i];
    forall j | i < j < last ensures steps[..last][..j] == steps[..j] && steps[..last][j] == steps[j] {
    }
    if StandsSince(steps[..last], key, i) && key in Run(EMPTY, steps[..last]).keys && !Frees(Run(EMPTY, steps[..last]), steps[last], key) {
      forall j | i < j < |steps|
        ensures key in Run(EMPTY, steps[..j]).keys && !Frees(Run(EMPTY, steps[..j]), steps[j], key)
      {
        if j < last {
          assert key in Run(EMPTY, steps[..last][..j]).keys && !Frees(Run(EMPTY, steps[..last][..j]), steps[..last][j], key);
        }
      }
    }
    if StandsSince(steps, key, i) {
      forall j | i < j < last
        ensures key in Run(EMPTY, steps[..last][..j]).keys && !Frees(Run(EMPTY, steps[..last][..j]), steps[..last][j], key)
      {
        assert key in Run(EMPTY, steps[..j]).keys && !Frees(Run(EMPTY, steps[..j]), steps[j], key);
      }
    }
  }

  /** After every run a reserve that asks for a wallet is accepted exactly when every earlier reservation of its
      owner and address has been freed again. */
  lemma ReserveAcceptedIff(steps: seq<Step>, rec: Record)
    requires Asks(rec)
    ensures Answer(Run(EMPTY, steps), rec, NoFault) == Reserved <==>
              !exists i: nat | i < |steps| :: StandsSince(steps, Key(rec.user, ToLower(TrimSpace(rec.address))), i)
  {
    ReserveAnswers(Run(EMPTY, steps), rec, NoFault);
    TakenIff(steps, Key(rec.user, ToLower(TrimSpace(rec.address))));
  }

  /** Letter case and surrounding spaces of the address do not matter. */
  lemma VariantsShareKey(user: Uuid, left: string, address: string, right: string, other: string)
    requires AllSpace(left) && AllSpace(right) && ToLower(address) == ToLower(other)
    ensures KeyFor(user, left + address + right) == KeyFor(user, other)
  {
    NormalIgnoresCaseAndSpaces(left, address, right, other);
  }

  /** A lookup answers exactly when the owner and address are reserved, and names the scan that holds the
      reservation and its own owner and address, whether or not the record has expired. */
  lemma LookupNamesHolder(ix: Index, user: Uuid, address: string)
    requires WellFormed(ix) && Agree(ix)
    ensures Lookup(ix, user, address).Some? <==> KeyFor(user, address) in ix.keys
    ensures Lookup(ix, user, address).Some? ==>
              var rec := Lookup(ix, user, address).value;
              var holder := ix.keys[KeyFor(user, address)];
              && rec.scan == holder && Owns(rec, KeyFor(user, address))
              && rec == if holder in ix.recs then ix.recs[holder]
                        else Record(holder, user, "wallet", ToLower(TrimSpace(address)), "", 0)
  {
  }

  /** A reserve that succeeds is read back whole under every form of the address. */
  lemma ReserveThenLookup(ix: Index, rec: Record, user: Uuid, address: string)
    requires Answer(ix, rec, NoFault) == Reserved && KeyFor(user, address) == KeyOf(rec)
    ensures Lookup(Reserve(ix, rec, NoFault), user, address) == Some(AsWallet(rec))
  {
  }

  ghost predicate Holds(ix: Index, scan: Uuid) {
    exists k | k in ix.keys :: ix.keys[k] == scan
  }

  /** A release leaves its scan holding a reservation exactly when the record had already expired. */
  lemma ReleaseNeedsRecord(ix: Index, scan: Uuid)
    requires WellFormed(ix) && Agree(ix)
    ensures Holds(Release(ix, scan, Healthy), scan) <==> Holds(ix, scan) && scan !in ix.recs
  {
    var after := Release(ix, scan, Healthy);
    if Holds(after, scan) {
      var k :| k in after.keys && after.keys[k] == scan;
      OnlyHolderFrees(ix, Releasing(scan, Healthy), k);
    }
    if Holds(ix, scan) && scan !in ix.recs {
      var k :| k in ix.keys && ix.keys[k] == scan;
      assert k in after.keys && after.keys[k] == scan;
    }
  }

  /** So a release that arrives after the record expired keeps the address blocked. */
  lemma LateReleaseBlocks(rec: Record, again: Record)
    requires IsComplete(rec) && IsComplete(again) && KeyOf(again) == KeyOf(rec)
    ensures var ix := Run(EMPTY, [Reserving(rec, NoFault), RecordExpires(rec.scan), Releasing(rec.scan, Healthy)]);
            Answer(ix, again, NoFault) == Taken
    ensures var ix := Run(EMPTY, [Reserving(rec, NoFault), Releasing(rec.scan, Healthy)]);
            Answer(ix, again, NoFault) == Reserved
  {
    var reserve, expire, release := Reserving(rec, NoFault), RecordExpires(rec.scan), Releasing(rec.scan, Healthy);
    var one := Reserve(EMPTY, rec, NoFault);
    assert Run(EMPTY, [reserve]) == one by {
      assert [reserve][..0] == [];
    }
    assert Run(EMPTY, [reserve, release]) == Next(one, release) by {
      assert [reserve, release][..1] == [reserve];
    }
    assert Run(EMPTY, [reserve, expire]) == Next(one, expire) by {
      assert [reserve, expire][..1] == [reserve];
    }
    assert Run(EMPTY, [reserve, expire, release]) == Next(Next(one, expire), release) by {
      assert [reserve, expire, release][..2] == [reserve, expire];
    }
  }
}
