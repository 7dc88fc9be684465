/** The wallet scan list of an owner (internal/scanapi/handler.go and internal/scanapi/wallet_filter.go):
    chain filter, pagination, and the latest completed scan. */
module WalletListing {
  import opened Common
  import opened Text
  import opened ChainExport

  datatype ScanRow = ScanRow(id: Uuid, user: Uuid, address: string, status: string, networks: seq<string>)

  datatype ChainQuery = AnyChain | NotANumber | Chain(id: int)

  datatype Refusal = LatestNeedsAddress | ChainNeedsAddress | ChainNotPositive

  datatype Response = Refused(refusal: Refusal) | Listing(items: seq<ScanRow>, total: nat, limit: nat, offset: nat)

  /* ---- Specification ---- */

  function Filter<T>(p: T -> bool, s: seq<T>): seq<T> {
    if s == [] then []
    else
      var last := |s| - 1;
      Filter(p, s[..last]) + if p(s[last]) then [s[last]] else []
  }

  predicate IsCompleted(row: ScanRow) {
    ToUpper(TrimSpace(row.status)) == "SUCCESS"
  }

  predicate MatchesChain(row: ScanRow, chain: ChainQuery, chains: Option<seq<Blockchain>>) {
    chain.Chain? ==> chain.id >= 0 && chains.Some? && MatchesChainId(row.networks, chain.id, ByNetwork(chains.value))
  }

  predicate Owned(row: ScanRow, user: Uuid, address: string) {
    row.user == user && (address == "" || ToLower(row.address) == address)
  }

  /** The rows a request selects, in table order. */
  function Selected(table: seq<ScanRow>, user: Uuid, address: string, chain: ChainQuery, chains: Option<seq<Blockchain>>): seq<ScanRow> {
    Filter((row: ScanRow) => Owned(row, user, address) && MatchesChain(row, chain, chains), table)
  }

  function Page<T>(rows: seq<T>, limit: nat, offset: nat): seq<T> {
    if offset >= |rows| then []
    else if offset + limit > |rows| then rows[offset..]
    else rows[offset..offset + limit]
  }

  function RefusalOf(address: string, chain: ChainQuery, latest: bool): Option<Refusal> {
    if latest && TrimSpace(address) == "" then Some(LatestNeedsAddress)
    else if !chain.AnyChain? && TrimSpace(address) == "" then Some(ChainNeedsAddress)
    else if chain.NotANumber? || (chain.Chain? && chain.id <= 0) then Some(ChainNotPositive)
    else None
  }

  function ClampedLimit(limitText: Option<int>): (limit: nat)
    ensures 1 <= limit <= 100
  {
    if limitText.None? || limitText.value < 1 then 20 else if limitText.value > 100 then 100 else limitText.value
  }

  function ClampedOffset(offsetText: Option<int>): nat {
    if offsetText.None? || offsetText.value < 0 then 0 else offsetText.value
  }

  /** Whose rows a request wants: its owner, address and chain. */
  datatype Query = Query(user: Uuid, address: string, chain: ChainQuery)

  function Matching(table: seq<ScanRow>, q: Query, chains: Option<seq<Blockchain>>): seq<ScanRow> {
    Selected(table, q.user, Normal(q.address), q.chain, chains)
  }

  /** The answer to a request for a page. */
  function PageAnswer(table: seq<ScanRow>, q: Query, limitText: Option<int>, offsetText: Option<int>,
                      chains: Option<seq<Blockchain>>): Response {
    var refusal := RefusalOf(q.address, q.chain, false);
    if refusal.Some? then Refused(refusal.value)
    else
      var rows, limit, offset := Matching(table, q, chains), ClampedLimit(limitText), ClampedOffset(offsetText);
      Listing(Page(rows, limit, offset), |rows|, limit, offset)
  }

  /** The first completed row of a list, alone, or nothing when no row is completed. */
  ghost predicate IsLatestOf(items: seq<ScanRow>, rows: seq<ScanRow>) {
    || (items == [] && forall row | row in rows :: !IsCompleted(row))
    || exists k | 0 <= k < |rows| ::
         items == [rows[k]] && IsCompleted(rows[k]) && forall j | 0 <= j < k :: !IsCompleted(rows[j])
  }

  /* ---- Implementation ---- */

  /** Absent or non-numeric parameters arrive as None. */
  method ParsePagination(limitText: Option<int>, offsetText: Option<int>) returns (limit: nat, offset: nat)
    ensures limit == ClampedLimit(limitText)
    ensures offset == ClampedOffset(offsetText)
  {
    var l, o := 20, 0;
    if limitText.Some? {
      l := limitText.value;
    }
    if offsetText.Some? {
      o := offsetText.value;
    }
    if l < 1 {
      l := 20;
    }
    if l > 100 {
      l := 100;
    }
    if o < 0 {
      o := 0;
    }
    limit, offset := l, o;
  }

  method Paginate<T>(rows: seq<T>, limit: nat, offset: nat) returns (page: seq<T>)
    ensures page == Page(rows, limit, offset)
  {
    if offset >= |rows| {
      return [];
    }
    var end := offset + limit;
    if end > |rows| {
      end := |rows|;
    }
    page := rows[offset..end];
  }

  method MatchesChainFilter(row: ScanRow, chain: ChainQuery, chains: Option<seq<Blockchain>>) returns (matches: bool)
    requires chain.Chain? ==> chain.id >= 0
    ensures matches <==> MatchesChain(row, chain, chains)
  {
    if !chain.Chain? {
      return true;
    }
    if chains.None? {
      return false;
    }
    matches := WalletMatchesChainId(row.networks, chain.id, chains.value);
  }

  method ListWalletScans(table: seq<ScanRow>, q: Query, latest: bool, limitText: Option<int>, offsetText: Option<int>,
                         chains: Option<seq<Blockchain>>)
    returns (r: Response)
    ensures !latest ==> r == PageAnswer(table, q, limitText, offsetText, chains)
    ensures r.Refused? <==> RefusalOf(q.address, q.chain, latest).Some?
    ensures r.Refused? ==> r.refusal == RefusalOf(q.address, q.chain, latest).value
    ensures r.Listing? ==> r.limit == ClampedLimit(limitText) && r.offset == ClampedOffset(offsetText)
    ensures r.Listing? && latest ==> IsLatestOf(r.items, Matching(table, q, chains)) && r.total == |r.items|
  {
    var Query(user, address, chain) := q;
    var limit, offset := ParsePagination(limitText, offsetText);
    var blank := TrimSpace(address) == "";
    if latest && blank {
      return Refused(LatestNeedsAddress);
    }
    if !chain.AnyChain? && blank {
      return Refused(ChainNeedsAddress);
    }
    if chain.NotANumber? || (chain.Chain? && chain.id <= 0) {
      return Refused(ChainNotPositive);
    }
    var all := Filter((row: ScanRow) => Owned(row, user, Normal(address)), table);
    SelectedIsFiltered(table, user, Normal(address), chain, chains);
    if latest {
      var entities := FindLatest(all, chain, chains);
      return Listing(entities, |entities|, limit, offset);
    }
    var filtered := all;
    if chain.Chain? {
      filtered := FilterByChain(all, chain, chains);
    } else {
      FilterAll(row => MatchesChain(row, chain, chains), all);
    }
    var page := Paginate(filtered, limit, offset);
    r := Listing(page, |filtered|, limit, offset);
  }

  method FilterByChain(all: seq<ScanRow>, chain: ChainQuery, chains: Option<seq<Blockchain>>) returns (filtered: seq<ScanRow>)
    requires chain.Chain? ==> chain.id >= 0
    ensures filtered == Filter((row: ScanRow) => MatchesChain(row, chain, chains), all)
  {
    ghost var accepts := (row: ScanRow) => MatchesChain(row, chain, chains);
    filtered := [];
    for i := 0 to |all|
      invariant filtered == Filter(accepts, all[..i])
    {
      assert all[..i + 1][..i] == all[..i];
      var matches := MatchesChainFilter(all[i], chain, chains);
      if matches {
        filtered := filtered + [all[i]];
      }
    }
    assert all[..|all|] == all;
  }

  /** Selecting is filtering the owner's rows by chain. */
  lemma SelectedIsFiltered(table: seq<ScanRow>, user: Uuid, address: string, chain: ChainQuery, chains: Option<seq<Blockchain>>)
    ensures Selected(table, user, address, chain, chains)
         == Filter((row: ScanRow) => MatchesChain(row, chain, chains), Filter((row: ScanRow) => Owned(row, user, address), table))
  {
    FilterTwice(table, (row: ScanRow) => Owned(row, user, address), (row: ScanRow) => MatchesChain(row, chain, chains),
                (row: ScanRow) => Owned(row, user, address) && MatchesChain(row, chain, chains));
  }

  /** Skips rows that are not completed or off the chain, and stops at the first other one. */
  method FindLatest(all: seq<ScanRow>, chain: ChainQuery, chains: Option<seq<Blockchain>>) returns (entities: seq<ScanRow>)
    requires chain.Chain? ==> chain.id >= 0
    ensures IsLatestOf(entities, Filter((row: ScanRow) => MatchesChain(row, chain, chains), all))
  {
    var accepts := (row: ScanRow) => MatchesChain(row, chain, chains);
    for i := 0 to |all|
      invariant forall row | row in Filter(accepts, all[..i]) :: !IsCompleted(row)
    {
      assert all[..i + 1][..i] == all[..i];
      var matches := MatchesChainFilter(all[i], chain, chains);
      if IsCompleted(all[i]) && matches {
        FilterOfConcat(accepts, all[..i + 1], all[i + 1..]);
        assert all == all[..i + 1] + all[i + 1..];
        assert Filter(accepts, all)[|Filter(accepts, all[..i])|] == all[i];
        return [all[i]];
      }
    }
    assert all[..|all|] == all;
    entities := [];
  }

  /* ---- Properties ---- */

  /** Filtering keeps the order of the rows: it works on each half of a list by itself. */
  lemma {:induction false} FilterOfConcat<T>(p: T -> bool, a: seq<T>, b: seq<T>)
    ensures Filter(p, a + b) == Filter(p, a) + Filter(p, b)
  {
    if b == [] {
      assert a + b == a;
    } else {
      var last := |b| - 1;
      assert (a + b)[..|a + b| - 1] == a + b[..last];
      FilterOfConcat(p, a, b[..last]);
    }
  }

  lemma {:induction false} FilterKeeps<T>(p: T -> bool, s: seq<T>)
    ensures forall x :: x in Filter(p, s) <==> x in s && p(x)
  {
    if s != [] {
      var last := |s| - 1;
      FilterKeeps(p, s[..last]);
      assert s == s[..last] + [s[last]];
    }
  }

  lemma {:induction false} FilterAll<T>(p: T -> bool, s: seq<T>)
    requires forall x | x in s :: p(x)
    ensures Filter(p, s) == s
  {
    if s != [] {
      var last := |s| - 1;
      assert s == s[..last] + [s[last]];
      FilterAll(p, s[..last]);
    }
  }

  lemma {:induction false} FilterTwice<T(!new)>(s: seq<T>, p: T -> bool, q: T -> bool, both: T -> bool)
    requires forall x :: both(x) <==> p(x) && q(x)
    ensures Filter(q, Filter(p, s)) == Filter(both, s)
  {
    if s != [] {
      var last := |s| - 1;
      FilterTwice(s[..last], p, q, both);
      if p(s[last]) {
        FilterOfConcat(q, Filter(p, s[..last]), [s[last]]);
        assert [s[last]][..0] == [];
      } else {
        assert Filter(p, s) == Filter(p, s[..last]);
      }
    }
  }

  /** Where page k begins. */
  function Offset(k: nat, limit: nat): nat {
    k * limit
  }

  /** The first n pages of a list, joined. */
  function Pages<T>(rows: seq<T>, limit: nat, n: nat): seq<T> {
    if n == 0 then [] else Pages(rows, limit, n - 1) + Page(rows, limit, Offset(n - 1, limit))
  }

  lemma NextOffset(k: nat, limit: nat)
    ensures Offset(k + 1, limit) == Offset(k, limit) + limit
  {
  }

  lemma OffsetsGrow(k: nat, m: nat, limit: nat)
    requires k <= m
    ensures Offset(k, limit) <= Offset(m, limit)
  {
    assert m * limit == k * limit + (m - k) * limit;
  }

  function Least(a: nat, b: nat): nat {
    if a <= b then a else b
  }

  /** Joined pages are a prefix of the list: nothing is skipped and nothing comes twice. */
  lemma {:induction false} PagesArePrefix<T>(rows: seq<T>, limit: nat, n: nat)
    ensures Pages(rows, limit, n) == rows[..Least(Offset(n, limit), |rows|)]
  {
    if n > 0 {
      PagesArePrefix(rows, limit, n - 1);
      NextOffset(n - 1, limit);
      hide Offset;
      PageExtends(rows, limit, Offset(n - 1, limit));
    }
  }

  lemma PageExtends<T>(rows: seq<T>, limit: nat, offset: nat)
    ensures rows[..Least(offset, |rows|)] + Page(rows, limit, offset) == rows[..Least(offset + limit, |rows|)]
  {
  }

  /** Enough pages are the whole list, and all later pages are empty. */
  lemma PagesTileList<T>(rows: seq<T>, limit: nat, n: nat)
    requires limit >= 1 && Offset(n, limit) >= |rows|
    ensures Pages(rows, limit, n) == rows
    ensures forall m: nat | m >= n :: Page(rows, limit, Offset(m, limit)) == []
  {
    hide Offset;
    PagesArePrefix(rows, limit, n);
    forall m: nat | m >= n ensures Page(rows, limit, Offset(m, limit)) == [] {
      OffsetsGrow(n, m, limit);
    }
  }

  /** The latest scan exists exactly when some selected row is completed, and it is the first such row of
      the joined pages that the same request lists without latest. */
  lemma LatestIsOnPages(rows: seq<ScanRow>, items: seq<ScanRow>, limit: nat, n: nat)
    requires IsLatestOf(items, rows) && limit >= 1 && Offset(n, limit) >= |rows|
    ensures |items| == 1 <==> exists row | row in rows :: IsCompleted(row)
    ensures |items| <= 1 && IsLatestOf(items, Pages(rows, limit, n))
  {
    PagesTileList(rows, limit, n);
    if row :| row in rows && IsCompleted(row) {
      var k :| 0 <= k < |rows| && rows[k] == row;
    }
  }

  /** Requests with one limit parameter and the offsets 0, L, 2L and so on, L being the limit they are
      answered with; their items joined. */
  function JoinedAnswers(table: seq<ScanRow>, q: Query, limitText: Option<int>, n: nat,
                         chains: Option<seq<Blockchain>>): seq<ScanRow>
    requires RefusalOf(q.address, q.chain, false).None?
  {
    if n == 0 then []
    else
      var answer := PageAnswer(table, q, limitText, Some(Offset(n - 1, ClampedLimit(limitText))), chains);
      JoinedAnswers(table, q, limitText, n - 1, chains) + answer.items
  }

  lemma AnswerIsPage(table: seq<ScanRow>, q: Query, limitText: Option<int>, offset: nat, chains: Option<seq<Blockchain>>)
    requires RefusalOf(q.address, q.chain, false).None?
    ensures PageAnswer(table, q, limitText, Some(offset), chains).items
         == Page(Matching(table, q, chains), ClampedLimit(limitText), offset)
  {
  }

  lemma {:induction false} AnswersArePages(table: seq<ScanRow>, q: Query, limitText: Option<int>, n: nat,
                                           chains: Option<seq<Blockchain>>)
    requires RefusalOf(q.address, q.chain, false).None?
    ensures JoinedAnswers(table, q, limitText, n, chains) == Pages(Matching(table, q, chains), ClampedLimit(limitText), n)
  {
    hide PageAnswer, Page, Matching, ClampedLimit, RefusalOf;
    if n > 0 {
      AnswersArePages(table, q, limitText, n - 1, chains);
      AnswerIsPage(table, q, limitText, Offset(n - 1, ClampedLimit(limitText)), chains);
    }
  }

  /** For any accepted query and any limit parameter, requests at successive offsets return every matching
      row once and in order, and every one of them reports the length of the joined list as its total. */
  lemma RequestsTileList(table: seq<ScanRow>, q: Query, limitText: Option<int>, n: nat, offsetText: Option<int>,
                         chains: Option<seq<Blockchain>>)
    requires RefusalOf(q.address, q.chain, false).None?
    requires Offset(n, ClampedLimit(limitText)) >= |Matching(table, q, chains)|
    ensures JoinedAnswers(table, q, limitText, n, chains) == Matching(table, q, chains)
    ensures PageAnswer(table, q, limitText, offsetText, chains).total == |JoinedAnswers(table, q, limitText, n, chains)|
  {
    AnswersArePages(table, q, limitText, n, chains);
    PagesArePrefix(Matching(table, q, chains), ClampedLimit(limitText), n);
  }

  /** The latest scan of a query exists exactly when some matching row is completed, and it is the first
      completed row of the joined answers to the same query without latest. */
  lemma LatestIsOnAnswers(table: seq<ScanRow>, q: Query, limitText: Option<int>, n: nat, items: seq<ScanRow>,
                          chains: Option<seq<Blockchain>>)
    requires RefusalOf(q.address, q.chain, false).None? && IsLatestOf(items, Matching(table, q, chains))
    requires Offset(n, ClampedLimit(limitText)) >= |Matching(table, q, chains)|
    ensures |items| <= 1 && (|items| == 1 <==> exists row | row in Matching(table, q, chains) :: IsCompleted(row))
    ensures IsLatestOf(items, JoinedAnswers(table, q, limitText, n, chains))
  {
    AnswersArePages(table, q, limitText, n, chains);
    LatestIsOnPages(Matching(table, q, chains), items, ClampedLimit(limitText), n);
  }

  /** A row is matching exactly when it is in the table, belongs to the owner, has the address in any letter
      case (any address for a blank query), and passes the chain filter. */
  lemma MatchingRows(table: seq<ScanRow>, q: Query, chains: Option<seq<Blockchain>>)
    ensures forall row :: row in Matching(table, q, chains) <==>
              && row in table && row.user == q.user && (TrimSpace(q.address) == "" || ToLower(row.address) == Normal(q.address))
              && MatchesChain(row, q.chain, chains)
  {
    FilterKeeps((row: ScanRow) => Owned(row, q.user, Normal(q.address)) && MatchesChain(row, q.chain, chains), table);
  }

  /* ---- What the parts of a request mean ---- */

  /** SUCCESS in any letter case, between any spaces. */
  predicate SpellsSuccess(core: string) {
    |core| == 7 && forall i | 0 <= i < 7 :: core[i] == "SUCCESS"[i] || core[i] == "success"[i]
  }

  lemma UpperIsSuccess(core: string)
    ensures ToUpper(core) == "SUCCESS" <==> SpellsSuccess(core)
  {
    if SpellsSuccess(core) {
      assert forall i | 0 <= i < 7 :: UpperChar(core[i]) == "SUCCESS"[i];
    }
    if ToUpper(core) == "SUCCESS" {
      assert |core| == 7;
      forall i | 0 <= i < 7 ensures core[i] == "SUCCESS"[i] || core[i] == "success"[i] {
        assert UpperChar(core[i]) == "SUCCESS"[i];
      }
    }
  }

  /** A row is completed exactly when its status is SUCCESS in any letter case between any spaces. */
  lemma CompletedMeansSuccess(row: ScanRow)
    ensures IsCompleted(row) <==> exists left, core, right ::
              AllSpace(left) && AllSpace(right) && SpellsSuccess(core) && row.status == left + core + right
  {
    UpperIsSuccess(TrimSpace(row.status));
    if IsCompleted(row) {
      var left, right := TrimSpaceSplits(row.status);
    }
    if left, core, right :| AllSpace(left) && AllSpace(right) && SpellsSuccess(core) && row.status == left + core + right {
      TrimSpaceOfPadded(left, core, right);
    }
  }

  /** Why a query is refused, first cause first. */
  lemma RefusalsSayWhy(q: Query, latest: bool)
    ensures var r, blank := RefusalOf(q.address, q.chain, latest), AllSpace(q.address);
            && (r == Some(LatestNeedsAddress) <==> latest && blank)
            && (r == Some(ChainNeedsAddress) <==> !latest && !q.chain.AnyChain? && blank)
            && (r == Some(ChainNotPositive) <==> !blank && (q.chain.NotANumber? || (q.chain.Chain? && q.chain.id <= 0)))
            && (r == None <==> (blank ==> !latest && q.chain.AnyChain?) && (!blank ==> q.chain.AnyChain? || (q.chain.Chain? && q.chain.id > 0)))
  {
    BlankMeansSpaces(q.address);
  }

  /** The page at any offset: the rows from there on, at most limit of them. */
  lemma PageHolds<T>(rows: seq<T>, limit: nat, offset: nat)
    ensures var page := Page(rows, limit, offset);
            && |page| == (if offset >= |rows| then 0 else if |rows| - offset < limit then |rows| - offset else limit)
            && forall i | 0 <= i < |page| :: page[i] == rows[offset + i]
  {
  }

  /** Usable parameters are taken as they are. */
  lemma ClampKeepsUsable(limit: int, offset: int)
    ensures 1 <= limit <= 100 ==> ClampedLimit(Some(limit)) == limit
    ensures limit > 100 ==> ClampedLimit(Some(limit)) == 100
    ensures limit < 1 ==> ClampedLimit(Some(limit)) == 20 == ClampedLimit(None)
    ensures offset >= 0 ==> ClampedOffset(Some(offset)) == offset
    ensures offset < 0 ==> ClampedOffset(Some(offset)) == 0 == ClampedOffset(None)
  {
  }
}
