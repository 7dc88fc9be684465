/** Chain ids of a wallet observation: the validated configuration (internal/config/chain.go), the
    exporter (internal/walletobservation/export.go) and the list filter
    (internal/scanapi/wallet_filter.go). */
module ChainExport {
  import opened Common
  import opened Text

  datatype Blockchain = Blockchain(name: string, chainId: int)

  datatype ConfigError =
    | NameRequired(index: nat)
    | DuplicateName(name: string)
    | NotPositive(index: nat, name: string)
    | DuplicateChainId(chainId: int, first: string, second: string)

  type NetworkIds = map<string, int>

  /* ---- Configuration ---- */

  predicate ValidConfig(chains: seq<Blockchain>) {
    && (forall i | 0 <= i < |chains| :: TrimSpace(chains[i].name) != "" && chains[i].chainId > 0)
    && (forall i, j | 0 <= i < j < |chains| ::
          TrimSpace(chains[i].name) != TrimSpace(chains[j].name) && chains[i].chainId != chains[j].chainId)
  }

  /** The error that entry i causes after valid entries before it. */
  predicate Offends(chains: seq<Blockchain>, i: nat, err: ConfigError)
    requires i < |chains|
  {
    var name, id := TrimSpace(chains[i].name), chains[i].chainId;
    var taken := exists j | 0 <= j < i :: TrimSpace(chains[j].name) == name;
    match err
    case NameRequired(index) => index == i && name == ""
    case DuplicateName(dup) => dup == name && name != "" && taken
    case NotPositive(index, bad) => index == i && bad == name && name != "" && !taken && id <= 0
    case DuplicateChainId(dup, first, second) =>
      && dup == id && id > 0 && second == name && name != "" && !taken
      && exists j | 0 <= j < i :: chains[j].chainId == id && TrimSpace(chains[j].name) == first
  }

  /** Accepts exactly the valid configurations, and otherwise reports the first offending entry. */
  method Validate(chains: seq<Blockchain>) returns (err: Option<ConfigError>)
    ensures err.None? <==> ValidConfig(chains)
    ensures err.Some? ==> exists i: nat | i < |chains| :: ValidConfig(chains[..i]) && Offends(chains, i, err.value)
  {
    hide TrimSpace;
    var seenName: set<string> := {};
    var seenChain: map<int, string> := map[];
    for i := 0 to |chains|
      invariant ValidConfig(chains[..i])
      invariant forall name :: name in seenName <==> exists j | 0 <= j < i :: TrimSpace(chains[j].name) == name
      invariant forall id :: id in seenChain <==> exists j | 0 <= j < i :: chains[j].chainId == id
      invariant forall j | 0 <= j < i :: seenChain[chains[j].chainId] == TrimSpace(chains[j].name)
    {
      var name, id := TrimSpace(chains[i].name), chains[i].chainId;
      if name == "" {
        err := Some(NameRequired(i));
      } else if name in seenName {
        err := Some(DuplicateName(name));
      } else if id <= 0 {
        err := Some(NotPositive(i, name));
      } else if id in seenChain {
        err := Some(DuplicateChainId(id, seenChain[id], name));
      } else {
        err := None;
      }
      if err.Some? {
        assert Offends(chains, i, err.value);
        return;
      }
      seenName := seenName + {name};
      seenChain := seenChain[id := name];
      assert chains[..i + 1] == chains[..i] + [chains[i]];
    }
    assert chains[..|chains|] == chains;
    err := None;
  }

  function ByNetwork(chains: seq<Blockchain>): NetworkIds {
    if chains == [] then map[]
    else
      var n := |chains| - 1;
      var earlier := ByNetwork(chains[..n]);
      if chains[n].chainId > 0 then earlier[chains[n].name := chains[n].chainId] else earlier
  }

  method ChainIdByNetwork(chains: seq<Blockchain>) returns (ids: NetworkIds)
    ensures ids == ByNetwork(chains)
  {
    ids := map[];
    for i := 0 to |chains|
      invariant ids == ByNetwork(chains[..i])
    {
      assert chains[..i + 1][..i] == chains[..i];
      if chains[i].chainId > 0 {
        ids := ids[chains[i].name := chains[i].chainId];
      }
    }
    assert chains[..|chains|] == chains;
  }

  /** Distinct recognised names stay distinct after trimming, are never blank, and have distinct
      positive ids. */
  predicate OneToOne(ids: NetworkIds) {
    && (forall n | n in ids :: TrimSpace(n) != "" && ids[n] > 0)
    && (forall n, n' | n in ids && n' in ids && n != n' :: TrimSpace(n) != TrimSpace(n') && ids[n] != ids[n'])
  }

  lemma {:induction false} ByNetworkHasEntry(chains: seq<Blockchain>, i: nat)
    requires ValidConfig(chains) && i < |chains|
    ensures chains[i].name in ByNetwork(chains) && ByNetwork(chains)[chains[i].name] == chains[i].chainId
  {
    var n := |chains| - 1;
    if i < n {
      assert chains[..n][i] == chains[i];
      ValidPrefix(chains);
      ByNetworkHasEntry(chains[..n], i);
    }
  }

  lemma ValidPrefix(chains: seq<Blockchain>)
    requires ValidConfig(chains) && chains != []
    ensures ValidConfig(chains[..|chains| - 1])
  {
  }

  lemma {:induction false} ByNetworkEntry(chains: seq<Blockchain>, name: string) returns (i: nat)
    requires name in ByNetwork(chains)
    ensures i < |chains| && chains[i].name == name
  {
    var n := |chains| - 1;
    if chains[n].chainId > 0 && chains[n].name == name {
      i := n;
    } else {
      i := ByNetworkEntry(chains[..n], name);
    }
  }

  /** A valid configuration maps its own names to their own ids and knows no other name. */
  lemma ByNetworkOfValid(chains: seq<Blockchain>)
    requires ValidConfig(chains)
    ensures forall n :: n in ByNetwork(chains) <==> exists i | 0 <= i < |chains| :: chains[i].name == n
    ensures forall i | 0 <= i < |chains| ::
              chains[i].name in ByNetwork(chains) && ByNetwork(chains)[chains[i].name] == chains[i].chainId
    ensures OneToOne(ByNetwork(chains))
  {
    var ids := ByNetwork(chains);
    forall i: nat | i < |chains| ensures chains[i].name in ids && ids[chains[i].name] == chains[i].chainId {
      ByNetworkHasEntry(chains, i);
    }
    forall n | n in ids ensures exists i | 0 <= i < |chains| :: chains[i].name == n {
      var i := ByNetworkEntry(chains, n);
    }
    forall n, n' | n in ids && n' in ids && n != n' ensures TrimSpace(n) != TrimSpace(n') && ids[n] != ids[n'] {
      var i := ByNetworkEntry(chains, n);
      var j := ByNetworkEntry(chains, n');
      NamesDiffer(chains, i, j);
    }
    forall n | n in ids ensures TrimSpace(n) != "" && ids[n] > 0 {
      var i := ByNetworkEntry(chains, n);
      assert ids[n] == chains[i].chainId;
    }
  }

  lemma NamesDiffer(chains: seq<Blockchain>, i: nat, j: nat)
    requires ValidConfig(chains) && i < |chains| && j < |chains| && i != j
    ensures TrimSpace(chains[i].name) != TrimSpace(chains[j].name) && chains[i].chainId != chains[j].chainId
  {
    assert i < j || j < i;
  }

  /* ---- Export ---- */

  predicate Increasing(ids: seq<int>) {
    forall i, j | 0 <= i < j < |ids| :: ids[i] < ids[j]
  }

  /** Insertion into an increasing list; an id that is there already is not repeated. */
  function Insert(ids: seq<int>, id: int): (r: seq<int>)
    requires Increasing(ids)
    ensures Increasing(r)
    ensures forall x :: x in r <==> x in ids || x == id
  {
    if ids == [] then [id]
    else if id < ids[0] then [id] + ids
    else if id == ids[0] then ids
    else
      var rest := Insert(ids[1..], id);
      assert forall j | 0 <= j < |rest| :: rest[j] in rest;
      [ids[0]] + rest
  }

  function Recognised(networks: seq<string>, ids: NetworkIds): set<string> {
    set n | n in networks && n in ids && ids[n] != 0
  }

  /** The ids of the recognised networks, each once, in increasing order. */
  function ExportedIds(networks: seq<string>, ids: NetworkIds): (r: seq<int>)
    ensures Increasing(r)
    ensures forall id :: id in r <==> exists n | n in Recognised(networks, ids) :: ids[n] == id
  {
    if networks == [] then []
    else
      var n := |networks| - 1;
      assert networks == networks[..n] + [networks[n]];
      var earlier := ExportedIds(networks[..n], ids);
      if networks[n] in ids && ids[networks[n]] != 0 then Insert(earlier, ids[networks[n]]) else earlier
  }

  function Sorted(ids: seq<int>): (r: seq<int>)
    ensures Increasing(r)
    ensures forall x :: x in r <==> x in ids
  {
    if ids == [] then []
    else
      assert ids == ids[..|ids| - 1] + [ids[|ids| - 1]];
      Insert(Sorted(ids[..|ids| - 1]), ids[|ids| - 1])
  }

  /** An increasing list is determined by its elements. */
  lemma {:induction false} IncreasingIsUnique(a: seq<int>, b: seq<int>)
    requires Increasing(a) && Increasing(b) && forall x :: x in a <==> x in b
    ensures a == b
  {
    assert a == [] <==> b == [] by {
      assert (a != [] ==> a[0] in a) && (b != [] ==> b[0] in b);
    }
    if a != [] {
      assert a[0] in a && b[0] in b;
      assert a[0] == b[0];
      forall x ensures x in a[1..] <==> x in b[1..] {
        assert x in a[1..] <==> x in a && x != a[0];
        assert x in b[1..] <==> x in b && x != b[0];
      }
      IncreasingIsUnique(a[1..], b[1..]);
    }
  }

  lemma SomeElement<T>(s: set<T>) returns (x: T)
    requires s != {}
    ensures x in s
  {
    x :| x in s;
  }

  /** The seen set may be read in any order: the sorted result is the same. */
  method ResolveChainIds(networks: seq<string>, ids: NetworkIds) returns (out: seq<int>)
    ensures out == ExportedIds(networks, ids)
  {
    if |ids| == 0 {
      IncreasingIsUnique([], ExportedIds(networks, ids));
      return [];
    }
    var seen: set<int> := {};
    for i := 0 to |networks|
      invariant forall id :: id in seen <==> exists n | n in Recognised(networks[..i], ids) :: ids[n] == id
    {
      var n := networks[i];
      assert networks[..i + 1] == networks[..i] + [n];
      if n in ids && ids[n] != 0 {
        seen := seen + {ids[n]};
        assert n in Recognised(networks[..i + 1], ids);
      }
      assert forall m :: m in Recognised(networks[..i + 1], ids) <==>
          m in Recognised(networks[..i], ids) || (m == n && n in ids && ids[n] != 0);
    }
    assert networks[..|networks|] == networks;
    out := [];
    var rest := seen;
    while rest != {}
      invariant forall id :: id in seen <==> id in out || id in rest
      decreases rest
    {
      ghost var witnessId := SomeElement(rest);
      var id :| id in rest;
      rest := rest - {id};
      out := out + [id];
    }
    out := Sorted(out);
    IncreasingIsUnique(out, ExportedIds(networks, ids));
  }

  /** Neither the order nor the repetition of networks matters. */
  lemma ExportIgnoresOrder(networks: seq<string>, other: seq<string>, ids: NetworkIds)
    requires forall n :: n in networks <==> n in other
    ensures ExportedIds(networks, ids) == ExportedIds(other, ids)
  {
    assert Recognised(networks, ids) == Recognised(other, ids);
    IncreasingIsUnique(ExportedIds(networks, ids), ExportedIds(other, ids));
  }

  lemma {:induction false} IncreasingSize(ids: seq<int>)
    requires Increasing(ids)
    ensures |set id | id in ids| == |ids|
  {
    if ids != [] {
      IncreasingSize(ids[1..]);
      assert (set id | id in ids) == {ids[0]} + (set id | id in ids[1..]);
    }
  }

  function Image(names: set<string>, ids: NetworkIds): set<int>
    requires names <= ids.Keys
  {
    set n | n in names :: ids[n]
  }

  /** One name more adds its own id, which no other name has. */
  lemma ImageStep(names: set<string>, ids: NetworkIds, n: string)
    requires OneToOne(ids) && names <= ids.Keys && n in ids && n !in names
    ensures |Image(names + {n}, ids)| == |Image(names, ids)| + 1
  {
    forall id | id in Image(names, ids) ensures id in Image(names + {n}, ids) && id != ids[n] {
      var m :| m in names && ids[m] == id;
      assert m in names + {n} && m != n;
    }
    assert n in names + {n};
    assert Image(names + {n}, ids) == Image(names, ids) + {ids[n]};
  }

  lemma {:induction false} ImageSize(names: set<string>, ids: NetworkIds)
    requires OneToOne(ids) && names <= ids.Keys
    ensures |Image(names, ids)| == |names|
  {
    if names == {} {
      assert Image(names, ids) == {};
    } else {
      hide Image, OneToOne;
      var n :| n in names;
      var rest := names - {n};
      ImageSize(rest, ids);
      ImageStep(rest, ids, n);
      assert rest + {n} == names;
    }
  }

  /** For a valid configuration exactly one id is exported for each distinct recognised network. */
  lemma ExportCountsNetworks(chains: seq<Blockchain>, networks: seq<string>)
    requires ValidConfig(chains)
    ensures |ExportedIds(networks, ByNetwork(chains))| == |set n | n in networks && (exists i | 0 <= i < |chains| :: chains[i].name == n)|
  {
    ByNetworkOfValid(chains);
    var ids := ByNetwork(chains);
    var names := Recognised(networks, ids);
    assert names == (set n | n in networks && (exists i | 0 <= i < |chains| :: chains[i].name == n));
    var out := ExportedIds(networks, ids);
    IncreasingSize(out);
    ImageSize(names, ids);
    assert (set id | id in out) == Image(names, ids);
  }

  /* ---- Multichain ---- */

  function DistinctNames(networks: seq<string>): set<string> {
    set n | n in networks && TrimSpace(n) != "" :: TrimSpace(n)
  }

  method IsMultichain(chainIds: seq<int>, networks: seq<string>) returns (multi: bool)
    ensures multi <==> |chainIds| > 1 || |DistinctNames(networks)| > 1
  {
    if |chainIds| > 1 {
      return true;
    }
    var names: set<string> := {};
    for i := 0 to |networks|
      invariant names == DistinctNames(networks[..i])
    {
      var n := TrimSpace(networks[i]);
      assert networks[..i + 1] == networks[..i] + [networks[i]];
      ghost var before := names;
      if n != "" {
        names := names + {n};
      }
      assert forall m :: m in DistinctNames(networks[..i + 1]) ==> m in before || (m == n && n != "");
      assert n != "" ==> networks[i] in networks[..i + 1] && n in DistinctNames(networks[..i + 1]);
      assert DistinctNames(networks[..i]) <= DistinctNames(networks[..i + 1]);
    }
    assert networks[..|networks|] == networks;
    multi := |names| > 1;
  }

  predicate Multichain(networks: seq<string>, ids: NetworkIds) {
    |ExportedIds(networks, ids)| > 1 || |DistinctNames(networks)| > 1
  }

  lemma TwoIdsTwoNames(networks: seq<string>, ids: NetworkIds)
    requires OneToOne(ids) && |ExportedIds(networks, ids)| > 1
    ensures |DistinctNames(networks)| > 1
  {
    hide TrimSpace;
    var out := ExportedIds(networks, ids);
    assert out[0] in out && out[1] in out;
    var a :| a in Recognised(networks, ids) && ids[a] == out[0];
    var b :| b in Recognised(networks, ids) && ids[b] == out[1];
    var two := {TrimSpace(a), TrimSpace(b)};
    assert two <= DistinctNames(networks);
    SubsetSize(two, DistinctNames(networks));
  }

  /** For a valid configuration a wallet is multichain exactly when it lists more than one distinct
      trimmed, non-blank network name: the id count never decides alone. */
  lemma MultichainMeansNames(chains: seq<Blockchain>, networks: seq<string>)
    requires ValidConfig(chains)
    ensures Multichain(networks, ByNetwork(chains)) <==> |DistinctNames(networks)| > 1
  {
    ByNetworkOfValid(chains);
    if |ExportedIds(networks, ByNetwork(chains))| > 1 {
      TwoIdsTwoNames(networks, ByNetwork(chains));
    }
  }

  lemma {:induction false} SubsetSize(a: set<string>, b: set<string>)
    requires a <= b
    ensures |a| <= |b|
  {
    if a != {} {
      var x :| x in a;
      SubsetSize(a - {x}, b - {x});
    }
  }

  /* ---- List filter ---- */

  function Decimal(n: nat): string
    decreases n
  {
    if n < 10 then [n as char + '0'] else Decimal(n / 10) + [(n % 10) as char + '0']
  }

  predicate AllDigits(s: string) {
    forall i | 0 <= i < |s| :: '0' <= s[i] <= '9'
  }

  predicate IsNumeral(s: string) {
    s != [] && AllDigits(s) && (|s| > 1 ==> s[0] != '0')
  }

  function NumberOf(s: string): nat
    requires AllDigits(s)
  {
    if s == [] then 0 else 10 * NumberOf(s[..|s| - 1]) + (s[|s| - 1] as int - '0' as int)
  }

  /** The decimal text of a number reads back as the number, without leading zeros. */
  lemma {:induction false} DecimalReadsBack(n: nat)
    ensures IsNumeral(Decimal(n)) && NumberOf(Decimal(n)) == n
    ensures n > 0 ==> Decimal(n)[0] != '0'
  {
    if n >= 10 {
      DecimalReadsBack(n / 10);
      var rest, last := Decimal(n / 10), (n % 10) as char + '0';
      assert (rest + [last])[..|rest|] == rest;
    } else {
      assert Decimal(n)[..0] == [];
    }
  }

  /** And it is the only such text: a list filter by id meets exactly the networks written as its numeral. */
  lemma {:induction false} NumeralIsDecimal(s: string)
    requires IsNumeral(s)
    ensures s == Decimal(NumberOf(s))
  {
    var n := |s| - 1;
    assert s == s[..n] + [s[n]];
    if n > 0 {
      NumeralIsDecimal(s[..n]);
      NumeralIsPositive(s[..n]);
    } else {
      assert s[..0] == [];
    }
  }

  lemma {:induction false} NumeralIsPositive(s: string)
    requires AllDigits(s) && s != [] && s[0] != '0'
    ensures NumberOf(s) > 0
  {
    var n := |s| - 1;
    if n > 0 {
      assert s[..n][0] == s[0];
      NumeralIsPositive(s[..n]);
    }
  }

  predicate MatchesChainId(networks: seq<string>, want: nat, ids: NetworkIds) {
    exists n | n in networks :: n == Decimal(want) || (n in ids && ids[n] == want)
  }

  method WalletMatchesChainId(networks: seq<string>, want: nat, chains: seq<Blockchain>) returns (matches: bool)
    ensures matches <==> MatchesChainId(networks, want, ByNetwork(chains))
  {
    if |networks| == 0 {
      return false;
    }
    var ids := ChainIdByNetwork(chains);
    var text := Decimal(want);
    for i := 0 to |networks|
      invariant forall j | 0 <= j < i :: networks[j] != text && !(networks[j] in ids && ids[networks[j]] == want)
    {
      if networks[i] == text || (networks[i] in ids && ids[networks[i]] == want) {
        assert networks[i] in networks;
        return true;
      }
    }
    matches := false;
  }

  /** The list filter and the exporter agree: a positive id matches a row exactly when the row's
      observation exports it, or the row lists its decimal text. */
  lemma FilterAgreesWithExport(networks: seq<string>, want: nat, ids: NetworkIds)
    requires want > 0
    ensures MatchesChainId(networks, want, ids) <==> want in ExportedIds(networks, ids) || Decimal(want) in networks
  {
    if want in ExportedIds(networks, ids) {
      var n :| n in Recognised(networks, ids) && ids[n] == want;
      assert n in networks;
    }
    if MatchesChainId(networks, want, ids) && Decimal(want) !in networks {
      var n :| n in networks && n in ids && ids[n] == want;
      assert n in Recognised(networks, ids);
    }
  }
}
