/**
 * The topology planner and the snapshot writer (engine/network_generator.py).
 *
 * Every random draw of a generation pass is an input: the total and the
 * per-type counts (each inside the range `random.randint` draws from), the
 * host-octet pool and the type list after `random.shuffle` (any
 * rearrangement of what the source shuffles), and the indices
 * `random.choice` picks for departments and blueprints.
 */
module NetworkGen {
  import opened Common
  import opened Text
  import HostGen

  datatype NodeType = Server | Infra | Workstation

  /** The `type` string of a record, and the catalogue key it is synthesized from. */
  function TypeName(t: NodeType): string
  {
    match t
    case Server => "server"
    case Infra => "infra"
    case Workstation => "workstation"
  }

  /** The hostname prefix of each type. */
  function Prefix(t: NodeType): string
  {
    match t
    case Server => "SERV"
    case Infra => "INFR"
    case Workstation => "WKST"
  }

  const Departments: seq<string> := ["FIN", "HR", "ENG", "IT", "SALES"]

  datatype HostTypeRules = HostTypeRules(serversMin: int, serversMax: int, infraMin: int, infraMax: int)

  /** `generation_rules` of the network configuration. */
  datatype GenerationRules = GenerationRules(hostsMin: int, hostsMax: int, hostTypes: HostTypeRules)

  /** The `network` section of the configuration. */
  datatype NetworkConfig = NetworkConfig(id: string, domain: string, baseIp: string, rules: GenerationRules)

  /** One host of the network: the identity fields merged with the synthesized payload (their key sets are disjoint). */
  datatype HostRecord = HostRecord(
    id: string,
    ip: string,
    hostname: string,
    kind: NodeType,
    status: string,
    payload: HostGen.HostPayload)

  /** The values one generation pass draws at random. */
  datatype Draws = Draws(
    totalHosts: int,           // random.randint(hosts_min, hosts_max)
    ipPool: seq<nat>,          // range(2, 255) after random.shuffle
    numServers: int,           // random.randint(servers_min, servers_max)
    numInfra: int,             // random.randint(infra_min, infra_max)
    assignment: seq<NodeType>, // the type list after random.shuffle
    departments: seq<nat>,     // per host, the index random.choice draws from Departments
    picks: seq<nat>)           // per host, the index random.choice draws from the available blueprints

  datatype GenerationError =
    | InvalidRules           // an assertion of _validate_rules failed
    | HostGenFailed(cause: HostGen.IndexError) // HostGenerator() raised
    | EmptyHostRange         // random.randint(hosts_min, hosts_max) with hosts_min > hosts_max
    | AddressPoolExhausted   // pop() from the empty octet pool

  /** `_validate_rules`: the three assertions, all of which must hold. */
  predicate RulesValid(r: GenerationRules)
  {
    && r.hostTypes.serversMin <= r.hostTypes.serversMax
    && r.hostTypes.infraMin < r.hostTypes.infraMax
    && r.hostTypes.serversMax + r.hostTypes.infraMax < r.hostsMin
  }

  /** `range(lo, lo + n)` as a list. */
  function Range(lo: int, n: nat): (s: seq<int>)
  {
    seq(n, i => lo + i)
  }

  /** The candidate host octets, `range(2, 255)`: the 253 values 2..254. */
  const OctetRange: seq<int> := Range(2, 253)

  /** `max(n, 0)`: how many copies `[x] * n` makes. */
  function Copies(n: int): nat
  {
    if n > 0 then n else 0
  }

  /** `[x] * n`: `n` copies of `x`, none when `n` is not positive. */
  function Repeat(x: NodeType, n: int): (s: seq<NodeType>)
    ensures |s| == Copies(n)
    ensures forall k :: 0 <= k < |s| ==> s[k] == x
    decreases n
  {
    if n <= 0 then [] else [x] + Repeat(x, n - 1)
  }

  /** The type list before shuffling: the servers, then the infrastructure hosts, then the workstations. */
  function AssignmentPool(numServers: int, numInfra: int, numWorkstations: int): seq<NodeType>
  {
    Repeat(Server, numServers) + Repeat(Infra, numInfra) + Repeat(Workstation, numWorkstations)
  }

  /** `total - (num_servers + num_infra)`. */
  function Workstations(d: Draws): int
  {
    d.totalHosts - (d.numServers + d.numInfra)
  }

  /** Everything the draws of a pass are guaranteed by the random sources, once the rules have passed validation. */
  predicate DrawsFit(rules: GenerationRules, catalog: HostGen.Catalog, d: Draws)
  {
    RulesValid(rules) && rules.hostsMin <= rules.hostsMax ==>
      && rules.hostsMin <= d.totalHosts <= rules.hostsMax
      && multiset(d.ipPool) == multiset(OctetRange)
      && rules.hostTypes.serversMin <= d.numServers <= rules.hostTypes.serversMax
      && rules.hostTypes.infraMin <= d.numInfra <= rules.hostTypes.infraMax
      && multiset(d.assignment) == multiset(AssignmentPool(d.numServers, d.numInfra, Workstations(d)))
      && forall k :: 0 <= k < |d.assignment| ==> SlotFits(catalog, d, k)
  }

  /** The department and blueprint indices drawn for the `k`-th host (from 0) lie in range. */
  predicate SlotFits(catalog: HostGen.Catalog, d: Draws, k: nat)
  {
    && k < |d.assignment|
    && k < |d.departments| && d.departments[k] < |Departments|
    && k < |d.picks| && HostGen.PickFits(catalog, TypeName(d.assignment[k]), d.picks[k])
  }


  /** No prefix and no department contains a dash. */
  lemma NoDashInFields(t: NodeType, dept: nat)
    requires dept < |Departments|
    ensures '-' !in Prefix(t) && '-' !in Departments[dept]
  {
  }

  /**
   * `_generate_hostname`: the type's prefix, the drawn department and the
   * index padded to two digits, joined by dashes. The hostname splits at its
   * dashes back into those three fields, and the index field reads back.
   */
  function GenerateHostname(t: NodeType, dept: nat, idx: nat): (h: string)
    requires dept < |Departments|
    ensures Split(h, '-') == [Prefix(t), Departments[dept], Pad2(idx)]
    ensures IsDigits(Pad2(idx)) && |Pad2(idx)| >= 2 && DigitsValue(Pad2(idx)) == idx
  {
    Pad2RoundTrip(idx);
    NoDashInFields(t, dept);
    NoSepInDigits(Pad2(idx), '-');
    SplitThree(Prefix(t), Departments[dept], Pad2(idx), '-');
    Prefix(t) + "-" + Departments[dept] + "-" + Pad2(idx)
  }

  /** The conditions under which a generation pass returns a network. */
  predicate Generates(config: NetworkConfig, dir: HostGen.Directory, d: Draws)
  {
    && RulesValid(config.rules)
    && !HostGen.NoneFound(HostGen.Catalogue(dir))
    && config.rules.hostsMin <= config.rules.hostsMax
    && |d.assignment| <= |d.ipPool|
  }

  /** The octet the `k`-th host (from 0) pops off the end of the pool. */
  function OctetAt(d: Draws, k: nat): nat
    requires k < |d.ipPool|
  {
    d.ipPool[|d.ipPool| - 1 - k]
  }

  /** The record the `k`-th iteration (from 0) of the assembly loop appends. */
  function NodeAt(config: NetworkConfig, catalog: HostGen.Catalog, dir: HostGen.Directory, d: Draws, k: nat): HostRecord
    requires HostGen.CatalogueSound(catalog, dir)
    requires SlotFits(catalog, d, k)
    requires k < |d.ipPool|
  {
    var idx := k + 1;
    var t := d.assignment[k];
    HostRecord(
      "node-" + ShowNat(idx),
      config.baseIp + "." + ShowNat(OctetAt(d, k)),
      GenerateHostname(t, d.departments[k], idx),
      t,
      "online",
      HostGen.GenerateHost(catalog, dir, TypeName(t), d.picks[k]))
  }

  /** The network a successful pass returns, in assembly order. */
  function Network(config: NetworkConfig, dir: HostGen.Directory, d: Draws): (nodes: seq<HostRecord>)
    requires HostGen.DistinctNames(dir)
    requires DrawsFit(config.rules, HostGen.Catalogue(dir), d)
    requires Generates(config, dir, d)
    ensures |nodes| == |d.assignment|
    ensures HostGen.CatalogueSound(HostGen.Catalogue(dir), dir)
    ensures forall k :: 0 <= k < |nodes| ==> nodes[k] == NodeAt(config, HostGen.Catalogue(dir), dir, d, k)
  {
    HostGen.CatalogueIsSound(dir);
    var catalog := HostGen.Catalogue(dir);
    seq(|d.assignment|, k requires 0 <= k < |d.assignment| => NodeAt(config, catalog, dir, d, k))
  }

  /**
   * `generate_full_network`: validate the rules, index the blueprints, then
   * assemble one record per entry of the shuffled type list. A failed
   * validation, an empty catalogue, an empty host range and an exhausted
   * octet pool each end the pass with its error and no network.
   */
  method GenerateFullNetwork(config: NetworkConfig, dir: HostGen.Directory, d: Draws)
    returns (r: Result<seq<HostRecord>, GenerationError>)
    requires HostGen.DistinctNames(dir)
    requires DrawsFit(config.rules, HostGen.Catalogue(dir), d)
    ensures !RulesValid(config.rules) ==> r == Failure(InvalidRules)
    ensures RulesValid(config.rules) && HostGen.NoneFound(HostGen.Catalogue(dir)) ==> r == Failure(HostGenFailed(HostGen.NoValidBlueprints))
    ensures RulesValid(config.rules) && !HostGen.NoneFound(HostGen.Catalogue(dir))
      && config.rules.hostsMin > config.rules.hostsMax
      ==> r == Failure(EmptyHostRange)
    ensures RulesValid(config.rules) && !HostGen.NoneFound(HostGen.Catalogue(dir))
      && config.rules.hostsMin <= config.rules.hostsMax && |d.assignment| > |d.ipPool|
      ==> r == Failure(AddressPoolExhausted)
    ensures r.Success? <==> Generates(config, dir, d)
    ensures r.Success? ==> r.value == Network(config, dir, d)
  {
    if !RulesValid(config.rules) {
      return Failure(InvalidRules);
    }
    var created := HostGen.HostGenerator.Create(dir);
    if created.Failure? {
      return Failure(HostGenFailed(created.error));
    }
    var hostGen := created.value;
    if config.rules.hostsMin > config.rules.hostsMax {
      return Failure(EmptyHostRange);
    }
    HostGen.CatalogueIsSound(dir);
    r := AssembleNodes(config, hostGen.catalog, dir, d);
    if r.Success? {
      assert r.value == Network(config, dir, d);
    }
  }

  /** `nodes` are the records of the first `|nodes|` slots. */
  predicate Assembled(config: NetworkConfig, catalog: HostGen.Catalog, dir: HostGen.Directory, d: Draws, nodes: seq<HostRecord>)
    requires HostGen.CatalogueSound(catalog, dir)
    requires forall k :: 0 <= k < |d.assignment| ==> SlotFits(catalog, d, k)
  {
    && |nodes| <= |d.assignment|
    && |nodes| <= |d.ipPool|
    && forall k :: 0 <= k < |nodes| ==> nodes[k] == NodeAt(config, catalog, dir, d, k)
  }

  /** Appending the record of the next slot keeps the assembled prefix. */
  lemma AssembleNext(config: NetworkConfig, catalog: HostGen.Catalog, dir: HostGen.Directory, d: Draws, nodes: seq<HostRecord>)
    requires HostGen.CatalogueSound(catalog, dir)
    requires forall k :: 0 <= k < |d.assignment| ==> SlotFits(catalog, d, k)
    requires Assembled(config, catalog, dir, d, nodes)
    requires |nodes| < |d.assignment| && |nodes| < |d.ipPool|
    ensures Assembled(config, catalog, dir, d, nodes + [NodeAt(config, catalog, dir, d, |nodes|)])
  {
    var node := NodeAt(config, catalog, dir, d, |nodes|);
    var next := nodes + [node];
    forall k | 0 <= k < |next| ensures next[k] == NodeAt(config, catalog, dir, d, k) {
      if k < |nodes| {
        assert next[k] == nodes[k];
      } else {
        assert next[k] == node;
      }
    }
  }

  /**
   * The assembly loop of `generate_full_network`: for the `idx`-th type of
   * the shuffled list, pop an octet off the pool, synthesize the payload and
   * append the record; popping the empty pool ends the pass.
   */
  method AssembleNodes(config: NetworkConfig, catalog: HostGen.Catalog, dir: HostGen.Directory, d: Draws)
    returns (r: Result<seq<HostRecord>, GenerationError>)
    requires HostGen.CatalogueSound(catalog, dir)
    requires forall k :: 0 <= k < |d.assignment| ==> SlotFits(catalog, d, k)
    ensures r.Success? <==> |d.assignment| <= |d.ipPool|
    ensures r.Failure? ==> r.error == AddressPoolExhausted
    ensures r.Success? ==>
      && |r.value| == |d.assignment|
      && forall k :: 0 <= k < |r.value| ==> r.value[k] == NodeAt(config, catalog, dir, d, k)
  {
    var ipPool := d.ipPool;
    var assignmentPool := d.assignment;
    var nodes: seq<HostRecord> := [];
    var idx := 1;
    while idx <= |assignmentPool|
      invariant idx == |nodes| + 1 && |nodes| <= |d.ipPool|
      invariant ipPool == d.ipPool[..|d.ipPool| - |nodes|]
      invariant Assembled(config, catalog, dir, d, nodes)
    {
      if ipPool == [] {
        return Failure(AddressPoolExhausted);
      }
      var hostOctet := ipPool[|ipPool| - 1];
      assert hostOctet == OctetAt(d, idx - 1);
      ipPool := ipPool[..|ipPool| - 1];
      var nodeType := assignmentPool[idx - 1];
      assert SlotFits(catalog, d, idx - 1);
      var payload := HostGen.GenerateHost(catalog, dir, TypeName(nodeType), d.picks[idx - 1]);
      var node := HostRecord(
        "node-" + ShowNat(idx),
        config.baseIp + "." + ShowNat(hostOctet),
        GenerateHostname(nodeType, d.departments[idx - 1], idx),
        nodeType,
        "online",
        payload);
      AssembleNext(config, catalog, dir, d, nodes);
      nodes := nodes + [node];
      idx := idx + 1;
    }
    return Success(nodes);
  }

  /** Under validated rules and in-range draws at least one workstation is left over. */
  lemma WorkstationsPositive(rules: GenerationRules, d: Draws)
    requires RulesValid(rules)
    requires rules.hostsMin <= d.totalHosts
    requires d.numServers <= rules.hostTypes.serversMax && d.numInfra <= rules.hostTypes.infraMax
    ensures Workstations(d) >= 1
  {
  }

  lemma {:induction false} RangeCount(lo: int, n: nat, x: int)
    ensures multiset(Range(lo, n))[x] == if lo <= x < lo + n then 1 else 0
  {
    if n > 0 {
      assert Range(lo, n) == Range(lo, n - 1) + [lo + n - 1];
      RangeCount(lo, n - 1, x);
    }
  }

  lemma DuplicateCount<T>(s: seq<T>, i: nat, j: nat)
    requires i < j < |s| && s[i] == s[j]
    ensures multiset(s)[s[i]] >= 2
  {
    assert s == s[..j] + [s[j]] + s[j + 1..];
    assert s[..j][i] == s[i];
  }

  /** A shuffled pool holds each octet 2..254 exactly once. */
  lemma PoolOctets(pool: seq<nat>)
    requires multiset(pool) == multiset(OctetRange)
    ensures |pool| == 253
    ensures forall k :: 0 <= k < |pool| ==> 2 <= pool[k] <= 254
    ensures forall i, j :: 0 <= i < j < |pool| ==> pool[i] != pool[j]
  {
    assert |pool| == |multiset(pool)| == |multiset(OctetRange)| == |OctetRange|;
    forall k | 0 <= k < |pool| ensures 2 <= pool[k] <= 254 {
      assert pool[k] in multiset(pool);
      RangeCount(2, 253, pool[k]);
    }
    forall i, j | 0 <= i < j < |pool| ensures pool[i] != pool[j] {
      if pool[i] == pool[j] {
        DuplicateCount(pool, i, j);
        RangeCount(2, 253, pool[i]);
      }
    }
  }

  lemma {:induction false} RepeatCount(x: NodeType, n: int, y: NodeType)
    ensures multiset(Repeat(x, n))[y] == if x == y && n > 0 then n else 0
    decreases n
  {
    if n > 0 {
      assert Repeat(x, n) == [x] + Repeat(x, n - 1);
      RepeatCount(x, n - 1, y);
    }
  }

  /** How many entries of type `y` the unshuffled type list holds. */
  lemma PoolCount(numServers: int, numInfra: int, numWorkstations: int, y: NodeType)
    ensures multiset(AssignmentPool(numServers, numInfra, numWorkstations))[y] ==
      (if y == Server then Copies(numServers) else 0)
      + (if y == Infra then Copies(numInfra) else 0)
      + (if y == Workstation then Copies(numWorkstations) else 0)
  {
    RepeatCount(Server, numServers, y);
    RepeatCount(Infra, numInfra, y);
    RepeatCount(Workstation, numWorkstations, y);
  }

  /** The unshuffled type list holds exactly the drawn number of each type (none for a negative count). */
  lemma PoolCounts(numServers: int, numInfra: int, numWorkstations: int)
    ensures multiset(AssignmentPool(numServers, numInfra, numWorkstations))[Server] == Copies(numServers)
    ensures multiset(AssignmentPool(numServers, numInfra, numWorkstations))[Infra] == Copies(numInfra)
    ensures multiset(AssignmentPool(numServers, numInfra, numWorkstations))[Workstation] == Copies(numWorkstations)
    ensures |AssignmentPool(numServers, numInfra, numWorkstations)| == Copies(numServers) + Copies(numInfra) + Copies(numWorkstations)
  {
    PoolCount(numServers, numInfra, numWorkstations, Server);
    PoolCount(numServers, numInfra, numWorkstations, Infra);
    PoolCount(numServers, numInfra, numWorkstations, Workstation);
  }

  /** The types of the records, in order. */
  function Kinds(nodes: seq<HostRecord>): (ks: seq<NodeType>)
    ensures |ks| == |nodes|
    ensures forall k :: 0 <= k < |nodes| ==> ks[k] == nodes[k].kind
  {
    seq(|nodes|, k requires 0 <= k < |nodes| => nodes[k].kind)
  }

  /**
   * A generated network has exactly the drawn number of servers and
   * infrastructure hosts and the remainder, at least one, of workstations;
   * with non-negative counts that is `total_hosts` records, within
   * `[hosts_min, hosts_max]`.
   */
  lemma NetworkComposition(config: NetworkConfig, dir: HostGen.Directory, d: Draws)
    requires HostGen.DistinctNames(dir)
    requires DrawsFit(config.rules, HostGen.Catalogue(dir), d)
    requires Generates(config, dir, d)
    ensures Workstations(d) >= 1
    ensures var kinds := multiset(Kinds(Network(config, dir, d)));
      && kinds[Server] == Copies(d.numServers)
      && kinds[Infra] == Copies(d.numInfra)
      && kinds[Workstation] == Workstations(d)
    ensures d.numServers >= 0 && d.numInfra >= 0 ==>
      && |Network(config, dir, d)| == d.totalHosts
      && config.rules.hostsMin <= |Network(config, dir, d)| <= config.rules.hostsMax
  {
    NetworkKinds(config, dir, d);
    WorkstationsPositive(config.rules, d);
    PoolCounts(d.numServers, d.numInfra, Workstations(d));
    assert |d.assignment| == |multiset(d.assignment)|;
  }

  /** The records carry the types of the shuffled list, in order. */
  lemma NetworkKinds(config: NetworkConfig, dir: HostGen.Directory, d: Draws)
    requires HostGen.DistinctNames(dir)
    requires DrawsFit(config.rules, HostGen.Catalogue(dir), d)
    requires Generates(config, dir, d)
    ensures Kinds(Network(config, dir, d)) == d.assignment
  {
    var nodes := Network(config, dir, d);
    forall k | 0 <= k < |nodes| ensures nodes[k].kind == d.assignment[k] {
      assert SlotFits(HostGen.Catalogue(dir), d, k);
    }
  }

  /**
   * Addresses of a generated network: record `k` has address
   * `base_ip.octet` for the `k`-th octet popped, every octet lies in
   * [2, 254], no two records share an address, and when the base address
   * is numeric the record's sort key is the base key followed by its octet.
   */
  lemma NetworkAddresses(config: NetworkConfig, dir: HostGen.Directory, d: Draws)
    requires HostGen.DistinctNames(dir)
    requires DrawsFit(config.rules, HostGen.Catalogue(dir), d)
    requires Generates(config, dir, d)
    ensures forall k :: 0 <= k < |Network(config, dir, d)| ==>
      && Network(config, dir, d)[k].ip == config.baseIp + "." + ShowNat(OctetAt(d, k))
      && 2 <= OctetAt(d, k) <= 254
    ensures forall i, j :: 0 <= i < j < |Network(config, dir, d)| ==>
      Network(config, dir, d)[i].ip != Network(config, dir, d)[j].ip
    ensures IpKey(config.baseIp).Some? ==> forall k :: 0 <= k < |Network(config, dir, d)| ==>
      IpKey(Network(config, dir, d)[k].ip) == Some(IpKey(config.baseIp).value + [OctetAt(d, k)])
  {
    var nodes := Network(config, dir, d);
    PoolOctets(d.ipPool);
    forall i, j | 0 <= i < j < |nodes| ensures nodes[i].ip != nodes[j].ip {
      PrefixedDistinct(config.baseIp + ".", OctetAt(d, i), OctetAt(d, j));
    }
    forall k | 0 <= k < |nodes| && IpKey(config.baseIp).Some?
      ensures IpKey(nodes[k].ip) == Some(IpKey(config.baseIp).value + [OctetAt(d, k)])
    {
      IpKeyAppend(config.baseIp, OctetAt(d, k));
    }
  }

  /**
   * A hostname of the form `PREFIX-DEPT-ii`: it splits at its dashes into
   * the prefix of type `t`, one of the departments and `idx` padded to at
   * least two digits, which reads back as `idx`.
   */
  predicate HostnameShape(hostname: string, t: NodeType, idx: nat)
  {
    var fields := Split(hostname, '-');
    && |fields| == 3
    && fields[0] == Prefix(t)
    && fields[1] in Departments
    && fields[2] == Pad2(idx)
    && IsDigits(fields[2]) && |fields[2]| >= 2 && DigitsValue(fields[2]) == idx
  }

  /** The identity fields of the `k`-th record (from 0): id `node-(k+1)`, status online, hostname of its type. */
  predicate Identity(node: HostRecord, k: nat)
  {
    && node.id == "node-" + ShowNat(k + 1)
    && node.status == "online"
    && HostnameShape(node.hostname, node.kind, k + 1)
  }

  /** The record of slot `k` has the identity of the `k`-th record and the `k`-th type. */
  lemma RecordIdentity(config: NetworkConfig, catalog: HostGen.Catalog, dir: HostGen.Directory, d: Draws, k: nat)
    requires HostGen.CatalogueSound(catalog, dir)
    requires SlotFits(catalog, d, k) && k < |d.ipPool|
    ensures NodeAt(config, catalog, dir, d, k).kind == d.assignment[k]
    ensures Identity(NodeAt(config, catalog, dir, d, k), k)
  {
  }

  /** Records that carry the identities of their positions have pairwise distinct ids. */
  lemma IdsDistinct(nodes: seq<HostRecord>)
    requires forall k :: 0 <= k < |nodes| ==> Identity(nodes[k], k)
    ensures forall i, j :: 0 <= i < j < |nodes| ==> nodes[i].id != nodes[j].id
  {
    forall i, j | 0 <= i < j < |nodes| ensures nodes[i].id != nodes[j].id {
      assert nodes[i].id == "node-" + ShowNat(i + 1) by { assert Identity(nodes[i], i); }
      assert nodes[j].id == "node-" + ShowNat(j + 1) by { assert Identity(nodes[j], j); }
      PrefixedDistinct("node-", i + 1, j + 1);
    }
  }

  /**
   * Identities of a generated network: record `k` (from 0) is `node-(k+1)`,
   * online, of the `k`-th type of the shuffled list, with a hostname made of
   * that type's prefix, a department and `k+1` padded to two digits; ids are
   * pairwise distinct.
   */
  lemma NetworkIdentities(config: NetworkConfig, dir: HostGen.Directory, d: Draws)
    requires HostGen.DistinctNames(dir)
    requires DrawsFit(config.rules, HostGen.Catalogue(dir), d)
    requires Generates(config, dir, d)
    ensures var nodes := Network(config, dir, d);
      forall k :: 0 <= k < |nodes| ==> nodes[k].kind == d.assignment[k] && Identity(nodes[k], k)
    ensures var nodes := Network(config, dir, d);
      forall i, j :: 0 <= i < j < |nodes| ==> nodes[i].id != nodes[j].id
  {
    var nodes := Network(config, dir, d);
    var catalog := HostGen.Catalogue(dir);
    forall k | 0 <= k < |nodes| ensures nodes[k].kind == d.assignment[k] && Identity(nodes[k], k) {
      assert SlotFits(catalog, d, k);
      RecordIdentity(config, catalog, dir, d, k);
    }
    IdsDistinct(nodes);
  }

  /**
   * Payloads of a generated network: a record whose type has no blueprint
   * carries the fallback payload; any other record names a blueprint
   * registered under its type.
   */
  lemma NetworkPayloads(config: NetworkConfig, dir: HostGen.Directory, d: Draws)
    requires HostGen.DistinctNames(dir)
    requires DrawsFit(config.rules, HostGen.Catalogue(dir), d)
    requires Generates(config, dir, d)
    ensures forall k :: 0 <= k < |Network(config, dir, d)| ==>
      var node := Network(config, dir, d)[k];
      var available := HostGen.Available(HostGen.Catalogue(dir), TypeName(node.kind));
      && (available == [] ==> node.payload == HostGen.FallbackBlueprint)
      && (available != [] ==> node.payload.blueprintOrig in available)
  {
  }

  /** `[int(o) for o in node['ip'].split('.')]` can be computed for the record. */
  predicate HasKey(node: HostRecord)
  {
    IpKey(node.ip).Some?
  }

  /** The sort key of `a` is below that of `b`. */
  predicate IpLess(a: HostRecord, b: HostRecord)
  {
    HasKey(a) && HasKey(b) && LexLess(IpKey(a.ip).value, IpKey(b.ip).value)
  }

  /** `a` may stand before `b` in the sorted list: both have keys and the key of `b` is not below that of `a`. */
  predicate IpLe(a: HostRecord, b: HostRecord)
  {
    HasKey(a) && HasKey(b) && LexLe(IpKey(a.ip).value, IpKey(b.ip).value)
  }

  /** Ascending by numeric octet list, as `list.sort` leaves it. */
  predicate SortedByIp(s: seq<HostRecord>)
  {
    forall i, j :: 0 <= i < j < |s| ==> IpLe(s[i], s[j])
  }

  /** `nodes.sort(key=...)` once every key is known: an insertion sort by the numeric octet list. */
  method SortByIp(a: array<HostRecord>)
    requires AllKeyed(a[..])
    modifies a
    ensures SortedByIp(a[..])
    ensures multiset(a[..]) == multiset(old(a[..]))
  {
    var i := 0;
    while i < a.Length
      invariant 0 <= i <= a.Length
      invariant AllKeyed(a[..])
      invariant SortedByIp(a[..i])
      invariant multiset(a[..]) == multiset(old(a[..]))
    {
      InsertLast(a, i);
      i := i + 1;
    }
    assert a[..] == a[..a.Length];
  }

  /** Every record of `s` has a sort key. */
  predicate AllKeyed(s: seq<HostRecord>)
  {
    forall k :: 0 <= k < |s| ==> HasKey(s[k])
  }

  /**
   * Midway through inserting `s[j]` into the sorted prefix: `s[..i+1]`
   * without position `j` is in order, and `s[j]` is in order with
   * everything after it up to `i`.
   */
  predicate Inserting(s: seq<HostRecord>, i: nat, j: nat)
    requires j <= i < |s|
  {
    && (forall p, q :: 0 <= p < q <= i && p != j && q != j ==> IpLe(s[p], s[q]))
    && (forall q :: j < q <= i ==> IpLe(s[j], s[q]))
  }

  /** Swapping `s[j]` with a greater left neighbour moves the insertion point one step left. */
  lemma InsertionSwap(s: seq<HostRecord>, i: nat, j: nat)
    requires 0 < j <= i < |s| && AllKeyed(s)
    requires Inserting(s, i, j) && IpLess(s[j], s[j - 1])
    ensures AllKeyed(s[j - 1 := s[j]][j := s[j - 1]])
    ensures Inserting(s[j - 1 := s[j]][j := s[j - 1]], i, j - 1)
    ensures multiset(s[j - 1 := s[j]][j := s[j - 1]]) == multiset(s)
  {
    var t := s[j - 1 := s[j]][j := s[j - 1]];
    LexLessAsymmetric(IpKey(s[j].ip).value, IpKey(s[j - 1].ip).value);
    forall p, q | 0 <= p < q <= i && p != j - 1 && q != j - 1 ensures IpLe(t[p], t[q]) {
      if q == j {
        assert t[p] == s[p] && t[q] == s[j - 1];
      } else if p == j {
        assert t[p] == s[j - 1] && t[q] == s[q];
      } else {
        assert t[p] == s[p] && t[q] == s[q];
      }
    }
    forall q | j - 1 < q <= i ensures IpLe(t[j - 1], t[q]) {
      if q > j {
        assert t[j - 1] == s[j] && t[q] == s[q];
      }
    }
  }

  /** Once `s[j]` is not below its left neighbour, the prefix `s[..i+1]` is sorted. */
  lemma InsertionDone(s: seq<HostRecord>, i: nat, j: nat)
    requires j <= i < |s| && AllKeyed(s)
    requires Inserting(s, i, j)
    requires j > 0 ==> !IpLess(s[j], s[j - 1])
    ensures SortedByIp(s[..i + 1])
  {
    forall p, q | 0 <= p < q <= i ensures IpLe(s[p], s[q]) {
      if q == j && p < j - 1 {
        LexLeTotalPreorder(IpKey(s[p].ip).value, IpKey(s[j - 1].ip).value, IpKey(s[j].ip).value);
      }
    }
  }

  /** Moves `a[i]` left past the records with a greater key, so that `a[..i+1]` is sorted. */
  method InsertLast(a: array<HostRecord>, i: nat)
    requires i < a.Length
    requires AllKeyed(a[..])
    requires SortedByIp(a[..i])
    modifies a
    ensures AllKeyed(a[..])
    ensures SortedByIp(a[..i + 1])
    ensures multiset(a[..]) == multiset(old(a[..]))
  {
    var j := i;
    assert Inserting(a[..], i, j) by {
      forall p, q | 0 <= p < q <= i && p != j && q != j ensures IpLe(a[..][p], a[..][q]) {
        assert a[..i][p] == a[p] && a[..i][q] == a[q];
      }
    }
    while j > 0 && IpLess(a[j], a[j - 1])
      invariant 0 <= j <= i
      invariant AllKeyed(a[..]) && Inserting(a[..], i, j)
      invariant multiset(a[..]) == multiset(old(a[..]))
    {
      InsertionSwap(a[..], i, j);
      a[j - 1], a[j] := a[j], a[j - 1];
      j := j - 1;
    }
    InsertionDone(a[..], i, j);
  }

  /** `network_metadata`, without the timestamp. */
  datatype NetworkMetadata = NetworkMetadata(id: string, domain: string, totalNodes: nat)

  /** The snapshot `save` writes and returns. */
  datatype Snapshot = Snapshot(metadata: NetworkMetadata, nodes: seq<HostRecord>)

  /** `int()` raised on a piece of some record's address. */
  datatype SaveError = MalformedAddress

  /**
   * `save(nodes)`: sort the list in place by numeric octet list and attach
   * the metadata, `total_nodes` being the length of the list. Keys are all
   * computed before anything moves, so an address that does not parse
   * leaves the list as it was.
   */
  method Save(config: NetworkConfig, nodes: array<HostRecord>) returns (r: Result<Snapshot, SaveError>)
    modifies nodes
    ensures r.Failure? <==> exists k :: 0 <= k < nodes.Length && !HasKey(old(nodes[k]))
    ensures r.Failure? ==> nodes[..] == old(nodes[..])
    ensures r.Success? ==>
      && SortedByIp(nodes[..])
      && multiset(nodes[..]) == multiset(old(nodes[..]))
      && r.value == Snapshot(NetworkMetadata(config.id, config.domain, nodes.Length), nodes[..])
  {
    var k := 0;
    while k < nodes.Length
      invariant 0 <= k <= nodes.Length
      invariant forall m :: 0 <= m < k ==> HasKey(nodes[m])
    {
      if !HasKey(nodes[k]) {
        return Failure(MalformedAddress);
      }
      k := k + 1;
    }
    SortByIp(nodes);
    r := Success(Snapshot(NetworkMetadata(config.id, config.domain, nodes.Length), nodes[..]));
  }

  /**
   * Under one numeric base address with distinct host octets, the sorted
   * order is strictly ascending numeric octet order (`.2` before `.10`).
   */
  lemma SortedOctetsAscend(base: string, nodes: seq<HostRecord>, octets: seq<nat>)
    requires IpKey(base).Some?
    requires |octets| == |nodes|
    requires forall k :: 0 <= k < |nodes| ==> nodes[k].ip == base + "." + ShowNat(octets[k])
    requires forall i, j :: 0 <= i < j < |octets| ==> octets[i] != octets[j]
    requires SortedByIp(nodes)
    ensures forall i, j :: 0 <= i < j < |nodes| ==> octets[i] < octets[j]
  {
    forall i, j | 0 <= i < j < |nodes| ensures octets[i] < octets[j] {
      SameBaseOrder(base, octets[i], octets[j]);
    }
  }
}
