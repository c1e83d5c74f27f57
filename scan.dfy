/**
 * What one run of scan_and_map_gpus does, as functions of the cluster's
 * node list and PCI data: the requests it sends, in order, and the GPUs it
 * registers. The state-changing mapper in GpuMapper is proved against these.
 */
module Scan {
  import opened Wrappers
  import opened Text
  import opened Pci
  import opened Naming
  import opened Mapping
  import opened Cluster

  /** The call api_request sends: the URL from the stored base, a form body only for a non-empty form. */
  function MakeCall(apiUrl: string, verb: Verb, path: string, form: seq<(string, string)>): Call {
    Call(verb, path, RequestUrl(apiUrl, path), if form != [] then FormBody(form) else JsonBody)
  }

  /** The PCI list of a node as fetch_pci_devices returns it: [] when the request fails. */
  function Fetched(reply: Reply): seq<PciRecord> {
    if reply.PciData? then reply.records else []
  }

  /** The PCI data the cluster holds for a node, or [] when it holds none. */
  function PciOf(pci: map<string, seq<PciRecord>>, node: string): seq<PciRecord> {
    if node in pci then pci[node] else []
  }

  /** The names of the node descriptors that have one, in list order. */
  function Names(descs: seq<NodeDesc>): seq<string> {
    if descs == [] then []
    else
      Names(descs[..|descs| - 1])
      + (match NodeName(descs[|descs| - 1]) case None => [] case Some(n) => [n])
  }

  /** One GET of the PCI list per named node. */
  function FetchCalls(apiUrl: string, names: seq<string>): seq<Call> {
    if names == [] then []
    else FetchCalls(apiUrl, names[..|names| - 1]) + [MakeCall(apiUrl, Get, PciPath(names[|names| - 1]), [])]
  }

  /** gpus_per_node: a dictionary, so its keys keep the order of first insertion. */
  datatype Table = Table(order: seq<string>, gpus: map<string, seq<GpuDevice>>)

  /** The table after visiting the named nodes: a node with GPUs gets (or overwrites) its entry. */
  function Group(pci: map<string, seq<PciRecord>>, names: seq<string>, lastSeen: string): Table {
    if names == [] then Table([], map[])
    else
      var t := Group(pci, names[..|names| - 1], lastSeen);
      var n := names[|names| - 1];
      AddNode(t, n, Parse(n, PciOf(pci, n), lastSeen))
  }

  /** Storing the GPUs of node n: a new key goes last, an existing key keeps its place; no GPUs, no change. */
  function AddNode(t: Table, n: string, gs: seq<GpuDevice>): Table {
    if gs == [] then t
    else Table(if n in t.gpus then t.order else t.order + [n], t.gpus[n := gs])
  }

  /** The GPUs of the table, node after node in key order (gpus_per_node.items()). */
  function Flatten(order: seq<string>, gpus: map<string, seq<GpuDevice>>): seq<GpuDevice> {
    if order == [] then []
    else
      Flatten(order[..|order| - 1], gpus)
      + (if order[|order| - 1] in gpus then gpus[order[|order| - 1]] else [])
  }

  /** One mapping the scan registers: its id and its entries. */
  datatype Registration = Registration(mappingId: string, entries: seq<string>)

  /** Each GPU is registered alone, under its own mapping id (create_gpu_mapping(mapping_id, [gpu])). */
  function Registrations(gs: seq<GpuDevice>): seq<Registration> {
    seq(|gs|, k requires 0 <= k < |gs| => Registration(DeviceMappingId(gs[k]), MapEntries([gs[k]])))
  }

  /** create_gpu_mapping's requests: DELETE of the mapping, then the POST that creates it. */
  function UpsertCalls(apiUrl: string, mappingId: string, entries: seq<string>): seq<Call> {
    [MakeCall(apiUrl, Delete, MappingPath(mappingId), []),
     MakeCall(apiUrl, Post, MappingRoot, FormData(mappingId, entries))]
  }

  /** The requests of a sequence of registrations, one upsert after the other. */
  function UpsertAll(apiUrl: string, rs: seq<Registration>): seq<Call> {
    if rs == [] then []
    else UpsertAll(apiUrl, rs[..|rs| - 1]) + UpsertCalls(apiUrl, rs[|rs| - 1].mappingId, rs[|rs| - 1].entries)
  }

  /** The node descriptors of a successful GET nodes, [] when it failed. */
  function NodeDescs(nodes: Option<NodesPayload>): seq<NodeDesc> {
    match nodes case None => [] case Some(p) => NodeList(p)
  }

  /** The GPUs one scan registers, in the order it registers them. */
  function ScanGpus(nodes: Option<NodesPayload>, pci: map<string, seq<PciRecord>>, lastSeen: string): seq<GpuDevice> {
    var t := Group(pci, Names(NodeDescs(nodes)), lastSeen);
    Flatten(t.order, t.gpus)
  }

  /** Every request of one scan: GET nodes, then (with a node list) the PCI fetches and the mapping upserts. */
  function ScanCalls(apiUrl: string, nodes: Option<NodesPayload>, pci: map<string, seq<PciRecord>>, lastSeen: string): seq<Call> {
    [MakeCall(apiUrl, Get, NodesPath, [])]
    + (if NodeDescs(nodes) == [] then []
       else FetchCalls(apiUrl, Names(NodeDescs(nodes))) + UpsertAll(apiUrl, Registrations(ScanGpus(nodes, pci, lastSeen))))
  }

  /** The mappings after the registrations, one after the other: each id holds its entries. */
  function Install(store: Store, rs: seq<Registration>): Store {
    if rs == [] then store
    else Install(store, rs[..|rs| - 1])[rs[|rs| - 1].mappingId := rs[|rs| - 1].entries]
  }

  // ---------------------------------------------------------------------
  // How the cluster answers the requests of a scan

  /** GET nodes yields the node data when the cluster has it and fails otherwise; it changes no mapping. */
  lemma NodesAnswer(apiUrl: string, nodes: Option<NodesPayload>, pci: map<string, seq<PciRecord>>, r: set<Call>, m: Store)
    ensures var c := MakeCall(apiUrl, Get, NodesPath, []);
      && Answer(nodes, pci, r, m, c) == (match nodes case None => Failed case Some(p) => NodesData(p))
      && Apply(r, m, c) == m
  {
  }

  /** A PCI fetch yields the node's PCI list, or [] when the cluster has none; it changes no mapping. */
  lemma FetchAnswer(apiUrl: string, nodes: Option<NodesPayload>, pci: map<string, seq<PciRecord>>, r: set<Call>, m: Store, node: string)
    ensures var c := MakeCall(apiUrl, Get, PciPath(node), []);
      && Fetched(Answer(nodes, pci, r, m, c)) == PciOf(pci, node)
      && Apply(r, m, c) == m
  {
    var c := MakeCall(apiUrl, Get, PciPath(node), []);
    assert c.verb == Get && !Refuses(r, c);
    PathsRoundTrip(node, "");
  }

  /** The cluster reads back from the form the mapping id and the entries, in order. */
  lemma {:induction false} FormDataValues(mappingId: string, entries: seq<string>)
    ensures FormValues(FormData(mappingId, entries), "id") == [mappingId]
    ensures FormValues(FormData(mappingId, entries), "map") == entries
  {
    if entries == [] {
      var f := FormData(mappingId, entries);
      assert f == [("id", mappingId)];
      assert f[..|f| - 1] == [];
    } else {
      var e := entries[..|entries| - 1];
      FormDataValues(mappingId, e);
      var f := FormData(mappingId, entries);
      assert f[..|f| - 1] == FormData(mappingId, e);
      assert entries == e + [entries[|entries| - 1]];
    }
  }

  /**
   * What one upsert leaves: the new entries, unless the cluster refuses a
   * request. A refused create leaves the mapping deleted; a refused DELETE
   * of an existing mapping makes the create fail too, so nothing changes.
   */
  function UpsertResult(refused: set<Call>, m: Store, apiUrl: string, mappingId: string, entries: seq<string>): Store {
    var cs := UpsertCalls(apiUrl, mappingId, entries);
    if cs[0] in refused && mappingId in m then m
    else if cs[1] in refused then m - {mappingId}
    else m[mappingId := entries]
  }

  /**
   * The DELETE of an upsert succeeds exactly when the mapping exists and the
   * DELETE is not refused; the POST is sent either way and succeeds exactly
   * when it is not refused and the id is free.
   */
  lemma UpsertSteps(apiUrl: string, nodes: Option<NodesPayload>, pci: map<string, seq<PciRecord>>, r: set<Call>, m: Store,
                    mappingId: string, entries: seq<string>)
    ensures var cs := UpsertCalls(apiUrl, mappingId, entries);
      var m1 := Apply(r, m, cs[0]);
      && |cs| == 2 && cs[0].verb == Delete && cs[1].verb == Post
      && Answer(nodes, pci, r, m, cs[0]) == (if mappingId in m && cs[0] !in r then Done else Failed)
      && m1 == (if cs[0] in r then m else m - {mappingId})
      && Answer(nodes, pci, r, m1, cs[1]) == (if cs[1] in r || mappingId in m1 then Failed else Done)
      && Apply(r, m1, cs[1]) == UpsertResult(r, m, apiUrl, mappingId, entries)
  {
    var cs := UpsertCalls(apiUrl, mappingId, entries);
    assert cs[0].verb == Delete && cs[0].path == MappingPath(mappingId);
    DeleteStep(nodes, pci, r, m, mappingId, cs[0]);
    var m1 := Apply(r, m, cs[0]);
    assert cs[1].body == FormBody(FormData(mappingId, entries));
    PostStep(nodes, pci, r, m1, mappingId, entries, cs[1]);
    if cs[0] !in r {
      assert (m - {mappingId})[mappingId := entries] == m[mappingId := entries];
    } else if mappingId !in m {
      assert m - {mappingId} == m;
    }
  }

  /** A DELETE of a mapping path (whatever its URL) fails when refused or when the id is absent. */
  lemma DeleteStep(nodes: Option<NodesPayload>, pci: map<string, seq<PciRecord>>, r: set<Call>, m: Store,
                   mappingId: string, c: Call)
    requires c.verb == Delete && c.path == MappingPath(mappingId)
    ensures Answer(nodes, pci, r, m, c) == (if mappingId in m && c !in r then Done else Failed)
    ensures Apply(r, m, c) == (if c in r then m else m - {mappingId})
  {
    PathsRoundTrip("", mappingId);
  }

  /** A POST of the mapping form (whatever its URL) fails when refused or when the id is taken. */
  lemma PostStep(nodes: Option<NodesPayload>, pci: map<string, seq<PciRecord>>, r: set<Call>, m: Store,
                 mappingId: string, entries: seq<string>, c: Call)
    requires c.verb == Post && c.path == MappingRoot && c.body == FormBody(FormData(mappingId, entries))
    ensures Answer(nodes, pci, r, m, c) == (if c in r || mappingId in m then Failed else Done)
    ensures Apply(r, m, c) == (if c in r || mappingId in m then m else m[mappingId := entries])
  {
    FormDataValues(mappingId, entries);
    assert Creates(m, c) <==> mappingId !in m;
  }

  /**
   * An upsert leaves UpsertResult: with neither request refused the id holds
   * the new entries whatever it held before; with the create refused after
   * a DELETE that went through, the id is absent. No other mapping changes.
   */
  lemma ReplayUpsert(apiUrl: string, r: set<Call>, m: Store, mappingId: string, entries: seq<string>)
    ensures var cs, m' := UpsertCalls(apiUrl, mappingId, entries), ReplayAll(r, m, UpsertCalls(apiUrl, mappingId, entries));
      && m' == UpsertResult(r, m, apiUrl, mappingId, entries)
      && (cs[0] !in r && cs[1] !in r ==> m' == m[mappingId := entries])
      && (cs[1] in r && (cs[0] !in r || mappingId !in m) ==> mappingId !in m')
      && (forall id :: id != mappingId ==> (id in m' <==> id in m) && (id in m ==> m'[id] == m[id]))
  {
    var cs := UpsertCalls(apiUrl, mappingId, entries);
    UpsertSteps(apiUrl, None, map[], r, m, mappingId, entries);
    ReplayTwo(r, m, cs);
    UpsertResultCases(r, m, apiUrl, mappingId, entries);
  }

  lemma ReplayTwo(r: set<Call>, m: Store, cs: seq<Call>)
    requires |cs| == 2
    ensures ReplayAll(r, m, cs) == Apply(r, Apply(r, m, cs[0]), cs[1])
  {
    var c1 := cs[..1];
    assert c1[..|c1| - 1] == [] && c1[|c1| - 1] == cs[0];
    assert ReplayAll(r, m, c1) == Apply(r, m, cs[0]);
    assert cs[..|cs| - 1] == c1;
  }

  lemma UpsertResultCases(r: set<Call>, m: Store, apiUrl: string, mappingId: string, entries: seq<string>)
    ensures var cs, m' := UpsertCalls(apiUrl, mappingId, entries), UpsertResult(r, m, apiUrl, mappingId, entries);
      && (cs[0] !in r && cs[1] !in r ==> m' == m[mappingId := entries])
      && (cs[1] in r && (cs[0] !in r || mappingId !in m) ==> mappingId !in m')
      && (forall id :: id != mappingId ==> (id in m' <==> id in m) && (id in m ==> m'[id] == m[id]))
  {
  }

  // ---------------------------------------------------------------------
  // The shape of the request trace

  /** Named nodes are exactly those whose descriptor yields a name; the others are skipped. */
  lemma {:induction false} NamesMembers(descs: seq<NodeDesc>, n: string)
    ensures n in Names(descs) <==> exists i :: 0 <= i < |descs| && NodeName(descs[i]) == Some(n)
  {
    if descs != [] {
      var init := descs[..|descs| - 1];
      NamesMembers(init, n);
      if n in Names(descs) && n !in Names(init) {
        assert NodeName(descs[|descs| - 1]) == Some(n);
      }
      if exists i :: 0 <= i < |descs| && NodeName(descs[i]) == Some(n) {
        var i :| 0 <= i < |descs| && NodeName(descs[i]) == Some(n);
        if i < |descs| - 1 {
          assert init[i] == descs[i];
        }
      }
    }
  }

  /** One PCI fetch per named node, in node-list order. */
  lemma {:induction false} FetchCallsShape(apiUrl: string, names: seq<string>)
    ensures |FetchCalls(apiUrl, names)| == |names|
    ensures forall k :: 0 <= k < |names| ==> FetchCalls(apiUrl, names)[k] == MakeCall(apiUrl, Get, PciPath(names[k]), [])
  {
    if names != [] {
      FetchCallsShape(apiUrl, names[..|names| - 1]);
    }
  }

  /** Registration k is GPU k's mapping id with GPU k's single entry. */
  lemma RegistrationsShape(gs: seq<GpuDevice>)
    ensures |Registrations(gs)| == |gs|
    ensures forall k :: 0 <= k < |gs| ==> Registrations(gs)[k] == Registration(DeviceMappingId(gs[k]), [MapEntry(gs[k])])
  {
    forall k | 0 <= k < |gs| ensures Registrations(gs)[k] == Registration(DeviceMappingId(gs[k]), [MapEntry(gs[k])]) {
      MapEntriesOne(gs[k]);
    }
  }

  lemma MapEntriesOne(g: GpuDevice)
    ensures MapEntries([g]) == [MapEntry(g)]
  {
    assert [g][..0] == [];
  }

  lemma RegistrationsSnoc(gs: seq<GpuDevice>, g: GpuDevice)
    ensures Registrations(gs + [g]) == Registrations(gs) + [Registration(DeviceMappingId(g), MapEntries([g]))]
  {
  }

  /**
   * Each registration contributes two consecutive requests: the DELETE of
   * its mapping, then the POST creating it with its entries.
   */
  lemma UpsertAllOrder(apiUrl: string, rs: seq<Registration>)
    ensures |UpsertAll(apiUrl, rs)| == 2 * |rs|
    ensures forall k :: 0 <= k < |rs| ==>
      && UpsertAll(apiUrl, rs)[2 * k] == MakeCall(apiUrl, Delete, MappingPath(rs[k].mappingId), [])
      && UpsertAll(apiUrl, rs)[2 * k + 1] == MakeCall(apiUrl, Post, MappingRoot, FormData(rs[k].mappingId, rs[k].entries))
  {
    UpsertAllLength(apiUrl, rs);
    forall k | 0 <= k < |rs|
      ensures UpsertAll(apiUrl, rs)[2 * k] == MakeCall(apiUrl, Delete, MappingPath(rs[k].mappingId), [])
      ensures UpsertAll(apiUrl, rs)[2 * k + 1] == MakeCall(apiUrl, Post, MappingRoot, FormData(rs[k].mappingId, rs[k].entries))
    {
      UpsertPair(apiUrl, rs, k);
    }
  }

  lemma {:induction false} UpsertAllLength(apiUrl: string, rs: seq<Registration>)
    ensures |UpsertAll(apiUrl, rs)| == 2 * |rs|
  {
    if rs != [] {
      UpsertAllLength(apiUrl, rs[..|rs| - 1]);
    }
  }

  lemma {:induction false} UpsertPair(apiUrl: string, rs: seq<Registration>, k: nat)
    requires k < |rs|
    ensures |UpsertAll(apiUrl, rs)| == 2 * |rs|
    ensures UpsertAll(apiUrl, rs)[2 * k..2 * k + 2] == UpsertCalls(apiUrl, rs[k].mappingId, rs[k].entries)
  {
    var init := rs[..|rs| - 1];
    UpsertAllLength(apiUrl, rs);
    UpsertAllLength(apiUrl, init);
    var a := UpsertAll(apiUrl, init);
    var b := UpsertCalls(apiUrl, rs[|rs| - 1].mappingId, rs[|rs| - 1].entries);
    assert UpsertAll(apiUrl, rs) == a + b;
    PairOfAppend(a, b, k);
    if k < |init| {
      UpsertPair(apiUrl, init, k);
      assert init[k] == rs[k] && 2 * k < |a|;
    } else {
      assert 2 * k == |a|;
    }
  }

  lemma PairOfAppend(a: seq<Call>, b: seq<Call>, k: nat)
    requires |a| % 2 == 0 && |b| == 2 && 2 * k < |a| + |b|
    ensures 2 * k < |a| ==> (a + b)[2 * k..2 * k + 2] == a[2 * k..2 * k + 2]
    ensures 2 * k == |a| ==> (a + b)[2 * k..2 * k + 2] == b
  {
  }

  /** Registering one more GPU adds its upsert to the trace, and the mappings become that upsert's result. */
  lemma RegisterStep(apiUrl: string, refused: set<Call>, m: Store, log0: seq<Call>, log: seq<Call>, gs: seq<GpuDevice>, g: GpuDevice)
    requires log == log0 + UpsertAll(apiUrl, Registrations(gs))
    ensures log + UpsertCalls(apiUrl, DeviceMappingId(g), MapEntries([g])) == log0 + UpsertAll(apiUrl, Registrations(gs + [g]))
    ensures ReplayAll(refused, m, UpsertAll(apiUrl, Registrations(gs + [g]))) ==
      UpsertResult(refused, ReplayAll(refused, m, UpsertAll(apiUrl, Registrations(gs))), apiUrl, DeviceMappingId(g), MapEntries([g]))
  {
    var rs, r := Registrations(gs), Registration(DeviceMappingId(g), MapEntries([g]));
    RegistrationsSnoc(gs, g);
    SnocSteps(apiUrl, m, rs, r);
    AppendAssoc(log0, UpsertAll(apiUrl, rs), UpsertCalls(apiUrl, r.mappingId, r.entries));
    ReplayAllAppend(refused, m, UpsertAll(apiUrl, rs), UpsertCalls(apiUrl, r.mappingId, r.entries));
    ReplayUpsert(apiUrl, refused, ReplayAll(refused, m, UpsertAll(apiUrl, rs)), r.mappingId, r.entries);
  }

  lemma SnocSteps(apiUrl: string, m: Store, rs: seq<Registration>, r: Registration)
    ensures UpsertAll(apiUrl, rs + [r]) == UpsertAll(apiUrl, rs) + UpsertCalls(apiUrl, r.mappingId, r.entries)
    ensures Install(m, rs + [r]) == Install(m, rs)[r.mappingId := r.entries]
  {
    assert (rs + [r])[..|rs|] == rs;
  }

  lemma SnocSlice(done: seq<GpuDevice>, gpus: seq<GpuDevice>, k: nat)
    requires k < |gpus|
    ensures done + gpus[..k + 1] == (done + gpus[..k]) + [gpus[k]]
  {
    assert gpus[..k + 1] == gpus[..k] + [gpus[k]];
  }

  /** One more node description adds its name, or nothing when it has none. */
  lemma NamesSnoc(descs: seq<NodeDesc>, i: nat)
    requires i < |descs|
    ensures NodeName(descs[i]).None? ==> Names(descs[..i + 1]) == Names(descs[..i])
    ensures NodeName(descs[i]).Some? ==> Names(descs[..i + 1]) == Names(descs[..i]) + [NodeName(descs[i]).value]
  {
    assert descs[..i + 1][..i] == descs[..i];
  }

  /** One more named node adds one fetch and updates the table as the scan loop does. */
  lemma CollectSnoc(apiUrl: string, pci: map<string, seq<PciRecord>>, names: seq<string>, n: string, lastSeen: string)
    ensures FetchCalls(apiUrl, names + [n]) == FetchCalls(apiUrl, names) + [MakeCall(apiUrl, Get, PciPath(n), [])]
    ensures Group(pci, names + [n], lastSeen) == AddNode(Group(pci, names, lastSeen), n, Parse(n, PciOf(pci, n), lastSeen))
  {
    assert (names + [n])[..|names|] == names;
  }

  /**
   * A node list answered as a bare list and one answered as an object under
   * "nodes" lead to the same scan; an object without "nodes" counts as no nodes.
   */
  lemma PayloadShapes(apiUrl: string, items: seq<NodeDesc>, fields: map<string, seq<NodeDesc>>,
                      pci: map<string, seq<PciRecord>>, lastSeen: string)
    ensures "nodes" in fields && fields["nodes"] == items ==>
      ScanCalls(apiUrl, Some(NodeObject(fields)), pci, lastSeen) == ScanCalls(apiUrl, Some(NodeArray(items)), pci, lastSeen)
    ensures "nodes" !in fields ==>
      ScanCalls(apiUrl, Some(NodeObject(fields)), pci, lastSeen) == [MakeCall(apiUrl, Get, NodesPath, [])]
  {
    if "nodes" !in fields {
      NoNodesNoRequests(apiUrl, Some(NodeObject(fields)), pci, lastSeen);
    }
  }

  /** With no node list (GET nodes failed or listed none) the scan sends nothing after GET nodes. */
  lemma NoNodesNoRequests(apiUrl: string, nodes: Option<NodesPayload>, pci: map<string, seq<PciRecord>>, lastSeen: string)
    requires NodeDescs(nodes) == []
    ensures ScanCalls(apiUrl, nodes, pci, lastSeen) == [MakeCall(apiUrl, Get, NodesPath, [])]
    ensures ScanGpus(nodes, pci, lastSeen) == []
  {
    assert Names(NodeDescs(nodes)) == [];
  }

  /** The trace of a scan in its three parts. */
  lemma ScanCallsSplit(apiUrl: string, nodes: Option<NodesPayload>, pci: map<string, seq<PciRecord>>, lastSeen: string)
    ensures NodeDescs(nodes) == [] ==>
      ScanCalls(apiUrl, nodes, pci, lastSeen) == [MakeCall(apiUrl, Get, NodesPath, [])] && ScanGpus(nodes, pci, lastSeen) == []
    ensures NodeDescs(nodes) != [] ==>
      ScanCalls(apiUrl, nodes, pci, lastSeen) ==
        [MakeCall(apiUrl, Get, NodesPath, [])]
        + (FetchCalls(apiUrl, Names(NodeDescs(nodes))) + UpsertAll(apiUrl, Registrations(ScanGpus(nodes, pci, lastSeen))))
  {
    if NodeDescs(nodes) == [] {
      NoNodesNoRequests(apiUrl, nodes, pci, lastSeen);
    }
  }

  // ---------------------------------------------------------------------
  // The mappings a scan leaves behind

  lemma {:induction false} ReplayFetches(apiUrl: string, refused: set<Call>, m: Store, names: seq<string>)
    ensures ReplayAll(refused, m, FetchCalls(apiUrl, names)) == m
  {
    if names != [] {
      var init := names[..|names| - 1];
      ReplayFetches(apiUrl, refused, m, init);
      FetchAnswer(apiUrl, None, map[], refused, m, names[|names| - 1]);
      ReplayAllAppend(refused, m, FetchCalls(apiUrl, init), [MakeCall(apiUrl, Get, PciPath(names[|names| - 1]), [])]);
    }
  }

  /** With none of their requests refused, the upserts install the registrations one after the other. */
  lemma {:induction false} ReplayUpsertAll(apiUrl: string, refused: set<Call>, m: Store, rs: seq<Registration>)
    requires forall c :: c in UpsertAll(apiUrl, rs) ==> c !in refused
    ensures ReplayAll(refused, m, UpsertAll(apiUrl, rs)) == Install(m, rs)
  {
    if rs != [] {
      var init, r := rs[..|rs| - 1], rs[|rs| - 1];
      var cs := UpsertCalls(apiUrl, r.mappingId, r.entries);
      assert UpsertAll(apiUrl, rs) == UpsertAll(apiUrl, init) + cs;
      assert cs[0] in UpsertAll(apiUrl, rs) && cs[1] in UpsertAll(apiUrl, rs);
      ReplayUpsertAll(apiUrl, refused, m, init);
      ReplayAllAppend(refused, m, UpsertAll(apiUrl, init), cs);
      ReplayUpsert(apiUrl, refused, Install(m, init), r.mappingId, r.entries);
    }
  }

  /**
   * A refused create after a DELETE that went through leaves its mapping
   * absent at the end, unless a later registration has the same id; the
   * requests of the later registrations are sent all the same (UpsertAllOrder).
   */
  lemma {:induction false} RefusedCreateLeavesAbsent(apiUrl: string, refused: set<Call>, m: Store, rs: seq<Registration>, k: nat)
    requires k < |rs|
    requires UpsertCalls(apiUrl, rs[k].mappingId, rs[k].entries)[0] !in refused
    requires UpsertCalls(apiUrl, rs[k].mappingId, rs[k].entries)[1] in refused
    requires forall l :: k < l < |rs| ==> rs[l].mappingId != rs[k].mappingId
    ensures rs[k].mappingId !in ReplayAll(refused, m, UpsertAll(apiUrl, rs))
  {
    var init, r := rs[..|rs| - 1], rs[|rs| - 1];
    var cs := UpsertCalls(apiUrl, r.mappingId, r.entries);
    assert UpsertAll(apiUrl, rs) == UpsertAll(apiUrl, init) + cs;
    ReplayAllAppend(refused, m, UpsertAll(apiUrl, init), cs);
    ReplayUpsert(apiUrl, refused, ReplayAll(refused, m, UpsertAll(apiUrl, init)), r.mappingId, r.entries);
    if k < |rs| - 1 {
      assert init[k] == rs[k];
      RefusedCreateLeavesAbsent(apiUrl, refused, m, init, k);
    }
  }

  /**
   * Replaying the whole request trace of a scan: only the upserts change
   * mappings, and with no request refused they leave exactly what Install
   * describes.
   */
  lemma ScanReplay(apiUrl: string, nodes: Option<NodesPayload>, pci: map<string, seq<PciRecord>>, lastSeen: string,
                   refused: set<Call>, m: Store)
    ensures var calls, rs := ScanCalls(apiUrl, nodes, pci, lastSeen), Registrations(ScanGpus(nodes, pci, lastSeen));
      && ReplayAll(refused, m, calls) == ReplayAll(refused, m, UpsertAll(apiUrl, rs))
      && ((forall c :: c in calls ==> c !in refused) ==> ReplayAll(refused, m, calls) == Install(m, rs))
  {
    var first := [MakeCall(apiUrl, Get, NodesPath, [])];
    assert ReplayAll(refused, m, first) == m by {
      assert first[..0] == [];
    }
    var calls, rs := ScanCalls(apiUrl, nodes, pci, lastSeen), Registrations(ScanGpus(nodes, pci, lastSeen));
    ScanCallsSplit(apiUrl, nodes, pci, lastSeen);
    if NodeDescs(nodes) != [] {
      var fetches := FetchCalls(apiUrl, Names(NodeDescs(nodes)));
      var upserts := UpsertAll(apiUrl, rs);
      AppendAssoc(first, fetches, upserts);
      ReplayAllAppend(refused, m, first + fetches, upserts);
      ReplayAllAppend(refused, m, first, fetches);
      ReplayFetches(apiUrl, refused, m, Names(NodeDescs(nodes)));
      if forall c :: c in calls ==> c !in refused {
        assert forall c :: c in upserts ==> c in calls;
        ReplayUpsertAll(apiUrl, refused, m, rs);
      }
    } else {
      assert rs == [];
    }
  }

  /** A mapping exists after Install exactly when it existed before or one of the registrations has its id. */
  lemma {:induction false} InstallMembers(m: Store, rs: seq<Registration>, mappingId: string)
    ensures mappingId in Install(m, rs) <==>
      mappingId in m || exists k :: 0 <= k < |rs| && rs[k].mappingId == mappingId
  {
    if rs != [] {
      var init := rs[..|rs| - 1];
      InstallMembers(m, init, mappingId);
      assert forall k :: 0 <= k < |init| ==> init[k] == rs[k];
    }
  }

  /** A mapping no registration names keeps what it held. */
  lemma {:induction false} InstallKeepsOthers(m: Store, rs: seq<Registration>, mappingId: string)
    requires mappingId in m
    requires forall k :: 0 <= k < |rs| ==> rs[k].mappingId != mappingId
    ensures mappingId in Install(m, rs) && Install(m, rs)[mappingId] == m[mappingId]
  {
    if rs != [] {
      InstallKeepsOthers(m, rs[..|rs| - 1], mappingId);
    }
  }

  /** A mapping holds the entries of the last registration with its id. */
  lemma {:induction false} InstallLastWins(m: Store, rs: seq<Registration>, k: nat)
    requires k < |rs|
    requires forall l :: k < l < |rs| ==> rs[l].mappingId != rs[k].mappingId
    ensures rs[k].mappingId in Install(m, rs) && Install(m, rs)[rs[k].mappingId] == rs[k].entries
  {
    var init := rs[..|rs| - 1];
    if k < |rs| - 1 {
      assert init[k] == rs[k];
      InstallLastWins(m, init, k);
    }
  }

  // ---------------------------------------------------------------------
  // Which GPUs a scan registers

  /** Every device Parse produces for a node belongs to that node. */
  lemma ParseNode(node: string, pci: seq<PciRecord>, lastSeen: string)
    ensures forall g :: g in Parse(node, pci, lastSeen) ==> g.node == node
  {
  }

  /**
   * gpus_per_node after the first loop: its keys are exactly the named
   * nodes with at least one GPU, each holding that node's parsed GPUs; the
   * key order lists every key once.
   */
  lemma {:induction false} GroupCharacterised(pci: map<string, seq<PciRecord>>, names: seq<string>, lastSeen: string)
    ensures var t := Group(pci, names, lastSeen);
      && (forall n :: n in t.gpus <==> n in names && Parse(n, PciOf(pci, n), lastSeen) != [])
      && (forall n :: n in t.gpus ==> t.gpus[n] == Parse(n, PciOf(pci, n), lastSeen))
      && (forall n :: n in t.order <==> n in t.gpus)
      && (forall i, j :: 0 <= i < j < |t.order| ==> t.order[i] != t.order[j])
  {
    if names != [] {
      var init, last := names[..|names| - 1], names[|names| - 1];
      GroupCharacterised(pci, init, lastSeen);
      assert names == init + [last];
      AddNodeKeeps(Group(pci, init, lastSeen), last, Parse(last, PciOf(pci, last), lastSeen));
    }
  }

  /** AddNode keeps the key order listing each key once, and changes only the entry of its node. */
  lemma AddNodeKeeps(t: Table, n: string, gs: seq<GpuDevice>)
    requires forall x :: x in t.order <==> x in t.gpus
    requires forall i, j :: 0 <= i < j < |t.order| ==> t.order[i] != t.order[j]
    ensures var t' := AddNode(t, n, gs);
      && (forall x :: x in t'.gpus <==> x in t.gpus || (x == n && gs != []))
      && (forall x :: x in t'.gpus ==> t'.gpus[x] == if x == n && gs != [] then gs else t.gpus[x])
      && (forall x :: x in t'.order <==> x in t'.gpus)
      && (forall i, j :: 0 <= i < j < |t'.order| ==> t'.order[i] != t'.order[j])
  {
  }

  /** The devices of a node in the flattened table: those of the node's entry, each as often as there. */
  lemma {:induction false} FlattenCount(order: seq<string>, gpus: map<string, seq<GpuDevice>>, g: GpuDevice)
    requires forall i, j :: 0 <= i < j < |order| ==> order[i] != order[j]
    requires forall n, x :: n in gpus && x in gpus[n] ==> x.node == n
    ensures multiset(Flatten(order, gpus))[g] ==
      if g.node in order && g.node in gpus then multiset(gpus[g.node])[g] else 0
  {
    if order != [] {
      var init := order[..|order| - 1];
      var last := order[|order| - 1];
      FlattenCount(init, gpus, g);
      var tail := if last in gpus then gpus[last] else [];
      assert multiset(Flatten(order, gpus)) == multiset(Flatten(init, gpus)) + multiset(tail);
      if last == g.node {
        assert g.node !in init;
      } else {
        assert g !in tail;
        assert g.node in order <==> g.node in init;
      }
    }
  }

  /**
   * A scan registers each GPU of each named node exactly as often as Parse
   * lists it for that node, and nothing else.
   */
  lemma ScanGpusCount(nodes: Option<NodesPayload>, pci: map<string, seq<PciRecord>>, lastSeen: string, g: GpuDevice)
    ensures multiset(ScanGpus(nodes, pci, lastSeen))[g] ==
      if g.node in Names(NodeDescs(nodes)) then multiset(Parse(g.node, PciOf(pci, g.node), lastSeen))[g] else 0
  {
    var t := Group(pci, Names(NodeDescs(nodes)), lastSeen);
    GroupCharacterised(pci, Names(NodeDescs(nodes)), lastSeen);
    forall n, x | n in t.gpus && x in t.gpus[n] ensures x.node == n {
      ParseNode(n, PciOf(pci, n), lastSeen);
    }
    FlattenCount(t.order, t.gpus, g);
  }

  /**
   * A GPU is registered exactly when it is one of the parsed GPUs of a named
   * node; in particular a node without GPUs gets no mapping.
   */
  lemma ScanGpusMembers(nodes: Option<NodesPayload>, pci: map<string, seq<PciRecord>>, lastSeen: string, g: GpuDevice)
    ensures g in ScanGpus(nodes, pci, lastSeen) <==>
      exists n :: n in Names(NodeDescs(nodes)) && g in Parse(n, PciOf(pci, n), lastSeen)
    ensures Parse(g.node, PciOf(pci, g.node), lastSeen) == [] ==> g !in ScanGpus(nodes, pci, lastSeen)
  {
    ScanGpusCount(nodes, pci, lastSeen, g);
    if exists n :: n in Names(NodeDescs(nodes)) && g in Parse(n, PciOf(pci, n), lastSeen) {
      var n :| n in Names(NodeDescs(nodes)) && g in Parse(n, PciOf(pci, n), lastSeen);
      ParseNode(n, PciOf(pci, n), lastSeen);
    }
  }

  /** Within one node the ids are distinct, so after registering the node's GPUs each id holds its own GPU's entry. */
  lemma NodeMappingsInstalled(m: Store, node: string, pci: seq<PciRecord>, lastSeen: string)
    ensures var gs := Parse(node, pci, lastSeen);
      forall k :: 0 <= k < |gs| ==>
        DeviceMappingId(gs[k]) in Install(m, Registrations(gs))
        && Install(m, Registrations(gs))[DeviceMappingId(gs[k])] == [MapEntry(gs[k])]
  {
    var gs := Parse(node, pci, lastSeen);
    var rs := Registrations(gs);
    NodeMappingIdsDistinct(node, pci, lastSeen);
    RegistrationsShape(gs);
    forall k | 0 <= k < |gs|
      ensures DeviceMappingId(gs[k]) in Install(m, rs) && Install(m, rs)[DeviceMappingId(gs[k])] == [MapEntry(gs[k])]
    {
      InstallLastWins(m, rs, k);
    }
  }

  /**
   * Mapping ids do not name the node: the same GPU model at the same index
   * on two nodes gets one id. The later registration's DELETE removes the
   * earlier node's mapping and its POST stores only the later node's entry,
   * so the earlier node's GPU is left without a mapping.
   */
  lemma SameIdAcrossNodes(m: Store, g1: GpuDevice, g2: GpuDevice)
    requires g1.vendorId == g2.vendorId && g1.deviceId == g2.deviceId
    requires g1.description == g2.description && g1.index == g2.index
    ensures DeviceMappingId(g1) == DeviceMappingId(g2)
    ensures Install(m, Registrations([g1, g2]))[DeviceMappingId(g1)] == [MapEntry(g2)]
  {
    RegistrationsShape([g1, g2]);
    InstallLastWins(m, Registrations([g1, g2]), 1);
  }
}
