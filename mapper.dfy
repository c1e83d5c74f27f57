/**
 * ProxmoxGPUMapper: the client that scans the cluster and registers one PCI
 * mapping per GPU. Its settings are fixed at construction; every request
 * goes to the cluster object, which answers it and logs it.
 */
module GpuMapper {
  import opened Wrappers
  import opened Text
  import opened Pci
  import opened Naming
  import opened Mapping
  import opened Cluster
  import opened Scan

  class ProxmoxGpuMapper {
    const apiUrl: string
    const tokenId: string
    const tokenValue: string
    const verifySsl: bool

    /** The base URL is stored without trailing slashes. */
    constructor (apiUrl: string, tokenId: string, tokenValue: string, verifySsl: bool)
      ensures this.apiUrl == RStrip(apiUrl, '/') && this.apiUrl == apiUrl[..|this.apiUrl|]
      ensures this.apiUrl == [] || this.apiUrl[|this.apiUrl| - 1] != '/'
      ensures this.tokenId == tokenId && this.tokenValue == tokenValue && this.verifySsl == verifySsl
    {
      this.apiUrl := RStrip(apiUrl, '/');
      this.tokenId := tokenId;
      this.tokenValue := tokenValue;
      this.verifySsl := verifySsl;
    }

    /** Sends one request: form-encoded when there is a form, JSON otherwise. */
    method ApiRequest(cluster: ClusterApi, verb: Verb, path: string, form: seq<(string, string)>) returns (reply: Reply)
      modifies cluster
      ensures reply == Answer(cluster.nodes, cluster.pci, cluster.refused, old(cluster.mappings), MakeCall(apiUrl, verb, path, form))
      ensures cluster.mappings == Apply(cluster.refused, old(cluster.mappings), MakeCall(apiUrl, verb, path, form))
      ensures cluster.log == old(cluster.log) + [MakeCall(apiUrl, verb, path, form)]
    {
      var url := apiUrl + "/" + LStrip(path, '/');
      var body := if form != [] then FormBody(form) else JsonBody;
      reply := cluster.Handle(Call(verb, path, url, body));
    }

    /** The PCI list of a node; a failed request gives []. */
    method FetchPciDevices(cluster: ClusterApi, node: string) returns (records: seq<PciRecord>)
      modifies cluster
      ensures records == PciOf(cluster.pci, node)
      ensures cluster.mappings == old(cluster.mappings)
      ensures cluster.log == old(cluster.log) + [MakeCall(apiUrl, Get, PciPath(node), [])]
    {
      FetchAnswer(apiUrl, cluster.nodes, cluster.pci, cluster.refused, cluster.mappings, node);
      var response := ApiRequest(cluster, Get, PciPath(node), []);
      if !response.PciData? || response.records == [] {
        return [];
      }
      records := response.records;
    }

    /**
     * DELETE the mapping (a failure is ignored), then POST it anew with one
     * entry per device. When the cluster accepts both requests the mapping
     * ends up holding exactly these entries; a refused POST is only reported.
     */
    method CreateGpuMapping(cluster: ClusterApi, mappingId: string, devices: seq<GpuDevice>)
      modifies cluster
      ensures cluster.log == old(cluster.log) + UpsertCalls(apiUrl, mappingId, MapEntries(devices))
      ensures cluster.mappings == UpsertResult(cluster.refused, old(cluster.mappings), apiUrl, mappingId, MapEntries(devices))
    {
      UpsertSteps(apiUrl, cluster.nodes, cluster.pci, cluster.refused, cluster.mappings, mappingId, MapEntries(devices));
      var deleted := ApiRequest(cluster, Delete, MappingPath(mappingId), []);
      var mapEntries, formData := BuildForm(mappingId, devices);
      var created := ApiRequest(cluster, Post, MappingRoot, formData);
    }

    /**
     * One scan: list the nodes, fetch and parse each named node's PCI data,
     * then register every GPU found under its mapping id.
     */
    method ScanAndMapGpus(cluster: ClusterApi, lastSeen: string)
      modifies cluster
      ensures cluster.log == old(cluster.log) + ScanCalls(apiUrl, cluster.nodes, cluster.pci, lastSeen)
      ensures cluster.mappings == ReplayAll(cluster.refused, old(cluster.mappings),
                                            UpsertAll(apiUrl, Registrations(ScanGpus(cluster.nodes, cluster.pci, lastSeen))))
      ensures (forall c :: c in UpsertAll(apiUrl, Registrations(ScanGpus(cluster.nodes, cluster.pci, lastSeen))) ==> c !in cluster.refused) ==>
              cluster.mappings == Install(old(cluster.mappings), Registrations(ScanGpus(cluster.nodes, cluster.pci, lastSeen)))
    {
      ghost var rs := Registrations(ScanGpus(cluster.nodes, cluster.pci, lastSeen));
      if forall c :: c in UpsertAll(apiUrl, rs) ==> c !in cluster.refused {
        ReplayUpsertAll(apiUrl, cluster.refused, cluster.mappings, rs);
      }
      NodesAnswer(apiUrl, cluster.nodes, cluster.pci, cluster.refused, cluster.mappings);
      ScanCallsSplit(apiUrl, cluster.nodes, cluster.pci, lastSeen);
      var nodesResponse := ApiRequest(cluster, Get, NodesPath, []);
      if !nodesResponse.NodesData? {
        return;
      }
      var nodes := NodeList(nodesResponse.payload);
      assert nodes == NodeDescs(cluster.nodes);
      if nodes == [] {
        return;
      }
      ghost var first := cluster.log;
      var order, gpusPerNode := CollectGpus(cluster, nodes, lastSeen);
      GroupCharacterised(cluster.pci, Names(nodes), lastSeen);
      assert ScanGpus(cluster.nodes, cluster.pci, lastSeen) == Flatten(order, gpusPerNode);
      ghost var fetches := FetchCalls(apiUrl, Names(nodes));
      ghost var upserts := UpsertAll(apiUrl, Registrations(Flatten(order, gpusPerNode)));
      AppendAssoc(old(cluster.log), [MakeCall(apiUrl, Get, NodesPath, [])], fetches + upserts);
      AppendAssoc(first, fetches, upserts);
      if gpusPerNode == map[] {
        assert Registrations(Flatten(order, gpusPerNode)) == [];
        assert fetches + upserts == fetches;
        return;
      }
      RegisterGpus(cluster, order, gpusPerNode);
    }

    /** The first loop of a scan: fetch and parse every named node, keeping the nodes that have GPUs. */
    method CollectGpus(cluster: ClusterApi, nodes: seq<NodeDesc>, lastSeen: string)
      returns (order: seq<string>, gpusPerNode: map<string, seq<GpuDevice>>)
      modifies cluster
      ensures Table(order, gpusPerNode) == Group(cluster.pci, Names(nodes), lastSeen)
      ensures cluster.log == old(cluster.log) + FetchCalls(apiUrl, Names(nodes))
      ensures cluster.mappings == old(cluster.mappings)
    {
      order, gpusPerNode := [], map[];
      ghost var names: seq<string> := [];
      ghost var log0 := cluster.log;
      for i := 0 to |nodes|
        invariant names == Names(nodes[..i])
        invariant Table(order, gpusPerNode) == Group(cluster.pci, names, lastSeen)
        invariant cluster.log == log0 + FetchCalls(apiUrl, names)
        invariant cluster.mappings == old(cluster.mappings)
      {
        NamesSnoc(nodes, i);
        var nodeName := NodeName(nodes[i]);
        if nodeName.None? {
          continue;
        }
        var name := nodeName.value;
        CollectSnoc(apiUrl, cluster.pci, names, name, lastSeen);
        AppendAssoc(log0, FetchCalls(apiUrl, names), [MakeCall(apiUrl, Get, PciPath(name), [])]);
        order, gpusPerNode := CollectNode(cluster, name, lastSeen, order, gpusPerNode);
        names := names + [name];
      }
      assert nodes[..|nodes|] == nodes;
    }

    /** The body of the first loop for a named node: fetch its PCI list and store its GPUs, if any. */
    method CollectNode(cluster: ClusterApi, name: string, lastSeen: string, order: seq<string>, gpusPerNode: map<string, seq<GpuDevice>>)
      returns (order': seq<string>, gpusPerNode': map<string, seq<GpuDevice>>)
      modifies cluster
      ensures Table(order', gpusPerNode') == AddNode(Table(order, gpusPerNode), name, Parse(name, PciOf(cluster.pci, name), lastSeen))
      ensures cluster.log == old(cluster.log) + [MakeCall(apiUrl, Get, PciPath(name), [])]
      ensures cluster.mappings == old(cluster.mappings)
    {
      order', gpusPerNode' := order, gpusPerNode;
      var pciData := FetchPciDevices(cluster, name);
      var gpuDevices := ParsePciData(name, pciData, lastSeen);
      if gpuDevices != [] {
        if name !in gpusPerNode {
          order' := order + [name];
        }
        gpusPerNode' := gpusPerNode[name := gpuDevices];
      }
    }

    /** The second loop of a scan: one mapping per GPU, node after node in key order. */
    method RegisterGpus(cluster: ClusterApi, order: seq<string>, gpusPerNode: map<string, seq<GpuDevice>>)
      requires forall n :: n in order ==> n in gpusPerNode
      modifies cluster
      ensures cluster.log == old(cluster.log) + UpsertAll(apiUrl, Registrations(Flatten(order, gpusPerNode)))
      ensures cluster.mappings == ReplayAll(cluster.refused, old(cluster.mappings), UpsertAll(apiUrl, Registrations(Flatten(order, gpusPerNode))))
    {
      ghost var done: seq<GpuDevice> := [];
      for j := 0 to |order|
        invariant done == Flatten(order[..j], gpusPerNode)
        invariant cluster.log == old(cluster.log) + UpsertAll(apiUrl, Registrations(done))
        invariant cluster.mappings == ReplayAll(cluster.refused, old(cluster.mappings), UpsertAll(apiUrl, Registrations(done)))
      {
        assert order[..j + 1][..j] == order[..j];
        var gpus := gpusPerNode[order[j]];
        RegisterNode(cluster, gpus, old(cluster.log), old(cluster.mappings), done);
        done := done + gpus;
      }
      assert order[..|order|] == order;
    }

    /** The inner loop: one mapping per GPU of one node, after the GPUs done so far. */
    method RegisterNode(cluster: ClusterApi, gpus: seq<GpuDevice>, ghost log0: seq<Call>, ghost store0: Store, ghost done: seq<GpuDevice>)
      requires cluster.log == log0 + UpsertAll(apiUrl, Registrations(done))
      requires cluster.mappings == ReplayAll(cluster.refused, store0, UpsertAll(apiUrl, Registrations(done)))
      modifies cluster
      ensures cluster.log == log0 + UpsertAll(apiUrl, Registrations(done + gpus))
      ensures cluster.mappings == ReplayAll(cluster.refused, store0, UpsertAll(apiUrl, Registrations(done + gpus)))
    {
      assert done + gpus[..0] == done;
      for k := 0 to |gpus|
        invariant cluster.log == log0 + UpsertAll(apiUrl, Registrations(done + gpus[..k]))
        invariant cluster.mappings == ReplayAll(cluster.refused, store0, UpsertAll(apiUrl, Registrations(done + gpus[..k])))
      {
        var gpu := gpus[k];
        var mappingId := MappingId(gpu.vendorId, gpu.deviceId, gpu.description, gpu.index);
        ghost var before := done + gpus[..k];
        SnocSlice(done, gpus, k);
        assert mappingId == DeviceMappingId(gpu);
        RegisterStep(apiUrl, cluster.refused, store0, log0, cluster.log, before, gpu);
        CreateGpuMapping(cluster, mappingId, [gpu]);
      }
      assert gpus[..|gpus|] == gpus;
    }
  }
}
