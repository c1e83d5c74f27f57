/**
 * The management API the mapper talks to, seen from the mapper: the shape
 * of the node list, the requests it sends (recorded as calls) and a model
 * of how the cluster answers them. The cluster answers GET requests from
 * fixed data and keeps a store of PCI mappings that DELETE and POST change.
 */
module Cluster {
  import opened Wrappers
  import opened Text
  import opened Pci

  /** One node descriptor of GET nodes: its text fields by key. */
  type NodeDesc = map<string, string>

  /** The data of GET nodes: a bare list, or an object that may hold the list under "nodes". */
  datatype NodesPayload = NodeArray(items: seq<NodeDesc>) | NodeObject(fields: map<string, seq<NodeDesc>>)

  /** The node-list adapter: a list is used as it is, an object gives its "nodes" entry or []. */
  function NodeList(p: NodesPayload): seq<NodeDesc> {
    match p
    case NodeArray(items) => items
    case NodeObject(fields) => if "nodes" in fields then fields["nodes"] else []
  }

  /** node.get('node') or node.get('name'), None when neither is a non-empty text. */
  function NodeName(d: NodeDesc): (r: Option<string>)
    ensures r.Some? <==> ("node" in d && d["node"] != "") || ("name" in d && d["name"] != "")
    ensures r.Some? ==> r.value != "" && (("node" in d && r.value == d["node"]) || ("name" in d && r.value == d["name"]))
    ensures "node" in d && d["node"] != "" ==> r == Some(d["node"])
  {
    if "node" in d && d["node"] != "" then Some(d["node"])
    else if "name" in d && d["name"] != "" then Some(d["name"])
    else None
  }

  datatype Verb = Get | Post | Delete

  /** A request is form-encoded when it has form fields, JSON otherwise. */
  datatype Body = JsonBody | FormBody(fields: seq<(string, string)>)

  /** One request as sent: the path the mapper asked for and the URL it went to. */
  datatype Call = Call(verb: Verb, path: string, url: string, body: Body)

  const NodesPath: string := "nodes"
  const MappingRoot: string := "cluster/mapping/pci"

  function PciPath(node: string): string {
    "nodes/" + node + "/hardware/pci"
  }

  function MappingPath(id: string): string {
    MappingRoot + "/" + id
  }

  /** The URL of a request: the stored base (already without trailing '/'), '/', the path without leading '/'. */
  function RequestUrl(apiUrl: string, path: string): string {
    apiUrl + "/" + LStrip(path, '/')
  }

  /**
   * With the base stripped of trailing slashes, the URL holds exactly one
   * '/' at the join: none just before it and none just after it.
   */
  lemma RequestUrlSeam(base: string, path: string)
    ensures var b, p := RStrip(base, '/'), LStrip(path, '/');
      var u := RequestUrl(b, path);
      && u == b + "/" + p
      && u[|b|] == '/'
      && (|b| > 0 ==> u[|b| - 1] != '/')
      && (|p| > 0 ==> u[|b| + 1] != '/')
  {
    var b, p := RStrip(base, '/'), LStrip(path, '/');
    var u := b + "/" + p;
    assert u[|b|] == '/';
    if |b| > 0 {
      assert u[|b| - 1] == b[|b| - 1];
    }
    if |p| > 0 {
      assert u[|b| + 1] == p[0];
    }
  }

  /** The node a PCI-listing path names, if it is one. */
  function PciNodeOf(path: string): Option<string> {
    if |path| >= 19 && path[..6] == "nodes/" && path[|path| - 13..] == "/hardware/pci"
    then Some(path[6..|path| - 13])
    else None
  }

  /** The mapping a mapping path names, if it is one. */
  function MappingIdOf(path: string): Option<string> {
    if |path| >= 20 && path[..20] == MappingRoot + "/" then Some(path[20..]) else None
  }

  /** The cluster reads back the node and the mapping id the mapper put in a path. */
  lemma PathsRoundTrip(node: string, id: string)
    ensures PciNodeOf(PciPath(node)) == Some(node) && PciPath(node) != NodesPath
    ensures MappingIdOf(MappingPath(id)) == Some(id)
    ensures MappingIdOf(MappingRoot) == None && PciNodeOf(NodesPath) == None
  {
    var p := PciPath(node);
    assert p[..6] == "nodes/" && p[6..|p| - 13] == node && p[|p| - 13..] == "/hardware/pci";
    var m := MappingPath(id);
    assert m[..20] == MappingRoot + "/" && m[20..] == id;
  }

  /** The mappings the cluster holds: the entries of each mapping by id. */
  type Store = map<string, seq<string>>

  datatype Reply = Failed | NodesData(payload: NodesPayload) | PciData(records: seq<PciRecord>) | Done

  /** The values of the form fields named key, in form order. */
  function FormValues(fields: seq<(string, string)>, key: string): seq<string> {
    if fields == [] then []
    else
      var (k, v) := fields[|fields| - 1];
      FormValues(fields[..|fields| - 1], key) + (if k == key then [v] else [])
  }

  /** A POST that creates a mapping: to the mapping root, form-encoded, with an id not yet taken. */
  predicate Creates(store: Store, c: Call) {
    && c.verb == Post && c.path == MappingRoot && c.body.FormBody?
    && |FormValues(c.body.fields, "id")| > 0
    && FormValues(c.body.fields, "id")[0] !in store
  }

  /**
   * The cluster turns down a DELETE or POST that is in its refusal set
   * (a permission or validation error, say), whatever mappings it holds.
   * A failed GET is modelled by missing node or PCI data instead.
   */
  predicate Refuses(refused: set<Call>, c: Call) {
    c.verb != Get && c in refused
  }

  /** How the cluster answers a call, given its node data, PCI data, refusals and current mappings. */
  function Answer(nodes: Option<NodesPayload>, pci: map<string, seq<PciRecord>>, refused: set<Call>, store: Store, c: Call): Reply {
    if Refuses(refused, c) then Failed
    else match c.verb
    case Get =>
      if c.path == NodesPath then
        (match nodes case None => Failed case Some(p) => NodesData(p))
      else
        (match PciNodeOf(c.path)
         case Some(n) => if n in pci then PciData(pci[n]) else Failed
         case None => Failed)
    case Delete =>
      (match MappingIdOf(c.path)
       case Some(id) => if id in store then Done else Failed
       case None => Failed)
    case Post => if Creates(store, c) then Done else Failed
  }

  /**
   * The mappings after a call: DELETE removes the named mapping, a creating
   * POST adds one, GET and a refused call change nothing.
   */
  function Apply(refused: set<Call>, store: Store, c: Call): Store {
    if Refuses(refused, c) then store
    else match c.verb
    case Get => store
    case Delete =>
      (match MappingIdOf(c.path)
       case Some(id) => store - {id}
       case None => store)
    case Post =>
      if Creates(store, c) then store[FormValues(c.body.fields, "id")[0] := FormValues(c.body.fields, "map")]
      else store
  }

  /** The mappings after a sequence of calls. */
  function ReplayAll(refused: set<Call>, store: Store, calls: seq<Call>): Store {
    if calls == [] then store else Apply(refused, ReplayAll(refused, store, calls[..|calls| - 1]), calls[|calls| - 1])
  }

  lemma AppendAssoc(a: seq<Call>, b: seq<Call>, c: seq<Call>)
    ensures (a + b) + c == a + (b + c)
  {
  }

  lemma {:induction false} ReplayAllAppend(refused: set<Call>, store: Store, a: seq<Call>, b: seq<Call>)
    ensures ReplayAll(refused, store, a + b) == ReplayAll(refused, ReplayAll(refused, store, a), b)
    decreases |b|
  {
    if b == [] {
      assert a + b == a;
    } else {
      ReplayAllAppend(refused, store, a, b[..|b| - 1]);
      assert (a + b)[..|a + b| - 1] == a + b[..|b| - 1];
    }
  }

  /**
   * The cluster: fixed answers to the GET requests, the mapping requests it
   * refuses, a mutable mapping store and the log of every request it
   * received, in order.
   */
  class ClusterApi {
    const nodes: Option<NodesPayload>
    const pci: map<string, seq<PciRecord>>
    const refused: set<Call>
    var mappings: Store
    var log: seq<Call>

    constructor (nodes: Option<NodesPayload>, pci: map<string, seq<PciRecord>>, refused: set<Call>, mappings: Store)
      ensures this.nodes == nodes && this.pci == pci && this.refused == refused && this.mappings == mappings && log == []
    {
      this.nodes := nodes;
      this.pci := pci;
      this.refused := refused;
      this.mappings := mappings;
      log := [];
    }

    method Handle(c: Call) returns (reply: Reply)
      modifies this
      ensures reply == Answer(nodes, pci, refused, old(mappings), c)
      ensures mappings == Apply(refused, old(mappings), c)
      ensures log == old(log) + [c]
    {
      reply := Answer(nodes, pci, refused, mappings, c);
      mappings := Apply(refused, mappings, c);
      log := log + [c];
    }
  }
}
