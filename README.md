# GPU mapper model

A Dafny model of `gpu_mapper.py`, the Proxmox GPU mapper. The mapper:

- lists the cluster's nodes;
- fetches each named node's PCI inventory;
- keeps the display-class functions of the two known GPU vendors (0x10de and 0x8086), numbered per node;
- registers one cluster PCI mapping per GPU under a mapping id built from the device. Each registration is a DELETE of any mapping with that id followed by a form-encoded POST that creates it.

The model follows the program's own structure:

- `Text`: the Python string operations the code relies on. These are `str.replace` (left to right, non-overlapping), `str.lower` on ASCII letters, `str.join`, `rstrip`/`lstrip` of one character, the slice `s[k:]` and `str()` of an integer.
- `Pci`: the `GPUDevice` record and `parse_pci_data`, as a loop proved against the filter-and-number function `Parse`.
- `Naming`: the slug and the mapping-id expression.
- `Mapping`: the map entries and the form of `create_gpu_mapping`, as the two loops that build them (`BuildForm`).
- `Cluster`: the management API the mapper talks to. It is a `ClusterApi` object with the node and PCI data it answers GETs from, a set of DELETE and POST requests it refuses, a mapping store that the other DELETEs and POSTs change, and a log of every request it receives. It also holds the node-list adapter and node-name normaliser, and the request URL.
- `Scan`: specification functions for one whole scan: the requests it sends (`ScanCalls`), the GPUs it registers (`ScanGpus`), the store one upsert leaves (`UpsertResult`) and the store the whole scan leaves when nothing is refused (`Install`). It also holds the lemmas about them.
- `GpuMapper`: the `ProxmoxGpuMapper` class. Its settings are fixed at construction. Its methods `ApiRequest`, `FetchPciDevices`, `CreateGpuMapping` and `ScanAndMapGpus` send their requests to a `ClusterApi`. Each method's `ensures` gives the exact requests it appends to the log and the exact store it leaves.

`gpus_per_node` is a Python dictionary, so its iteration order is the order of first insertion. The model keeps it as a key order plus a map (`Table`). Writing to an existing key keeps that key's place.

Two details of the code that the model follows as written:

- The mapping id drops the first two characters of each id (`vendor_id[2:]`), whatever they are. The map entries remove every "0x" (`replace`) instead. `Mapping.HexMatchesSlice` shows the two agree on "0x" + hex when hex holds no further "0x".
- The node list holds descriptors, and each name is read as `node.get('node') or node.get('name')`. A descriptor without a non-empty name is skipped (`Cluster.NodeName`, `Scan.Names`).

Behaviour of the code as written, stated by `Scan.SameIdAcrossNodes`: the mapping id does not include the node. Identical GPUs at the same index on two nodes therefore share one id. The later node's DELETE removes the earlier node's mapping, and its POST stores only the later node's entry. The earlier node's GPU ends up with no mapping.

The cluster may refuse any DELETE or POST (a permission or validation error, say), whatever mappings it holds. A refused request answers `Failed` and changes nothing. `create_gpu_mapping` catches the failure of either request and the scan goes on with the next GPU.

## Model

| member | source | states |
|---|---|---|
| Pci.ParsePciData | ansible/roles/mapping_gpu/files/gpu_mapper.py:99-126 | the devices are `Parse` of the records: one per matching record, in input order, the k-th with index k and the node argument as its node |
| Pci.GpuRecordsSelect | ansible/roles/mapping_gpu/files/gpu_mapper.py:104-109 | the kept records are exactly the records at the matching input positions, in increasing position order; a position is kept if and only if its record matches |
| Pci.GpuRecordsMembers | ansible/roles/mapping_gpu/files/gpu_mapper.py:105-109 | a record is kept if and only if it is in the input, its vendor is 0x10de or 0x8086, and its class (default "") starts with 0x03 |
| Pci.ForeignVendorDropped | ansible/roles/mapping_gpu/files/gpu_mapper.py:105-106 | a record whose vendor is missing or is any other value (0x1234, say) is never kept, whatever its class |
| Pci.GpuRecordsCounts | ansible/roles/mapping_gpu/files/gpu_mapper.py:104-109 | a matching record is kept as many times as it occurs in the input; any other record, zero times |
| Pci.GpuRecordsAppend | ansible/roles/mapping_gpu/files/gpu_mapper.py:104-109 | filtering a concatenation gives the concatenation of the filtered parts, so the relative order of matching records is kept |
| Pci.GpuRecords | ansible/roles/mapping_gpu/files/gpu_mapper.py:104-109 | the filter keeps at most as many records as it is given, and every kept record passes both tests of the filter |
| Pci.Parse | ansible/roles/mapping_gpu/files/gpu_mapper.py:99-126 | one device per kept record: as many devices as kept records, device k with the node argument, index k, and a record of vendor 0x10de or 0x8086 |
| Pci.ParseSnoc | ansible/roles/mapping_gpu/files/gpu_mapper.py:104-125 | one more record adds exactly one device, numbered by the count so far, when it matches, and nothing otherwise |
| Pci.ParsedDevices | ansible/roles/mapping_gpu/files/gpu_mapper.py:112-123 | there are as many devices as matching records; device k has the node argument, the scan time and index k, has vendor 0x10de or 0x8086, and takes "" for each missing field (and "Unknown Device" for a missing name) |
| Naming.Slug | ansible/roles/mapping_gpu/files/gpu_mapper.py:205-213 | no contract of its own: the description with '[' and ']' removed, ' ', ':' and '-' turned into '_', then lower-cased; its properties are `SlugIsClean` and `SlugOfBracketedWords` |
| Naming.MappingId | ansible/roles/mapping_gpu/files/gpu_mapper.py:214 | no contract of its own: "gpu-", vendor and device ids without their first two characters, "-", the slug, "-", the decimal index + 1; its properties are `MappingIdExample`, `MappingIdsDistinct` and `NodeMappingIdsDistinct` |
| Naming.SlugIsClean | ansible/roles/mapping_gpu/files/gpu_mapper.py:205-213 | the slug holds no '[', ']', space, ':' or '-' and no upper-case letter |
| Naming.SlugOfBracketedWords | ansible/roles/mapping_gpu/files/gpu_mapper.py:205-213 | for words free of the special characters, the slug of "w1 [w2 w3 w4]" is the lower-cased "w1_w2_w3_w4" |
| Naming.MappingIdExample | ansible/roles/mapping_gpu/files/gpu_mapper.py:205-214 | vendor 0x10de, device 0x2204, "GA102 [GeForce RTX 3090]" at index 0 gives gpu-10de2204-ga102_geforce_rtx_3090-1 |
| Naming.MappingIdsDistinct | ansible/roles/mapping_gpu/files/gpu_mapper.py:214 | two different indices give two different ids, whatever the other inputs |
| Naming.NodeMappingIdsDistinct | ansible/roles/mapping_gpu/files/gpu_mapper.py:203-216 | the GPUs of one node get pairwise distinct mapping ids |
| Text.ReplaceAround | ansible/roles/mapping_gpu/files/gpu_mapper.py:145-146 | replacing a pattern that does not contain character c works on each side of a c separately, so the ':' of the subsystem id survives |
| Text.DecimalRoundTrip | ansible/roles/mapping_gpu/files/gpu_mapper.py:214 | the decimal text of the 1-based suffix reads back as the same number |
| Text.LowerMeaning | ansible/roles/mapping_gpu/files/gpu_mapper.py:212 | lower-casing leaves no upper-case letter and brings in no character other than a lower-case letter |
| Mapping.MapEntry | ansible/roles/mapping_gpu/files/gpu_mapper.py:139-157 | no contract of its own: the entry components joined by ','; its exact text is `MapEntryShape` |
| Mapping.MapEntryShape | ansible/roles/mapping_gpu/files/gpu_mapper.py:139-157 | the entry is exactly id=V:D,iommugroup=G,node=N,path=P with every "0x" removed from V and D, followed by ,subsystem-id=SV:SD (also without "0x") if and only if both subsystem ids are non-empty |
| Mapping.SubsystemIdShape | ansible/roles/mapping_gpu/files/gpu_mapper.py:143-146 | with both subsystem ids present, the combined id is each id without "0x", joined by ':' |
| Mapping.HexMatchesSlice | ansible/roles/mapping_gpu/files/gpu_mapper.py:140-141 | for an id written "0x" + hex, removing every "0x" and slicing off two characters give the same hex |
| Mapping.FormData | ansible/roles/mapping_gpu/files/gpu_mapper.py:161-163 | the form has 1 + n fields: ("id", id) first, then ("map", entry k) for each entry in order |
| Mapping.BuildForm | ansible/roles/mapping_gpu/files/gpu_mapper.py:138-163 | the loops yield one entry per device in device order and a form of length 1 + n whose first field is ("id", id) and whose field k + 1 is ("map", entry of device k) |
| Cluster.NodeList | ansible/roles/mapping_gpu/files/gpu_mapper.py:178 | no contract of its own: a bare list is taken as is, an object gives its "nodes" list or []; what the scan then does is `Scan.PayloadShapes` |
| Cluster.NodeName | ansible/roles/mapping_gpu/files/gpu_mapper.py:186-188 | a name exists if and only if "node" or "name" holds a non-empty text; it is then one of those values, and "node" comes first when it is non-empty |
| Cluster.RequestUrl | ansible/roles/mapping_gpu/files/gpu_mapper.py:57 | no contract of its own: the base, "/", the path without leading '/'; the join is `RequestUrlSeam` |
| Cluster.RequestUrlSeam | ansible/roles/mapping_gpu/files/gpu_mapper.py:57 | the URL is the stripped base, "/", the stripped path; the join holds exactly one '/', with no '/' just before or just after it |
| Cluster.PathsRoundTrip | ansible/roles/mapping_gpu/files/gpu_mapper.py:133 | the node and the mapping id read back out of the paths built for them, and the paths of different kinds do not coincide |
| Text.RStrip | ansible/roles/mapping_gpu/files/gpu_mapper.py:30 | the result is a prefix of the input that does not end with the character, and only that character was removed |
| Text.LStrip | ansible/roles/mapping_gpu/files/gpu_mapper.py:57 | the result is a suffix of the input that does not start with the character, and only that character was removed |
| Scan.PayloadShapes | ansible/roles/mapping_gpu/files/gpu_mapper.py:178 | a node object with a "nodes" list leads to the same scan as that list given bare; an object without "nodes" leads to no request after GET nodes |
| Scan.NoNodesNoRequests | ansible/roles/mapping_gpu/files/gpu_mapper.py:180-182 | with no node list, GET nodes is the only request and no GPU is registered |
| Scan.NamesMembers | ansible/roles/mapping_gpu/files/gpu_mapper.py:185-188 | a name is visited if and only if some node descriptor yields it, so a node with a falsy name is skipped |
| Scan.FetchCallsShape | ansible/roles/mapping_gpu/files/gpu_mapper.py:185-191 | there is exactly one PCI fetch per named node, in node order |
| Scan.GroupCharacterised | ansible/roles/mapping_gpu/files/gpu_mapper.py:184-197 | the dictionary's keys are exactly the named nodes with at least one GPU, each holding that node's parsed GPUs; its key order lists each key once |
| Scan.FlattenCount | ansible/roles/mapping_gpu/files/gpu_mapper.py:203-204 | iterating over the dictionary visits each GPU of each key as many times as it is stored there, and no other GPU |
| Scan.ScanGpusCount | ansible/roles/mapping_gpu/files/gpu_mapper.py:184-204 | a scan registers each GPU of a named node as many times as that node's parse yields it, and registers nothing for an unnamed node |
| Scan.ScanGpusMembers | ansible/roles/mapping_gpu/files/gpu_mapper.py:193-204 | a GPU is registered if and only if some named node's parse yields it, so a node without GPUs leads to no mapping request |
| Scan.RegistrationsShape | ansible/roles/mapping_gpu/files/gpu_mapper.py:214-216 | the k-th registration holds the k-th GPU's mapping id and the single entry of that GPU |
| Scan.UpsertAllOrder | ansible/roles/mapping_gpu/files/gpu_mapper.py:203-216 | the upserts are two requests per mapping, in registration order: request 2k is the DELETE of mapping k and request 2k+1 its POST |
| Scan.UpsertSteps | ansible/roles/mapping_gpu/files/gpu_mapper.py:132-165 | the DELETE comes first and the POST second. The DELETE succeeds exactly when the id exists and the DELETE is not refused; unless refused it leaves the id absent. The POST is sent either way and succeeds exactly when it is not refused and the id is free, so a failed DELETE does not stop the create; the store it leaves is `UpsertResult` |
| Scan.DeleteStep | ansible/roles/mapping_gpu/files/gpu_mapper.py:133 | a DELETE of a mapping path answers done exactly when the mapping exists and the request is not refused; unless refused it removes the id and nothing else |
| Scan.PostStep | ansible/roles/mapping_gpu/files/gpu_mapper.py:165 | a POST of the mapping form answers done exactly when it is not refused and the id is free, and then stores exactly the posted entries under the id; otherwise nothing changes |
| Scan.FormDataValues | ansible/roles/mapping_gpu/files/gpu_mapper.py:161-163 | the form's "id" values are just the mapping id, and its "map" values are the entries, in order |
| Scan.ReplayUpsert | ansible/roles/mapping_gpu/files/gpu_mapper.py:132-171 | the two requests of one upsert leave `UpsertResult`: with neither refused, the id holds exactly the new entries whatever it held before; with the POST refused after a DELETE that went through (or of an absent id), the id is absent; no other mapping changes |
| Scan.ReplayUpsertAll | ansible/roles/mapping_gpu/files/gpu_mapper.py:203-216 | with none of their requests refused, replaying all upserts gives the store with each registration installed in order |
| Scan.RefusedCreateLeavesAbsent | ansible/roles/mapping_gpu/files/gpu_mapper.py:132-171 | a registration whose DELETE goes through and whose POST is refused leaves its id absent at the end of the upserts, unless a later registration has the same id |
| Scan.ReplayFetches | ansible/roles/mapping_gpu/files/gpu_mapper.py:191 | the PCI fetches change no mapping |
| Scan.ScanReplay | ansible/roles/mapping_gpu/files/gpu_mapper.py:173-216 | replaying a scan's requests on any store gives what its upserts alone give (the GETs change nothing); with no request refused, that store with every registered GPU's mapping installed in order |
| Scan.InstallMembers | ansible/roles/mapping_gpu/files/gpu_mapper.py:203-216 | after a scan a mapping id exists if and only if it existed before or was registered |
| Scan.InstallKeepsOthers | ansible/roles/mapping_gpu/files/gpu_mapper.py:203-216 | a mapping the scan does not register keeps its entries |
| Scan.InstallLastWins | ansible/roles/mapping_gpu/files/gpu_mapper.py:203-216 | a registration that no later one overwrites is what its id holds after the scan |
| Scan.NodeMappingsInstalled | ansible/roles/mapping_gpu/files/gpu_mapper.py:203-216 | after registering one node's GPUs, each GPU's mapping id holds exactly that GPU's entry |
| Scan.SameIdAcrossNodes | ansible/roles/mapping_gpu/files/gpu_mapper.py:214-216 | two GPUs with the same vendor, device, description and index (on different nodes, say) get the same id, and after both registrations the id holds only the later GPU's entry |
| GpuMapper.ProxmoxGpuMapper.constructor | ansible/roles/mapping_gpu/files/gpu_mapper.py:29-33 | the base URL is stored without trailing '/', as a prefix of the given URL; the other settings are stored as given |
| GpuMapper.ProxmoxGpuMapper.ApiRequest | ansible/roles/mapping_gpu/files/gpu_mapper.py:53-77 | one request, form-encoded exactly when there is a form, to base + "/" + path without leading '/'; the reply and the new store are the cluster's answer to it, and it is appended to the log |
| GpuMapper.ProxmoxGpuMapper.FetchPciDevices | ansible/roles/mapping_gpu/files/gpu_mapper.py:84-97 | one GET of the node's PCI list; the result is the node's records, or [] when the request fails; no mapping changes |
| GpuMapper.ProxmoxGpuMapper.CreateGpuMapping | ansible/roles/mapping_gpu/files/gpu_mapper.py:128-171 | it sends exactly the DELETE and then the POST of the form for these devices, whatever the answers; the store afterwards is `UpsertResult`: the id holds exactly their entries unless the cluster refuses a request, and every other mapping is unchanged |
| GpuMapper.ProxmoxGpuMapper.ScanAndMapGpus | ansible/roles/mapping_gpu/files/gpu_mapper.py:173-219 | the requests sent are exactly `ScanCalls`, whatever the cluster refuses; the store afterwards is what replaying its upserts gives, and with no upsert refused it is `Install` of the registrations of `ScanGpus`, whose properties are the Scan lemmas above |
| GpuMapper.ProxmoxGpuMapper.CollectGpus | ansible/roles/mapping_gpu/files/gpu_mapper.py:184-197 | the first loop sends one PCI fetch per named node and builds the dictionary `Group` describes |
| GpuMapper.ProxmoxGpuMapper.CollectNode | ansible/roles/mapping_gpu/files/gpu_mapper.py:190-197 | one node: fetch and parse; a node with GPUs becomes a key (a new key goes last), a node without GPUs changes nothing |
| GpuMapper.ProxmoxGpuMapper.RegisterGpus | ansible/roles/mapping_gpu/files/gpu_mapper.py:203-216 | the second loop sends the DELETE/POST pair of every GPU in dictionary order, and leaves what replaying those pairs gives |
| GpuMapper.ProxmoxGpuMapper.RegisterNode | ansible/roles/mapping_gpu/files/gpu_mapper.py:204-216 | the inner loop upserts each GPU of a node alone, under its own mapping id, after those already done; a refused request does not stop the loop |

## Left out

- HTTP transport, TLS verification, `raise_for_status` and JSON decoding (lines 51-82) are left out; they are library I/O. A request becomes a `Call` in the cluster's log, and its failure is a `Failed` reply.
- The cluster's behaviour is an assumption of the model, not part of the source:
  - GETs are answered from fixed node and PCI data, and a failed GET is missing data;
  - a DELETE or POST in the cluster's refusal set fails and changes nothing;
  - otherwise a DELETE of an absent mapping fails;
  - otherwise a POST of an id that is absent creates the mapping.
- The `Authorization` header and `verify_ssl` (lines 43-45, 60, 69) do not appear in a logged request. The settings are stored but have no effect in the model.
- The envelope's `data` field defaulting to `{}` (line 77) is left out. Replies carry their payload directly.
- `datetime.now().isoformat()` (line 121) becomes the `lastSeen` parameter, one value for the whole scan, because a clock is not modelled. The source reads the clock once per device.
- `print` logging, the urllib3 warning suppression and exception message formatting (lines 13, 52, 72-74, 79-82, 87-96, 111, 131-136, 159, 166-171, 176-219) are left out; they are output only.
- `main` and the environment variables (lines 221-241) are left out; they are process configuration.
- Record fields are texts, and only `iommugroup` may also be a number; it is passed through `str()` (line 119). Other JSON values are not modelled. In the source:
  - a null, boolean or fractional `iommugroup` also goes through `str()` (line 119);
  - a non-text `device_name`, `id` or subsystem id goes into an f-string without raising (lines 145, 152, 205);
  - a non-text vendor just fails the membership test (line 105);
  - a non-text class (line 108), a record or node descriptor that is not a dictionary, or a non-text device id (lines 141 and 214) raises; a vendor that passed line 105 is always text.
- Text.Lower: lower-cases ASCII letters only, not the full Unicode case mapping of `str.lower`.
- Exceptions raised inside the scan loops, such as a malformed record or descriptor, are not modelled, because every modelled step is total. The source catches them at `scan_and_map_gpus` level and stops the scan.
