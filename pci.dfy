/**
 * GPU discovery on one node: the GPUDevice record and parse_pci_data, which
 * keeps the display-class PCI functions of the two known GPU vendors and
 * numbers them per node in discovery order.
 */
module Pci {
  import opened Wrappers
  import opened Text

  /** A scalar JSON value as the cluster API reports it. */
  datatype Scalar = Str(s: string) | Int(n: int)

  /**
   * One raw record of GET nodes/<node>/hardware/pci: its text fields by key
   * ("vendor", "device", "class", "id", "subsystem_vendor",
   * "subsystem_device", "device_name"; a missing key is absent from the map)
   * and the IOMMU group, which the API may report as a number.
   */
  datatype PciRecord = PciRecord(fields: map<string, string>, iommuGroup: Option<Scalar>)

  /** One discovered GPU: `index` is its zero-based position among the GPUs of its node. */
  datatype GpuDevice = GpuDevice(
    node: string,
    pciPath: string,
    vendorId: string,
    deviceId: string,
    subsystemVendorId: string,
    subsystemDeviceId: string,
    iommuGroup: string,
    description: string,
    lastSeen: string,
    index: nat)

  const NvidiaVendor: string := "0x10de"
  const IntelVendor: string := "0x8086"
  const DisplayClassPrefix: string := "0x03"
  const UnknownDevice: string := "Unknown Device"

  /** Python's record.get(key, default) on a text field. */
  function Get(r: PciRecord, key: string, default: string): string {
    if key in r.fields then r.fields[key] else default
  }

  /** Python's str() of a scalar. */
  function ScalarText(v: Scalar): string {
    match v
    case Str(s) => s
    case Int(n) => IntToString(n)
  }

  /** str(record.get('iommugroup', '')). */
  function IommuGroupText(r: PciRecord): string {
    match r.iommuGroup
    case None => ""
    case Some(v) => ScalarText(v)
  }

  /** The vendor field is present and is one of the two GPU vendors. */
  predicate KnownVendor(r: PciRecord) {
    "vendor" in r.fields && (r.fields["vendor"] == NvidiaVendor || r.fields["vendor"] == IntelVendor)
  }

  /** The inclusion rule of parse_pci_data. */
  predicate IsGpu(r: PciRecord) {
    KnownVendor(r) && StartsWith(Get(r, "class", ""), DisplayClassPrefix)
  }

  /** The GPUDevice built from a matching record, with the source's defaults for missing fields. */
  function ToDevice(node: string, r: PciRecord, lastSeen: string, index: nat): GpuDevice {
    GpuDevice(
      node := node,
      pciPath := Get(r, "id", ""),
      vendorId := Get(r, "vendor", ""),
      deviceId := Get(r, "device", ""),
      subsystemVendorId := Get(r, "subsystem_vendor", ""),
      subsystemDeviceId := Get(r, "subsystem_device", ""),
      iommuGroup := IommuGroupText(r),
      description := Get(r, "device_name", UnknownDevice),
      lastSeen := lastSeen,
      index := index)
  }

  /** The matching records, in input order (a filter). */
  function GpuRecords(pci: seq<PciRecord>): (r: seq<PciRecord>)
    ensures |r| <= |pci|
    ensures forall k :: 0 <= k < |r| ==> IsGpu(r[k])
  {
    if pci == [] then []
    else
      var last := pci[|pci| - 1];
      GpuRecords(pci[..|pci| - 1]) + (if IsGpu(last) then [last] else [])
  }

  /** The input positions of the matching records. */
  ghost function GpuPositions(pci: seq<PciRecord>): seq<nat> {
    if pci == [] then []
    else GpuPositions(pci[..|pci| - 1]) + (if IsGpu(pci[|pci| - 1]) then [|pci| - 1] else [])
  }

  /** What parse_pci_data returns: the k-th matching record becomes the device with index k. */
  function Parse(node: string, pci: seq<PciRecord>, lastSeen: string): (r: seq<GpuDevice>)
    ensures |r| == |GpuRecords(pci)| <= |pci|
    ensures forall k :: 0 <= k < |r| ==> r[k].node == node && r[k].index == k && KnownVendor(GpuRecords(pci)[k])
  {
    Numbered(node, GpuRecords(pci), lastSeen)
  }

  /** The devices of the given records, numbered from 0 in order. */
  function Numbered(node: string, g: seq<PciRecord>, lastSeen: string): seq<GpuDevice> {
    seq(|g|, k requires 0 <= k < |g| => ToDevice(node, g[k], lastSeen, k))
  }

  /**
   * The records kept are exactly those at the matching positions, in
   * increasing position order: nothing is reordered, dropped or duplicated.
   */
  lemma {:induction false} GpuRecordsSelect(pci: seq<PciRecord>)
    ensures |GpuPositions(pci)| == |GpuRecords(pci)|
    ensures forall k :: 0 <= k < |GpuPositions(pci)| ==>
              GpuPositions(pci)[k] < |pci| && GpuRecords(pci)[k] == pci[GpuPositions(pci)[k]]
    ensures forall k, l :: 0 <= k < l < |GpuPositions(pci)| ==> GpuPositions(pci)[k] < GpuPositions(pci)[l]
    ensures forall p :: 0 <= p < |pci| ==> (IsGpu(pci[p]) <==> p in GpuPositions(pci))
  {
    if pci != [] {
      var init, last := pci[..|pci| - 1], pci[|pci| - 1];
      GpuRecordsSelect(init);
      assert forall p :: 0 <= p < |init| ==> init[p] == pci[p];
      var ps, gs := GpuPositions(init), GpuRecords(init);
      if IsGpu(last) {
        assert GpuPositions(pci) == ps + [|init|] && GpuRecords(pci) == gs + [last];
      } else {
        assert GpuPositions(pci) == ps && GpuRecords(pci) == gs;
      }
    }
  }

  /**
   * A record is kept if and only if it occurs in the input, its vendor is
   * 0x10de or 0x8086 and its class (default "") starts with 0x03.
   */
  lemma GpuRecordsMembers(pci: seq<PciRecord>, r: PciRecord)
    ensures r in GpuRecords(pci) <==>
              r in pci && "vendor" in r.fields && r.fields["vendor"] in [NvidiaVendor, IntelVendor]
              && StartsWith(Get(r, "class", ""), DisplayClassPrefix)
  {
    GpuRecordsSelect(pci);
    var pos := GpuPositions(pci);
    if r in GpuRecords(pci) {
      var k :| 0 <= k < |GpuRecords(pci)| && GpuRecords(pci)[k] == r;
      assert IsGpu(pci[pos[k]]);
    }
    if r in pci && IsGpu(r) {
      var p :| 0 <= p < |pci| && pci[p] == r;
      assert p in pos;
      var k :| 0 <= k < |pos| && pos[k] == p;
      assert GpuRecords(pci)[k] == r;
    }
  }

  /** A record of any other vendor (0x1234, say) is dropped whatever its class. */
  lemma ForeignVendorDropped(pci: seq<PciRecord>, r: PciRecord)
    requires "vendor" !in r.fields || r.fields["vendor"] !in [NvidiaVendor, IntelVendor]
    ensures r !in GpuRecords(pci)
  {
    GpuRecordsMembers(pci, r);
  }

  /** Each matching record is kept as often as it occurs; every other record not at all. */
  lemma {:induction false} GpuRecordsCounts(pci: seq<PciRecord>, r: PciRecord)
    ensures multiset(GpuRecords(pci))[r] == if IsGpu(r) then multiset(pci)[r] else 0
  {
    if pci != [] {
      var init := pci[..|pci| - 1];
      GpuRecordsCounts(init, r);
      assert pci == init + [pci[|pci| - 1]];
    }
  }

  /** Filtering a concatenation filters each part: the relative order of the matching records is kept. */
  lemma {:induction false} GpuRecordsAppend(a: seq<PciRecord>, b: seq<PciRecord>)
    ensures GpuRecords(a + b) == GpuRecords(a) + GpuRecords(b)
    decreases |b|
  {
    if b == [] {
      assert a + b == a;
    } else {
      var init := b[..|b| - 1];
      GpuRecordsAppend(a, init);
      assert (a + b)[..|a + b| - 1] == a + init;
    }
  }

  /**
   * Each parsed device carries the node, the scan time and its position,
   * has one of the two GPU vendors, and takes the default of every field
   * its record lacks ("" and, for the description, "Unknown Device").
   */
  lemma ParsedDevices(node: string, pci: seq<PciRecord>, lastSeen: string)
    ensures var ds, g := Parse(node, pci, lastSeen), GpuRecords(pci);
      && |ds| == |g|
      && forall k :: 0 <= k < |ds| ==>
        && ds[k].node == node && ds[k].lastSeen == lastSeen && ds[k].index == k
        && (ds[k].vendorId == NvidiaVendor || ds[k].vendorId == IntelVendor)
        && ("id" in g[k].fields || ds[k].pciPath == "")
        && ("device" in g[k].fields || ds[k].deviceId == "")
        && ("subsystem_vendor" in g[k].fields || ds[k].subsystemVendorId == "")
        && ("subsystem_device" in g[k].fields || ds[k].subsystemDeviceId == "")
        && (g[k].iommuGroup.Some? || ds[k].iommuGroup == "")
        && ("device_name" in g[k].fields || ds[k].description == UnknownDevice)
  {
  }

  /** One more record appends one device, numbered by the count so far, exactly when it matches. */
  lemma ParseSnoc(node: string, pci: seq<PciRecord>, r: PciRecord, lastSeen: string)
    ensures Parse(node, pci + [r], lastSeen) ==
              Parse(node, pci, lastSeen)
              + (if IsGpu(r) then [ToDevice(node, r, lastSeen, |GpuRecords(pci)|)] else [])
  {
    GpuRecordsSnoc(pci, r);
    if IsGpu(r) {
      NumberedSnoc(node, GpuRecords(pci), r, lastSeen);
    }
  }

  lemma GpuRecordsSnoc(pci: seq<PciRecord>, r: PciRecord)
    ensures GpuRecords(pci + [r]) == GpuRecords(pci) + (if IsGpu(r) then [r] else [])
  {
    assert (pci + [r])[..|pci + [r]| - 1] == pci;
  }

  lemma NumberedSnoc(node: string, g: seq<PciRecord>, r: PciRecord, lastSeen: string)
    ensures Numbered(node, g + [r], lastSeen) == Numbered(node, g, lastSeen) + [ToDevice(node, r, lastSeen, |g|)]
  {
    var a, b := Numbered(node, g + [r], lastSeen), Numbered(node, g, lastSeen) + [ToDevice(node, r, lastSeen, |g|)];
    assert |a| == |b|;
    forall k | 0 <= k < |a| ensures a[k] == b[k] {
      if k < |g| {
        assert (g + [r])[k] == g[k];
      }
    }
  }

  /**
   * parse_pci_data: walks the records once, skipping non-GPUs and numbering
   * the GPUs from 0.
   */
  method ParsePciData(node: string, pciData: seq<PciRecord>, lastSeen: string) returns (gpuDevices: seq<GpuDevice>)
    ensures gpuDevices == Parse(node, pciData, lastSeen)
    ensures |gpuDevices| == |GpuRecords(pciData)|
    ensures forall k :: 0 <= k < |gpuDevices| ==>
              gpuDevices[k] == ToDevice(node, GpuRecords(pciData)[k], lastSeen, k)
              && gpuDevices[k].node == node && gpuDevices[k].index == k
  {
    gpuDevices := [];
    var gpuIndex: nat := 0;
    for i := 0 to |pciData|
      invariant gpuDevices == Parse(node, pciData[..i], lastSeen)
      invariant gpuIndex == |gpuDevices|
    {
      var device := pciData[i];
      ParseSnoc(node, pciData[..i], device, lastSeen);
      assert pciData[..i + 1] == pciData[..i] + [device];
      if !KnownVendor(device) {
        continue;
      }
      if !StartsWith(Get(device, "class", ""), DisplayClassPrefix) {
        continue;
      }
      var gpu := ToDevice(node, device, lastSeen, gpuIndex);
      gpuDevices := gpuDevices + [gpu];
      gpuIndex := gpuIndex + 1;
    }
    assert pciData[..|pciData|] == pciData;
  }
}
