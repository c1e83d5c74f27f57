/**
 * The body of a mapping create request (create_gpu_mapping): one
 * comma-joined key=value entry per device and the ordered form
 * [("id", id), ("map", entry), ...].
 */
module Mapping {
  import opened Text
  import opened Pci

  const HexPrefix: string := "0x"

  /** An id with every "0x" removed (str.replace, not the [2:] slice of the mapping name). */
  function Hex(s: string): string {
    Replace(s, HexPrefix, "")
  }

  /** "<subsystem vendor>:<subsystem device>" without "0x", or "" unless both ids are non-empty. */
  function SubsystemId(g: GpuDevice): string {
    if g.subsystemVendorId != "" && g.subsystemDeviceId != "" then
      Hex(g.subsystemVendorId + ":" + g.subsystemDeviceId)
    else ""
  }

  function EntryComponents(g: GpuDevice): seq<string> {
    var subsystemId := SubsystemId(g);
    ["id=" + Hex(g.vendorId) + ":" + Hex(g.deviceId),
     "iommugroup=" + g.iommuGroup,
     "node=" + g.node,
     "path=" + g.pciPath]
    + (if subsystemId != "" then ["subsystem-id=" + subsystemId] else [])
  }

  /** The map entry of one device. */
  function MapEntry(g: GpuDevice): string {
    Join(EntryComponents(g), ",")
  }

  /** The entries of a device list, in device order. */
  function MapEntries(devices: seq<GpuDevice>): seq<string> {
    seq(|devices|, k requires 0 <= k < |devices| => MapEntry(devices[k]))
  }

  /** The form of the create request: ("id", id) first, then ("map", entry k) for each entry in order. */
  function FormData(mappingId: string, entries: seq<string>): (r: seq<(string, string)>)
    ensures |r| == 1 + |entries| && r[0] == ("id", mappingId)
    ensures forall k :: 0 <= k < |entries| ==> r[k + 1] == ("map", entries[k])
  {
    if entries == [] then [("id", mappingId)]
    else FormData(mappingId, entries[..|entries| - 1]) + [("map", entries[|entries| - 1])]
  }

  lemma Join2(a: string, b: string, sep: string)
    ensures Join([a, b], sep) == a + sep + b
  {
    assert [a, b][1..] == [b];
  }

  lemma JoinCons(a: string, rest: seq<string>, sep: string)
    requires |rest| > 0
    ensures Join([a] + rest, sep) == a + sep + Join(rest, sep)
  {
    assert ([a] + rest)[1..] == rest;
  }

  lemma Join4(a: string, b: string, c: string, d: string, sep: string)
    ensures Join([a, b, c, d], sep) == a + sep + b + sep + c + sep + d
  {
    Join2(c, d, sep);
    JoinCons(b, [c, d], sep);
    assert [b] + [c, d] == [b, c, d];
    JoinCons(a, [b, c, d], sep);
    assert [a] + [b, c, d] == [a, b, c, d];
  }

  lemma Join5(a: string, b: string, c: string, d: string, e: string, sep: string)
    ensures Join([a, b, c, d, e], sep) == a + sep + b + sep + c + sep + d + sep + e
  {
    Join2(d, e, sep);
    JoinCons(c, [d, e], sep);
    assert [c] + [d, e] == [c, d, e];
    JoinCons(b, [c, d, e], sep);
    assert [b] + [c, d, e] == [b, c, d, e];
    JoinCons(a, [b, c, d, e], sep);
    assert [a] + [b, c, d, e] == [a, b, c, d, e];
  }

  /**
   * The entry is exactly id=V:D,iommugroup=G,node=N,path=P, followed by
   * ,subsystem-id=SV:SD if and only if both subsystem ids are non-empty,
   * where every id has had each "0x" removed.
   */
  lemma MapEntryShape(g: GpuDevice)
    ensures MapEntry(g) ==
      "id=" + Hex(g.vendorId) + ":" + Hex(g.deviceId)
      + ",iommugroup=" + g.iommuGroup + ",node=" + g.node + ",path=" + g.pciPath
      + (if g.subsystemVendorId != "" && g.subsystemDeviceId != ""
         then ",subsystem-id=" + Hex(g.subsystemVendorId) + ":" + Hex(g.subsystemDeviceId)
         else "")
  {
    if g.subsystemVendorId != "" && g.subsystemDeviceId != "" {
      EntryWithSubsystem(g);
    } else {
      EntryWithoutSubsystem(g);
    }
  }

  lemma EntryWithSubsystem(g: GpuDevice)
    requires g.subsystemVendorId != "" && g.subsystemDeviceId != ""
    ensures MapEntry(g) ==
      "id=" + Hex(g.vendorId) + ":" + Hex(g.deviceId)
      + ",iommugroup=" + g.iommuGroup + ",node=" + g.node + ",path=" + g.pciPath
      + ",subsystem-id=" + Hex(g.subsystemVendorId) + ":" + Hex(g.subsystemDeviceId)
  {
    SubsystemIdShape(g);
    EntryWithSubsystemId(g, Hex(g.subsystemVendorId) + ":" + Hex(g.subsystemDeviceId));
  }

  /** The ":" survives the "0x" removal, so the combined subsystem id is the two ids apart. */
  lemma SubsystemIdShape(g: GpuDevice)
    requires g.subsystemVendorId != "" && g.subsystemDeviceId != ""
    ensures SubsystemId(g) == Hex(g.subsystemVendorId) + ":" + Hex(g.subsystemDeviceId)
  {
    assert g.subsystemVendorId + ":" + g.subsystemDeviceId == g.subsystemVendorId + [':'] + g.subsystemDeviceId;
    ReplaceAround(g.subsystemVendorId, ':', g.subsystemDeviceId, HexPrefix, "");
  }

  lemma EntryWithSubsystemId(g: GpuDevice, sub: string)
    requires SubsystemId(g) == sub && sub != ""
    ensures MapEntry(g) ==
      "id=" + Hex(g.vendorId) + ":" + Hex(g.deviceId)
      + ",iommugroup=" + g.iommuGroup + ",node=" + g.node + ",path=" + g.pciPath
      + ",subsystem-id=" + sub
  {
    var a := "id=" + Hex(g.vendorId) + ":" + Hex(g.deviceId);
    ComponentsWith(g, sub);
    Join5(a, "iommugroup=" + g.iommuGroup, "node=" + g.node, "path=" + g.pciPath, "subsystem-id=" + sub, ",");
    var y := FieldsChain(a, g);
    Field(y, "subsystem-id=", sub, ",subsystem-id=");
  }

  lemma EntryWithoutSubsystem(g: GpuDevice)
    requires g.subsystemVendorId == "" || g.subsystemDeviceId == ""
    ensures MapEntry(g) ==
      "id=" + Hex(g.vendorId) + ":" + Hex(g.deviceId)
      + ",iommugroup=" + g.iommuGroup + ",node=" + g.node + ",path=" + g.pciPath
  {
    var a := "id=" + Hex(g.vendorId) + ":" + Hex(g.deviceId);
    ComponentsWithout(g);
    Join4(a, "iommugroup=" + g.iommuGroup, "node=" + g.node, "path=" + g.pciPath, ",");
    var y := FieldsChain(a, g);
  }

  lemma ComponentsWith(g: GpuDevice, sub: string)
    requires SubsystemId(g) == sub && sub != ""
    ensures EntryComponents(g) ==
      ["id=" + Hex(g.vendorId) + ":" + Hex(g.deviceId), "iommugroup=" + g.iommuGroup, "node=" + g.node,
       "path=" + g.pciPath, "subsystem-id=" + sub]
  {
  }

  lemma ComponentsWithout(g: GpuDevice)
    requires g.subsystemVendorId == "" || g.subsystemDeviceId == ""
    ensures EntryComponents(g) ==
      ["id=" + Hex(g.vendorId) + ":" + Hex(g.deviceId), "iommugroup=" + g.iommuGroup, "node=" + g.node, "path=" + g.pciPath]
  {
  }

  /** The joined fixed components, rewritten with the comma inside each key. */
  lemma FieldsChain(a: string, g: GpuDevice) returns (y: string)
    ensures y == a + "," + ("iommugroup=" + g.iommuGroup) + "," + ("node=" + g.node) + "," + ("path=" + g.pciPath)
    ensures y == a + ",iommugroup=" + g.iommuGroup + ",node=" + g.node + ",path=" + g.pciPath
  {
    Field(a, "iommugroup=", g.iommuGroup, ",iommugroup=");
    var y1 := a + ",iommugroup=" + g.iommuGroup;
    Field(y1, "node=", g.node, ",node=");
    var y2 := y1 + ",node=" + g.node;
    Field(y2, "path=", g.pciPath, ",path=");
    y := y2 + ",path=" + g.pciPath;
  }

  lemma Field(x: string, key: string, v: string, lit: string)
    requires lit == "," + key
    ensures x + "," + (key + v) == x + lit + v
  {
  }

  /** For an id written "0x" + hex (hex holding no "0x"), removing "0x" and dropping two characters agree. */
  lemma HexMatchesSlice(hex: string)
    requires Free(hex, HexPrefix)
    ensures Hex(HexPrefix + hex) == hex == Drop(HexPrefix + hex, 2)
  {
    var s := HexPrefix + hex;
    assert s[..2] == HexPrefix && s[2..] == hex;
    ReplaceFree(hex, HexPrefix, "");
  }

  /** The two loops of create_gpu_mapping that build map_entries and form_data. */
  method BuildForm(mappingId: string, devices: seq<GpuDevice>) returns (mapEntries: seq<string>, formData: seq<(string, string)>)
    ensures mapEntries == MapEntries(devices)
    ensures formData == FormData(mappingId, mapEntries)
    ensures |formData| == 1 + |devices| && formData[0] == ("id", mappingId)
    ensures forall k :: 0 <= k < |devices| ==> formData[k + 1] == ("map", MapEntry(devices[k]))
  {
    mapEntries := [];
    for i := 0 to |devices|
      invariant mapEntries == MapEntries(devices[..i])
    {
      MapEntriesSnoc(devices, i);
      var entryStr := MapEntry(devices[i]);
      mapEntries := mapEntries + [entryStr];
    }
    assert devices[..|devices|] == devices;
    formData := [("id", mappingId)];
    for i := 0 to |mapEntries|
      invariant formData == FormData(mappingId, mapEntries[..i])
    {
      assert mapEntries[..i + 1][..i] == mapEntries[..i];
      formData := formData + [("map", mapEntries[i])];
    }
    assert mapEntries[..|mapEntries|] == mapEntries;
    assert |mapEntries| == |devices|;
    assert forall k :: 0 <= k < |devices| ==> mapEntries[k] == MapEntry(devices[k]);
  }

  lemma MapEntriesSnoc(devices: seq<GpuDevice>, i: nat)
    requires i < |devices|
    ensures MapEntries(devices[..i + 1]) == MapEntries(devices[..i]) + [MapEntry(devices[i])]
  {
  }
}
