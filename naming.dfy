/**
 * The mapping name of a GPU: a slug of its description and the id
 * gpu-<vendor><device>-<slug>-<index+1>.
 */
module Naming {
  import opened Text
  import opened Pci

  /**
   * The description with '[' and ']' removed, spaces, colons and hyphens
   * turned into underscores, then lower-cased.
   */
  function Slug(description: string): string {
    Lower(Replace(Replace(Replace(Replace(Replace(description, "[", ""), "]", ""), " ", "_"), ":", "_"), "-", "_"))
  }

  /** The id is built from the vendor and device ids without their first two characters (the "0x"). */
  function MappingId(vendorId: string, deviceId: string, description: string, index: nat): string {
    "gpu-" + Drop(vendorId, 2) + Drop(deviceId, 2) + "-" + Slug(description) + "-" + NatToString(index + 1)
  }

  function DeviceMappingId(g: GpuDevice): string {
    MappingId(g.vendorId, g.deviceId, g.description, g.index)
  }

  /** A slug holds no '[', ']', space, ':' or '-', and no upper-case letter. */
  lemma SlugIsClean(description: string)
    ensures forall i :: 0 <= i < |Slug(description)| ==>
              Slug(description)[i] !in "[] :-" && !IsUpper(Slug(description)[i])
  {
    var s1 := Replace(description, "[", "");
    var s2 := Replace(s1, "]", "");
    var s3 := Replace(s2, " ", "_");
    var s4 := Replace(s3, ":", "_");
    var s5 := Replace(s4, "-", "_");
    ReplaceRemoves(description, '[', "");
    ReplaceKeepsOut(s1, "]", "", '[');
    ReplaceKeepsOut(s2, " ", "_", '[');
    ReplaceKeepsOut(s3, ":", "_", '[');
    ReplaceKeepsOut(s4, "-", "_", '[');
    ReplaceRemoves(s1, ']', "");
    ReplaceKeepsOut(s2, " ", "_", ']');
    ReplaceKeepsOut(s3, ":", "_", ']');
    ReplaceKeepsOut(s4, "-", "_", ']');
    ReplaceRemoves(s2, ' ', "_");
    ReplaceKeepsOut(s3, ":", "_", ' ');
    ReplaceKeepsOut(s4, "-", "_", ' ');
    ReplaceRemoves(s3, ':', "_");
    ReplaceKeepsOut(s4, "-", "_", ':');
    ReplaceRemoves(s4, '-', "_");
    forall d | d in "[] :-" ensures d !in Lower(s5) {
      LowerMeaning(s5, d);
    }
    forall i | 0 <= i < |Lower(s5)| ensures !IsUpper(Lower(s5)[i]) {
      LowerMeaning(s5, Lower(s5)[i]);
    }
  }

  /**
   * A worked example: GA102 [GeForce RTX 3090] of vendor 0x10de,
   * device 0x2204, at index 0. (The texts are parameters so that the
   * verifier does not unfold Replace on literals by itself.)
   */
  lemma MappingIdExample(vendorId: string, deviceId: string, description: string, id: string)
    requires vendorId == "0x10de" && deviceId == "0x2204"
    requires description == "GA102 [GeForce RTX 3090]"
    requires id == "gpu-10de2204-ga102_geforce_rtx_3090-1"
    ensures MappingId(vendorId, deviceId, description, 0) == id
  {
    ExampleSlug(description);
    ExampleIds(vendorId, deviceId);
    ExampleIdText(id);
    MappingIdChain(vendorId, deviceId, description, id, "10de", "2204", "ga102_geforce_rtx_3090");
  }

  lemma ExampleSlug(description: string)
    requires description == "GA102 [GeForce RTX 3090]"
    ensures Slug(description) == "ga102_geforce_rtx_3090"
  {
    var w1, w2, w3, w4 := "GA102", "GeForce", "RTX", "3090";
    ExampleWords(description, w1, w2, w3, w4);
    ExampleWordsPlain(w1, w2, w3, w4);
    SlugOfBracketedWords(w1, w2, w3, w4);
    ExampleLower(w1, w2, w3, w4);
  }

  lemma ExampleIdText(id: string)
    requires id == "gpu-10de2204-ga102_geforce_rtx_3090-1"
    ensures id == "gpu-" + "10de" + "2204" + "-" + "ga102_geforce_rtx_3090" + "-1"
  {
  }

  lemma ExampleWords(description: string, w1: string, w2: string, w3: string, w4: string)
    requires description == "GA102 [GeForce RTX 3090]"
    requires w1 == "GA102" && w2 == "GeForce" && w3 == "RTX" && w4 == "3090"
    ensures description == w1 + " [" + w2 + " " + w3 + " " + w4 + "]"
  {
  }

  lemma ExampleWordsPlain(w1: string, w2: string, w3: string, w4: string)
    requires w1 == "GA102" && w2 == "GeForce" && w3 == "RTX" && w4 == "3090"
    ensures forall c :: c in "[] :-" ==> c !in w1 && c !in w2 && c !in w3 && c !in w4
  {
  }

  lemma ExampleLower(w1: string, w2: string, w3: string, w4: string)
    requires w1 == "GA102" && w2 == "GeForce" && w3 == "RTX" && w4 == "3090"
    ensures Lower(w1 + "_" + w2 + "_" + w3 + "_" + w4) == "ga102_geforce_rtx_3090"
  {
  }

  lemma ExampleIds(vendorId: string, deviceId: string)
    requires vendorId == "0x10de" && deviceId == "0x2204"
    ensures Drop(vendorId, 2) == "10de" && Drop(deviceId, 2) == "2204"
  {
  }

  lemma MappingIdChain(vendorId: string, deviceId: string, description: string, id: string, v: string, d: string, slug: string)
    requires Drop(vendorId, 2) == v && Drop(deviceId, 2) == d && Slug(description) == slug
    requires id == "gpu-" + v + d + "-" + slug + "-1"
    ensures MappingId(vendorId, deviceId, description, 0) == id
  {
    assert NatToString(0 + 1) == "1";
  }

  /** The slug of "w1 [w2 w3 w4]" for words without special characters. */
  lemma SlugOfBracketedWords(w1: string, w2: string, w3: string, w4: string)
    requires forall c :: c in "[] :-" ==> c !in w1 && c !in w2 && c !in w3 && c !in w4
    ensures Slug(w1 + " [" + w2 + " " + w3 + " " + w4 + "]") == Lower(w1 + "_" + w2 + "_" + w3 + "_" + w4)
  {
    var d := w1 + " [" + w2 + " " + w3 + " " + w4 + "]";
    var tail := w2 + " " + w3 + " " + w4;
    var s2 := w1 + " " + tail;
    var s3 := w1 + "_" + w2 + "_" + w3 + "_" + w4;
    assert '[' !in w1 && '[' !in w2 && '[' !in w3 && '[' !in w4;
    assert ']' !in w1 && ']' !in w2 && ']' !in w3 && ']' !in w4;
    assert ' ' !in w1 && ' ' !in w2 && ' ' !in w3 && ' ' !in w4;
    assert ':' !in w1 && ':' !in w2 && ':' !in w3 && ':' !in w4;
    assert '-' !in w1 && '-' !in w2 && '-' !in w3 && '-' !in w4;
    assert d == w1 + " [" + tail + "]";
    DropOpenBracket(w1, tail);
    DropCloseBracket(s2);
    assert s2 == w1 + " " + w2 + " " + w3 + " " + w4;
    SpacesToUnderscores(w1, w2, w3, w4);
    ReplaceCharAbsent(s3, ':', "_");
    ReplaceCharAbsent(s3, '-', "_");
    SlugChain(d, s2 + "]", s2, s3);
  }

  lemma SlugChain(d: string, s1: string, s2: string, s3: string)
    requires Replace(d, "[", "") == s1 && Replace(s1, "]", "") == s2 && Replace(s2, " ", "_") == s3
    requires Replace(s3, ":", "_") == s3 && Replace(s3, "-", "_") == s3
    ensures Slug(d) == Lower(s3)
  {
  }

  lemma DropOpenBracket(w1: string, tail: string)
    requires '[' !in w1 && '[' !in tail
    ensures Replace(w1 + " [" + tail + "]", "[", "") == w1 + " " + tail + "]"
  {
    assert w1 + " [" + tail + "]" == (w1 + " ") + ['['] + (tail + "]");
    RemoveOpen(w1, tail);
    KeepClose(tail);
  }

  lemma RemoveOpen(w1: string, tail: string)
    requires '[' !in w1 && '[' !in tail
    ensures Replace((w1 + " ") + ['['] + (tail + "]"), "[", "") == (w1 + " ") + Replace(tail + "]", "[", "")
  {
    Remove1(w1 + " ", tail + "]", '[', "");
  }

  lemma KeepClose(tail: string)
    requires '[' !in tail
    ensures Replace(tail + "]", "[", "") == tail + "]"
  {
    ReplaceCharSplit(tail, "]", '[', "");
    ReplaceCharAbsent(tail, '[', "");
  }

  lemma DropCloseBracket(s: string)
    requires ']' !in s
    ensures Replace(s + "]", "]", "") == s
  {
    ReplaceCharSplit(s, "]", ']', "");
    ReplaceCharAbsent(s, ']', "");
  }

  lemma SpacesToUnderscores(w1: string, w2: string, w3: string, w4: string)
    requires ' ' !in w1 && ' ' !in w2 && ' ' !in w3 && ' ' !in w4
    ensures Replace(w1 + " " + w2 + " " + w3 + " " + w4, " ", "_") == w1 + "_" + w2 + "_" + w3 + "_" + w4
  {
    RegroupSpaces(w1, w2, w3, w4);
    ReplaceCharAbsent(w4, ' ', "_");
    SpaceStep(w3, w4, w4);
    SpaceStep(w2, w3 + [' '] + w4, w3 + "_" + w4);
    Regroup3(w2, w3, w4);
    SpaceStep(w1, w2 + [' '] + (w3 + [' '] + w4), w2 + "_" + w3 + "_" + w4);
    RegroupUnderscores(w1, w2, w3, w4);
  }

  lemma SpaceStep(w: string, rest: string, done: string)
    requires ' ' !in w && Replace(rest, " ", "_") == done
    ensures Replace(w + [' '] + rest, " ", "_") == w + "_" + done
  {
    Remove1(w, rest, ' ', "_");
  }

  lemma RegroupSpaces(w1: string, w2: string, w3: string, w4: string)
    ensures w1 + " " + w2 + " " + w3 + " " + w4 == w1 + [' '] + (w2 + [' '] + (w3 + [' '] + w4))
  {
  }

  lemma Regroup3(w2: string, w3: string, w4: string)
    ensures w2 + "_" + (w3 + "_" + w4) == w2 + "_" + w3 + "_" + w4
  {
  }

  lemma RegroupUnderscores(w1: string, w2: string, w3: string, w4: string)
    ensures w1 + "_" + (w2 + "_" + w3 + "_" + w4) == w1 + "_" + w2 + "_" + w3 + "_" + w4
  {
  }

  /** Replacing c in x + [c] + y where x holds no c. */
  lemma Remove1(x: string, y: string, c: char, rep: string)
    requires c !in x
    ensures Replace(x + [c] + y, [c], rep) == x + rep + Replace(y, [c], rep)
  {
    ReplaceCharSplit(x + [c], y, c, rep);
    ReplaceCharSplit(x, [c], c, rep);
    ReplaceCharAbsent(x, c, rep);
  }

  /**
   * The text after the last '-' of an id is the decimal 1-based index, and
   * nothing else in the id can reach it, so ids with different indices differ
   * whatever their vendor, device and description.
   */
  lemma MappingIdsDistinct(v1: string, d1: string, s1: string, i: nat, v2: string, d2: string, s2: string, j: nat)
    requires i != j
    ensures MappingId(v1, d1, s1, i) != MappingId(v2, d2, s2, j)
  {
    var x, y := NatToString(i + 1), NatToString(j + 1);
    var a := "gpu-" + Drop(v1, 2) + Drop(d1, 2) + "-" + Slug(s1);
    var b := "gpu-" + Drop(v2, 2) + Drop(d2, 2) + "-" + Slug(s2);
    assert MappingId(v1, d1, s1, i) == a + ['-'] + x;
    assert MappingId(v2, d2, s2, j) == b + ['-'] + y;
    assert '-' !in x && '-' !in y;
    if a + ['-'] + x == b + ['-'] + y {
      LastPartAgrees(a, x, b, y, '-');
      DecimalRoundTrip(i + 1);
      DecimalRoundTrip(j + 1);
    }
  }

  /** The GPUs found on one node all get different mapping ids. */
  lemma NodeMappingIdsDistinct(node: string, pci: seq<PciRecord>, lastSeen: string)
    ensures forall k, l :: 0 <= k < l < |Parse(node, pci, lastSeen)| ==>
              DeviceMappingId(Parse(node, pci, lastSeen)[k]) != DeviceMappingId(Parse(node, pci, lastSeen)[l])
  {
    var gs := Parse(node, pci, lastSeen);
    forall k, l | 0 <= k < l < |gs| ensures DeviceMappingId(gs[k]) != DeviceMappingId(gs[l]) {
      MappingIdsDistinct(gs[k].vendorId, gs[k].deviceId, gs[k].description, k,
                         gs[l].vendorId, gs[l].deviceId, gs[l].description, l);
    }
  }
}
