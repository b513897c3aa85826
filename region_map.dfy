/** The region document `cdi2`: one single-entry map {region: {"ami": image id}} per selected record. */
module RegionMap {
  import opened Types

  /** A well-formed entry: exactly one region key, whose value has an "ami" key. */
  ghost predicate IsRegionEntry(e: RegionEntry)
  {
    |e| == 1 && forall region :: region in e ==> "ami" in e[region]
  }

  /** The region key of an entry. */
  ghost function RegionOf(e: RegionEntry): (region: string)
    requires |e| == 1
    ensures region in e
  {
    var region :| region in e; region
  }

  /** The image id an entry maps its region to. */
  ghost function ImageIdOf(e: RegionEntry): string
    requires IsRegionEntry(e)
  {
    e[RegionOf(e)]["ami"]
  }

  /** A single-entry map has no key other than its region. */
  lemma {:induction false} OnlyKey(e: RegionEntry, region: string)
    requires |e| == 1 && region in e
    ensures RegionOf(e) == region
  {
    var other := RegionOf(e);
    if other != region {
      assert {region, other} <= e.Keys;
      assert |{region, other}| == 2;
      SubsetCard({region, other}, e.Keys);
      assert false;
    }
  }

  lemma {:induction false} SubsetCard<T>(a: set<T>, b: set<T>)
    requires a <= b
    ensures |a| <= |b|
  {
    assert b == a + (b - a);
  }

  /** The entry for one record: `{region: {"ami": ami_id}}`; the image name is not carried. */
  function EntryFor(r: Record): RegionEntry
  {
    map[r.region := map["ami" := r.amiId]]
  }

  /** The entries for a record list, in the same order. */
  function RegionEntries(records: seq<Record>): (entries: seq<RegionEntry>)
    ensures |entries| == |records|
    ensures forall i :: 0 <= i < |records| ==>
              IsRegionEntry(entries[i])
              && RegionOf(entries[i]) == records[i].region
              && ImageIdOf(entries[i]) == records[i].amiId
              && entries[i][records[i].region].Keys == {"ami"}
  {
    var entries := seq(|records|, i requires 0 <= i < |records| => EntryFor(records[i]));
    assert forall i :: 0 <= i < |records| ==> RegionOf(entries[i]) == records[i].region by {
      forall i | 0 <= i < |records| {
        OnlyKey(entries[i], records[i].region);
      }
    }
    entries
  }

  /** The loop building `cdi2`: one appended entry per sorted record. */
  method BuildRegionMap(images: seq<Record>) returns (cdi2: seq<RegionEntry>)
    ensures cdi2 == RegionEntries(images)
  {
    cdi2 := [];
    for i := 0 to |images|
      invariant |cdi2| == i
      invariant forall j :: 0 <= j < i ==> cdi2[j] == EntryFor(images[j])
    {
      var dct := images[i];
      var region := dct.region;
      var x := map[region := map["ami" := dct.amiId]];
      cdi2 := cdi2 + [x];
    }
  }
}
