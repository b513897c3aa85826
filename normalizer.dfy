/** The record normalizer: every descriptor of every snapshot becomes one record. */
module Normalizer {
  import opened Types

  /** The list comprehension of the Name-tag lookup: values of the tags whose key is "Name". */
  function NameValues(tags: seq<Tag>): (values: seq<string>)
    ensures |values| <= |tags|
  {
    if tags == [] then []
    else (if tags[0].key == "Name" then [tags[0].value] else []) + NameValues(tags[1..])
  }

  /** The display name of an image: the first "Name" tag's value, or "" without one. */
  function NameTag(tags: Option<seq<Tag>>): string
  {
    match tags
    case None => ""
    case Some(ts) =>
      var lst := NameValues(ts);
      if lst == [] then "" else lst[0]
  }

  /** With a "Name" tag at k and none before it, the display name is the value at k. */
  lemma {:induction false} NameTagIsFirst(tags: seq<Tag>, k: nat)
    requires k < |tags| && tags[k].key == "Name"
    requires forall j :: 0 <= j < k ==> tags[j].key != "Name"
    ensures NameValues(tags) != [] && NameValues(tags)[0] == tags[k].value
    ensures NameTag(Some(tags)) == tags[k].value
  {
    if k > 0 {
      NameTagIsFirst(tags[1..], k - 1);
    }
  }

  /** Without a tag list, or with no "Name" tag in it, the display name is "". */
  lemma {:induction false} NameTagAbsent(tags: Option<seq<Tag>>)
    requires tags.Some? ==> forall j :: 0 <= j < |tags.value| ==> tags.value[j].key != "Name"
    ensures NameTag(tags) == ""
  {
    if tags.Some? {
      NameValuesNone(tags.value);
    }
  }

  lemma {:induction false} NameValuesNone(tags: seq<Tag>)
    requires forall j :: 0 <= j < |tags| ==> tags[j].key != "Name"
    ensures NameValues(tags) == []
  {
    if tags != [] {
      NameValuesNone(tags[1..]);
    }
  }

  /** The record for one descriptor: the region is the file stem, never a descriptor field. */
  function RecordOf(stem: string, image: Image): Record
  {
    Record(stem, image.name, image.imageId)
  }

  /** The records of one snapshot, in descriptor order. */
  function SnapshotRecords(snap: Snapshot): (rs: seq<Record>)
    ensures |rs| == |snap.images|
    ensures forall j :: 0 <= j < |rs| ==> rs[j] == RecordOf(snap.stem, snap.images[j])
  {
    seq(|snap.images|, j requires 0 <= j < |snap.images| => RecordOf(snap.stem, snap.images[j]))
  }

  /** The records of a whole snapshot directory, snapshot after snapshot. */
  function Flatten(snaps: seq<Snapshot>): seq<Record>
  {
    if snaps == [] then [] else Flatten(snaps[..|snaps| - 1]) + SnapshotRecords(snaps[|snaps| - 1])
  }

  /** The number of image descriptors in a snapshot directory. */
  function ImageCount(snaps: seq<Snapshot>): nat
  {
    if snaps == [] then 0 else ImageCount(snaps[..|snaps| - 1]) + |snaps[|snaps| - 1].images|
  }

  /** One record per descriptor, summed over all snapshots. */
  lemma {:induction false} FlattenCount(snaps: seq<Snapshot>)
    ensures |Flatten(snaps)| == ImageCount(snaps)
  {
    if snaps != [] {
      FlattenCount(snaps[..|snaps| - 1]);
    }
  }

  lemma {:induction false} ImageCountPrefix(snaps: seq<Snapshot>, i: nat)
    requires i < |snaps|
    ensures ImageCount(snaps[..i]) + |snaps[i].images| <= ImageCount(snaps)
  {
    if i < |snaps| - 1 {
      assert snaps[..|snaps| - 1][..i] == snaps[..i];
      ImageCountPrefix(snaps[..|snaps| - 1], i);
    } else {
      assert snaps[..|snaps| - 1] == snaps[..i];
    }
  }

  /** Descriptor j of snapshot i becomes the record at ImageCount(snaps[..i]) + j. */
  lemma {:induction false} FlattenAt(snaps: seq<Snapshot>, i: nat, j: nat)
    requires i < |snaps| && j < |snaps[i].images|
    ensures ImageCount(snaps[..i]) + j < |Flatten(snaps)|
    ensures Flatten(snaps)[ImageCount(snaps[..i]) + j] == RecordOf(snaps[i].stem, snaps[i].images[j])
  {
    FlattenCount(snaps);
    ImageCountPrefix(snaps, i);
    var init := snaps[..|snaps| - 1];
    if i < |snaps| - 1 {
      assert init[..i] == snaps[..i];
      FlattenAt(init, i, j);
    } else {
      assert init == snaps[..i];
      FlattenCount(init);
    }
  }

  /** Every record names the stem of a snapshot it came from and one of that snapshot's images. */
  lemma {:induction false} FlattenOrigin(snaps: seq<Snapshot>, n: nat)
    requires n < |Flatten(snaps)|
    ensures exists i, j :: 0 <= i < |snaps| && 0 <= j < |snaps[i].images|
                           && Flatten(snaps)[n] == RecordOf(snaps[i].stem, snaps[i].images[j])
  {
    var init := snaps[..|snaps| - 1];
    var last := |snaps| - 1;
    if n < |Flatten(init)| {
      FlattenOrigin(init, n);
      var i, j :| 0 <= i < |init| && 0 <= j < |init[i].images|
                  && Flatten(init)[n] == RecordOf(init[i].stem, init[i].images[j]);
      assert Flatten(snaps)[n] == RecordOf(snaps[i].stem, snaps[i].images[j]);
    } else {
      var j := n - |Flatten(init)|;
      assert Flatten(snaps)[n] == RecordOf(snaps[last].stem, snaps[last].images[j]);
    }
  }

  /**
   * The loop of the script: for each snapshot file, for each descriptor under "Images",
   * look up its display name and append {region: stem, ami: Name, ami_id: ImageId}.
   */
  method Normalize(snaps: seq<Snapshot>) returns (records: seq<Record>)
    ensures records == Flatten(snaps)
  {
    records := [];
    for i := 0 to |snaps|
      invariant records == Flatten(snaps[..i])
    {
      var snap := snaps[i];
      assert snaps[..i + 1][..i] == snaps[..i];
      ghost var before := records;
      for j := 0 to |snap.images|
        invariant records == before + SnapshotRecords(snap)[..j]
      {
        var image := snap.images[j];
        // The display name is looked up but, as in the script, not stored in the record.
        var displayName := NameTag(image.tags);
        records := records + [RecordOf(snap.stem, image)];
        assert SnapshotRecords(snap)[..j + 1] == SnapshotRecords(snap)[..j] + [RecordOf(snap.stem, image)];
      }
      assert SnapshotRecords(snap)[..|snap.images|] == SnapshotRecords(snap);
    }
    assert snaps[..|snaps|] == snaps;
  }
}
