/** One run of the script: gate, normalize, filter and sort, then emit the reports. */
module Pipeline {
  import opened Types
  import opened Text
  import CacheGate
  import opened Normalizer
  import opened FilterSort
  import opened RegionMap
  import opened Emitters

  /** What one run produces: the region document and the texts of doc.ts and commmands.sh. */
  datatype Report = Report(cdi2: seq<RegionEntry>, fragments: string, script: string)

  /** The snapshot directory the normalizer reads: refetched, or the cache as it is. */
  function SnapshotsRead(refetch: bool, onDisk: seq<Snapshot>, afterFetch: seq<Snapshot>): seq<Snapshot>
  {
    if CacheGate.ShouldFetch(refetch, |onDisk|) then afterFetch else onDisk
  }

  /** The records of the build, in descending (ami, region) order. */
  function Selected(snaps: seq<Snapshot>): seq<Record>
  {
    SortDescending(FilterByName(Flatten(snaps), FilterToken))
  }

  /** The text of each document entry as read back from doc.ndjson. */
  function Rendered(cdi2: seq<RegionEntry>, render: RegionEntry -> string): (posts: seq<string>)
    ensures |posts| == |cdi2|
    ensures forall i :: 0 <= i < |cdi2| ==> posts[i] == render(cdi2[i])
  {
    seq(|cdi2|, i requires 0 <= i < |cdi2| => render(cdi2[i]))
  }

  /** The report a run must produce from a given snapshot directory. */
  ghost function Expected(snaps: seq<Snapshot>, render: RegionEntry -> string): Report
  {
    var cdi2 := RegionEntries(Selected(snaps));
    Report(cdi2, Unlines(FragmentLines(Rendered(cdi2, render))), Unlines(ScriptLines(cdi2)))
  }

  /**
   * The script from line 63 on. Listing the images of every region is outside the model:
   * `afterFetch` is the snapshot directory as a refetch would leave it, and `render` stands
   * for the text Python gives each entry read back from doc.ndjson.
   */
  method Run(refetch: bool, onDisk: seq<Snapshot>, afterFetch: seq<Snapshot>, render: RegionEntry -> string)
    returns (fetched: bool, report: Report)
    ensures fetched <==> refetch || |onDisk| < CacheGate.MinSnapshots
    ensures report == Expected(SnapshotsRead(refetch, onDisk, afterFetch), render)
  {
    fetched := CacheGate.ShouldFetch(refetch, |onDisk|);
    var snaps := if fetched then afterFetch else onDisk;
    var records := Normalize(snaps);
    var cdiImages := FilterByName(records, FilterToken);
    cdiImages := SortDescending(cdiImages);
    var cdi2 := BuildRegionMap(cdiImages);
    var ts := WriteLineFragments(Rendered(cdi2, render));
    var script := WriteCommandScript(cdi2);
    report := Report(cdi2, ts, script);
  }

  /** With the flag unset and the cache full, a run reads only the cache: reruns agree. */
  lemma CachedRunsAgree(onDisk: seq<Snapshot>, fetchA: seq<Snapshot>, fetchB: seq<Snapshot>,
                        render: RegionEntry -> string)
    requires |onDisk| >= CacheGate.MinSnapshots
    ensures SnapshotsRead(false, onDisk, fetchA) == onDisk
    ensures Expected(SnapshotsRead(false, onDisk, fetchA), render)
         == Expected(SnapshotsRead(false, onDisk, fetchB), render)
  {
  }

  /** Every selected record comes from the snapshots and carries the build token in its name. */
  lemma SelectedFromSnapshots(snaps: seq<Snapshot>, r: Record)
    requires r in Selected(snaps)
    ensures r in Flatten(snaps)
    ensures Matches(r, FilterToken)
  {
    var kept := FilterByName(Flatten(snaps), FilterToken);
    assert r in multiset(Selected(snaps));
    assert r in multiset(kept);
  }

  /** Each record of the build appears in the selection exactly as often as in the snapshots. */
  lemma SelectedCounts(snaps: seq<Snapshot>, r: Record)
    ensures multiset(Selected(snaps))[r] == if Matches(r, FilterToken) then multiset(Flatten(snaps))[r] else 0
    ensures |Selected(snaps)| <= ImageCount(snaps)
  {
    var kept := FilterByName(Flatten(snaps), FilterToken);
    FilterCounts(Flatten(snaps), FilterToken, r);
    FlattenCount(snaps);
    assert |Selected(snaps)| == |multiset(Selected(snaps))| == |multiset(kept)| == |kept|;
  }

  /**
   * Line i of commmands.sh grants selected record i; line n + i revokes the same region
   * and image id, commented out.
   */
  lemma ScriptForSelection(snaps: seq<Snapshot>, i: nat)
    requires i < |Selected(snaps)|
    ensures var sel := Selected(snaps);
            var lines := ScriptLines(RegionEntries(sel));
            |lines| == 2 * |sel|
            && lines[i] == GrantCommand(sel[i].region, sel[i].amiId)
            && lines[|sel| + i] == "#" + RevokeCommand(sel[i].region, sel[i].amiId)
  {
    var sel := Selected(snaps);
    ScriptLayout(RegionEntries(sel), i);
  }

  /** The document entries follow the selection: entry i maps region i to image id i. */
  lemma DocumentForSelection(snaps: seq<Snapshot>, i: nat)
    requires i < |Selected(snaps)|
    ensures var sel := Selected(snaps);
            var cdi2 := RegionEntries(sel);
            |cdi2| == |sel| && cdi2[i].Keys == {sel[i].region}
            && cdi2[i][sel[i].region] == map["ami" := sel[i].amiId]
            && (i + 1 < |sel| ==> KeyAtMost(sel[i + 1], sel[i]))
  {
    var sel := Selected(snaps);
    var cdi2 := RegionEntries(sel);
    OnlyKey(cdi2[i], sel[i].region);
    assert cdi2[i].Keys == {sel[i].region} by {
      forall k | k in cdi2[i]
        ensures k == sel[i].region
      {
        OnlyKey(cdi2[i], k);
      }
    }
  }
}
