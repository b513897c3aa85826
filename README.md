# Image inventory pipeline, modelled in Dafny

`main.py` inventories the machine images an account owns in every cloud region. It keeps
one JSON snapshot per region under `data/amis/<region>.json`. A run proceeds as follows:

1. It decides whether to list the images again (the cache gate).
2. It flattens every snapshot into records `{region, ami, ami_id}`.
3. It keeps the images of one build and sorts them by `(ami, region)`, descending.
4. It writes `doc.json`/`doc.ndjson` (the region document `cdi2`), `doc.ts` (line
   fragments) and `commmands.sh` (grant commands, then commented-out revoke commands).

This project models steps 1–4 over in-memory values and proves what each step promises.

| file | module | what it holds |
|---|---|---|
| `types.dfy` | `Types` | tags, image descriptors, snapshots, records, region entries |
| `text.dfy` | `Text` | Python's string order, the `in` substring test, writing and reading lines |
| `cache_gate.dfy` | `CacheGate` | the refetch decision (threshold 5) |
| `normalizer.dfy` | `Normalizer` | the Name-tag lookup and the nested normalizer loop |
| `filter_sort.dfy` | `FilterSort` | the build-token filter and the stable descending sort |
| `region_map.dfy` | `RegionMap` | building `cdi2`, one `{region: {"ami": id}}` per record |
| `emitters.dfy` | `Emitters` | the `doc.ts` brace stripping and the `commmands.sh` script |
| `pipeline.dfy` | `Pipeline` | one whole run, and properties that span the steps |

The loops of the script are methods with loop invariants, each proved against a function
that specifies it. These are the normalizer, the building of `cdi2`, the `doc.ts` writer,
and the collection and writing of the commands. The gate, the tag lookup, the filter, the
sort and the brace strip are expressions in the script, so they are functions here.

Behaviour of the code that is easy to misread:

- The `doc.ts` transform removes at most ONE leading `{` and ONE trailing `}`, not every
  brace. Python's `$` also matches just before a final newline, so `"{x}\n"` becomes `"x\n"`
  (`Emitters.StripWrappedNewline`).
- `sorted(..., reverse=True)` is stable. Records with equal `(ami, region)` keep their
  input order; `FilterSort.SortStable` and `FilterSort.SortUnique` state this.
- The build token is `sbx-cdi 2022-09-07T22-23-09.989Z`. The earlier assignment on the
  line above it is overwritten and never used.
- A `cdi2` entry maps the region to `{"ami": ami_id}`. The key is `"ami"`, but the value
  is the image ID, and the image name is dropped.

## Model

| member | source | states |
|---|---|---|
| `CacheGate.FetchDecision` | main.py:63 | With the flag set, a fetch always happens. Without it, a fetch happens exactly when fewer than 5 snapshot files exist. |
| `CacheGate.CacheSufficiencyMonotone` | main.py:63 | Once the cache has enough files to skip fetching, adding more files never triggers a fetch without the flag. |
| `CacheGate.GateExamples` | main.py:63 | With 3 files and no flag it fetches. With 5 files and no flag it does not. With the flag it fetches at any count. |
| `Normalizer.NameTagIsFirst` | main.py:72-75 | When the first tag with key "Name" is at index k, the display name is that tag's value. |
| `Normalizer.NameTagAbsent` | main.py:72-75 | With no tag list, or no tag keyed "Name", the display name is "". |
| `Normalizer.Normalize` | main.py:66-82 | The nested loop appends exactly the records of the specifying function `Flatten`: snapshot after snapshot, descriptor after descriptor. |
| `Normalizer.FlattenCount` | main.py:68-82 | There is exactly one record per image descriptor, summed over all snapshots. |
| `Normalizer.FlattenAt` | main.py:68-82 | Descriptor j of snapshot i becomes the record at offset (images in earlier snapshots) + j. Its region is the snapshot's file stem; its ami and ami_id are the descriptor's Name and ImageId. |
| `Normalizer.FlattenOrigin` | main.py:68-82 | Every record is the record of some descriptor of some snapshot, with that snapshot's stem as region. |
| `Text.StrLessTotal` | main.py:92 | The string order used by the sort key is total: two strings are equal or one is less. |
| `Text.StrLessTransitive` | main.py:92 | The string order is transitive. |
| `Text.ContainsIffOccurs` | main.py:91 | The `in` test holds exactly when the token occurs as a contiguous substring at some position. |
| `FilterSort.FilterByName` | main.py:91 | The filtered list is no longer than the input. A record is in it exactly when it is in the input and its ami contains the token. |
| `FilterSort.FilterIsSubsequence` | main.py:91 | The filtered list keeps input order: it is a subsequence of the records. |
| `FilterSort.FilterCounts` | main.py:91 | Each matching record is kept as many times as it occurs. Each non-matching record is dropped. |
| `FilterSort.FilterExamples` | main.py:88-91 | A name that extends the token matches it; "other-image" does not. |
| `FilterSort.SortDescending` | main.py:92 | The sorted list is a permutation of its input. Consecutive entries never increase in the (ami, region) tuple order. |
| `FilterSort.DescendingAllPairs` | main.py:92 | In the sorted list, every later entry is at most every earlier one. |
| `FilterSort.SortStable` | main.py:92 | Records with equal (ami, region) keep their input order. |
| `FilterSort.SortUnique` | main.py:92 | Any descending arrangement that keeps each key's records in input order equals the sort's result. |
| `FilterSort.SortExample` | main.py:92 | [(a, us-east-1), (b, us-west-2), (a, eu-west-1)] sorts to b/us-west-2, a/us-east-1, a/eu-west-1. |
| `RegionMap.RegionEntries` | main.py:94-98 | There is one entry per record, in the same order. Entry i has the single key region_i, mapped to exactly {"ami": ami_id_i}. |
| `RegionMap.BuildRegionMap` | main.py:94-98 | The append loop builds exactly those entries. |
| `RegionMap.OnlyKey` | main.py:121-123 | A single-entry map has no key other than its region, so `for region in dct` visits exactly that region. |
| `Emitters.StripWrapped` | main.py:110-112 | Stripping the braces undoes wrapping a text in `{` and `}`. |
| `Emitters.StripWrappedNewline` | main.py:112 | Before a final newline the closing brace is still removed, and the newline stays. |
| `Emitters.StripUnbraced` | main.py:110-112 | A newline-free text with no brace at either end is left unchanged. |
| `Emitters.StripSlice` | main.py:110-112 | For newline-free text, the first character is dropped exactly when it is `{`, then the last remaining character is dropped exactly when it is `}`, and nothing else changes. |
| `Emitters.WriteLineFragments` | main.py:109-113 | The loop writes one line per record text, in order: the stripped text followed by `,` and a newline. |
| `Emitters.FragmentsReadBack` | main.py:109-113 | Read back as lines, `doc.ts` holds exactly one line per record text (texts without newlines). |
| `Emitters.CollectCommands` | main.py:117-127 | The first loop builds one grant and one revoke command per entry, in document order. |
| `Emitters.WriteCommandScript` | main.py:117-133 | The script text is the grant lines followed by the commented revoke lines, each ended by a newline. |
| `Emitters.ScriptLength` | main.py:117-133 | For n entries, including none, the script has exactly 2n lines. |
| `Emitters.ScriptLayout` | main.py:117-133 | For n entries the script has 2n lines. Line i is entry i's grant and does not start with `#`. Line n+i is `#` plus the revoke for the same region and image. |
| `Emitters.GrantRevokeSameTarget` | main.py:124-125 | An entry's grant and revoke commands share the same region and image-id part; after it, both carry the launch-permission argument, with `Add` in the grant and `Remove` in the revoke, so they differ only in Add/Remove. |
| `Emitters.ScriptReadBack` | main.py:129-133 | Read back as lines, the script has exactly its 2n lines, when regions and ids hold no newline. |
| `Pipeline.Run` | main.py:63-133 | One run fetches exactly when the gate says so. Its document, `doc.ts` text and script are those specified for the snapshots it reads. |
| `Pipeline.CachedRunsAgree` | main.py:63 | With the flag unset and at least 5 snapshot files, a run reads only the cache, so two such runs produce identical reports. |
| `Pipeline.SelectedFromSnapshots` | main.py:91-92 | Every selected record comes from the snapshots and carries the build token in its image name. |
| `Pipeline.SelectedCounts` | main.py:68-92 | Each matching record is selected as often as it occurs in the snapshots. At most one record is selected per image descriptor. |
| `Pipeline.ScriptForSelection` | main.py:94-133 | Script line i grants the i-th selected record's region and image id. Line n+i revokes the same pair, commented out. |
| `Pipeline.DocumentForSelection` | main.py:92-98 | Document entry i maps the i-th selected region to {"ami": its image id}, and the selection is in descending order. |

## Left out

- Listing the images of every region (`refetch_amis_all_regions`) calls the cloud provider's API over the network, and the region list comes from an external package. `Pipeline.Run` takes the directory a refetch would leave as the parameter `afterFetch`.
- Argument parsing, logging setup, directory creation and the `debug` helper are process plumbing. They do not affect any output.
- JSON parsing and serialisation are not modelled. This covers `json.load`, `json.dumps`, `ndjson.dump` and `ndjson.reader`. A snapshot is given already parsed. The text of a `cdi2` entry is the parameter `render` of `Pipeline.Run`: it stands for Python's `str()` of the entry read back from `doc.ndjson`.
- Malformed snapshots abort the script. This includes a JSON parse error, or a missing "Images", "Name", "ImageId" or tag "Key". The typed descriptors of `Types` cannot be malformed, so this path is not modelled.
- `Normalizer.NameTag`: a tag whose key is "Name" but that lacks "Value" would abort the script; a `Tag` always has a value.
- The order of `glob("*.json")` depends on the file system. The model takes the snapshot directory as a sequence in the order it was listed.
- The gate counts `*.json` files. The model takes that count as the length of the on-disk snapshot sequence.
- File writes and the final chmod are left out. The chmod takes its mode from `path`, the last snapshot file left over from the normalizer loop, not from the script file. It fails when there are no snapshot files at all.
- `Emitters.WriteCommandScript`: the `for region in dct` loop is modelled for entries with exactly one region key, which is how `cdi2` is built. Python's insertion order of a multi-key dict is not modelled.
