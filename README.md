# cc2imgcap core, modelled in Dafny

cc2imgcap turns Common Crawl WAT archives into an image-URL / alt-text dataset. This project
models the logic of `cc2imgcap/main.py` that decides *what* ends up in that dataset:

- **Link filter** (`link_filter.dfy`, module `LinkFilter`): `valid_link`, over a decoded JSON
  value (`pyvalue.dfy`, module `PyValue`, holds the JSON value type and the Python operations
  applied to it — `d[k]`, `k in v`, `len`, `endswith` — each with the exception it raises on
  the wrong type; `link.get(k, "")` and `startswith` are read directly in `LinkFilter`).
- **Archive extractor** (`wat_extract.dfy`, module `WatExtract`): `extract_imgs`. The archive is
  the sequence of its metadata records as the archive reader yields them: a record that
  decoded to JSON, a record whose decoding raised, or the point where the reader itself raised.
  md5 is the function parameter `hash`. `Scan` is the body of the outer `try` as a fold over
  the records, `Extraction` adds the outer `except`, and the method `ExtractImgs` is the loop
  itself, proved equal to `Extraction`.
- **Shard index** (`wat_index.dfy`, module `WatIndex`): `read_wat_index_files`. The manifest
  locations and each manifest's lines are inputs. The thread pool's completion order is a
  nondeterministic choice of the next pending manifest. The sampling draws are a
  nondeterministic choice of indices.
- **Multi-part slicing** (`multi_part.dfy`, module `MultiPart`): the part size
  `ceil(n / multipart)`, the slicing loop of `process_multi_part`, the part paths, and the
  repartition count `max(256, wat_count // 100)`.
- `pyslice.dfy` (module `PySlice`) gives Python's clamping slice `s[i:j]` and `str(n)`.
- `results.dfy` (module `Results`) gives the `Result`/`Option` types and the exception kinds.

Behaviour of the code worth knowing:

- A link whose `url` is present but not a string, or whose `alt` is present with no length
  (a number, `null`, a boolean), makes `valid_link` raise. A kept link whose `alt` is a
  non-empty list or dict makes `alt + url` raise. Either exception reaches the outer handler,
  so the whole file yields `[]`, not just that descriptor skipped.
- When the archive reader fails mid-stream, the result is `[]`, not the candidates gathered
  so far.
- The extension test in `valid_link` never changes the verdict. It is still evaluated, so a
  non-string `url` raises through it.

## Model

| member | source | states |
|---|---|---|
| `LinkFilter.ValidLink` | cc2imgcap/main.py:57-62 | raises exactly when the link is not a dict, its `url` (default "") is not a string, or its `alt` (default "") has no length; otherwise true exactly when `path == "IMG@/src"`, `url` starts with `http` and `alt` is non-empty; the `.png/.jpg/.jpeg` test never decides |
| `LinkFilter.ValidLinkOnStrings` | cc2imgcap/main.py:57-62 | on a dict of strings `valid_link` never raises, and a missing `path`, `url` or `alt` rejects |
| `WatExtract.LinksOfNavigation` | cc2imgcap/main.py:32-43 | when `Envelope/Payload-Metadata/HTTP-Response-Metadata/HTML-Metadata/Links` are all present dicts the record's links are found; a missing `Envelope` or `Payload-Metadata` raises; a dict lacking `HTTP-Response-Metadata`, `HTML-Metadata` or `Links` skips the record without error |
| `WatExtract.LinksOf` | cc2imgcap/main.py:32-43 | a record that is not a dict raises `TypeError`; the only `KeyError`s the navigation can raise are for `Envelope` and `Payload-Metadata`, because the three later levels are tested with `in` before they are read |
| `WatExtract.FilterValid` | cc2imgcap/main.py:46 | the comprehension raises exactly when some link is malformed; otherwise a link is in the result exactly when it is an accepted link of the list |
| `WatExtract.FilterSingleton` | cc2imgcap/main.py:46 | a well-formed link on its own is kept, once, exactly when `valid_link` accepts it; a malformed one raises |
| `WatExtract.FilterAppend` | cc2imgcap/main.py:46 | the comprehension over `a + b` is the comprehension over `a` followed by that over `b`, so kept links stay in list order and keep their multiplicity; it raises exactly when one of the pieces does |
| `WatExtract.KeptLinks` | cc2imgcap/main.py:43-46 | a list is filtered by the comprehension; `len(links)` raises `TypeError` on a value without length; a dict or string yields `[]` when empty and raises when not (its keys or characters have no `get`); every kept link is an accepted element of a links list |
| `WatExtract.Tag` | cc2imgcap/main.py:46-48 | tagging succeeds exactly when the link is a dict whose `url` and `alt` are present strings; the candidate then copies both and has `uid = hash(alt + url)` |
| `WatExtract.TagAll` | cc2imgcap/main.py:46-48 | one candidate per kept link, in link order, each the tagging of that link; fails exactly when some tagging fails |
| `WatExtract.TagAllAppend` | cc2imgcap/main.py:47-48 | tagging `a + b` is tagging `a` followed by tagging `b`, failing exactly when one of them fails |
| `WatExtract.LinkCandidatesSingle` | cc2imgcap/main.py:46-62 | a link taken on its own gives nothing when rejected and exactly its tagged candidate when accepted; an accepted link fails to tag exactly when its `alt` is not a string |
| `WatExtract.FilterThenTag` | cc2imgcap/main.py:46-48 | filtering the whole list and then tagging the kept links gives the same result as taking the links one at a time: one candidate per accepted link, where it stands, as often as it occurs; one way raises exactly when the other does |
| `WatExtract.RecordPerLink` | cc2imgcap/main.py:43-48 | the candidates of a record whose `Links` is a list are exactly those of its links taken one at a time, in list order |
| `WatExtract.RecordLinkOrder` | cc2imgcap/main.py:46-49 | splitting a record's link list splits its candidates at the same place: the candidates of earlier links come first |
| `WatExtract.ExtractImgs` | cc2imgcap/main.py:20-54 | the loop returns exactly `Extraction(stream)`: the fold over the records with any fault collapsing to `[]` |
| `WatExtract.ScanFaults` | cc2imgcap/main.py:24-30 | the scan fails exactly when some record or the reader faults; an undecodable record is not a fault |
| `WatExtract.ScanAppend` | cc2imgcap/main.py:25-49 | scanning a stream in two pieces gives the first piece's candidates followed by the second's |
| `WatExtract.Extraction` | cc2imgcap/main.py:20-54 | with any fault the result is `[]`; without one it is the complete fold over the records, never a partial prefix |
| `WatExtract.ExtractionOrder` | cc2imgcap/main.py:25-49 | on a fault-free stream, output order is record order |
| `WatExtract.PrefixExtends` | cc2imgcap/main.py:22-49 | the accumulator only grows: each prefix of a fault-free stream yields a prefix of the output |
| `WatExtract.SkipNeutral` | cc2imgcap/main.py:25-49 | a record that contributes nothing without fault can be removed from the stream without changing the output |
| `WatExtract.UndecodableSkipped` | cc2imgcap/main.py:26-30 | a record that fails to decode contributes nothing and iteration continues |
| `WatExtract.MissingOptionalLevelSkipped` | cc2imgcap/main.py:34-41 | a record lacking `HTTP-Response-Metadata`, `HTML-Metadata` or `Links` contributes nothing and is not an error |
| `WatExtract.MissingMandatoryLevelEmpties` | cc2imgcap/main.py:32-33 | a record lacking `Envelope` or `Payload-Metadata`, or a reader failure, anywhere in the stream empties the whole result |
| `WatExtract.RecordSound` | cc2imgcap/main.py:43-48 | every candidate of a record copies `url` and `alt` from an accepted link of that record and has `uid = hash(alt + url)` |
| `WatExtract.ExtractionSound` | cc2imgcap/main.py:46-49 | every output candidate has `uid = hash(alt + url)` and comes from some decoded record of the stream |
| `WatExtract.UidsAgree` | cc2imgcap/main.py:48 | two output candidates with equal `(alt, url)` have equal `uid` |
| `WatExtract.ExtractionComplete` | cc2imgcap/main.py:43-49 | on a fault-free stream every accepted link of every record is in the output with `uid = hash(alt + url)` |
| `WatExtract.TwoLinkExample` | cc2imgcap/main.py:46-62 | a record with one image link (`alt` "cat") and one link of another path yields exactly the first |
| `PySlice.Slice` | cc2imgcap/main.py:101 | `s[i:j]` never raises; its length is the distance between the clamped bounds, or 0 when they cross |
| `PySlice.SliceWindow` | cc2imgcap/main.py:150 | `s[i:j]` is the run of `s` starting at the clamped position of `i` |
| `PySlice.SliceFromEnd` | cc2imgcap/main.py:101 | `s[-c:]` is a suffix of `s` of length `c` when `0 < c <= len(s)`, all of `s` when `c == 0` or `c >= len(s)`, and `s` without its first `-c` elements when `c < 0` (nothing when `-c >= len(s)`) |
| `WatIndex.RecentManifests` | cc2imgcap/main.py:100-101 | the kept manifests are a suffix of the found ones; all of them with no count or a count of 0; otherwise as many as `KeptCount` says |
| `WatIndex.ListingPermutation` | cc2imgcap/main.py:103-105 | the order manifests complete in does not change which paths are listed, nor how often |
| `WatIndex.Choices` | cc2imgcap/main.py:107 | `k` draws (none when `k <= 0`), each an element of the population, duplicates allowed; raises exactly when `k > 0` and the population is empty |
| `WatIndex.ReadWatIndexFiles` | cc2imgcap/main.py:97-108 | without a sample size the result is the concatenation of the kept manifests' lists in some completion order, the same multiset as in manifest order; with one it has exactly that many elements, all drawn from that concatenation; it raises exactly when a positive sample size meets an empty concatenation |
| `PySlice.DecimalRoundTrip` | cc2imgcap/main.py:147 | the decimal text of a part number reads back as that number |
| `MultiPart.PartPath` | cc2imgcap/main.py:147 | the part path lies under `output_path/part_` and ends in a non-empty run of decimal digits |
| `MultiPart.PartPathsDistinct` | cc2imgcap/main.py:147 | different part numbers give different `part_{i}` locations |
| `MultiPart.CeilDiv` | cc2imgcap/main.py:142 | `ceil(n / m)` is the least integer whose product with a positive `m` reaches `n`, and the matching bound for a negative `m` |
| `MultiPart.PartAt` | cc2imgcap/main.py:145-150 | part `i` is written under `part_{i}` and holds `wat_index_files[i*k:(i+1)*k]`, which is block `i` of size `k` |
| `MultiPart.SliceLoop` | cc2imgcap/main.py:144-150 | `range(multipart)` gives `max(0, multipart)` parts, part `i` at `part_{i}` holding block `i`; for a positive `multipart` together they are the list up to where block `multipart` starts |
| `MultiPart.SliceParts` | cc2imgcap/main.py:141-150 | `multipart == 0` divides by zero; otherwise exactly `max(0, multipart)` parts, part `i` at `part_{i}` holding block `i` of size `ceil(n/multipart)`; for `multipart >= 1` the parts concatenate to the original list |
| `MultiPart.ShardInOnePart` | cc2imgcap/main.py:144-150 | each shard index lies in exactly one part, number `index / k`, which is below `multipart` |
| `MultiPart.RepartitionCount` | cc2imgcap/main.py:113 | at least 256 partitions and at least `n // 100`; above 256 it never exceeds one per hundred shards |

## Left out

- File and object-store access (`process_wat`, `get_cc_wat_links`, `read_wat_index_file`): the record stream, the manifest locations and each manifest's lines are inputs. A failing manifest read is fatal in the source; here `read` always answers.
- The archive reader and JSON decoder (fastwarc, simdjson): records arrive pre-decoded. JSON numbers are kept as integers, because no number reaches the filter's logic.
- md5: the hash is a function parameter, so only its determinism is used.
- `.encode()` on a string that cannot be encoded (lone surrogates) is not modelled: every string is taken to encode.
- The `total` counter of `extract_imgs` is never read. Only the `len(links)` call that feeds it is modelled, because it can raise.
- Printing, logging, timing, the uuid job id and the `fire` entry point.
- All Spark work: `parallelize`, `mapPartitions`, `toDF`, `dropDuplicates`, `repartition`, parquet writes and reads, `union`. Its behaviour lives in the library, not in the shown code. The deduplication guarantees of the dataset are therefore not modelled. `process_one_part` passes an undefined name `spark` (main.py:136); that call is outside the model.
- WatIndex.Choices: does not state that the draws are uniform. It states only the count and that each draw comes from the population.
- WatIndex.ReadWatIndexFiles: the thread pool is modelled only through its completion order, a nondeterministic choice. Threads and blocking are not modelled.
- MultiPart.CeilDiv: the source computes `ceil` of a floating-point quotient; the model uses the exact ceiling. The two agree while `n` stays well below 2^52.
- WatExtract.LinksOfNavigation: it characterises records whose levels are dicts. Other shapes (a string or list where a dict is expected) are in `LinksOf` with Python's semantics but have no lemma of their own.
- `url_is_img` (main.py:65-68): unused, and it always raises.
- `examples/single_warc_example.py`: a driver script; it calls `process_wat` with an argument too many.
