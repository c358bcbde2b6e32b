# ReverseImageSearchFast: the image collection's bookkeeping

The ReverseImageSearchFast app of ml4a-ofx lets a user pick a directory. It
collects the image files below that directory, encodes each image with a CNN
and reduces the encodings with PCA. It then puts the reduced vectors in a
kd-tree and answers "which images look like this one" queries against it.
The collection can be saved to a file and loaded back.

This project models how the app keeps its image collection as the collection
moves through that pipeline. The collection is `images`, a list of records
holding `filename`, `encoding` and `projectedEncoding`. For each stage the
model says which records exist, in what order, and which fields the stage
writes or leaves alone. The numerical parts are parameters of the model:

| external part | how it is modelled |
|---|---|
| encoder | `encode(path)` |
| image loading | `canLoad(path)` |
| PCA fitting | `fit(samples, components)` |
| PCA projection | `project(reducer, v)` |
| nearest-neighbour search | `knn(points, query, k)` |
| `random_shuffle` | an arbitrary permutation of the indices |

The kd-tree is represented by its point list.

Files:
- `scan.dfy`, module `DirectoryScan`:
  - directories as a tree of entries;
  - the extension filter;
  - the depth-first list of candidate files.
- `collection.dfy`, module `ImageCollection`:
  - the records, the reducer state and the saved artifact as values;
  - one specification function per stage, and the lemmas about them.
- `app.dfy`, module `ReverseImageSearch`:
  - `class App`, with the app's fields;
  - one method per stage, each changing only the fields the stage changes;
  - each method proved against the specification functions.

## Model

| member | source | states |
|---|---|---|
| DirectoryScan.LowerChar | apps/ReverseImageSearchFast/src/ofApp.cpp:120 | an upper-case ASCII letter is mapped to its lower-case letter; every other character is kept |
| DirectoryScan.ToLower | apps/ReverseImageSearchFast/src/ofApp.cpp:120 | the lowered extension has the same length, is lowered character by character, and contains no upper-case letter |
| DirectoryScan.CandidatesStep | apps/ReverseImageSearchFast/src/ofApp.cpp:113-123 | handling one more listing entry appends exactly that entry's contribution: the subtree's candidates for a directory, the file itself or nothing for a file |
| DirectoryScan.ScanStep | apps/ReverseImageSearchFast/src/ofApp.cpp:113-123 | the scan's running list stays "what was there before, then the candidates of the entries handled so far" |
| DirectoryScan.OccursInPrefix | apps/ReverseImageSearchFast/src/ofApp.cpp:113-119 | an entry lies below a listing iff it lies below its prefix, is the last entry, or lies below the last entry when that is a directory |
| DirectoryScan.CandidatesIff | apps/ReverseImageSearchFast/src/ofApp.cpp:110-122 | an entry is collected iff it is a non-directory whose lowered extension is jpg, png, gif or jpeg and it occurs somewhere in the tree; so directories are never collected |
| ReverseImageSearch.App.GetImagePathsRecursive | apps/ReverseImageSearchFast/src/ofApp.cpp:109-124 | `candidateFiles` becomes its old value followed by the directory's candidates, depth first in listing order |
| ReverseImageSearch.App.ExtractFeaturesForDirectory | apps/ReverseImageSearchFast/src/ofApp.cpp:127-147 | `candidateFiles` is cleared and refilled by the scan; the existing records are kept, and the records extracted from the first 550 candidates are appended |
| ReverseImageSearch.App.ExtractFirst | apps/ReverseImageSearchFast/src/ofApp.cpp:132-145 | the extraction loop appends exactly `Extracted` of the first `numImages` candidates to the records already present |
| ImageCollection.ExtractedStep | apps/ReverseImageSearchFast/src/ofApp.cpp:135-144 | handling candidate i appends a record with that file's absolute path and encoding if the load succeeds, and nothing if it fails |
| ImageCollection.ExtractedAppend | apps/ReverseImageSearchFast/src/ofApp.cpp:133-145 | the extraction of a concatenation is the concatenation of the extractions: each candidate is handled on its own and candidate order is kept |
| ImageCollection.ExtractedIff | apps/ReverseImageSearchFast/src/ofApp.cpp:135-141 | a record is appended iff it is the new record (absolute path, its encoding, no projection) of a candidate whose load succeeds |
| ImageCollection.ExtractedLength | apps/ReverseImageSearchFast/src/ofApp.cpp:133-145 | at most one record is appended per candidate |
| ImageCollection.ExtractedAllLoad | apps/ReverseImageSearchFast/src/ofApp.cpp:133-145 | when every load succeeds, exactly one record per candidate is appended and record i comes from candidate i |
| ImageCollection.Memoised | apps/ReverseImageSearchFast/src/ofApp.cpp:89-92 | a non-empty stored encoding is reused and nothing changes; an empty one is replaced by the encoder's output for that file; only that record's encoding can change; the active encoding equals the stored encoding afterwards |
| ImageCollection.MemoisedIdempotent | apps/ReverseImageSearchFast/src/ofApp.cpp:89-92 | a second query of the same image changes nothing further |
| ReverseImageSearch.App.AnalyzeImage | apps/ReverseImageSearchFast/src/ofApp.cpp:85-94 | webcam mode is switched off; the records and the active encoding are as `Memoised` says; the results are then queried for that encoding |
| ReverseImageSearch.App.QueryResults | apps/ReverseImageSearchFast/src/ofApp.cpp:97-106 | `indexes` is the neighbour search's answer for the projected active encoding, and `resultImages` is exactly `ResultFilenames` for those indexes |
| ReverseImageSearch.Resized | apps/ReverseImageSearchFast/src/ofApp.cpp:102 | the list gets length n, keeps its first n entries, and pads any new slots with empty entries |
| ImageCollection.TwinAppears | apps/ReverseImageSearchFast/src/ofApp.cpp:102-105 | when the neighbour ranked second has the same filename as the first, the query's own file is among the results; so the uniqueness hypothesis of `NearestSkipped` cannot be dropped |
| ImageCollection.ReextractionTwins | apps/ReverseImageSearchFast/src/ofApp.cpp:127-146 | when two extraction runs over the same candidates follow each other with nothing clearing the collection in between (each appending `Extracted` of the first 550 candidates), record k of the first run and record k of the second run have the same filename |
| ImageCollection.NearestSkipped | apps/ReverseImageSearchFast/src/ofApp.cpp:102-105 | when filenames are unique and the other neighbours differ from the first, the first neighbour's file is among none of the `numResults - 1` results |
| ImageCollection.RangeCountAtMostOne | apps/ReverseImageSearchFast/src/ofApp.cpp:152 | the initial index list 0..n-1 holds each value at most once |
| ImageCollection.RepeatedCountsTwice | apps/ReverseImageSearchFast/src/ofApp.cpp:154 | a list with a repeated value holds that value at least twice, so a repeat cannot arise by shuffling 0..n-1 |
| ImageCollection.PermutationOfRange | apps/ReverseImageSearchFast/src/ofApp.cpp:152-154 | any shuffle of 0..n-1 has length n, and its entries are distinct and below n |
| ImageCollection.SampleIndexes | apps/ReverseImageSearchFast/src/ofApp.cpp:151-156 | the PCA sample indices number min(n, maxPCASamples), and each is below n |
| ImageCollection.SampleIndexesDistinct | apps/ReverseImageSearchFast/src/ofApp.cpp:151-156 | no sample index repeats, and when maxPCASamples >= n the indices are exactly 0..n-1 in order |
| ReverseImageSearch.SelectPCAIndexes | apps/ReverseImageSearchFast/src/ofApp.cpp:151-156 | the list built one index at a time, then shuffled and resized when the cap is exceeded, is `SampleIndexes` |
| ImageCollection.EncodingsAtStep | apps/ReverseImageSearchFast/src/ofApp.cpp:158-163 | adding the sample for the next chosen index appends that image's raw encoding |
| ReverseImageSearch.App.AddSamples | apps/ReverseImageSearchFast/src/ofApp.cpp:158-163 | the PCA samples grow by the raw encodings of the chosen images, in the order chosen |
| ReverseImageSearch.App.RunPCAonImageSet | apps/ReverseImageSearchFast/src/ofApp.cpp:150-177 | the samples are the old ones plus the encodings at `SampleIndexes`; the reducer is fitted on those samples; the records become `ProjectAll` of the old records |
| ReverseImageSearch.App.ProjectImages | apps/ReverseImageSearchFast/src/ofApp.cpp:171-175 | the records become `ProjectAll` of the records before the loop |
| ImageCollection.ProjectAllAt | apps/ReverseImageSearchFast/src/ofApp.cpp:171-175 | after projection, record i's projected encoding is the projection of its raw encoding; the count, the filenames and the raw encodings are unchanged |
| ImageCollection.ProjectAllStep | apps/ReverseImageSearchFast/src/ofApp.cpp:171-175 | projecting record i in place extends the projected prefix by one and leaves the rest untouched |
| ImageCollection.ProjectAllIdempotent | apps/ReverseImageSearchFast/src/ofApp.cpp:171-175 | projecting again under the same reducer changes nothing |
| ImageCollection.PointsAt | apps/ReverseImageSearchFast/src/ofApp.cpp:181-184 | the point list has one point per record, and point i is record i's projected encoding |
| ImageCollection.PointsAfterProjection | apps/ReverseImageSearchFast/src/ofApp.cpp:171-184 | after the projection stage, kd-tree point i is the projection of record i's raw encoding |
| ReverseImageSearch.App.RunKDTree | apps/ReverseImageSearchFast/src/ofApp.cpp:180-190 | the point list is cleared, then filled with the projected encodings in collection order |
| ReverseImageSearch.App.LoadKDTree | apps/ReverseImageSearchFast/src/ofApp.cpp:244-250 | the point list is cleared, then filled with the projected encodings in collection order |
| ImageCollection.FilenamesAt | apps/ReverseImageSearchFast/src/ofApp.cpp:199-202 | the filename list has one entry per record, and entry i is record i's filename |
| ImageCollection.SavedEntries | apps/ReverseImageSearchFast/src/ofApp.cpp:197-207 | save writes two parallel lists as long as the collection, where entry i of each comes from record i, followed by the reducer's E, V and column means |
| ReverseImageSearch.App.Save | apps/ReverseImageSearchFast/src/ofApp.cpp:193-209 | the fields written, in order, are `Flatten` of the collection and the reducer |
| ImageCollection.RebuildAt | apps/ReverseImageSearchFast/src/ofApp.cpp:228-234 | load rebuilds one record per filename: filename i, projected encoding i, and an empty raw encoding |
| ReverseImageSearch.App.Load | apps/ReverseImageSearchFast/src/ofApp.cpp:212-236 | the reducer is set from the file, and the collection is replaced by `Rebuild` of the file's two lists |
| ImageCollection.SaveLoadRoundTrip | apps/ReverseImageSearchFast/src/ofApp.cpp:193-236 | loading what was saved keeps the count, the order, the filenames, the projected encodings and the reducer, and drops only the raw encodings |
| ImageCollection.LoadSaveRoundTrip | apps/ReverseImageSearchFast/src/ofApp.cpp:193-236 | saving what was loaded gives back the file, except for projected encodings past the last filename |
| ImageCollection.ReloadKeepsPoints | apps/ReverseImageSearchFast/src/ofApp.cpp:180-236 | the kd-tree points after a save and a reload are those before the save, in the same order |
| ReverseImageSearch.App.ExtractDirectory | apps/ReverseImageSearchFast/src/ofApp.cpp:274-282 | with no directory chosen, the records, candidates, samples, reducer and kd-tree points are all unchanged; otherwise the candidates are the directory's, the records are the old ones followed by those extracted from the first 550 candidates, the samples grow by the raw encodings of that extended collection at `SampleIndexes` (under the shuffle of the extended collection), the reducer is fitted on the accumulated samples, every record is projected under it, and kd-tree point i is the projection of record i's raw encoding |
| ReverseImageSearch.App.LoadDialog | apps/ReverseImageSearchFast/src/ofApp.cpp:263-271 | with no file chosen nothing changes; with a file chosen, the reducer is set from the file's E, V and column means, the collection is rebuilt from the file, and the kd-tree points are the file's projected encodings (one per filename) |
| ReverseImageSearch.App.SaveDialog | apps/ReverseImageSearchFast/src/ofApp.cpp:253-260 | what is written is `Flatten` of the collection and the reducer when a file is chosen, and nothing otherwise |
| ReverseImageSearch.App.constructor | apps/ReverseImageSearchFast/src/ofApp.cpp:10-30 | the empty state, with the parameters' defaults: 50000 PCA samples, 1024 components, 20 results |

## Left out

- Rendering is not modelled: `setup`'s window and GUI layout, `draw`, `drawResults`. It is user interface work plus floating-point layout arithmetic.
- The webcam query (`update`, `analyzeWebcam`) is not modelled. It is camera I/O, and after the encoder it runs the same `QueryResults`.
- The hard-coded `load` of a developer's file at the end of `setup` is not modelled. It is file I/O with a machine-specific path.
- The GUI sliders' ranges are not modelled. The parameters are plain natural numbers with their default values. `QueryResults` requires `numResults >= 1`, which the slider's minimum of 5 guarantees.
- ReverseImageSearch.App.QueryResults (and `AnalyzeImage`, which calls it) requires `NeighboursFit` of the search's answer: at least `numResults` indexes, with those at ranks 1..numResults-1 below the collection size. The code checks neither before it reads `images[indexes[i]]` at ofApp.cpp:104. So a collection with fewer images than `numResults` (fewer than 20 by default, fewer than 5 at the slider's minimum) is outside the model. On such a collection the code indexes past the end of `indexes` or `images`, which is undefined behaviour.
- These library internals are not modelled; they are function parameters:
  - the CNN encoder;
  - PCA fitting and projection;
  - the kd-tree's construction, and its k-nearest-neighbour search. The search's answer is constrained by one precondition; see `ReverseImageSearch.App.QueryResults` below.
- `pca.addSample` is modelled as appending to the `pcaSamples` list. The app never clears that list; whether the PCA library clears its samples itself is not modelled.
- `kdTree.save` and `kdTree.load` are external, so `saveKDTree` is not modelled. `LoadKDTree` models only the point-list refill that precedes `kdTree.load`.
- The dlib byte format is not modelled. Save and load work on the ordered list of fields written (`Artifact`), not on bytes.
- The stream failures of `save` and `load` are not modelled.
- `random_shuffle` is a parameter: any permutation of 0..n-1.
- The random choice of the query image in `analyzeImage` is a parameter: any index below the collection size.
- ImageCollection.Memoised: `analyzeImage` ignores whether `activeImage.load` at ofApp.cpp:88 succeeds. On failure it encodes whatever `activeImage` holds after the failed load, which library code that is not modelled decides, and stores that encoding in the record. The model assumes the load succeeds and stores `encode(filename)`.
- ReverseImageSearch.App.AnalyzeImage requires a non-empty collection; on an empty one the code reads `images[0]` at :88, which is undefined behaviour and is not modelled.
- Image loading is not modelled. `canLoad(path)` says whether it succeeds, and `encode(path)` is the encoding of the loaded image.
- The result thumbnails are recorded by file name. Their pixels, and whether each one loads, are left out.
- The `distances` output of the nearest-neighbour search is not used by the stages and is left out.
- The conversion between float and double vectors is left out. `Vector` is a sequence of reals, and the copies in `queryResults` and `runPCAonImageSet` are identities.
- DirectoryScan.ToLower lowers ASCII letters only; locale-dependent lowering of other characters is not modelled.
- Directory listings are given as data, every listing in the order `listDir` yields it. The `sort()` of a subdirectory at ofApp.cpp:117 does not survive the `listDir()` call that starts the recursive scan at :112, so it has no effect; the file system and its ordering are not modelled.
- DirectoryScan.Candidates: a directory is a finite tree, so a symbolic link leading back to an ancestor directory, on which the scan at :114-118 would recurse without end, cannot be expressed.
- Logging and timing are not modelled.
- The model follows the code as written:
  - extraction is bounded by the literal 550, not by the number of candidates. The model therefore requires at least 550 candidates, since the code indexes past the list otherwise;
  - there is no duplicate-filename check, so analysing a directory twice gives each of its images a twin with distance zero, and a query can then list its own file among the results (`TwinAppears`, `ReextractionTwins`);
  - `load` does not check that the two lists have equal length. `Load` requires at least as many projected encodings as filenames, since the code indexes past the list otherwise.
