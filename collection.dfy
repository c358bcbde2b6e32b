/** The image collection as it passes through the pipeline: the records, the
    PCA reducer state, the saved artifact, and one specification function per
    stage of ofApp together with the properties that relate the stages. */
module ImageCollection {
  import opened DirectoryScan

  type Vector = seq<real>
  type Matrix = seq<seq<real>>

  /** One entry of `images`: the file it came from, its raw CNN encoding (empty
      until computed) and its PCA-projected encoding (empty until projected). */
  datatype Image = Image(filename: string, encoding: Vector, projectedEncoding: Vector)

  /** The PCA state that is saved and restored: getE, getV, getColumnMeans. */
  datatype Reducer = Reducer(E: Matrix, V: Matrix, columnMeans: Vector)

  /** The saved file as its ordered list of fields: projected encodings,
      filenames, E, V, column means. */
  datatype Artifact = Artifact(
    projectedEncodings: seq<Vector>,
    filenames: seq<string>,
    E: Matrix,
    V: Matrix,
    columnMeans: Vector)

  /** The number of candidate files the extraction loop visits. */
  const ExtractionLimit: nat := 550

  function Min(a: nat, b: nat): nat {
    if a < b then a else b
  }

  // ---------------------------------------------------------------- extraction

  /** The record extraction creates for a file that loads. */
  function NewRecord(path: string, encode: string -> Vector): Image {
    Image(path, encode(path), [])
  }

  /** The records the extraction loop appends for `files`: one per file that
      loads, in file order, none for a file that fails to load. */
  function Extracted(files: seq<Entry>, canLoad: string -> bool, encode: string -> Vector): seq<Image> {
    if files == [] then []
    else
      var path := files[|files| - 1].absolutePath;
      Extracted(files[..|files| - 1], canLoad, encode) +
      (if canLoad(path) then [NewRecord(path, encode)] else [])
  }

  /** The extraction loop's running collection after file i is handled. */
  lemma ExtractedStep(start: seq<Image>, before: seq<Image>, after: seq<Image>, files: seq<Entry>, i: nat,
                      canLoad: string -> bool, encode: string -> Vector)
    requires i < |files|
    requires before == start + Extracted(files[..i], canLoad, encode)
    requires var path := files[i].absolutePath;
      after == before + (if canLoad(path) then [NewRecord(path, encode)] else [])
    ensures after == start + Extracted(files[..i + 1], canLoad, encode)
  {
    assert files[..i + 1][..i] == files[..i];
  }

  /** Extraction of a concatenation is the concatenation of the extractions:
      each file is handled on its own and the order is kept. */
  lemma {:induction false} ExtractedAppend(a: seq<Entry>, b: seq<Entry>, canLoad: string -> bool, encode: string -> Vector)
    ensures Extracted(a + b, canLoad, encode) == Extracted(a, canLoad, encode) + Extracted(b, canLoad, encode)
    decreases |b|
  {
    if b != [] {
      var n := |b| - 1;
      assert (a + b)[..|a + b| - 1] == a + b[..n];
      assert (a + b)[|a + b| - 1] == b[n];
      ExtractedAppend(a, b[..n], canLoad, encode);
    } else {
      assert a + b == a;
    }
  }

  /** A record is extracted exactly when it is the new record of a file that
      loads: nothing is invented and no loadable file is missed. */
  lemma {:induction false} ExtractedIff(img: Image, files: seq<Entry>, canLoad: string -> bool, encode: string -> Vector)
    ensures img in Extracted(files, canLoad, encode) <==>
      exists k :: 0 <= k < |files| && canLoad(files[k].absolutePath) &&
        img == NewRecord(files[k].absolutePath, encode)
    decreases |files|
  {
    if files != [] {
      var n := |files| - 1;
      var front := files[..n];
      ExtractedIff(img, front, canLoad, encode);
      if img in Extracted(front, canLoad, encode) {
        var k :| 0 <= k < |front| && canLoad(front[k].absolutePath) &&
          img == NewRecord(front[k].absolutePath, encode);
        assert files[k] == front[k];
      }
      if exists k :: 0 <= k < |files| && canLoad(files[k].absolutePath) &&
           img == NewRecord(files[k].absolutePath, encode) {
        var k :| 0 <= k < |files| && canLoad(files[k].absolutePath) &&
          img == NewRecord(files[k].absolutePath, encode);
        if k < n {
          assert front[k] == files[k];
        }
      }
    }
  }

  /** At most one record per file. */
  lemma {:induction false} ExtractedLength(files: seq<Entry>, canLoad: string -> bool, encode: string -> Vector)
    ensures |Extracted(files, canLoad, encode)| <= |files|
    decreases |files|
  {
    if files != [] {
      ExtractedLength(files[..|files| - 1], canLoad, encode);
    }
  }

  /** When every file loads there are no gaps: record i comes from file i. */
  lemma {:induction false} ExtractedAllLoad(files: seq<Entry>, canLoad: string -> bool, encode: string -> Vector)
    requires forall k :: 0 <= k < |files| ==> canLoad(files[k].absolutePath)
    ensures |Extracted(files, canLoad, encode)| == |files|
    ensures forall i :: 0 <= i < |files| ==>
      Extracted(files, canLoad, encode)[i] == NewRecord(files[i].absolutePath, encode)
    decreases |files|
  {
    if files != [] {
      var n := |files| - 1;
      var front := files[..n];
      assert forall k :: 0 <= k < |front| ==> front[k] == files[k];
      ExtractedAllLoad(front, canLoad, encode);
    }
  }

  // --------------------------------------------------------------- memoisation

  /** analyzeImage's lookup: the stored encoding of image `idx` is reused when
      non-empty, otherwise computed and stored back. Returns the new collection
      and the active encoding. */
  function Memoised(images: seq<Image>, idx: nat, encode: string -> Vector): (r: (seq<Image>, Vector))
    requires idx < |images|
    ensures |r.0| == |images|
    ensures r.1 == r.0[idx].encoding
    ensures forall j :: 0 <= j < |images| && j != idx ==> r.0[j] == images[j]
    ensures r.0[idx].filename == images[idx].filename
    ensures r.0[idx].projectedEncoding == images[idx].projectedEncoding
    ensures images[idx].encoding != [] ==> r.0 == images
    ensures images[idx].encoding == [] ==> r.1 == encode(images[idx].filename)
  {
    if images[idx].encoding == [] then
      var e := encode(images[idx].filename);
      (images[idx := images[idx].(encoding := e)], e)
    else
      (images, images[idx].encoding)
  }

  /** A second lookup of the same image changes nothing more. */
  lemma MemoisedIdempotent(images: seq<Image>, idx: nat, encode: string -> Vector)
    requires idx < |images|
    ensures Memoised(Memoised(images, idx, encode).0, idx, encode) == Memoised(images, idx, encode)
  {
    var once := Memoised(images, idx, encode);
    if images[idx].encoding == [] && once.1 == [] {
      assert once.0 == images;
    }
  }

  // ---------------------------------------------------------- PCA sample choice

  /** The indices 0..n-1 in increasing order. */
  function Range(n: nat): seq<nat> {
    seq(n, i => i)
  }

  lemma {:induction false} RangeCountAtMostOne(n: nat, x: nat)
    ensures multiset(Range(n))[x] <= 1
  {
    if n > 0 {
      RangeCountAtMostOne(n - 1, x);
      assert Range(n) == Range(n - 1) + [n - 1];
      assert multiset(Range(n)) == multiset(Range(n - 1)) + multiset([n - 1]);
      if x == n - 1 {
        assert x !in Range(n - 1);
      }
    }
  }

  lemma RepeatedCountsTwice(s: seq<nat>, j: nat, k: nat)
    requires j < k < |s| && s[j] == s[k]
    ensures multiset(s)[s[j]] >= 2
  {
    assert s == s[..k] + s[k..];
    assert multiset(s) == multiset(s[..k]) + multiset(s[k..]);
    assert s[..k][j] == s[j];
    assert s[k..][0] == s[k];
  }

  /** Any permutation of 0..n-1 has n distinct entries, each below n. */
  lemma PermutationOfRange(s: seq<nat>, n: nat)
    requires multiset(s) == multiset(Range(n))
    ensures |s| == n
    ensures forall k :: 0 <= k < |s| ==> s[k] < n
    ensures forall j, k :: 0 <= j < k < |s| ==> s[j] != s[k]
  {
    assert |s| == |multiset(s)| == |multiset(Range(n))| == |Range(n)|;
    forall k | 0 <= k < |s|
      ensures s[k] < n
    {
      assert s[k] in multiset(s);
      assert s[k] in Range(n);
    }
    forall j, k | 0 <= j < k < |s|
      ensures s[j] != s[k]
    {
      if s[j] == s[k] {
        RepeatedCountsTwice(s, j, k);
        RangeCountAtMostOne(n, s[j]);
        assert false;
      }
    }
  }

  /** The indices runPCAonImageSet samples from a collection of `n` images,
      given the order `shuffled` that random_shuffle produced: all of 0..n-1
      in order when they fit under the cap, else the first `maxSamples` of the
      shuffled order. */
  function SampleIndexes(n: nat, maxSamples: nat, shuffled: seq<nat>): (r: seq<nat>)
    requires multiset(shuffled) == multiset(Range(n))
    ensures |r| == Min(n, maxSamples)
    ensures forall k :: 0 <= k < |r| ==> r[k] < n
  {
    PermutationOfRange(shuffled, n);
    if maxSamples < n then shuffled[..maxSamples] else Range(n)
  }

  /** The sample holds no index twice, and it is 0..n-1 in order whenever the
      cap does not bite. */
  lemma SampleIndexesDistinct(n: nat, maxSamples: nat, shuffled: seq<nat>)
    requires multiset(shuffled) == multiset(Range(n))
    ensures var r := SampleIndexes(n, maxSamples, shuffled);
      (forall j, k :: 0 <= j < k < |r| ==> r[j] != r[k]) &&
      (maxSamples >= n ==> r == Range(n))
  {
    PermutationOfRange(shuffled, n);
  }

  /** The raw encodings of the images at `indexes`, in index order. */
  function EncodingsAt(images: seq<Image>, indexes: seq<nat>): seq<Vector>
    requires forall k :: 0 <= k < |indexes| ==> indexes[k] < |images|
  {
    seq(|indexes|, k requires 0 <= k < |indexes| => images[indexes[k]].encoding)
  }

  lemma EncodingsAtStep(images: seq<Image>, indexes: seq<nat>, i: nat)
    requires i < |indexes|
    requires forall k :: 0 <= k < |indexes| ==> indexes[k] < |images|
    ensures EncodingsAt(images, indexes[..i + 1]) ==
      EncodingsAt(images, indexes[..i]) + [images[indexes[i]].encoding]
  {
    assert indexes[..i + 1][..i] == indexes[..i];
  }

  // ---------------------------------------------------------------- projection

  /** The collection after the projection loop. */
  function ProjectAll(images: seq<Image>, pca: Reducer, project: (Reducer, Vector) -> Vector): seq<Image> {
    if images == [] then []
    else
      var last := images[|images| - 1];
      ProjectAll(images[..|images| - 1], pca, project) +
      [last.(projectedEncoding := project(pca, last.encoding))]
  }

  /** After projection every record's projected encoding is the projection of
      its raw encoding; the count, the filenames and the raw encodings are
      unchanged. */
  lemma {:induction false} ProjectAllAt(images: seq<Image>, pca: Reducer, project: (Reducer, Vector) -> Vector)
    ensures |ProjectAll(images, pca, project)| == |images|
    ensures forall i :: 0 <= i < |images| ==>
      ProjectAll(images, pca, project)[i].filename == images[i].filename &&
      ProjectAll(images, pca, project)[i].encoding == images[i].encoding &&
      ProjectAll(images, pca, project)[i].projectedEncoding == project(pca, images[i].encoding)
    decreases |images|
  {
    if images != [] {
      var n := |images| - 1;
      ProjectAllAt(images[..n], pca, project);
    }
  }

  /** The projection loop's state after i records: the first i projected, the
      rest as they were. Projecting record i extends the projected part. */
  lemma ProjectAllStep(images: seq<Image>, current: seq<Image>, i: nat, pca: Reducer,
                       project: (Reducer, Vector) -> Vector)
    requires i < |images|
    requires current == ProjectAll(images[..i], pca, project) + images[i..]
    ensures |current| == |images| && current[i] == images[i]
    ensures current[i := current[i].(projectedEncoding := project(pca, current[i].encoding))] ==
      ProjectAll(images[..i + 1], pca, project) + images[i + 1..]
  {
    ProjectAllAt(images[..i], pca, project);
    assert images[..i + 1][..i] == images[..i];
  }

  /** Projecting again under the same reducer changes nothing. */
  lemma ProjectAllIdempotent(images: seq<Image>, pca: Reducer, project: (Reducer, Vector) -> Vector)
    ensures ProjectAll(ProjectAll(images, pca, project), pca, project) == ProjectAll(images, pca, project)
  {
    var once := ProjectAll(images, pca, project);
    ProjectAllAt(images, pca, project);
    ProjectAllAt(once, pca, project);
  }

  // ------------------------------------------------------------- kd-tree points

  /** The projected encodings of the collection, in collection order. */
  function Points(images: seq<Image>): seq<Vector> {
    if images == [] then []
    else Points(images[..|images| - 1]) + [images[|images| - 1].projectedEncoding]
  }

  /** Point i is the projected encoding of image i. */
  lemma {:induction false} PointsAt(images: seq<Image>)
    ensures |Points(images)| == |images|
    ensures forall i :: 0 <= i < |images| ==> Points(images)[i] == images[i].projectedEncoding
    decreases |images|
  {
    if images != [] {
      PointsAt(images[..|images| - 1]);
    }
  }

  /** After the projection stage, kd-tree point i is the projection of image i's
      raw encoding. */
  lemma PointsAfterProjection(images: seq<Image>, pca: Reducer, project: (Reducer, Vector) -> Vector)
    ensures |ProjectAll(images, pca, project)| == |Points(ProjectAll(images, pca, project))| == |images|
    ensures forall i :: 0 <= i < |images| ==>
      Points(ProjectAll(images, pca, project))[i] == project(pca, images[i].encoding)
    ensures forall i :: 0 <= i < |images| ==>
      Points(ProjectAll(images, pca, project))[i] ==
        project(pca, ProjectAll(images, pca, project)[i].encoding)
  {
    ProjectAllAt(images, pca, project);
    PointsAt(ProjectAll(images, pca, project));
  }

  // ------------------------------------------------------------------- save/load

  /** The filenames of the collection, in collection order. */
  function Filenames(images: seq<Image>): seq<string> {
    if images == [] then []
    else Filenames(images[..|images| - 1]) + [images[|images| - 1].filename]
  }

  lemma {:induction false} FilenamesAt(images: seq<Image>)
    ensures |Filenames(images)| == |images|
    ensures forall i :: 0 <= i < |images| ==> Filenames(images)[i] == images[i].filename
    decreases |images|
  {
    if images != [] {
      FilenamesAt(images[..|images| - 1]);
    }
  }

  /** What save writes: the projected encodings, the filenames, then the
      reducer state. */
  function Flatten(images: seq<Image>, pca: Reducer): Artifact {
    Artifact(Points(images), Filenames(images), pca.E, pca.V, pca.columnMeans)
  }

  /** The two lists save writes are parallel, as long as the collection, and
      entry i of each comes from image i. */
  lemma SavedEntries(images: seq<Image>, pca: Reducer)
    ensures var a := Flatten(images, pca);
      |a.projectedEncodings| == |a.filenames| == |images| &&
      (forall i :: 0 <= i < |images| ==>
        a.filenames[i] == images[i].filename && a.projectedEncodings[i] == images[i].projectedEncoding) &&
      Reducer(a.E, a.V, a.columnMeans) == pca
  {
    PointsAt(images);
    FilenamesAt(images);
  }

  /** What load rebuilds: one record per filename, with the projected encoding
      at the same position and no raw encoding. */
  function Rebuild(filenames: seq<string>, projected: seq<Vector>): seq<Image>
    requires |projected| >= |filenames|
  {
    if filenames == [] then []
    else
      var n := |filenames| - 1;
      Rebuild(filenames[..n], projected) + [Image(filenames[n], [], projected[n])]
  }

  lemma {:induction false} RebuildAt(filenames: seq<string>, projected: seq<Vector>)
    requires |projected| >= |filenames|
    ensures |Rebuild(filenames, projected)| == |filenames|
    ensures forall i :: 0 <= i < |filenames| ==>
      Rebuild(filenames, projected)[i] == Image(filenames[i], [], projected[i])
    decreases |filenames|
  {
    if filenames != [] {
      RebuildAt(filenames[..|filenames| - 1], projected);
    }
  }

  /** Loading what was saved keeps the count, the order, the filenames, the
      projected encodings and the reducer; only raw encodings are lost. */
  lemma SaveLoadRoundTrip(images: seq<Image>, pca: Reducer)
    ensures var a := Flatten(images, pca);
      |a.projectedEncodings| >= |a.filenames| &&
      Rebuild(a.filenames, a.projectedEncodings) ==
        seq(|images|, i requires 0 <= i < |images| => images[i].(encoding := [])) &&
      Reducer(a.E, a.V, a.columnMeans) == pca
  {
    var a := Flatten(images, pca);
    SavedEntries(images, pca);
    RebuildAt(a.filenames, a.projectedEncodings);
  }

  /** Saving what was loaded gives back the file, less any projected encodings
      past the last filename. */
  lemma LoadSaveRoundTrip(a: Artifact)
    requires |a.projectedEncodings| >= |a.filenames|
    ensures Flatten(Rebuild(a.filenames, a.projectedEncodings), Reducer(a.E, a.V, a.columnMeans)) ==
      a.(projectedEncodings := a.projectedEncodings[..|a.filenames|])
  {
    var r := Rebuild(a.filenames, a.projectedEncodings);
    RebuildAt(a.filenames, a.projectedEncodings);
    SavedEntries(r, Reducer(a.E, a.V, a.columnMeans));
  }

  /** The kd-tree rebuilt after a reload holds the same points, in the same
      order, as the one built before the save. */
  lemma ReloadKeepsPoints(images: seq<Image>, pca: Reducer)
    ensures var a := Flatten(images, pca);
      |a.projectedEncodings| >= |a.filenames| &&
      Points(Rebuild(a.filenames, a.projectedEncodings)) == Points(images)
  {
    var a := Flatten(images, pca);
    SavedEntries(images, pca);
    var r := Rebuild(a.filenames, a.projectedEncodings);
    RebuildAt(a.filenames, a.projectedEncodings);
    PointsAt(r);
    PointsAt(images);
  }

  // --------------------------------------------------------------------- query

  /** getKNN's answer can be used by queryResults: it has at least `numResults`
      entries and those it reads (1..numResults-1) index the collection. */
  predicate NeighboursFit(indexes: seq<nat>, numResults: nat, count: nat) {
    |indexes| >= numResults &&
    forall k :: 1 <= k < numResults ==> indexes[k] < count
  }

  /** The files queryResults loads into resultImages: slot i-1 holds the image
      at neighbour rank i, for i in 1..numResults-1. */
  function ResultFilenames(images: seq<Image>, indexes: seq<nat>, numResults: nat): seq<string>
    requires numResults >= 1 && NeighboursFit(indexes, numResults, |images|)
  {
    seq(numResults - 1, k requires 0 <= k < numResults - 1 => images[indexes[k + 1]].filename)
  }

  /** When filenames are unique and the neighbours are distinct, the nearest
      neighbour (the query image itself, when it is in the collection) never
      appears among the results. */
  lemma NearestSkipped(images: seq<Image>, indexes: seq<nat>, numResults: nat)
    requires numResults >= 1 && NeighboursFit(indexes, numResults, |images|)
    requires indexes[0] < |images|
    requires forall i, j :: 0 <= i < j < |images| ==> images[i].filename != images[j].filename
    requires forall k :: 1 <= k < numResults ==> indexes[k] != indexes[0]
    ensures images[indexes[0]].filename !in ResultFilenames(images, indexes, numResults)
  {
    var r := ResultFilenames(images, indexes, numResults);
    forall k | 0 <= k < |r|
      ensures r[k] != images[indexes[0]].filename
    {
      var a, b := indexes[k + 1], indexes[0];
      assert a != b;
      if a < b {
        assert images[a].filename != images[b].filename;
      } else {
        assert images[b].filename != images[a].filename;
      }
    }
  }

  /** The uniqueness hypothesis above is needed: extraction never clears the
      collection, so analysing a directory twice gives each image a twin with
      the same filename at distance zero. When that twin is ranked right after
      the query image, the query's own file is among the results. */
  lemma TwinAppears(images: seq<Image>, indexes: seq<nat>, numResults: nat)
    requires numResults >= 2 && NeighboursFit(indexes, numResults, |images|)
    requires indexes[0] < |images|
    requires images[indexes[1]].filename == images[indexes[0]].filename
    ensures images[indexes[0]].filename in ResultFilenames(images, indexes, numResults)
  {
    assert ResultFilenames(images, indexes, numResults)[0] == images[indexes[1]].filename;
  }

  /** Running the extraction twice over the same candidates, with nothing
      clearing the collection in between, gives record k of the first run and
      record k of the second run the same filename. */
  lemma ReextractionTwins(before: seq<Image>, mid: seq<Image>, after: seq<Image>, candidates: seq<Entry>,
                          canLoad: string -> bool, encode: string -> Vector, k: nat)
    requires |candidates| >= ExtractionLimit
    requires mid == before + Extracted(candidates[..ExtractionLimit], canLoad, encode)
    requires after == mid + Extracted(candidates[..ExtractionLimit], canLoad, encode)
    requires k < |mid| - |before|
    ensures |before| + k < |mid| + k < |after|
    ensures after[|before| + k].filename == after[|mid| + k].filename
  {
    var batch := Extracted(candidates[..ExtractionLimit], canLoad, encode);
    assert after[|before| + k] == batch[k];
    assert after[|mid| + k] == batch[k];
  }
}
