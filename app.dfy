/** ofApp of ReverseImageSearchFast: the fields the pipeline stages update in
    place, and one method per stage, each proved against the specification
    functions of ImageCollection and DirectoryScan.

    The external collaborators are parameters: `canLoad` (whether ofImage::load
    succeeds on a path), `encode` (the CNN encoder applied to the image at a
    path), `fit` (PCA fitting on the accumulated samples), `project` (PCA
    projection under a reducer state) and `knn` (the kd-tree's nearest-neighbour
    search over its point list). The kd-tree itself is its point list. */
module ReverseImageSearch {
  import opened DirectoryScan
  import opened ImageCollection

  datatype Option<T> = None | Some(value: T)

  class App {
    var images: seq<Image>
    var candidateFiles: seq<Entry>
    /** The samples added to the PCA object; it never discards them. */
    var pcaSamples: seq<Vector>
    var pca: Reducer
    /** The kd-tree's point list. */
    var kdPoints: seq<Vector>
    var activeEncoding: Vector
    /** getKNN's answer for the last query. */
    var indexes: seq<nat>
    /** The file each result thumbnail was loaded from. */
    var resultImages: seq<string>
    var tWebcam: bool
    var maxPCASamples: nat
    var numPCAcomponents: nat
    var numResults: nat

    /** The state setup() leaves before it loads a saved file: an empty
        collection and the parameters' default values. */
    constructor ()
      ensures images == [] && candidateFiles == [] && pcaSamples == [] && kdPoints == []
      ensures activeEncoding == [] && indexes == [] && resultImages == [] && !tWebcam
      ensures pca == Reducer([], [], [])
      ensures maxPCASamples == 50000 && numPCAcomponents == 1024 && numResults == 20
    {
      images, candidateFiles, pcaSamples, kdPoints := [], [], [], [];
      activeEncoding, indexes, resultImages, tWebcam := [], [], [], false;
      pca := Reducer([], [], []);
      maxPCASamples, numPCAcomponents, numResults := 50000, 1024, 20;
    }

    /** Appends the image files below `dir`, depth first in listing order. */
    method GetImagePathsRecursive(dir: Entry)
      requires dir.Directory?
      modifies this`candidateFiles
      ensures candidateFiles == old(candidateFiles) + Candidates(dir.listing)
      decreases dir
    {
      ghost var start := candidateFiles;
      var size := |dir.listing|;
      var i := 0;
      while i < size
        invariant 0 <= i <= size
        invariant candidateFiles == start + Candidates(dir.listing[..i])
        modifies this`candidateFiles
      {
        var entry := dir.listing[i];
        ghost var before := candidateFiles;
        if entry.Directory? {
          GetImagePathsRecursive(entry);
        } else if ToLower(entry.extension) in AllowedExtensions {
          assert Contribution(entry) == [entry];
          candidateFiles := candidateFiles + [entry];
        } else {
          assert Contribution(entry) == [];
        }
        ScanStep(start, before, candidateFiles, dir.listing, i);
        i := i + 1;
      }
      assert dir.listing[..i] == dir.listing;
    }

    /** Rescans `directory`, then appends one record for each of the first
        ExtractionLimit candidates that loads. Existing records are kept. */
    method ExtractFeaturesForDirectory(directory: Entry, canLoad: string -> bool, encode: string -> Vector)
      requires directory.Directory?
      requires |Candidates(directory.listing)| >= ExtractionLimit
      modifies this`candidateFiles, this`images
      ensures candidateFiles == Candidates(directory.listing)
      ensures images == old(images) + Extracted(candidateFiles[..ExtractionLimit], canLoad, encode)
    {
      candidateFiles := [];
      GetImagePathsRecursive(directory);
      ExtractFirst(ExtractionLimit, canLoad, encode);
    }

    /** The extraction loop: one new record for each of the first `numImages`
        candidates whose image loads. */
    method ExtractFirst(numImages: nat, canLoad: string -> bool, encode: string -> Vector)
      requires numImages <= |candidateFiles|
      modifies this`images
      ensures images == old(images) + Extracted(candidateFiles[..numImages], canLoad, encode)
    {
      var i := 0;
      while i < numImages
        invariant 0 <= i <= numImages
        invariant images == old(images) + Extracted(candidateFiles[..i], canLoad, encode)
      {
        ghost var before := images;
        var path := candidateFiles[i].absolutePath;
        var success := canLoad(path);
        if success {
          images := images + [Image(path, encode(path), [])];
        }
        ExtractedStep(old(images), before, images, candidateFiles, i, canLoad, encode);
        i := i + 1;
      }
    }

    /** Queries with image `idx` (the random draw): its encoding is computed
        only if it is not stored yet. */
    method AnalyzeImage(idx: nat, encode: string -> Vector,
                        project: (Reducer, Vector) -> Vector,
                        knn: (seq<Vector>, Vector, nat) -> seq<nat>)
      requires idx < |images|
      requires numResults >= 1
      requires NeighboursFit(knn(kdPoints, project(pca, Memoised(images, idx, encode).1), numResults),
                             numResults, |images|)
      modifies this`tWebcam, this`images, this`activeEncoding, this`indexes, this`resultImages
      ensures !tWebcam
      ensures (images, activeEncoding) == Memoised(old(images), idx, encode)
      ensures indexes == knn(kdPoints, project(pca, activeEncoding), numResults)
      ensures resultImages == ResultFilenames(images, indexes, numResults)
    {
      tWebcam := false;
      if images[idx].encoding == [] {
        images := images[idx := images[idx].(encoding := encode(images[idx].filename))];
      }
      activeEncoding := images[idx].encoding;
      QueryResults(project, knn);
    }

    /** Looks up the neighbours of the active encoding and loads all but the
        nearest into the result slots. */
    method QueryResults(project: (Reducer, Vector) -> Vector, knn: (seq<Vector>, Vector, nat) -> seq<nat>)
      requires numResults >= 1
      requires NeighboursFit(knn(kdPoints, project(pca, activeEncoding), numResults), numResults, |images|)
      modifies this`indexes, this`resultImages
      ensures indexes == knn(kdPoints, project(pca, activeEncoding), numResults)
      ensures resultImages == ResultFilenames(images, indexes, numResults)
    {
      var encoding: Vector := [];
      var j := 0;
      while j < |activeEncoding|
        invariant 0 <= j <= |activeEncoding|
        invariant encoding == activeEncoding[..j]
        modifies {}
      {
        encoding := encoding + [activeEncoding[j]];
        j := j + 1;
      }
      assert encoding == activeEncoding;
      var projectedEncoding := project(pca, encoding);
      indexes := knn(kdPoints, projectedEncoding, numResults);
      resultImages := Resized(resultImages, numResults - 1);
      var i := 1;
      while i < numResults
        invariant 1 <= i <= numResults
        invariant |resultImages| == numResults - 1
        invariant forall k :: 0 <= k < i - 1 ==> resultImages[k] == images[indexes[k + 1]].filename
        modifies this`resultImages
      {
        resultImages := resultImages[i - 1 := images[indexes[i]].filename];
        i := i + 1;
      }
    }

    /** Fits the reducer on a sample of the raw encodings and projects every
        record. `shuffled` is the order random_shuffle produced. */
    method RunPCAonImageSet(shuffled: seq<nat>, fit: (seq<Vector>, nat) -> Reducer,
                            project: (Reducer, Vector) -> Vector)
      requires multiset(shuffled) == multiset(Range(|images|))
      modifies this`pcaSamples, this`pca, this`images
      ensures pcaSamples == old(pcaSamples) +
        EncodingsAt(old(images), SampleIndexes(|old(images)|, maxPCASamples, shuffled))
      ensures pca == fit(pcaSamples, numPCAcomponents)
      ensures images == ProjectAll(old(images), pca, project)
    {
      var pcaIndexes := SelectPCAIndexes(|images|, maxPCASamples, shuffled);
      AddSamples(pcaIndexes);
      pca := fit(pcaSamples, numPCAcomponents);
      ProjectImages(project);
    }

    /** The sampling loop of runPCAonImageSet: adds the raw encoding of each
        chosen image to the PCA samples, in the order chosen. */
    method AddSamples(pcaIndexes: seq<nat>)
      requires forall k :: 0 <= k < |pcaIndexes| ==> pcaIndexes[k] < |images|
      modifies this`pcaSamples
      ensures pcaSamples == old(pcaSamples) + EncodingsAt(images, pcaIndexes)
    {
      var i := 0;
      while i < |pcaIndexes|
        invariant 0 <= i <= |pcaIndexes|
        invariant pcaSamples == old(pcaSamples) + EncodingsAt(images, pcaIndexes[..i])
      {
        var idx := pcaIndexes[i];
        pcaSamples := pcaSamples + [images[idx].encoding];
        EncodingsAtStep(images, pcaIndexes, i);
        i := i + 1;
      }
      assert pcaIndexes[..i] == pcaIndexes;
    }

    /** The projection loop of runPCAonImageSet: every record's projected
        encoding becomes the projection of its raw encoding. */
    method ProjectImages(project: (Reducer, Vector) -> Vector)
      modifies this`images
      ensures images == ProjectAll(old(images), pca, project)
    {
      ghost var unprojected := images;
      var i := 0;
      while i < |images|
        invariant 0 <= i <= |images| == |unprojected|
        invariant images == ProjectAll(unprojected[..i], pca, project) + unprojected[i..]
      {
        ProjectAllStep(unprojected, images, i, pca, project);
        images := images[i := images[i].(projectedEncoding := project(pca, images[i].encoding))];
        i := i + 1;
      }
      assert unprojected[..i] == unprojected;
    }

    /** Reloads the kd-tree's point list from the collection and builds it. */
    method RunKDTree()
      modifies this`kdPoints
      ensures kdPoints == Points(images)
    {
      kdPoints := [];
      var i := 0;
      while i < |images|
        invariant 0 <= i <= |images|
        invariant kdPoints == Points(images[..i])
      {
        kdPoints := kdPoints + [images[i].projectedEncoding];
        assert images[..i + 1][..i] == images[..i];
        i := i + 1;
      }
      assert images[..i] == images;
    }

    /** Saves the collection and the reducer: the fields written, in order. */
    method Save() returns (artifact: Artifact)
      ensures artifact == Flatten(images, pca)
    {
      var projectedEncodings: seq<Vector> := [];
      var filenames: seq<string> := [];
      var i := 0;
      while i < |images|
        invariant 0 <= i <= |images|
        invariant projectedEncodings == Points(images[..i])
        invariant filenames == Filenames(images[..i])
      {
        projectedEncodings := projectedEncodings + [images[i].projectedEncoding];
        filenames := filenames + [images[i].filename];
        assert images[..i + 1][..i] == images[..i];
        i := i + 1;
      }
      assert images[..i] == images;
      artifact := Artifact(projectedEncodings, filenames, pca.E, pca.V, pca.columnMeans);
    }

    /** Restores the reducer and replaces the collection with the saved one. */
    method Load(artifact: Artifact)
      requires |artifact.projectedEncodings| >= |artifact.filenames|
      modifies this`pca, this`images
      ensures pca == Reducer(artifact.E, artifact.V, artifact.columnMeans)
      ensures images == Rebuild(artifact.filenames, artifact.projectedEncodings)
    {
      pca := Reducer(artifact.E, artifact.V, artifact.columnMeans);
      images := [];
      var i := 0;
      while i < |artifact.filenames|
        invariant 0 <= i <= |artifact.filenames|
        invariant images == Rebuild(artifact.filenames[..i], artifact.projectedEncodings)
        modifies this`images
      {
        images := images + [Image(artifact.filenames[i], [], artifact.projectedEncodings[i])];
        assert artifact.filenames[..i + 1][..i] == artifact.filenames[..i];
        i := i + 1;
      }
      assert artifact.filenames[..i] == artifact.filenames;
    }

    /** Refills the kd-tree's point list before its saved structure is read. */
    method LoadKDTree()
      modifies this`kdPoints
      ensures kdPoints == Points(images)
    {
      kdPoints := [];
      var i := 0;
      while i < |images|
        invariant 0 <= i <= |images|
        invariant kdPoints == Points(images[..i])
      {
        kdPoints := kdPoints + [images[i].projectedEncoding];
        assert images[..i + 1][..i] == images[..i];
        i := i + 1;
      }
      assert images[..i] == images;
    }

    /** The "analyze directory" button: when the directory dialog returned a
        choice, the pipeline runs on it; otherwise nothing changes. */
    method ExtractDirectory(chosen: Option<Entry>, canLoad: string -> bool, encode: string -> Vector,
                            shuffle: seq<Image> -> seq<nat>, fit: (seq<Vector>, nat) -> Reducer,
                            project: (Reducer, Vector) -> Vector)
      requires chosen.Some? ==>
        chosen.value.Directory? && |Candidates(chosen.value.listing)| >= ExtractionLimit
      requires forall s {:trigger shuffle(s)} :: multiset(shuffle(s)) == multiset(Range(|s|))
      modifies this`candidateFiles, this`images, this`pcaSamples, this`pca, this`kdPoints
      ensures chosen.None? ==> images == old(images) && kdPoints == old(kdPoints)
      ensures chosen.None? ==>
        pca == old(pca) && pcaSamples == old(pcaSamples) && candidateFiles == old(candidateFiles)
      ensures chosen.Some? ==> candidateFiles == Candidates(chosen.value.listing)
      ensures chosen.Some? ==>
        images == ProjectAll(old(images) + Extracted(Candidates(chosen.value.listing)[..ExtractionLimit],
                                                     canLoad, encode), pca, project)
      ensures chosen.Some? ==>
        var ex := old(images) + Extracted(Candidates(chosen.value.listing)[..ExtractionLimit], canLoad, encode);
        pcaSamples == old(pcaSamples) + EncodingsAt(ex, SampleIndexes(|ex|, maxPCASamples, shuffle(ex)))
      ensures chosen.Some? ==> pca == fit(pcaSamples, numPCAcomponents)
      ensures chosen.Some? ==> |images| >= |old(images)| && kdPoints == Points(images)
      ensures chosen.Some? ==> |kdPoints| == |images|
      ensures chosen.Some? ==> forall i :: 0 <= i < |images| ==>
        kdPoints[i] == project(pca, images[i].encoding)
    {
      if chosen.Some? {
        ExtractFeaturesForDirectory(chosen.value, canLoad, encode);
        ghost var extracted := images;
        ghost var found := candidateFiles;
        ghost var samples := pcaSamples;
        RunPCAonImageSet(shuffle(images), fit, project);
        ghost var sampled := pcaSamples;
        assert sampled ==
          samples + EncodingsAt(extracted, SampleIndexes(|extracted|, maxPCASamples, shuffle(extracted)));
        RunKDTree();
        assert candidateFiles == found && pcaSamples == sampled;
        PointsAfterProjection(extracted, pca, project);
      }
    }

    /** Loads a saved file chosen in the dialog and rebuilds the kd-tree. */
    method LoadDialog(chosen: Option<Artifact>)
      requires chosen.Some? ==> |chosen.value.projectedEncodings| >= |chosen.value.filenames|
      modifies this`pca, this`images, this`kdPoints
      ensures chosen.None? ==> images == old(images) && pca == old(pca) && kdPoints == old(kdPoints)
      ensures chosen.Some? ==> pca == Reducer(chosen.value.E, chosen.value.V, chosen.value.columnMeans)
      ensures chosen.Some? ==> images == Rebuild(chosen.value.filenames, chosen.value.projectedEncodings)
      ensures chosen.Some? ==> kdPoints == chosen.value.projectedEncodings[..|chosen.value.filenames|]
    {
      if chosen.Some? {
        Load(chosen.value);
        RunKDTree();
        LoadSaveRoundTrip(chosen.value);
      }
    }

    /** Saves to the file chosen in the dialog, if one was chosen. */
    method SaveDialog(chosen: bool) returns (written: Option<Artifact>)
      ensures written == if chosen then Some(Flatten(images, pca)) else None
    {
      written := None;
      if chosen {
        var artifact := Save();
        written := Some(artifact);
      }
    }
  }

  /** The first `n` entries of `s`, padded with empty names (vector::resize). */
  function Resized(s: seq<string>, n: nat): (r: seq<string>)
    ensures |r| == n
    ensures forall k :: 0 <= k < n && k < |s| ==> r[k] == s[k]
    ensures forall k :: |s| <= k < n ==> r[k] == ""
  {
    if n <= |s| then s[..n] else s + seq(n - |s|, _ => "")
  }

  /** runPCAonImageSet's sample choice: 0..n-1 built one by one, then shuffled
      and cut to `maxSamples` when there are more images than that. */
  method SelectPCAIndexes(n: nat, maxSamples: nat, shuffled: seq<nat>) returns (pcaIndexes: seq<nat>)
    requires multiset(shuffled) == multiset(Range(n))
    ensures pcaIndexes == SampleIndexes(n, maxSamples, shuffled)
  {
    pcaIndexes := [];
    var i := 0;
    while i < n
      invariant 0 <= i <= n
      invariant pcaIndexes == Range(i)
    {
      pcaIndexes := pcaIndexes + [i];
      i := i + 1;
    }
    PermutationOfRange(shuffled, n);
    if maxSamples < n {
      pcaIndexes := shuffled;
      pcaIndexes := pcaIndexes[..maxSamples];
    }
  }
}
