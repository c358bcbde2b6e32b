/** The recursive directory scan that collects candidate image files
    (ofApp::getImagePathsRecursive). A directory is a value: its absolute path
    and its listing, in the order the listing yields the entries. */
module DirectoryScan {

  datatype Entry =
    | File(absolutePath: string, extension: string)
    | Directory(absolutePath: string, listing: seq<Entry>)

  /** The extensions, in lower case, that mark a file as an image. */
  const AllowedExtensions: seq<string> := ["jpg", "png", "gif", "jpeg"]

  /** Lowers one ASCII letter; every other character is kept. */
  function LowerChar(c: char): (r: char)
    ensures 'A' <= c <= 'Z' ==> r as int == c as int + 32
    ensures !('A' <= c <= 'Z') ==> r == c
  {
    if 'A' <= c <= 'Z' then (c as int - 'A' as int + 'a' as int) as char else c
  }

  /** ofToLower: the string with every upper-case ASCII letter lowered. */
  function ToLower(s: string): (r: string)
    ensures |r| == |s|
    ensures forall i :: 0 <= i < |s| ==> r[i] == LowerChar(s[i])
    ensures forall i :: 0 <= i < |r| ==> !('A' <= r[i] <= 'Z')
  {
    if s == [] then [] else [LowerChar(s[0])] + ToLower(s[1..])
  }

  /** The filter applied to a non-directory entry. */
  predicate IsImageFile(e: Entry) {
    e.File? && ToLower(e.extension) in AllowedExtensions
  }

  /** The files the scan appends for a listing: depth first, in listing order;
      a directory contributes the candidates of its own listing, a file
      contributes itself when it passes the filter. */
  function Candidates(listing: seq<Entry>): seq<Entry>
    decreases listing, 2
  {
    if listing == [] then []
    else Candidates(listing[..|listing| - 1]) + Contribution(listing[|listing| - 1])
  }

  /** What one entry of a listing contributes to the candidates. */
  function Contribution(e: Entry): seq<Entry>
    decreases e, 1
  {
    match e
    case Directory(_, children) => Candidates(children)
    case File(_, _) => if IsImageFile(e) then [e] else []
  }

  /** Scanning one more entry of a listing appends that entry's contribution. */
  lemma CandidatesStep(listing: seq<Entry>, i: nat)
    requires i < |listing|
    ensures Candidates(listing[..i + 1]) == Candidates(listing[..i]) + Contribution(listing[i])
  {
    var prefix := listing[..i + 1];
    assert prefix[..i] == listing[..i];
    assert prefix[i] == listing[i];
  }

  /** The scan's running result stays `start` followed by the candidates of the
      entries seen so far when entry i's contribution is appended. */
  lemma ScanStep(start: seq<Entry>, before: seq<Entry>, after: seq<Entry>, listing: seq<Entry>, i: nat)
    requires i < |listing|
    requires before == start + Candidates(listing[..i])
    requires after == before + Contribution(listing[i])
    ensures after == start + Candidates(listing[..i + 1])
  {
    CandidatesStep(listing, i);
  }

  /** `e` is listed somewhere in the tree below `listing`. */
  predicate Occurs(e: Entry, listing: seq<Entry>)
    decreases listing
  {
    exists k :: 0 <= k < |listing| &&
      (listing[k] == e || (listing[k].Directory? && Occurs(e, listing[k].listing)))
  }

  lemma {:induction false} OccursInPrefix(e: Entry, listing: seq<Entry>)
    requires listing != []
    ensures Occurs(e, listing) <==>
      Occurs(e, listing[..|listing| - 1]) || listing[|listing| - 1] == e ||
      (listing[|listing| - 1].Directory? && Occurs(e, listing[|listing| - 1].listing))
  {
    var n := |listing| - 1;
    var front := listing[..n];
    if Occurs(e, listing) {
      var k :| 0 <= k < |listing| &&
        (listing[k] == e || (listing[k].Directory? && Occurs(e, listing[k].listing)));
      if k < n {
        assert front[k] == listing[k];
      }
    }
    if Occurs(e, front) {
      var k :| 0 <= k < |front| &&
        (front[k] == e || (front[k].Directory? && Occurs(e, front[k].listing)));
      assert listing[k] == front[k];
    }
  }

  /** A file is collected exactly when it passes the filter and occurs in the
      tree; a directory is never collected. */
  lemma {:induction false} CandidatesIff(e: Entry, listing: seq<Entry>)
    ensures e in Candidates(listing) <==> IsImageFile(e) && Occurs(e, listing)
    decreases listing
  {
    if listing != [] {
      var n := |listing| - 1;
      var last := listing[n];
      CandidatesIff(e, listing[..n]);
      OccursInPrefix(e, listing);
      match last
      case Directory(_, children) =>
        CandidatesIff(e, children);
      case File(_, _) =>
    }
  }
}
