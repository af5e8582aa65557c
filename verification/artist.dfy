/**
  Working out whose images a folder holds: the first segment of the folder's
  path, from the root end, that is a known artist folder, else the configured
  default.
 */
module Artist {
  import opened Maybe
  import opened Paths

  /** The first of `segs` that occurs in `artists`. */
  function FirstKnown(segs: seq<string>, artists: seq<string>): (r: Option<string>)
    ensures r.None? <==> forall k :: 0 <= k < |segs| ==> segs[k] !in artists
    ensures r.Some? ==>
      exists k :: 0 <= k < |segs| && segs[k] == r.value && segs[k] in artists &&
        forall j :: 0 <= j < k ==> segs[j] !in artists
    decreases |segs|
  {
    if segs == [] then None
    else if segs[0] in artists then Some(segs[0])
    else
      var r := FirstKnown(segs[1..], artists);
      assert forall k :: 1 <= k < |segs| ==> segs[k] == segs[1..][k - 1];
      r
  }

  /** `detect_artist_from_path`: the artist folder nearest the root, if any. */
  function DetectArtist(path: string, artists: seq<string>): (r: Option<string>)
    ensures r.None? <==> forall s :: s in Split(path) ==> s !in artists
    ensures r.Some? ==> r.value in artists && r.value in Split(path)
    ensures r.Some? ==>
      exists k :: 0 <= k < |Split(path)| && Split(path)[k] == r.value &&
        forall j :: 0 <= j < k ==> Split(path)[j] !in artists
  {
    var segs := Split(path);
    var r := FirstKnown(segs, artists);
    r
  }

  /**
    `detect_artist_from_path(...) or default_artist`, with the emptiness test
    that follows it: an empty name counts as no name at all.
   */
  function ResolveArtist(path: string, artists: seq<string>, default: Option<string>): (r: Option<string>)
    ensures r.Some? ==> r.value != ""
    ensures r.None? <==>
      (DetectArtist(path, artists) in {None, Some("")} && default in {None, Some("")})
    ensures DetectArtist(path, artists).Some? && DetectArtist(path, artists).value != "" ==>
      r == DetectArtist(path, artists)
    ensures r.Some? && r != DetectArtist(path, artists) ==> r == default
  {
    var detected := DetectArtist(path, artists);
    if detected.Some? && detected.value != "" then detected
    else if default.Some? && default.value != "" then default
    else None
  }
}
