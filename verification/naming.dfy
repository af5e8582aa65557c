/**
  The naming scheme `<artist>_<project>_<NN><ext>`: which files count as
  images, which names already follow the scheme (the skip test), the planned
  name and its clash-avoiding variant, and reading the number back out of a
  name.
 */
module Naming {
  import opened Maybe
  import opened Text
  import opened Paths

  const ImageExtensions: seq<string> := [".jpg", ".jpeg", ".png", ".gif", ".bmp", ".tiff", ".psd"]

  /**
    The lower-cased name ends with one of the image extensions, so an image
    name ends in a dot followed by three or four characters.
   */
  function IsImage(name: string): (r: bool)
    ensures r ==> |name| >= 4 && (name[|name| - 4] == '.' || (|name| >= 5 && name[|name| - 5] == '.'))
  {
    ImageDot(name);
    exists k :: 0 <= k < |ImageExtensions| && EndsWith(Lower(name), ImageExtensions[k])
  }

  lemma ImageDot(name: string)
    ensures (exists k :: 0 <= k < |ImageExtensions| && EndsWith(Lower(name), ImageExtensions[k])) ==>
      |name| >= 4 && (name[|name| - 4] == '.' || (|name| >= 5 && name[|name| - 5] == '.'))
  {
    ExtensionsDotted();
    LowerDot(name);
    DottedSuffixes(name, Lower(name), ImageExtensions);
  }

  predicate DotLed(e: string) {
    4 <= |e| <= 5 && e[0] == '.'
  }

  lemma ExtensionsDotted()
    ensures forall k :: 0 <= k < |ImageExtensions| ==> DotLed(ImageExtensions[k])
  {
  }

  /** Lower-casing makes no new dots. */
  lemma LowerDot(s: string)
    ensures forall i :: 0 <= i < |s| && Lower(s)[i] == '.' ==> s[i] == '.'
  {
  }

  /** A name whose lower-cased form `low` ends in one of `exts` has the dot at that extension's start. */
  lemma DottedSuffixes(name: string, low: string, exts: seq<string>)
    requires |low| == |name| && forall i :: 0 <= i < |name| && low[i] == '.' ==> name[i] == '.'
    requires forall k :: 0 <= k < |exts| ==> DotLed(exts[k])
    ensures forall k :: 0 <= k < |exts| && EndsWith(low, exts[k]) ==>
      |name| >= 4 && (name[|name| - 4] == '.' || (|name| >= 5 && name[|name| - 5] == '.'))
  {
    forall k | 0 <= k < |exts| && EndsWith(low, exts[k])
      ensures |name| >= 4 && (name[|name| - 4] == '.' || (|name| >= 5 && name[|name| - 5] == '.'))
    {
      DotBeforeSuffix(name, low, exts[k]);
    }
  }

  /** A suffix of `low` that starts with a dot starts with a dot in the name itself. */
  lemma DotBeforeSuffix(name: string, low: string, e: string)
    requires |low| == |name| && forall i :: 0 <= i < |name| && low[i] == '.' ==> name[i] == '.'
    requires EndsWith(low, e) && |e| >= 1 && e[0] == '.'
    ensures |name| >= |e| && name[|name| - |e|] == '.'
  {
    assert low[|name| - |e|..][0] == low[|name| - |e|];
  }

  /** A name ending in an image extension, in any case, is an image. */
  lemma ImageOf(stem: string, ext: string, k: nat)
    requires k < |ImageExtensions| && Lower(ext) == ImageExtensions[k]
    ensures IsImage(stem + ext)
  {
    var name := stem + ext;
    assert Lower(name)[|stem|..] == Lower(ext) by {
      forall q | 0 <= q < |ext| ensures Lower(name)[|stem|..][q] == Lower(ext)[q] {
        assert name[|stem| + q] == ext[q];
      }
    }
    assert EndsWith(Lower(name), ImageExtensions[k]);
  }

  /**
    Every image ends in one of the seven extensions, in some mix of case: the
    converse of `ImageOf`, returning which extension it is.
   */
  lemma ImageSuffix(name: string) returns (k: nat)
    requires IsImage(name)
    ensures k < |ImageExtensions| && |ImageExtensions[k]| <= |name|
    ensures Lower(name[|name| - |ImageExtensions[k]|..]) == ImageExtensions[k]
  {
    k :| 0 <= k < |ImageExtensions| && EndsWith(Lower(name), ImageExtensions[k]);
    LowerSuffix(name, ImageExtensions[k]);
  }

  function Prefix(artist: string, project: string): string {
    artist + "_" + project + "_"
  }

  /**
    `re.match(f"{re.escape(artist)}_{re.escape(project)}_\\d+", name)`: the
    literal prefix followed by at least one digit.
   */
  function AlreadyNamed(name: string, artist: string, project: string): (r: bool)
    ensures r <==> (exists k :: |Prefix(artist, project)| < k <= |name| &&
                      StartsWith(name, Prefix(artist, project)) && AllDigits(name[|Prefix(artist, project)|..k]))
  {
    var pre := Prefix(artist, project);
    if StartsWith(name, pre) && |name| > |pre| && IsDigit(name[|pre|]) then
      assert AllDigits(name[|pre|..|pre| + 1]);
      true
    else
      false
  }

  /** `f"{artist}_{project}_{i:02d}{ext}"`: a name the skip test accepts, keeping `ext` at its end. */
  function Candidate(artist: string, project: string, i: nat, ext: string): (r: string)
    ensures AlreadyNamed(r, artist, project)
    ensures EndsWith(r, ext)
  {
    var r := Prefix(artist, project) + Pad2(i) + ext;
    assert r[..|Prefix(artist, project)|] == Prefix(artist, project);
    r
  }

  /**
    `f"{artist}_{project}_{i:02d}_{unique_id}{ext}"`: also accepted by the skip
    test and ending in `ext`, and longer than the planned name by the
    identifier and its underscore, so never equal to it.
   */
  function Suffixed(artist: string, project: string, i: nat, id: string, ext: string): (r: string)
    ensures AlreadyNamed(r, artist, project)
    ensures EndsWith(r, ext)
    ensures |r| == |Candidate(artist, project, i, ext)| + 1 + |id|
  {
    var r := Prefix(artist, project) + Pad2(i) + "_" + id + ext;
    assert r[..|Prefix(artist, project)|] == Prefix(artist, project);
    r
  }

  /** The number a name following the scheme carries after `artist_project_`. */
  function NumberIn(name: string, artist: string, project: string): (r: Option<nat>)
    ensures r.Some? <==> AlreadyNamed(name, artist, project)
  {
    var pre := Prefix(artist, project);
    if StartsWith(name, pre) then
      var ds := LeadingDigits(name[|pre|..]);
      if ds == [] then None else Some(ValueOf(ds))
    else None
  }

  /** The prefix, a run of digits and then a non-digit (or nothing) carry the value of those digits. */
  lemma NumberAfterPrefix(artist: string, project: string, ds: string, rest: string)
    requires |ds| >= 1 && AllDigits(ds)
    requires rest == [] || !IsDigit(rest[0])
    ensures NumberIn(Prefix(artist, project) + ds + rest, artist, project) == Some(ValueOf(ds))
  {
    var pre := Prefix(artist, project);
    var tail := ds + rest;
    var name := pre + tail;
    assert Prefix(artist, project) + ds + rest == name;
    assert StartsWith(name, pre) by {
      assert name[..|pre|] == pre;
    }
    assert name[|pre|..] == tail;
    LeadingDigitsOf(ds, rest);
  }

  /** Reading the number back out of a planned name gives the position it was built from. */
  lemma CandidateNumber(artist: string, project: string, i: nat, ext: string)
    requires ext == [] || !IsDigit(ext[0])
    ensures NumberIn(Candidate(artist, project, i, ext), artist, project) == Some(i)
    ensures AlreadyNamed(Candidate(artist, project, i, ext), artist, project)
  {
    NumberAfterPrefix(artist, project, Pad2(i), ext);
  }

  /** The same holds for the clash-avoiding variant. */
  lemma SuffixedNumber(artist: string, project: string, i: nat, id: string, ext: string)
    ensures NumberIn(Suffixed(artist, project, i, id, ext), artist, project) == Some(i)
    ensures AlreadyNamed(Suffixed(artist, project, i, id, ext), artist, project)
  {
    assert Suffixed(artist, project, i, id, ext) == Prefix(artist, project) + Pad2(i) + ("_" + id + ext);
    NumberAfterPrefix(artist, project, Pad2(i), "_" + id + ext);
  }

  /**
    A planned name, with or without the identifier, splits back into the
    extension it was built with.
   */
  lemma PlannedNamesKeepExt(artist: string, project: string, i: nat, id: string, ext: string)
    requires ext != [] && ext[0] == '.' && '.' !in ext[1..]
    ensures Ext(Candidate(artist, project, i, ext)) == ext
    ensures Ext(Suffixed(artist, project, i, id, ext)) == ext
  {
    var stem := Prefix(artist, project) + Pad2(i);
    assert stem[|artist|] == '_';
    ExtOfAppend(stem, ext);
    assert Candidate(artist, project, i, ext) == stem + ext;
    var stem' := stem + "_" + id;
    assert stem'[|artist|] == '_';
    ExtOfAppend(stem', ext);
    assert Suffixed(artist, project, i, id, ext) == stem' + ext;
  }

  /** The clash-avoiding variant is never the planned name it replaces. */
  lemma SuffixedDiffers(artist: string, project: string, i: nat, id: string, ext: string)
    requires ext == [] || ext[0] == '.'
    ensures Suffixed(artist, project, i, id, ext) != Candidate(artist, project, i, ext)
  {
    var at := |Prefix(artist, project) + Pad2(i)|;
    if ext != [] {
      assert Suffixed(artist, project, i, id, ext)[at] == '_';
      assert Candidate(artist, project, i, ext)[at] == '.';
    } else {
      assert |Suffixed(artist, project, i, id, ext)| > |Candidate(artist, project, i, ext)|;
    }
  }

  /** The tail of a name whose lower-cased form ends with `e` lower-cases to `e`. */
  lemma LowerSuffix(name: string, e: string)
    requires EndsWith(Lower(name), e)
    ensures Lower(name[|name| - |e|..]) == e
  {
    var pos := |name| - |e|;
    var x := name[pos..];
    forall q | 0 <= q < |x| ensures Lower(x)[q] == e[q] {
      assert x[q] == name[pos + q];
      assert Lower(name)[pos..][q] == e[q];
    }
  }

  /** Lower-casing leaves dots where they are and makes none. */
  lemma DotsKept(x: string, e: string)
    requires Lower(x) == e && |e| >= 1 && e[0] == '.' && '.' !in e[1..]
    ensures x[0] == '.' && forall q :: 1 <= q < |x| ==> x[q] != '.'
  {
    assert Lower(x)[0] == '.';
    forall q | 1 <= q < |x| ensures x[q] != '.' {
      assert Lower(x)[q] == e[q];
      assert e[q] == e[1..][q - 1];
    }
  }

  /**
    When the lower-cased name ends with a dot-extension, `splitext` finds that
    extension in its original case, or none if only dots precede it.
   */
  lemma DotSuffixExt(name: string, e: string)
    requires |e| >= 1 && e[0] == '.' && '.' !in e[1..]
    requires EndsWith(Lower(name), e)
    ensures Ext(name) == [] || Lower(Ext(name)) == e
  {
    var pos := |name| - |e|;
    var x := name[pos..];
    LowerSuffix(name, e);
    DotsKept(x, e);
    assert name[pos] == x[0];
    forall q | pos < q < |name| ensures name[q] != '.' {
      assert name[q] == x[q - pos];
    }
    LastIndexAt(name, '.', pos);
    if Ext(name) != [] {
      assert Ext(name) == x;
    }
  }

  /** Each image extension is a dot followed by letters. */
  lemma ExtensionShape(k: nat)
    requires k < |ImageExtensions|
    ensures var e := ImageExtensions[k]; |e| >= 2 && e[0] == '.' && '.' !in e[1..]
  {
    var e := ImageExtensions[k];
    if k == 0 { assert e[1..] == "jpg"; }
    else if k == 1 { assert e[1..] == "jpeg"; }
    else if k == 2 { assert e[1..] == "png"; }
    else if k == 3 { assert e[1..] == "gif"; }
    else if k == 4 { assert e[1..] == "bmp"; }
    else if k == 5 { assert e[1..] == "tiff"; }
    else { assert e[1..] == "psd"; }
  }

  /**
    The extension `splitext` finds on an image is, up to case, the image
    extension it matched, unless the name is nothing but dots in front of it
    (".png"), in which case there is none.
   */
  lemma ImageExt(name: string)
    requires IsImage(name)
    ensures Ext(name) == [] || Lower(Ext(name)) in ImageExtensions
  {
    var k :| 0 <= k < |ImageExtensions| && EndsWith(Lower(name), ImageExtensions[k]);
    var e := ImageExtensions[k];
    ExtensionShape(k);
    DotSuffixExt(name, e);
  }
}
