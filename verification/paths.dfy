/**
  The `os.path` operations the renamer relies on, for a POSIX-style path
  whose separator is `/`: `str.split(sep)`, `basename`, `join` and
  `splitext`.
 */
module Paths {
  import opened Maybe
  import opened Text

  const Sep: char := '/'

  /** The position of the last `c` in `s` (`str.rfind`). */
  function LastIndex(s: string, c: char): (r: Option<nat>)
    ensures r.None? ==> c !in s
    ensures r.Some? ==> r.value < |s| && s[r.value] == c && c !in s[r.value + 1..]
    decreases |s|
  {
    if s == [] then None
    else if s[|s| - 1] == c then Some(|s| - 1)
    else
      var r := LastIndex(s[..|s| - 1], c);
      assert r.Some? ==> s[r.value + 1..] == s[..|s| - 1][r.value + 1..] + [s[|s| - 1]];
      r
  }

  /** The last occurrence is the one with no further occurrence after it. */
  lemma {:induction false} LastIndexAt(s: string, c: char, p: nat)
    requires p < |s| && s[p] == c
    requires forall q :: p < q < |s| ==> s[q] != c
    ensures LastIndex(s, c) == Some(p)
    decreases |s|
  {
    if s[|s| - 1] != c {
      LastIndexAt(s[..|s| - 1], c, p);
    }
  }

  /** `path.split("/")`: the segments between separators, empty ones included. */
  function Split(s: string): (r: seq<string>)
    ensures |r| >= 1
    ensures forall k :: 0 <= k < |r| ==> Sep !in r[k]
    decreases |s|
  {
    if s == [] then [[]]
    else
      var rest := Split(s[1..]);
      if s[0] == Sep then [[]] + rest
      else [[s[0]] + rest[0]] + rest[1..]
  }

  /** `"/".join(segs)`. */
  function Unsplit(segs: seq<string>): string
    requires |segs| >= 1
    decreases |segs|
  {
    if |segs| == 1 then segs[0] else segs[0] + [Sep] + Unsplit(segs[1..])
  }

  /** Splitting loses nothing: joining the segments back gives the path. */
  lemma {:induction false} SplitRoundTrip(s: string)
    ensures Unsplit(Split(s)) == s
    decreases |s|
  {
    if s != [] {
      SplitRoundTrip(s[1..]);
      var rest := Split(s[1..]);
      if s[0] != Sep && |rest| > 1 {
        assert Unsplit(rest) == rest[0] + [Sep] + Unsplit(rest[1..]);
      }
      assert s == [s[0]] + s[1..];
    }
  }

  lemma {:induction false} SplitPlain(x: string)
    requires Sep !in x
    ensures Split(x) == [x]
    decreases |x|
  {
    if x != [] {
      SplitPlain(x[1..]);
      assert x == [x[0]] + x[1..];
    }
  }

  lemma {:induction false} SplitCons(x: string, y: string)
    requires Sep !in x
    ensures Split(x + [Sep] + y) == [x] + Split(y)
    decreases |x|
  {
    var s := x + [Sep] + y;
    if x == [] {
      assert s[1..] == y;
    } else {
      assert s[1..] == x[1..] + [Sep] + y;
      SplitCons(x[1..], y);
      assert x == [x[0]] + x[1..];
    }
  }

  /** Segments free of separators survive a join followed by a split. */
  lemma {:induction false} UnsplitRoundTrip(segs: seq<string>)
    requires |segs| >= 1
    requires forall k :: 0 <= k < |segs| ==> Sep !in segs[k]
    ensures Split(Unsplit(segs)) == segs
    decreases |segs|
  {
    if |segs| == 1 {
      SplitPlain(segs[0]);
    } else {
      UnsplitRoundTrip(segs[1..]);
      SplitCons(segs[0], Unsplit(segs[1..]));
      assert segs == [segs[0]] + segs[1..];
    }
  }

  /** `os.path.basename`: everything after the last separator. */
  function Basename(p: string): (r: string)
    ensures Sep !in r && EndsWith(p, r)
    ensures r == p || p[|p| - |r| - 1] == Sep
  {
    match LastIndex(p, Sep)
    case None => p
    case Some(k) => p[k + 1..]
  }

  /**
    `os.path.join(a, b)` for a name `b` that does not start with a separator:
    `a`, then `b`, with exactly one separator between them when `a` is not
    empty (the one `a` already ends with, if any).
   */
  function JoinPath(a: string, b: string): (r: string)
    ensures StartsWith(r, a) && EndsWith(r, b)
    ensures |a| + |b| <= |r| <= |a| + |b| + 1
    ensures a != [] ==> r[|r| - |b| - 1] == Sep
    ensures a == [] ==> r == b
    ensures a != [] && a[|a| - 1] == Sep ==> r == a + b
  {
    if a == [] || a[|a| - 1] == Sep then a + b else a + [Sep] + b
  }

  /** The folder a walker builds for an entry is named after that entry. */
  lemma BasenameOfJoin(a: string, b: string)
    requires Sep !in b
    ensures Basename(JoinPath(a, b)) == b
  {
    var p := JoinPath(a, b);
    if a != [] {
      var k := if a[|a| - 1] == Sep then |a| - 1 else |a|;
      assert p[k] == Sep && p[k + 1..] == b;
    }
  }

  /**
    `os.path.splitext(name)[1]` for a name without separators: from the last
    dot on, except that dots leading the name do not start an extension
    (".jpg" has none).
   */
  function Ext(name: string): (ext: string)
    ensures EndsWith(name, ext)
    ensures ext == [] || (ext[0] == '.' && '.' !in ext[1..])
    ensures ext == [] <==> forall j, k :: 0 <= j < k < |name| && name[k] == '.' ==> name[j] == '.'
  {
    match LastIndex(name, '.')
    case None => []
    case Some(k) =>
      if exists j :: 0 <= j < k && name[j] != '.' then
        assert name[k..][1..] == name[k + 1..];
        name[k..]
      else
        assert forall k' :: k < k' < |name| ==> name[k'] == name[k + 1..][k' - k - 1];
        []
  }

  /** Appending an extension to a stem that is not all dots gives it back. */
  lemma ExtOfAppend(stem: string, ext: string)
    requires ext != [] && ext[0] == '.' && '.' !in ext[1..]
    requires exists j :: 0 <= j < |stem| && stem[j] != '.'
    ensures Ext(stem + ext) == ext
  {
    var name := stem + ext;
    var r := LastIndex(name, '.');
    assert name[|stem|] == '.';
    assert r.Some?;
    var j :| 0 <= j < |stem| && stem[j] != '.';
    assert name[j] != '.';
    assert name[|stem|..] == ext;
  }
}
