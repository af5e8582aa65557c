/**
  `process_directory_structure`: walk the tree below a root folder, run the
  folder renamer on every sub-folder that is not hidden, down to a depth
  bound, and add up what each call renamed. The root's own files are never
  touched.
 */
module Walk {
  import opened Maybe
  import opened Paths
  import opened Folders
  import opened Rename

  /** What the front end supplies: known artist folders, a fallback artist, a depth bound. */
  datatype Config = Config(artists: seq<string>, defaultArtist: Option<string>, maxDepth: Option<int>)

  /** One call of the folder renamer: the folder's names below the root, and how many files it renamed. */
  datatype Processed = Processed(rel: seq<string>, count: nat)

  /** A walk of one folder: its sub-folders afterwards, the total renamed, and the calls made, in order. */
  datatype WalkRun = WalkRun(subdirs: seq<Entry>, count: nat, processed: seq<Processed>)

  /**
    `max_depth is not None and current_depth > max_depth`: without a bound no
    depth is too deep; a negative bound stops even the first level.
   */
  function TooDeep(cfg: Config, depth: nat): (r: bool)
    ensures cfg.maxDepth.None? ==> !r
    ensures cfg.maxDepth.Some? && cfg.maxDepth.value < 0 ==> r
    ensures cfg.maxDepth.Some? ==> (r <==> depth >= cfg.maxDepth.value + 1)
  {
    cfg.maxDepth.Some? && depth > cfg.maxDepth.value
  }

  function Total(ps: seq<Processed>): nat
    decreases |ps|
  {
    if ps == [] then 0 else ps[0].count + Total(ps[1..])
  }

  lemma {:induction false} TotalAppend(a: seq<Processed>, b: seq<Processed>)
    ensures Total(a + b) == Total(a) + Total(b)
    decreases |a|
  {
    if a == [] {
      assert a + b == b;
    } else {
      assert (a + b)[1..] == a[1..] + b;
      TotalAppend(a[1..], b);
    }
  }

  /** The calls made inside the sub-folder `name`, seen from its parent. */
  function Under(name: string, ps: seq<Processed>): (r: seq<Processed>)
    ensures |r| == |ps|
    ensures forall k :: 0 <= k < |ps| ==> r[k] == Processed([name] + ps[k].rel, ps[k].count)
  {
    seq(|ps|, k requires 0 <= k < |ps| => Processed([name] + ps[k].rel, ps[k].count))
  }

  lemma {:induction false} TotalUnder(name: string, ps: seq<Processed>)
    ensures Total(Under(name, ps)) == Total(ps)
    decreases |ps|
  {
    if ps != [] {
      assert Under(name, ps)[1..] == Under(name, ps[1..]);
      TotalUnder(name, ps[1..]);
    }
  }

  /** Entries keep their names and order; hidden ones are left exactly as they were. */
  predicate SameShape(before: seq<Entry>, after: seq<Entry>) {
    && |after| == |before|
    && forall k :: 0 <= k < |before| ==>
         after[k].name == before[k].name && after[k].dir.readable == before[k].dir.readable &&
         (Hidden(before[k].name) ==> after[k] == before[k])
  }

  /** `process_directory_structure(path, ..., current_depth=depth)` on the folder `d`. */
  function Walk(path: string, d: Dir, cfg: Config, env: Env, depth: nat): (r: WalkRun)
    ensures TooDeep(cfg, depth) || !d.readable ==> r == WalkRun(d.subdirs, 0, [])
    ensures r.count == Total(r.processed)
    ensures SameShape(d.subdirs, r.subdirs)
    decreases d
  {
    if TooDeep(cfg, depth) || !d.readable then WalkRun(d.subdirs, 0, [])
    else WalkEntries(path, d.subdirs, cfg, env, depth)
  }

  /** The loop over the listed entries of the folder at `path`. */
  function WalkEntries(path: string, es: seq<Entry>, cfg: Config, env: Env, depth: nat): (r: WalkRun)
    ensures r.count == Total(r.processed)
    ensures SameShape(es, r.subdirs)
    decreases es
  {
    if es == [] then WalkRun([], 0, [])
    else
      var e := es[0];
      var rest := WalkEntries(path, es[1..], cfg, env, depth);
      if Hidden(e.name) then
        WalkRun([e] + rest.subdirs, rest.count, rest.processed)
      else
        var child := JoinPath(path, e.name);
        var renamed := RenameImages(child, e.dir, cfg.artists, cfg.defaultArtist, None, env);
        // The walk below the child reads only its sub-folders, which renaming its files leaves alone.
        var sub := Walk(child, e.dir, cfg, env, depth + 1);
        var e' := Entry(e.name, Dir(e.dir.readable, renamed.folder.files, sub.subdirs));
        var processed := [Processed([e.name], renamed.count)] + Under(e.name, sub.processed) + rest.processed;
        TotalUnder(e.name, sub.processed);
        TotalAppend([Processed([e.name], renamed.count)], Under(e.name, sub.processed));
        TotalAppend([Processed([e.name], renamed.count)] + Under(e.name, sub.processed), rest.processed);
        WalkRun([e'] + rest.subdirs, renamed.count + sub.count + rest.count, processed)
  }

  datatype TreeRun = TreeRun(tree: Dir, total: nat, processed: seq<Processed>)

  /** The walk started at the root with depth 0; the root keeps its own files. */
  function ProcessDirectoryStructure(path: string, root: Dir, cfg: Config, env: Env): (r: TreeRun)
    ensures r.tree.files == root.files && r.tree.readable == root.readable
    ensures SameShape(root.subdirs, r.tree.subdirs)
    ensures r.total == Total(r.processed)
    ensures cfg.maxDepth.Some? && cfg.maxDepth.value < 0 ==> r.total == 0 && r.tree == root
  {
    var w := Walk(path, root, cfg, env, 0);
    TreeRun(Dir(root.readable, root.files, w.subdirs), w.count, w.processed)
  }

  /** The first listed sub-folder called `name`. */
  function ChildIn(es: seq<Entry>, name: string): (r: Option<Dir>)
    ensures r.None? <==> forall k :: 0 <= k < |es| ==> es[k].name != name
    ensures r.Some? ==> exists k :: 0 <= k < |es| && es[k].name == name && es[k].dir == r.value
    decreases |es|
  {
    if es == [] then None
    else if es[0].name == name then Some(es[0].dir)
    else
      var r := ChildIn(es[1..], name);
      assert forall k :: 1 <= k < |es| ==> es[k] == es[1..][k - 1];
      r
  }

  /** The folder reached from `d` through the sub-folder names `rel`. */
  function FolderAt(d: Dir, rel: seq<string>): Option<Dir>
    decreases |rel|
  {
    if rel == [] then Some(d)
    else
      match ChildIn(d.subdirs, rel[0])
      case None => None
      case Some(c) => FolderAt(c, rel[1..])
  }

  /** The path the walk builds for the folder `rel` below `path`. */
  function PathOf(path: string, rel: seq<string>): string
    decreases |rel|
  {
    if rel == [] then path else PathOf(JoinPath(path, rel[0]), rel[1..])
  }

  predicate DistinctNames(es: seq<Entry>) {
    forall i, j :: 0 <= i < j < |es| ==> es[i].name != es[j].name
  }

  ghost predicate Visited(ps: seq<Processed>, rel: seq<string>) {
    exists k :: 0 <= k < |ps| && ps[k].rel == rel
  }

  /**
    The folders the walk started at depth `depth` should hand to the renamer:
    one to `maxDepth - depth + 1` levels below `d`, reached only through
    names that are not hidden and through folders that can be listed.
   */
  ghost predicate Eligible(d: Dir, rel: seq<string>, cfg: Config, depth: nat) {
    && |rel| >= 1
    && (cfg.maxDepth.None? || depth + |rel| - 1 <= cfg.maxDepth.value)
    && (forall j :: 0 <= j < |rel| ==> !Hidden(rel[j]))
    && FolderAt(d, rel).Some?
    && (forall j :: 0 <= j < |rel| ==> FolderAt(d, rel[..j]).Some? && FolderAt(d, rel[..j]).value.readable)
  }

  lemma ChildWellFormed(d: Dir, name: string)
    requires WellFormed(d) && ChildIn(d.subdirs, name).Some?
    ensures WellFormed(ChildIn(d.subdirs, name).value)
  {
  }

  lemma VisitedUnder(name: string, ps: seq<Processed>, rel: seq<string>)
    ensures Visited(Under(name, ps), rel) <==> |rel| >= 1 && rel[0] == name && Visited(ps, rel[1..])
  {
    var u := Under(name, ps);
    if Visited(u, rel) {
      var k :| 0 <= k < |u| && u[k].rel == rel;
      assert rel[1..] == ps[k].rel;
    }
    if |rel| >= 1 && rel[0] == name && Visited(ps, rel[1..]) {
      var k :| 0 <= k < |ps| && ps[k].rel == rel[1..];
      assert u[k].rel == rel;
    }
  }

  lemma VisitedAppend(a: seq<Processed>, b: seq<Processed>, rel: seq<string>)
    ensures Visited(a + b, rel) <==> Visited(a, rel) || Visited(b, rel)
  {
    if Visited(a + b, rel) {
      var k :| 0 <= k < |a + b| && (a + b)[k].rel == rel;
      if k >= |a| {
        assert b[k - |a|].rel == rel;
      }
    }
    if Visited(b, rel) {
      var k :| 0 <= k < |b| && b[k].rel == rel;
      assert (a + b)[k + |a|].rel == rel;
    }
    if Visited(a, rel) {
      var k :| 0 <= k < |a| && a[k].rel == rel;
      assert (a + b)[k].rel == rel;
    }
  }

  /** Which folders the loop over a listing hands on, in terms of the listing. */
  lemma {:induction false} EntriesVisited(path: string, es: seq<Entry>, cfg: Config, env: Env, depth: nat, rel: seq<string>)
    requires DistinctNames(es)
    ensures Visited(WalkEntries(path, es, cfg, env, depth).processed, rel) <==>
      && |rel| >= 1
      && !Hidden(rel[0])
      && ChildIn(es, rel[0]).Some?
      && (|rel| == 1 ||
          Visited(Walk(JoinPath(path, rel[0]), ChildIn(es, rel[0]).value, cfg, env, depth + 1).processed, rel[1..]))
    decreases |es|
  {
    if es != [] {
      var e := es[0];
      var child := JoinPath(path, e.name);
      var rest := WalkEntries(path, es[1..], cfg, env, depth).processed;
      var sub := Walk(child, e.dir, cfg, env, depth + 1).processed;
      var first := Processed([e.name], RenameImages(child, e.dir, cfg.artists, cfg.defaultArtist, None, env).count);
      HeadNameFresh(es);
      EntriesVisited(path, es[1..], cfg, env, depth, rel);
      WalkEntriesCons(path, es, cfg, env, depth);
      var tailCase := && |rel| >= 1
                      && !Hidden(rel[0])
                      && ChildIn(es[1..], rel[0]).Some?
                      && (|rel| == 1 ||
                          Visited(Walk(JoinPath(path, rel[0]), ChildIn(es[1..], rel[0]).value, cfg, env, depth + 1).processed, rel[1..]));
      VisitedStep(e.name, Hidden(e.name), first, sub, rest, WalkEntries(path, es, cfg, env, depth).processed, rel, tailCase);
      if |rel| >= 1 {
        ChildInCons(es, rel[0]);
      }
    }
  }

  /** One entry of a listing: the calls it adds in front of the rest, and which folders they name. */
  lemma VisitedStep(n: string, hidden: bool, first: Processed, sub: seq<Processed>, rest: seq<Processed>,
                    all: seq<Processed>, rel: seq<string>, tailCase: bool)
    requires all == if hidden then rest else [first] + Under(n, sub) + rest
    requires first.rel == [n]
    requires Visited(rest, rel) <==> tailCase
    requires tailCase ==> |rel| >= 1 && rel[0] != n
    ensures Visited(all, rel) <==>
      tailCase || (!hidden && |rel| >= 1 && rel[0] == n && (|rel| == 1 || Visited(sub, rel[1..])))
  {
    if !hidden {
      VisitedAppend([first] + Under(n, sub), rest, rel);
      VisitedAppend([first], Under(n, sub), rel);
      VisitedUnder(n, sub, rel);
      VisitedOne(first, rel);
    }
  }

  lemma ChildInCons(es: seq<Entry>, name: string)
    requires es != []
    ensures ChildIn(es, name) == if es[0].name == name then Some(es[0].dir) else ChildIn(es[1..], name)
  {
  }

  lemma VisitedOne(p: Processed, rel: seq<string>)
    ensures Visited([p], rel) <==> rel == p.rel
  {
    if rel == p.rel {
      assert [p][0].rel == rel;
    }
  }

  /** Unfolding `Eligible` by one level below a folder the walk lists. */
  lemma EligibleCons(d: Dir, rel: seq<string>, cfg: Config, depth: nat)
    requires d.readable && !TooDeep(cfg, depth) && |rel| >= 1
    ensures Eligible(d, rel, cfg, depth) <==>
      && !Hidden(rel[0])
      && ChildIn(d.subdirs, rel[0]).Some?
      && (|rel| == 1 || Eligible(ChildIn(d.subdirs, rel[0]).value, rel[1..], cfg, depth + 1))
  {
    var c := ChildIn(d.subdirs, rel[0]);
    var rel' := rel[1..];
    assert rel[..0] == [];
    if c.Some? {
      forall j | 1 <= j <= |rel|
        ensures FolderAt(d, rel[..j]) == FolderAt(c.value, rel'[..j - 1])
      {
        assert rel[..j][0] == rel[0];
        assert rel[..j][1..] == rel'[..j - 1];
      }
      assert rel[..|rel|] == rel;
      assert rel'[..|rel'|] == rel';
      if |rel| >= 2 && Eligible(d, rel, cfg, depth) {
        forall j | 0 <= j < |rel'|
          ensures FolderAt(c.value, rel'[..j]).Some? && FolderAt(c.value, rel'[..j]).value.readable
        {
          assert FolderAt(d, rel[..j + 1]) == FolderAt(c.value, rel'[..j]);
        }
        forall j | 0 <= j < |rel'| ensures !Hidden(rel'[j]) {
          assert rel'[j] == rel[j + 1];
        }
      }
      if |rel| >= 2 && !Hidden(rel[0]) && Eligible(c.value, rel', cfg, depth + 1) {
        forall j | 0 <= j < |rel|
          ensures FolderAt(d, rel[..j]).Some? && FolderAt(d, rel[..j]).value.readable
        {
          if j >= 1 {
            assert FolderAt(d, rel[..j]) == FolderAt(c.value, rel'[..j - 1]);
          }
        }
        forall j | 0 <= j < |rel| ensures !Hidden(rel[j]) {
          if j >= 1 {
            assert rel[j] == rel'[j - 1];
          }
        }
      }
    }
  }

  /**
    The walk hands a folder to the renamer exactly when the folder is
    eligible: the depth bound, hidden names and unreadable folders are the
    only things that stop it.
   */
  lemma {:induction false} WalkVisited(path: string, d: Dir, cfg: Config, env: Env, depth: nat, rel: seq<string>)
    requires WellFormed(d)
    ensures Visited(Walk(path, d, cfg, env, depth).processed, rel) <==> Eligible(d, rel, cfg, depth)
    decreases |rel|
  {
    if |rel| >= 1 {
      assert rel[..0] == [];
    }
    if !TooDeep(cfg, depth) && d.readable {
      EntriesVisited(path, d.subdirs, cfg, env, depth, rel);
      if |rel| >= 1 {
        var c := ChildIn(d.subdirs, rel[0]);
        if |rel| >= 2 && c.Some? {
          ChildWellFormed(d, rel[0]);
          WalkVisited(JoinPath(path, rel[0]), c.value, cfg, env, depth + 1, rel[1..]);
        }
        EligibleCons(d, rel, cfg, depth);
      }
    }
  }

  /** The renamer call recorded for `p` is the one for the folder `p` names, at the path the walk built. */
  ghost predicate Accounted(path: string, d: Dir, cfg: Config, env: Env, p: Processed) {
    && FolderAt(d, p.rel).Some?
    && p.count == RenameImages(PathOf(path, p.rel), FolderAt(d, p.rel).value,
                               cfg.artists, cfg.defaultArtist, None, env).count
  }

  /** `Accounted` for a folder whose listing is `es`. */
  ghost predicate AccountedIn(path: string, es: seq<Entry>, cfg: Config, env: Env, p: Processed) {
    && |p.rel| >= 1
    && ChildIn(es, p.rel[0]).Some?
    && Accounted(JoinPath(path, p.rel[0]), ChildIn(es, p.rel[0]).value, cfg, env, Processed(p.rel[1..], p.count))
  }

  lemma {:induction false} WalkAccounted(path: string, d: Dir, cfg: Config, env: Env, depth: nat)
    requires WellFormed(d)
    ensures forall p :: p in Walk(path, d, cfg, env, depth).processed ==> Accounted(path, d, cfg, env, p)
    decreases d, 1
  {
    if !TooDeep(cfg, depth) && d.readable {
      EntriesAccounted(path, d.subdirs, cfg, env, depth);
      forall p | p in Walk(path, d, cfg, env, depth).processed ensures Accounted(path, d, cfg, env, p) {
        AccountedFromListing(path, d, cfg, env, p);
      }
    }
  }

  lemma AccountedFromListing(path: string, d: Dir, cfg: Config, env: Env, p: Processed)
    requires AccountedIn(path, d.subdirs, cfg, env, p)
    ensures Accounted(path, d, cfg, env, p)
  {
    assert FolderAt(d, p.rel) == FolderAt(ChildIn(d.subdirs, p.rel[0]).value, p.rel[1..]);
    assert PathOf(path, p.rel) == PathOf(JoinPath(path, p.rel[0]), p.rel[1..]);
  }

  lemma DistinctTail(es: seq<Entry>)
    requires es != [] && DistinctNames(es)
    ensures DistinctNames(es[1..])
  {
    forall i, j | 0 <= i < j < |es[1..]| ensures es[1..][i].name != es[1..][j].name {
      assert es[1..][i] == es[i + 1] && es[1..][j] == es[j + 1];
    }
  }

  /** The first entry's name is not listed again further on. */
  lemma HeadNameFresh(es: seq<Entry>)
    requires es != [] && DistinctNames(es)
    ensures DistinctNames(es[1..]) && ChildIn(es[1..], es[0].name).None?
  {
    DistinctTail(es);
    forall k | 0 <= k < |es[1..]| ensures es[1..][k].name != es[0].name {
      assert es[1..][k] == es[k + 1];
    }
  }

  /** A later entry's call stays accounted for once the first entry is listed in front of it. */
  lemma AccountedInTail(path: string, es: seq<Entry>, cfg: Config, env: Env, p: Processed)
    requires es != [] && DistinctNames(es)
    requires AccountedIn(path, es[1..], cfg, env, p)
    ensures AccountedIn(path, es, cfg, env, p)
  {
    var n := p.rel[0];
    var k :| 0 <= k < |es[1..]| && es[1..][k].name == n && es[1..][k].dir == ChildIn(es[1..], n).value;
    assert es[k + 1].name == n;
    assert ChildIn(es, n) == ChildIn(es[1..], n);
  }

  lemma AccountedInTails(path: string, es: seq<Entry>, cfg: Config, env: Env, ps: seq<Processed>)
    requires es != [] && DistinctNames(es)
    requires forall p :: p in ps ==> AccountedIn(path, es[1..], cfg, env, p)
    ensures forall p :: p in ps ==> AccountedIn(path, es, cfg, env, p)
  {
    forall p | p in ps ensures AccountedIn(path, es, cfg, env, p) {
      AccountedInTail(path, es, cfg, env, p);
    }
  }

  /** The call for the first entry itself. */
  lemma AccountedInHead(path: string, es: seq<Entry>, cfg: Config, env: Env, count: nat)
    requires es != []
    requires count == RenameImages(JoinPath(path, es[0].name), es[0].dir, cfg.artists, cfg.defaultArtist, None, env).count
    ensures AccountedIn(path, es, cfg, env, Processed([es[0].name], count))
  {
    assert [es[0].name][1..] == [];
  }

  /** A call made below the first entry, seen from the listing. */
  lemma AccountedInUnder(path: string, es: seq<Entry>, cfg: Config, env: Env, q: Processed)
    requires es != []
    requires Accounted(JoinPath(path, es[0].name), es[0].dir, cfg, env, q)
    ensures AccountedIn(path, es, cfg, env, Processed([es[0].name] + q.rel, q.count))
  {
    assert ([es[0].name] + q.rel)[1..] == q.rel;
  }

  lemma AccountedInUnders(path: string, es: seq<Entry>, cfg: Config, env: Env, qs: seq<Processed>)
    requires es != []
    requires forall q :: q in qs ==> Accounted(JoinPath(path, es[0].name), es[0].dir, cfg, env, q)
    ensures forall p :: p in Under(es[0].name, qs) ==> AccountedIn(path, es, cfg, env, p)
  {
    var u := Under(es[0].name, qs);
    forall k | 0 <= k < |u| ensures AccountedIn(path, es, cfg, env, u[k]) {
      assert qs[k] in qs;
      AccountedInUnder(path, es, cfg, env, qs[k]);
    }
  }

  /** The walk of the listing, one entry taken off the front. */
  lemma WalkEntriesCons(path: string, es: seq<Entry>, cfg: Config, env: Env, depth: nat)
    requires es != []
    ensures var e := es[0];
      var rest := WalkEntries(path, es[1..], cfg, env, depth).processed;
      var child := JoinPath(path, e.name);
      WalkEntries(path, es, cfg, env, depth).processed ==
        if Hidden(e.name) then rest
        else [Processed([e.name], RenameImages(child, e.dir, cfg.artists, cfg.defaultArtist, None, env).count)] +
             Under(e.name, Walk(child, e.dir, cfg, env, depth + 1).processed) + rest
  {
  }

  lemma AccountedJoin(path: string, es: seq<Entry>, cfg: Config, env: Env, a: seq<Processed>, b: seq<Processed>, c: seq<Processed>)
    requires forall p :: p in a ==> AccountedIn(path, es, cfg, env, p)
    requires forall p :: p in b ==> AccountedIn(path, es, cfg, env, p)
    requires forall p :: p in c ==> AccountedIn(path, es, cfg, env, p)
    ensures forall p :: p in a + b + c ==> AccountedIn(path, es, cfg, env, p)
  {
  }

  lemma {:induction false} EntriesAccounted(path: string, es: seq<Entry>, cfg: Config, env: Env, depth: nat)
    requires DistinctNames(es)
    requires forall k :: 0 <= k < |es| ==> WellFormed(es[k].dir)
    ensures forall p :: p in WalkEntries(path, es, cfg, env, depth).processed ==> AccountedIn(path, es, cfg, env, p)
    decreases es, 0
  {
    if es != [] {
      var e := es[0];
      var rest := WalkEntries(path, es[1..], cfg, env, depth).processed;
      DistinctTail(es);
      assert forall k :: 0 <= k < |es[1..]| ==> es[1..][k] == es[k + 1];
      EntriesAccounted(path, es[1..], cfg, env, depth);
      AccountedInTails(path, es, cfg, env, rest);
      WalkEntriesCons(path, es, cfg, env, depth);
      if !Hidden(e.name) {
        var child := JoinPath(path, e.name);
        var count := RenameImages(child, e.dir, cfg.artists, cfg.defaultArtist, None, env).count;
        var sub := Walk(child, e.dir, cfg, env, depth + 1).processed;
        WalkAccounted(child, e.dir, cfg, env, depth + 1);
        AccountedInHead(path, es, cfg, env, count);
        AccountedInUnders(path, es, cfg, env, sub);
        AccountedJoin(path, es, cfg, env, [Processed([e.name], count)], Under(e.name, sub), rest);
      }
    }
  }

  /**
    Every recorded call is the renamer run on the folder it names, at the path
    the walk built for it; with `Total`, the walk's result is the sum of what
    those calls renamed.
   */
  lemma ProcessedAccounted(path: string, root: Dir, cfg: Config, env: Env)
    requires WellFormed(root)
    ensures forall p :: p in ProcessDirectoryStructure(path, root, cfg, env).processed ==> Accounted(path, root, cfg, env, p)
  {
    WalkAccounted(path, root, cfg, env, 0);
  }

  /**
    From the root, with depth bound `d`, the folders processed are exactly the
    non-hidden ones at depth 1 to `d + 1` below the root (any depth when there
    is no bound) that the walk can reach through listable folders; the root
    itself is never among them.
   */
  lemma ProcessedExactly(path: string, root: Dir, cfg: Config, env: Env, rel: seq<string>)
    requires WellFormed(root)
    ensures Visited(ProcessDirectoryStructure(path, root, cfg, env).processed, rel) <==> Eligible(root, rel, cfg, 0)
  {
    WalkVisited(path, root, cfg, env, 0, rel);
  }

  /**
    Every folder the walk hands to the renamer lies one to `maxDepth + 1`
    levels below the root and is reached through names that are not hidden:
    with a bound of 0 only the root's own sub-folders are processed.
   */
  lemma ProcessedWithinBound(path: string, root: Dir, cfg: Config, env: Env)
    requires WellFormed(root)
    ensures forall p :: p in ProcessDirectoryStructure(path, root, cfg, env).processed ==>
      && |p.rel| >= 1
      && (cfg.maxDepth.Some? ==> |p.rel| <= cfg.maxDepth.value + 1)
      && forall j :: 0 <= j < |p.rel| ==> !Hidden(p.rel[j])
  {
    var ps := ProcessDirectoryStructure(path, root, cfg, env).processed;
    forall p | p in ps
      ensures |p.rel| >= 1
      ensures cfg.maxDepth.Some? ==> |p.rel| <= cfg.maxDepth.value + 1
      ensures forall j :: 0 <= j < |p.rel| ==> !Hidden(p.rel[j])
    {
      var k :| 0 <= k < |ps| && ps[k] == p;
      assert Visited(ps, p.rel);
      ProcessedExactly(path, root, cfg, env, p.rel);
    }
  }

  predicate DistinctRels(ps: seq<Processed>) {
    forall i, j :: 0 <= i < j < |ps| ==> ps[i].rel != ps[j].rel
  }

  lemma {:induction false} WalkOnce(path: string, d: Dir, cfg: Config, env: Env, depth: nat)
    requires WellFormed(d)
    ensures var ps := Walk(path, d, cfg, env, depth).processed;
      DistinctRels(ps) && forall p :: p in ps ==> |p.rel| >= 1
    decreases d, 1
  {
    if !TooDeep(cfg, depth) && d.readable {
      EntriesOnce(path, d.subdirs, cfg, env, depth);
    }
  }

  lemma {:induction false} EntriesOnce(path: string, es: seq<Entry>, cfg: Config, env: Env, depth: nat)
    requires DistinctNames(es)
    requires forall k :: 0 <= k < |es| ==> WellFormed(es[k].dir)
    ensures var ps := WalkEntries(path, es, cfg, env, depth).processed;
      DistinctRels(ps) && forall p :: p in ps ==> |p.rel| >= 1 && ChildIn(es, p.rel[0]).Some?
    decreases es, 0
  {
    if es != [] {
      var e := es[0];
      var rest := WalkEntries(path, es[1..], cfg, env, depth);
      HeadNameFresh(es);
      assert forall k :: 0 <= k < |es[1..]| ==> es[1..][k] == es[k + 1];
      EntriesOnce(path, es[1..], cfg, env, depth);
      var R := rest.processed;
      forall p | p in R ensures p.rel[0] != e.name && ChildIn(es, p.rel[0]).Some? {
        assert ChildIn(es[1..], p.rel[0]).Some?;
      }
      if !Hidden(e.name) {
        var child := JoinPath(path, e.name);
        var renamed := RenameImages(child, e.dir, cfg.artists, cfg.defaultArtist, None, env);
        var sub := Walk(child, e.dir, cfg, env, depth + 1);
        WalkOnce(child, e.dir, cfg, env, depth + 1);
        UnderOnce(e.name, sub.processed);
        var U := Under(e.name, sub.processed);
        var ps := WalkEntries(path, es, cfg, env, depth).processed;
        assert ps == [Processed([e.name], renamed.count)] + U + R;
        CombineOnce(e.name, Processed([e.name], renamed.count), U, R);
        forall p | p in ps ensures ChildIn(es, p.rel[0]).Some? {
          if p !in R {
            assert p.rel[0] == e.name;
          }
        }
      }
    }
  }

  lemma UnderOnce(name: string, ps: seq<Processed>)
    requires DistinctRels(ps) && forall p :: p in ps ==> |p.rel| >= 1
    ensures DistinctRels(Under(name, ps))
    ensures forall p :: p in Under(name, ps) ==> |p.rel| >= 2 && p.rel[0] == name
  {
    var u := Under(name, ps);
    forall i, j | 0 <= i < j < |u| ensures u[i].rel != u[j].rel {
      assert u[i].rel[1..] == ps[i].rel && u[j].rel[1..] == ps[j].rel;
    }
    forall p | p in u ensures |p.rel| >= 2 && p.rel[0] == name {
      var k :| 0 <= k < |u| && u[k] == p;
      assert ps[k] in ps;
    }
  }

  lemma CombineOnce(name: string, first: Processed, U: seq<Processed>, R: seq<Processed>)
    requires first.rel == [name]
    requires DistinctRels(U) && forall p :: p in U ==> |p.rel| >= 2 && p.rel[0] == name
    requires DistinctRels(R) && forall p :: p in R ==> |p.rel| >= 1 && p.rel[0] != name
    ensures DistinctRels([first] + U + R)
    ensures forall p :: p in [first] + U + R ==> |p.rel| >= 1 && (p in R || p.rel[0] == name)
  {
    var ps := [first] + U + R;
    forall i, j | 0 <= i < j < |ps| ensures ps[i].rel != ps[j].rel {
      if i == 0 && j <= |U| {
        assert ps[j] == U[j - 1] && ps[j] in U;
      } else if i == 0 {
        assert ps[j] == R[j - 1 - |U|] && ps[j] in R;
      } else if j <= |U| {
        assert ps[i] == U[i - 1] && ps[j] == U[j - 1];
      } else if i <= |U| {
        assert ps[i] == U[i - 1] && ps[i] in U;
        assert ps[j] == R[j - 1 - |U|] && ps[j] in R;
      } else {
        assert ps[i] == R[i - 1 - |U|] && ps[j] == R[j - 1 - |U|];
      }
    }
  }

  /** No folder is handed to the renamer twice, so the total counts each folder once. */
  lemma ProcessedOnce(path: string, root: Dir, cfg: Config, env: Env)
    requires WellFormed(root)
    ensures DistinctRels(ProcessDirectoryStructure(path, root, cfg, env).processed)
  {
    WalkOnce(path, root, cfg, env, 0);
  }

  /** A listed sub-folder after the loop over the listing: hidden ones as they were, others renamed and walked. */
  lemma {:induction false} EntriesTree(path: string, es: seq<Entry>, cfg: Config, env: Env, depth: nat, name: string)
    requires DistinctNames(es)
    ensures var after := ChildIn(WalkEntries(path, es, cfg, env, depth).subdirs, name);
      match ChildIn(es, name)
      case None => after.None?
      case Some(c) =>
        if Hidden(name) then after == Some(c)
        else
          var child := JoinPath(path, name);
          after == Some(Dir(c.readable,
                            RenameImages(child, c, cfg.artists, cfg.defaultArtist, None, env).folder.files,
                            Walk(child, c, cfg, env, depth + 1).subdirs))
    decreases |es|
  {
    if es != [] {
      HeadNameFresh(es);
      EntriesTree(path, es[1..], cfg, env, depth, name);
    }
  }

  /** Below the top level, a folder's own files play no part in what `FolderAt` finds. */
  lemma FolderAtIgnoresFiles(readable: bool, f1: set<string>, f2: set<string>, subdirs: seq<Entry>, rel: seq<string>)
    requires |rel| >= 1
    ensures FolderAt(Dir(readable, f1, subdirs), rel) == FolderAt(Dir(readable, f2, subdirs), rel)
  {
  }

  /**
    After the walk every folder is still where it was; an eligible folder
    holds the files the renamer left it, and every other folder holds the
    files it had.
   */
  lemma {:induction false} WalkTree(path: string, d: Dir, cfg: Config, env: Env, depth: nat, rel: seq<string>)
    requires WellFormed(d) && |rel| >= 1 && FolderAt(d, rel).Some?
    ensures var t := Dir(d.readable, d.files, Walk(path, d, cfg, env, depth).subdirs);
      && FolderAt(t, rel).Some?
      && FolderAt(t, rel).value.files ==
           if Eligible(d, rel, cfg, depth)
           then RenameImages(PathOf(path, rel), FolderAt(d, rel).value, cfg.artists, cfg.defaultArtist, None, env).folder.files
           else FolderAt(d, rel).value.files
    decreases |rel|
  {
    var n := rel[0];
    var rel' := rel[1..];
    var t := Dir(d.readable, d.files, Walk(path, d, cfg, env, depth).subdirs);
    if TooDeep(cfg, depth) || !d.readable {
      StoppedNotEligible(d, rel, cfg, depth);
      assert t == d;
    } else {
      assert ChildIn(d.subdirs, n).Some?;
      var c := ChildIn(d.subdirs, n).value;
      assert FolderAt(d, rel) == FolderAt(c, rel');
      WalkChild(path, d, cfg, env, depth, n);
      EligibleCons(d, rel, cfg, depth);
      assert PathOf(path, rel) == PathOf(JoinPath(path, n), rel');
      var after := ChildIn(t.subdirs, n).value;
      assert FolderAt(t, rel) == FolderAt(after, rel');
      if !Hidden(n) && rel' != [] {
        var child := JoinPath(path, n);
        var sub := Walk(child, c, cfg, env, depth + 1);
        ChildWellFormed(d, n);
        WalkTree(child, c, cfg, env, depth + 1, rel');
        FolderAtIgnoresFiles(c.readable, RenameImages(child, c, cfg.artists, cfg.defaultArtist, None, env).folder.files,
                             c.files, sub.subdirs, rel');
      }
    }
  }

  /** A folder the walk does not enter has no eligible folder below it. */
  lemma StoppedNotEligible(d: Dir, rel: seq<string>, cfg: Config, depth: nat)
    requires |rel| >= 1 && (TooDeep(cfg, depth) || !d.readable)
    ensures !Eligible(d, rel, cfg, depth)
  {
    assert rel[..0] == [];
  }

  /** What the walk leaves of one listed sub-folder. */
  lemma WalkChild(path: string, d: Dir, cfg: Config, env: Env, depth: nat, n: string)
    requires WellFormed(d) && d.readable && !TooDeep(cfg, depth) && ChildIn(d.subdirs, n).Some?
    ensures var after := ChildIn(Walk(path, d, cfg, env, depth).subdirs, n);
      var c := ChildIn(d.subdirs, n).value;
      var child := JoinPath(path, n);
      if Hidden(n) then after == Some(c)
      else after == Some(Dir(c.readable, RenameImages(child, c, cfg.artists, cfg.defaultArtist, None, env).folder.files,
                             Walk(child, c, cfg, env, depth + 1).subdirs))
  {
    EntriesTree(path, d.subdirs, cfg, env, depth, n);
  }

  /**
    The tree after the walk: every folder is still there, the eligible ones
    hold the files the renamer left them and every other folder, the root
    included, holds the files it had.
   */
  lemma ProcessedTree(path: string, root: Dir, cfg: Config, env: Env, rel: seq<string>)
    requires WellFormed(root) && FolderAt(root, rel).Some?
    ensures var t := ProcessDirectoryStructure(path, root, cfg, env).tree;
      && FolderAt(t, rel).Some?
      && FolderAt(t, rel).value.files ==
           if Eligible(root, rel, cfg, 0)
           then RenameImages(PathOf(path, rel), FolderAt(root, rel).value, cfg.artists, cfg.defaultArtist, None, env).folder.files
           else FolderAt(root, rel).value.files
  {
    if rel != [] {
      WalkTree(path, root, cfg, env, 0, rel);
    }
  }
}
