/**
  `rename_images_in_folder`: number a folder's images in sorted order and move
  each one that does not yet follow the scheme to its planned name.

  The loop is a fold over the sorted image list that threads the folder's
  current set of file names; the outcome records, per image, what the loop
  body decided, and the number of renames that took effect.
 */
module Rename {
  import opened Maybe
  import opened Paths
  import opened Ordering
  import opened Artist
  import opened Folders
  import opened Naming

  /** What is fixed for one folder: where it is, and whose work under which project. */
  datatype Job = Job(path: string, artist: string, project: string)

  /**
    The loop body's decision for one image: left alone because it already
    follows the scheme, or renamed to `target`, which carries the identifier
    when the planned name was `collided`, and `ok` when the rename took effect.
   */
  datatype Action = Skipped | Renamed(target: string, collided: bool, ok: bool)

  datatype Step = Step(name: string, index: nat, action: Action)

  datatype Outcome = Outcome(files: set<string>, count: nat, steps: seq<Step>)

  predicate Succeeds(s: Step) {
    s.action.Renamed? && s.action.ok
  }

  /** How many of the steps renamed a file. */
  function Succeeded(steps: seq<Step>): nat
    decreases |steps|
  {
    if steps == [] then 0 else (if Succeeds(steps[0]) then 1 else 0) + Succeeded(steps[1..])
  }

  /** The names the successful steps moved away from. */
  function MovedFrom(steps: seq<Step>): set<string> {
    set k | 0 <= k < |steps| && Succeeds(steps[k]) :: steps[k].name
  }

  /** The names the successful steps moved to. */
  function MovedTo(steps: seq<Step>): set<string> {
    set k | 0 <= k < |steps| && Succeeds(steps[k]) :: steps[k].action.target
  }

  /**
    One pass of the loop body for the image `name` at position `i`, against
    the names the folder holds at that moment.
   */
  function Attempt(job: Job, dirs: set<string>, env: Env, name: string, i: nat, files: set<string>): (s: Step)
    ensures s.name == name && s.index == i
    ensures s.action == Skipped <==> AlreadyNamed(name, job.artist, job.project)
  {
    if AlreadyNamed(name, job.artist, job.project) then Step(name, i, Skipped)
    else
      var ext := Ext(name);
      var candidate := Candidate(job.artist, job.project, i, ext);
      var collided := candidate in files || candidate in dirs;
      var target :=
        if collided then Suffixed(job.artist, job.project, i, env.freshId(job.path, name), ext)
        else candidate;
      // A file cannot be renamed onto a directory; otherwise the system decides.
      var ok := target !in dirs && env.renameOk(job.path, name, target);
      Step(name, i, Renamed(target, collided, ok))
  }

  /**
    `os.rename` on the set of names: after a rename that took effect the new
    name is there (replacing any file of that name), the old one is gone
    unless it was the new one, and every other name is as before; a step that
    did not rename changes nothing.
   */
  function Apply(files: set<string>, s: Step): (r: set<string>)
    ensures !Succeeds(s) ==> r == files
    ensures Succeeds(s) ==> s.action.target in r && (s.name != s.action.target ==> s.name !in r)
    ensures Succeeds(s) ==> r - {s.name, s.action.target} == files - {s.name, s.action.target}
  {
    if Succeeds(s) then files - {s.name} + {s.action.target} else files
  }

  /** `for i, old_filename in enumerate(images, start=i)`, threading the folder's names. */
  function Loop(job: Job, dirs: set<string>, env: Env, images: seq<string>, i: nat, files: set<string>): (r: Outcome)
    ensures |r.steps| == |images|
    ensures r.count == Succeeded(r.steps) <= |images|
    decreases |images|
  {
    if images == [] then Outcome(files, 0, [])
    else
      var s := Attempt(job, dirs, env, images[0], i, files);
      var rest := Loop(job, dirs, env, images[1..], i + 1, Apply(files, s));
      Outcome(rest.files, (if Succeeds(s) then 1 else 0) + rest.count, [s] + rest.steps)
  }

  /**
    What the loop body decides for the image `name` at position `i` when its
    existence test looks at the folder as it was listed (`files0`) rather
    than as the loop has changed it.
   */
  predicate Planned(job: Job, dirs: set<string>, files0: set<string>, env: Env, name: string, i: nat, s: Step) {
    s == Attempt(job, dirs, env, name, i, files0)
  }

  /** The current names and the listed ones agree on every conforming name numbered `i` or more. */
  ghost predicate Agrees(job: Job, files: set<string>, files0: set<string>, i: nat) {
    forall n :: NumberIn(n, job.artist, job.project).Some? && NumberIn(n, job.artist, job.project).value >= i ==>
      (n in files <==> n in files0)
  }

  /** A renamed image did not follow the scheme; its new name does, numbered by its position. */
  lemma AttemptShape(job: Job, dirs: set<string>, env: Env, name: string, i: nat, files: set<string>)
    ensures var s := Attempt(job, dirs, env, name, i, files);
      s.action.Renamed? ==>
        !AlreadyNamed(name, job.artist, job.project) &&
        NumberIn(s.action.target, job.artist, job.project) == Some(i)
  {
    var s := Attempt(job, dirs, env, name, i, files);
    if s.action.Renamed? {
      var ext := Ext(name);
      CandidateNumber(job.artist, job.project, i, ext);
      SuffixedNumber(job.artist, job.project, i, env.freshId(job.path, name), ext);
    }
  }

  lemma MovedCons(s: Step, rest: seq<Step>)
    ensures MovedFrom([s] + rest) == (if Succeeds(s) then {s.name} else {}) + MovedFrom(rest)
    ensures MovedTo([s] + rest) == (if Succeeds(s) then {s.action.target} else {}) + MovedTo(rest)
  {
    var steps := [s] + rest;
    assert steps[0] == s;
    forall n | n in MovedFrom(rest) ensures n in MovedFrom(steps) {
      var k :| 0 <= k < |rest| && Succeeds(rest[k]) && rest[k].name == n;
      assert steps[k + 1] == rest[k];
    }
    forall n | n in MovedTo(rest) ensures n in MovedTo(steps) {
      var k :| 0 <= k < |rest| && Succeeds(rest[k]) && rest[k].action.target == n;
      assert steps[k + 1] == rest[k];
    }
    forall n | n in MovedFrom(steps) ensures n in (if Succeeds(s) then {s.name} else {}) + MovedFrom(rest) {
      var k :| 0 <= k < |steps| && Succeeds(steps[k]) && steps[k].name == n;
      if k > 0 {
        assert rest[k - 1] == steps[k];
      }
    }
    forall n | n in MovedTo(steps) ensures n in (if Succeeds(s) then {s.action.target} else {}) + MovedTo(rest) {
      var k :| 0 <= k < |steps| && Succeeds(steps[k]) && steps[k].action.target == n;
      if k > 0 {
        assert rest[k - 1] == steps[k];
      }
    }
  }

  /** Against names that agree with the listing, the loop body does what the plan says. */
  lemma AttemptPlanned(job: Job, dirs: set<string>, env: Env, name: string, i: nat,
                       files: set<string>, files0: set<string>)
    requires Agrees(job, files, files0, i)
    ensures Planned(job, dirs, files0, env, name, i, Attempt(job, dirs, env, name, i, files))
  {
    if !AlreadyNamed(name, job.artist, job.project) {
      CandidateNumber(job.artist, job.project, i, Ext(name));
    }
  }

  /** After the step at position `i` the names still agree from `i + 1` on. */
  lemma AgreesAfter(job: Job, dirs: set<string>, env: Env, name: string, i: nat,
                    files: set<string>, files0: set<string>)
    requires Agrees(job, files, files0, i)
    ensures Agrees(job, Apply(files, Attempt(job, dirs, env, name, i, files)), files0, i + 1)
  {
    AttemptShape(job, dirs, env, name, i, files);
  }

  /** `f` applied to each element together with its position, counting from `i`. */
  function Numbered<T>(f: (string, nat) -> T, xs: seq<string>, i: nat): (r: seq<T>)
    ensures |r| == |xs|
    decreases |xs|
  {
    if xs == [] then [] else [f(xs[0], i)] + Numbered(f, xs[1..], i + 1)
  }

  /** The `k`-th entry is `f` at the `k`-th element and its position. */
  lemma {:induction false} NumberedAt<T>(f: (string, nat) -> T, xs: seq<string>, i: nat, k: nat)
    requires k < |xs|
    ensures Numbered(f, xs, i)[k] == f(xs[k], i + k)
    decreases k
  {
    if k > 0 {
      NumberedAt(f, xs[1..], i + 1, k - 1);
      assert xs[1..][k - 1] == xs[k];
    }
  }

  /**
    The steps the loop would take if every existence test looked at the
    folder as listed: the loop body applied to each image at its position.
   */
  function PlanSteps(job: Job, dirs: set<string>, env: Env, images: seq<string>, i: nat, files0: set<string>): (r: seq<Step>)
    ensures |r| == |images|
  {
    Numbered(Planner(job, dirs, env, files0), images, i)
  }

  /** The loop body with its existence test fixed to the listing, as a function of the image and its position. */
  function Planner(job: Job, dirs: set<string>, env: Env, files0: set<string>): (string, nat) -> Step {
    (name: string, n: nat) => Attempt(job, dirs, env, name, n, files0)
  }

  /** The plan is the first image's step followed by the plan for the rest. */
  lemma PlanStepsCons(job: Job, dirs: set<string>, env: Env, images: seq<string>, i: nat, files0: set<string>)
    requires images != []
    ensures PlanSteps(job, dirs, env, images, i, files0) ==
      [Attempt(job, dirs, env, images[0], i, files0)] + PlanSteps(job, dirs, env, images[1..], i + 1, files0)
  {
  }

  /** The `k`-th planned step is the plan for the `k`-th image. */
  lemma PlanStepsAt(job: Job, dirs: set<string>, env: Env, images: seq<string>, i: nat,
                    files0: set<string>, k: nat)
    requires k < |images|
    ensures Planned(job, dirs, files0, env, images[k], i + k, PlanSteps(job, dirs, env, images, i, files0)[k])
  {
    NumberedAt(Planner(job, dirs, env, files0), images, i, k);
    PlannerApplies(job, dirs, env, files0, images[k], i + k);
  }

  lemma PlannerApplies(job: Job, dirs: set<string>, env: Env, files0: set<string>, name: string, n: nat)
    ensures Planner(job, dirs, env, files0)(name, n) == Attempt(job, dirs, env, name, n, files0)
  {
  }

  /**
    The live existence test sees exactly what the listing saw: names the loop
    has produced so far carry smaller numbers and names it has moved away do
    not follow the scheme, so neither can be a later planned name.
   */
  lemma {:induction false} LoopFollowsPlan(job: Job, dirs: set<string>, env: Env, images: seq<string>, i: nat,
                                           files: set<string>, files0: set<string>)
    requires Agrees(job, files, files0, i)
    ensures Loop(job, dirs, env, images, i, files).steps == PlanSteps(job, dirs, env, images, i, files0)
    decreases |images|
  {
    if images != [] {
      var name := images[0];
      var s := Attempt(job, dirs, env, name, i, files);
      var files' := Apply(files, s);
      AttemptPlanned(job, dirs, env, name, i, files, files0);
      AgreesAfter(job, dirs, env, name, i, files, files0);
      LoopFollowsPlan(job, dirs, env, images[1..], i + 1, files', files0);
      LoopCons(job, dirs, env, images, i, files);
      PlanStepsCons(job, dirs, env, images, i, files0);
    }
  }

  /** The loop is the first image's step followed by the loop over the rest. */
  lemma LoopCons(job: Job, dirs: set<string>, env: Env, images: seq<string>, i: nat, files: set<string>)
    requires images != []
    ensures var s := Attempt(job, dirs, env, images[0], i, files);
      var rest := Loop(job, dirs, env, images[1..], i + 1, Apply(files, s));
      Loop(job, dirs, env, images, i, files) ==
        Outcome(rest.files, (if Succeeds(s) then 1 else 0) + rest.count, [s] + rest.steps)
  {
  }

  /**
    The names left at the end: those the loop started with, less the names it
    moved away from, plus the names it moved to. Moved-from names never follow
    the scheme and moved-to names always do.
   */
  lemma {:induction false} LoopFiles(job: Job, dirs: set<string>, env: Env, images: seq<string>, i: nat, files: set<string>)
    ensures var r := Loop(job, dirs, env, images, i, files);
      && r.files == (files - MovedFrom(r.steps)) + MovedTo(r.steps)
      && (forall n :: n in MovedFrom(r.steps) ==> !AlreadyNamed(n, job.artist, job.project))
      && (forall n :: n in MovedTo(r.steps) ==> AlreadyNamed(n, job.artist, job.project))
    decreases |images|
  {
    if images != [] {
      var s := Attempt(job, dirs, env, images[0], i, files);
      AttemptShape(job, dirs, env, images[0], i, files);
      LoopFiles(job, dirs, env, images[1..], i + 1, Apply(files, s));
      var rest := Loop(job, dirs, env, images[1..], i + 1, Apply(files, s));
      LoopCons(job, dirs, env, images, i, files);
      MovedCons(s, rest.steps);
      if Succeeds(s) {
        assert AlreadyNamed(s.action.target, job.artist, job.project);
        assert s.action.target !in MovedFrom(rest.steps);
      }
      FilesCons(files, s, rest.steps, rest.files);
    }
  }

  /** Moving the first file and then the rest is moving them all, when the rest never moves the first one's new name away. */
  lemma FilesCons(files: set<string>, s: Step, rest: seq<Step>, final: set<string>)
    requires final == (Apply(files, s) - MovedFrom(rest)) + MovedTo(rest)
    requires Succeeds(s) ==> s.action.target !in MovedFrom(rest)
    ensures final == (files - MovedFrom([s] + rest)) + MovedTo([s] + rest)
  {
    MovedCons(s, rest);
  }

  /** Every step, in order, is about the image at that position. */
  lemma {:induction false} LoopNames(job: Job, dirs: set<string>, env: Env, images: seq<string>, i: nat, files: set<string>)
    ensures var r := Loop(job, dirs, env, images, i, files);
      forall k :: 0 <= k < |images| ==> r.steps[k].name == images[k]
    decreases |images|
  {
    if images != [] {
      var s := Attempt(job, dirs, env, images[0], i, files);
      LoopNames(job, dirs, env, images[1..], i + 1, Apply(files, s));
      LoopCons(job, dirs, env, images, i, files);
      forall k | 1 <= k < |images| ensures Loop(job, dirs, env, images, i, files).steps[k].name == images[k] {
        assert images[k] == images[1..][k - 1];
      }
    }
  }

  /** When every image already follows the scheme the loop changes nothing. */
  lemma {:induction false} LoopAllSkipped(job: Job, dirs: set<string>, env: Env, images: seq<string>, i: nat, files: set<string>)
    requires forall k :: 0 <= k < |images| ==> AlreadyNamed(images[k], job.artist, job.project)
    ensures var r := Loop(job, dirs, env, images, i, files);
      r.files == files && r.count == 0 && forall k :: 0 <= k < |r.steps| ==> r.steps[k].action == Skipped
    decreases |images|
  {
    if images != [] {
      var s := Attempt(job, dirs, env, images[0], i, files);
      assert s.action == Skipped;
      forall k | 0 <= k < |images[1..]| ensures AlreadyNamed(images[1..][k], job.artist, job.project) {
        assert images[1..][k] == images[k + 1];
      }
      LoopAllSkipped(job, dirs, env, images[1..], i + 1, files);
      LoopCons(job, dirs, env, images, i, files);
      var r := Loop(job, dirs, env, images, i, files);
      var rest := Loop(job, dirs, env, images[1..], i + 1, files);
      forall k | 1 <= k < |r.steps| ensures r.steps[k].action == Skipped {
        assert r.steps[k] == rest.steps[k - 1];
      }
    }
  }

  /** A renamed step's new name carries the step's position as its number. */
  lemma PlannedNumber(job: Job, dirs: set<string>, files0: set<string>, env: Env, name: string, i: nat, s: Step)
    requires Planned(job, dirs, files0, env, name, i, s)
    requires s.action.Renamed?
    ensures NumberIn(s.action.target, job.artist, job.project) == Some(i)
  {
    var ext := Ext(name);
    CandidateNumber(job.artist, job.project, i, ext);
    SuffixedNumber(job.artist, job.project, i, env.freshId(job.path, name), ext);
  }

  /** `image_files`, sorted: the folder's image files in ascending order. */
  function ImagesOf(d: Dir): (r: seq<string>)
    ensures Ascending(r)
    ensures forall f :: f in r <==> f in d.files && IsImage(f)
  {
    SortedNames(set f | f in d.files && IsImage(f))
  }

  /**
    The artist and project a folder is processed under: the resolved artist
    and the given project name, or the folder's own name; nothing when no
    artist can be resolved.
   */
  function JobFor(path: string, artists: seq<string>, default: Option<string>, project: Option<string>): (r: Option<Job>)
    ensures r.Some? <==> ResolveArtist(path, artists, default).Some?
    ensures r.Some? ==> r.value.path == path && r.value.artist == ResolveArtist(path, artists, default).value
    ensures r.Some? && project.Some? ==> r.value.project == project.value
    ensures r.Some? && project.None? ==> r.value.project == Basename(path)
  {
    match ResolveArtist(path, artists, default)
    case None => None
    case Some(artist) => Some(Job(path, artist, project.GetOr(Basename(path))))
  }

  /**
    A detected artist and a project taken from the folder's base name never
    contain the separator, so a job's names can hold one only when the
    default artist or the given project name does.
   */
  lemma JobForSeparatorFree(path: string, artists: seq<string>, default: Option<string>, project: Option<string>)
    requires default.None? || Sep !in default.value
    requires project.None? || Sep !in project.value
    ensures var r := JobFor(path, artists, default, project);
      r.Some? ==> Sep !in r.value.artist && Sep !in r.value.project
  {
    var detected := DetectArtist(path, artists);
    if detected.Some? {
      var k :| 0 <= k < |Split(path)| && Split(path)[k] == detected.value;
    }
  }

  datatype FolderRun = FolderRun(folder: Dir, count: nat, steps: seq<Step>)

  /**
    `rename_images_in_folder(path, artists, default, project)` applied to the
    folder `d` found at `path`: the folder afterwards, the number of files
    renamed, and the per-image decisions.
   */
  function RenameImages(path: string, d: Dir, artists: seq<string>, default: Option<string>,
                        project: Option<string>, env: Env): (r: FolderRun)
    ensures r.folder.readable == d.readable && r.folder.subdirs == d.subdirs
    ensures JobFor(path, artists, default, project).None? || !d.readable ==>
      r.folder == d && r.count == 0 && r.steps == []
    ensures r.count == Succeeded(r.steps) <= |ImagesOf(d)|
  {
    match JobFor(path, artists, default, project)
    case None => FolderRun(d, 0, [])
    case Some(job) =>
      if !d.readable then FolderRun(d, 0, [])
      else
        var o := Loop(job, SubdirNames(d), env, ImagesOf(d), 1, d.files);
        FolderRun(d.(files := o.files), o.count, o.steps)
  }

  /**
    The images are taken in ascending order and numbered by position from 1,
    skipped ones included; each is skipped exactly when it already follows
    the scheme, and otherwise moved to its planned name, or to the variant
    with the drawn identifier when the planned name was listed in the folder.
   */
  lemma RenameFollowsPlan(path: string, d: Dir, artists: seq<string>, default: Option<string>,
                          project: Option<string>, env: Env)
    requires JobFor(path, artists, default, project).Some? && d.readable
    ensures RenameImages(path, d, artists, default, project, env).steps ==
      PlanSteps(JobFor(path, artists, default, project).value, SubdirNames(d), env, ImagesOf(d), 1, d.files)
  {
    var job := JobFor(path, artists, default, project).value;
    var o := Loop(job, SubdirNames(d), env, ImagesOf(d), 1, d.files);
    assert RenameImages(path, d, artists, default, project, env).steps == o.steps;
    assert Agrees(job, d.files, d.files, 1);
    LoopFollowsPlan(job, SubdirNames(d), env, ImagesOf(d), 1, d.files, d.files);
  }

  /** The loop only moves names from its image list. */
  lemma LoopMovesImages(job: Job, dirs: set<string>, env: Env, images: seq<string>, i: nat, files: set<string>)
    ensures forall f :: f in MovedFrom(Loop(job, dirs, env, images, i, files).steps) ==> f in images
  {
    var steps := Loop(job, dirs, env, images, i, files).steps;
    LoopNames(job, dirs, env, images, i, files);
    forall f | f in MovedFrom(steps) ensures f in images {
      var k :| 0 <= k < |steps| && Succeeds(steps[k]) && steps[k].name == f;
      assert images[k] == f;
    }
  }

  /** The names a folder run moves away from are image files of the folder. */
  lemma MovedFromImages(path: string, d: Dir, artists: seq<string>, default: Option<string>,
                        project: Option<string>, env: Env)
    ensures forall f :: f in MovedFrom(RenameImages(path, d, artists, default, project, env).steps) ==>
      f in d.files && IsImage(f)
  {
    var r := RenameImages(path, d, artists, default, project, env);
    if JobFor(path, artists, default, project).Some? && d.readable {
      var job := JobFor(path, artists, default, project).value;
      var images := ImagesOf(d);
      assert r.steps == Loop(job, SubdirNames(d), env, images, 1, d.files).steps;
      LoopMovesImages(job, SubdirNames(d), env, images, 1, d.files);
    }
  }

  /** A folder run's names afterwards, from the moves it made. */
  lemma RunFiles(path: string, d: Dir, artists: seq<string>, default: Option<string>,
                 project: Option<string>, env: Env)
    ensures var r := RenameImages(path, d, artists, default, project, env);
      && r.folder.files == (d.files - MovedFrom(r.steps)) + MovedTo(r.steps)
      && forall f :: f in MovedTo(r.steps) ==>
           var job := JobFor(path, artists, default, project).value;
           AlreadyNamed(f, job.artist, job.project)
  {
    var r := RenameImages(path, d, artists, default, project, env);
    if JobFor(path, artists, default, project).Some? && d.readable {
      var job := JobFor(path, artists, default, project).value;
      LoopFiles(job, SubdirNames(d), env, ImagesOf(d), 1, d.files);
    } else {
      assert MovedFrom(r.steps) == {} && MovedTo(r.steps) == {};
    }
  }

  /**
    Only images move: every other file keeps its name, the names that
    disappear are images that were renamed, and the names that appear follow
    the scheme.
   */
  lemma RenameTouchesOnlyImages(path: string, d: Dir, artists: seq<string>, default: Option<string>,
                                project: Option<string>, env: Env)
    ensures var r := RenameImages(path, d, artists, default, project, env);
      && (forall f :: f in d.files && !IsImage(f) ==> f in r.folder.files)
      && (forall f :: f in d.files && f !in r.folder.files ==> IsImage(f) && f in MovedFrom(r.steps))
      && (forall f :: f in r.folder.files && f !in d.files ==>
            var job := JobFor(path, artists, default, project).value;
            AlreadyNamed(f, job.artist, job.project))
  {
    MovedFromImages(path, d, artists, default, project, env);
    RunFiles(path, d, artists, default, project, env);
  }

  /** One step of a folder run, against the plan. */
  lemma StepPlanned(path: string, d: Dir, artists: seq<string>, default: Option<string>,
                    project: Option<string>, env: Env, k: nat)
    requires k < |RenameImages(path, d, artists, default, project, env).steps|
    ensures JobFor(path, artists, default, project).Some? && k < |ImagesOf(d)|
    ensures Planned(JobFor(path, artists, default, project).value, SubdirNames(d), d.files, env,
                    ImagesOf(d)[k], k + 1, RenameImages(path, d, artists, default, project, env).steps[k])
  {
    RenameFollowsPlan(path, d, artists, default, project, env);
    PlanStepsAt(JobFor(path, artists, default, project).value, SubdirNames(d), env, ImagesOf(d), 1, d.files, k);
  }

  /** The new name a folder run gives its `k`-th image carries the number `k + 1`. */
  lemma StepNumber(path: string, d: Dir, artists: seq<string>, default: Option<string>,
                   project: Option<string>, env: Env, k: nat)
    requires k < |RenameImages(path, d, artists, default, project, env).steps|
    ensures var s := RenameImages(path, d, artists, default, project, env).steps[k];
      var job := JobFor(path, artists, default, project).value;
      s.action.Renamed? ==> NumberIn(s.action.target, job.artist, job.project) == Some(k + 1)
  {
    var s := RenameImages(path, d, artists, default, project, env).steps[k];
    StepPlanned(path, d, artists, default, project, env, k);
    if s.action.Renamed? {
      PlannedNumber(JobFor(path, artists, default, project).value, SubdirNames(d), d.files, env, ImagesOf(d)[k], k + 1, s);
    }
  }

  /** No two images of one folder are given the same new name. */
  lemma RenamedNamesDistinct(path: string, d: Dir, artists: seq<string>, default: Option<string>,
                             project: Option<string>, env: Env, j: nat, k: nat)
    requires var r := RenameImages(path, d, artists, default, project, env);
      j < k < |r.steps| && r.steps[j].action.Renamed? && r.steps[k].action.Renamed?
    ensures var r := RenameImages(path, d, artists, default, project, env);
      r.steps[j].action.target != r.steps[k].action.target
  {
    StepNumber(path, d, artists, default, project, env, j);
    StepNumber(path, d, artists, default, project, env, k);
  }

  lemma PlannedCollision(job: Job, dirs: set<string>, files0: set<string>, env: Env, name: string, i: nat, s: Step)
    requires Planned(job, dirs, files0, env, name, i, s) && s.action.Renamed?
    ensures var planned := Candidate(job.artist, job.project, i, Ext(name));
      && (s.action.collided <==> planned in files0 || planned in dirs)
      && (!s.action.collided ==> s.action.target == planned)
      && (s.action.collided ==>
            s.action.target == Suffixed(job.artist, job.project, i, env.freshId(job.path, name), Ext(name)))
      && (s.action.collided ==> s.action.target != planned)
      && (Ext(name) != [] ==> Ext(s.action.target) == Ext(name))
  {
    var ext := Ext(name);
    SuffixedDiffers(job.artist, job.project, i, env.freshId(job.path, name), ext);
    if ext != [] {
      PlannedNamesKeepExt(job.artist, job.project, i, env.freshId(job.path, name), ext);
    }
  }

  /**
    The identifier is added exactly when the planned name was already taken
    in the folder's listing, by a file or a sub-folder; the name used then
    differs from the planned one, and either way the image keeps its
    extension.
   */
  lemma CollisionAvoided(path: string, d: Dir, artists: seq<string>, default: Option<string>,
                         project: Option<string>, env: Env, k: nat)
    requires var r := RenameImages(path, d, artists, default, project, env);
      k < |r.steps| && r.steps[k].action.Renamed?
    ensures var r := RenameImages(path, d, artists, default, project, env);
      var job := JobFor(path, artists, default, project).value;
      var name := r.steps[k].name;
      var planned := Candidate(job.artist, job.project, k + 1, Ext(name));
      && (r.steps[k].action.collided <==> planned in d.files || planned in SubdirNames(d))
      && (!r.steps[k].action.collided ==> r.steps[k].action.target == planned)
      && (r.steps[k].action.collided ==>
            r.steps[k].action.target == Suffixed(job.artist, job.project, k + 1, env.freshId(path, name), Ext(name)))
      && (r.steps[k].action.collided ==> r.steps[k].action.target != planned)
      && (Ext(name) != [] ==> Ext(r.steps[k].action.target) == Ext(name))
  {
    var r := RenameImages(path, d, artists, default, project, env);
    var job := JobFor(path, artists, default, project).value;
    var images := ImagesOf(d);
    StepPlanned(path, d, artists, default, project, env, k);
    assert r.steps[k].name == images[k];
    PlannedCollision(job, SubdirNames(d), d.files, env, images[k], k + 1, r.steps[k]);
  }

  /** After a run, an image that does not follow the scheme is one whose rename failed. */
  lemma ImagesAfterRun(path: string, d: Dir, artists: seq<string>, default: Option<string>,
                       project: Option<string>, env: Env, f: string)
    requires JobFor(path, artists, default, project).Some? && d.readable
    requires var r := RenameImages(path, d, artists, default, project, env);
      var job := JobFor(path, artists, default, project).value;
      f in r.folder.files && IsImage(f) && !AlreadyNamed(f, job.artist, job.project)
    ensures var r := RenameImages(path, d, artists, default, project, env);
      exists j :: 0 <= j < |r.steps| && r.steps[j].name == f && r.steps[j].action.Renamed? && !r.steps[j].action.ok
  {
    var r := RenameImages(path, d, artists, default, project, env);
    var job := JobFor(path, artists, default, project).value;
    var images := ImagesOf(d);
    LoopFiles(job, SubdirNames(d), env, images, 1, d.files);
    assert f in d.files && f !in MovedFrom(r.steps);
    var j :| 0 <= j < |images| && images[j] == f;
    StepPlanned(path, d, artists, default, project, env, j);
    assert r.steps[j].name == f && r.steps[j].action.Renamed?;
    assert Succeeds(r.steps[j]) ==> f in MovedFrom(r.steps);
  }

  /**
    Running again on the result only retries the images whose rename failed
    the first time: every file the second run tries to rename is one of them.
   */
  lemma RerunRetriesOnlyFailures(path: string, d: Dir, artists: seq<string>, default: Option<string>,
                                 project: Option<string>, env: Env, env2: Env)
    ensures var r := RenameImages(path, d, artists, default, project, env);
      var r2 := RenameImages(path, r.folder, artists, default, project, env2);
      forall k :: 0 <= k < |r2.steps| && r2.steps[k].action.Renamed? ==>
        exists j :: 0 <= j < |r.steps| && r.steps[j].name == r2.steps[k].name &&
          r.steps[j].action.Renamed? && !r.steps[j].action.ok
  {
    var r := RenameImages(path, d, artists, default, project, env);
    var r2 := RenameImages(path, r.folder, artists, default, project, env2);
    if JobFor(path, artists, default, project).Some? && d.readable {
      var job := JobFor(path, artists, default, project).value;
      var images2 := ImagesOf(r.folder);
      forall k | 0 <= k < |r2.steps| && r2.steps[k].action.Renamed?
        ensures (exists j :: 0 <= j < |r.steps| && r.steps[j].name == r2.steps[k].name &&
                   r.steps[j].action.Renamed? && !r.steps[j].action.ok)
      {
        StepPlanned(path, r.folder, artists, default, project, env2, k);
        assert r2.steps[k].name == images2[k];
        ImagesAfterRun(path, d, artists, default, project, env, images2[k]);
      }
    }
  }

  /**
    When every rename of a run takes effect, running again on the result
    renames nothing and leaves the folder as it is.
   */
  lemma RerunRenamesNothing(path: string, d: Dir, artists: seq<string>, default: Option<string>,
                            project: Option<string>, env: Env, env2: Env)
    requires var r := RenameImages(path, d, artists, default, project, env);
      forall j :: 0 <= j < |r.steps| && r.steps[j].action.Renamed? ==> r.steps[j].action.ok
    ensures var r := RenameImages(path, d, artists, default, project, env);
      var r2 := RenameImages(path, r.folder, artists, default, project, env2);
      r2.count == 0 && r2.folder == r.folder
  {
    var r := RenameImages(path, d, artists, default, project, env);
    if JobFor(path, artists, default, project).Some? && d.readable {
      var job := JobFor(path, artists, default, project).value;
      var images2 := ImagesOf(r.folder);
      forall k | 0 <= k < |images2| ensures AlreadyNamed(images2[k], job.artist, job.project) {
        if !AlreadyNamed(images2[k], job.artist, job.project) {
          ImagesAfterRun(path, d, artists, default, project, env, images2[k]);
        }
      }
      LoopAllSkipped(job, SubdirNames(r.folder), env2, images2, 1, r.folder.files);
    }
  }
}
