/**
  Worked cases: the folder with `b.png`, `a.jpg`, `c.PNG` and `notes.txt`
  under artist `X` and project `Y`, and the folder with `X_Y_02.jpg`, `a.jpg`
  and `b.jpg`, each taken through the whole folder renamer.

  Several small lemmas take a parameter pinned to a literal by their
  `requires` (`path == "X/Y"`) instead of writing the literal in the
  `ensures`. This keeps the verifier from evaluating the renamer on the
  literal everywhere the lemma is used; the callers pass the literal.
 */
module Scenarios {
  import opened Maybe
  import opened Text
  import opened Paths
  import opened Ordering
  import opened Artist
  import opened Folders
  import opened Naming
  import opened Rename

  lemma SplitXY(path: string)
    requires path == "X/Y"
    ensures Split(path) == ["X", "Y"]
  {
    SplitPlain("Y");
    assert path == "X" + [Sep] + "Y";
    SplitCons("X", "Y");
  }

  lemma BasenameXY(path: string)
    requires path == "X/Y"
    ensures Basename(path) == "Y"
  {
    LastIndexAt(path, '/', 1);
    assert path[2..] == "Y";
  }

  lemma JobOfXY()
    ensures JobFor("X/Y", ["X"], None, None) == Some(Job("X/Y", "X", "Y"))
  {
    SplitXY("X/Y");
    var segs: seq<string> := ["X", "Y"];
    assert FirstKnown(segs, ["X"]) == Some("X") by {
      assert segs[0] in ["X"];
    }
    BasenameXY("X/Y");
  }

  lemma JpgImage(stem: string)
    ensures IsImage(stem + ".jpg")
  {
    assert Lower(".jpg") == ImageExtensions[0];
    ImageOf(stem, ".jpg", 0);
  }

  lemma PngImage(stem: string, ext: string)
    requires ext == ".png" || ext == ".PNG"
    ensures IsImage(stem + ext)
  {
    assert Lower(ext) == ImageExtensions[2];
    ImageOf(stem, ext, 2);
  }

  lemma NotesNotImage(name: string)
    requires name == "notes.txt"
    ensures !IsImage(name)
  {
    forall k | 0 <= k < |ImageExtensions| ensures !EndsWith(Lower(name), ImageExtensions[k]) {
      assert Lower(name)[|name| - 1] == 't';
    }
  }

  lemma ImageNamesXY()
    ensures IsImage("a.jpg") && IsImage("b.png") && IsImage("c.PNG") && !IsImage("notes.txt")
  {
    JpgImage("a");
    assert "a" + ".jpg" == "a.jpg";
    PngImage("b", ".png");
    assert "b" + ".png" == "b.png";
    PngImage("c", ".PNG");
    assert "c" + ".PNG" == "c.PNG";
    NotesNotImage("notes.txt");
  }

  lemma AscendingXY()
    ensures Ascending(["a.jpg", "b.png", "c.PNG"])
  {
    var s := ["a.jpg", "b.png", "c.PNG"];
    assert Below(s[0], s[1]) && Below(s[0], s[2]) && Below(s[1], s[2]);
  }

  /** A list holding exactly the names of `files` that pass `keep` holds the three that do. */
  lemma ListedThree(r: seq<string>, files: set<string>, keep: string -> bool,
                    a: string, b: string, c: string, other: set<string>)
    requires files == {a, b, c} + other
    requires keep(a) && keep(b) && keep(c)
    requires forall o :: o in other ==> !keep(o)
    requires forall f :: f in r <==> f in files && keep(f)
    ensures forall x :: x in r <==> x in [a, b, c]
  {
  }

  /** The images are the three picture files in ascending order; the notes are left out. */
  lemma ImagesOfXY(d: Dir)
    requires d.files == {"b.png", "a.jpg", "c.PNG", "notes.txt"}
    ensures ImagesOf(d) == ["a.jpg", "b.png", "c.PNG"]
  {
    ImageNamesXY();
    assert d.files == {"a.jpg", "b.png", "c.PNG"} + {"notes.txt"};
    ListedThree(ImagesOf(d), d.files, IsImage, "a.jpg", "b.png", "c.PNG", {"notes.txt"});
    AscendingXY();
    AscendingUnique(ImagesOf(d), ["a.jpg", "b.png", "c.PNG"]);
  }

  /** An image that does not follow the scheme and whose planned name is free goes to the planned name. */
  lemma AttemptFree(job: Job, dirs: set<string>, env: Env, stem: string, ext: string, i: nat, files: set<string>)
    requires !AlreadyNamed(stem + ext, job.artist, job.project)
    requires ext != [] && ext[0] == '.' && '.' !in ext[1..]
    requires |stem| >= 1 && stem[0] != '.'
    requires Candidate(job.artist, job.project, i, ext) !in files + dirs
    requires env.renameOk(job.path, stem + ext, Candidate(job.artist, job.project, i, ext))
    ensures Attempt(job, dirs, env, stem + ext, i, files) ==
      Step(stem + ext, i, Renamed(Candidate(job.artist, job.project, i, ext), false, true))
  {
    ExtOfAppend(stem, ext);
  }

  const Before := Dir(true, {"b.png", "a.jpg", "c.PNG", "notes.txt"}, [])

  /** The folder renamer on `Before` is the loop over its three pictures. */
  lemma RunIsLoopXY(env: Env)
    ensures RenameImages("X/Y", Before, ["X"], None, None, env) ==
      var o := Loop(XY, {}, env, ["a.jpg", "b.png", "c.PNG"], 1, Before.files);
      FolderRun(Before.(files := o.files), o.count, o.steps)
  {
    JobOfXY();
    ImagesOfXY(Before);
    assert SubdirNames(Before) == {};
  }

  lemma PlannedNamesXY()
    ensures Candidate("X", "Y", 1, ".jpg") == "X_Y_01.jpg"
    ensures Candidate("X", "Y", 2, ".png") == "X_Y_02.png"
    ensures Candidate("X", "Y", 3, ".PNG") == "X_Y_03.PNG"
  {
    assert Pad2(1) == "01" && Pad2(2) == "02" && Pad2(3) == "03";
  }

  lemma NotNamedXY()
    ensures !AlreadyNamed("a" + ".jpg", "X", "Y")
    ensures !AlreadyNamed("b" + ".png", "X", "Y")
    ensures !AlreadyNamed("c" + ".PNG", "X", "Y")
  {
    assert ("a" + ".jpg")[0] != 'X' && ("b" + ".png")[0] != 'X' && ("c" + ".PNG")[0] != 'X';
  }

  const XY := Job("X/Y", "X", "Y")

  lemma FirstXY(env: Env)
    requires forall p, a, b :: env.renameOk(p, a, b)
    ensures Attempt(XY, {}, env, "a.jpg", 1, Before.files) == Step("a.jpg", 1, Renamed("X_Y_01.jpg", false, true))
  {
    PlannedNamesXY();
    NotNamedXY();
    assert "a" + ".jpg" == "a.jpg";
    AttemptFree(XY, {}, env, "a", ".jpg", 1, Before.files);
  }

  lemma SecondXY(env: Env)
    requires forall p, a, b :: env.renameOk(p, a, b)
    ensures Attempt(XY, {}, env, "b.png", 2, Before.files) == Step("b.png", 2, Renamed("X_Y_02.png", false, true))
  {
    PlannedNamesXY();
    NotNamedXY();
    assert "b" + ".png" == "b.png";
    AttemptFree(XY, {}, env, "b", ".png", 2, Before.files);
  }

  lemma ThirdXY(env: Env)
    requires forall p, a, b :: env.renameOk(p, a, b)
    ensures Attempt(XY, {}, env, "c.PNG", 3, Before.files) == Step("c.PNG", 3, Renamed("X_Y_03.PNG", false, true))
  {
    PlannedNamesXY();
    NotNamedXY();
    assert "c" + ".PNG" == "c.PNG";
    AttemptFree(XY, {}, env, "c", ".PNG", 3, Before.files);
  }

  /**
    A loop over three images whose planned names are judged against the
    folder as listed takes the three planned steps.
   */
  lemma ListingPlan(job: Job, dirs: set<string>, env: Env, images: seq<string>, files: set<string>,
                    s0: Step, s1: Step, s2: Step)
    requires |images| == 3
    requires Attempt(job, dirs, env, images[0], 1, files) == s0
    requires Attempt(job, dirs, env, images[1], 2, files) == s1
    requires Attempt(job, dirs, env, images[2], 3, files) == s2
    ensures Loop(job, dirs, env, images, 1, files).steps == [s0, s1, s2]
  {
    LoopFollowsPlan(job, dirs, env, images, 1, files, files);
    PlanStepsAt(job, dirs, env, images, 1, files, 0);
    PlanStepsAt(job, dirs, env, images, 1, files, 1);
    PlanStepsAt(job, dirs, env, images, 1, files, 2);
  }

  const StepsOfXY := [Step("a.jpg", 1, Renamed("X_Y_01.jpg", false, true)),
                      Step("b.png", 2, Renamed("X_Y_02.png", false, true)),
                      Step("c.PNG", 3, Renamed("X_Y_03.PNG", false, true))]

  /**
    Each picture is taken to its planned name, and the rename takes effect.
    No planned name is in the folder as listed, so the loop follows the plan
    made against the listing.
   */
  lemma StepsXY(env: Env)
    requires forall p, a, b :: env.renameOk(p, a, b)
    ensures Loop(XY, {}, env, ["a.jpg", "b.png", "c.PNG"], 1, Before.files).steps == StepsOfXY
  {
    var images := ["a.jpg", "b.png", "c.PNG"];
    FirstXY(env);
    SecondXY(env);
    ThirdXY(env);
    ListingPlan(XY, {}, env, images, Before.files, StepsOfXY[0], StepsOfXY[1], StepsOfXY[2]);
  }

  lemma TallyXY()
    ensures Succeeded(StepsOfXY) == 3
    ensures MovedFrom(StepsOfXY) == {"a.jpg", "b.png", "c.PNG"}
    ensures MovedTo(StepsOfXY) == {"X_Y_01.jpg", "X_Y_02.png", "X_Y_03.PNG"}
  {
    var steps := StepsOfXY;
    assert steps[1..][1..][1..] == [];
    assert Succeeds(steps[0]) && Succeeds(steps[1]) && Succeeds(steps[2]);
  }

  /** Once the steps of a loop are known, so are its count and the names it leaves. */
  lemma LoopFromSteps(job: Job, dirs: set<string>, env: Env, images: seq<string>, i: nat, files: set<string>, steps: seq<Step>)
    requires Loop(job, dirs, env, images, i, files).steps == steps
    ensures var o := Loop(job, dirs, env, images, i, files);
      o.count == Succeeded(steps) && o.files == (files - MovedFrom(steps)) + MovedTo(steps)
  {
    LoopFiles(job, dirs, env, images, i, files);
  }

  lemma LoopXY(env: Env)
    requires forall p, a, b :: env.renameOk(p, a, b)
    ensures var o := Loop(XY, {}, env, ["a.jpg", "b.png", "c.PNG"], 1, Before.files);
      && o.steps == StepsOfXY
      && o.count == 3
      && o.files == {"X_Y_01.jpg", "X_Y_02.png", "X_Y_03.PNG", "notes.txt"}
  {
    StepsXY(env);
    LoopFromSteps(XY, {}, env, ["a.jpg", "b.png", "c.PNG"], 1, Before.files, StepsOfXY);
    TallyXY();
    AfterXY();
  }

  lemma AfterXY()
    ensures (Before.files - {"a.jpg", "b.png", "c.PNG"}) + {"X_Y_01.jpg", "X_Y_02.png", "X_Y_03.PNG"} ==
      {"X_Y_01.jpg", "X_Y_02.png", "X_Y_03.PNG", "notes.txt"}
  {
  }

  /**
    With every rename taking effect, the three pictures become `X_Y_01.jpg`,
    `X_Y_02.png` and `X_Y_03.PNG`, each keeping its extension as written,
    and the notes stay as they are.
   */
  lemma RenameXY(env: Env)
    requires forall p, a, b :: env.renameOk(p, a, b)
    ensures var r := RenameImages("X/Y", Before, ["X"], None, None, env);
      && r.steps == StepsOfXY
      && r.count == 3
      && r.folder.files == {"X_Y_01.jpg", "X_Y_02.png", "X_Y_03.PNG", "notes.txt"}
  {
    RunIsLoopXY(env);
    LoopXY(env);
  }

  /**
    A folder that already holds `X_Y_02.jpg` next to `a.jpg` and `b.jpg`.
    The conforming name sorts first and, though skipped, uses up number 1, so
    `a.jpg` is planned as `X_Y_02.jpg`, finds it taken and receives the
    identifier; `b.jpg` becomes `X_Y_03.jpg`.
   */
  const Taken := Dir(true, {"a.jpg", "b.jpg", "X_Y_02.jpg"}, [])

  lemma ImageNamesTaken()
    ensures IsImage("a.jpg") && IsImage("b.jpg") && IsImage("X_Y_02.jpg")
  {
    JpgImage("a");
    assert "a" + ".jpg" == "a.jpg";
    JpgImage("b");
    assert "b" + ".jpg" == "b.jpg";
    JpgImage("X_Y_02");
    assert "X_Y_02" + ".jpg" == "X_Y_02.jpg";
  }

  lemma AscendingTaken()
    ensures Ascending(["X_Y_02.jpg", "a.jpg", "b.jpg"])
  {
    var s := ["X_Y_02.jpg", "a.jpg", "b.jpg"];
    assert Below(s[0], s[1]) && Below(s[0], s[2]) && Below(s[1], s[2]);
  }

  lemma ImagesOfTaken(d: Dir)
    requires d.files == {"a.jpg", "b.jpg", "X_Y_02.jpg"}
    ensures ImagesOf(d) == ["X_Y_02.jpg", "a.jpg", "b.jpg"]
  {
    ImageNamesTaken();
    assert d.files == {"X_Y_02.jpg", "a.jpg", "b.jpg"} + {};
    ListedThree(ImagesOf(d), d.files, IsImage, "X_Y_02.jpg", "a.jpg", "b.jpg", {});
    AscendingTaken();
    AscendingUnique(ImagesOf(d), ["X_Y_02.jpg", "a.jpg", "b.jpg"]);
  }

  lemma NamedTaken(name: string)
    requires name == "X_Y_02.jpg"
    ensures AlreadyNamed(name, "X", "Y")
  {
    var pre := Prefix("X", "Y");
    assert pre == "X_Y_";
    assert name[..|pre|] == pre;
    assert name[|pre|] == '0';
  }

  lemma SkipTaken(env: Env)
    ensures Attempt(XY, {}, env, "X_Y_02.jpg", 1, Taken.files) == Step("X_Y_02.jpg", 1, Skipped)
  {
    NamedTaken("X_Y_02.jpg");
  }

  /** An image whose planned name is taken goes to the identifier variant of that name. */
  lemma AttemptClash(job: Job, dirs: set<string>, env: Env, stem: string, ext: string, i: nat, files: set<string>)
    requires !AlreadyNamed(stem + ext, job.artist, job.project)
    requires ext != [] && ext[0] == '.' && '.' !in ext[1..]
    requires |stem| >= 1 && stem[0] != '.'
    requires Candidate(job.artist, job.project, i, ext) in files
    requires var target := Suffixed(job.artist, job.project, i, env.freshId(job.path, stem + ext), ext);
      target !in dirs && env.renameOk(job.path, stem + ext, target)
    ensures Attempt(job, dirs, env, stem + ext, i, files) ==
      Step(stem + ext, i, Renamed(Suffixed(job.artist, job.project, i, env.freshId(job.path, stem + ext), ext), true, true))
  {
    ExtOfAppend(stem, ext);
  }

  lemma PlannedTwo()
    ensures Candidate("X", "Y", 2, ".jpg") == "X_Y_02.jpg"
  {
    assert Pad2(2) == "02";
  }

  lemma ClashTaken(env: Env)
    requires forall p, a, b :: env.renameOk(p, a, b)
    ensures Attempt(XY, {}, env, "a.jpg", 2, Taken.files) ==
      Step("a.jpg", 2, Renamed(Suffixed("X", "Y", 2, env.freshId("X/Y", "a.jpg"), ".jpg"), true, true))
  {
    NotNamedXY();
    PlannedTwo();
    assert "a" + ".jpg" == "a.jpg";
    AttemptClash(XY, {}, env, "a", ".jpg", 2, Taken.files);
  }

  lemma FreeTaken(env: Env)
    requires forall p, a, b :: env.renameOk(p, a, b)
    ensures Attempt(XY, {}, env, "b.jpg", 3, Taken.files) == Step("b.jpg", 3, Renamed("X_Y_03.jpg", false, true))
  {
    assert Pad2(3) == "03";
    assert Candidate("X", "Y", 3, ".jpg") == "X_Y_03.jpg";
    assert "b" + ".jpg" == "b.jpg";
    assert ("b" + ".jpg")[0] != 'X';
    AttemptFree(XY, {}, env, "b", ".jpg", 3, Taken.files);
  }

  lemma StepsTaken(env: Env, target: string)
    requires forall p, a, b :: env.renameOk(p, a, b)
    requires target == Suffixed("X", "Y", 2, env.freshId("X/Y", "a.jpg"), ".jpg")
    ensures Loop(XY, {}, env, ["X_Y_02.jpg", "a.jpg", "b.jpg"], 1, Taken.files).steps ==
      [Step("X_Y_02.jpg", 1, Skipped),
       Step("a.jpg", 2, Renamed(target, true, true)),
       Step("b.jpg", 3, Renamed("X_Y_03.jpg", false, true))]
  {
    SkipTaken(env);
    ClashTaken(env);
    FreeTaken(env);
    ListingPlan(XY, {}, env, ["X_Y_02.jpg", "a.jpg", "b.jpg"], Taken.files,
                Step("X_Y_02.jpg", 1, Skipped), Step("a.jpg", 2, Renamed(target, true, true)),
                Step("b.jpg", 3, Renamed("X_Y_03.jpg", false, true)));
  }

  lemma RunIsLoopTaken(env: Env)
    ensures RenameImages("X/Y", Taken, ["X"], None, None, env) ==
      var o := Loop(XY, {}, env, ["X_Y_02.jpg", "a.jpg", "b.jpg"], 1, Taken.files);
      FolderRun(Taken.(files := o.files), o.count, o.steps)
  {
    JobOfXY();
    ImagesOfTaken(Taken);
    assert SubdirNames(Taken) == {};
  }

  lemma TallyTaken(target: string)
    ensures Succeeded([Step("X_Y_02.jpg", 1, Skipped),
                       Step("a.jpg", 2, Renamed(target, true, true)),
                       Step("b.jpg", 3, Renamed("X_Y_03.jpg", false, true))]) == 2
  {
    var steps := [Step("X_Y_02.jpg", 1, Skipped),
                  Step("a.jpg", 2, Renamed(target, true, true)),
                  Step("b.jpg", 3, Renamed("X_Y_03.jpg", false, true))];
    assert steps[1..][1..][1..] == [];
    assert !Succeeds(steps[0]) && Succeeds(steps[1]) && Succeeds(steps[2]);
    assert Succeeded(steps[1..][1..]) == 1;
  }

  /**
    `X_Y_02.jpg` is skipped, `a.jpg` goes to the identifier variant of
    number 2 because its planned name is taken, and `b.jpg` becomes
    `X_Y_03.jpg`: two files are renamed.
   */
  lemma RenameTaken(env: Env)
    requires forall p, a, b :: env.renameOk(p, a, b)
    ensures var r := RenameImages("X/Y", Taken, ["X"], None, None, env);
      var target := Suffixed("X", "Y", 2, env.freshId("X/Y", "a.jpg"), ".jpg");
      && r.steps == [Step("X_Y_02.jpg", 1, Skipped),
                     Step("a.jpg", 2, Renamed(target, true, true)),
                     Step("b.jpg", 3, Renamed("X_Y_03.jpg", false, true))]
      && r.count == 2
  {
    var target := Suffixed("X", "Y", 2, env.freshId("X/Y", "a.jpg"), ".jpg");
    RunIsLoopTaken(env);
    StepsTaken(env, target);
    TallyTaken(target);
  }
}
