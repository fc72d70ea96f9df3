/**
 * Running the gallery a second time over the same tree launches no
 * conversion: once the first run has produced every target it launched,
 * Convert finds them all present.
 */
module Rerun {
  import opened FilePath
  import opened Media
  import opened Html
  import opened Convert
  import opened Walk
  import opened WalkProps

  /** The paths a list of runs writes. */
  function Produced(cmds: seq<Command>): set<string> {
    set x | x in cmds :: Output(x)
  }

  // ---- one file ----

  /** Convert launches nothing for a file exactly when it is neither an image nor a video, or both its targets exist. */
  lemma PlanEmpty(s: Settings, outdir: string, f: File, existing: set<string>)
    ensures Plan(s, outdir, f, existing) == [] <==>
      f.kind == Unknown || (Join(outdir, f.thumbnail) in existing && Join(outdir, f.scale) in existing)
  {
    PlanLaunches(s, outdir, f, existing);
  }

  /** More existing paths never make Convert launch more. */
  lemma PlanGrows(s: Settings, outdir: string, f: File, existing: set<string>, more: set<string>)
    requires existing <= more && Plan(s, outdir, f, existing) == []
    ensures Plan(s, outdir, f, more) == []
  {
    PlanEmpty(s, outdir, f, existing);
    PlanEmpty(s, outdir, f, more);
  }

  /** Once every path its runs write exists, Convert launches nothing more for a file. */
  lemma PlanCovered(s: Settings, outdir: string, f: File, existing: set<string>, made: set<string>)
    requires Produced(Plan(s, outdir, f, existing)) <= made
    ensures Plan(s, outdir, f, existing + made) == []
  {
    var first := Plan(s, outdir, f, existing);
    PlanIdempotent(s, outdir, f, existing);
    assert (set c | c in first :: Output(c)) == Produced(first);
    PlanGrows(s, outdir, f, existing + Produced(first), existing + made);
  }

  /** The runs launched between two points of a growing list lie within those launched over a wider span. */
  lemma ProducedSlices(x: seq<Command>, y: seq<Command>, z: seq<Command>)
    requires x <= y <= z
    ensures Produced(y[|x|..]) <= Produced(z[|x|..]) && Produced(z[|y|..]) <= Produced(z[|x|..])
  {
    forall p | p in Produced(y[|x|..]) ensures p in Produced(z[|x|..]) {
      var cmd :| cmd in y[|x|..] && Output(cmd) == p;
      var k :| 0 <= k < |y| - |x| && y[|x|..][k] == cmd;
      assert z[|x|..][k] == cmd;
    }
    forall p | p in Produced(z[|y|..]) ensures p in Produced(z[|x|..]) {
      var cmd :| cmd in z[|y|..] && Output(cmd) == p;
      var k :| 0 <= k < |z| - |y| && z[|y|..][k] == cmd;
      assert z[|x|..][k + |y| - |x|] == cmd;
    }
  }

  // ---- a converted tree ----

  /** Every file in the tree below the directory `e` has its targets: Convert would launch nothing for it. */
  ghost predicate Converted(o: Options, s: Settings, existing: set<string>, dirpath: string, outdir: string, e: Entry)
    decreases e
  {
    e.DirE? ==>
      forall k | 0 <= k < |e.children| ::
        var x := e.children[k];
        if x.DirE? then Converted(o, s, existing, Join(dirpath, x.name), Join(outdir, x.name), x)
        else Plan(s, outdir, GetFile(o, Join(dirpath, x.name)), existing) == []
  }

  /** A converted tree stays converted when more paths exist. */
  lemma {:induction false} ConvertedGrows(o: Options, s: Settings, existing: set<string>, more: set<string>,
                                          dirpath: string, outdir: string, e: Entry)
    requires existing <= more && Converted(o, s, existing, dirpath, outdir, e)
    decreases e
    ensures Converted(o, s, more, dirpath, outdir, e)
  {
    if e.DirE? {
      forall k | 0 <= k < |e.children|
        ensures var x := e.children[k];
          if x.DirE? then Converted(o, s, more, Join(dirpath, x.name), Join(outdir, x.name), x)
          else Plan(s, outdir, GetFile(o, Join(dirpath, x.name)), more) == []
      {
        var x := e.children[k];
        if x.DirE? {
          ConvertedGrows(o, s, existing, more, Join(dirpath, x.name), Join(outdir, x.name), x);
        } else {
          PlanGrows(s, outdir, GetFile(o, Join(dirpath, x.name)), existing, more);
        }
      }
    }
  }

  /** Every entry of a listing is in one of its two lists. */
  lemma {:induction false} ListingCovers(xs: seq<Entry>, x: Entry)
    requires x in xs
    ensures x.DirE? ==> x in DirsOf(xs)
    ensures x.FileE? ==> x in FilesOf(xs)
  {
    var init := xs[..|xs| - 1];
    if x != xs[|xs| - 1] {
      assert x in init by { var k :| 0 <= k < |xs| && xs[k] == x; assert init[k] == x; }
      ListingCovers(init, x);
    }
  }

  // ---- the file loop, with its step left open ----

  /** A step that launches `plan` of the file it handles. */
  ghost predicate Launches(handle: (File, Acc) -> Acc, plan: File -> seq<Command>) {
    forall f, a :: handle(f, a).trace.launched == a.trace.launched + plan(f)
  }

  /** What Convert launches for a file, given the paths that exist. */
  function PlanOf(s: Settings, outdir: string, existing: set<string>): File -> seq<Command> {
    f => Plan(s, outdir, f, existing)
  }

  /** readDir's handling of a file launches Convert's plan for it. */
  lemma HandleLaunches(c: Ctx, outdir: string)
    ensures Launches(HandleOf(c, outdir), PlanOf(c.s, outdir, c.env.existing))
  {
  }

  /** A loop whose files all have an empty plan launches nothing, wherever it stops. */
  lemma {:induction false} LoopLaunchesNothing(sig: Signal, classify: string -> File, handle: (File, Acc) -> Acc,
                                               plan: File -> seq<Command>, files: seq<Entry>, i: nat, a: Acc)
    requires Launches(handle, plan) && i <= |files|
    requires forall j | i <= j < |files| :: plan(classify(files[j].name)) == []
    decreases |files| - i
    ensures match Loop(sig, Compose(classify, handle), files, i, a)
      case Stop(_, _, t') => t'.launched == a.trace.launched
      case Continue(a') => a'.trace.launched == a.trace.launched
  {
    if i < |files| {
      var a1 := handle(classify(files[i].name), a);
      assert Compose(classify, handle)(files[i].name, a) == a1;
      LoopLaunchesNothing(sig, classify, handle, plan, files, i + 1, a1);
    }
  }

  /** Without an interrupt, a loop launches the plan of every remaining file. */
  lemma {:induction false} LoopLaunchesAll(classify: string -> File, handle: (File, Acc) -> Acc,
                                           plan: File -> seq<Command>, files: seq<Entry>, i: nat, a: Acc)
    requires Launches(handle, plan) && i <= |files|
    decreases |files| - i
    ensures var p := Loop(Never, Compose(classify, handle), files, i, a);
      p.Continue? && a.trace.launched <= p.acc.trace.launched &&
      forall j | i <= j < |files| ::
        Produced(plan(classify(files[j].name))) <= Produced(p.acc.trace.launched[|a.trace.launched|..])
  {
    if i < |files| {
      var f := classify(files[i].name);
      var a1 := handle(f, a);
      assert Compose(classify, handle)(files[i].name, a) == a1;
      LoopLaunchesAll(classify, handle, plan, files, i + 1, a1);
      var last := Loop(Never, Compose(classify, handle), files, i + 1, a1).acc.trace.launched;
      ProducedSlices(a.trace.launched, a1.trace.launched, last);
      assert a1.trace.launched[|a.trace.launched|..] == plan(f);
    }
  }

  // ---- the second run ----

  /** A walk over a converted tree, interrupted or not, failing or not, launches nothing. */
  lemma {:induction false} RerunWalk(c: Ctx, dirpath: string, outdir: string, e: Entry, t: Trace)
    requires Converted(c.o, c.s, c.env.existing, dirpath, outdir, e)
    decreases e, 1
    ensures Visit(c, dirpath, outdir, e, t).trace.launched == t.launched
  {
    if Walkable(c, dirpath, outdir, e) {
      var start := Acc(ZeroDirectory.(name := Base(dirpath)), "", t);
      VisitSteps(c, dirpath, outdir, e, t);
      RerunDirs(c, dirpath, outdir, e, 0, start);
      var p := VisitDirs(c, dirpath, outdir, e, 0, start);
      if p.Continue? {
        ConvertedFiles(c.o, c.s, c.env.existing, dirpath, outdir, e);
        RerunFiles(c, dirpath, outdir, FilesOf(e.children), p.acc);
      }
    }
  }

  /** The files readDir lists in a converted directory have empty plans. */
  lemma ConvertedFiles(o: Options, s: Settings, existing: set<string>, dirpath: string, outdir: string, e: Entry)
    requires e.DirE? && Converted(o, s, existing, dirpath, outdir, e)
    ensures forall j | 0 <= j < |FilesOf(e.children)| ::
      Plan(s, outdir, GetFile(o, Join(dirpath, FilesOf(e.children)[j].name)), existing) == []
  {
    forall j | 0 <= j < |FilesOf(e.children)|
      ensures Plan(s, outdir, GetFile(o, Join(dirpath, FilesOf(e.children)[j].name)), existing) == []
    {
      FilesOfMember(e.children, j);
      var k :| 0 <= k < |e.children| && e.children[k] == FilesOf(e.children)[j];
    }
  }

  /** The subdirectories readDir lists in a converted directory are converted. */
  lemma ConvertedDir(o: Options, s: Settings, existing: set<string>, dirpath: string, outdir: string, e: Entry, j: nat)
    requires e.DirE? && j < |DirsOf(e.children)| && Converted(o, s, existing, dirpath, outdir, e)
    ensures var x := DirsOf(e.children)[j];
      Converted(o, s, existing, Join(dirpath, x.name), Join(outdir, x.name), x)
  {
    DirsOfMember(e.children, j);
    var k :| 0 <= k < |e.children| && e.children[k] == DirsOf(e.children)[j];
  }

  /** The first loop over a converted tree launches nothing. */
  lemma {:induction false} RerunDirs(c: Ctx, dirpath: string, outdir: string, e: Entry, i: nat, a: Acc)
    requires e.DirE? && i <= |DirsOf(e.children)| && Converted(c.o, c.s, c.env.existing, dirpath, outdir, e)
    decreases e, 0, |DirsOf(e.children)| - i
    ensures match VisitDirs(c, dirpath, outdir, e, i, a)
      case Stop(_, _, t') => t'.launched == a.trace.launched
      case Continue(a') => a'.trace.launched == a.trace.launched
  {
    var dirs := DirsOf(e.children);
    if i < |dirs| {
      DirsOfMember(e.children, i);
      var child := dirs[i];
      DirsStep(c, dirpath, outdir, e, i, a);
      ConvertedDir(c.o, c.s, c.env.existing, dirpath, outdir, e, i);
      RerunStep(c, dirpath, outdir, child, a);
      var step := DirStep(c, dirpath, outdir, child, a);
      if step.Continue? {
        RerunDirs(c, dirpath, outdir, e, i + 1, step.acc);
      }
    }
  }

  /** One round of the first loop over a converted subdirectory launches nothing. */
  lemma RerunStep(c: Ctx, dirpath: string, outdir: string, child: Entry, a: Acc)
    requires Converted(c.o, c.s, c.env.existing, Join(dirpath, child.name), Join(outdir, child.name), child)
    decreases child, 2
    ensures match DirStep(c, dirpath, outdir, child, a)
      case Stop(_, _, t') => t'.launched == a.trace.launched
      case Continue(a') => a'.trace.launched == a.trace.launched
  {
    RerunWalk(c, Join(dirpath, child.name), Join(outdir, child.name), child, Tick(a.trace));
  }

  /** The second loop over files that all have empty plans launches nothing. */
  lemma RerunFiles(c: Ctx, dirpath: string, outdir: string, files: seq<Entry>, a: Acc)
    requires forall j | 0 <= j < |files| :: Plan(c.s, outdir, GetFile(c.o, Join(dirpath, files[j].name)), c.env.existing) == []
    ensures match VisitFiles(c, dirpath, outdir, files, 0, a)
      case Stop(_, _, t') => t'.launched == a.trace.launched
      case Continue(a') => a'.trace.launched == a.trace.launched
  {
    assert c.(sig := c.sig) == c;
    FilesAreLoop(c, c.sig, dirpath, outdir, files, 0, a);
    HandleLaunches(c, outdir);
    var classify, plan := ClassifyOf(c.o, dirpath), PlanOf(c.s, outdir, c.env.existing);
    forall j | 0 <= j < |files| ensures plan(classify(files[j].name)) == [] {
    }
    LoopLaunchesNothing(c.sig, classify, HandleOf(c, outdir), plan, files, 0, a);
  }

  // ---- the first run ----

  /** A first walk without an interrupt that succeeds leaves the tree converted, once its runs have written their targets. */
  lemma {:induction false} FirstWalk(c: Ctx, dirpath: string, outdir: string, e: Entry, t: Trace)
    requires c.sig == Never
    decreases e, 1
    ensures var out := Visit(c, dirpath, outdir, e, t);
      t.launched <= out.trace.launched &&
      (out.err.None? ==>
        Converted(c.o, c.s, c.env.existing + Produced(out.trace.launched[|t.launched|..]), dirpath, outdir, e))
  {
    WalkShape(c, dirpath, outdir, e, t);
    if Walkable(c, dirpath, outdir, e) {
      var start := Acc(ZeroDirectory.(name := Base(dirpath)), "", t);
      VisitSteps(c, dirpath, outdir, e, t);
      CompleteDirs(c, dirpath, outdir, e, 0, start);
      FirstDirs(c, dirpath, outdir, e, 0, start);
      var p := VisitDirs(c, dirpath, outdir, e, 0, start);
      if p.Continue? {
        var files := FilesOf(e.children);
        FirstFiles(c, dirpath, outdir, files, p.acc);
        var q := VisitFiles(c, dirpath, outdir, files, 0, p.acc);
        var mid, last := p.acc.trace.launched, q.acc.trace.launched;
        assert Visit(c, dirpath, outdir, e, t).trace.launched == last;
        ProducedSlices(t.launched, mid, last);
        ConvertedOfLists(c.o, c.s, c.env.existing + Produced(mid[|t.launched|..]), c.env.existing + Produced(last[|mid|..]),
                         c.env.existing + Produced(last[|t.launched|..]), dirpath, outdir, e);
      }
    }
  }

  /** A directory is converted when the subdirectories and the files readDir lists are, under fewer existing paths. */
  lemma ConvertedOfLists(o: Options, s: Settings, forDirs: set<string>, forFiles: set<string>, existing: set<string>,
                         dirpath: string, outdir: string, e: Entry)
    requires e.DirE? && forDirs <= existing && forFiles <= existing
    requires forall j | 0 <= j < |DirsOf(e.children)| ::
      Converted(o, s, forDirs, Join(dirpath, DirsOf(e.children)[j].name), Join(outdir, DirsOf(e.children)[j].name), DirsOf(e.children)[j])
    requires forall j | 0 <= j < |FilesOf(e.children)| ::
      Plan(s, outdir, GetFile(o, Join(dirpath, FilesOf(e.children)[j].name)), forFiles) == []
    ensures Converted(o, s, existing, dirpath, outdir, e)
  {
    forall k | 0 <= k < |e.children|
      ensures var x := e.children[k];
        if x.DirE? then Converted(o, s, existing, Join(dirpath, x.name), Join(outdir, x.name), x)
        else Plan(s, outdir, GetFile(o, Join(dirpath, x.name)), existing) == []
    {
      var x := e.children[k];
      ListingCovers(e.children, x);
      if x.DirE? {
        var j :| 0 <= j < |DirsOf(e.children)| && DirsOf(e.children)[j] == x;
        ConvertedGrows(o, s, forDirs, existing, Join(dirpath, x.name), Join(outdir, x.name), x);
      } else {
        var j :| 0 <= j < |FilesOf(e.children)| && FilesOf(e.children)[j] == x;
        PlanGrows(s, outdir, GetFile(o, Join(dirpath, x.name)), forFiles, existing);
      }
    }
  }

  /** Without an interrupt, the first loop leaves every subdirectory it walks converted. */
  lemma {:induction false} FirstDirs(c: Ctx, dirpath: string, outdir: string, e: Entry, i: nat, a: Acc)
    requires c.sig == Never && e.DirE? && i <= |DirsOf(e.children)|
    decreases e, 0, |DirsOf(e.children)| - i
    ensures var p := VisitDirs(c, dirpath, outdir, e, i, a);
      p.Continue? ==>
        a.trace.launched <= p.acc.trace.launched &&
        forall j | i <= j < |DirsOf(e.children)| ::
          Converted(c.o, c.s, c.env.existing + Produced(p.acc.trace.launched[|a.trace.launched|..]),
                    Join(dirpath, DirsOf(e.children)[j].name), Join(outdir, DirsOf(e.children)[j].name), DirsOf(e.children)[j])
  {
    var dirs := DirsOf(e.children);
    if i < |dirs| {
      DirsOfMember(e.children, i);
      var child := dirs[i];
      DirsStep(c, dirpath, outdir, e, i, a);
      DirStepUninterrupted(c, dirpath, outdir, child, a);
      FirstWalk(c, Join(dirpath, child.name), Join(outdir, child.name), child, Tick(a.trace));
      var sub := Visit(c, Join(dirpath, child.name), Join(outdir, child.name), child, Tick(a.trace));
      if sub.err.None? {
        var a1 := Acc(AddChild(a.dir, sub.dir), a.html + DirectoryHtml(sub.dir), sub.trace);
        FirstDirs(c, dirpath, outdir, e, i + 1, a1);
        var p := VisitDirs(c, dirpath, outdir, e, i + 1, a1);
        assert VisitDirs(c, dirpath, outdir, e, i, a) == p;
        if p.Continue? {
          var last := p.acc.trace.launched;
          var made := c.env.existing + Produced(last[|a.trace.launched|..]);
          ProducedSlices(a.trace.launched, a1.trace.launched, last);
          forall j | i <= j < |dirs|
            ensures Converted(c.o, c.s, made, Join(dirpath, dirs[j].name), Join(outdir, dirs[j].name), dirs[j])
          {
            var before := if j == i then Produced(a1.trace.launched[|a.trace.launched|..]) else Produced(last[|a1.trace.launched|..]);
            ConvertedGrows(c.o, c.s, c.env.existing + before, made, Join(dirpath, dirs[j].name), Join(outdir, dirs[j].name), dirs[j]);
          }
        }
      }
    }
  }

  /** Without an interrupt, the second loop leaves every file it handles converted. */
  lemma FirstFiles(c: Ctx, dirpath: string, outdir: string, files: seq<Entry>, a: Acc)
    requires c.sig == Never
    ensures var p := VisitFiles(c, dirpath, outdir, files, 0, a);
      p.Continue? && a.trace.launched <= p.acc.trace.launched &&
      forall j | 0 <= j < |files| ::
        Plan(c.s, outdir, GetFile(c.o, Join(dirpath, files[j].name)),
             c.env.existing + Produced(p.acc.trace.launched[|a.trace.launched|..])) == []
  {
    assert c.(sig := Never) == c;
    FilesAreLoop(c, Never, dirpath, outdir, files, 0, a);
    HandleLaunches(c, outdir);
    var classify, plan := ClassifyOf(c.o, dirpath), PlanOf(c.s, outdir, c.env.existing);
    LoopLaunchesAll(classify, HandleOf(c, outdir), plan, files, 0, a);
    var last := VisitFiles(c, dirpath, outdir, files, 0, a).acc.trace.launched;
    forall j | 0 <= j < |files|
      ensures Plan(c.s, outdir, GetFile(c.o, Join(dirpath, files[j].name)), c.env.existing + Produced(last[|a.trace.launched|..])) == []
    {
      assert plan(classify(files[j].name)) == Plan(c.s, outdir, GetFile(c.o, Join(dirpath, files[j].name)), c.env.existing);
      PlanCovered(c.s, outdir, GetFile(c.o, Join(dirpath, files[j].name)), c.env.existing, Produced(last[|a.trace.launched|..]));
    }
  }

  // ---- both runs ----

  /**
   * Run the gallery without an interrupt until it succeeds, let its runs
   * write their targets, and run it again over the same tree, under any
   * interrupt and with any earlier effects: the second run launches nothing.
   */
  lemma SecondRunLaunchesNothing(c: Ctx, dirpath: string, outdir: string, e: Entry, t: Trace, sig: Signal, t2: Trace)
    requires c.sig == Never
    ensures var out := Visit(c, dirpath, outdir, e, t);
      t.launched <= out.trace.launched &&
      (out.err.None? ==>
        var again := Ctx(c.o, c.s, c.env.(existing := c.env.existing + Produced(out.trace.launched[|t.launched|..])), sig);
        Visit(again, dirpath, outdir, e, t2).trace.launched == t2.launched)
  {
    FirstWalk(c, dirpath, outdir, e, t);
    var out := Visit(c, dirpath, outdir, e, t);
    if out.err.None? {
      var again := Ctx(c.o, c.s, c.env.(existing := c.env.existing + Produced(out.trace.launched[|t.launched|..])), sig);
      RerunWalk(again, dirpath, outdir, e, t2);
    }
  }
}
