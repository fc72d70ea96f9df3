/**
 * Properties of readDir and getDirItems, stated on the functional model
 * Walk.Visit that Walk.ReadDir is proved to follow.
 */
module WalkProps {
  import opened Wrappers
  import opened FilePath
  import opened Media
  import opened Html
  import opened Convert
  import opened Walk

  // ---- getDirItems ----

  /** Every entry of a listing lands in exactly one of the two lists. */
  lemma {:induction false} ListingPartition(xs: seq<Entry>)
    ensures |DirsOf(xs)| + |FilesOf(xs)| == |xs|
    ensures multiset(DirsOf(xs)) + multiset(FilesOf(xs)) == multiset(xs)
  {
    if xs != [] {
      var init, last := xs[..|xs| - 1], xs[|xs| - 1];
      ListingPartition(init);
      assert multiset(xs) == multiset(init) + multiset{last} by { assert xs == init + [last]; }
      var ds, fs := DirsOf(init), FilesOf(init);
      if last.DirE? {
        assert DirsOf(xs) == ds + [last] && FilesOf(xs) == fs;
        assert multiset(DirsOf(xs)) == multiset(ds) + multiset{last};
      } else {
        assert DirsOf(xs) == ds && FilesOf(xs) == fs + [last];
        assert multiset(FilesOf(xs)) == multiset(fs) + multiset{last};
      }
    }
  }

  /** Both lists keep the listing's order: splitting a listing splits each list the same way. */
  lemma {:induction false} DirsOrderKept(a: seq<Entry>, b: seq<Entry>)
    ensures DirsOf(a + b) == DirsOf(a) + DirsOf(b)
    decreases |b|
  {
    if b == [] {
      assert a + b == a;
    } else {
      var init, last := b[..|b| - 1], b[|b| - 1];
      var tail := if last.DirE? then [last] else [];
      DirsOrderKept(a, init);
      assert (a + b)[..|a + b| - 1] == a + init && (a + b)[|a + b| - 1] == last;
      assert DirsOf(a + b) == DirsOf(a + init) + tail;
      assert DirsOf(b) == DirsOf(init) + tail;
    }
  }

  /** The same for the other entries. */
  lemma {:induction false} FilesOrderKept(a: seq<Entry>, b: seq<Entry>)
    ensures FilesOf(a + b) == FilesOf(a) + FilesOf(b)
    decreases |b|
  {
    if b == [] {
      assert a + b == a;
    } else {
      var init, last := b[..|b| - 1], b[|b| - 1];
      var tail := if last.FileE? then [last] else [];
      FilesOrderKept(a, init);
      assert (a + b)[..|a + b| - 1] == a + init && (a + b)[|a + b| - 1] == last;
      assert FilesOf(a + b) == FilesOf(a + init) + tail;
      assert FilesOf(b) == FilesOf(init) + tail;
    }
  }

  // ---- reference counts ----

  /** How many of `files`, from the `i`-th on, getFile classifies as `kind`. */
  function CountFrom(o: Options, dirpath: string, files: seq<Entry>, i: nat, kind: FileType): nat
    requires i <= |files|
    decreases |files| - i
  {
    if i == |files| then 0
    else (if GetFile(o, Join(dirpath, files[i].name)).kind == kind then 1 else 0) + CountFrom(o, dirpath, files, i + 1, kind)
  }

  /** The thumbnail of the first image among `files` from the `i`-th on, under the folder `name`. */
  function FirstThumbnail(o: Options, dirpath: string, name: string, files: seq<Entry>, i: nat): string
    requires i <= |files|
    decreases |files| - i
  {
    if i == |files| then ""
    else
      var f := GetFile(o, Join(dirpath, files[i].name));
      if f.kind == Image then Join(name, f.thumbnail) else FirstThumbnail(o, dirpath, name, files, i + 1)
  }

  /** How many files of the whole tree under `e` getFile classifies as `kind`. */
  function TreeCount(o: Options, kind: FileType, dirpath: string, e: Entry): nat
    decreases e, 1
  {
    if e.FileE? then 0
    else CountFrom(o, dirpath, FilesOf(e.children), 0, kind) + ChildrenCount(o, kind, dirpath, e, 0)
  }

  /** TreeCount summed over the subdirectories of `e` from the `i`-th on. */
  function ChildrenCount(o: Options, kind: FileType, dirpath: string, e: Entry, i: nat): nat
    requires e.DirE? && i <= |DirsOf(e.children)|
    decreases e, 0, |DirsOf(e.children)| - i
  {
    var dirs := DirsOf(e.children);
    if i == |dirs| then 0
    else
      DirsOfMember(e.children, i);
      TreeCount(o, kind, Join(dirpath, dirs[i].name), dirs[i]) + ChildrenCount(o, kind, dirpath, e, i + 1)
  }

  /** The summary an uninterrupted walk of `e` at `dirpath` should produce. */
  predicate Summarises(o: Options, dirpath: string, e: Entry, d: Directory) {
    e.DirE? &&
    d.name == Base(dirpath) && d.subThumbnail == "" &&
    d.directories == |DirsOf(e.children)| &&
    d.images == CountFrom(o, dirpath, FilesOf(e.children), 0, Image) &&
    d.videos == CountFrom(o, dirpath, FilesOf(e.children), 0, Video) &&
    d.images + d.subImages == TreeCount(o, Image, dirpath, e) &&
    d.videos + d.subVideos == TreeCount(o, Video, dirpath, e) &&
    d.thumbnail == FirstThumbnail(o, dirpath, Base(dirpath), FilesOf(e.children), 0)
  }

  /** The summary an uninterrupted walk of the directory `e` at `dirpath` should produce. */
  function Summary(o: Options, dirpath: string, e: Entry): Directory
    requires e.DirE?
  {
    var files := FilesOf(e.children);
    Directory(Base(dirpath), FirstThumbnail(o, dirpath, Base(dirpath), files, 0), "",
              CountFrom(o, dirpath, files, 0, Image), CountFrom(o, dirpath, files, 0, Video),
              |DirsOf(e.children)|, ChildrenCount(o, Image, dirpath, e, 0), ChildrenCount(o, Video, dirpath, e, 0))
  }

  /** `Summarises` pins down every field: the summary it describes is `Summary`, and no other. */
  lemma SummarisesExactly(o: Options, dirpath: string, e: Entry, d: Directory)
    requires e.DirE?
    ensures Summarises(o, dirpath, e, d) <==> d == Summary(o, dirpath, e)
  {
  }

  /** The folder links of the subdirectories of `e` from the `i`-th on, each showing that subdirectory's summary. */
  function FolderLinks(o: Options, dirpath: string, e: Entry, i: nat): string
    requires e.DirE? && i <= |DirsOf(e.children)|
  {
    Linked(LinkOf(o, dirpath), DirsOf(e.children), i, |DirsOf(e.children)|)
  }

  /** The folder link of the subdirectory `x` of `dirpath`, showing its summary. */
  function LinkOf(o: Options, dirpath: string): Entry -> string {
    (x: Entry) => if x.DirE? then DirectoryHtml(Summary(o, Join(dirpath, x.name), x)) else ""
  }

  /** The concatenation of `link` applied to the entries of `dirs` from the `i`-th up to, but not including, the `k`-th. */
  function Linked(link: Entry -> string, dirs: seq<Entry>, i: nat, k: nat): string
    requires i <= k <= |dirs|
    decreases k - i
  {
    if i == k then "" else link(dirs[i]) + Linked(link, dirs, i + 1, k)
  }

  /** The fragments of `files` from the `i`-th on, each rendered as getFile classifies it. */
  function FilesHtml(o: Options, dirpath: string, files: seq<Entry>, i: nat): string
    requires i <= |files|
  {
    Rendered(ClassifyOf(o, dirpath), FileHtml, files, i)
  }

  /** How getFile classifies the entry called `name` under `dirpath`. */
  function ClassifyOf(o: Options, dirpath: string): string -> File {
    name => GetFile(o, Join(dirpath, name))
  }

  /** The concatenation of `render` applied to the classified names of `files` from the `i`-th on. */
  function Rendered(classify: string -> File, render: File -> string, files: seq<Entry>, i: nat): string
    requires i <= |files|
    decreases |files| - i
  {
    if i == |files| then "" else render(classify(files[i].name)) + Rendered(classify, render, files, i + 1)
  }

  /** The body of the index.html an uninterrupted walk of the directory `e` should write. */
  function PageBody(o: Options, dirpath: string, e: Entry): string
    requires e.DirE?
  {
    FolderLinks(o, dirpath, e, 0) + FilesHtml(o, dirpath, FilesOf(e.children), 0)
  }

  // ---- an uninterrupted walk ----

  /**
   * Without an interrupt, a walk that succeeds counts the direct images and
   * videos, the subdirectories and every image and video below, picks the
   * first direct image as the folder's thumbnail, and writes this
   * directory's index.html last: a folder link for every subdirectory, in
   * listing order and showing that subdirectory's summary, then the fragment
   * of every other entry, in listing order.
   */
  lemma CompleteWalk(c: Ctx, dirpath: string, outdir: string, e: Entry, t: Trace)
    requires c.sig == Never
    ensures var out := Visit(c, dirpath, outdir, e, t);
      out.err.None? ==>
        Summarises(c.o, dirpath, e, out.dir) && WritesLast(out, Page(Join(outdir, "index.html"), PageBody(c.o, dirpath, e)))
  {
    WalkSummary(c, dirpath, outdir, e, t);
    WalkPage(c, dirpath, outdir, e, t);
  }

  /** The page part of `CompleteWalk`: the two loops append the folder links, then the file fragments. */
  lemma WalkPage(c: Ctx, dirpath: string, outdir: string, e: Entry, t: Trace)
    requires c.sig == Never
    ensures e.DirE? ==> WritesLast(Visit(c, dirpath, outdir, e, t), Page(Join(outdir, "index.html"), PageBody(c.o, dirpath, e)))
  {
    if Walkable(c, dirpath, outdir, e) {
      var start := Acc(ZeroDirectory.(name := Base(dirpath)), "", t);
      VisitSteps(c, dirpath, outdir, e, t);
      CompleteDirs(c, dirpath, outdir, e, 0, start);
      DirsPage(c, dirpath, outdir, e, 0, start);
      var p := VisitDirs(c, dirpath, outdir, e, 0, start);
      if p.Continue? {
        var files := FilesOf(e.children);
        FilesPage(c, dirpath, outdir, files, 0, p.acc);
        var q := VisitFiles(c, dirpath, outdir, files, 0, p.acc);
        assert p.acc.html == FolderLinks(c.o, dirpath, e, 0) by { assert start.html == ""; }
        assert q.acc.html == PageBody(c.o, dirpath, e);
        FinishPage(c, outdir, q.acc);
      }
    }
  }

  /** A walk that succeeds writes `page` last. */
  ghost predicate WritesLast(out: Outcome, page: Page) {
    out.err.None? ==> |out.trace.pages| > 0 && out.trace.pages[|out.trace.pages| - 1] == page
  }

  /** When index.html is written, it is the last page and holds the collected fragments. */
  lemma FinishPage(c: Ctx, outdir: string, a: Acc)
    ensures WritesLast(Finish(c, outdir, a), Page(Join(outdir, "index.html"), a.html))
  {
  }

  /**
   * The summary part of `CompleteWalk`, by induction on the tree, together
   * with the path of the last page written.
   */
  lemma {:induction false} WalkSummary(c: Ctx, dirpath: string, outdir: string, e: Entry, t: Trace)
    requires c.sig == Never
    decreases e, 1
    ensures var out := Visit(c, dirpath, outdir, e, t);
      out.err.None? ==>
        Summarises(c.o, dirpath, e, out.dir) &&
        |out.trace.pages| > 0 && out.trace.pages[|out.trace.pages| - 1].path == Join(outdir, "index.html")
  {
    if outdir !in c.env.mkdirFails && e.DirE? && dirpath !in c.env.listFails {
      var start := Acc(ZeroDirectory.(name := Base(dirpath)), "", t);
      VisitSteps(c, dirpath, outdir, e, t);
      CompleteDirs(c, dirpath, outdir, e, 0, start);
      var p := VisitDirs(c, dirpath, outdir, e, 0, start);
      if p.Continue? {
        var files := FilesOf(e.children);
        CompleteFiles(c, dirpath, outdir, files, 0, p.acc);
        var a2 := VisitFiles(c, dirpath, outdir, files, 0, p.acc).acc;
        var out := Finish(c, outdir, a2);
        assert Visit(c, dirpath, outdir, e, t) == out;
        SummaryOfLoops(c.o, dirpath, e, p.acc.dir, a2.dir);
      }
    }
  }

  /** The two loops' results, started from the zero summary, make up the summary of the directory. */
  lemma SummaryOfLoops(o: Options, dirpath: string, e: Entry, d1: Directory, d2: Directory)
    requires e.DirE?
    requires d1.name == Base(dirpath) && d1.subThumbnail == "" && d1.thumbnail == "" && d1.images == 0 && d1.videos == 0
    requires d1.directories == |DirsOf(e.children)|
    requires d1.subImages == ChildrenCount(o, Image, dirpath, e, 0) && d1.subVideos == ChildrenCount(o, Video, dirpath, e, 0)
    requires var files := FilesOf(e.children);
      d2.images == CountFrom(o, dirpath, files, 0, Image) && d2.videos == CountFrom(o, dirpath, files, 0, Video) &&
      d2.thumbnail == FirstThumbnail(o, dirpath, d1.name, files, 0) && FilesLoopFrame(d1, d2)
    ensures Summarises(o, dirpath, e, d2)
  {
  }

  /** The walk of a directory that can be created and listed: the first loop, then the second, then the page. */
  lemma VisitSteps(c: Ctx, dirpath: string, outdir: string, e: Entry, t: Trace)
    requires outdir !in c.env.mkdirFails && e.DirE? && dirpath !in c.env.listFails
    ensures var p := VisitDirs(c, dirpath, outdir, e, 0, Acc(ZeroDirectory.(name := Base(dirpath)), "", t));
      Visit(c, dirpath, outdir, e, t) ==
        if p.Stop? then Outcome(p.dir, p.err, p.trace)
        else
          var q := VisitFiles(c, dirpath, outdir, FilesOf(e.children), 0, p.acc);
          if q.Stop? then Outcome(q.dir, q.err, q.trace) else Finish(c, outdir, q.acc)
  {
  }

  /** Without an interrupt the first loop stops only on an error, and otherwise adds up every subdirectory. */
  lemma {:induction false} CompleteDirs(c: Ctx, dirpath: string, outdir: string, e: Entry, i: nat, a: Acc)
    requires c.sig == Never && e.DirE? && i <= |DirsOf(e.children)|
    decreases e, 0, |DirsOf(e.children)| - i
    ensures match VisitDirs(c, dirpath, outdir, e, i, a)
      case Stop(_, err, _) => err.Some?
      case Continue(a') =>
        a'.dir.directories == a.dir.directories + (|DirsOf(e.children)| - i) &&
        a'.dir.subImages == a.dir.subImages + ChildrenCount(c.o, Image, dirpath, e, i) &&
        a'.dir.subVideos == a.dir.subVideos + ChildrenCount(c.o, Video, dirpath, e, i) &&
        DirsLoopFrame(a.dir, a'.dir)
  {
    var dirs := DirsOf(e.children);
    if i < |dirs| {
      DirsOfMember(e.children, i);
      var child := dirs[i];
      var step := DirStep(c, dirpath, outdir, child, a);
      DirsStep(c, dirpath, outdir, e, i, a);
      var sub := Visit(c, Join(dirpath, child.name), Join(outdir, child.name), child, Tick(a.trace));
      WalkSummary(c, Join(dirpath, child.name), Join(outdir, child.name), child, Tick(a.trace));
      DirStepUninterrupted(c, dirpath, outdir, child, a);
      if step.Continue? {
        CompleteDirs(c, dirpath, outdir, e, i + 1, step.acc);
      }
    }
  }

  /**
   * Without an interrupt the first loop, when it does not stop, appends the
   * folder link of every remaining subdirectory, in order, each showing that
   * subdirectory's summary.
   */
  lemma DirsPage(c: Ctx, dirpath: string, outdir: string, e: Entry, i: nat, a: Acc)
    requires c.sig == Never && e.DirE? && i <= |DirsOf(e.children)|
    ensures var p := VisitDirs(c, dirpath, outdir, e, i, a);
      p.Continue? ==> p.acc.html == a.html + FolderLinks(c.o, dirpath, e, i)
  {
    DirsAreRounds(c, dirpath, outdir, e, i, a);
    DirStepLinks(c, dirpath, outdir, e);
    RoundsPage(DirStepOf(c, dirpath, outdir), LinkOf(c.o, dirpath), DirsOf(e.children), i, |DirsOf(e.children)|, a);
  }

  /** A round over `dirs` that, when it carries on, appends `link` of the entry it handles to the page body. */
  ghost predicate Links(step: (Entry, Acc) -> Progress, link: Entry -> string, dirs: seq<Entry>) {
    forall k, a | 0 <= k < |dirs| :: step(dirs[k], a).Continue? ==> step(dirs[k], a).acc.html == a.html + link(dirs[k])
  }

  /** Without an interrupt, a subdirectory's round that carries on appends its folder link, showing its summary. */
  lemma DirStepLinks(c: Ctx, dirpath: string, outdir: string, e: Entry)
    requires c.sig == Never && e.DirE?
    ensures Links(DirStepOf(c, dirpath, outdir), LinkOf(c.o, dirpath), DirsOf(e.children))
  {
    var dirs := DirsOf(e.children);
    forall k, a | 0 <= k < |dirs|
      ensures var p := DirStepOf(c, dirpath, outdir)(dirs[k], a);
        p.Continue? ==> p.acc.html == a.html + LinkOf(c.o, dirpath)(dirs[k])
    {
      DirsOfMember(e.children, k);
      var child := dirs[k];
      var sub := Visit(c, Join(dirpath, child.name), Join(outdir, child.name), child, Tick(a.trace));
      DirStepUninterrupted(c, dirpath, outdir, child, a);
      WalkSummary(c, Join(dirpath, child.name), Join(outdir, child.name), child, Tick(a.trace));
      if sub.err.None? {
        SummarisesExactly(c.o, Join(dirpath, child.name), child, sub.dir);
      }
    }
  }

  /** Rounds that carry on append, in order, what each handled entry links to. */
  lemma {:induction false} RoundsPage(step: (Entry, Acc) -> Progress, link: Entry -> string, dirs: seq<Entry>,
                                      i: nat, k: nat, a: Acc)
    requires i <= k <= |dirs| && Links(step, link, dirs)
    decreases k - i
    ensures var p := Rounds(step, dirs, i, k, a);
      p.Continue? ==> p.acc.html == a.html + Linked(link, dirs, i, k)
  {
    if i < k {
      var q := step(dirs[i], a);
      if q.Continue? {
        RoundsPage(step, link, dirs, i + 1, k, q.acc);
        Append3(a.html, link(dirs[i]), Linked(link, dirs, i + 1, k));
      }
    }
  }

  /** One round of the first loop: the subdirectory's step, then the rest of the loop unless it stopped. */
  lemma DirsStep(c: Ctx, dirpath: string, outdir: string, e: Entry, i: nat, a: Acc)
    requires e.DirE? && i < |DirsOf(e.children)|
    ensures var step := DirStep(c, dirpath, outdir, DirsOf(e.children)[i], a);
      VisitDirs(c, dirpath, outdir, e, i, a) == if step.Stop? then step else VisitDirs(c, dirpath, outdir, e, i + 1, step.acc)
  {
  }

  /** Without an interrupt a subdirectory's step is the walk of that subdirectory. */
  lemma DirStepUninterrupted(c: Ctx, dirpath: string, outdir: string, child: Entry, a: Acc)
    requires c.sig == Never
    ensures var sub := Visit(c, Join(dirpath, child.name), Join(outdir, child.name), child, Tick(a.trace));
      DirStep(c, dirpath, outdir, child, a) ==
        if sub.err.Some? then Stop(ZeroDirectory, sub.err, sub.trace)
        else Continue(Acc(AddChild(a.dir, sub.dir), a.html + DirectoryHtml(sub.dir), sub.trace))
  {
  }

  /** The fields the first loop leaves alone. */
  predicate DirsLoopFrame(d: Directory, d': Directory) {
    d'.name == d.name && d'.subThumbnail == d.subThumbnail && d'.thumbnail == d.thumbnail &&
    d'.images == d.images && d'.videos == d.videos
  }

  /** Without an interrupt the second loop handles every file, counting images and videos. */
  lemma {:induction false} CompleteFiles(c: Ctx, dirpath: string, outdir: string, files: seq<Entry>, i: nat, a: Acc)
    requires c.sig == Never && i <= |files|
    decreases |files| - i
    ensures VisitFiles(c, dirpath, outdir, files, i, a).Continue?
    ensures var d := VisitFiles(c, dirpath, outdir, files, i, a).acc.dir;
      d.images == a.dir.images + CountFrom(c.o, dirpath, files, i, Image) &&
      d.videos == a.dir.videos + CountFrom(c.o, dirpath, files, i, Video) &&
      d.thumbnail == (if a.dir.thumbnail != "" then a.dir.thumbnail else FirstThumbnail(c.o, dirpath, a.dir.name, files, i)) &&
      FilesLoopFrame(a.dir, d)
  {
    if i < |files| {
      var f := GetFile(c.o, Join(dirpath, files[i].name));
      var a1 := FileStep(c, dirpath, outdir, files[i].name, a);
      FilesStep(c, dirpath, outdir, files, i, a);
      CompleteFiles(c, dirpath, outdir, files, i + 1, a1);
      CountFields(a.dir, f);
    }
  }

  /** One round of the second loop without an interrupt: the file's step, then the rest of the loop. */
  lemma FilesStep(c: Ctx, dirpath: string, outdir: string, files: seq<Entry>, i: nat, a: Acc)
    requires c.sig == Never && i < |files|
    ensures var a1 := FileStep(c, dirpath, outdir, files[i].name, a);
      a1.dir == Count(a.dir, GetFile(c.o, Join(dirpath, files[i].name))) &&
      VisitFiles(c, dirpath, outdir, files, i, a) == VisitFiles(c, dirpath, outdir, files, i + 1, a1)
  {
  }

  /** Without an interrupt the second loop appends the fragment of every remaining file, in order. */
  lemma FilesPage(c: Ctx, dirpath: string, outdir: string, files: seq<Entry>, i: nat, a: Acc)
    requires c.sig == Never && i <= |files|
    ensures var p := VisitFiles(c, dirpath, outdir, files, i, a);
      p.Continue? && p.acc.html == a.html + FilesHtml(c.o, dirpath, files, i)
  {
    assert c.(sig := Never) == c;
    FilesAreLoop(c, Never, dirpath, outdir, files, i, a);
    HandleRenders(c, outdir);
    LoopPage(ClassifyOf(c.o, dirpath), HandleOf(c, outdir), FileHtml, files, i, a);
  }

  /** A step that appends `render` of the file it handles to the page. */
  ghost predicate Renders(handle: (File, Acc) -> Acc, render: File -> string) {
    forall f, a :: handle(f, a).html == a.html + render(f)
  }

  lemma HandleRenders(c: Ctx, outdir: string)
    ensures Renders(HandleOf(c, outdir), FileHtml)
  {
  }

  /** Without an interrupt, a loop whose step renders appends the rendering of every remaining file, in order. */
  lemma {:induction false} LoopPage(classify: string -> File, handle: (File, Acc) -> Acc, render: File -> string,
                                    files: seq<Entry>, i: nat, a: Acc)
    requires Renders(handle, render) && i <= |files|
    decreases |files| - i
    ensures var p := Loop(Never, Compose(classify, handle), files, i, a);
      p.Continue? && p.acc.html == a.html + Rendered(classify, render, files, i)
  {
    if i < |files| {
      var f := classify(files[i].name);
      var a1 := handle(f, a);
      assert Compose(classify, handle)(files[i].name, a) == a1;
      LoopPage(classify, handle, render, files, i + 1, a1);
      Append3(a.html, render(f), Rendered(classify, render, files, i + 1));
    }
  }

  lemma Append3(x: string, y: string, z: string)
    ensures (x + y) + z == x + (y + z)
  {
  }

  /** What counting one file changes in a summary. */
  lemma CountFields(d: Directory, f: File)
    requires f.kind == Image ==> f.thumbnail != ""
    ensures var d' := Count(d, f);
      d'.images == d.images + (if f.kind == Image then 1 else 0) &&
      d'.videos == d.videos + (if f.kind == Video then 1 else 0) &&
      d'.thumbnail == (if d.thumbnail != "" || f.kind != Image then d.thumbnail else Join(d.name, f.thumbnail)) &&
      FilesLoopFrame(d, d') && (f.kind == Image ==> d'.thumbnail != "")
  {
  }

  /** The fields the second loop leaves alone. */
  predicate FilesLoopFrame(d: Directory, d': Directory) {
    d'.name == d.name && d'.subThumbnail == d.subThumbnail && d'.directories == d.directories &&
    d'.subImages == d.subImages && d'.subVideos == d.subVideos
  }

  // ---- any walk ----

  /** One trace continues another: nothing launched, written or read is undone. */
  predicate Extends(t: Trace, t': Trace) {
    t.launched <= t'.launched && t.pages <= t'.pages && t.checks <= t'.checks
  }

  /** A file system on which no creation, listing or write fails. */
  predicate NoFailures(env: Env) {
    env.mkdirFails == {} && env.listFails == {} && env.writeFails == {}
  }

  /**
   * Whatever the interrupt and the file system do: the effects only grow;
   * subThumbnail stays ""; a successful walk names the summary after the
   * directory; an error comes with the zero summary unless it is the failure
   * to write this directory's own index.html; and on a file system that does
   * not fail, walking a directory does not fail.
   */
  lemma {:induction false} WalkShape(c: Ctx, dirpath: string, outdir: string, e: Entry, t: Trace)
    decreases e, 1
    ensures var out := Visit(c, dirpath, outdir, e, t);
      Extends(t, out.trace) &&
      out.dir.subThumbnail == "" &&
      (out.err.None? ==> out.dir.name == Base(dirpath)) &&
      (out.err.Some? ==> out.dir == ZeroDirectory || out.err == Some(WriteFailed(Join(outdir, "index.html")))) &&
      (NoFailures(c.env) && e.DirE? ==> out.err.None?)
  {
    if outdir !in c.env.mkdirFails && e.DirE? && dirpath !in c.env.listFails {
      var start := Acc(ZeroDirectory.(name := Base(dirpath)), "", t);
      DirsShape(c, dirpath, outdir, e, 0, start);
      var p := VisitDirs(c, dirpath, outdir, e, 0, start);
      if p.Stop? {
        assert Visit(c, dirpath, outdir, e, t) == Outcome(p.dir, p.err, p.trace);
      } else {
        var files := FilesOf(e.children);
        FilesShape(c, dirpath, outdir, files, 0, p.acc);
        var q := VisitFiles(c, dirpath, outdir, files, 0, p.acc);
        if q.Stop? {
          assert Visit(c, dirpath, outdir, e, t) == Outcome(q.dir, q.err, q.trace);
        } else {
          assert Visit(c, dirpath, outdir, e, t) == Finish(c, outdir, q.acc);
        }
      }
    }
  }

  /** Loop invariant of both loops: the summary is named after the directory and has no subThumbnail. */
  predicate Named(dirpath: string, d: Directory) {
    d.name == Base(dirpath) && d.subThumbnail == ""
  }

  /** The last read of the flag in `t` saw it raised. */
  predicate LastReadRaised(sig: Signal, t: Trace) {
    t.checks >= 1 && Raised(sig, t.checks - 1)
  }

  /**
   * The first loop keeps the summary named. It stops without an error only
   * when the flag read it just made was raised; it stops with an error only
   * when some file-system operation failed, and then returns the zero summary.
   */
  lemma {:induction false} DirsShape(c: Ctx, dirpath: string, outdir: string, e: Entry, i: nat, a: Acc)
    requires e.DirE? && i <= |DirsOf(e.children)| && Named(dirpath, a.dir)
    decreases e, 0, |DirsOf(e.children)| - i
    ensures match VisitDirs(c, dirpath, outdir, e, i, a)
      case Stop(d, err, t') =>
        Extends(a.trace, t') && d.subThumbnail == "" &&
        (err.None? ==> Named(dirpath, d) && LastReadRaised(c.sig, t')) &&
        (err.Some? ==> d == ZeroDirectory && !NoFailures(c.env))
      case Continue(a') => Extends(a.trace, a'.trace) && Named(dirpath, a'.dir)
  {
    var dirs := DirsOf(e.children);
    if i < |dirs| {
      DirsOfMember(e.children, i);
      var child := dirs[i];
      WalkShape(c, Join(dirpath, child.name), Join(outdir, child.name), child, Tick(a.trace));
      match DirStep(c, dirpath, outdir, child, a)
      case Stop(_, _, _) =>
      case Continue(a1) =>
        DirsShape(c, dirpath, outdir, e, i + 1, a1);
    }
  }

  /**
   * The second loop keeps the summary named, writes no page and never fails;
   * it stops only when the flag read after a file was raised.
   */
  lemma {:induction false} FilesShape(c: Ctx, dirpath: string, outdir: string, files: seq<Entry>, i: nat, a: Acc)
    requires i <= |files| && Named(dirpath, a.dir)
    decreases |files| - i
    ensures match VisitFiles(c, dirpath, outdir, files, i, a)
      case Stop(d, err, t') =>
        err.None? && Extends(a.trace, t') && t'.pages == a.trace.pages && Named(dirpath, d) && LastReadRaised(c.sig, t')
      case Continue(a') => Extends(a.trace, a'.trace) && a'.trace.pages == a.trace.pages && Named(dirpath, a'.dir)
  {
    if i < |files| {
      var a1 := FileStep(c, dirpath, outdir, files[i].name, a);
      FilesShape(c, dirpath, outdir, files, i + 1, a1);
    }
  }

  // ---- interrupted loops ----

  /** The first loop run from the `i`-th subdirectory up to, but not including, the `k`-th. */
  function DirsUpTo(c: Ctx, dirpath: string, outdir: string, e: Entry, i: nat, k: nat, a: Acc): Progress
    requires e.DirE? && i <= k <= |DirsOf(e.children)|
  {
    Rounds(DirStepOf(c, dirpath, outdir), DirsOf(e.children), i, k, a)
  }

  /** A run of the first loop up to the `k`-th subdirectory that does not stop is followed by the rest of the loop. */
  lemma DirsSplit(c: Ctx, dirpath: string, outdir: string, e: Entry, i: nat, k: nat, a: Acc, b: Acc)
    requires e.DirE? && i <= k <= |DirsOf(e.children)|
    requires DirsUpTo(c, dirpath, outdir, e, i, k, a) == Continue(b)
    ensures VisitDirs(c, dirpath, outdir, e, i, a) == VisitDirs(c, dirpath, outdir, e, k, b)
  {
    var step, dirs := DirStepOf(c, dirpath, outdir), DirsOf(e.children);
    DirsAreRounds(c, dirpath, outdir, e, i, a);
    DirsAreRounds(c, dirpath, outdir, e, k, b);
    RoundsSplit(step, dirs, i, k, a, b);
  }

  /** A step of the first loop as a value. */
  function DirStepOf(c: Ctx, dirpath: string, outdir: string): (Entry, Acc) -> Progress {
    (child, a) => DirStep(c, dirpath, outdir, child, a)
  }

  /**
   * A loop that applies `step` to the entries of `dirs` from the `i`-th up to,
   * but not including, the `k`-th, and ends at the first stop: the shape of
   * readDir's first loop, with the step left open.
   */
  function Rounds(step: (Entry, Acc) -> Progress, dirs: seq<Entry>, i: nat, k: nat, a: Acc): Progress
    requires i <= k <= |dirs|
    decreases k - i
  {
    if i == k then Continue(a)
    else
      match step(dirs[i], a)
      case Stop(d, err, t) => Stop(d, err, t)
      case Continue(a') => Rounds(step, dirs, i + 1, k, a')
  }

  /** The first loop is rounds of its step over all the subdirectories. */
  lemma {:induction false} DirsAreRounds(c: Ctx, dirpath: string, outdir: string, e: Entry, i: nat, a: Acc)
    requires e.DirE? && i <= |DirsOf(e.children)|
    decreases |DirsOf(e.children)| - i
    ensures VisitDirs(c, dirpath, outdir, e, i, a) ==
      Rounds(DirStepOf(c, dirpath, outdir), DirsOf(e.children), i, |DirsOf(e.children)|, a)
  {
    if i < |DirsOf(e.children)| {
      DirsStep(c, dirpath, outdir, e, i, a);
      var step := DirStep(c, dirpath, outdir, DirsOf(e.children)[i], a);
      assert DirStepOf(c, dirpath, outdir)(DirsOf(e.children)[i], a) == step;
      if step.Continue? {
        DirsAreRounds(c, dirpath, outdir, e, i + 1, step.acc);
      }
    }
  }

  /** Rounds that reach the `k`-th entry without a stop are followed by the rounds from there. */
  lemma {:induction false} RoundsSplit(step: (Entry, Acc) -> Progress, dirs: seq<Entry>, i: nat, k: nat, a: Acc, b: Acc)
    requires i <= k <= |dirs| && Rounds(step, dirs, i, k, a) == Continue(b)
    decreases k - i
    ensures Rounds(step, dirs, i, |dirs|, a) == Rounds(step, dirs, k, |dirs|, b)
  {
    if i < k {
      RoundsSplit(step, dirs, i + 1, k, step(dirs[i], a).acc, b);
    }
  }

  /** Each completed round of the first loop counts one more subdirectory and leaves the file fields alone. */
  lemma {:induction false} DirsUpToCounts(c: Ctx, dirpath: string, outdir: string, e: Entry, i: nat, k: nat, a: Acc)
    requires e.DirE? && i <= k <= |DirsOf(e.children)|
    decreases k - i
    ensures var p := DirsUpTo(c, dirpath, outdir, e, i, k, a);
      p.Continue? ==> p.acc.dir.directories == a.dir.directories + (k - i) && DirsLoopFrame(a.dir, p.acc.dir)
  {
    if i < k {
      var step := DirStep(c, dirpath, outdir, DirsOf(e.children)[i], a);
      if step.Continue? {
        DirsUpToCounts(c, dirpath, outdir, e, i + 1, k, step.acc);
      }
    }
  }

  /**
   * When the flag stops the first loop, it returns the summary built over the
   * subdirectories before the `k`-th, whose flag read was the first to see the
   * interrupt, together with that read; a loop that runs to the end is its run
   * over all the subdirectories.
   */
  lemma {:induction false} InterruptedDirs(c: Ctx, dirpath: string, outdir: string, e: Entry, i: nat, a: Acc)
    requires e.DirE? && i <= |DirsOf(e.children)|
    decreases |DirsOf(e.children)| - i
    ensures match VisitDirs(c, dirpath, outdir, e, i, a)
      case Stop(d, err, t') =>
        err.None? ==>
          exists k :: i <= k < |DirsOf(e.children)| &&
            var p := DirsUpTo(c, dirpath, outdir, e, i, k, a);
            p.Continue? && Raised(c.sig, p.acc.trace.checks) && d == p.acc.dir && t' == Tick(p.acc.trace)
      case Continue(a') => DirsUpTo(c, dirpath, outdir, e, i, |DirsOf(e.children)|, a) == Continue(a')
  {
    var dirs := DirsOf(e.children);
    if i < |dirs| {
      DirsStep(c, dirpath, outdir, e, i, a);
      var step := DirStep(c, dirpath, outdir, dirs[i], a);
      if Raised(c.sig, a.trace.checks) {
        assert DirsUpTo(c, dirpath, outdir, e, i, i, a) == Continue(a);
      } else if step.Continue? {
        InterruptedDirs(c, dirpath, outdir, e, i + 1, step.acc);
        match VisitDirs(c, dirpath, outdir, e, i + 1, step.acc)
        case Stop(d, err, t') =>
          if err.None? {
            var k :| i + 1 <= k < |dirs| &&
              var p := DirsUpTo(c, dirpath, outdir, e, i + 1, k, step.acc);
              p.Continue? && Raised(c.sig, p.acc.trace.checks) && d == p.acc.dir && t' == Tick(p.acc.trace);
            assert DirsUpTo(c, dirpath, outdir, e, i, k, a) == DirsUpTo(c, dirpath, outdir, e, i + 1, k, step.acc);
          }
        case Continue(_) =>
      }
    }
  }

  /**
   * When the flag stops the second loop, it does so exactly when one of its
   * reads falls at or after the signal, after the file `j` whose read was the
   * first to see it, and the loop without an interrupt over the files up to
   * that one returns the same summary and effects. A loop that runs to the end
   * is the loop without an interrupt.
   */
  lemma InterruptedFiles(c: Ctx, dirpath: string, outdir: string, files: seq<Entry>, i: nat, a: Acc)
    requires i <= |files|
    ensures var p := VisitFiles(c, dirpath, outdir, files, i, a);
      (p.Stop? <==> i < |files| && c.sig.AtCheck? && c.sig.n < a.trace.checks + (|files| - i)) &&
      (p.Continue? ==> p == VisitFiles(c.(sig := Never), dirpath, outdir, files, i, a)) &&
      (p.Stop? ==>
        c.sig.AtCheck? && LastFileRead(c.sig, a.trace.checks, i) < |files| &&
        var j := LastFileRead(c.sig, a.trace.checks, i);
        var q := VisitFiles(c.(sig := Never), dirpath, outdir, files[..j + 1], i, a);
        q.Continue? && p == Stop(q.acc.dir, None, q.acc.trace) && p.trace.checks == a.trace.checks + (j - i) + 1)
  {
    FilesStopWhen(c, dirpath, outdir, files, i, a);
    FilesStopAfter(c, dirpath, outdir, files, i, a);
  }

  /** The first half of `InterruptedFiles`, proved apart to keep each proof small. */
  lemma FilesStopWhen(c: Ctx, dirpath: string, outdir: string, files: seq<Entry>, i: nat, a: Acc)
    requires i <= |files|
    ensures var p := VisitFiles(c, dirpath, outdir, files, i, a);
      (p.Stop? <==> i < |files| && c.sig.AtCheck? && c.sig.n < a.trace.checks + (|files| - i)) &&
      (p.Continue? ==> p == VisitFiles(c.(sig := Never), dirpath, outdir, files, i, a))
  {
    StepOfTicks(c, dirpath, outdir);
    assert c.(sig := c.sig) == c;
    FilesAreLoop(c, c.sig, dirpath, outdir, files, i, a);
    FilesAreLoop(c, Never, dirpath, outdir, files, i, a);
    LoopStopIndex(c.sig, StepOf(c, dirpath, outdir), files, i, a);
  }

  /** The second half of `InterruptedFiles`, proved apart to keep each proof small. */
  lemma FilesStopAfter(c: Ctx, dirpath: string, outdir: string, files: seq<Entry>, i: nat, a: Acc)
    requires i <= |files|
    ensures var p := VisitFiles(c, dirpath, outdir, files, i, a);
      p.Stop? ==>
        c.sig.AtCheck? && LastFileRead(c.sig, a.trace.checks, i) < |files| &&
        var j := LastFileRead(c.sig, a.trace.checks, i);
        var q := VisitFiles(c.(sig := Never), dirpath, outdir, files[..j + 1], i, a);
        q.Continue? && p == Stop(q.acc.dir, None, q.acc.trace) && p.trace.checks == a.trace.checks + (j - i) + 1
  {
    StepOfTicks(c, dirpath, outdir);
    assert c.(sig := c.sig) == c;
    FilesAreLoop(c, c.sig, dirpath, outdir, files, i, a);
    LoopStopIndex(c.sig, StepOf(c, dirpath, outdir), files, i, a);
    if c.sig.AtCheck? && LastFileRead(c.sig, a.trace.checks, i) < |files| {
      var j := LastFileRead(c.sig, a.trace.checks, i);
      FilesAreLoop(c, Never, dirpath, outdir, files[..j + 1], i, a);
      LoopStopPrefix(c.sig, StepOf(c, dirpath, outdir), files, files[..j + 1], i, j, a);
    }
  }

  /**
   * The file after which the second loop, started at file `i` with `k` reads
   * already made, makes the first read that sees the interrupt.
   */
  function LastFileRead(sig: Signal, k: nat, i: nat): nat
    requires sig.AtCheck?
  {
    if sig.n <= k then i else i + (sig.n - k)
  }

  /**
   * A loop that applies `step` to each name of `files` from the `i`-th on and
   * reads the flag after each: the shape of readDir's second loop, with the
   * step left open.
   */
  function Loop(sig: Signal, step: (string, Acc) -> Acc, files: seq<Entry>, i: nat, a: Acc): Progress
    requires i <= |files|
    decreases |files| - i
  {
    if i == |files| then Continue(a)
    else
      var a' := step(files[i].name, a);
      if Raised(sig, a.trace.checks) then Stop(a'.dir, None, a'.trace)
      else Loop(sig, step, files, i + 1, a')
  }

  /** A step that reads the flag once. */
  ghost predicate Ticks(step: (string, Acc) -> Acc) {
    forall name, a :: step(name, a).trace.checks == a.trace.checks + 1
  }

  /** The step of readDir's second loop. */
  function StepOf(c: Ctx, dirpath: string, outdir: string): (string, Acc) -> Acc {
    Compose(ClassifyOf(c.o, dirpath), HandleOf(c, outdir))
  }

  /** Classify a name, then handle the file. */
  function Compose(classify: string -> File, handle: (File, Acc) -> Acc): (string, Acc) -> Acc {
    (name, a) => handle(classify(name), a)
  }

  /** readDir's handling of a classified file. */
  function HandleOf(c: Ctx, outdir: string): (File, Acc) -> Acc {
    (f, a) => HandleFile(c, outdir, f, a)
  }

  lemma StepOfTicks(c: Ctx, dirpath: string, outdir: string)
    ensures Ticks(StepOf(c, dirpath, outdir))
  {
  }

  /** readDir's second loop, under any flag, is the loop with its file step. */
  lemma {:induction false} FilesAreLoop(c: Ctx, sig: Signal, dirpath: string, outdir: string, files: seq<Entry>, i: nat, a: Acc)
    requires i <= |files|
    decreases |files| - i
    ensures VisitFiles(c.(sig := sig), dirpath, outdir, files, i, a) == Loop(sig, StepOf(c, dirpath, outdir), files, i, a)
  {
    if i < |files| {
      var a1 := StepOf(c, dirpath, outdir)(files[i].name, a);
      FilesRound(c, sig, dirpath, outdir, files, i, a);
      FilesAreLoop(c, sig, dirpath, outdir, files, i + 1, a1);
    }
  }

  /** One round of readDir's second loop, with the generic loop's step. */
  lemma FilesRound(c: Ctx, sig: Signal, dirpath: string, outdir: string, files: seq<Entry>, i: nat, a: Acc)
    requires i < |files|
    ensures var a1 := StepOf(c, dirpath, outdir)(files[i].name, a);
      VisitFiles(c.(sig := sig), dirpath, outdir, files, i, a) ==
        if Raised(sig, a.trace.checks) then Stop(a1.dir, None, a1.trace)
        else VisitFiles(c.(sig := sig), dirpath, outdir, files, i + 1, a1)
  {
    StepOfIs(c, sig, dirpath, outdir, files[i].name, a);
  }

  /** The step of the generic loop is readDir's file step, under any flag. */
  lemma StepOfIs(c: Ctx, sig: Signal, dirpath: string, outdir: string, name: string, a: Acc)
    ensures StepOf(c, dirpath, outdir)(name, a) == FileStep(c.(sig := sig), dirpath, outdir, name, a)
  {
    FileStepIgnoresFlag(c, sig, dirpath, outdir, name, a);
  }

  /** A file's step does not look at the flag. */
  lemma FileStepIgnoresFlag(c: Ctx, sig: Signal, dirpath: string, outdir: string, name: string, a: Acc)
    ensures FileStep(c.(sig := sig), dirpath, outdir, name, a) == FileStep(c, dirpath, outdir, name, a)
  {
  }

  /** `FilesStopWhen` for the generic loop, where the induction is cheap. */
  lemma {:induction false} LoopStopIndex(sig: Signal, step: (string, Acc) -> Acc, files: seq<Entry>, i: nat, a: Acc)
    requires i <= |files| && Ticks(step)
    decreases |files| - i
    ensures var p := Loop(sig, step, files, i, a);
      (p.Stop? <==> i < |files| && sig.AtCheck? && sig.n < a.trace.checks + (|files| - i)) &&
      (p.Continue? ==> p == Loop(Never, step, files, i, a))
  {
    if i < |files| && !Raised(sig, a.trace.checks) {
      LoopStopIndex(sig, step, files, i + 1, step(files[i].name, a));
    }
  }

  /** `FilesStopAfter` for the generic loop, where the induction is cheap. */
  lemma {:induction false} LoopStopPrefix(sig: Signal, step: (string, Acc) -> Acc, files: seq<Entry>, prefix: seq<Entry>,
                                          i: nat, j: nat, a: Acc)
    requires i <= j < |files| && prefix == files[..j + 1] && Ticks(step)
    requires sig.AtCheck? && j == LastFileRead(sig, a.trace.checks, i)
    decreases j - i
    ensures var q := Loop(Never, step, prefix, i, a);
      q.Continue? && Loop(sig, step, files, i, a) == Stop(q.acc.dir, None, q.acc.trace) &&
      q.acc.trace.checks == a.trace.checks + (j - i) + 1
  {
    var a1 := step(files[i].name, a);
    assert prefix[i] == files[i];
    if j > i {
      LoopStopPrefix(sig, step, files, prefix, i + 1, j, a1);
    }
  }

  /**
   * The counts an interrupted second loop returns: the images and videos
   * among the files up to the one whose flag read saw the interrupt, and the
   * first image among them as the thumbnail.
   */
  lemma InterruptedFilesCount(c: Ctx, dirpath: string, outdir: string, files: seq<Entry>, i: nat, a: Acc)
    requires i <= |files|
    ensures var p := VisitFiles(c, dirpath, outdir, files, i, a);
      p.Stop? ==>
        c.sig.AtCheck? &&
        LastFileRead(c.sig, a.trace.checks, i) < |files| &&
        var j := LastFileRead(c.sig, a.trace.checks, i);
        p.dir.images == a.dir.images + CountFrom(c.o, dirpath, files[..j + 1], i, Image) &&
        p.dir.videos == a.dir.videos + CountFrom(c.o, dirpath, files[..j + 1], i, Video) &&
        p.dir.thumbnail == (if a.dir.thumbnail != "" then a.dir.thumbnail
                            else FirstThumbnail(c.o, dirpath, a.dir.name, files[..j + 1], i)) &&
        FilesLoopFrame(a.dir, p.dir)
  {
    InterruptedFiles(c, dirpath, outdir, files, i, a);
    var p := VisitFiles(c, dirpath, outdir, files, i, a);
    if p.Stop? {
      var j := LastFileRead(c.sig, a.trace.checks, i);
      CompleteFiles(c.(sig := Never), dirpath, outdir, files[..j + 1], i, a);
    }
  }

  // ---- the pages a walk writes ----

  /** Every entry below `e` has a non-empty name, as every entry os.ReadDir lists does. */
  predicate NamedTree(e: Entry)
    decreases e
  {
    e.DirE? ==> forall x | x in e.children :: x.name != [] && NamedTree(x)
  }

  /** `pages` continues `base`, and every page written after it has a path longer than `n`. */
  predicate LongerAfter(base: seq<Page>, pages: seq<Page>, n: int) {
    base <= pages && forall k | |base| <= k < |pages| :: |pages[k].path| > n
  }

  /** A subdirectory's index.html has a longer path than its parent's. */
  lemma IndexDeeper(outdir: string, name: string)
    requires name != []
    ensures |Join(Join(outdir, name), "index.html")| > |Join(outdir, "index.html")|
  {
  }

  /** No page a walk writes has a path shorter than the walk's own index.html. */
  lemma {:induction false} WalkPages(c: Ctx, dirpath: string, outdir: string, e: Entry, t: Trace)
    requires NamedTree(e)
    decreases e, 1
    ensures LongerAfter(t.pages, Visit(c, dirpath, outdir, e, t).trace.pages, |Join(outdir, "index.html")| - 1)
  {
    if Walkable(c, dirpath, outdir, e) {
      var start := Acc(ZeroDirectory.(name := Base(dirpath)), "", t);
      var n := |Join(outdir, "index.html")|;
      DirsShape(c, dirpath, outdir, e, 0, start);
      DirsPages(c, dirpath, outdir, e, 0, start);
      VisitSteps(c, dirpath, outdir, e, t);
      var p := VisitDirs(c, dirpath, outdir, e, 0, start);
      if p.Continue? {
        LongerAfterWeaken(t.pages, p.acc.trace.pages, n, n - 1);
        FilesShape(c, dirpath, outdir, FilesOf(e.children), 0, p.acc);
        var q := VisitFiles(c, dirpath, outdir, FilesOf(e.children), 0, p.acc);
        if q.Continue? {
          FinishLonger(c, outdir, q.acc, t.pages);
        }
      } else {
        LongerAfterWeaken(t.pages, p.trace.pages, n, n - 1);
      }
    }
  }

  lemma LongerAfterWeaken(base: seq<Page>, pages: seq<Page>, n: int, m: int)
    requires LongerAfter(base, pages, n) && m <= n
    ensures LongerAfter(base, pages, m)
  {
  }

  /** Writing index.html adds a page exactly as long as its own path. */
  lemma FinishLonger(c: Ctx, outdir: string, a: Acc, base: seq<Page>)
    requires LongerAfter(base, a.trace.pages, |Join(outdir, "index.html")| - 1)
    ensures LongerAfter(base, Finish(c, outdir, a).trace.pages, |Join(outdir, "index.html")| - 1)
  {
  }

  /** Every page the first loop writes belongs to a subdirectory, so lies deeper than the directory's own index.html. */
  lemma {:induction false} DirsPages(c: Ctx, dirpath: string, outdir: string, e: Entry, i: nat, a: Acc)
    requires e.DirE? && i <= |DirsOf(e.children)| && NamedTree(e)
    decreases e, 0, |DirsOf(e.children)| - i
    ensures match VisitDirs(c, dirpath, outdir, e, i, a)
      case Stop(_, _, t') => LongerAfter(a.trace.pages, t'.pages, |Join(outdir, "index.html")|)
      case Continue(a') => LongerAfter(a.trace.pages, a'.trace.pages, |Join(outdir, "index.html")|)
  {
    var dirs := DirsOf(e.children);
    if i < |dirs| {
      DirsOfMember(e.children, i);
      var child := dirs[i];
      WalkPages(c, Join(dirpath, child.name), Join(outdir, child.name), child, Tick(a.trace));
      IndexDeeper(outdir, child.name);
      match DirStep(c, dirpath, outdir, child, a)
      case Stop(_, _, _) =>
      case Continue(a1) =>
        DirsPages(c, dirpath, outdir, e, i + 1, a1);
    }
  }

  /** readDir ends in one of its own two loops, on a flag read that saw the interrupt. */
  predicate StoppedOnFlag(c: Ctx, dirpath: string, outdir: string, e: Entry, t: Trace) {
    Walkable(c, dirpath, outdir, e) &&
    var p := VisitDirs(c, dirpath, outdir, e, 0, Acc(ZeroDirectory.(name := Base(dirpath)), "", t));
    (p.Stop? && p.err.None?) || (p.Continue? && VisitFiles(c, dirpath, outdir, FilesOf(e.children), 0, p.acc).Stop?)
  }

  /**
   * A walk that its own flag read stops returns without error, having seen
   * the interrupt on its last read, and writes no page at its own
   * index.html. Any other walk that returns without error writes that page,
   * and writes it last. No earlier page of a walk is at its own index.html.
   */
  lemma OwnPage(c: Ctx, dirpath: string, outdir: string, e: Entry, t: Trace)
    requires NamedTree(e)
    ensures var out := Visit(c, dirpath, outdir, e, t);
      var own := Join(outdir, "index.html");
      (StoppedOnFlag(c, dirpath, outdir, e, t) ==>
        out.err.None? && LastReadRaised(c.sig, out.trace) &&
        forall k | |t.pages| <= k < |out.trace.pages| :: out.trace.pages[k].path != own) &&
      (out.err.None? && !StoppedOnFlag(c, dirpath, outdir, e, t) ==>
        |out.trace.pages| > |t.pages| && out.trace.pages[|out.trace.pages| - 1].path == own) &&
      forall k | |t.pages| <= k < |out.trace.pages| - 1 :: out.trace.pages[k].path != own
  {
    if Walkable(c, dirpath, outdir, e) {
      var start := Acc(ZeroDirectory.(name := Base(dirpath)), "", t);
      DirsShape(c, dirpath, outdir, e, 0, start);
      DirsPages(c, dirpath, outdir, e, 0, start);
      var p := VisitDirs(c, dirpath, outdir, e, 0, start);
      if p.Stop? {
        assert Visit(c, dirpath, outdir, e, t) == Outcome(p.dir, p.err, p.trace);
      } else {
        var files := FilesOf(e.children);
        FilesShape(c, dirpath, outdir, files, 0, p.acc);
        var q := VisitFiles(c, dirpath, outdir, files, 0, p.acc);
        if q.Stop? {
          assert Visit(c, dirpath, outdir, e, t) == Outcome(q.dir, q.err, q.trace);
        } else {
          assert Visit(c, dirpath, outdir, e, t) == Finish(c, outdir, q.acc);
        }
      }
    }
  }

  // ---- interruption ----

  /** A readable directory at a creatable output path. */
  predicate Walkable(c: Ctx, dirpath: string, outdir: string, e: Entry) {
    outdir !in c.env.mkdirFails && e.DirE? && dirpath !in c.env.listFails
  }

  /**
   * With the flag already raised and a subdirectory to visit, readDir returns
   * at once: the named but empty summary, no error, nothing launched and no
   * index.html.
   */
  lemma InterruptedBeforeSubdirectory(c: Ctx, dirpath: string, outdir: string, e: Entry, t: Trace)
    requires Raised(c.sig, t.checks) && Walkable(c, dirpath, outdir, e)
    requires DirsOf(e.children) != []
    ensures Visit(c, dirpath, outdir, e, t) == Outcome(ZeroDirectory.(name := Base(dirpath)), None, Tick(t))
  {
    var start := Acc(ZeroDirectory.(name := Base(dirpath)), "", t);
    DirsOfMember(e.children, 0);
    assert VisitDirs(c, dirpath, outdir, e, 0, start) == Stop(start.dir, None, Tick(t));
  }

  /**
   * With the flag already raised and only files to handle, readDir still
   * handles the first file (its conversions are launched and it is counted)
   * and then returns without writing index.html.
   */
  lemma InterruptedAfterFile(c: Ctx, dirpath: string, outdir: string, e: Entry, t: Trace)
    requires Raised(c.sig, t.checks) && Walkable(c, dirpath, outdir, e)
    requires DirsOf(e.children) == [] && FilesOf(e.children) != []
    ensures var f := GetFile(c.o, Join(dirpath, FilesOf(e.children)[0].name));
      Visit(c, dirpath, outdir, e, t) ==
        Outcome(Count(ZeroDirectory.(name := Base(dirpath)), f), None,
                Trace(t.launched + Plan(c.s, outdir, f, c.env.existing), t.pages, t.checks + 1))
  {
    var start := Acc(ZeroDirectory.(name := Base(dirpath)), "", t);
    var files := FilesOf(e.children);
    assert VisitDirs(c, dirpath, outdir, e, 0, start) == Continue(start);
    var f := GetFile(c.o, Join(dirpath, files[0].name));
    FilesStopAtFirst(c, dirpath, outdir, files, start);
    var a1 := FileStep(c, dirpath, outdir, files[0].name, start);
    assert Visit(c, dirpath, outdir, e, t) == Outcome(a1.dir, None, a1.trace);
    assert a1.dir == Count(start.dir, f);
    assert a1.trace == Trace(t.launched + Plan(c.s, outdir, f, c.env.existing), t.pages, t.checks + 1);
  }

  /** An interrupt raised before the second loop stops it after its first file. */
  lemma FilesStopAtFirst(c: Ctx, dirpath: string, outdir: string, files: seq<Entry>, a: Acc)
    requires Raised(c.sig, a.trace.checks) && files != []
    ensures var a1 := FileStep(c, dirpath, outdir, files[0].name, a);
      VisitFiles(c, dirpath, outdir, files, 0, a) == Stop(a1.dir, None, a1.trace)
  {
  }

  /** The flag is not read in an empty directory: its index.html is written even after an interrupt. */
  lemma EmptyDirectoryIgnoresFlag(c: Ctx, dirpath: string, outdir: string, e: Entry, t: Trace)
    requires Walkable(c, dirpath, outdir, e) && e.children == []
    requires Join(outdir, "index.html") !in c.env.writeFails
    ensures Visit(c, dirpath, outdir, e, t) ==
      Outcome(ZeroDirectory.(name := Base(dirpath)), None,
              Trace(t.launched, t.pages + [Page(Join(outdir, "index.html"), "")], t.checks))
  {
    var start := Acc(ZeroDirectory.(name := Base(dirpath)), "", t);
    assert DirsOf(e.children) == [] && FilesOf(e.children) == [];
    assert VisitDirs(c, dirpath, outdir, e, 0, start) == Continue(start);
    assert VisitFiles(c, dirpath, outdir, [], 0, start) == Continue(start);
  }

  /** A one-entry listing is a directory list or a file list of that entry. */
  lemma SingleEntry(x: Entry)
    ensures DirsOf([x]) == (if x.DirE? then [x] else [])
    ensures FilesOf([x]) == (if x.FileE? then [x] else [])
  {
    assert [x][..0] == [];
  }

  /**
   * A directory with no entries besides its subdirectories has no flag read
   * left once the first loop has reached the last subdirectory without
   * seeing the interrupt and that subdirectory's walk has returned without
   * error: it counts the subdirectory and writes its own index.html, holding
   * the links the loop had collected (`a.html`) followed by that
   * subdirectory's link, whatever the walk below saw.
   */
  lemma ParentWritesAfterLastChild(c: Ctx, dirpath: string, outdir: string, e: Entry, t: Trace, a: Acc)
    requires Walkable(c, dirpath, outdir, e) && FilesOf(e.children) == [] && |DirsOf(e.children)| >= 1
    requires DirsUpTo(c, dirpath, outdir, e, 0, |DirsOf(e.children)| - 1, Acc(ZeroDirectory.(name := Base(dirpath)), "", t)) == Continue(a)
    requires !Raised(c.sig, a.trace.checks)
    requires Join(outdir, "index.html") !in c.env.writeFails
    ensures var child := DirsOf(e.children)[|DirsOf(e.children)| - 1];
      var sub := Visit(c, Join(dirpath, child.name), Join(outdir, child.name), child, Tick(a.trace));
      sub.err.None? ==>
        var out := Visit(c, dirpath, outdir, e, t);
        out.err.None? && out.dir == AddChild(a.dir, sub.dir) && out.trace.checks == sub.trace.checks &&
        out.trace.pages == sub.trace.pages + [Page(Join(outdir, "index.html"), a.html + DirectoryHtml(sub.dir))]
  {
    var m := |DirsOf(e.children)| - 1;
    var child := DirsOf(e.children)[m];
    var sub := Visit(c, Join(dirpath, child.name), Join(outdir, child.name), child, Tick(a.trace));
    if sub.err.None? {
      var start := Acc(ZeroDirectory.(name := Base(dirpath)), "", t);
      DirsSplit(c, dirpath, outdir, e, 0, m, start, a);
      var a1 := Acc(AddChild(a.dir, sub.dir), a.html + DirectoryHtml(sub.dir), sub.trace);
      assert DirStep(c, dirpath, outdir, child, a) == Continue(a1);
      DirsStep(c, dirpath, outdir, e, m, a);
      assert VisitDirs(c, dirpath, outdir, e, 0, start) == Continue(a1);
      assert VisitFiles(c, dirpath, outdir, FilesOf(e.children), 0, a1) == Continue(a1);
      VisitSteps(c, dirpath, outdir, e, t);
    }
  }

  /**
   * readDir gives up before reading anything when it cannot create the
   * output directory, and otherwise when the entry cannot be listed as a
   * directory: an empty summary, the error, no effects.
   */
  lemma SetupFails(c: Ctx, dirpath: string, outdir: string, e: Entry, t: Trace)
    ensures outdir in c.env.mkdirFails ==>
      Visit(c, dirpath, outdir, e, t) == Outcome(ZeroDirectory, Some(MkdirFailed(outdir)), t)
    ensures outdir !in c.env.mkdirFails && (e.FileE? || dirpath in c.env.listFails) ==>
      Visit(c, dirpath, outdir, e, t) == Outcome(ZeroDirectory, Some(ListFailed(dirpath)), t)
  {
  }

  /**
   * An error below stops the whole walk: when the first loop reaches the
   * `k`-th subdirectory without seeing the interrupt and that
   * subdirectory's walk fails, readDir returns an empty summary, that error
   * and the effects so far, whatever entries remain.
   */
  lemma ChildErrorStops(c: Ctx, dirpath: string, outdir: string, e: Entry, t: Trace, k: nat, a: Acc)
    requires Walkable(c, dirpath, outdir, e) && k < |DirsOf(e.children)|
    requires DirsUpTo(c, dirpath, outdir, e, 0, k, Acc(ZeroDirectory.(name := Base(dirpath)), "", t)) == Continue(a)
    requires !Raised(c.sig, a.trace.checks)
    ensures var child := DirsOf(e.children)[k];
      var sub := Visit(c, Join(dirpath, child.name), Join(outdir, child.name), child, Tick(a.trace));
      sub.err.Some? ==> Visit(c, dirpath, outdir, e, t) == Outcome(ZeroDirectory, sub.err, sub.trace)
  {
    var child := DirsOf(e.children)[k];
    var sub := Visit(c, Join(dirpath, child.name), Join(outdir, child.name), child, Tick(a.trace));
    if sub.err.Some? {
      var start := Acc(ZeroDirectory.(name := Base(dirpath)), "", t);
      DirsSplit(c, dirpath, outdir, e, 0, k, start, a);
      DirStepVisits(c, dirpath, outdir, child, a, sub);
      DirsStep(c, dirpath, outdir, e, k, a);
      VisitSteps(c, dirpath, outdir, e, t);
    }
  }

  /**
   * The interrupt does not stop the ancestors: a directory holding only a
   * subdirectory with one file, with the signal arriving after the parent's
   * flag read, sees the walk below convert that file and stop on its flag
   * read, and then writes its own index.html without error.
   */
  lemma InterruptBelowStillWritesParent(c: Ctx, dirpath: string, outdir: string, e: Entry, t: Trace)
    requires Walkable(c, dirpath, outdir, e) && |e.children| == 1
    requires e.children[0].DirE? && |e.children[0].children| == 1 && e.children[0].children[0].FileE?
    requires Walkable(c, Join(dirpath, e.children[0].name), Join(outdir, e.children[0].name), e.children[0])
    requires c.sig == AtCheck(t.checks + 1)
    requires Join(outdir, "index.html") !in c.env.writeFails
    ensures var out := Visit(c, dirpath, outdir, e, t);
      out.err.None? && out.trace.checks == t.checks + 2 && LastReadRaised(c.sig, out.trace) &&
      |out.trace.pages| == |t.pages| + 1 && out.trace.pages[|t.pages|].path == Join(outdir, "index.html")
  {
    var child := e.children[0];
    assert child.children == [child.children[0]];
    SingleEntry(child.children[0]);
    var start := Acc(ZeroDirectory.(name := Base(dirpath)), "", t);
    assert e.children == [child];
    SingleEntry(child);
    assert DirsUpTo(c, dirpath, outdir, e, 0, 0, start) == Continue(start);
    InterruptedAfterFile(c, Join(dirpath, child.name), Join(outdir, child.name), child, Tick(t));
    ParentWritesAfterLastChild(c, dirpath, outdir, e, t, start);
  }
}
