/**
 * cmd/bagal/main.go: getDirItems and readDir, the recursive walk that
 * converts every file, accumulates a Directory summary bottom-up and writes
 * one index.html per directory.
 *
 * The file system is an entry tree plus an environment naming the paths on
 * which creating, listing or writing fails and the paths that already exist.
 * The interrupt flag is an oracle: the walk counts how often it has read the
 * flag, and a signal that arrives before read n makes read n and every later
 * read see true.
 */
module Walk {
  import opened Wrappers
  import opened FilePath
  import opened Media
  import opened Html
  import opened Convert

  /** A directory entry: a directory with its listing, or anything else. */
  datatype Entry = DirE(name: string, children: seq<Entry>) | FileE(name: string)

  /** What the file system does: paths that exist, and paths where an operation fails. */
  datatype Env = Env(
    existing: set<string>,
    mkdirFails: set<string>,
    listFails: set<string>,
    writeFails: set<string>)

  /** When the interrupt arrives: never, or before the flag's n-th read (counting from 0). */
  datatype Signal = Never | AtCheck(n: nat)

  /** The value of the flag at read number `k`. */
  predicate Raised(sig: Signal, k: nat) {
    sig.AtCheck? && sig.n <= k
  }

  /** The errors readDir can return. */
  datatype Error = MkdirFailed(path: string) | ListFailed(path: string) | WriteFailed(path: string)

  /** A gallery page written by WriteGallery: its path and the body inserted into the template. */
  datatype Page = Page(path: string, content: string)

  /** Everything the walk does outside itself: runs launched, pages written, flag reads. */
  datatype Trace = Trace(launched: seq<Command>, pages: seq<Page>, checks: nat)

  /** The fixed inputs of a walk. */
  datatype Ctx = Ctx(o: Options, s: Settings, env: Env, sig: Signal)

  /** The result of readDir with its effects. */
  datatype Outcome = Outcome(dir: Directory, err: Option<Error>, trace: Trace)

  /** What readDir's loops accumulate: the summary, the page body so far, the effects. */
  datatype Acc = Acc(dir: Directory, html: string, trace: Trace)

  /** The state after one of readDir's loops: carry on, or return early. */
  datatype Progress =
    | Continue(acc: Acc)
    | Stop(dir: Directory, err: Option<Error>, trace: Trace)

  /** One more read of the interrupt flag. */
  function Tick(t: Trace): Trace {
    Trace(t.launched, t.pages, t.checks + 1)
  }

  /** The subdirectories of a listing, in listing order. */
  function DirsOf(xs: seq<Entry>): (r: seq<Entry>)
  {
    if xs == [] then []
    else DirsOf(xs[..|xs| - 1]) + (if xs[|xs| - 1].DirE? then [xs[|xs| - 1]] else [])
  }

  /** Every other entry of a listing, in listing order. */
  function FilesOf(xs: seq<Entry>): (r: seq<Entry>)
  {
    if xs == [] then []
    else FilesOf(xs[..|xs| - 1]) + (if xs[|xs| - 1].FileE? then [xs[|xs| - 1]] else [])
  }

  /** Each subdirectory in the list is an entry of the listing, and a directory. */
  lemma {:induction false} DirsOfMember(xs: seq<Entry>, k: nat)
    requires k < |DirsOf(xs)|
    ensures DirsOf(xs)[k] in xs && DirsOf(xs)[k].DirE?
  {
    var init := xs[..|xs| - 1];
    if k < |DirsOf(init)| {
      DirsOfMember(init, k);
      assert DirsOf(xs)[k] == DirsOf(init)[k];
    }
  }

  /** Each other entry in the list is an entry of the listing, and not a directory. */
  lemma {:induction false} FilesOfMember(xs: seq<Entry>, k: nat)
    requires k < |FilesOf(xs)|
    ensures FilesOf(xs)[k] in xs && FilesOf(xs)[k].FileE?
  {
    var init := xs[..|xs| - 1];
    if k < |FilesOf(init)| {
      FilesOfMember(init, k);
      assert FilesOf(xs)[k] == FilesOf(init)[k];
    }
  }

  /** getDirItems' loop: splits a listing into its directories and its other entries. */
  method GetDirItems(entries: seq<Entry>) returns (dirs: seq<Entry>, files: seq<Entry>)
    ensures dirs == DirsOf(entries) && files == FilesOf(entries)
  {
    dirs, files := [], [];
    var i := 0;
    while i < |entries|
      invariant 0 <= i <= |entries|
      invariant dirs == DirsOf(entries[..i]) && files == FilesOf(entries[..i])
    {
      assert entries[..i + 1][..i] == entries[..i];
      if entries[i].DirE? {
        dirs := dirs + [entries[i]];
      } else {
        files := files + [entries[i]];
      }
      i := i + 1;
    }
    assert entries[..i] == entries;
  }

  /** The outcome of readDir on the entry `e` found at `dirpath`, writing under `outdir`. */
  function Visit(c: Ctx, dirpath: string, outdir: string, e: Entry, t: Trace): Outcome
    decreases e, 1
  {
    if outdir in c.env.mkdirFails then Outcome(ZeroDirectory, Some(MkdirFailed(outdir)), t)
    else if e.FileE? || dirpath in c.env.listFails then Outcome(ZeroDirectory, Some(ListFailed(dirpath)), t)
    else
      match VisitDirs(c, dirpath, outdir, e, 0, Acc(ZeroDirectory.(name := Base(dirpath)), "", t))
      case Stop(d, err, t1) => Outcome(d, err, t1)
      case Continue(a) =>
        match VisitFiles(c, dirpath, outdir, FilesOf(e.children), 0, a)
        case Stop(d, err, t2) => Outcome(d, err, t2)
        case Continue(a2) => Finish(c, outdir, a2)
  }

  /** The end of readDir: write index.html with the collected fragments. */
  function Finish(c: Ctx, outdir: string, a: Acc): Outcome {
    var outfile := Join(outdir, "index.html");
    if outfile in c.env.writeFails then Outcome(a.dir, Some(WriteFailed(outfile)), a.trace)
    else Outcome(a.dir, None, Trace(a.trace.launched, a.trace.pages + [Page(outfile, a.html)], a.trace.checks))
  }

  /** The summary after taking in a subdirectory's summary. */
  function AddChild(dir: Directory, sub: Directory): Directory {
    dir.(directories := dir.directories + 1,
         subImages := dir.subImages + sub.images + sub.subImages,
         subVideos := dir.subVideos + sub.videos + sub.subVideos)
  }

  /** readDir's loop over the subdirectories, from the `i`-th on. */
  function VisitDirs(c: Ctx, dirpath: string, outdir: string, e: Entry, i: nat, a: Acc): Progress
    requires e.DirE? && i <= |DirsOf(e.children)|
    decreases e, 0, |DirsOf(e.children)| - i
  {
    var dirs := DirsOf(e.children);
    if i == |dirs| then Continue(a)
    else
      DirsOfMember(e.children, i);
      match DirStep(c, dirpath, outdir, dirs[i], a)
      case Stop(d, err, t) => Stop(d, err, t)
      case Continue(a') => VisitDirs(c, dirpath, outdir, e, i + 1, a')
  }

  /**
   * One subdirectory: read the flag and return if it is raised; otherwise
   * walk the subdirectory, take in its summary and return on its error, or
   * add its folder link.
   */
  function DirStep(c: Ctx, dirpath: string, outdir: string, child: Entry, a: Acc): Progress
    decreases child, 2
  {
    if Raised(c.sig, a.trace.checks) then Stop(a.dir, None, Tick(a.trace))
    else
      var sub := Visit(c, Join(dirpath, child.name), Join(outdir, child.name), child, Tick(a.trace));
      if sub.err.Some? then Stop(ZeroDirectory, sub.err, sub.trace)
      else Continue(Acc(AddChild(a.dir, sub.dir), a.html + DirectoryHtml(sub.dir), sub.trace))
  }

  /** The summary after counting one more file. */
  function Count(dir: Directory, f: File): Directory {
    match f.kind
    case Image =>
      dir.(thumbnail := if dir.thumbnail == "" then Join(dir.name, f.thumbnail) else dir.thumbnail,
           images := dir.images + 1)
    case Video => dir.(videos := dir.videos + 1)
    case Unknown => dir
  }

  /** One file: classify it, then handle it. */
  function FileStep(c: Ctx, dirpath: string, outdir: string, name: string, a: Acc): Acc {
    HandleFile(c, outdir, GetFile(c.o, Join(dirpath, name)), a)
  }

  /** A classified file: launch its conversions, render and count it, read the flag. */
  function HandleFile(c: Ctx, outdir: string, f: File, a: Acc): Acc {
    Acc(Count(a.dir, f), a.html + FileHtml(f),
        Trace(a.trace.launched + Plan(c.s, outdir, f, c.env.existing), a.trace.pages, a.trace.checks + 1))
  }

  /** readDir's loop over the other entries, from the `i`-th on. */
  function VisitFiles(c: Ctx, dirpath: string, outdir: string, files: seq<Entry>, i: nat, a: Acc): Progress
    requires i <= |files|
    decreases |files| - i
  {
    if i == |files| then Continue(a)
    else
      var a' := FileStep(c, dirpath, outdir, files[i].name, a);
      if Raised(c.sig, a.trace.checks) then Stop(a'.dir, None, a'.trace)
      else VisitFiles(c, dirpath, outdir, files, i + 1, a')
  }

  /** The process' view of the file system and of the interrupt flag. */
  class Host {
    const env: Env
    const signal: Signal
    /** How often finishUp has been read. */
    var checks: nat
    /** The gallery pages written so far, in order. */
    var pages: seq<Page>

    constructor (env: Env, signal: Signal)
      ensures this.env == env && this.signal == signal
      ensures checks == 0 && pages == []
    {
      this.env := env;
      this.signal := signal;
      checks := 0;
      pages := [];
    }

    /** Reads the finishUp flag. */
    method FinishUp() returns (b: bool)
      modifies this
      ensures b == Raised(signal, old(checks))
      ensures checks == old(checks) + 1 && pages == old(pages)
    {
      b := Raised(signal, checks);
      checks := checks + 1;
    }

    /** os.MkdirAll. */
    method MkdirAll(path: string) returns (err: Option<Error>)
      ensures err.Some? <==> path in env.mkdirFails
      ensures err.Some? ==> err.value == MkdirFailed(path)
    {
      if path in env.mkdirFails {
        return Some(MkdirFailed(path));
      }
      return None;
    }

    /** os.ReadDir of the entry `e` found at `path`: only a readable directory lists. */
    method List(path: string, e: Entry) returns (entries: seq<Entry>, err: Option<Error>)
      ensures err.None? <==> e.DirE? && path !in env.listFails
      ensures err.None? ==> entries == e.children
      ensures err.Some? ==> err.value == ListFailed(path)
    {
      if e.FileE? || path in env.listFails {
        return [], Some(ListFailed(path));
      }
      return e.children, None;
    }

    /** WriteGallery: one page more, unless writing it fails. */
    method WriteGallery(path: string, content: string) returns (err: Option<Error>)
      modifies this
      ensures err.Some? <==> path in env.writeFails
      ensures err.Some? ==> err.value == WriteFailed(path)
      ensures pages == old(pages) + (if err.None? then [Page(path, content)] else [])
      ensures checks == old(checks)
    {
      if path in env.writeFails {
        return Some(WriteFailed(path));
      }
      pages := pages + [Page(path, content)];
      return None;
    }
  }

  /** The walk's fixed inputs as the functional model sees them. */
  function CtxOf(o: Options, c: Converter, h: Host): Ctx {
    Ctx(o, c.settings, h.env, h.signal)
  }

  /** The walk's effects so far as the functional model sees them. */
  function TraceOf(c: Converter, h: Host): Trace
    reads c, h
  {
    Trace(c.launched, h.pages, h.checks)
  }

  /**
   * readDir: the summary, the error and every effect (runs launched, pages
   * written, flag reads) are those of Visit.
   */
  method ReadDir(o: Options, c: Converter, h: Host, dirpath: string, outdir: string, e: Entry)
    returns (dir: Directory, err: Option<Error>)
    modifies c, h
    decreases e, 2
    ensures Visit(CtxOf(o, c, h), dirpath, outdir, e, old(TraceOf(c, h))) == Outcome(dir, err, TraceOf(c, h))
  {
    err := h.MkdirAll(outdir);
    if err.Some? {
      return ZeroDirectory, err;
    }
    var entries;
    entries, err := h.List(dirpath, e);
    if err.Some? {
      return ZeroDirectory, err;
    }
    var dirs, files := GetDirItems(entries);
    var html, stopped;
    dir, html, stopped, err := ReadSubdirs(o, c, h, dirpath, outdir, e, dirs, ZeroDirectory.(name := Base(dirpath)));
    if stopped {
      return;
    }
    dir, html, stopped := ReadFiles(o, c, h, dirpath, outdir, files, dir, html);
    if stopped {
      return dir, None;
    }
    var outfile := Join(outdir, "index.html");
    err := h.WriteGallery(outfile, html);
  }

  /** readDir's first loop: recurse into each subdirectory unless interrupted or failed. */
  method ReadSubdirs(o: Options, c: Converter, h: Host, dirpath: string, outdir: string, e: Entry,
                     dirs: seq<Entry>, start: Directory)
    returns (dir: Directory, html: string, stopped: bool, err: Option<Error>)
    requires e.DirE? && dirs == DirsOf(e.children)
    modifies c, h
    decreases e, 1
    ensures VisitDirs(CtxOf(o, c, h), dirpath, outdir, e, 0, Acc(start, "", old(TraceOf(c, h)))) ==
      if stopped then Stop(dir, err, TraceOf(c, h)) else Continue(Acc(dir, html, TraceOf(c, h)))
  {
    ghost var ctx := CtxOf(o, c, h);
    ghost var result := VisitDirs(ctx, dirpath, outdir, e, 0, Acc(start, "", TraceOf(c, h)));
    dir, html, stopped, err := start, "", false, None;
    var i := 0;
    while i < |dirs|
      invariant 0 <= i <= |dirs|
      invariant VisitDirs(ctx, dirpath, outdir, e, i, Acc(dir, html, TraceOf(c, h))) == result
    {
      DirsOfMember(e.children, i);
      dir, html, stopped, err := ReadSubdir(o, c, h, dirpath, outdir, dirs[i], dir, html);
      if stopped {
        return;
      }
      i := i + 1;
    }
  }

  /** The body of readDir's first loop, for the subdirectory `child`. */
  method ReadSubdir(o: Options, c: Converter, h: Host, dirpath: string, outdir: string, child: Entry,
                    dir: Directory, html: string)
    returns (dir': Directory, html': string, stopped: bool, err: Option<Error>)
    modifies c, h
    decreases child, 3
    ensures DirStep(CtxOf(o, c, h), dirpath, outdir, child, Acc(dir, html, old(TraceOf(c, h)))) ==
      if stopped then Stop(dir', err, TraceOf(c, h)) else Continue(Acc(dir', html', TraceOf(c, h)))
  {
    var stop := h.FinishUp();
    if stop {
      return dir, html, true, None;
    }
    ghost var t := TraceOf(c, h);
    var sub, suberr := ReadDir(o, c, h, Join(dirpath, child.name), Join(outdir, child.name), child);
    DirStepVisits(CtxOf(o, c, h), dirpath, outdir, child, Acc(dir, html, old(TraceOf(c, h))), Outcome(sub, suberr, TraceOf(c, h)));
    dir' := AddChild(dir, sub);
    if suberr.Some? {
      return ZeroDirectory, html, true, suberr;
    }
    return dir', html + DirectoryHtml(sub), false, None;
  }

  /** One round of the first loop when the flag is not raised: the child's walk, then its outcome taken in. */
  lemma DirStepVisits(c: Ctx, dirpath: string, outdir: string, child: Entry, a: Acc, sub: Outcome)
    requires !Raised(c.sig, a.trace.checks)
    requires sub == Visit(c, Join(dirpath, child.name), Join(outdir, child.name), child, Tick(a.trace))
    ensures DirStep(c, dirpath, outdir, child, a) ==
      if sub.err.Some? then Stop(ZeroDirectory, sub.err, sub.trace)
      else Continue(Acc(AddChild(a.dir, sub.dir), a.html + DirectoryHtml(sub.dir), sub.trace))
  {
  }

  /** readDir's second loop: handle each other entry, stopping when the flag is raised after one. */
  method ReadFiles(o: Options, c: Converter, h: Host, dirpath: string, outdir: string, files: seq<Entry>,
                   start: Directory, startHtml: string)
    returns (dir: Directory, html: string, stopped: bool)
    modifies c, h
    ensures VisitFiles(CtxOf(o, c, h), dirpath, outdir, files, 0, Acc(start, startHtml, old(TraceOf(c, h)))) ==
      if stopped then Stop(dir, None, TraceOf(c, h)) else Continue(Acc(dir, html, TraceOf(c, h)))
  {
    ghost var ctx := CtxOf(o, c, h);
    ghost var result := VisitFiles(ctx, dirpath, outdir, files, 0, Acc(start, startHtml, TraceOf(c, h)));
    dir, html, stopped := start, startHtml, false;
    var i := 0;
    while i < |files|
      invariant 0 <= i <= |files|
      invariant VisitFiles(ctx, dirpath, outdir, files, i, Acc(dir, html, TraceOf(c, h))) == result
    {
      var stop;
      dir, html, stop := ReadFile(o, c, h, dirpath, outdir, files[i].name, dir, html);
      if stop {
        return dir, html, true;
      }
      i := i + 1;
    }
  }

  /** The body of readDir's second loop, for the entry called `name`. */
  method ReadFile(o: Options, c: Converter, h: Host, dirpath: string, outdir: string, name: string,
                  dir: Directory, html: string)
    returns (dir': Directory, html': string, stop: bool)
    modifies c, h
    ensures Acc(dir', html', TraceOf(c, h)) == FileStep(CtxOf(o, c, h), dirpath, outdir, name, Acc(dir, html, old(TraceOf(c, h))))
    ensures stop == Raised(h.signal, old(h.checks))
  {
    ghost var t := TraceOf(c, h);
    var file := GetFile(o, Join(dirpath, name));
    FileStepOf(CtxOf(o, c, h), dirpath, outdir, name, Acc(dir, html, t), file);
    var _ := c.Convert(outdir, file, h.env.existing);
    ghost var launched := c.launched;
    html' := html + FileHtml(file);
    dir' := Count(dir, file);
    stop := h.FinishUp();
    assert TraceOf(c, h) == Trace(launched, t.pages, t.checks + 1);
  }

  /** One step of the file loop, for the file readDir has just classified. */
  lemma FileStepOf(c: Ctx, dirpath: string, outdir: string, name: string, a: Acc, f: File)
    requires f == GetFile(c.o, Join(dirpath, name))
    ensures FileStep(c, dirpath, outdir, name, a) ==
      Acc(Count(a.dir, f), a.html + FileHtml(f),
          Trace(a.trace.launched + Plan(c.s, outdir, f, c.env.existing), a.trace.pages, a.trace.checks + 1))
  {
  }
}
