/**
 * cmd/bagal/convert.go: the converter that decides which external encoder
 * runs are launched for a file. Launching a process is modelled by
 * appending its command line to `launched`; the processes themselves, the
 * semaphore that bounds them and their output are not modelled.
 */
module Convert {
  import opened Wrappers
  import opened Strings
  import opened FilePath
  import opened Media

  /** The converter's configuration (the fields of MediaWebConverter other than its semaphore). */
  datatype Settings = Settings(
    convertToJpeg: map<string, bool>,
    thumbMaxWidth: int,
    thumbMaxHeight: int,
    scaleMaxWidth: int,
    scaleMaxHeight: int)

  /** One external program run: the program name and its argument list. */
  datatype Command = Command(program: string, args: seq<string>)

  /** The value that follows the first occurrence of `flag` in an argument list. */
  function OptionValue(args: seq<string>, flag: string): Option<string>
  {
    if |args| < 2 then None
    else if args[0] == flag then Some(args[1])
    else OptionValue(args[1..], flag)
  }

  /** The value read for a flag is the one after its first occurrence. */
  lemma {:induction false} OptionValueAt(args: seq<string>, k: nat, flag: string)
    requires k + 1 < |args| && args[k] == flag
    requires forall j :: 0 <= j < k ==> args[j] != flag
    ensures OptionValue(args, flag) == Some(args[k + 1])
  {
    if k > 0 {
      OptionValueAt(args[1..], k - 1, flag);
    }
  }

  /** The file a command reads: magick's first argument, ffmpeg's "-i" value. */
  function Input(c: Command): Option<string> {
    if c.program == "ffmpeg" then OptionValue(c.args, "-i")
    else if c.args == [] then None
    else Some(c.args[0])
  }

  /** The file a command writes: magick's last argument, the one before ffmpeg's trailing "-y". */
  function Output(c: Command): string {
    if c.program == "ffmpeg" && |c.args| >= 2 then c.args[|c.args| - 2]
    else if c.args == [] then ""
    else c.args[|c.args| - 1]
  }

  /** A path that no program would mistake for an option. */
  predicate PlainPath(p: string) { !HasPrefix(p, "-") }

  /** `%dx%d`: the bounding box given to magick. */
  function Size(width: int, height: int): string {
    IntToString(width) + "x" + IntToString(height)
  }

  /** The ffmpeg filter that scales a frame to cover the box, keeping its aspect ratio. */
  function CoverFilter(width: int, height: int): string {
    "scale=" + IntToString(width) + ":" + IntToString(height) + ":force_original_aspect_ratio=increase"
  }

  /** scaleImageCommand: shrink an image, upright and without metadata, into the scale box. */
  function ScaleImageCommand(s: Settings, source: string, target: string): (c: Command)
    ensures c.program == "magick" && Input(c) == Some(source) && Output(c) == target
    ensures "-auto-orient" in c.args && "-strip" in c.args
  {
    Command("magick", [source, "-auto-orient", "-strip", "-scale", Size(s.scaleMaxWidth, s.scaleMaxHeight), target])
  }

  /** thumbnailImageCommand: the same, into the thumbnail box. */
  function ThumbnailImageCommand(s: Settings, source: string, target: string): (c: Command)
    ensures c.program == "magick" && Input(c) == Some(source) && Output(c) == target
    ensures "-auto-orient" in c.args && "-strip" in c.args
  {
    Command("magick", [source, "-auto-orient", "-strip", "-thumbnail", Size(s.thumbMaxWidth, s.thumbMaxHeight), target])
  }

  /** recodeVideoCommand: re-encode as H.264 and AAC, overwriting the target. */
  function RecodeVideoCommand(s: Settings, source: string, target: string): (c: Command)
    ensures c.program == "ffmpeg" && Input(c) == Some(source) && Output(c) == target
    ensures c.args[|c.args| - 1] == "-y"
  {
    Command("ffmpeg", ["-i", source, "-vcodec", "h264", "-acodec", "aac", "-preset", "veryfast", "-crf", "18", target, "-y"])
  }

  /** thumbnailVideoCommand: one frame, scaled to cover the thumbnail box, overwriting the target. */
  function ThumbnailVideoCommand(s: Settings, source: string, target: string): (c: Command)
    ensures c.program == "ffmpeg" && Input(c) == Some(source) && Output(c) == target
    ensures c.args[|c.args| - 1] == "-y"
  {
    var args := ["-hide_banner", "-loglevel", "panic", "-i", source, "-vframes", "1",
      "-vf", CoverFilter(s.thumbMaxWidth, s.thumbMaxHeight), target, "-y"];
    OptionValueAt(args, 3, "-i");
    Command("ffmpeg", args)
  }

  /** A plain path is never taken for an option. */
  lemma PlainPathIsNoOption(p: string, flag: string)
    requires PlainPath(p) && |flag| >= 1 && flag[0] == '-'
    ensures p != flag
  {
    assert HasPrefix(flag, "-") by { assert flag[..1] == "-"; }
  }

  /**
   * The option magick is given for scaling: the configured scale box. A
   * source that looks like an option would be read as one.
   */
  lemma ScaleCommandOptions(s: Settings, source: string, target: string)
    requires PlainPath(source)
    ensures OptionValue(ScaleImageCommand(s, source, target).args, "-scale") == Some(Size(s.scaleMaxWidth, s.scaleMaxHeight))
  {
    var a := ScaleImageCommand(s, source, target).args;
    PlainPathIsNoOption(source, "-scale");
    assert a[1] != "-scale" by { assert a[1][1] != 's'; }
    assert a[2] != "-scale" by { assert a[2][2] != "-scale"[2]; }
    OptionValueAt(a, 3, "-scale");
  }

  /** The option magick is given for the thumbnail: the configured thumbnail box. */
  lemma ThumbnailCommandOptions(s: Settings, source: string, target: string)
    requires PlainPath(source)
    ensures OptionValue(ThumbnailImageCommand(s, source, target).args, "-thumbnail") == Some(Size(s.thumbMaxWidth, s.thumbMaxHeight))
  {
    var a := ThumbnailImageCommand(s, source, target).args;
    PlainPathIsNoOption(source, "-thumbnail");
    assert a[1] != "-thumbnail" by { assert a[1][1] != "-thumbnail"[1]; }
    assert a[2] != "-thumbnail" by { assert a[2][1] != "-thumbnail"[1]; }
    OptionValueAt(a, 3, "-thumbnail");
  }

  /** The codecs of the re-encode: H.264 video and AAC audio. */
  lemma RecodeCodecOptions(s: Settings, source: string, target: string)
    requires PlainPath(source)
    ensures var args := RecodeVideoCommand(s, source, target).args;
      OptionValue(args, "-vcodec") == Some("h264") && OptionValue(args, "-acodec") == Some("aac")
  {
    var a := RecodeVideoCommand(s, source, target).args;
    PlainPathIsNoOption(source, "-vcodec");
    PlainPathIsNoOption(source, "-acodec");
    OptionValueAt(a, 2, "-vcodec");
    OptionValueAt(a, 4, "-acodec");
  }

  /** The quality of the re-encode: the veryfast preset at constant rate factor 18. */
  lemma RecodeQualityOptions(s: Settings, source: string, target: string)
    requires PlainPath(source)
    ensures var args := RecodeVideoCommand(s, source, target).args;
      OptionValue(args, "-preset") == Some("veryfast") && OptionValue(args, "-crf") == Some("18")
  {
    var a := RecodeVideoCommand(s, source, target).args;
    PlainPathIsNoOption(source, "-preset");
    PlainPathIsNoOption(source, "-crf");
    OptionValueAt(a, 6, "-preset");
    OptionValueAt(a, 8, "-crf");
  }

  /** The video thumbnail is taken quietly: ffmpeg logs only on panic. */
  lemma VideoThumbnailQuiet(s: Settings, source: string, target: string)
    ensures OptionValue(ThumbnailVideoCommand(s, source, target).args, "-loglevel") == Some("panic")
  {
    var a := ThumbnailVideoCommand(s, source, target).args;
    assert a[0] != "-loglevel" by { assert a[0][1] != "-loglevel"[1]; }
    OptionValueAt(a, 1, "-loglevel");
  }

  /** The video thumbnail is one frame, scaled to cover the thumbnail box. */
  lemma VideoThumbnailFrame(s: Settings, source: string, target: string)
    requires PlainPath(source)
    ensures var args := ThumbnailVideoCommand(s, source, target).args;
      OptionValue(args, "-vframes") == Some("1") &&
      OptionValue(args, "-vf") == Some(CoverFilter(s.thumbMaxWidth, s.thumbMaxHeight))
  {
    var a := ThumbnailVideoCommand(s, source, target).args;
    PlainPathIsNoOption(source, "-vframes");
    PlainPathIsNoOption(source, "-vf");
    assert forall j :: 0 <= j < 4 ==> a[j] != "-vframes" && a[j] != "-vf" by {
      assert a[0][1] == 'h' && a[1][1] == 'l' && a[2][0] == 'p' && a[3][1] == 'i';
    }
    assert a[5] != "-vf" && a[6] != "-vf" by { assert |a[5]| != 3 && a[6][0] == '1'; }
    OptionValueAt(a, 5, "-vframes");
    OptionValueAt(a, 7, "-vf");
  }

  /** The box given to magick reads back as the configured width and height. */
  lemma SizeReadsBack(width: int, height: int)
    ensures Split(Size(width, height), 'x') == [IntToString(width), IntToString(height)]
    ensures ParseInt(Split(Size(width, height), 'x')[0]) == width
    ensures ParseInt(Split(Size(width, height), 'x')[1]) == height
  {
    var w, h := IntToString(width), IntToString(height);
    SplitAround(w, h, 'x');
    assert Size(width, height) == w + ['x'] + h;
    SplitSingle(w, 'x');
    SplitSingle(h, 'x');
    IntToStringRoundTrip(width);
    IntToStringRoundTrip(height);
  }

  lemma SplitSingle(s: string, sep: char)
    requires forall k :: 0 <= k < |s| ==> IsDigit(s[k]) || s[k] == '-'
    requires !IsDigit(sep) && sep != '-'
    ensures Split(s, sep) == [s]
  {
    SplitJoined([s], sep);
  }

  // ---- extensionsToMap ----

  /** An extension with its leading dot, added when missing. */
  function Dotted(ext: string): (r: string)
    ensures HasPrefix(r, ".")
    ensures HasSuffix(r, ext)
  {
    if HasPrefix(ext, ".") then ext else "." + ext
  }

  /** The keys extensionsToMap produces for a comma-separated list. */
  function ExtensionKeys(exts: string): set<string> {
    set p | p in Split(exts, ',') :: Dotted(p)
  }

  /** extensionsToMap: every listed extension, dotted, mapped to true. */
  method ExtensionsToMap(exts: string) returns (m: map<string, bool>)
    ensures m.Keys == ExtensionKeys(exts)
    ensures forall k :: k in m ==> m[k]
  {
    m := map[];
    var pieces := Split(exts, ',');
    var i := 0;
    while i < |pieces|
      invariant 0 <= i <= |pieces|
      invariant m.Keys == set j | 0 <= j < i :: Dotted(pieces[j])
      invariant forall k :: k in m ==> m[k]
    {
      var ext := pieces[i];
      if !HasPrefix(ext, ".") {
        ext := "." + ext;
      }
      m := m[ext := true];
      i := i + 1;
    }
    assert forall p :: p in pieces <==> exists j :: 0 <= j < |pieces| && pieces[j] == p;
  }

  /** Every key starts with a dot, and "jpg" and ".jpg" name the same key. */
  lemma ExtensionKeysAreDotted(exts: string, e: string)
    ensures forall k :: k in ExtensionKeys(exts) ==> HasPrefix(k, ".")
    ensures !HasPrefix(e, ".") ==> Dotted(e) == Dotted("." + e)
  {
    if !HasPrefix(e, ".") {
      assert ("." + e)[..1] == ".";
    }
  }

  /** An empty list still yields the single key ".". */
  lemma EmptyListHasDotKey()
    ensures ExtensionKeys("") == {"."}
  {
    assert Split("", ',') == [""];
    assert Dotted("") == ".";
  }

  /** The keys of a joined list are the keys of its parts. */
  lemma ExtensionKeysOfJoin(a: string, b: string)
    ensures ExtensionKeys(a + "," + b) == ExtensionKeys(a) + ExtensionKeys(b)
  {
    SplitAround(a, b, ',');
    assert a + "," + b == a + [','] + b;
  }

  // ---- Convert ----

  /** The thumbnail run for a file: magick for an image, ffmpeg for a video, none otherwise. */
  function ThumbnailRun(s: Settings, f: File, target: string): seq<Command> {
    match f.kind
    case Image => [ThumbnailImageCommand(s, f.source, target)]
    case Video => [ThumbnailVideoCommand(s, f.source, target)]
    case Unknown => []
  }

  /** The scaling run for a file: magick for an image, an ffmpeg re-encode for a video, none otherwise. */
  function ScaleRun(s: Settings, f: File, target: string): seq<Command> {
    match f.kind
    case Image => [ScaleImageCommand(s, f.source, target)]
    case Video => [RecodeVideoCommand(s, f.source, target)]
    case Unknown => []
  }

  /**
   * The runs Convert launches, in order: the thumbnail unless its target
   * exists, then the scaled version unless its target exists.
   */
  function Plan(s: Settings, outdir: string, f: File, existing: set<string>): seq<Command> {
    var thumb := Join(outdir, f.thumbnail);
    var scale := Join(outdir, f.scale);
    (if thumb in existing then [] else ThumbnailRun(s, f, thumb)) +
    (if scale in existing then [] else ScaleRun(s, f, scale))
  }

  function Outputs(cmds: seq<Command>): (r: seq<string>)
    ensures |r| == |cmds|
    ensures forall i :: 0 <= i < |cmds| ==> r[i] == Output(cmds[i])
  {
    if cmds == [] then [] else [Output(cmds[0])] + Outputs(cmds[1..])
  }

  /**
   * The targets Convert launches runs for: only for images and videos, only
   * missing targets, the thumbnail before the scaled version.
   */
  lemma PlanLaunches(s: Settings, outdir: string, f: File, existing: set<string>)
    ensures var thumb, scale := Join(outdir, f.thumbnail), Join(outdir, f.scale);
      Outputs(Plan(s, outdir, f, existing)) ==
        (if f.kind != Unknown && thumb !in existing then [thumb] else []) +
        (if f.kind != Unknown && scale !in existing then [scale] else [])
  {
    var thumb, scale := Join(outdir, f.thumbnail), Join(outdir, f.scale);
    var a := if thumb in existing then [] else ThumbnailRun(s, f, thumb);
    var b := if scale in existing then [] else ScaleRun(s, f, scale);
    assert Plan(s, outdir, f, existing) == a + b;
    OutputsAppend(a, b);
  }

  /**
   * The runs themselves: at most two, none for a file of unknown kind, each
   * reading the file's source with the encoder for its kind.
   */
  lemma PlanRuns(s: Settings, outdir: string, f: File, existing: set<string>)
    ensures forall c :: c in Plan(s, outdir, f, existing) ==> Input(c) == Some(f.source)
    ensures forall c :: c in Plan(s, outdir, f, existing) ==>
      c.program == (if f.kind == Image then "magick" else "ffmpeg")
    ensures |Plan(s, outdir, f, existing)| <= 2
    ensures f.kind == Unknown ==> Plan(s, outdir, f, existing) == []
  {
    var thumb, scale := Join(outdir, f.thumbnail), Join(outdir, f.scale);
    var a := if thumb in existing then [] else ThumbnailRun(s, f, thumb);
    var b := if scale in existing then [] else ScaleRun(s, f, scale);
    assert Plan(s, outdir, f, existing) == a + b;
  }

  /**
   * For an image, the run writing the thumbnail target is the thumbnail
   * builder's, sized to the thumbnail box, and the run writing the scale
   * target is the scaling builder's, sized to the scale box.
   */
  lemma PlanImageRuns(s: Settings, outdir: string, f: File, existing: set<string>)
    requires f.kind == Image
    ensures var p, thumb, scale := Plan(s, outdir, f, existing), Join(outdir, f.thumbnail), Join(outdir, f.scale);
      (thumb !in existing ==>
        |p| >= 1 && p[0] == ThumbnailImageCommand(s, f.source, thumb) && Output(p[0]) == thumb &&
        (PlainPath(f.source) ==> OptionValue(p[0].args, "-thumbnail") == Some(Size(s.thumbMaxWidth, s.thumbMaxHeight)))) &&
      (scale !in existing ==>
        |p| >= 1 && p[|p| - 1] == ScaleImageCommand(s, f.source, scale) && Output(p[|p| - 1]) == scale &&
        (PlainPath(f.source) ==> OptionValue(p[|p| - 1].args, "-scale") == Some(Size(s.scaleMaxWidth, s.scaleMaxHeight))))
  {
    var thumb, scale := Join(outdir, f.thumbnail), Join(outdir, f.scale);
    if PlainPath(f.source) {
      ThumbnailCommandOptions(s, f.source, thumb);
      ScaleCommandOptions(s, f.source, scale);
    }
  }

  /**
   * For a video, the run writing the thumbnail target grabs one frame, and
   * the run writing the scale target re-encodes to H.264.
   */
  lemma PlanVideoRuns(s: Settings, outdir: string, f: File, existing: set<string>)
    requires f.kind == Video
    ensures var p, thumb, scale := Plan(s, outdir, f, existing), Join(outdir, f.thumbnail), Join(outdir, f.scale);
      (thumb !in existing ==>
        |p| >= 1 && p[0] == ThumbnailVideoCommand(s, f.source, thumb) && Output(p[0]) == thumb &&
        (PlainPath(f.source) ==> OptionValue(p[0].args, "-vframes") == Some("1"))) &&
      (scale !in existing ==>
        |p| >= 1 && p[|p| - 1] == RecodeVideoCommand(s, f.source, scale) && Output(p[|p| - 1]) == scale &&
        (PlainPath(f.source) ==> OptionValue(p[|p| - 1].args, "-vcodec") == Some("h264")))
  {
    var thumb, scale := Join(outdir, f.thumbnail), Join(outdir, f.scale);
    if PlainPath(f.source) {
      VideoThumbnailFrame(s, f.source, thumb);
      RecodeCodecOptions(s, f.source, scale);
    }
  }

  lemma OutputsAppend(a: seq<Command>, b: seq<Command>)
    ensures Outputs(a + b) == Outputs(a) + Outputs(b)
  {
    var l, r := Outputs(a + b), Outputs(a) + Outputs(b);
    assert |l| == |r|;
    forall i | 0 <= i < |l| ensures l[i] == r[i] {
      if i < |a| { assert (a + b)[i] == a[i]; } else { assert (a + b)[i] == b[i - |a|]; }
    }
  }

  /** Nothing Convert launches overwrites an existing target. */
  lemma PlanSkipsExisting(s: Settings, outdir: string, f: File, existing: set<string>)
    ensures forall c :: c in Plan(s, outdir, f, existing) ==> Output(c) !in existing
  {
    PlanLaunches(s, outdir, f, existing);
    var p := Plan(s, outdir, f, existing);
    forall c | c in p ensures Output(c) !in existing {
      var i :| 0 <= i < |p| && p[i] == c;
      assert Outputs(p)[i] == Output(c);
    }
  }

  /**
   * Once the launched runs have produced their targets, converting the same
   * file again launches nothing.
   */
  lemma PlanIdempotent(s: Settings, outdir: string, f: File, existing: set<string>)
    ensures var first := Plan(s, outdir, f, existing);
      Plan(s, outdir, f, existing + set c | c in first :: Output(c)) == []
  {
    var first := Plan(s, outdir, f, existing);
    var produced := set c | c in first :: Output(c);
    PlanLaunches(s, outdir, f, existing);
    var thumb, scale := Join(outdir, f.thumbnail), Join(outdir, f.scale);
    if f.kind != Unknown {
      if thumb !in existing {
        assert Outputs(first)[0] == thumb;
        assert Output(first[0]) in produced;
      }
      if scale !in existing {
        var k := |first| - 1;
        assert Outputs(first)[k] == scale;
        assert Output(first[k]) in produced;
      }
    }
  }

  /** MediaWebConverter: its settings, and the runs it has launched so far. */
  class Converter {
    const settings: Settings
    var launched: seq<Command>

    /** NewMediaWebConverter. */
    constructor (o: Options)
      ensures settings.convertToJpeg.Keys == ExtensionKeys(o.convert2JpegExtensions)
      ensures settings.thumbMaxWidth == o.thumbMaxWidth && settings.thumbMaxHeight == o.thumbMaxHeight
      ensures settings.scaleMaxWidth == o.scaleMaxWidth && settings.scaleMaxHeight == o.scaleMaxHeight
      ensures launched == []
    {
      var jpeg := ExtensionsToMap(o.convert2JpegExtensions);
      settings := Settings(jpeg, o.thumbMaxWidth, o.thumbMaxHeight, o.scaleMaxWidth, o.scaleMaxHeight);
      launched := [];
    }

    /** ratelimit: the run is started (after a free slot is acquired). */
    method Ratelimit(c: Command)
      modifies this
      ensures launched == old(launched) + [c]
    {
      launched := launched + [c];
    }

    /**
     * Convert: launches the thumbnail run, then the scaling run, each only
     * if its target is not among the existing paths. It never fails.
     */
    method Convert(outdir: string, f: File, existing: set<string>) returns (err: Option<string>)
      modifies this
      ensures launched == old(launched) + Plan(settings, outdir, f, existing)
      ensures err == None
    {
      var thumb := Join(outdir, f.thumbnail);
      if thumb !in existing {
        if f.kind == Image {
          Ratelimit(ThumbnailImageCommand(settings, f.source, thumb));
        } else if f.kind == Video {
          Ratelimit(ThumbnailVideoCommand(settings, f.source, thumb));
        }
      }
      var scale := Join(outdir, f.scale);
      if scale !in existing {
        if f.kind == Image {
          Ratelimit(ScaleImageCommand(settings, f.source, scale));
        } else if f.kind == Video {
          Ratelimit(RecodeVideoCommand(settings, f.source, scale));
        }
      }
      return None;
    }
  }
}
