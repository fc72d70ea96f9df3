/**
 * The records of cmd/bagal/main.go and its file classification: which input
 * files are images or videos, and under which names their web versions are
 * written.
 */
module Media {
  import opened Strings
  import opened FilePath

  /**
   * The command-line options. `convert2JpegExtensions` is the list that
   * NewMediaWebConverter reads; the other fields are main.go's.
   */
  datatype Options = Options(
    indir: string,
    outdir: string,
    imageExtensions: string,
    videoExtensions: string,
    convert2JpegExtensions: string,
    thumbMaxWidth: int,
    thumbMaxHeight: int,
    scaleMaxWidth: int,
    scaleMaxHeight: int,
    parallelOps: int,
    verbose: bool)

  /** The default `-image` and `-video` lists. */
  const DefaultImageExtensions := "jpg,jpeg,gif,png,heic"
  const DefaultVideoExtensions := "mp4,avi,mov"

  datatype FileType = Image | Video | Unknown

  /** One input file: its kind, its path, and the names of its scaled version and thumbnail. */
  datatype File = File(kind: FileType, source: string, scale: string, thumbnail: string)

  /**
   * The summary of one directory. `subThumbnail` is read when rendering a
   * folder link but is never assigned, so it is always "".
   */
  datatype Directory = Directory(
    name: string,
    thumbnail: string,
    subThumbnail: string,
    images: nat,
    videos: nat,
    directories: nat,
    subImages: nat,
    subVideos: nat)

  /** The empty summary returned together with an error. */
  const ZeroDirectory := Directory("", "", "", 0, 0, 0, 0, 0)

  /**
   * The lower-cased name ends with one of the comma-separated extensions.
   * The extensions themselves are compared as written, without lower-casing.
   */
  predicate MatchesExtension(name: string, extensions: string) {
    exists ext :: ext in Split(extensions, ',') && HasSuffix(ToLower(name), ext)
  }

  predicate IsImageName(o: Options, name: string) { MatchesExtension(name, o.imageExtensions) }

  predicate IsVideoName(o: Options, name: string) { MatchesExtension(name, o.videoExtensions) }

  /** The loop shared by isImage and isVideo: the first listed suffix that matches ends the search. */
  method HasListedSuffix(path: string, extensions: string) returns (b: bool)
    ensures b == MatchesExtension(path, extensions)
  {
    var exts := Split(extensions, ',');
    var i := 0;
    while i < |exts|
      invariant 0 <= i <= |exts|
      invariant forall k :: 0 <= k < i ==> !HasSuffix(ToLower(path), exts[k])
    {
      if HasSuffix(ToLower(path), exts[i]) {
        assert exts[i] in exts;
        return true;
      }
      i := i + 1;
    }
    return false;
  }

  method IsImage(o: Options, path: string) returns (b: bool)
    ensures b == IsImageName(o, path)
  {
    b := HasListedSuffix(path, o.imageExtensions);
  }

  method IsVideo(o: Options, path: string) returns (b: bool)
    ensures b == IsVideoName(o, path)
  {
    b := HasListedSuffix(path, o.videoExtensions);
  }

  /** The base name of the path, with ".jpg" appended when its extension is ".heic" in any letter case. */
  function WebName(path: string): (name: string)
    ensures HasPrefix(name, Base(path))
    ensures name == Base(path) || name == Base(path) + ".jpg"
    ensures name == Base(path) + ".jpg" <==> ToLower(Ext(Base(path))) == ".heic"
  {
    var base := Base(path);
    if ToLower(Ext(base)) == ".heic" then base + ".jpg" else base
  }

  /**
   * getFile: classifies the file by its (rewritten) base name, the image
   * test first, and derives the output names. It never fails.
   */
  function GetFile(o: Options, path: string): (f: File)
    ensures f.source == path
    ensures f.kind == Unknown <==> f.scale == ""
    ensures f.kind == Unknown <==> f.thumbnail == ""
    ensures f.scale != f.thumbnail || f.kind == Unknown
  {
    var name := WebName(path);
    if IsImageName(o, name) then
      assert ("s_" + name)[0] != ("t_" + name)[0];
      File(Image, path, "s_" + name, "t_" + name)
    else if IsVideoName(o, name) then
      var video := TrimSuffix(name, Ext(name)) + ".mp4";
      File(Video, path, video, video + ".jpg")
    else
      File(Unknown, path, "", "")
  }

  /**
   * What getFile decides: an image when the web name has an image extension;
   * otherwise a video when it has a video extension; otherwise neither. An
   * image is scaled to "s_" and thumbnailed to "t_" plus the web name; a
   * video is re-encoded to its stem plus ".mp4", and thumbnailed to that
   * name plus ".jpg".
   */
  lemma GetFileClassifies(o: Options, path: string)
    ensures var f := GetFile(o, path);
      (f.kind == Image <==> IsImageName(o, WebName(path))) &&
      (f.kind == Video <==> !IsImageName(o, WebName(path)) && IsVideoName(o, WebName(path))) &&
      (f.kind == Image ==> f.scale == "s_" + WebName(path) && f.thumbnail == "t_" + WebName(path)) &&
      (f.kind == Video ==>
        f.scale == TrimSuffix(WebName(path), Ext(WebName(path))) + ".mp4" && f.thumbnail == f.scale + ".jpg")
  {
  }

  /** Matching looks only at the lower-cased name. */
  lemma MatchesLowerCase(name: string, other: string, extensions: string)
    requires ToLower(name) == ToLower(other)
    ensures MatchesExtension(name, extensions) == MatchesExtension(other, extensions)
  {
  }

  lemma {:induction false} ExtOfLower(s: string)
    ensures Ext(ToLower(s)) == ToLower(Ext(s))
    decreases |s|
  {
    if s != [] {
      var n := |s|;
      var init, c := s[..n - 1], s[n - 1];
      assert s == init + [c];
      LowerSnoc(init, c);
      var lower := ToLower(s);
      assert lower[..n - 1] == ToLower(init) && lower[n - 1] == LowerChar(c);
      ExtOfLower(init);
      var e := Ext(init);
      if c == '/' {
        assert LowerChar(c) == '/';
      } else if c == '.' {
        assert LowerChar(c) == '.';
        assert ToLower(".") == "." by { LowerSnoc([], '.'); }
      } else {
        assert LowerChar(c) != '/' && LowerChar(c) != '.';
        assert Ext(lower) == (if Ext(ToLower(init)) == [] then [] else Ext(ToLower(init)) + [LowerChar(c)]);
        assert Ext(s) == (if e == [] then [] else e + [c]);
        if e != [] {
          LowerSnoc(e, c);
        }
      }
    }
  }

  /** Lower-casing a name with one more character lower-cases that character. */
  lemma LowerSnoc(a: string, c: char)
    ensures ToLower(a + [c]) == ToLower(a) + [LowerChar(c)]
  {
    ToLowerAppend(a, [c]);
    assert [c][1..] == [];
  }


  /**
   * Changing the letter case of a file name never changes its kind, although
   * it may change the output names.
   */
  lemma ClassificationIgnoresCase(o: Options, path: string, other: string)
    requires ToLower(Base(path)) == ToLower(Base(other))
    ensures GetFile(o, path).kind == GetFile(o, other).kind
  {
    WebNameIgnoresCase(path, other);
    var n, m := WebName(path), WebName(other);
    MatchesLowerCase(n, m, o.imageExtensions);
    MatchesLowerCase(n, m, o.videoExtensions);
  }

  lemma WebNameIgnoresCase(path: string, other: string)
    requires ToLower(Base(path)) == ToLower(Base(other))
    ensures ToLower(WebName(path)) == ToLower(WebName(other))
  {
    var b, c := Base(path), Base(other);
    ExtOfLower(b);
    ExtOfLower(c);
    assert ToLower(Ext(b)) == ToLower(Ext(c));
    ToLowerAppend(b, ".jpg");
    ToLowerAppend(c, ".jpg");
  }

  /** An extension written with an upper-case letter can never match, since names are lower-cased first. */
  lemma UpperCaseExtensionNeverMatches(name: string, extensions: string)
    requires forall ext :: ext in Split(extensions, ',') ==> exists i :: 0 <= i < |ext| && IsUpper(ext[i])
    ensures !MatchesExtension(name, extensions)
  {
    var lower := ToLower(name);
    forall ext | ext in Split(extensions, ',') ensures !HasSuffix(lower, ext) {
      var i :| 0 <= i < |ext| && IsUpper(ext[i]);
      if |ext| <= |lower| {
        var tail := lower[|lower| - |ext|..];
        assert tail[i] == lower[|lower| - |ext| + i];
        assert tail != ext;
      }
    }
  }

  /** An empty entry in the list is a suffix of every name, so it makes every name match. */
  lemma EmptyEntryMatches(name: string, extensions: string)
    requires "" in Split(extensions, ',')
    ensures MatchesExtension(name, extensions)
  {
    assert HasSuffix(ToLower(name), "");
  }

  /** The lists that hold an empty entry: the empty list, a leading, trailing or doubled comma. */
  lemma EmptyEntryMatchesEverything(name: string, extensions: string, rest: string)
    ensures MatchesExtension(name, "")
    ensures MatchesExtension(name, extensions + ",")
    ensures MatchesExtension(name, "," + extensions)
    ensures MatchesExtension(name, extensions + ",," + rest)
  {
    EmptyEntries(extensions, rest);
    EmptyEntryMatches(name, "");
    EmptyEntryMatches(name, extensions + ",");
    EmptyEntryMatches(name, "," + extensions);
    EmptyEntryMatches(name, extensions + ",," + rest);
  }

  lemma EmptyEntries(a: string, b: string)
    ensures "" in Split("", ',')
    ensures "" in Split(a + ",", ',')
    ensures "" in Split("," + a, ',')
    ensures "" in Split(a + ",," + b, ',')
  {
    assert Split("", ',') == [""];
    SplitAround(a, "", ',');
    assert a + "," == a + [','] + "";
    SplitAround("", a, ',');
    assert "," + a == "" + [','] + a;
    SplitAround(a + ",", b, ',');
    assert a + ",," + b == (a + ",") + [','] + b;
  }

  /**
   * A ".heic" file becomes "<name>.heic.jpg", so it is an image as soon as
   * "jpg" is an image extension, whether or not "heic" is listed.
   */
  lemma HeicIsImageWhenJpgListed(o: Options, path: string)
    requires "jpg" in Split(o.imageExtensions, ',')
    requires ToLower(Ext(Base(path))) == ".heic"
    ensures WebName(path) == Base(path) + ".jpg"
    ensures GetFile(o, path).kind == Image
    ensures GetFile(o, path).scale == "s_" + WebName(path)
    ensures GetFile(o, path).thumbnail == "t_" + WebName(path)
  {
    HeicWebName(path);
    ListedSuffixMatches(WebName(path), o.imageExtensions, "jpg");
    ImageNames(o, path);
  }

  /** The default `-image` list splits into its five extensions. */
  lemma DefaultImageSplit()
    ensures Split(DefaultImageExtensions, ',') == ["jpg", "jpeg", "gif", "png", "heic"]
    ensures "jpg" in Split(DefaultImageExtensions, ',')
  {
    assert DefaultImageExtensions == "jpg" + "," + ("jpeg" + "," + ("gif" + "," + "png" + "," + "heic"));
    SplitFive("jpg", "jpeg", "gif", "png", "heic");
  }

  /** The default `-video` list splits into its three extensions. */
  lemma DefaultVideoSplit()
    ensures Split(DefaultVideoExtensions, ',') == ["mp4", "avi", "mov"]
  {
    assert DefaultVideoExtensions == "mp4" + "," + "avi" + "," + "mov";
    SplitThree("mp4", "avi", "mov");
  }

  lemma SplitThree(a: string, b: string, c: string)
    requires ',' !in a && ',' !in b && ',' !in c
    ensures Split(a + "," + b + "," + c, ',') == [a, b, c]
  {
    SplitJoined([c], ',');
    SplitCons(b, c);
    SplitCons(a, b + "," + c);
    assert a + "," + b + "," + c == a + "," + (b + "," + c);
  }

  lemma SplitFive(a: string, b: string, c: string, d: string, e: string)
    requires ',' !in a && ',' !in b && ',' !in c && ',' !in d && ',' !in e
    ensures Split(a + "," + (b + "," + (c + "," + d + "," + e)), ',') == [a, b, c, d, e]
  {
    SplitThree(c, d, e);
    SplitCons(b, c + "," + d + "," + e);
    SplitCons(a, b + "," + (c + "," + d + "," + e));
  }

  /** Splitting a plain entry, a comma and a list puts the entry in front. */
  lemma SplitCons(entry: string, rest: string)
    requires ',' !in entry
    ensures Split(entry + "," + rest, ',') == [entry] + Split(rest, ',')
  {
    SplitJoined([entry], ',');
    SplitAround(entry, rest, ',');
  }

  /** With the default `-image` list, a .heic file is an Image whose web versions are JPEGs. */
  lemma DefaultListsTakeHeic(o: Options, path: string)
    requires o.imageExtensions == DefaultImageExtensions
    requires ToLower(Ext(Base(path))) == ".heic"
    ensures WebName(path) == Base(path) + ".jpg"
    ensures GetFile(o, path).kind == Image
    ensures GetFile(o, path).scale == "s_" + WebName(path)
    ensures GetFile(o, path).thumbnail == "t_" + WebName(path)
  {
    DefaultImageSplit();
    HeicIsImageWhenJpgListed(o, path);
  }

  lemma ImageNames(o: Options, path: string)
    requires IsImageName(o, WebName(path))
    ensures GetFile(o, path).kind == Image
    ensures GetFile(o, path).scale == "s_" + WebName(path)
    ensures GetFile(o, path).thumbnail == "t_" + WebName(path)
  {
  }

  /**
   * Any file other than a ".heic" one keeps its base name: an image-listed
   * "a/photo.jpg" becomes "s_photo.jpg" and "t_photo.jpg".
   */
  lemma PlainImageNames(o: Options, path: string)
    requires ToLower(Ext(Base(path))) != ".heic"
    requires IsImageName(o, Base(path))
    ensures WebName(path) == Base(path)
    ensures GetFile(o, path).kind == Image
    ensures GetFile(o, path).scale == "s_" + Base(path)
    ensures GetFile(o, path).thumbnail == "t_" + Base(path)
  {
    ImageNames(o, path);
  }

  lemma ListedSuffixMatches(name: string, extensions: string, ext: string)
    requires ext in Split(extensions, ',') && HasSuffix(ToLower(name), ext)
    ensures MatchesExtension(name, extensions)
  {
  }

  lemma HeicWebName(path: string)
    requires ToLower(Ext(Base(path))) == ".heic"
    ensures WebName(path) == Base(path) + ".jpg"
    ensures HasSuffix(ToLower(WebName(path)), "jpg")
  {
    LowerEndsInJpg(Base(path));
  }

  /** Appending ".jpg" leaves a name whose lower-cased form ends in "jpg". */
  lemma LowerEndsInJpg(base: string)
    ensures HasSuffix(ToLower(base + ".jpg"), "jpg")
  {
    ToLowerAppend(base, ".jpg");
    LowerJpg();
    var lower := ToLower(base + ".jpg");
    assert lower == ToLower(base) + ".jpg";
    assert lower[|lower| - 3..] == "jpg";
  }

  lemma LowerJpg()
    ensures ToLower(".jpg") == ".jpg"
  {
    var r := ToLower(".jpg");
    assert r[0] == '.' && r[1] == 'j' && r[2] == 'p' && r[3] == 'g';
  }
}
