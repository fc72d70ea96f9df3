/**
 * The HTML fragments of cmd/bagal/html.go: one per media file and one
 * folder link per subdirectory, together with readers that recover the
 * attribute values from a fragment.
 */
module Html {
  import opened Wrappers
  import opened Strings
  import opened Media

  const ImageOpen := "<a href='"
  const ImageMiddle := "'><img src='"
  const ImageClose := "' loading='lazy'/></a>"
  const VideoOpen := "<video poster='"
  const VideoMiddle := "' preload='none' controls><source src='"
  const VideoClose := "'></video>"

  /** FileHTML: a link around the thumbnail for an image, a player for a video, nothing otherwise. */
  function FileHtml(f: File): (r: string)
    ensures r == "" <==> f.kind == Unknown
  {
    if f.kind == Unknown then ""
    else if f.kind == Image then
      ImageOpen + f.scale + ImageMiddle + f.thumbnail + ImageClose
    else
      VideoOpen + f.thumbnail + VideoMiddle + f.scale + VideoClose
  }

  /** The picture a folder link shows: the directory's own thumbnail, else one under the folder. */
  function FolderImage(d: Directory): string {
    if d.thumbnail == "" then d.name + "/" + d.subThumbnail else d.thumbnail
  }

  const FolderHref := "<a class='folder' href='"
  const IndexSuffix := "/index.html"
  const LinkEnd := "'>"
  const ImgOpen := "<img src='"
  const ImgEnd := "' />"
  const CaptionOpen := "<div>"
  const CaptionEnd := "</div></a>"

  /** The opening of a folder link, pointing at the folder's index.html. */
  function FolderOpen(name: string): string { FolderHref + name + IndexSuffix + LinkEnd }

  function ImageTag(src: string): string { ImgOpen + src + ImgEnd }

  function FolderCaption(name: string): string { CaptionOpen + name + CaptionEnd }

  /** DirectoryHTML: a folder link holding one picture and the folder's name. */
  function DirectoryHtml(d: Directory): string {
    FolderOpen(d.name) + ImageTag(FolderImage(d)) + FolderCaption(d.name)
  }

  /** A folder link opens with the link to the folder's index.html and closes with its caption. */
  lemma DirectoryHtmlBounds(d: Directory)
    ensures HasPrefix(DirectoryHtml(d), FolderOpen(d.name))
    ensures HasSuffix(DirectoryHtml(d), FolderCaption(d.name))
  {
    var open, tag, caption := FolderOpen(d.name), ImageTag(FolderImage(d)), FolderCaption(d.name);
    var r := open + tag + caption;
    assert r[..|open|] == open;
    assert r[|r| - |caption|..] == caption;
  }

  /** The text of `s` before its first single quote. */
  function UpToQuote(s: string): (r: string)
    ensures HasPrefix(s, r) && '\'' !in r
    ensures |r| < |s| ==> s[|r|] == '\''
  {
    if s == [] || s[0] == '\'' then [] else [s[0]] + UpToQuote(s[1..])
  }

  /** A quoted attribute value without quotes inside reads back exactly. */
  lemma {:induction false} UpToQuoteReads(value: string, rest: string)
    requires '\'' !in value
    requires HasPrefix(rest, "'")
    ensures UpToQuote(value + rest) == value
    decreases |value|
  {
    if value == [] {
      assert value + rest == rest;
    } else {
      var s := value + rest;
      assert value == [value[0]] + value[1..];
      assert s[0] == value[0] != '\'';
      assert s[1..] == value[1..] + rest;
      UpToQuoteReads(value[1..], rest);
      assert UpToQuote(s) == [s[0]] + UpToQuote(s[1..]);
    }
  }

  /**
   * Reads `open + x + middle + y + rest` back into `(x, y, rest)`, where
   * `middle` and `rest` begin with the quotes that close x and y.
   */
  function ReadTwoValues(s: string, open: string, middle: string): Option<(string, string, string)>
  {
    if !HasPrefix(s, open) then None
    else
      var rest := s[|open|..];
      var x := UpToQuote(rest);
      var rest2 := rest[|x|..];
      if !HasPrefix(rest2, middle) then None
      else
        var rest3 := rest2[|middle|..];
        var y := UpToQuote(rest3);
        Some((x, y, rest3[|y|..]))
  }

  lemma ReadTwoValuesOf(open: string, x: string, middle: string, y: string, rest: string)
    requires '\'' !in x && '\'' !in y
    requires HasPrefix(middle, "'") && HasPrefix(rest, "'")
    ensures ReadTwoValues(open + x + middle + y + rest, open, middle) == Some((x, y, rest))
  {
    var r2 := y + rest;
    var r1 := middle + r2;
    var r0 := x + r1;
    var s := open + x + middle + y + rest;
    assert s == open + r0;
    assert s[|open|..] == r0 && HasPrefix(s, open) by { DropPrefix(open, r0); }
    assert UpToQuote(r0) == x by {
      assert HasPrefix(r1, "'") by { PrefixOfAppend(middle, r2, "'"); }
      UpToQuoteReads(x, r1);
    }
    assert r0[|x|..] == r1 by { DropPrefix(x, r1); }
    assert HasPrefix(r1, middle) && r1[|middle|..] == r2 by { DropPrefix(middle, r2); }
    assert UpToQuote(r2) == y by { UpToQuoteReads(y, rest); }
    assert r2[|y|..] == rest by { DropPrefix(y, rest); }
  }

  lemma DropPrefix(a: string, b: string)
    ensures HasPrefix(a + b, a) && (a + b)[|a|..] == b
  {
    assert (a + b)[..|a|] == a;
  }

  lemma PrefixOfAppend(a: string, b: string, p: string)
    requires HasPrefix(a, p)
    ensures HasPrefix(a + b, p)
  {
    assert (a + b)[..|p|] == a[..|p|];
  }

  lemma QuotedLiterals()
    ensures HasPrefix(ImageMiddle, "'") && HasPrefix(ImageClose, "'")
    ensures HasPrefix(VideoMiddle, "'") && HasPrefix(VideoClose, "'")
  {
    assert ImageMiddle[..1] == [ImageMiddle[0]];
    assert ImageClose[..1] == [ImageClose[0]];
    assert VideoMiddle[..1] == [VideoMiddle[0]];
    assert VideoClose[..1] == [VideoClose[0]];
  }

  /** What a file fragment shows. */
  datatype Fragment = Nothing | ImageLink(scale: string, thumbnail: string) | VideoPlayer(scale: string, thumbnail: string)

  function FragmentOf(f: File): Fragment {
    match f.kind
    case Image => ImageLink(f.scale, f.thumbnail)
    case Video => VideoPlayer(f.scale, f.thumbnail)
    case Unknown => Nothing
  }

  /** Reads a file fragment back: which kind of entry it is and which files it refers to. */
  function ReadFileHtml(s: string): Option<Fragment> {
    if s == "" then Some(Nothing)
    else match ReadTwoValues(s, ImageOpen, ImageMiddle)
      case Some((scale, thumb, rest)) => if rest == ImageClose then Some(ImageLink(scale, thumb)) else None
      case None =>
        match ReadTwoValues(s, VideoOpen, VideoMiddle)
        case Some((thumb, scale, rest)) => if rest == VideoClose then Some(VideoPlayer(scale, thumb)) else None
        case None => None
  }

  /**
   * A file fragment records the file's kind, scaled name and thumbnail name
   * exactly, as long as those names contain no single quote.
   */
  lemma FileHtmlReadsBack(f: File)
    requires '\'' !in f.scale && '\'' !in f.thumbnail
    ensures ReadFileHtml(FileHtml(f)) == Some(FragmentOf(f))
  {
    QuotedLiterals();
    match f.kind
    case Unknown =>
    case Image =>
      ReadTwoValuesOf(ImageOpen, f.scale, ImageMiddle, f.thumbnail, ImageClose);
    case Video =>
      var s := FileHtml(f);
      assert s[..|ImageOpen|] != ImageOpen by { assert s[1] == 'v' != ImageOpen[1]; }
      ReadTwoValuesOf(VideoOpen, f.thumbnail, VideoMiddle, f.scale, VideoClose);
  }

  const FolderPicture := "'><img src='"

  /** Reads a folder link back into the folder's name and the picture it shows. */
  function ReadDirectoryHtml(s: string): Option<(string, string)> {
    match ReadTwoValues(s, FolderHref, FolderPicture)
    case None => None
    case Some((target, picture, rest)) =>
      if !HasSuffix(target, IndexSuffix) then None
      else
        var name := target[..|target| - |IndexSuffix|];
        if rest == ImgEnd + FolderCaption(name) then Some((name, picture)) else None
  }

  lemma DirectoryHtmlShape(d: Directory)
    ensures DirectoryHtml(d) == FolderHref + (d.name + IndexSuffix) + FolderPicture + FolderImage(d) + (ImgEnd + FolderCaption(d.name))
  {
    assert LinkEnd + ImgOpen == FolderPicture;
    Regroup(FolderHref, d.name, IndexSuffix, LinkEnd, ImgOpen, FolderImage(d), ImgEnd, FolderCaption(d.name));
  }

  /** Concatenation regrouped the way a folder link is read back. */
  lemma Regroup(h: string, n: string, x: string, l: string, o: string, img: string, e: string, cap: string)
    ensures h + n + x + l + (o + img + e) + cap == h + (n + x) + (l + o) + img + (e + cap)
  {
    var left := h + n + x + l + (o + img + e) + cap;
    var right := h + (n + x) + (l + o) + img + (e + cap);
    assert |left| == |right|;
    forall k | 0 <= k < |left| ensures left[k] == right[k] {
    }
  }

  /**
   * A folder link names its folder and shows exactly FolderImage(d): the
   * directory's thumbnail, or the path under the folder built from
   * subThumbnail when the directory has none.
   */
  lemma DirectoryHtmlReadsBack(d: Directory)
    requires '\'' !in d.name && '\'' !in d.thumbnail && '\'' !in d.subThumbnail
    ensures ReadDirectoryHtml(DirectoryHtml(d)) == Some((d.name, FolderImage(d)))
  {
    DirectoryHtmlShape(d);
    FolderLinkReads(d.name, FolderImage(d));
  }

  lemma FolderLinkReads(name: string, picture: string)
    requires '\'' !in name && '\'' !in picture
    ensures ReadDirectoryHtml(FolderHref + (name + IndexSuffix) + FolderPicture + picture + (ImgEnd + FolderCaption(name))) == Some((name, picture))
  {
    var target := name + IndexSuffix;
    var rest := ImgEnd + FolderCaption(name);
    assert '\'' !in target by { assert '\'' !in IndexSuffix; }
    assert HasPrefix(FolderPicture, "'") by { assert FolderPicture[..1] == [FolderPicture[0]]; }
    assert HasPrefix(rest, "'") by { assert rest[..1] == ImgEnd[..1] == [ImgEnd[0]]; }
    ReadTwoValuesOf(FolderHref, target, FolderPicture, picture, rest);
    assert target[..|target| - |IndexSuffix|] == name;
  }

  /** The number of positions at which `pattern` starts in `s`. */
  function Occurrences(s: string, pattern: string): nat
    requires pattern != []
  {
    if |s| < |pattern| then 0
    else (if s[..|pattern|] == pattern then 1 else 0) + Occurrences(s[1..], pattern)
  }

  /** Text without the pattern's first character adds no occurrence. */
  lemma {:induction false} OccurrencesSkip(a: string, b: string, pattern: string)
    requires pattern != [] && pattern[0] !in a
    ensures Occurrences(a + b, pattern) == Occurrences(b, pattern)
    decreases |a|
  {
    if a != [] {
      var s := a + b;
      assert a == [a[0]] + a[1..];
      assert s[1..] == a[1..] + b;
      OccurrencesSkip(a[1..], b, pattern);
      if |s| >= |pattern| {
        assert s[..|pattern|] != pattern by { assert s[..|pattern|][0] == a[0]; }
        assert Occurrences(s, pattern) == Occurrences(s[1..], pattern);
      } else {
        assert Occurrences(b, pattern) == 0;
      }
    } else {
      assert a + b == b;
    }
  }

  /** A literal whose only possible match is at its start adds that match, if any. */
  lemma OccurrencesLead(a: string, b: string, pattern: string)
    requires pattern != [] && |a| >= |pattern|
    requires pattern[0] !in a[1..]
    ensures Occurrences(a + b, pattern) == (if a[..|pattern|] == pattern then 1 else 0) + Occurrences(b, pattern)
  {
    var s := a + b;
    assert s[..|pattern|] == a[..|pattern|];
    assert s[1..] == a[1..] + b;
    OccurrencesSkip(a[1..], b, pattern);
  }

  /** The caption closing a folder link holds no image tag. */
  lemma NoImageInCaption(name: string)
    requires '<' !in name
    ensures Occurrences(FolderCaption(name), "<img") == 0
  {
    var p := "<img";
    assert Occurrences(name + CaptionEnd, p) == 0 by {
      OccurrencesSkip(name, CaptionEnd, p);
      CaptionEndHasNoImage();
    }
    assert CaptionOpen[..4] != p by { assert CaptionOpen[1] != p[1]; }
    assert '<' !in CaptionOpen[1..];
    OccurrencesLead(CaptionOpen, name + CaptionEnd, p);
    assert FolderCaption(name) == CaptionOpen + (name + CaptionEnd);
  }

  lemma CaptionEndHasNoImage()
    ensures Occurrences(CaptionEnd, "<img") == 0
  {
    var p := "<img";
    var t7 := "</a>";
    assert Occurrences(t7, p) == 0 by {
      assert t7[..4] != p by { assert t7[1] != p[1]; }
      OccurrencesLead(t7, [], p);
      assert t7 + [] == t7;
    }
    var t6 := "</div>";
    assert t6[..4] != p by { assert t6[1] != p[1]; }
    OccurrencesLead(t6, t7, p);
    assert CaptionEnd == t6 + t7;
  }

  lemma ImageTagCount(img: string, rest: string)
    requires '<' !in img
    ensures Occurrences(ImageTag(img) + rest, "<img") == 1 + Occurrences(rest, "<img")
  {
    var p := "<img";
    assert '<' !in img + ImgEnd by { assert '<' !in ImgEnd; }
    OccurrencesSkip(img + ImgEnd, rest, p);
    assert ImgOpen[..4] == p && '<' !in ImgOpen[1..];
    OccurrencesLead(ImgOpen, img + ImgEnd + rest, p);
    assert ImageTag(img) + rest == ImgOpen + (img + ImgEnd + rest);
  }

  /** The opening of a folder link starts with no image tag and holds no '<' after its first character. */
  lemma FolderLinkHasNoTag(name: string)
    requires '<' !in name
    ensures '<' !in name + IndexSuffix + LinkEnd
    ensures '<' !in FolderHref[1..] && FolderHref[..4] != "<img"
  {
    assert '<' !in IndexSuffix by { assert forall k :: 0 <= k < |IndexSuffix| ==> IndexSuffix[k] != '<'; }
    assert '<' !in LinkEnd;
    assert FolderHref[..4] != "<img" by { assert FolderHref[1] != "<img"[1]; }
    var tail := FolderHref[1..];
    assert '<' !in tail by { assert forall k :: 0 <= k < |tail| ==> tail[k] != '<'; }
  }

  lemma FolderHeadCount(name: string, rest: string)
    requires '<' !in name
    ensures Occurrences(FolderOpen(name) + rest, "<img") == Occurrences(rest, "<img")
  {
    var p := "<img";
    var link := name + IndexSuffix + LinkEnd;
    FolderLinkHasNoTag(name);
    OccurrencesSkip(link, rest, p);
    var tail := link + rest;
    OccurrencesLead(FolderHref, tail, p);
    assert FolderOpen(name) + rest == FolderHref + tail;
  }

  /** A folder link holds exactly one image tag, as long as the names in it contain no '<'. */
  lemma OneImagePerFolder(d: Directory)
    requires '<' !in d.name && '<' !in d.thumbnail && '<' !in d.subThumbnail
    ensures Occurrences(DirectoryHtml(d), "<img") == 1
  {
    var img := FolderImage(d);
    var caption := FolderCaption(d.name);
    var tag := ImageTag(img) + caption;
    assert Occurrences(tag, "<img") == 1 by {
      assert '<' !in img;
      NoImageInCaption(d.name);
      ImageTagCount(img, caption);
    }
    assert DirectoryHtml(d) == FolderOpen(d.name) + tag;
    FolderHeadCount(d.name, tag);
  }
}
