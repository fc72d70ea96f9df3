# bagal, modelled in Dafny

`bagal` turns a directory tree of photos and videos into a static web
gallery. It walks the input tree. It hands every image to ImageMagick and
every video to ffmpeg, to get a scaled copy and a thumbnail. It writes one
`index.html` per directory, listing links to the subdirectories and to the
converted media.

This project models the deterministic core of that walk:

- **`Media`** (`media.dfy`): the records of `cmd/bagal/main.go` and how a
  file is classified and named. `isImage`/`isVideo` are proved against an
  "ends with one of the listed extensions" predicate. `getFile` derives the
  web name (`.heic` gets `.jpg` appended), the `s_`/`t_` image names and the
  `.mp4` video names.
- **`Html`** (`html.dfy`): `FileHTML` and `DirectoryHTML`. Each fragment is
  paired with a reader that gets the attribute values back. There is also a
  count of `<img` tags.
- **`Convert`** (`convert.go`, in `convert.dfy`):
  - the four command builders, with the option values they pass;
  - `extensionsToMap`, a loop proved against the set of dotted keys;
  - `MediaWebConverter.Convert`, a method on a `Converter` class. Starting a
    run appends its command line to the `launched` sequence. `os.Stat` is
    membership in a set of existing paths.
- **`Walk`** (`walk.dfy`): `getDirItems` and `readDir`.
  - The file system is an entry tree, plus sets of paths on which creating,
    listing or writing fails.
  - The interrupt flag `finishUp` is an oracle. The walk counts its reads, and
    a signal arriving before read *n* makes read *n* and every later read see
    `true`.
  - `readDir` is an imperative recursive method over a `Converter` and a
    `Host` (flag reads, pages written). It is proved equal to a functional
    model, `Visit`, which returns the summary, the error and every effect.
- **`WalkProps`** (`walk_props.dfy`): what a walk computes.
  - Without interruption or error: the counts, the thumbnail, and the
    directory's own `index.html`, written last. It holds a folder link per
    subdirectory, showing that subdirectory's summary, then the fragment of
    every other entry, each in listing order.
  - Under any interruption and any failures: effects only accumulate; a
    success is named after the directory; an error comes with the zero
    summary unless it is the failed write of the directory's own
    `index.html`; and a walk on a file system without failures returns no
    error.
  - What an interrupt does. A loop stops only right after a flag read that
    saw it raised. The first loop then returns the summary of its rounds over
    the subdirectories before that read. The second loop returns what the
    loop without an interrupt returns over the files up to the one after
    which it read the flag, with those files' counts and first thumbnail.
  - A walk that its own flag read stops writes no page at its own
    `index.html`; any other walk without an error writes that page last.
  - A flag already raised on entry stops a directory before its first
    subdirectory, or after its first file.
  - A directory with no files whose first loop reaches its last
    subdirectory writes its own `index.html` once that subdirectory returns
    without error, whatever the walk below saw.
  - Errors: a directory that cannot be created or listed gives its error at
    once, with no effects; a subdirectory's error stops the whole walk with
    the zero summary.
- **`Rerun`** (`rerun.dfy`): running the gallery twice. Once a first walk
  without an interrupt has succeeded and its runs have written their
  targets, a second walk over the same tree launches nothing, whatever
  interrupt it sees.
- `Strings`, `FilePath`, `Wrappers`: the parts of Go's `strings`,
  `path/filepath` and `fmt` that the core uses.

The three source files disagree with one another in places. The model unifies them as follows:

- `File.Target` in `main.go` is called `scale`, as in `html.go` and `convert.go`.
- `Directory` has the `subThumbnail` field that `html.go` reads. Nothing assigns it, so it is always `""`.
- `Options` has the `convert2JpegExtensions` field that `convert.go` reads.
- `readDir`'s call to `convertFile` is `Converter.Convert(outdir, file)`.

Where the code differs from what one might expect of the tool, the model
follows the code:

- A `.heic` file keeps its extension and gets `.jpg` appended
  (`s_photo.heic.jpg`). It is not renamed to `s_photo.jpg`.
- `readDir` never adopts a subdirectory's thumbnail.
- Every subdirectory gets a folder link, including one without any media.
- An interrupt stops only the directory whose loop reads the raised flag:
  that directory returns without writing its `index.html`. The flag is read
  before each subdirectory and after each file. A second loop entered with
  the flag raised still converts its first file (`InterruptedFiles`). A
  directory with no files goes on to write its own `index.html` once its
  last subdirectory returns without error, even when that subdirectory was
  interrupted (`ParentWritesAfterLastChild`,
  `InterruptBelowStillWritesParent`). New file conversions are therefore not
  halted at once: one more file may be converted per directory whose second
  loop is reached after the interrupt.
- A directory with no entries never reads the flag, so its `index.html` is written even after an interrupt (`EmptyDirectoryIgnoresFlag`).
- The JPEG-conversion map is built but never read.

## Model

| member | source | states |
|---|---|---|
| Strings.Split | cmd/bagal/main.go:261 | the pieces contain no separator and, joined with it, give back the input; there is at least one piece |
| Strings.SplitJoined | cmd/bagal/main.go:261 | splitting undoes joining, for pieces free of the separator |
| Strings.SplitAround | cmd/bagal/convert.go:72 | a separator splits the text on its two sides independently |
| Strings.ToLower | cmd/bagal/main.go:263 | keeps the length and lower-cases each character (ASCII) |
| Strings.ToLowerIdempotent | cmd/bagal/main.go:263 | lower-casing twice is lower-casing once |
| Strings.TrimSuffix | cmd/bagal/main.go:153 | drops the suffix exactly when it is there, otherwise returns the input |
| Strings.HasPrefix | cmd/bagal/convert.go:74 | (predicate, no contract of its own) strings.HasPrefix: the text starts with the prefix |
| Strings.HasSuffix | cmd/bagal/main.go:263 | (predicate, no contract of its own) strings.HasSuffix: the text ends with the suffix |
| Strings.IntToStringRoundTrip | cmd/bagal/convert.go:148 | `%d` text reads back as the same integer |
| FilePath.Base | cmd/bagal/main.go:143 | the result is non-empty and is "/" or holds no separator; for a path not ending in '/' it is "/" or a suffix of the path |
| FilePath.BaseIsLastElement | cmd/bagal/main.go:143 | "." for the empty path; "/" when nothing but separators is left after trimming trailing ones; otherwise the whole last element of the trimmed path: a separator-free suffix that starts the path or follows a separator |
| FilePath.Ext | cmd/bagal/main.go:144 | empty, or a suffix of the path from a '.' with no later '.' or '/'; empty only when the last element has no '.' |
| FilePath.Join | cmd/bagal/main.go:190 | (no contract of its own) filepath.Join of two elements without Clean; `BaseOfJoin` states what the walk needs of it |
| FilePath.StemAndExt | cmd/bagal/main.go:153 | trimming the extension and appending it again gives the name back |
| FilePath.BaseOfJoin | cmd/bagal/main.go:201-213 | the base of a directory joined with a plain name is that name |
| Media.HasListedSuffix | cmd/bagal/main.go:260-278 | the loop returns true exactly when the lower-cased name ends with one of the comma-separated extensions |
| Media.MatchesExtension | cmd/bagal/main.go:260-278 | (predicate, no contract of its own) the lower-cased name ends with one of the comma-separated entries; the loop of `HasListedSuffix` is proved equal to it |
| Media.IsImage | cmd/bagal/main.go:260-268 | true exactly when the name ends with a listed image extension |
| Media.IsVideo | cmd/bagal/main.go:270-278 | true exactly when the name ends with a listed video extension |
| Media.WebName | cmd/bagal/main.go:143-146 | the base name, or the base name with ".jpg" appended; ".jpg" is appended exactly when the extension lower-cases to ".heic", so any other name is left unchanged |
| Media.HeicWebName | cmd/bagal/main.go:144-146 | a name whose extension lower-cases to ".heic" gets ".jpg" appended, so its lower-cased web name ends in "jpg" |
| Media.GetFile | cmd/bagal/main.go:139-162 | the source is the path unchanged; the names are empty exactly for an Unknown file; scaled name and thumbnail differ for a media file |
| Media.GetFileClassifies | cmd/bagal/main.go:148-159 | Image exactly when the web name has an image extension; Video exactly when it has a video extension but no image extension; image names "s_"/"t_" + web name; video name stem + ".mp4" and thumbnail that + ".jpg" |
| Media.ImageNames | cmd/bagal/main.go:148-151 | an image-listed web name makes an Image named "s_"/"t_" + web name |
| Media.PlainImageNames | cmd/bagal/main.go:143-151 | a file whose extension is not ".heic" keeps its base name: when that name is image-listed, the file is an Image named "s_"/"t_" + base name ("a/photo.jpg" gives "s_photo.jpg") |
| Media.MatchesLowerCase | cmd/bagal/main.go:263 | matching depends only on the lower-cased name |
| Media.ExtOfLower | cmd/bagal/main.go:144 | the extension of the lower-cased name is the lower-cased extension |
| Media.WebNameIgnoresCase | cmd/bagal/main.go:143-146 | names equal up to case give web names equal up to case |
| Media.ClassificationIgnoresCase | cmd/bagal/main.go:143-159 | changing the letter case of a file name never changes its kind |
| Media.UpperCaseExtensionNeverMatches | cmd/bagal/main.go:261-263 | the list is not lower-cased, only the name is: when every listed extension holds an upper-case letter, no name matches |
| Media.EmptyEntryMatches | cmd/bagal/main.go:261-265 | a list holding an empty entry makes every name match, since "" is a suffix of every name |
| Media.EmptyEntryMatchesEverything | cmd/bagal/main.go:261-265 | every name matches an empty list, a list with a leading or a trailing comma, and a list with a doubled comma |
| Media.HeicIsImageWhenJpgListed | cmd/bagal/main.go:144-151 | with "jpg" listed, a ".heic" file is an Image named "s_"/"t_" + name + ".jpg", whether or not "heic" is listed |
| Media.DefaultImageSplit | cmd/bagal/main.go:68 | the default image list splits into jpg, jpeg, gif, png and heic |
| Media.DefaultVideoSplit | cmd/bagal/main.go:69 | the default video list splits into mp4, avi and mov |
| Media.DefaultListsTakeHeic | cmd/bagal/main.go:143-151 | with the default image list of main.go:68, a ".heic" file is an Image whose web name is its base name + ".jpg", scaled to "s_" and thumbnailed to "t_" + that name |
| Html.FileHtml | cmd/bagal/html.go:38-56 | the fragment is empty exactly for an Unknown file |
| Html.FileHtmlReadsBack | cmd/bagal/html.go:43-55 | the fragment shows the kind, the scaled name and the thumbnail exactly: reading it back gives them, when they hold no quote |
| Html.DirectoryHtml | cmd/bagal/html.go:58-84 | (no contract of its own) the folder link; `DirectoryHtmlBounds`, `DirectoryHtmlShape`, `DirectoryHtmlReadsBack` and `OneImagePerFolder` state its properties |
| Html.FolderImage | cmd/bagal/html.go:61-65 | (no contract of its own) the picture of a folder link: the thumbnail, or name + "/" + subThumbnail when it is empty; `DirectoryHtmlReadsBack` reads it back |
| Html.DirectoryHtmlBounds | cmd/bagal/html.go:58-84 | a folder link starts with the link to the folder's index.html and ends with its caption |
| Html.DirectoryHtmlShape | cmd/bagal/html.go:58-84 | a folder link is the folder href, the name + "/index.html", the picture, and the caption closing it |
| Html.DirectoryHtmlReadsBack | cmd/bagal/html.go:60-65 | the link names the folder and shows the thumbnail, or name + "/" + subThumbnail when the thumbnail is empty |
| Html.OneImagePerFolder | cmd/bagal/html.go:60-83 | a folder link holds exactly one `<img`, when the names hold no '<' |
| Html.FolderHeadCount | cmd/bagal/html.go:60 | the link opening adds no `<img` |
| Html.ImageTagCount | cmd/bagal/html.go:61-65 | the picture tag adds exactly one `<img` |
| Html.NoImageInCaption | cmd/bagal/html.go:81-82 | the caption adds no `<img` |
| Convert.ScaleImageCommand | cmd/bagal/convert.go:142-151 | runs magick, reads the source, writes the target, auto-orients and strips |
| Convert.ThumbnailImageCommand | cmd/bagal/convert.go:153-162 | runs magick, reads the source, writes the target, auto-orients and strips |
| Convert.RecodeVideoCommand | cmd/bagal/convert.go:164-175 | runs ffmpeg with "-i" source, writes the target, ends with "-y" |
| Convert.ThumbnailVideoCommand | cmd/bagal/convert.go:177-188 | runs ffmpeg with "-i" source, writes the target, ends with "-y" |
| Convert.ScaleCommandOptions | cmd/bagal/convert.go:142-151 | the "-scale" value is the scale box, for a source not starting with '-' |
| Convert.ThumbnailCommandOptions | cmd/bagal/convert.go:153-162 | the "-thumbnail" value is the thumbnail box, for a source not starting with '-' |
| Convert.RecodeCodecOptions | cmd/bagal/convert.go:168-169 | video codec h264 and audio codec aac |
| Convert.RecodeQualityOptions | cmd/bagal/convert.go:170-171 | preset veryfast and crf 18 |
| Convert.VideoThumbnailQuiet | cmd/bagal/convert.go:180-181 | log level panic |
| Convert.VideoThumbnailFrame | cmd/bagal/convert.go:183-184 | one frame, scaled to cover the thumbnail box keeping the aspect ratio |
| Convert.SizeReadsBack | cmd/bagal/convert.go:148 | the `%dx%d` box splits at 'x' into the width and height, which read back |
| Convert.Dotted | cmd/bagal/convert.go:74-76 | the key starts with '.' and ends with the extension |
| Convert.ExtensionsToMap | cmd/bagal/convert.go:70-80 | the keys are the dotted comma-separated pieces, and every value is true |
| Convert.ExtensionKeysAreDotted | cmd/bagal/convert.go:74-77 | every key starts with '.'; "jpg" and ".jpg" give the same key |
| Convert.EmptyListHasDotKey | cmd/bagal/convert.go:72-77 | an empty list gives the single key "." |
| Convert.ExtensionKeysOfJoin | cmd/bagal/convert.go:72-78 | the keys of a joined list are the union of the keys of its parts |
| Convert.PlanLaunches | cmd/bagal/convert.go:43-62 | runs are launched for the thumbnail, then the scaled file, each only if its target is missing and only for an image or a video |
| Convert.Plan | cmd/bagal/convert.go:43-62 | (no contract of its own) the runs Convert launches; `PlanLaunches`, `PlanRuns`, `PlanImageRuns`, `PlanVideoRuns`, `PlanSkipsExisting` and `PlanIdempotent` state its properties and `Converter.Convert` is proved to launch exactly these |
| Convert.ThumbnailRun | cmd/bagal/convert.go:44-51 | (no contract of its own) the thumbnail run for the file's kind |
| Convert.ScaleRun | cmd/bagal/convert.go:53-60 | (no contract of its own) the scaling run for the file's kind |
| Convert.PlanRuns | cmd/bagal/convert.go:44-60 | at most two runs, none for an Unknown file, each reading the file's source with magick for an image and ffmpeg for a video |
| Convert.PlanImageRuns | cmd/bagal/convert.go:44-60 | for an image, the run writing the thumbnail target is the thumbnail builder's run with the thumbnail box as "-thumbnail", and the run writing the scale target is the scaling builder's with the scale box as "-scale" |
| Convert.PlanVideoRuns | cmd/bagal/convert.go:44-60 | for a video, the run writing the thumbnail target is the frame grab ("-vframes" 1), and the run writing the scale target is the H.264 re-encode |
| Convert.PlanSkipsExisting | cmd/bagal/convert.go:44-59 | no run writes a target that already exists |
| Convert.PlanIdempotent | cmd/bagal/convert.go:44-59 | once the launched runs have produced their targets, converting the file again launches nothing |
| Convert.Converter.constructor | cmd/bagal/convert.go:26-35 | the JPEG map has the dotted keys of the option list; the boxes are the options'; nothing launched |
| Convert.Converter.Ratelimit | cmd/bagal/convert.go:121-138 | the run is appended to the launched runs |
| Convert.Converter.Convert | cmd/bagal/convert.go:43-62 | exactly the planned runs are appended, in order, and the result is nil |
| Walk.DirsOfMember | cmd/bagal/main.go:172-175 | every entry of the directory list is a directory of the listing |
| Walk.FilesOfMember | cmd/bagal/main.go:172-177 | every entry of the file list is a non-directory of the listing |
| Walk.GetDirItems | cmd/bagal/main.go:164-181 | the loop returns the directories and the other entries of the listing, each in listing order |
| Walk.DirsOf | cmd/bagal/main.go:172-178 | (no contract of its own) the subdirectories of a listing in order; `DirsOfMember`, `ListingPartition` and `DirsOrderKept` state its properties |
| Walk.FilesOf | cmd/bagal/main.go:172-178 | (no contract of its own) the other entries of a listing in order; `FilesOfMember`, `ListingPartition` and `FilesOrderKept` state its properties |
| Walk.Visit | cmd/bagal/main.go:184-258 | (no contract of its own) the functional readDir: summary, error and effects; `Walk.ReadDir` is proved equal to it and the WalkProps lemmas state its properties |
| Walk.VisitDirs | cmd/bagal/main.go:208-222 | (no contract of its own) the first loop from a given subdirectory on; `CompleteDirs` and `DirsShape` state its properties |
| Walk.DirStep | cmd/bagal/main.go:209-221 | (no contract of its own) one subdirectory: flag read, recursion, summing before the error check, folder link; `DirStepUninterrupted` states it without interrupt |
| Walk.AddChild | cmd/bagal/main.go:214-216 | (no contract of its own) the summary after taking in a subdirectory; `CompleteDirs` sums it over all subdirectories |
| Walk.VisitFiles | cmd/bagal/main.go:224-249 | (no contract of its own) the second loop from a given file on; `CompleteFiles` and `FilesShape` state its properties |
| Walk.FileStep | cmd/bagal/main.go:225-248 | (no contract of its own) one file: classify, launch the planned runs, render, count, read the flag; `FilesStep` states it without interrupt |
| Walk.Count | cmd/bagal/main.go:237-244 | (no contract of its own) the summary after counting one file; `CountFields` states what it changes |
| Walk.Finish | cmd/bagal/main.go:251-257 | (no contract of its own) writing index.html with the collected fragments, or the write error with the summary |
| Walk.Host.FinishUp | cmd/bagal/main.go:209-211 | reads the flag at the current read count and counts one read |
| Walk.Host.MkdirAll | cmd/bagal/main.go:192-195 | fails exactly on the paths where creation fails |
| Walk.Host.List | cmd/bagal/main.go:165-168 | lists exactly a readable directory, returning its entries |
| Walk.Host.WriteGallery | cmd/bagal/html.go:15-36 | writes one more page unless the write fails, and fails exactly there |
| Walk.ReadDir | cmd/bagal/main.go:184-258 | the summary, the error, the runs launched, the pages written and the flag reads are those of the functional walk |
| Walk.ReadSubdirs | cmd/bagal/main.go:208-222 | the first loop's result and effects are those of the functional loop |
| Walk.ReadSubdir | cmd/bagal/main.go:209-221 | one round of the first loop: flag read, recursion, summing, early returns |
| Walk.ReadFiles | cmd/bagal/main.go:224-249 | the second loop's result and effects are those of the functional loop |
| Walk.ReadFile | cmd/bagal/main.go:225-248 | one round of the second loop: classify, launch the planned runs, render, count, read the flag |
| WalkProps.ListingPartition | cmd/bagal/main.go:172-180 | every entry lands in exactly one of the two lists: their sizes add up and their multisets make up the listing |
| WalkProps.DirsOrderKept | cmd/bagal/main.go:172-178 | the directory list of a concatenation is the concatenation of the lists, so order is kept |
| WalkProps.FilesOrderKept | cmd/bagal/main.go:172-178 | likewise for the other entries |
| WalkProps.CompleteWalk | cmd/bagal/main.go:200-257 | without interrupt, a successful walk has a summary with the directory's base name, the number of subdirectories, the direct image and video counts, the image and video counts of the whole tree, the first direct image's thumbnail under the folder name, and an empty subThumbnail; its own index.html is the last page written, and it holds the folder link of every subdirectory in listing order, each showing that subdirectory's summary, then the fragment of every other entry in listing order |
| WalkProps.Summary | cmd/bagal/main.go:200-244 | (no contract of its own) the summary an uninterrupted walk should return; `SummarisesExactly` ties it to `Summarises` |
| WalkProps.SummarisesExactly | cmd/bagal/main.go:200-244 | the summary properties pin down every field: a summary satisfies them exactly when it is `Summary` |
| WalkProps.FolderLinks | cmd/bagal/main.go:208-221 | (no contract of its own) the folder links of the subdirectories, each showing that subdirectory's summary |
| WalkProps.FilesHtml | cmd/bagal/main.go:224-236 | (no contract of its own) the fragments of the files, each rendered as getFile classifies it |
| WalkProps.PageBody | cmd/bagal/main.go:200-257 | (no contract of its own) the folder links followed by the file fragments |
| WalkProps.WalkSummary | cmd/bagal/main.go:184-258 | without interrupt, a successful walk's summary satisfies the summary properties and its last page is its own index.html |
| WalkProps.WalkPage | cmd/bagal/main.go:200-257 | without interrupt, a successful walk of a directory writes last its own index.html holding the folder links, then the file fragments |
| WalkProps.FinishPage | cmd/bagal/main.go:251-257 | when index.html is written, it is the last page and holds the collected fragments |
| WalkProps.DirsPage | cmd/bagal/main.go:208-222 | without interrupt, a first loop that does not stop appends the folder link of every remaining subdirectory in order, each showing that subdirectory's summary |
| WalkProps.DirStepLinks | cmd/bagal/main.go:209-221 | without interrupt, a subdirectory's round that carries on appends its folder link, showing its summary |
| WalkProps.RoundsPage | cmd/bagal/main.go:208-222 | rounds that carry on append, in order, the link of each entry they handle |
| WalkProps.FilesPage | cmd/bagal/main.go:224-249 | without interrupt, the second loop runs to the end and appends the fragment of every remaining file, in order |
| WalkProps.HandleRenders | cmd/bagal/main.go:235 | handling a file appends its fragment to the page |
| WalkProps.LoopPage | cmd/bagal/main.go:224-249 | without interrupt, a file loop whose step renders appends the rendering of every remaining file, in order |
| WalkProps.SetupFails | cmd/bagal/main.go:184-206 | a directory that cannot be created gives the creation error, and otherwise an entry that cannot be listed as a directory gives the listing error; either way with the zero summary and no effects |
| WalkProps.ChildErrorStops | cmd/bagal/main.go:208-222 | when the first loop reaches a subdirectory without seeing the interrupt and that subdirectory's walk fails, the walk returns the zero summary, that error and the effects so far |
| Walk.DirStepVisits | cmd/bagal/main.go:209-221 | with the flag not raised, a subdirectory's round is its walk: stop with its error, or add it up and append its folder link |
| WalkProps.CompleteDirs | cmd/bagal/main.go:208-222 | without interrupt, the first loop stops only with an error, else counts every subdirectory and adds its whole-tree counts, leaving the direct fields alone |
| WalkProps.CompleteFiles | cmd/bagal/main.go:224-249 | without interrupt, the second loop handles every file, counting images and videos and taking the first image's thumbnail if none is set |
| WalkProps.CountFields | cmd/bagal/main.go:237-244 | counting a file adds one image or one video, sets the thumbnail only for the first image, and an Unknown file changes nothing |
| WalkProps.SummaryOfLoops | cmd/bagal/main.go:200-244 | the two loops' results, started from the zero summary, are the directory's summary |
| WalkProps.WalkShape | cmd/bagal/main.go:184-258 | under any interrupt and failures, effects only grow and subThumbnail stays "". A success is named after the directory. An error returns the zero summary, except a failed write of the directory's own index.html. With no failures, a directory walk succeeds |
| WalkProps.DirsShape | cmd/bagal/main.go:208-222 | the first loop keeps the summary named; it stops without error only right after a flag read that saw the flag raised; it stops with an error only when some file-system operation failed, and then with the zero summary |
| WalkProps.FilesShape | cmd/bagal/main.go:224-249 | the second loop keeps the summary named, writes no page, never fails, and stops only right after a flag read that saw the flag raised |
| WalkProps.DirsSplit | cmd/bagal/main.go:208-222 | a run of the first loop up to a subdirectory that does not stop is followed by the rest of the loop from there |
| WalkProps.DirsUpToCounts | cmd/bagal/main.go:208-217 | each completed round of the first loop counts one more subdirectory and leaves the direct file fields alone |
| WalkProps.InterruptedDirs | cmd/bagal/main.go:208-222 | when the first loop stops without an error, it returns the summary of its rounds over the subdirectories before the one whose flag read first saw the interrupt, with that read counted; a loop that does not stop is its rounds over all the subdirectories |
| WalkProps.InterruptedFiles | cmd/bagal/main.go:224-249 | the second loop stops exactly when one of its reads falls at or after the signal; it then returns, with no error, exactly what the loop without an interrupt returns over the files up to the one whose read first saw it, one read per file; a loop that does not stop is the loop without an interrupt |
| WalkProps.FilesStopWhen | cmd/bagal/main.go:224-249 | the second loop stops exactly when one of its reads falls at or after the signal; otherwise it is the loop without an interrupt |
| WalkProps.FilesStopAfter | cmd/bagal/main.go:224-249 | a stopped second loop returns what the loop without an interrupt returns over the files up to the one whose read first saw the signal |
| WalkProps.FilesAreLoop | cmd/bagal/main.go:224-249 | the second loop, under any flag, is the flag-reading loop over the file step |
| WalkProps.FilesRound | cmd/bagal/main.go:225-248 | one round of the second loop under any flag: the file step, then the flag read |
| WalkProps.StepOfIs | cmd/bagal/main.go:225-236 | the file step does not depend on the flag |
| WalkProps.LoopStopIndex | cmd/bagal/main.go:224-249 | a loop reading the flag once per step stops exactly when a read falls at or after the signal, and otherwise is the loop without an interrupt |
| WalkProps.LoopStopPrefix | cmd/bagal/main.go:224-249 | such a loop, stopping after the step whose read first sees the signal, returns what the loop without an interrupt returns over the entries up to that one |
| WalkProps.InterruptedFilesCount | cmd/bagal/main.go:224-249 | a stopped second loop counts the images and videos among the files up to the one whose read saw the signal, takes the first image among them as thumbnail if none was set, and leaves the other fields alone |
| WalkProps.WalkPages | cmd/bagal/main.go:184-258 | the pages a walk writes continue the earlier ones, and none has a path shorter than the walk's own index.html |
| WalkProps.DirsPages | cmd/bagal/main.go:208-222 | every page the first loop writes has a path longer than the directory's own index.html |
| WalkProps.OwnPage | cmd/bagal/main.go:208-257 | a walk stopped by its own flag read returns no error, its last read saw the interrupt, and it writes no page at its own index.html; any other walk without an error writes that page last; no earlier new page has that path |
| WalkProps.InterruptedBeforeSubdirectory | cmd/bagal/main.go:208-211 | with the flag raised and a subdirectory to visit, the walk returns the named empty summary, no error, after one flag read, with nothing launched and no page |
| WalkProps.InterruptedAfterFile | cmd/bagal/main.go:224-248 | with the flag raised and only files, the first file is converted and counted and the walk returns without error and without writing a page |
| WalkProps.EmptyDirectoryIgnoresFlag | cmd/bagal/main.go:208-257 | an empty directory never reads the flag and writes an index.html with empty content |
| WalkProps.ParentWritesAfterLastChild | cmd/bagal/main.go:208-257 | a directory with no files, whose first loop reaches its last subdirectory without seeing the interrupt, counts that subdirectory and writes its own index.html once the subdirectory's walk returns without error, whatever the flag did below; the page holds the links collected before that subdirectory followed by its link |
| WalkProps.InterruptBelowStillWritesParent | cmd/bagal/main.go:208-257 | with only a subdirectory holding one file, and the signal arriving after the parent's flag read, the file is converted, the subdirectory stops on its flag read, and the parent still writes its index.html without error, although its last flag read saw the interrupt |
| Rerun.PlanEmpty | cmd/bagal/convert.go:43-62 | Convert launches nothing for a file exactly when it is Unknown or both its targets exist |
| Rerun.PlanGrows | cmd/bagal/convert.go:44-59 | a file for which Convert launches nothing still gets nothing launched when more paths exist |
| Rerun.PlanCovered | cmd/bagal/convert.go:44-59 | once every path its runs write exists, Convert launches nothing more for the file |
| Rerun.ProducedSlices | cmd/bagal/convert.go:43-62 | the targets of the runs launched over a span lie within those launched over a wider span |
| Rerun.ConvertedGrows | cmd/bagal/convert.go:44-59 | a tree whose files all have their targets keeps that property when more paths exist |
| Rerun.ListingCovers | cmd/bagal/main.go:172-178 | every entry of a listing lands in the directory list or the file list |
| Rerun.HandleLaunches | cmd/bagal/main.go:230 | handling a file launches Convert's plan for it |
| Rerun.LoopLaunchesNothing | cmd/bagal/main.go:224-249 | a file loop over files with empty plans launches nothing, wherever it stops |
| Rerun.LoopLaunchesAll | cmd/bagal/main.go:224-249 | without interrupt, a file loop launches the plan of every remaining file, in order |
| Rerun.RerunWalk | cmd/bagal/main.go:184-258 | a walk over a tree whose files all have their targets launches nothing, under any interrupt and any failures |
| Rerun.ConvertedFiles | cmd/bagal/main.go:172-178 | the files listed in such a directory have empty plans |
| Rerun.ConvertedDir | cmd/bagal/main.go:172-178 | the subdirectories listed in such a directory have that property too |
| Rerun.RerunDirs | cmd/bagal/main.go:208-222 | the first loop over such a tree launches nothing |
| Rerun.RerunStep | cmd/bagal/main.go:209-221 | one round of the first loop over such a subdirectory launches nothing |
| Rerun.RerunFiles | cmd/bagal/main.go:224-249 | the second loop over files with empty plans launches nothing |
| Rerun.FirstWalk | cmd/bagal/main.go:184-258 | without interrupt, a successful walk keeps the earlier runs and leaves every file of the tree with empty plans, once its own runs have written their targets |
| Rerun.ConvertedOfLists | cmd/bagal/main.go:172-178 | a directory has the property when the subdirectories and files its listing splits into do |
| Rerun.FirstDirs | cmd/bagal/main.go:208-222 | without interrupt, the first loop keeps the earlier runs and leaves every subdirectory it walks with empty plans, once its runs have written their targets |
| Rerun.FirstFiles | cmd/bagal/main.go:224-249 | without interrupt, the second loop leaves every file it handles with an empty plan, once its runs have written their targets |
| Rerun.SecondRunLaunchesNothing | cmd/bagal/main.go:184-258 | a walk without interrupt that succeeds, rerun after its runs have written their targets, launches nothing the second time, under any interrupt |

## Left out

- The signal handler goroutine and `signal.Notify` (main.go:78-84). The flag is an input oracle that turns true at a chosen read and stays true.
- The `ratelimit` goroutines, the semaphore, `cmd.CombinedOutput`, process groups and logging (main.go:118-137, convert.go:121-138). These are concurrency and process execution. A launch is the command line appended to `launched`.
- Convert.Converter.Ratelimit: records the launch only. It does not model blocking on the semaphore, nor the process's completion.
- The semaphore drain loops (main.go:112-115, convert.go:64-68). They only block.
- `os.Stat` is membership in a fixed set of existing paths, taken when the walk starts. Targets produced by runs launched during the walk are not seen by later checks of the same walk. `Rerun.SecondRunLaunchesNothing` states what a second walk sees once they are written.
- Any `os.Stat` error is treated as "missing". The model has no separate "exists but unreadable" case.
- `os.MkdirAll`, `os.ReadDir` and `os.Create` are not real file-system calls. They succeed or fail by membership in the failure sets. Their error values are replaced by `Error` constructors.
- `filepath.Rel` is left out: the output directory is passed down with the recursion, so its failure branch (main.go:185-188) is not modelled.
- `filepath.Join` is modelled without `filepath.Clean`.
- `WriteGallery`'s template substitution and buffered I/O (html.go:15-36). A page records its path and the content that would be substituted.
- Flag parsing, `main` and the defaults other than the extension lists (main.go:63-116). The two default lists are constants that `DefaultImageSplit`, `DefaultVideoSplit` and `DefaultListsTakeHeic` are about.
- The commented-out code (convert.go:82-119, html.go:67-80). It is dead.
- The error branches after `getFile` and `convertFile` in `readDir` (main.go:226-228, 231-233). Both calls always return nil, so these branches never run.
- `strings.ToLower` handles ASCII letters only. Other Unicode case mappings are not modelled.
- The `parallelOps` and `verbose` options are carried but do nothing in the model. They only affect concurrency and logging.
- WalkProps.CompleteWalk: states the content of the directory's own index.html and that it is written last, but not the pages of the subdirectories, which their own walks state. `OwnPage` adds that no earlier page of the walk has that path, for trees whose entries have non-empty names.
- WalkProps.ParentWritesAfterLastChild: states the page as the links the first loop had collected before the last subdirectory followed by that subdirectory's link, without saying what those collected links are. A walk the interrupt reaches only below this directory is not proved equal to an uninterrupted one, which is what naming them would need.
- Rerun.SecondRunLaunchesNothing: is stated for a first walk without an interrupt that succeeds. After an interrupted or failed first walk, some files may still be unconverted.
- `convertFile`, which `readDir` calls (main.go:230), is not part of this model: it is not defined in these three files, so the model takes it to be `MediaWebConverter.Convert(outdir, file)`, and its `dirpath` argument is dropped.
- The package-level `ratelimit` and `sem` of main.go (main.go:118-137) are not used by the modelled conversion path.
- `os.ReadDir` returns the entries sorted by name; the model takes the listing in whatever order the entry tree gives it, so its lemmas hold for any listing order.
- `readDir` is modelled for a tree, so symbolic links and cycles are not modelled.
- WalkProps.OwnPage, WalkProps.WalkPages and WalkProps.DirsPages hold for trees whose entries have non-empty names, as every name `os.ReadDir` returns is. The entry tree itself would also allow an empty name, whose subdirectory would write to its parent's `index.html`.
