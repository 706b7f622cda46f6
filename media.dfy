/**
 * What the two copies of the converter (the command-line one and the one
 * behind the window) share: the supported extensions and the routing key,
 * the errors they raise, the transparency decision of the image path,
 * the fixed ffmpeg command line, and the outcomes of running a process.
 */
module Media {
  import opened Wrappers
  import opened Text
  import opened PurePath

  // ---------------------------------------------------------------------
  // Extensions and routing

  const ImageExtensions: seq<string> := [".heic", ".heif"]
  const VideoExtensions: seq<string> := [".mov", ".m4v"]
  const SupportedExtensions: seq<string> := ImageExtensions + VideoExtensions

  datatype Kind = Image | Video | Unsupported

  /** The routing key, `input_path.suffix.lower()`. */
  function Extension(p: Path): string {
    Lower(Suffix(p))
  }

  predicate IsSupported(ext: string) {
    ext in SupportedExtensions
  }

  /** Which converter a path is routed to, by its lower-cased suffix alone. */
  function KindOf(p: Path): (k: Kind)
    ensures k != Unsupported <==> IsSupported(Extension(p))
    ensures k != Unsupported ==> Stem(p) != [] && |Suffix(p)| >= 2
  {
    var ext := Extension(p);
    if ext in ImageExtensions then Image
    else if ext in VideoExtensions then Video
    else Unsupported
  }

  /** A spelling that lower-cases to a supported extension is a proper suffix. */
  lemma SupportedSpelling(ext: string)
    requires IsSupported(Lower(ext))
    ensures |ext| >= 2 && ext[0] == '.' && '.' !in ext[1..]
  {
    assert LowerChar(ext[0]) == '.';
    forall j | 1 <= j < |ext| ensures ext[j] != '.' {
      assert LowerChar(ext[j]) != '.';
    }
  }

  /**
   * Routing ignores letter case: a non-empty stem followed by any spelling
   * of `.heic`/`.heif` goes to the image converter, of `.mov`/`.m4v` to the
   * video converter, and the stem is kept for the output name.
   */
  lemma RoutingIgnoresCase(dir: Path, stem: string, ext: string)
    requires stem != []
    requires IsSupported(Lower(ext))
    ensures var p := Child(dir, stem + ext);
      && Stem(p) == stem
      && (Lower(ext) in ImageExtensions ==> KindOf(p) == Image)
      && (Lower(ext) in VideoExtensions ==> KindOf(p) == Video)
  {
    SupportedSpelling(ext);
    AppendedSuffix(stem, ext);
  }

  /** A hidden file such as `.heic` has no suffix, so it is never converted. */
  lemma HiddenFileUnsupported(dir: Path, name: string)
    requires name != [] && name[0] == '.' && '.' !in name[1..]
    ensures KindOf(Child(dir, name)) == Unsupported
  {
    NoSuffixExactly(name);
  }

  // ---------------------------------------------------------------------
  // Errors

  /**
   * An exception, by the class the converter raises, carrying `str(e)`;
   * Raised is one from Pillow, pillow-heif or the operating system that
   * the converter lets through unchanged.
   */
  datatype Error = ValueError(message: string) | RuntimeError(message: string) | Raised(message: string)

  /** The message pathlib's `with_suffix` raises for a path with an empty name. */
  function EmptyNameMessage(p: Path): string {
    Render(p) + " has an empty name"
  }

  /** The output path: the one given, else the input with `suffix` in place of its own. */
  function OutputFor(input: Path, output: Option<Path>, suffix: string): (r: Option<Path>)
    requires |suffix| >= 2 && suffix[0] == '.' && '.' !in suffix[1..]
    ensures output.Some? ==> r == output
    ensures output.None? ==> (r.None? <==> Name(input) == [])
    ensures output.None? && r.Some? ==>
      Parent(r.value) == Parent(input) && Stem(r.value) == Stem(input) && Suffix(r.value) == suffix
  {
    if output.Some? then output else WithSuffix(input, suffix)
  }

  // ---------------------------------------------------------------------
  // Images

  /** Whether the Pillow and pillow-heif imports succeeded. */
  datatype Deps = Deps(pillow: bool, pillowHeif: bool)

  const PillowMissing := "PIL/Pillow is not installed. Run: pip install Pillow"
  const HeifMissing := "pillow-heif is not installed. Run: pip install pillow-heif"

  /** A decoded image as the converter sees it: its mode and the keys of `img.info`. */
  datatype ImageInfo = ImageInfo(mode: string, infoKeys: set<string>)

  /** Alpha channel, or a palette with a transparent entry. */
  predicate HasTransparency(img: ImageInfo) {
    img.mode == "RGBA" || img.mode == "LA" || (img.mode == "P" && "transparency" in img.infoKeys)
  }

  /**
   * The mode of the image handed to the PNG writer: the image as decoded
   * when it carries transparency, else its conversion to three-band RGB.
   */
  function PngMode(img: ImageInfo): (m: string)
    ensures m in {"RGBA", "LA", "P", "RGB"}
    ensures m == img.mode || m == "RGB"
    ensures m != "RGB" <==> HasTransparency(img)
  {
    if HasTransparency(img) then img.mode else "RGB"
  }

  /**
   * What Pillow does with one input file: `Image.open` gives an image or
   * raises (missing file, unidentified image), and the save may raise.
   */
  datatype ImageSource = ImageSource(decoded: Result<ImageInfo, string>, saveError: Option<string>)

  /** A written PNG: where, and in which mode. */
  datatype Saved = Saved(output: Path, mode: string)

  /**
   * `convert_heic_to_png`: dependency checks (Pillow first), the output
   * path, then decode and save, keeping transparency as PngMode says.
   */
  function ConvertHeicToPng(deps: Deps, input: Path, output: Option<Path>, src: ImageSource): (r: Result<Saved, Error>)
    ensures !deps.pillow ==> r == Failure(RuntimeError(PillowMissing))
    ensures deps.pillow && !deps.pillowHeif ==> r == Failure(RuntimeError(HeifMissing))
    ensures r.Success? <==>
      deps.pillow && deps.pillowHeif && (output.Some? || Name(input) != [])
      && src.decoded.Success? && src.saveError.None?
    ensures r.Success? ==> r.value.mode == PngMode(src.decoded.value)
    ensures r.Success? && output.Some? ==> r.value.output == output.value
    ensures r.Success? && output.None? ==>
      Parent(r.value.output) == Parent(input) && Stem(r.value.output) == Stem(input)
      && Suffix(r.value.output) == ".png"
    ensures deps.pillow && deps.pillowHeif && OutputFor(input, output, ".png").None? ==>
      r == Failure(ValueError(EmptyNameMessage(input)))
    ensures deps.pillow && deps.pillowHeif && OutputFor(input, output, ".png").Some? && src.decoded.Failure? ==>
      r == Failure(Raised(src.decoded.error))
    ensures deps.pillow && deps.pillowHeif && OutputFor(input, output, ".png").Some? && src.decoded.Success? && src.saveError.Some? ==>
      r == Failure(Raised(src.saveError.value))
  {
    if !deps.pillow then Failure(RuntimeError(PillowMissing))
    else if !deps.pillowHeif then Failure(RuntimeError(HeifMissing))
    else match OutputFor(input, output, ".png")
      case None => Failure(ValueError(EmptyNameMessage(input)))
      case Some(out) =>
        match src.decoded
        case Failure(e) => Failure(Raised(e))
        case Success(img) =>
          if src.saveError.Some? then Failure(Raised(src.saveError.value))
          else Success(Saved(out, PngMode(img)))
  }

  // ---------------------------------------------------------------------
  // Video

  const FfmpegMissing :=
    "FFmpeg is not installed or not found in PATH.\nPlease install FFmpeg from https://ffmpeg.org/download.html"

  /** `if not self.ffmpeg_path`: None and the empty string both count as missing. */
  predicate Usable(ffmpeg: Option<string>) {
    ffmpeg.Some? && ffmpeg.value != []
  }

  /** Everything between the input and the output in the ffmpeg command. */
  const EncoderOptions: seq<string> := [
    "-c:v", "libx264", "-preset", "medium", "-crf", "23",
    "-c:a", "aac", "-b:a", "128k", "-movflags", "+faststart", "-y"]

  /**
   * The argument vector both copies run: H.264 at CRF 23 with the medium
   * preset, AAC at 128k, fast start, overwrite, and the output last.
   */
  function FfmpegCommand(exe: string, input: string, output: string): (argv: seq<string>)
    ensures |argv| == 17 && argv[0] == exe && argv[1] == "-i" && argv[2] == input
    ensures argv[15] == "-y" && argv[16] == output
  {
    [exe, "-i", input] + EncoderOptions + [output]
  }

  datatype FfmpegJob = FfmpegJob(exe: string, input: string, output: string)

  /**
   * Reads a job back from an argument vector: exactly the vectors built by
   * FfmpegCommand parse, each to the job it was built from.
   */
  function ParseFfmpegCommand(argv: seq<string>): (j: Option<FfmpegJob>)
    ensures j.Some? ==> FfmpegCommand(j.value.exe, j.value.input, j.value.output) == argv
    ensures forall e, i, o :: FfmpegCommand(e, i, o) == argv ==> j == Some(FfmpegJob(e, i, o))
  {
    if |argv| == 17 && argv[1] == "-i" && argv[3..16] == EncoderOptions then
      assert argv == [argv[0], "-i", argv[2]] + EncoderOptions + [argv[16]];
      Some(FfmpegJob(argv[0], argv[2], argv[16]))
    else None
  }

  /**
   * How a `subprocess.run` call ends: an exit status with the captured
   * standard error, the timeout expiring, FileNotFoundError for a missing
   * executable, or any other OSError, each with `str(e)`.
   */
  datatype ProcessOutcome =
    | Exited(returnCode: int, stderr: string)
    | TimedOut
    | NotFound(message: string)
    | OsError(message: string)

  /** The run that counts as a success: exit status 0. */
  predicate ExitedZero(o: ProcessOutcome) {
    o.Exited? && o.returnCode == 0
  }

  /** Outcomes of a call made without a timeout. */
  type UntimedOutcome = o: ProcessOutcome | !o.TimedOut? witness Exited(0, [])

  // ---------------------------------------------------------------------
  // Routing

  /** What the routing decided to run. */
  datatype Dispatch = ToImage(source: Path, target: Path) | ToVideo(source: Path, target: Path) | NoConversion

  /**
   * The routing decision both copies of `convert_file` make once the
   * directory `dir` is settled: the lower-cased suffix picks the image
   * converter with output `<stem>.png` in `dir`, the video converter with
   * `<stem>.mp4`, or none.
   */
  function Route(input: Path, dir: Path): (d: Dispatch)
    ensures d.ToImage? <==> KindOf(input) == Image
    ensures d.ToVideo? <==> KindOf(input) == Video
    ensures d != NoConversion ==>
      && d.source == input
      && Parent(d.target) == dir
      && Stem(d.target) == Stem(input)
      && Suffix(d.target) == (if d.ToImage? then ".png" else ".mp4")
  {
    var kind := KindOf(input);
    if kind == Unsupported then NoConversion
    else
      var stem := Stem(input);
      var ext := if kind == Image then ".png" else ".mp4";
      TargetNamed(dir, stem, ext);
      var target := Child(dir, stem + ext);
      if kind == Image then ToImage(input, target) else ToVideo(input, target)
  }

  lemma TargetNamed(dir: Path, stem: string, ext: string)
    requires stem != [] && ext in [".png", ".mp4"]
    ensures var t := Child(dir, stem + ext); Parent(t) == dir && Stem(t) == stem && Suffix(t) == ext
  {
    AppendedSuffix(stem, ext);
  }

  /** The result of the image converter as `convert_file` returns it: the output path. */
  function SavedPath(r: Result<Saved, Error>): Result<Path, Error> {
    match r
    case Success(saved) => Success(saved.output)
    case Failure(e) => Failure(e)
  }
}
