/**
 * The converter behind the desktop window: the same routing as the
 * command-line copy, but with a shorter ffmpeg search, no timeout on the
 * ffmpeg calls, every video failure wrapped as "Conversion failed: ...",
 * progress reported through a callback, and a batch loop that records one
 * entry per input whatever happens to the others.
 */
module ConverterGui {
  import opened Wrappers
  import opened PurePath
  import opened Media
  import opened Discovery

  // ---------------------------------------------------------------------
  // Locating ffmpeg

  /** The GUI's candidates: `ffmpeg` on the search path, then the installation paths. */
  function Candidates(): seq<Probe> {
    [SearchPath] + FileProbes(CommonPaths)
  }

  /**
   * `_find_ffmpeg`: an early return when `ffmpeg -version` exits with
   * status 0, then the loop over the installation paths. The version check
   * runs without a timeout.
   */
  method FindFfmpeg(existing: set<string>, versionCheck: UntimedOutcome) returns (r: Result<Option<string>, string>)
    ensures r == FirstVerdict(Env(existing, versionCheck), Candidates())
  {
    var env := Env(existing, versionCheck);
    FirstStep(env, SearchPath, FileProbes(CommonPaths));
    match versionCheck {
      case Exited(code, _) =>
        if code == 0 {
          return Success(Some("ffmpeg"));
        }
      case OsError(message) =>
        return Failure(message);
      case _ =>
    }
    var installed := FindInstalled(env);
    return Success(installed);
  }

  // ---------------------------------------------------------------------
  // Progress messages

  /** A conversion as the window sees it: the callback's messages in order, and the result. */
  datatype Reported = Reported(messages: seq<string>, result: Result<Path, Error>)

  function ConvertingMessage(input: Path, output: Path): string {
    "Converting: " + Name(input) + " -> " + Name(output)
  }

  function CompletedMessage(output: Path): string {
    "\U{2713} Completed: " + Name(output)
  }

  /**
   * The callback protocol of both converters: nothing when they fail
   * before the work starts; otherwise "Converting" first, and
   * "Completed" second exactly when the conversion succeeds.
   */
  predicate Announced(r: Reported, started: bool, input: Path, output: Path) {
    if !started then r.messages == []
    else if r.result.Success? then r.messages == [ConvertingMessage(input, output), CompletedMessage(output)]
    else r.messages == [ConvertingMessage(input, output)]
  }

  // ---------------------------------------------------------------------
  // Images

  /**
   * `convert_heic_to_png`: the shared image decision, with "Converting"
   * announced once the dependencies are present and the output path is
   * known, and "Completed" after the PNG is written.
   */
  function ConvertHeicToPng(deps: Deps, input: Path, output: Option<Path>, src: ImageSource): (r: Reported)
    ensures r.result == SavedPath(Media.ConvertHeicToPng(deps, input, output, src))
    ensures var started := deps.pillow && deps.pillowHeif && OutputFor(input, output, ".png").Some?;
      started ==> Announced(r, true, input, OutputFor(input, output, ".png").value)
    ensures r.messages == [] <==> !deps.pillow || !deps.pillowHeif || OutputFor(input, output, ".png").None?
    ensures r.result.Success? ==> r.messages == [ConvertingMessage(input, r.result.value), CompletedMessage(r.result.value)]
  {
    var done := SavedPath(Media.ConvertHeicToPng(deps, input, output, src));
    if !deps.pillow || !deps.pillowHeif then Reported([], done)
    else match OutputFor(input, output, ".png")
      case None => Reported([], done)
      case Some(out) =>
        var converting := [ConvertingMessage(input, out)];
        Reported(if done.Success? then converting + [CompletedMessage(out)] else converting, done)
  }

  // ---------------------------------------------------------------------
  // Video

  const FailurePrefix := "Conversion failed: "

  /**
   * `convert_mov_to_mp4`: FFmpeg must be known first; then the output
   * path and "Converting"; then one run of the fixed command without a
   * timeout. A nonzero exit raises "FFmpeg error: <stderr>" inside the
   * `try`, so it reaches the caller wrapped like any other failure of the
   * run.
   */
  function ConvertMovToMp4(ffmpeg: Option<string>, input: Path, output: Option<Path>,
                           run: seq<string> -> UntimedOutcome): (r: Reported)
    ensures !Usable(ffmpeg) ==> r == Reported([], Failure(RuntimeError(FfmpegMissing)))
    ensures var out := OutputFor(input, output, ".mp4");
      && (r.result.Success? <==>
            Usable(ffmpeg) && out.Some? && ExitedZero(run(FfmpegCommand(ffmpeg.value, Render(input), Render(out.value)))))
      && (r.result.Success? ==> r.result.value == out.value)
      && (Usable(ffmpeg) && out.Some? ==> Announced(r, true, input, out.value))
      && (Usable(ffmpeg) && out.Some? && r.result.Failure? ==>
            r.result.error.RuntimeError? && FailurePrefix <= r.result.error.message)
    ensures Usable(ffmpeg) && OutputFor(input, output, ".mp4").None? ==>
      r == Reported([], Failure(ValueError(EmptyNameMessage(input))))
    ensures Usable(ffmpeg) && OutputFor(input, output, ".mp4").Some? ==>
      var o := run(FfmpegCommand(ffmpeg.value, Render(input), Render(OutputFor(input, output, ".mp4").value)));
      && (o.Exited? && o.returnCode != 0 ==> r.result == Failure(RuntimeError(FailurePrefix + ("FFmpeg error: " + o.stderr))))
      && (!o.Exited? ==> r.result == Failure(RuntimeError(FailurePrefix + o.message)))
  {
    if !Usable(ffmpeg) then Reported([], Failure(RuntimeError(FfmpegMissing)))
    else match OutputFor(input, output, ".mp4")
      case None => Reported([], Failure(ValueError(EmptyNameMessage(input))))
      case Some(out) =>
        var converting := [ConvertingMessage(input, out)];
        match run(FfmpegCommand(ffmpeg.value, Render(input), Render(out)))
        case Exited(code, stderr) =>
          if code == 0 then Reported(converting + [CompletedMessage(out)], Success(out))
          else Reported(converting, Failure(RuntimeError(FailurePrefix + ("FFmpeg error: " + stderr))))
        case NotFound(message) => Reported(converting, Failure(RuntimeError(FailurePrefix + message)))
        case OsError(message) => Reported(converting, Failure(RuntimeError(FailurePrefix + message)))
  }

  // ---------------------------------------------------------------------
  // Routing and the batch

  /** The outside world of one GUI conversion: dependency flags, Pillow, and ffmpeg runs. */
  datatype World = World(deps: Deps, images: Path -> ImageSource, run: seq<string> -> UntimedOutcome)

  /**
   * `convert_file`: the shared routing into the given directory, or the
   * input's own; the directory is not created. An unsupported suffix
   * raises a ValueError naming only the suffix.
   */
  function ConvertFile(ffmpeg: Option<string>, w: World, input: Path, outputDir: Option<Path>): (r: Reported)
    ensures var d := Route(input, if outputDir.Some? then outputDir.value else Parent(input));
      && (d.NoConversion? ==> r == Reported([], Failure(ValueError("Unsupported format: " + Extension(input)))))
      && (r.result.Success? ==> !d.NoConversion? && r.result.value == d.target)
      && (d.ToImage? ==> r == ConvertHeicToPng(w.deps, input, Some(d.target), w.images(input)))
      && (d.ToVideo? ==> r == ConvertMovToMp4(ffmpeg, input, Some(d.target), w.run))
  {
    var d := Route(input, if outputDir.Some? then outputDir.value else Parent(input));
    match d
    case ToImage(source, target) => ConvertHeicToPng(w.deps, source, Some(target), w.images(source))
    case ToVideo(source, target) => ConvertMovToMp4(ffmpeg, source, Some(target), w.run)
    case NoConversion => Reported([], Failure(ValueError("Unsupported format: " + Extension(input))))
  }

  /** A message that starts with the check mark, as "Completed" does and no other message does. */
  predicate IsCompletion(m: string) {
    m != [] && m[0] == '\U{2713}'
  }

  predicate IsConverting(m: string) {
    "Converting: " <= m
  }

  /**
   * The shape of every converter's callback messages: a success was
   * announced and then completed; a failure was announced at most once
   * and never completed.
   */
  predicate Protocol(r: Reported) {
    if r.result.Success? then |r.messages| == 2 && IsConverting(r.messages[0]) && IsCompletion(r.messages[1])
    else |r.messages| <= 1 && (r.messages != [] ==> IsConverting(r.messages[0]))
  }

  lemma AnnouncedKeepsProtocol(r: Reported, started: bool, input: Path, output: Path)
    requires Announced(r, started, input, output)
    requires r.result.Success? ==> started
    ensures Protocol(r)
  {
    if started {
      assert IsConverting(ConvertingMessage(input, output));
    }
  }

  /** Whatever it is given, the window's `convert_file` keeps the callback protocol. */
  lemma ConvertFileProtocol(ffmpeg: Option<string>, w: World, input: Path, outputDir: Option<Path>)
    ensures Protocol(ConvertFile(ffmpeg, w, input, outputDir))
  {
    var d := Route(input, if outputDir.Some? then outputDir.value else Parent(input));
    var r := ConvertFile(ffmpeg, w, input, outputDir);
    match d
    case NoConversion =>
    case ToImage(source, target) =>
      var started := w.deps.pillow && w.deps.pillowHeif && OutputFor(source, Some(target), ".png").Some?;
      if started {
        AnnouncedKeepsProtocol(r, true, source, OutputFor(source, Some(target), ".png").value);
      }
    case ToVideo(source, target) =>
      var out := OutputFor(source, Some(target), ".mp4");
      if Usable(ffmpeg) && out.Some? {
        AnnouncedKeepsProtocol(r, true, source, out.value);
      }
  }

  /** One entry of `batch_convert`'s list: `('success', path, result)` or `('error', path, str(e))`. */
  datatype BatchEntry = Converted(source: Path, output: Path) | Errored(source: Path, message: string)

  function FailedMessage(input: Path, message: string): string {
    "\U{2717} Failed: " + Name(input) + " - " + message
  }

  /** The entry `batch_convert` records for one input, given what the conversion reported. */
  function EntryOf(input: Path, r: Reported): (e: BatchEntry)
    ensures e.source == input
    ensures e.Converted? <==> r.result.Success?
    ensures e.Converted? ==> e.output == r.result.value
    ensures e.Errored? ==> e.message == r.result.error.message
  {
    match r.result
    case Success(output) => Converted(input, output)
    case Failure(err) => Errored(input, err.message)
  }

  /** What the callback receives for one input: the converter's messages, then "Failed" on an error. */
  function ItemLog(input: Path, r: Reported): seq<string> {
    match r.result
    case Success(_) => r.messages
    case Failure(err) => r.messages + [FailedMessage(input, err.message)]
  }

  /**
   * `batch_convert`'s list for the per-file converter `convert`: one entry
   * per input, in input order, each from its own input alone.
   */
  function Entries(convert: Path -> Reported, inputs: seq<Path>): (es: seq<BatchEntry>)
    ensures |es| == |inputs|
    ensures forall i :: 0 <= i < |inputs| ==> es[i] == EntryOf(inputs[i], convert(inputs[i]))
  {
    if inputs == [] then []
    else Entries(convert, inputs[..|inputs| - 1]) + [EntryOf(inputs[|inputs| - 1], convert(inputs[|inputs| - 1]))]
  }

  /** The callback's messages over a whole batch, item after item. */
  function BatchLog(convert: Path -> Reported, inputs: seq<Path>): seq<string> {
    if inputs == [] then []
    else BatchLog(convert, inputs[..|inputs| - 1]) + ItemLog(inputs[|inputs| - 1], convert(inputs[|inputs| - 1]))
  }

  lemma BatchStep(convert: Path -> Reported, inputs: seq<Path>, i: nat)
    requires i < |inputs|
    ensures BatchLog(convert, inputs[..i + 1]) == BatchLog(convert, inputs[..i]) + ItemLog(inputs[i], convert(inputs[i]))
    ensures Entries(convert, inputs[..i + 1]) == Entries(convert, inputs[..i]) + [EntryOf(inputs[i], convert(inputs[i]))]
  {
    assert inputs[..i + 1][..i] == inputs[..i];
  }

  /**
   * `batch_convert`: every input is converted in turn, an exception is
   * caught and recorded, and the loop goes on.
   */
  method BatchConvert(convert: Path -> Reported, inputs: seq<Path>) returns (results: seq<BatchEntry>, log: seq<string>)
    ensures results == Entries(convert, inputs)
    ensures log == BatchLog(convert, inputs)
  {
    results, log := [], [];
    for i := 0 to |inputs|
      invariant results == Entries(convert, inputs[..i])
      invariant log == BatchLog(convert, inputs[..i])
    {
      var path := inputs[i];
      var r := convert(path);
      BatchStep(convert, inputs, i);
      log := log + r.messages;
      if r.result.Success? {
        results := results + [Converted(path, r.result.value)];
      } else {
        log := log + [FailedMessage(path, r.result.error.message)];
        results := results + [Errored(path, r.result.error.message)];
      }
    }
    assert inputs[..|inputs|] == inputs;
  }

  /** The window's per-file converter, as `batch_convert` calls it. */
  function FileConverter(ffmpeg: Option<string>, w: World, outputDir: Option<Path>): Path -> Reported {
    input => ConvertFile(ffmpeg, w, input, outputDir)
  }

  /**
   * Without a usable ffmpeg, every video input is recorded with the
   * missing-ffmpeg message, whether or not the file exists: the window
   * never looks for the input first. An unsupported input is recorded
   * with its suffix alone.
   */
  lemma EntriesWithoutFfmpeg(ffmpeg: Option<string>, w: World, outputDir: Option<Path>, inputs: seq<Path>, i: nat)
    requires !Usable(ffmpeg) && i < |inputs|
    ensures KindOf(inputs[i]) == Video ==>
      Entries(FileConverter(ffmpeg, w, outputDir), inputs)[i] == Errored(inputs[i], FfmpegMissing)
    ensures KindOf(inputs[i]) == Unsupported ==>
      Entries(FileConverter(ffmpeg, w, outputDir), inputs)[i]
      == Errored(inputs[i], "Unsupported format: " + Extension(inputs[i]))
  {
    var input := inputs[i];
    var convert := FileConverter(ffmpeg, w, outputDir);
    var d := Route(input, if outputDir.Some? then outputDir.value else Parent(input));
    var r := ConvertFile(ffmpeg, w, input, outputDir);
    assert convert(input) == r;
    assert Entries(convert, inputs)[i] == EntryOf(input, r);
    if d.ToVideo? {
      assert r == ConvertMovToMp4(ffmpeg, input, Some(d.target), w.run);
      assert r.result == Failure(RuntimeError(FfmpegMissing));
    }
  }

  /** Under the protocol, an input's log holds a completion exactly when its entry is Converted. */
  lemma CompletionIffConverted(input: Path, r: Reported)
    requires Protocol(r)
    ensures (exists k :: 0 <= k < |ItemLog(input, r)| && IsCompletion(ItemLog(input, r)[k])) <==> EntryOf(input, r).Converted?
  {
    var log := ItemLog(input, r);
    if r.result.Success? {
      assert IsCompletion(log[1]);
    } else {
      forall k | 0 <= k < |log| ensures !IsCompletion(log[k]) {
        if k < |r.messages| {
          assert log[k][0] == 'C';
        } else {
          assert log[k][0] == '\U{2717}';
        }
      }
    }
  }

  /** In a batch of the window's conversions, the i-th item reports a completion exactly when its entry is Converted. */
  lemma BatchCompletionIffConverted(ffmpeg: Option<string>, w: World, outputDir: Option<Path>, inputs: seq<Path>, i: nat)
    requires i < |inputs|
    ensures var r := FileConverter(ffmpeg, w, outputDir)(inputs[i]);
      (exists k :: 0 <= k < |ItemLog(inputs[i], r)| && IsCompletion(ItemLog(inputs[i], r)[k]))
      <==> Entries(FileConverter(ffmpeg, w, outputDir), inputs)[i].Converted?
  {
    ConvertFileProtocol(ffmpeg, w, inputs[i], outputDir);
    CompletionIffConverted(inputs[i], FileConverter(ffmpeg, w, outputDir)(inputs[i]));
  }
}
