/**
 * How the two copies of the converter relate: where the command-line and
 * the window's `_find_ffmpeg` agree, and how their reports of a failed
 * ffmpeg run differ.
 */
module Copies {
  import opened Wrappers
  import opened Text
  import opened PurePath
  import opened Media
  import opened Discovery
  import ConverterCli
  import ConverterGui

  /**
   * Run as a plain script without the development copy, and with
   * `ffmpeg -version` finishing within the command line's 10 seconds, the
   * command-line search finds what the window's search finds. (The window
   * waits without limit, so a version check that would time out is not
   * one it can see.)
   */
  lemma UnfrozenSearchesAgree(host: ConverterCli.Host)
    requires !host.frozen
    requires !host.env.versionCheck.TimedOut?
    requires AllMiss(host.env, ConverterCli.DevProbes(host))
    ensures FirstVerdict(host.env, ConverterCli.Candidates(host)) == FirstVerdict(host.env, ConverterGui.Candidates())
  {
    var tail := [SearchPath] + FileProbes(CommonPaths);
    assert ConverterCli.Candidates(host) == ConverterCli.DevProbes(host) + tail;
    SkipMisses(host.env, ConverterCli.DevProbes(host), tail);
  }

  /** A line with no newline and no surrounding whitespace is its own diagnostic. */
  lemma SingleLineDiagnostic(stderr: string)
    requires stderr != [] && '\n' !in stderr && Strip(stderr) == stderr
    ensures ConverterCli.FfmpegDiagnostic(stderr) == stderr
  {
    LastLineUnique(stderr, stderr);
    LastLineIsLastPiece(stderr);
  }

  /** The command-line report of a nonzero exit whose stderr is one clean line. */
  lemma CliNonzeroExit(ffmpeg: Option<string>, input: Path, output: Option<Path>,
                       run: seq<string> -> ProcessOutcome, code: int, stderr: string)
    requires Usable(ffmpeg) && OutputFor(input, output, ".mp4").Some?
    requires run(FfmpegCommand(ffmpeg.value, Render(input), Render(OutputFor(input, output, ".mp4").value)))
      == Exited(code, stderr)
    requires code != 0
    requires stderr != [] && '\n' !in stderr && Strip(stderr) == stderr
    ensures ConverterCli.ConvertMovToMp4(ffmpeg, input, output, run) == Failure(RuntimeError("FFmpeg error: " + stderr))
  {
    SingleLineDiagnostic(stderr);
  }

  /**
   * When ffmpeg exits nonzero with one clean line on stderr under both
   * copies, the window's error is the command-line error behind
   * "Conversion failed: ". (On a longer stderr the window keeps every
   * line, the command line only the last.)
   */
  lemma NonzeroExitReports(ffmpeg: Option<string>, input: Path, output: Option<Path>,
                           cliRun: seq<string> -> ProcessOutcome, guiRun: seq<string> -> UntimedOutcome,
                           code: int, stderr: string)
    requires Usable(ffmpeg) && OutputFor(input, output, ".mp4").Some?
    requires var cmd := FfmpegCommand(ffmpeg.value, Render(input), Render(OutputFor(input, output, ".mp4").value));
      cliRun(cmd) == Exited(code, stderr) && guiRun(cmd) == Exited(code, stderr)
    requires code != 0
    requires stderr != [] && '\n' !in stderr && Strip(stderr) == stderr
    ensures var cliMessage := "FFmpeg error: " + stderr;
      && ConverterCli.ConvertMovToMp4(ffmpeg, input, output, cliRun) == Failure(RuntimeError(cliMessage))
      && ConverterGui.ConvertMovToMp4(ffmpeg, input, output, guiRun).result
         == Failure(RuntimeError(ConverterGui.FailurePrefix + cliMessage))
  {
    CliNonzeroExit(ffmpeg, input, output, cliRun, code, stderr);
  }
}
