/**
 * The command-line converter: `IOSConverter` with its ffmpeg search over
 * bundled, development and installed locations, the video conversion with
 * its timeout and last-line error reporting, routing by extension with
 * creation of the output directory, the directory scan, and the counting
 * loop of `main`.
 */
module ConverterCli {
  import opened Wrappers
  import opened Text
  import opened PurePath
  import opened Media
  import opened Discovery
  import opened FileTree

  // ---------------------------------------------------------------------
  // Locating ffmpeg

  /**
   * The interpreter's state the search reads: whether it runs as a frozen
   * bundle, the bundle's extraction folder when set, the executable's
   * path, the script's `__file__` (None where it is undefined), and the
   * machine.
   */
  datatype Host = Host(
    frozen: bool,
    meipass: Option<Path>,
    executable: Path,
    scriptFile: Option<Path>,
    env: Env)

  /** The `ffmpeg.exe` files a frozen bundle may carry: extraction folder, then executable folder. */
  function BundleProbes(host: Host): seq<Probe> {
    if !host.frozen then []
    else
      (if host.meipass.Some? then [FileAt(Render(Child(host.meipass.value, "ffmpeg.exe")))] else [])
      + [FileAt(Render(Child(Parent(host.executable), "ffmpeg.exe")))]
  }

  /** `ffmpeg_bin\ffmpeg.exe` beside the script, when `__file__` is defined. */
  function DevProbes(host: Host): seq<Probe> {
    if host.scriptFile.Some? then
      [FileAt(Render(Child(Child(Parent(host.scriptFile.value), "ffmpeg_bin"), "ffmpeg.exe")))]
    else []
  }

  /** Every candidate, in the order `_find_ffmpeg` tries them. */
  function Candidates(host: Host): seq<Probe> {
    BundleProbes(host) + (DevProbes(host) + ([SearchPath] + FileProbes(CommonPaths)))
  }

  /**
   * `_find_ffmpeg`: early returns for the bundled and development copies
   * and for `ffmpeg` on the search path, then a loop over the installation
   * paths. Its result is the first-match search over Candidates.
   */
  method FindFfmpeg(host: Host) returns (r: Result<Option<string>, string>)
    ensures r == FirstVerdict(host.env, Candidates(host))
  {
    var env := host.env;
    ghost var all := Candidates(host);
    ghost var tail := [SearchPath] + FileProbes(CommonPaths);
    if host.frozen {
      if host.meipass.Some? {
        var bundled := Render(Child(host.meipass.value, "ffmpeg.exe"));
        assert all[0] == FileAt(bundled);
        if bundled in env.existing {
          return Success(Some(bundled));
        }
      }
      var exeBundle := Render(Child(Parent(host.executable), "ffmpeg.exe"));
      var i := |BundleProbes(host)| - 1;
      assert all[i] == FileAt(exeBundle) && AllMiss(env, all[..i]);
      if exeBundle in env.existing {
        FoundIsFirstHit(env, all, exeBundle);
        return Success(Some(exeBundle));
      }
    }
    SkipMisses(env, BundleProbes(host), DevProbes(host) + tail);
    if host.scriptFile.Some? {
      var local := Render(Child(Child(Parent(host.scriptFile.value), "ffmpeg_bin"), "ffmpeg.exe"));
      assert (DevProbes(host) + tail)[0] == FileAt(local);
      if local in env.existing {
        return Success(Some(local));
      }
    }
    SkipMisses(env, DevProbes(host), tail);
    FirstStep(env, SearchPath, FileProbes(CommonPaths));
    match env.versionCheck {
      case Exited(code, _) =>
        if code == 0 {
          return Success(Some("ffmpeg"));
        }
      case OsError(message) =>
        return Failure(message);
      case _ =>
    }
    var installed := FindInstalled(env);
    return Success(installed);
  }

  /** A frozen bundle's extracted `ffmpeg.exe` is preferred to every other copy. */
  lemma BundledCopyWins(host: Host)
    requires host.frozen && host.meipass.Some?
    requires Render(Child(host.meipass.value, "ffmpeg.exe")) in host.env.existing
    ensures FirstVerdict(host.env, Candidates(host)) == Success(Some(Render(Child(host.meipass.value, "ffmpeg.exe"))))
  {
    assert Candidates(host)[0] == FileAt(Render(Child(host.meipass.value, "ffmpeg.exe")));
  }

  // ---------------------------------------------------------------------
  // Video

  const TimeoutMessage := "Conversion timed out (exceeded 1 hour)"

  /**
   * The diagnostic reported for a failed run, `stderr.strip().split('\n')[-1]`,
   * or "Unknown error" for an empty stderr. It is one line, and it is not
   * blank when stderr holds anything but whitespace.
   */
  function FfmpegDiagnostic(stderr: string): (line: string)
    ensures stderr == [] ==> line == "Unknown error"
    ensures stderr != [] ==> var pieces := Split(Strip(stderr), '\n'); line == pieces[|pieces| - 1]
    ensures '\n' !in line
    ensures !AllSpace(stderr) ==> line != [] && !IsSpace(line[|line| - 1])
  {
    if stderr == [] then "Unknown error"
    else
      LastLineIsLastPiece(Strip(stderr));
      LastLine(Strip(stderr))
  }

  /**
   * `convert_mov_to_mp4`: FFmpeg must be known before anything else; then
   * the output path, one run of the fixed command, and its outcome mapped
   * to the output path or a RuntimeError.
   */
  function ConvertMovToMp4(ffmpeg: Option<string>, input: Path, output: Option<Path>,
                           run: seq<string> -> ProcessOutcome): (r: Result<Path, Error>)
    ensures !Usable(ffmpeg) ==> r == Failure(RuntimeError(FfmpegMissing))
    ensures r.Success? <==>
      && Usable(ffmpeg) && OutputFor(input, output, ".mp4").Some?
      && ExitedZero(run(FfmpegCommand(ffmpeg.value, Render(input), Render(OutputFor(input, output, ".mp4").value))))
    ensures r.Success? ==> r.value == OutputFor(input, output, ".mp4").value
    ensures Usable(ffmpeg) && OutputFor(input, output, ".mp4").None? ==>
      r == Failure(ValueError(EmptyNameMessage(input)))
    ensures Usable(ffmpeg) && OutputFor(input, output, ".mp4").Some? ==>
      var o := run(FfmpegCommand(ffmpeg.value, Render(input), Render(OutputFor(input, output, ".mp4").value)));
      && (o.Exited? && o.returnCode != 0 ==> r == Failure(RuntimeError("FFmpeg error: " + FfmpegDiagnostic(o.stderr))))
      && (o.TimedOut? ==> r == Failure(RuntimeError(TimeoutMessage)))
      && (o.NotFound? ==> r == Failure(RuntimeError("FFmpeg not found at: " + ffmpeg.value)))
      && (o.OsError? ==> r == Failure(Raised(o.message)))
  {
    if !Usable(ffmpeg) then Failure(RuntimeError(FfmpegMissing))
    else match OutputFor(input, output, ".mp4")
      case None => Failure(ValueError(EmptyNameMessage(input)))
      case Some(out) =>
        var exe := ffmpeg.value;
        match run(FfmpegCommand(exe, Render(input), Render(out)))
        case Exited(code, stderr) =>
          if code == 0 then Success(out)
          else Failure(RuntimeError("FFmpeg error: " + FfmpegDiagnostic(stderr)))
        case TimedOut => Failure(RuntimeError(TimeoutMessage))
        case NotFound(_) => Failure(RuntimeError("FFmpeg not found at: " + exe))
        case OsError(message) => Failure(Raised(message))
  }

  /**
   * A timeout is reported with its own message, which no other outcome of
   * the run produces.
   */
  lemma TimeoutIsDistinct(ffmpeg: Option<string>, input: Path, output: Option<Path>,
                          run: seq<string> -> ProcessOutcome)
    requires Usable(ffmpeg) && OutputFor(input, output, ".mp4").Some?
    ensures var cmd := FfmpegCommand(ffmpeg.value, Render(input), Render(OutputFor(input, output, ".mp4").value));
      run(cmd).TimedOut? <==> ConvertMovToMp4(ffmpeg, input, output, run) == Failure(RuntimeError(TimeoutMessage))
  {
    var cmd := FfmpegCommand(ffmpeg.value, Render(input), Render(OutputFor(input, output, ".mp4").value));
    match run(cmd) {
      case Exited(code, stderr) =>
        assert ("FFmpeg error: " + FfmpegDiagnostic(stderr))[0] != TimeoutMessage[0];
      case NotFound(_) =>
        assert ("FFmpeg not found at: " + ffmpeg.value)[0] != TimeoutMessage[0];
      case _ =>
    }
  }

  // ---------------------------------------------------------------------
  // Routing one file

  /**
   * The outside world one conversion touches: the dependency flags, what
   * Pillow makes of each input, how each ffmpeg command ends, and whether
   * creating a directory fails (with the error's text).
   */
  datatype World = World(
    deps: Deps,
    images: Path -> ImageSource,
    run: seq<string> -> ProcessOutcome,
    mkdir: Path -> Option<string>)

  /**
   * What `convert_file` did: the directory it asked `mkdir` to create
   * first (None when no output directory was given; the call may have
   * failed, see `result`), the converter it called and with which paths,
   * and what it returned.
   */
  datatype Routed = Routed(mkdirTarget: Option<Path>, dispatch: Dispatch, result: Result<Path, Error>)

  function UnsupportedMessage(ext: string): string {
    "Unsupported format: " + ext + "\nSupported formats: " + JoinWith(SupportedExtensions, ", ")
  }

  /** `", ".join` of the two video extensions. */
  lemma JoinVideoExtensions()
    ensures JoinWith(VideoExtensions, ", ") == ".mov, .m4v"
  {
    assert VideoExtensions[1..] == [".m4v"];
  }

  /** `", ".join` of the last three supported extensions. */
  lemma JoinLastThreeExtensions()
    ensures JoinWith(SupportedExtensions[1..], ", ") == ".heif, .mov, .m4v"
  {
    JoinVideoExtensions();
    assert SupportedExtensions[1..][1..] == VideoExtensions;
  }

  /** `", ".join` of all four supported extensions, images first. */
  lemma JoinSupportedExtensions()
    ensures JoinWith(SupportedExtensions, ", ") == ".heic, .heif, .mov, .m4v"
  {
    JoinLastThreeExtensions();
  }

  /** The message names the extension and lists all four supported ones. */
  lemma UnsupportedMessageText(ext: string)
    ensures UnsupportedMessage(ext) == "Unsupported format: " + ext + "\nSupported formats: .heic, .heif, .mov, .m4v"
  {
    JoinSupportedExtensions();
    var prefix := "Unsupported format: " + ext;
    assert "\nSupported formats: " + ".heic, .heif, .mov, .m4v" == "\nSupported formats: .heic, .heif, .mov, .m4v";
    assert prefix + "\nSupported formats: " + ".heic, .heif, .mov, .m4v"
      == prefix + ("\nSupported formats: " + ".heic, .heif, .mov, .m4v");
  }

  /**
   * Calling the chosen converter with its explicit output path; without
   * one, the unsupported-format ValueError. Success returns the target.
   */
  function Perform(ffmpeg: Option<string>, w: World, input: Path, d: Dispatch): (r: Result<Path, Error>)
    ensures d.NoConversion? ==> r == Failure(ValueError(UnsupportedMessage(Extension(input))))
    ensures r.Success? ==> d != NoConversion && r.value == d.target
    ensures d.ToImage? ==> r == SavedPath(Media.ConvertHeicToPng(w.deps, d.source, Some(d.target), w.images(d.source)))
    ensures d.ToVideo? ==> r == ConvertMovToMp4(ffmpeg, d.source, Some(d.target), w.run)
  {
    match d
    case ToImage(source, target) => SavedPath(ConvertHeicToPng(w.deps, source, Some(target), w.images(source)))
    case ToVideo(source, target) => ConvertMovToMp4(ffmpeg, source, Some(target), w.run)
    case NoConversion => Failure(ValueError(UnsupportedMessage(Extension(input))))
  }

  /**
   * `convert_file`: a given output directory is created first, so it
   * exists whatever the file turns out to be, and a failure to create it
   * escapes before anything else; without one the input's directory is
   * used.
   */
  function ConvertFile(ffmpeg: Option<string>, w: World, input: Path, outputDir: Option<Path>): (r: Routed)
    ensures r.mkdirTarget == outputDir
    ensures outputDir.Some? && w.mkdir(outputDir.value).Some? ==>
      r.dispatch == NoConversion && r.result == Failure(Raised(w.mkdir(outputDir.value).value))
    ensures outputDir.None? || w.mkdir(outputDir.value).None? ==>
      && r.dispatch == Route(input, if outputDir.Some? then outputDir.value else Parent(input))
      && r.result == Perform(ffmpeg, w, input, r.dispatch)
    ensures r.result.Success? ==> r.dispatch != NoConversion && r.result.value == r.dispatch.target
  {
    if outputDir.Some? && w.mkdir(outputDir.value).Some? then
      Routed(outputDir, NoConversion, Failure(Raised(w.mkdir(outputDir.value).value)))
    else
      var d := Route(input, if outputDir.Some? then outputDir.value else Parent(input));
      Routed(outputDir, d, Perform(ffmpeg, w, input, d))
  }

  // ---------------------------------------------------------------------
  // Scanning a directory

  /** A path the scan keeps: its lower-cased suffix is one of the four. */
  predicate Wanted(p: Path) {
    IsSupported(Extension(p))
  }

  /** The inner loop over one directory's file names, keeping the wanted ones. */
  function NameMatches(root: Path, names: seq<string>): (r: seq<Path>)
    ensures forall p :: p in r ==> Wanted(p)
  {
    if names == [] then []
    else
      var p := Child(root, names[|names| - 1]);
      NameMatches(root, names[..|names| - 1]) + (if Wanted(p) then [p] else [])
  }

  /** The inner loop keeps exactly the wanted children named in the listing. */
  lemma {:induction false} NameMatchesFinds(root: Path, names: seq<string>, p: Path)
    ensures p in NameMatches(root, names) <==> Wanted(p) && exists n :: n in names && p == Child(root, n)
  {
    if names != [] {
      var init, last := names[..|names| - 1], names[|names| - 1];
      assert names == init + [last];
      NameMatchesFinds(root, init, p);
    }
  }

  /** The matches of a whole walk, directory by directory. */
  function Matches(visits: seq<Visit>): seq<Path> {
    if visits == [] then []
    else NameMatches(visits[0].root, visits[0].fileNames) + Matches(visits[1..])
  }

  lemma {:induction false} MatchesWanted(visits: seq<Visit>)
    ensures forall p :: p in Matches(visits) ==> Wanted(p)
  {
    if visits != [] {
      MatchesWanted(visits[1..]);
    }
  }

  lemma {:induction false} MatchesAppend(a: seq<Visit>, b: seq<Visit>)
    ensures Matches(a + b) == Matches(a) + Matches(b)
  {
    if a == [] {
      assert a + b == b;
    } else {
      var ab := a + b;
      assert ab[0] == a[0];
      assert ab[1..] == a[1..] + b;
      MatchesAppend(a[1..], b);
    }
  }

  /** The non-recursive loop: regular files of the directory itself, wanted ones only. */
  function ShallowMatches(dir: Path, entries: seq<Entry>): (r: seq<Path>)
    ensures forall p :: p in r ==> Wanted(p)
  {
    if entries == [] then []
    else
      var last := entries[|entries| - 1];
      var p := Child(dir, last.name);
      ShallowMatches(dir, entries[..|entries| - 1]) + (if last.RegularFile? && Wanted(p) then [p] else [])
  }

  lemma NameMatchesStep(root: Path, names: seq<string>, j: nat)
    requires j < |names|
    ensures var p := Child(root, names[j]);
      NameMatches(root, names[..j + 1]) == NameMatches(root, names[..j]) + (if Wanted(p) then [p] else [])
  {
    assert names[..j + 1][..j] == names[..j];
  }

  lemma MatchesStep(visits: seq<Visit>, k: nat)
    requires k < |visits|
    ensures Matches(visits[..k + 1]) == Matches(visits[..k]) + NameMatches(visits[k].root, visits[k].fileNames)
  {
    assert visits[..k + 1] == visits[..k] + [visits[k]];
    MatchesAppend(visits[..k], [visits[k]]);
  }

  lemma ShallowMatchesStep(dir: Path, entries: seq<Entry>, k: nat)
    requires k < |entries|
    ensures var p := Child(dir, entries[k].name);
      ShallowMatches(dir, entries[..k + 1])
      == ShallowMatches(dir, entries[..k]) + (if entries[k].RegularFile? && Wanted(p) then [p] else [])
  {
    assert entries[..k + 1][..k] == entries[..k];
  }

  /**
   * `scan_directory`: the recursive scan walks the whole tree, the other
   * lists the directory itself. Either way only wanted paths are kept, in
   * listing order.
   */
  method ScanDirectory(dir: Path, tree: Dir, recursive: bool) returns (files: seq<Path>)
    ensures files == if recursive then Matches(Walk(dir, tree)) else ShallowMatches(dir, tree.entries)
    ensures forall p :: p in files ==> Wanted(p)
  {
    if recursive {
      files := ScanWalk(Walk(dir, tree));
      MatchesWanted(Walk(dir, tree));
    } else {
      files := ScanListing(dir, tree.entries);
    }
  }

  /** The nested loops over what `os.walk` yields: each directory's file names in turn. */
  method ScanWalk(visits: seq<Visit>) returns (files: seq<Path>)
    ensures files == Matches(visits)
  {
    files := [];
    for k := 0 to |visits|
      invariant files == Matches(visits[..k])
    {
      var found := ScanNames(visits[k].root, visits[k].fileNames);
      files := files + found;
      MatchesStep(visits, k);
    }
    assert visits[..|visits|] == visits;
  }

  /** The inner loop: the file names of one directory. */
  method ScanNames(root: Path, names: seq<string>) returns (found: seq<Path>)
    ensures found == NameMatches(root, names)
  {
    found := [];
    for j := 0 to |names|
      invariant found == NameMatches(root, names[..j])
    {
      var p := Child(root, names[j]);
      NameMatchesStep(root, names, j);
      if Wanted(p) {
        found := found + [p];
      }
    }
    assert names[..|names|] == names;
  }

  /** The loop over `iterdir()`: regular files only. */
  method ScanListing(dir: Path, entries: seq<Entry>) returns (files: seq<Path>)
    ensures files == ShallowMatches(dir, entries)
  {
    files := [];
    for k := 0 to |entries|
      invariant files == ShallowMatches(dir, entries[..k])
    {
      var item := entries[k];
      ShallowMatchesStep(dir, entries, k);
      if item.RegularFile? && Wanted(Child(dir, item.name)) {
        files := files + [Child(dir, item.name)];
      }
    }
    assert entries[..|entries|] == entries;
  }

  /**
   * The recursive scan finds exactly the wanted non-directories anywhere
   * below the directory.
   */
  lemma {:induction false} DeepScanFinds(root: Path, d: Dir, p: Path)
    ensures p in Matches(Walk(root, d)) <==> Below(p, root, d) && Wanted(p)
    decreases d, 1
  {
    var names := FileNames(d.entries);
    var rest := Descend(root, d, 0);
    assert Walk(root, d) == [Visit(root, names)] + rest;
    MatchesAppend([Visit(root, names)], rest);
    assert Matches([Visit(root, names)]) == NameMatches(root, names) + Matches([]);
    var direct, deeper := p in NameMatches(root, names), p in Matches(rest);
    NameMatchesFinds(root, names, p);
    assert p in Matches(Walk(root, d)) <==> direct || deeper;
    var isFile := exists k :: 0 <= k < |d.entries| && !d.entries[k].Folder? && p == Child(root, d.entries[k].name);
    assert direct <==> Wanted(p) && isFile by {
      if direct {
        var n :| n in names && p == Child(root, n);
        var k :| 0 <= k < |d.entries| && !d.entries[k].Folder? && d.entries[k].name == n;
      }
      if Wanted(p) && isFile {
        var k :| 0 <= k < |d.entries| && !d.entries[k].Folder? && p == Child(root, d.entries[k].name);
        assert d.entries[k].name in names;
      }
    }
    DescendFinds(root, d, 0, p);
    var inFolder := exists k :: 0 <= k < |d.entries| && InFolder(p, root, d, k);
    assert deeper <==> Wanted(p) && inFolder;
    BelowCases(p, root, d);
  }

  lemma {:induction false} DescendFinds(root: Path, d: Dir, i: nat, p: Path)
    ensures p in Matches(Descend(root, d, i)) <==>
      Wanted(p) && exists k :: i <= k < |d.entries| && InFolder(p, root, d, k)
    decreases d, 0, |d.entries| - i
  {
    if i < |d.entries| {
      var e := d.entries[i];
      assert e in d.entries;
      var sub := if e.Folder? then Walk(Child(root, e.name), e.contents) else [];
      var rest := Descend(root, d, i + 1);
      assert Descend(root, d, i) == sub + rest;
      MatchesAppend(sub, rest);
      var inSub, inRest := p in Matches(sub), p in Matches(rest);
      assert p in Matches(Descend(root, d, i)) <==> inSub || inRest;
      var here := InFolder(p, root, d, i);
      if e.Folder? {
        DeepScanFinds(Child(root, e.name), e.contents, p);
        assert here <==> Below(p, Child(root, e.name), e.contents);
      } else {
        assert Matches(sub) == [];
        assert !here;
      }
      assert inSub <==> Wanted(p) && here;
      DescendFinds(root, d, i + 1, p);
      var later := exists k :: i + 1 <= k < |d.entries| && InFolder(p, root, d, k);
      assert inRest <==> Wanted(p) && later;
      assert (exists k :: i <= k < |d.entries| && InFolder(p, root, d, k)) <==> here || later;
    }
  }

  /** The `k`-th listed entry is a regular file and `p` is its path. */
  predicate IsListedFile(dir: Path, entries: seq<Entry>, k: nat, p: Path)
    requires k < |entries|
  {
    entries[k].RegularFile? && p == Child(dir, entries[k].name)
  }

  /** `p` is the path of a regular file among the first `n` entries. */
  ghost predicate ListedBefore(dir: Path, entries: seq<Entry>, n: nat, p: Path)
    requires n <= |entries|
  {
    exists k :: 0 <= k < n && IsListedFile(dir, entries, k, p)
  }

  /** Listing more entries after the first `n` does not change which of those `n` are files. */
  lemma ListedInPrefix(dir: Path, entries: seq<Entry>, n: nat, p: Path)
    requires n <= |entries|
    ensures ListedBefore(dir, entries[..n], n, p) <==> ListedBefore(dir, entries, n, p)
  {
    assert forall k :: 0 <= k < n ==> IsListedFile(dir, entries[..n], k, p) == IsListedFile(dir, entries, k, p);
  }

  /** One entry more: `p` is among the first `n + 1` files when it is among the first `n` or is entry `n`. */
  lemma ListedStep(dir: Path, entries: seq<Entry>, n: nat, p: Path)
    requires n < |entries|
    ensures ListedBefore(dir, entries, n + 1, p) <==>
      ListedBefore(dir, entries, n, p) || IsListedFile(dir, entries, n, p)
  {
    if ListedBefore(dir, entries, n + 1, p) {
      var k :| 0 <= k < n + 1 && IsListedFile(dir, entries, k, p);
      assert k < n ==> ListedBefore(dir, entries, n, p);
    }
  }

  /** The non-recursive scan finds exactly the wanted regular files of the directory itself. */
  lemma {:induction false} ShallowScanFinds(dir: Path, entries: seq<Entry>, p: Path)
    ensures p in ShallowMatches(dir, entries) <==> Wanted(p) && ListedBefore(dir, entries, |entries|, p)
  {
    if entries != [] {
      var n := |entries| - 1;
      var init := entries[..n];
      ShallowScanFinds(dir, init, p);
      ListedInPrefix(dir, entries, n, p);
      ListedStep(dir, entries, n, p);
      var q := Child(dir, entries[n].name);
      var tail := if entries[n].RegularFile? && Wanted(q) then [q] else [];
      assert ShallowMatches(dir, entries) == ShallowMatches(dir, init) + tail;
      assert p in tail <==> IsListedFile(dir, entries, n, p) && Wanted(p);
    }
  }

  /** Everything the non-recursive scan finds, the recursive one finds too. */
  lemma ShallowWithinDeep(dir: Path, d: Dir)
    ensures forall p :: p in ShallowMatches(dir, d.entries) ==> p in Matches(Walk(dir, d))
  {
    forall p | p in ShallowMatches(dir, d.entries) ensures p in Matches(Walk(dir, d)) {
      ShallowScanFinds(dir, d.entries, p);
      var k :| 0 <= k < |d.entries| && IsListedFile(dir, d.entries, k, p);
      assert BelowEntry(p, dir, d, k);
      DeepScanFinds(dir, d, p);
    }
  }

  /** An empty directory gives an empty list either way. */
  lemma EmptyDirectoryScan(dir: Path)
    ensures Matches(Walk(dir, Dir([]))) == [] && ShallowMatches(dir, []) == []
  {
    assert Walk(dir, Dir([])) == [Visit(dir, [])];
    assert Matches([Visit(dir, [])]) == NameMatches(dir, []) + Matches([]);
  }

  // ---------------------------------------------------------------------
  // The counting loop of `main`

  /** The per-file converter `main` calls: `convert_file` into the output directory. */
  function FileConverter(ffmpeg: Option<string>, w: World, outputDir: Path): Path -> Routed {
    f => ConvertFile(ffmpeg, w, f, Some(outputDir))
  }

  /** A file `main` counts as converted: it exists and the conversion returns. */
  predicate Converts(convert: Path -> Routed, existing: set<string>, f: Path) {
    Render(f) in existing && convert(f).result.Success?
  }

  /** The files `main` hands to `convert_file`: those that exist, in order. */
  function Present(existing: set<string>, files: seq<Path>): seq<Path> {
    if files == [] then []
    else
      var f := files[|files| - 1];
      Present(existing, files[..|files| - 1]) + (if Render(f) in existing then [f] else [])
  }

  function CountConverted(convert: Path -> Routed, existing: set<string>, files: seq<Path>): nat {
    if files == [] then 0
    else
      CountConverted(convert, existing, files[..|files| - 1])
      + (if Converts(convert, existing, files[|files| - 1]) then 1 else 0)
  }

  /**
   * Missing files are failures without a conversion attempt: no more
   * files convert than are present.
   */
  lemma {:induction false} MissingFilesFail(convert: Path -> Routed, existing: set<string>, files: seq<Path>)
    ensures CountConverted(convert, existing, files) <= |Present(existing, files)|
  {
    if files != [] {
      MissingFilesFail(convert, existing, files[..|files| - 1]);
    }
  }

  /**
   * The loop of `main` over the files to convert, for the converter
   * `convert` and the files that exist: a missing file counts as failed
   * and is skipped, any other file is converted and counts as succeeded
   * or failed by whether an exception escaped. Every file is counted
   * exactly once.
   */
  method Tally(convert: Path -> Routed, existing: set<string>, files: seq<Path>)
    returns (success: nat, failed: nat, attempted: seq<Path>)
    ensures success + failed == |files|
    ensures success == CountConverted(convert, existing, files)
    ensures attempted == Present(existing, files)
  {
    success, failed, attempted := 0, 0, [];
    for i := 0 to |files|
      invariant success + failed == i
      invariant success == CountConverted(convert, existing, files[..i])
      invariant attempted == Present(existing, files[..i])
    {
      var filePath := files[i];
      assert files[..i + 1][..i] == files[..i];
      if Render(filePath) !in existing {
        failed := failed + 1;
        continue;
      }
      attempted := attempted + [filePath];
      var routed := convert(filePath);
      if routed.result.Success? {
        success := success + 1;
      } else {
        failed := failed + 1;
      }
    }
    assert files[..|files|] == files;
  }
}
