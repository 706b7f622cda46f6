/**
 * The search both copies of `_find_ffmpeg` perform: candidates are tried
 * in a fixed order, the first one that answers decides, and running out
 * of candidates yields None. A candidate either names a file that must
 * exist, or is the bare `ffmpeg` on the search path, which counts when
 * `ffmpeg -version` exits with status 0.
 */
module Discovery {
  import opened Wrappers
  import opened Media

  datatype Probe = FileAt(path: string) | SearchPath

  /**
   * The machine as the search sees it: which paths exist, and how
   * `ffmpeg -version` ends.
   */
  datatype Env = Env(existing: set<string>, versionCheck: ProcessOutcome)

  /** What one candidate says: here it is, try the next, or an exception escapes. */
  datatype Verdict = Found(path: string) | Miss | Raise(message: string)

  /**
   * A file candidate is found when it exists. The search-path candidate is
   * found on exit status 0; another status, a timeout or FileNotFoundError
   * passes to the next candidate; any other OSError is not caught.
   */
  function Judge(env: Env, probe: Probe): (v: Verdict)
    ensures v.Found? <==>
      || (probe.FileAt? && probe.path in env.existing)
      || (probe.SearchPath? && ExitedZero(env.versionCheck))
    ensures v.Found? ==> v.path == if probe.FileAt? then probe.path else "ffmpeg"
    ensures v.Raise? <==> probe.SearchPath? && env.versionCheck.OsError?
    ensures v.Raise? ==> v.message == env.versionCheck.message
  {
    match probe
    case FileAt(path) => if path in env.existing then Found(path) else Miss
    case SearchPath =>
      match env.versionCheck
      case Exited(code, _) => if code == 0 then Found("ffmpeg") else Miss
      case TimedOut => Miss
      case NotFound(_) => Miss
      case OsError(message) => Raise(message)
  }

  /** The result of trying `probes` in order: the path, None, or the escaping error. */
  function FirstVerdict(env: Env, probes: seq<Probe>): Result<Option<string>, string> {
    if probes == [] then Success(None)
    else match Judge(env, probes[0])
      case Found(path) => Success(Some(path))
      case Raise(message) => Failure(message)
      case Miss => FirstVerdict(env, probes[1..])
  }

  /** The search on a candidate followed by others: the candidate decides unless it misses. */
  lemma FirstStep(env: Env, probe: Probe, rest: seq<Probe>)
    ensures FirstVerdict(env, [probe] + rest) ==
      match Judge(env, probe)
      case Found(path) => Success(Some(path))
      case Raise(message) => Failure(message)
      case Miss => FirstVerdict(env, rest)
  {
    assert ([probe] + rest)[1..] == rest;
  }

  predicate AllMiss(env: Env, probes: seq<Probe>) {
    forall j :: 0 <= j < |probes| ==> Judge(env, probes[j]) == Miss
  }

  /**
   * First match wins: the search returns `path` exactly when some
   * candidate finds `path` and every candidate before it misses.
   */
  lemma {:induction false} FoundIsFirstHit(env: Env, probes: seq<Probe>, path: string)
    ensures FirstVerdict(env, probes) == Success(Some(path)) <==>
      exists i :: 0 <= i < |probes| && Judge(env, probes[i]) == Found(path) && AllMiss(env, probes[..i])
  {
    if probes != [] {
      FoundIsFirstHit(env, probes[1..], path);
      if Judge(env, probes[0]) == Miss {
        if exists i :: 0 <= i < |probes[1..]| && Judge(env, probes[1..][i]) == Found(path) && AllMiss(env, probes[1..][..i]) {
          var i :| 0 <= i < |probes[1..]| && Judge(env, probes[1..][i]) == Found(path) && AllMiss(env, probes[1..][..i]);
          assert probes[..i + 1] == [probes[0]] + probes[1..][..i];
          assert Judge(env, probes[i + 1]) == Found(path) && AllMiss(env, probes[..i + 1]);
        }
        if exists i :: 0 <= i < |probes| && Judge(env, probes[i]) == Found(path) && AllMiss(env, probes[..i]) {
          var i :| 0 <= i < |probes| && Judge(env, probes[i]) == Found(path) && AllMiss(env, probes[..i]);
          assert i > 0;
          assert probes[1..][..i - 1] == probes[1..i];
          assert Judge(env, probes[1..][i - 1]) == Found(path) && AllMiss(env, probes[1..][..i - 1]);
        }
      } else {
        assert forall i :: 0 < i < |probes| ==> !AllMiss(env, probes[..i]) by {
          forall i | 0 < i < |probes| ensures !AllMiss(env, probes[..i]) {
            assert probes[..i][0] == probes[0];
          }
        }
      }
    }
  }

  /** The search yields None exactly when every candidate misses. */
  lemma {:induction false} NoneIffAllMiss(env: Env, probes: seq<Probe>)
    ensures FirstVerdict(env, probes) == Success(None) <==> AllMiss(env, probes)
  {
    if probes != [] {
      NoneIffAllMiss(env, probes[1..]);
      assert AllMiss(env, probes) ==> AllMiss(env, probes[1..]) by {
        if AllMiss(env, probes) {
          forall j | 0 <= j < |probes[1..]| ensures Judge(env, probes[1..][j]) == Miss {
            assert probes[1..][j] == probes[j + 1];
          }
        }
      }
      assert Judge(env, probes[0]) == Miss && AllMiss(env, probes[1..]) ==> AllMiss(env, probes) by {
        if Judge(env, probes[0]) == Miss && AllMiss(env, probes[1..]) {
          forall j | 0 <= j < |probes| ensures Judge(env, probes[j]) == Miss {
            if j > 0 { assert probes[j] == probes[1..][j - 1]; }
          }
        }
      }
    }
  }

  /** Candidates that all miss can be skipped. */
  lemma {:induction false} SkipMisses(env: Env, tried: seq<Probe>, rest: seq<Probe>)
    requires AllMiss(env, tried)
    ensures FirstVerdict(env, tried + rest) == FirstVerdict(env, rest)
  {
    if tried != [] {
      assert (tried + rest)[0] == tried[0];
      assert (tried + rest)[1..] == tried[1..] + rest;
      assert Judge(env, tried[0]) == Miss;
      forall j | 0 <= j < |tried[1..]| ensures Judge(env, tried[1..][j]) == Miss {
        assert tried[1..][j] == tried[j + 1];
      }
      SkipMisses(env, tried[1..], rest);
    } else {
      assert tried + rest == rest;
    }
  }

  /** The fixed Windows installation paths, in the order they are tried. */
  const CommonPaths: seq<string> := [
    "C:\\ffmpeg\\bin\\ffmpeg.exe",
    "C:\\Program Files\\ffmpeg\\bin\\ffmpeg.exe",
    "C:\\Program Files (x86)\\ffmpeg\\bin\\ffmpeg.exe"]

  function FileProbes(paths: seq<string>): (probes: seq<Probe>)
    ensures |probes| == |paths|
    ensures forall i :: 0 <= i < |paths| ==> probes[i] == FileAt(paths[i])
  {
    if paths == [] then [] else [FileAt(paths[0])] + FileProbes(paths[1..])
  }

  /** The loop over the fixed installation paths: the first that exists. */
  method FindInstalled(env: Env) returns (found: Option<string>)
    ensures FirstVerdict(env, FileProbes(CommonPaths)) == Success(found)
  {
    var common := FileProbes(CommonPaths);
    assert common[0..] == common;
    for k := 0 to |CommonPaths|
      invariant FirstVerdict(env, common) == FirstVerdict(env, common[k..])
    {
      assert common[k..] == [FileAt(CommonPaths[k])] + common[k + 1..];
      FirstStep(env, FileAt(CommonPaths[k]), common[k + 1..]);
      if CommonPaths[k] in env.existing {
        return Some(CommonPaths[k]);
      }
    }
    return None;
  }
}
