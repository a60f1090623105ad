/**
 * Configuration validation: a `Config` whose optional fields are taken out
 * one by one by validators, and the `ValidatedConfig` built from them. The
 * file system query `is_dir` is the parameter `dirs`, the set of paths that
 * are existing directories.
 */
module Configuration {
  import opened Wrappers
  import Decimal
  import opened Ints

  type Path = string

  /**
   * The shared rule of the three directory validators: succeed with the
   * path, and take it out of the field, exactly when the field holds a path
   * that is a directory; otherwise fail and leave the field as it was.
   */
  function TakeIfDir(field: Option<Path>, dirs: set<Path>): (out: (Result<Path, ()>, Option<Path>))
    ensures out.0.Ok? <==> field.Some? && field.value in dirs
    ensures out.0.Ok? ==> out.0.value == field.value && out.1 == None
    ensures out.0.Err? ==> out.1 == field
  {
    if field.Some? && field.value in dirs then (Ok(field.value), None) else (Err(()), field)
  }

  /** A value can be validated only once: a second validation after a success fails. */
  lemma TakeOnce(field: Option<Path>, dirs: set<Path>)
    requires TakeIfDir(field, dirs).0.Ok?
    ensures TakeIfDir(TakeIfDir(field, dirs).1, dirs).0.Err?
  {
  }

  /** After a failure the field is unchanged, so validating again fails the same way. */
  lemma FailureIsStable(field: Option<Path>, dirs: set<Path>)
    requires TakeIfDir(field, dirs).0.Err?
    ensures TakeIfDir(TakeIfDir(field, dirs).1, dirs) == TakeIfDir(field, dirs)
  {
  }

  /** `format!("{}:{}", host, port)`. */
  function HostPort(host: string, port: u16): (url: string)
    ensures |url| > |host| + 1 && url[..|host|] == host && url[|host|] == ':'
    ensures Decimal.AllDigits(url[|host| + 1..])
    ensures ':' !in url[|host| + 1..]
  {
    host + ":" + Decimal.ToDecimal(port)
  }

  /** The position of the last `c` in `s`. */
  function LastIndexOf(s: string, c: char): (r: Option<nat>)
    ensures r.Some? ==> r.value < |s| && s[r.value] == c
    ensures r.Some? ==> forall i :: r.value < i < |s| ==> s[i] != c
    ensures r.None? ==> c !in s
  {
    if |s| == 0 then None
    else if s[|s| - 1] == c then Some(|s| - 1)
    else LastIndexOf(s[..|s| - 1], c)
  }

  /** The inverse of `HostPort`: split at the last `:` and parse the port. */
  function SplitHostPort(url: string): Option<(string, u16)> {
    match LastIndexOf(url, ':')
    case None => None
    case Some(k) =>
      match Decimal.ParseU64(url[k + 1..])
      case Some(port) => if port < 0x1_0000 then Some((url[..k], port)) else None
      case None => None
  }

  lemma LastIndexOfUnique(s: string, c: char, k: nat)
    requires k < |s| && s[k] == c
    requires forall i :: k < i < |s| ==> s[i] != c
    ensures LastIndexOf(s, c) == Some(k)
  {
    var r := LastIndexOf(s, c);
    assert r.Some?;
  }

  /** The server URL names its host and port unambiguously, even when the host holds a `:`. */
  lemma HostPortRoundTrip(host: string, port: u16)
    ensures SplitHostPort(HostPort(host, port)) == Some((host, port))
  {
    var digits := Decimal.ToDecimal(port);
    var url := HostPort(host, port);
    assert url[|host|] == ':';
    forall i | |host| < i < |url| ensures url[i] != ':' {
      assert url[i] == digits[i - |host| - 1];
      assert Decimal.IsDigit(digits[i - |host| - 1]);
    }
    LastIndexOfUnique(url, ':', |host|);
    assert url[|host| + 1..] == digits;
    assert url[..|host|] == host;
    Decimal.ParseToDecimal(port);
  }

  /** The configuration the core starts from. */
  datatype ValidatedConfig = ValidatedConfig(
    mountPoint: Path,
    cacheDir: Path,
    logDir: Path,
    serverUrl: string)

  /** Configuration as read from the command line and files; every field may be missing. */
  class Config {
    var mountPoint: Option<Path>
    var cacheDir: Option<Path>
    var logDir: Option<Path>
    var megaHost: Option<string>
    var megaPort: Option<u16>

    constructor (mountPoint: Option<Path>, cacheDir: Option<Path>, logDir: Option<Path>,
                 megaHost: Option<string>, megaPort: Option<u16>)
      ensures this.mountPoint == mountPoint && this.cacheDir == cacheDir && this.logDir == logDir
      ensures this.megaHost == megaHost && this.megaPort == megaPort
    {
      this.mountPoint := mountPoint;
      this.cacheDir := cacheDir;
      this.logDir := logDir;
      this.megaHost := megaHost;
      this.megaPort := megaPort;
    }

    /** `validate_mount_point`. */
    method ValidateMountPoint(dirs: set<Path>) returns (r: Result<Path, ()>)
      modifies this
      ensures (r, mountPoint) == TakeIfDir(old(mountPoint), dirs)
      ensures cacheDir == old(cacheDir) && logDir == old(logDir)
      ensures megaHost == old(megaHost) && megaPort == old(megaPort)
    {
      if mountPoint.Some? && mountPoint.value in dirs {
        r := Ok(mountPoint.value);
        mountPoint := None;
      } else {
        r := Err(());
      }
    }

    /** `validate_cache_dir`. */
    method ValidateCacheDir(dirs: set<Path>) returns (r: Result<Path, ()>)
      modifies this
      ensures (r, cacheDir) == TakeIfDir(old(cacheDir), dirs)
      ensures mountPoint == old(mountPoint) && logDir == old(logDir)
      ensures megaHost == old(megaHost) && megaPort == old(megaPort)
    {
      if cacheDir.Some? && cacheDir.value in dirs {
        r := Ok(cacheDir.value);
        cacheDir := None;
      } else {
        r := Err(());
      }
    }

    /** `validate_log_dir`. */
    method ValidateLogDir(dirs: set<Path>) returns (r: Result<Path, ()>)
      modifies this
      ensures (r, logDir) == TakeIfDir(old(logDir), dirs)
      ensures mountPoint == old(mountPoint) && cacheDir == old(cacheDir)
      ensures megaHost == old(megaHost) && megaPort == old(megaPort)
    {
      if logDir.Some? && logDir.value in dirs {
        r := Ok(logDir.value);
        logDir := None;
      } else {
        r := Err(());
      }
    }

    /**
     * `validate_mega_url`: the host is taken, the port is copied; never an
     * error. The source unwraps both fields, so both must be present.
     */
    method ValidateMegaUrl() returns (r: Result<string, ()>)
      requires megaHost.Some? && megaPort.Some?
      modifies this
      ensures r == Ok(HostPort(old(megaHost).value, old(megaPort).value))
      ensures megaHost == None && megaPort == old(megaPort)
      ensures mountPoint == old(mountPoint) && cacheDir == old(cacheDir) && logDir == old(logDir)
    {
      var host := megaHost.value;
      megaHost := None;
      var port := megaPort.value;
      r := Ok(HostPort(host, port));
    }
  }

  /** What `From<Config> for ValidatedConfig` needs to finish without a panic. */
  predicate Acceptable(mountPoint: Option<Path>, cacheDir: Option<Path>, logDir: Option<Path>,
                       megaHost: Option<string>, megaPort: Option<u16>, dirs: set<Path>)
  {
    && mountPoint.Some? && mountPoint.value in dirs
    && cacheDir.Some? && cacheDir.value in dirs
    && logDir.Some? && logDir.value in dirs
    && megaHost.Some? && megaPort.Some?
  }

  /**
   * `From<Config> for ValidatedConfig`: the four validators run in order on
   * the same configuration; the first failure (an `unwrap` panic in the
   * source) is `None`.
   */
  method ValidatedFrom(config: Config, dirs: set<Path>) returns (r: Option<ValidatedConfig>)
    modifies config
    ensures r.Some? <==> Acceptable(old(config.mountPoint), old(config.cacheDir), old(config.logDir),
                                    old(config.megaHost), old(config.megaPort), dirs)
    ensures r.Some? ==> r.value == ValidatedConfig(
              old(config.mountPoint).value, old(config.cacheDir).value, old(config.logDir).value,
              HostPort(old(config.megaHost).value, old(config.megaPort).value))
  {
    var mountPoint := config.ValidateMountPoint(dirs);
    if mountPoint.Err? {
      return None;
    }
    var cacheDir := config.ValidateCacheDir(dirs);
    if cacheDir.Err? {
      return None;
    }
    var logDir := config.ValidateLogDir(dirs);
    if logDir.Err? {
      return None;
    }
    if config.megaHost.None? || config.megaPort.None? {
      return None;
    }
    var serverUrl := config.ValidateMegaUrl();
    r := Some(ValidatedConfig(mountPoint.value, cacheDir.value, logDir.value, serverUrl.value));
  }
}
