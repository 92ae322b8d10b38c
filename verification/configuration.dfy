/** The configuration loader as the launcher sees it, and the launcher's
    handling of an explicit configuration path. The loader itself (file
    discovery, YAML parsing, its process-wide cache) lies outside the model:
    a `ConfigSource` says what it answers. */
module Configuration {
  import opened Errors

  /** The part of a loaded configuration the launcher reads:
      `extensions.commands`, with an absent or empty entry as []. */
  datatype Config = Config(extensionCommands: seq<string>)

  datatype LoadOutcome = Loaded(config: Config) | LoadFailed(error: Throwable)

  /** The loader's answers: to a request with an explicit path, and to the
      request without a path made when commands are registered. */
  datatype ConfigSource = ConfigSource(load: string -> LoadOutcome, discover: LoadOutcome)

  /** The message of the exception that replaces a "not found" for an
      explicit path. */
  function ExplicitNotFoundMessage(path: string): string
  {
    "Your configuration file `" + path + "` could not be found."
  }

  /** The exception `preloadConfiguration(path)` lets out when the loader
      answers `outcome`, or None when it returns normally. */
  function PreloadError(path: string, outcome: LoadOutcome): (r: Option<Throwable>)
    ensures r.None? <==> outcome.Loaded?
    ensures r.Some? ==> !IsNotFound(r.value)
    ensures r.Some? && r.value != outcome.error ==>
      IsNotFound(outcome.error) && r.value == Throwable(ConfigurationException, 405, ExplicitNotFoundMessage(path))
  {
    match outcome
    case Loaded(_) => None
    case LoadFailed(e) =>
      if e.kind == ConfigurationException && e.code == 404 then
        Some(Throwable(ConfigurationException, 405, ExplicitNotFoundMessage(path)))
      else
        Some(e)
  }

  /** The preloads of one scan: paths issued, and the exception that ended it. */
  datatype Preloading = Preloading(issued: seq<string>, err: Option<Throwable>)

  /** Preloading `paths` one after another, stopping at the first failure. */
  function PreloadAll(source: ConfigSource, paths: seq<string>): Preloading
  {
    if paths == [] then Preloading([], None)
    else
      match PreloadError(paths[0], source.load(paths[0]))
      case Some(e) => Preloading([paths[0]], Some(e))
      case None =>
        var rest := PreloadAll(source, paths[1..]);
        Preloading([paths[0]] + rest.issued, rest.err)
  }

  predicate LoadsAt(source: ConfigSource, paths: seq<string>, k: int)
    requires 0 <= k < |paths|
  {
    source.load(paths[k]).Loaded?
  }

  /** Preloading issues the paths in order up to and including the first one
      that fails, and only that failure escapes; when none fails every path
      is issued and nothing escapes. */
  lemma {:induction false} PreloadAllSpec(source: ConfigSource, paths: seq<string>)
    ensures var run := PreloadAll(source, paths);
      |run.issued| <= |paths| && run.issued == paths[..|run.issued|] &&
      (run.err.None? <==> forall k :: 0 <= k < |paths| ==> LoadsAt(source, paths, k)) &&
      (run.err.None? ==> run.issued == paths) &&
      (run.err.Some? ==>
        |run.issued| > 0 &&
        (forall k :: 0 <= k < |run.issued| - 1 ==> LoadsAt(source, paths, k)) &&
        !LoadsAt(source, paths, |run.issued| - 1) &&
        run.err == PreloadError(paths[|run.issued| - 1], source.load(paths[|run.issued| - 1])))
  {
    if paths != [] {
      PreloadAllSpec(source, paths[1..]);
      forall k | 1 <= k < |paths|
        ensures LoadsAt(source, paths, k) == LoadsAt(source, paths[1..], k - 1)
      {
        assert paths[1..][k - 1] == paths[k];
      }
      if LoadsAt(source, paths, 0) {
        var rest := PreloadAll(source, paths[1..]);
        assert PreloadAll(source, paths) == Preloading([paths[0]] + rest.issued, rest.err);
        assert paths == [paths[0]] + paths[1..];
        if rest.err.None? {
          assert forall k :: 0 <= k < |paths| ==> LoadsAt(source, paths, k);
        } else {
          var j := |rest.issued| - 1;
          assert !LoadsAt(source, paths, j + 1);
        }
      }
    }
  }

  /** A preload that succeeded does not change what follows. */
  lemma {:induction false} PreloadAllAfterLoaded(source: ConfigSource, a: seq<string>, b: seq<string>)
    requires PreloadAll(source, a).err.None?
    ensures PreloadAll(source, a + b) ==
      Preloading(PreloadAll(source, a).issued + PreloadAll(source, b).issued, PreloadAll(source, b).err)
  {
    if a != [] {
      assert PreloadError(a[0], source.load(a[0])).None?;
      var ra := PreloadAll(source, a[1..]);
      assert PreloadAll(source, a) == Preloading([a[0]] + ra.issued, ra.err);
      assert (a + b)[0] == a[0];
      assert (a + b)[1..] == a[1..] + b;
      PreloadAllAfterLoaded(source, a[1..], b);
      var rb := PreloadAll(source, b);
      assert PreloadAll(source, a + b) == Preloading([a[0]] + (ra.issued + rb.issued), rb.err);
      assert [a[0]] + (ra.issued + rb.issued) == ([a[0]] + ra.issued) + rb.issued;
    } else {
      assert a + b == b;
    }
  }

  /** After paths that all loaded, one more path that loads keeps the run
      going. */
  lemma PreloadAllSnoc(source: ConfigSource, a: seq<string>, path: string)
    requires PreloadAll(source, a) == Preloading(a, None)
    requires PreloadError(path, source.load(path)).None?
    ensures PreloadAll(source, a + [path]) == Preloading(a + [path], None)
  {
    PreloadAllAfterLoaded(source, a, [path]);
    assert [path][1..] == [];
  }

  /** After paths that all loaded, the first failing path is the last one
      issued, and its failure is what escapes. */
  lemma PreloadAllStopsAt(source: ConfigSource, a: seq<string>, path: string, paths: seq<string>)
    requires PreloadAll(source, a) == Preloading(a, None)
    requires PreloadError(path, source.load(path)).Some?
    requires |a| < |paths| && paths[..|a| + 1] == a + [path]
    ensures PreloadAll(source, paths) == Preloading(a + [path], PreloadError(path, source.load(path)))
  {
    var b := paths[|a| + 1..];
    assert paths == a + ([path] + b) by {
      assert paths == paths[..|a| + 1] + b;
    }
    assert PreloadAll(source, [path] + b) == Preloading([path], PreloadError(path, source.load(path))) by {
      assert ([path] + b)[0] == path;
    }
    PreloadAllAfterLoaded(source, a, [path] + b);
  }
}
