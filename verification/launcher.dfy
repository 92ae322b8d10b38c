/** The launcher object (`Codeception\Application`): the memoised scan of the
    raw argument vector, the preload of an explicit configuration path, and
    the registration of custom commands named in the configuration. */
module Launcher {
  import opened Errors
  import opened Seqs
  import opened ConfigToken
  import opened CoreScan
  import opened Configuration
  import opened Registry

  /** The parsed console input built from an argument vector (the console
      framework's `ArgvInput`). */
  class ArgvInput {
    const tokens: seq<string>

    constructor (tokens: seq<string>)
      ensures this.tokens == tokens
    {
      this.tokens := tokens;
    }
  }

  /** How `registerCustomCommands` ends: it returns, it ends the process with
      a status, or a throwable it does not catch leaves it. */
  datatype Exit = Returned | ExitStatus(status: int) | Uncaught(error: Throwable)

  /** The catch clauses of `registerCustomCommands` applied to the exception
      that left the registration, if any: only the loader's "not found" is
      swallowed, every other exception ends the process with status 1, and a
      throwable that is not an exception is not caught. */
  function Disposition(err: Option<Throwable>): (r: Exit)
    ensures r == Returned <==> err.None? || IsNotFound(err.value)
    ensures r.ExitStatus? <==> err.Some? && err.value.kind != EngineError && !IsNotFound(err.value)
    ensures r.ExitStatus? ==> r.status == 1
    ensures r.Uncaught? ==> err == Some(r.error) && r.error.kind == EngineError
  {
    match err
    case None => Returned
    case Some(e) =>
      match e.kind
      case ConfigurationException => if e.code == 404 then Returned else ExitStatus(1)
      case OtherException => ExitStatus(1)
      case EngineError => Uncaught(e)
  }

  /** The loader requests made for explicit paths, in order. */
  function Explicit(paths: seq<string>): seq<Option<string>>
  {
    seq(|paths|, k requires 0 <= k < |paths| => Some(paths[k]))
  }

  /** Requests made so far, then one more explicit path. */
  lemma ExplicitSnoc(before: seq<Option<string>>, paths: seq<string>, path: string)
    ensures before + Explicit(paths + [path]) == (before + Explicit(paths)) + [Some(path)]
  {
    assert forall k :: 0 <= k < |paths| + 1 ==>
      Explicit(paths + [path])[k] == (Explicit(paths) + [Some(path)])[k];
  }

  /** What `readCustomCommandsFromConfig` does: the loader requests it makes
      (Some(path) for a preload, None for the request without a path), the
      commands it adds, and the exception that leaves it. `cached` says
      whether the core arguments were already computed; `order` is the order
      in which each listed class is instantiated and validated. */
  datatype ReadEffects = ReadEffects(requests: seq<Option<string>>, added: seq<Command>, err: Option<Throwable>)

  function ReadCustomCommands(cached: bool, argv: seq<string>, source: ConfigSource,
                              classes: map<string, ClassInfo>, order: CheckOrder): ReadEffects
  {
    var scan := if cached then Preloading([], None) else PreloadAll(source, Scan(argv).preloads);
    var preloads := Explicit(scan.issued);
    if scan.err.Some? then
      ReadEffects(preloads, [], scan.err)
    else
      match source.discover
      case LoadFailed(e) => ReadEffects(preloads + [None], [], Some(e))
      case Loaded(config) =>
        var reg := RegisterAll(classes, config.extensionCommands, order);
        ReadEffects(preloads + [None], reg.added, reg.err)
  }

  /** An explicit configuration path that fails to load is always fatal to
      the registration: no command is added, the default configuration is
      never requested, and `registerCustomCommands` does not return normally. */
  lemma ExplicitPathFailureIsFatal(argv: seq<string>, source: ConfigSource, classes: map<string, ClassInfo>,
                                   order: CheckOrder)
    requires PreloadAll(source, Scan(argv).preloads).err.Some?
    ensures var e := ReadCustomCommands(false, argv, source, classes, order);
      e.added == [] && None !in e.requests && Disposition(e.err) != Returned
  {
    PreloadAllSpec(source, Scan(argv).preloads);
  }

  /** A default configuration that cannot be found is not an error: the
      registration returns normally and adds nothing. */
  lemma DefaultNotFoundIsSilent(cached: bool, argv: seq<string>, source: ConfigSource,
                                classes: map<string, ClassInfo>, order: CheckOrder)
    requires cached || PreloadAll(source, Scan(argv).preloads).err.None?
    requires source.discover.LoadFailed? && IsNotFound(source.discover.error)
    ensures var e := ReadCustomCommands(cached, argv, source, classes, order);
      e.added == [] && Disposition(e.err) == Returned && e.requests[|e.requests| - 1] == None
  {
  }

  /** Once the configuration is loaded, the registration as written returns
      normally exactly when every listed class can be instantiated and is a
      custom command, and then adds one command per class in list order.
      Otherwise it adds the commands listed before the first class that fails;
      if that class can be instantiated, its validation fails and the process
      ends with status 1; if it cannot, the `\Error` of `new` escapes. */
  lemma RegistrationOutcome(cached: bool, argv: seq<string>, source: ConfigSource,
                            classes: map<string, ClassInfo>)
    requires cached || PreloadAll(source, Scan(argv).preloads).err.None?
    requires source.discover.Loaded?
    ensures var list := source.discover.config.extensionCommands;
      var e := ReadCustomCommands(cached, argv, source, classes, NewFirst);
      |e.added| <= |list| &&
      (forall k :: 0 <= k < |e.added| ==>
        RegistrableAt(classes, list, k) && e.added[k] == Command(classes[list[k]].commandName, list[k])) &&
      (Disposition(e.err) == Returned <==> forall k :: 0 <= k < |list| ==> RegistrableAt(classes, list, k)) &&
      (Disposition(e.err) != Returned ==>
        |e.added| < |list| && !RegistrableAt(classes, list, |e.added|) &&
        (Instantiable(classes, list[|e.added|]) ==> Disposition(e.err) == ExitStatus(1)) &&
        (!Instantiable(classes, list[|e.added|]) ==>
          Disposition(e.err) == Uncaught(InstantiationError(classes, list[|e.added|]))))
  {
    var list := source.discover.config.extensionCommands;
    RegisterAllSpec(classes, list, NewFirst);
    var reg := RegisterAll(classes, list, NewFirst);
    if reg.err.Some? {
      NewCommandFailures(classes, list[|reg.added|], NewFirst);
    }
  }

  /** With validation before instantiation, a listed class that does not
      exist, or does not implement the interface, ends the process with
      status 1 after the commands listed before it, and the exception is
      the launcher's own validation error. */
  lemma RegistrationOutcomeIntended(cached: bool, argv: seq<string>, source: ConfigSource,
                                    classes: map<string, ClassInfo>)
    requires cached || PreloadAll(source, Scan(argv).preloads).err.None?
    requires source.discover.Loaded?
    ensures var list := source.discover.config.extensionCommands;
      var e := ReadCustomCommands(cached, argv, source, classes, ValidateFirst);
      (Disposition(e.err) == Returned <==> forall k :: 0 <= k < |list| ==> RegistrableAt(classes, list, k)) &&
      (Disposition(e.err) != Returned ==>
        |e.added| < |list| && !RegistrableAt(classes, list, |e.added|) &&
        (!IsValidCommandClass(classes, list[|e.added|]) ==>
          Disposition(e.err) == ExitStatus(1) && e.err == Some(CommandName(classes, list[|e.added|]).error)) &&
        (IsValidCommandClass(classes, list[|e.added|]) ==>
          Disposition(e.err) == Uncaught(InstantiationError(classes, list[|e.added|]))))
  {
    var list := source.discover.config.extensionCommands;
    RegisterAllSpec(classes, list, ValidateFirst);
    var reg := RegisterAll(classes, list, ValidateFirst);
    if reg.err.Some? {
      NewCommandFailures(classes, list[|reg.added|], ValidateFirst);
    }
  }

  /** A listed class that does not exist: as written, the `\Error` of `new`
      escapes `registerCustomCommands`, which neither catch clause takes;
      validated first, it is the launcher's "not found" exception and the
      process ends with status 1. */
  lemma MissingClassEscapes(cached: bool, argv: seq<string>, source: ConfigSource,
                            classes: map<string, ClassInfo>)
    requires cached || PreloadAll(source, Scan(argv).preloads).err.None?
    requires source.discover == Loaded(Config(["Bad\\Class"])) && "Bad\\Class" !in classes
    ensures Disposition(ReadCustomCommands(cached, argv, source, classes, NewFirst).err) ==
      Uncaught(Throwable(EngineError, 0, "Class \"Bad\\Class\" not found"))
    ensures Disposition(ReadCustomCommands(cached, argv, source, classes, ValidateFirst).err) == ExitStatus(1)
  {
    var bad := "Bad\\Class";
    assert "Class \"" + bad + "\" not found" == "Class \"Bad\\Class\" not found";
    NewCommandFailures(classes, bad, NewFirst);
    NewCommandFailures(classes, bad, ValidateFirst);
    assert [bad][1..] == [];
    assert RegisterAll(classes, [bad], NewFirst).err == Some(InstantiationError(classes, bad));
    assert RegisterAll(classes, [bad], ValidateFirst).err == Some(ConfigurationError(ClassNotFoundMessage(bad)));
  }

  class Application {
    /** `$_SERVER['argv'] ?? []`. */
    const argv: seq<string>
    /** What the configuration loader answers. */
    const source: ConfigSource
    /** The classes the autoloader can find. */
    const classes: map<string, ClassInfo>
    /** `ini_get('register_argc_argv')`. */
    const argcArgvRegistered: bool

    /** The memoised filtered input (`$this->coreArguments`). */
    var coreArguments: ArgvInput?
    /** The commands this launcher has added to the console application. */
    var commands: seq<Command>
    /** The requests made to the configuration loader, in order. */
    var configRequests: seq<Option<string>>

    constructor (argv: seq<string>, source: ConfigSource, classes: map<string, ClassInfo>, argcArgvRegistered: bool)
      ensures this.argv == argv && this.source == source && this.classes == classes
      ensures this.argcArgvRegistered == argcArgvRegistered
      ensures coreArguments == null && commands == [] && configRequests == []
    {
      this.argv := argv;
      this.source := source;
      this.classes := classes;
      this.argcArgvRegistered := argcArgvRegistered;
      coreArguments := null;
      commands := [];
      configRequests := [];
    }

    /** The memo after a scan that started from `before`: unchanged when it
        was set, otherwise set to the filtered vector exactly when every
        preload succeeded. */
    ghost predicate CoreArgumentsAfter(before: ArgvInput?)
      reads this`coreArguments
    {
      if before != null then coreArguments == before
      else if PreloadAll(source, Scan(argv).preloads).err.None? then
        coreArguments != null && coreArguments.tokens == Scan(argv).remaining
      else
        coreArguments == null
    }

    /** What `parent::run($input)` is reached with, after the
        `register_argc_argv` check. */
    function Launch(input: ArgvInput): Outcome<ArgvInput>
    {
      if argcArgvRegistered then Normal(input)
      else Thrown(ConfigurationError("register_argc_argv must be set to On for running Codeception"))
    }

    /** `preloadConfiguration`: load an explicit path; a "not found" becomes
        the distinct code 405 naming the path, any other failure passes
        through unchanged. */
    method PreloadConfiguration(path: string) returns (err: Option<Throwable>)
      modifies this`configRequests
      ensures configRequests == old(configRequests) + [Some(path)]
      ensures err == PreloadError(path, source.load(path))
    {
      configRequests := configRequests + [Some(path)];
      var outcome := source.load(path);
      if outcome.LoadFailed? {
        if outcome.error.kind == ConfigurationException && outcome.error.code == 404 {
          return Some(Throwable(ConfigurationException, 405, ExplicitNotFoundMessage(path)));
        }
        return Some(outcome.error);
      }
      return None;
    }

    /** `getCoreArguments`: scan the raw argument vector once, preloading
        every configuration path it names, and memoise the filtered vector;
        later calls return the memoised object and load nothing. */
    method GetCoreArguments() returns (r: Outcome<ArgvInput>)
      modifies this`coreArguments, this`configRequests
      ensures CoreArgumentsAfter(old(coreArguments))
      ensures old(coreArguments) != null ==>
        r == Normal(old(coreArguments)) && configRequests == old(configRequests)
      ensures old(coreArguments) == null ==>
        var run := PreloadAll(source, Scan(argv).preloads);
        configRequests == old(configRequests) + Explicit(run.issued) &&
        (run.err.None? ==> r == Normal(coreArguments) && fresh(coreArguments)) &&
        (run.err.Some? ==> r == Thrown(run.err.value))
    {
      if coreArguments != null {
        return Normal(coreArguments);
      }
      var argvWithoutConfig, err := ScanArguments();
      if err.Some? {
        return Thrown(err.value);
      }
      coreArguments := new ArgvInput(argvWithoutConfig);
      r := Normal(coreArguments);
    }

    /** The loop of `getCoreArguments`: every argument that is not a config
        flag is kept, a flag's other short flags are kept as one flag, and
        each path the flags name is preloaded as it is met; the first preload
        that throws ends the scan. */
    method ScanArguments() returns (argvWithoutConfig: seq<string>, err: Option<Throwable>)
      modifies this`configRequests
      ensures var run := PreloadAll(source, Scan(argv).preloads);
        configRequests == old(configRequests) + Explicit(run.issued) && err == run.err &&
        (err.None? ==> argvWithoutConfig == Scan(argv).remaining)
    {
      argvWithoutConfig := [];
      ghost var preloaded: seq<string> := [];
      ghost var total := Scan(argv);
      var i := 0;
      while i < |argv|
        invariant 0 <= i <= |argv|
        invariant ScanFrom(argv, i, argvWithoutConfig, preloaded) == total
        invariant PreloadAll(source, preloaded) == Preloading(preloaded, None)
        invariant configRequests == old(configRequests) + Explicit(preloaded)
      {
        var matched := ClassifyToken(argv[i]);
        if matched.Some? {
          var m := matched.value;
          var value := if m.inline != "" then m.inline else ArgAt(argv, i + 1);
          if value != "" {
            var failure := PreloadConfiguration(value);
            ExplicitSnoc(old(configRequests), preloaded, value);
            if failure.Some? {
              ghost var next := if m.inline == "" then i + 2 else i + 1;
              ghost var kept := if PhpNonEmpty(m.prefix) then argvWithoutConfig + ["-" + m.prefix] else argvWithoutConfig;
              ScanFromIssues(argv, next, kept, preloaded + [value]);
              PreloadAllStopsAt(source, preloaded, value, total.preloads);
              return [], failure;
            }
            PreloadAllSnoc(source, preloaded, value);
            preloaded := preloaded + [value];
            if m.inline == "" {
              i := i + 1;
            }
          }
          if PhpNonEmpty(m.prefix) {
            argvWithoutConfig := argvWithoutConfig + ["-" + m.prefix];
          }
        } else {
          argvWithoutConfig := argvWithoutConfig + [argv[i]];
        }
        i := i + 1;
      }
      err := None;
    }

    /** `run`: without an explicit input, dispatch the memoised core
        arguments (computing them if needed); the `register_argc_argv`
        check comes after. */
    method Run(input: ArgvInput?) returns (r: Outcome<ArgvInput>)
      modifies this`coreArguments, this`configRequests
      ensures input != null ==>
        r == Launch(input) && coreArguments == old(coreArguments) && configRequests == old(configRequests)
      ensures input == null ==> CoreArgumentsAfter(old(coreArguments))
      ensures input == null && old(coreArguments) != null ==>
        r == Launch(old(coreArguments)) && configRequests == old(configRequests)
      ensures input == null && old(coreArguments) == null ==>
        var run := PreloadAll(source, Scan(argv).preloads);
        configRequests == old(configRequests) + Explicit(run.issued) &&
        (run.err.None? ==> coreArguments != null && fresh(coreArguments) && r == Launch(coreArguments)) &&
        (run.err.Some? ==> r == Thrown(run.err.value))
    {
      var actual := input;
      if actual == null {
        var core := GetCoreArguments();
        if core.Thrown? {
          return Thrown(core.error);
        }
        actual := core.value;
      }
      if !argcArgvRegistered {
        return Thrown(ConfigurationError("register_argc_argv must be set to On for running Codeception"));
      }
      return Normal(actual);
    }

    /** `readCustomCommandsFromConfig`: compute the core arguments (which
        may preload an explicit path), load the configuration, and add one
        command per listed class in list order, stopping at the first class
        that fails validation. */
    method ReadCustomCommandsFromConfig() returns (err: Option<Throwable>)
      modifies this`coreArguments, this`configRequests, this`commands
      ensures CoreArgumentsAfter(old(coreArguments))
      ensures var e := ReadCustomCommands(old(coreArguments) != null, argv, source, classes, NewFirst);
        configRequests == old(configRequests) + e.requests &&
        commands == old(commands) + e.added &&
        err == e.err
    {
      ghost var preloads := if coreArguments != null then [] else Explicit(PreloadAll(source, Scan(argv).preloads).issued);
      var core := GetCoreArguments();
      assert configRequests == old(configRequests) + preloads;
      if core.Thrown? {
        return Some(core.error);
      }
      configRequests := configRequests + [None];
      ConcatAssoc(old(configRequests), preloads, [None]);
      var loaded := source.discover;
      if loaded.LoadFailed? {
        return Some(loaded.error);
      }
      var list := loaded.config.extensionCommands;
      if list == [] {
        return None;
      }
      err := AddCommands(list);
    }

    /** The `foreach` of `readCustomCommandsFromConfig`, line by line as
        written: `new` looks each listed class up first, then its argument
        `getCustomCommandName` validates it, then the command is added; the
        first class that fails ends the loop. */
    method AddCommands(list: seq<string>) returns (err: Option<Throwable>)
      modifies this`commands
      ensures var reg := RegisterAll(classes, list, NewFirst);
        commands == old(commands) + reg.added && err == reg.err
    {
      var k := 0;
      while k < |list|
        invariant 0 <= k <= |list|
        invariant RegisterAll(classes, list[..k], NewFirst).err.None?
        invariant commands == old(commands) + RegisterAll(classes, list[..k], NewFirst).added
      {
        var className := list[k];
        if !Instantiable(classes, className) {
          NewCommandFailures(classes, className, NewFirst);
          RegisterAllStopsAt(classes, NewFirst, list, k);
          return Some(InstantiationError(classes, className));
        }
        var name := CommandName(classes, className);
        if name.Thrown? {
          NewCommandFailures(classes, className, NewFirst);
          RegisterAllStopsAt(classes, NewFirst, list, k);
          return Some(name.error);
        }
        RegisterAllSnoc(old(commands), classes, NewFirst, list[..k], className);
        assert list[..k + 1] == list[..k] + [className];
        commands := commands + [Command(name.value, className)];
        k := k + 1;
      }
      assert list[..k] == list;
      return None;
    }

    /** `registerCustomCommands`: register the configured commands; a missing
        default configuration is ignored, every other exception ends the
        process with status 1. */
    method RegisterCustomCommands() returns (r: Exit)
      modifies this`coreArguments, this`configRequests, this`commands
      ensures CoreArgumentsAfter(old(coreArguments))
      ensures var e := ReadCustomCommands(old(coreArguments) != null, argv, source, classes, NewFirst);
        configRequests == old(configRequests) + e.requests &&
        commands == old(commands) + e.added &&
        r == Disposition(e.err)
    {
      var err := ReadCustomCommandsFromConfig();
      if err.None? {
        return Returned;
      }
      var e := err.value;
      if e.kind == ConfigurationException {
        if e.code == 404 {
          return Returned;
        }
        return ExitStatus(1);
      } else if e.kind == OtherException {
        return ExitStatus(1);
      }
      return Uncaught(e);
    }
  }
}
