# Codeception launcher: argument preprocessing and custom commands

This project models the core of Codeception's console launcher,
`Codeception\Application` (`src/Codeception/Application.php`), and proves
properties of the model in Dafny.

- **Config-flag recognition.** `ConfigToken` applies the pattern
  `^(?:-([^c-]*)?c|--config(?:=|$))(.*)$` to one argument. It follows PCRE's
  default newline rules:
  - `.` does not match a line feed;
  - `$` matches at the end, or just before a final line feed.

  It is proved equal to an independent description of the pattern's
  spellings (`Spells`), in both directions.
- **The argument scan** (`getCoreArguments`). `CoreScan` describes it twice:
  - as the unique segmentation of the argument vector into pieces. A piece
    is either a plain argument, or a config flag together with the value it
    resolves. That value is inline, or it comes from the next argument, which
    the flag then covers.
  - as the loop itself (`ScanFrom`).

  The two are proved to agree. From the segmentation follow:
  - the filtered vector and the preload order;
  - that scanning is idempotent;
  - that a vector with no config flag passes through unchanged.
- **The launcher object** (`Launcher.Application`). It is a class with:
  - the memo field `coreArguments`;
  - a log of the requests made to the configuration loader;
  - the list of commands added to the console application.

  Its methods follow the PHP methods:
  - `getCoreArguments` with its loop;
  - `preloadConfiguration`;
  - `run`, for the path that uses the memoised input;
  - `readCustomCommandsFromConfig` with its `foreach`;
  - `registerCustomCommands` with its catch clauses.

  Each method is proved against functions of the inputs (`Scan`,
  `PreloadAll`, `RegisterAll`, `ReadCustomCommands`). The properties of
  those functions are proved as lemmas.
- **Custom-command registration.** `Registry` models `getCustomCommandName`
  and the registration loop. It proves list order, the order of the checks
  and stopping at the first class that fails. The statement
  `new $commandClass($this->getCustomCommandName($commandClass))` is modelled
  in two orders:
  - `NewFirst` is the code as written. PHP looks the class up for `new`
    before it evaluates the argument, so a class `new` cannot instantiate
    fails with an engine `\Error` before any validation. The launcher's
    methods follow this order.
  - `ValidateFirst` runs the validation first, as the code evidently
    intends (see "## Findings").

The environment is modelled by these stand-ins:

| PHP | model |
|---|---|
| the configuration loader (`Configuration::config`) | a `ConfigSource`: what it answers for an explicit path, and for the call without a path |
| PHP's class lookup | a table from class names to the kind of declaration (class, abstract class, interface, trait, enum), whether it implements `CustomCommandInterface`, and what its static `getCommandName()` returns |
| `$_SERVER['argv']` | the constant field `argv` |
| `ini_get('register_argc_argv')` | the constant field `argcArgvRegistered` |
| `exit(1)` | the value `ExitStatus(1)` |

## Model

| member | source | states |
|---|---|---|
| ConfigToken.FlagRunEnd | src/Codeception/Application.php:135 | the greedy `[^c-]*` run after the dash ends within the token |
| ConfigToken.FlagRunEndSpec | src/Codeception/Application.php:135 | the run consists of flag characters (neither `c` nor `-`) and cannot be extended |
| ConfigToken.LineValueSpec | src/Codeception/Application.php:135 | a value captured by `(.*)$` is one line; the rest of the token is that line, optionally followed by one final line feed |
| ConfigToken.ShortSpelling | src/Codeception/Application.php:135 | every token `-<flags>c<value>` (optionally ending in one line feed) matches, with group 1 = flags and group 2 = value |
| ConfigToken.LongSpelling | src/Codeception/Application.php:135 | every token `--config=<value>` (optionally ending in one line feed) matches, with an empty group 1 and group 2 = value |
| ConfigToken.ClassifyComplete | src/Codeception/Application.php:135 | every spelling of the pattern is recognised, with its capture groups |
| ConfigToken.LongSound | src/Codeception/Application.php:135 | a `--` token matches only as `--config`, or as `--config=` followed by its value (optionally ending in a line feed) |
| ConfigToken.ShortSound | src/Codeception/Application.php:135 | a single-dash token matches only as `-`, flags, `c` and its value |
| ConfigToken.ClassifySound | src/Codeception/Application.php:135 | whatever is recognised is a spelling of the pattern with those groups |
| ConfigToken.ClassifySpec | src/Codeception/Application.php:135 | a token matches with groups `m` if and only if it is a spelling of the pattern with groups `m` |
| ConfigToken.PrefixIsFlags | src/Codeception/Application.php:135 | a captured prefix never contains `c` or `-` |
| ConfigToken.RebuiltFlagsNeverMatch | src/Codeception/Application.php:143-145 | the rebuilt token `'-' . $match[1]` never matches the pattern |
| ConfigToken.ClassifyShortSpellings | src/Codeception/Application.php:120-121 | `-c`, `-cfoo.yml` and `-xcfoo.yml` are recognised, with the documented groups |
| ConfigToken.ClassifyLongSpellings | src/Codeception/Application.php:122-123 | `--config` and `--config=foo.yml` are recognised, with the documented groups |
| ConfigToken.ClassifyNearMisses | src/Codeception/Application.php:135 | `--configfoo`, `--c`, `-v` and `run` do not match |
| CoreScan.Covered | src/Codeception/Application.php:136-141 | a piece covers its own argument and at most the next one |
| CoreScan.PieceAt | src/Codeception/Application.php:135-141 | the piece read at `i` stays within the vector |
| CoreScan.PieceAtSpec | src/Codeception/Application.php:135-141 | the piece at `i` obeys the rules: the inline value wins; the next argument is taken exactly when the inline value is empty and that argument is not; a flag left without a value is last or followed by `""` |
| CoreScan.ScanFromIssues | src/Codeception/Application.php:137-138 | the loop only appends to the paths it has issued |
| CoreScan.PiecesCover | src/Codeception/Application.php:134-150 | the pieces cover the vector exactly and in order |
| CoreScan.PiecesObeyRule | src/Codeception/Application.php:135-141 | every piece obeys the piece rule |
| CoreScan.PiecesLookahead | src/Codeception/Application.php:136-141 | a flag that takes no next argument and resolves to "" is followed by nothing or by `""` |
| CoreScan.PiecesAreSegmentation | src/Codeception/Application.php:134-150 | the scan's pieces form a segmentation obeying all rules |
| CoreScan.SegmentationTail | src/Codeception/Application.php:134-150 | dropping the first piece of a segmentation leaves a segmentation of the rest |
| CoreScan.HeadPiece | src/Codeception/Application.php:135-141 | the first piece of any rule-obeying segmentation is the piece the scan reads |
| CoreScan.SegmentationUnique | src/Codeception/Application.php:134-150 | the segmentation is unique: any rule-obeying segmentation is the scan's |
| CoreScan.ScanFromStep | src/Codeception/Application.php:135-149 | one turn of the loop keeps what the piece keeps and preloads what it requests |
| CoreScan.ScanFromPieces | src/Codeception/Application.php:134-150 | the loop appends the segmentation's kept arguments and requested paths to its accumulators |
| CoreScan.ScanAgrees | src/Codeception/Application.php:131-150 | the loop yields exactly the segmentation's filtered vector and preloads |
| CoreScan.RemainingUnmatched | src/Codeception/Application.php:143-149 | no argument of the filtered vector matches the pattern |
| CoreScan.PlainsSpec | src/Codeception/Application.php:149 | plain pieces keep their arguments unchanged and request nothing |
| CoreScan.NoConfigTokensUnchanged | src/Codeception/Application.php:134-150 | a vector with no matching argument passes through unchanged and triggers no preload |
| CoreScan.ScanIdempotent | src/Codeception/Application.php:131-152 | scanning the filtered vector again gives it back and preloads nothing |
| CoreScan.PreloadsNonEmpty | src/Codeception/Application.php:137-138 | every preloaded path is non-empty |
| ScanExamples.SeparateValue | src/Codeception/Application.php:120-122 | `-c foo.yml` and `--config foo.yml` drop both arguments and preload `foo.yml` |
| ScanExamples.InlineValue | src/Codeception/Application.php:121-123 | `-cfoo.yml` and `--config=foo.yml` drop the flag and preload `foo.yml` |
| ScanExamples.ClusterKeepsOtherFlags | src/Codeception/Application.php:143-145 | `-xcfoo.yml` is replaced by `-x` |
| ScanExamples.OptionTakenAsPath | src/Codeception/Application.php:136-141 | `-c --verbose` preloads `--verbose` and drops it |
| ScanExamples.InertFlags | src/Codeception/Application.php:136-142 | a trailing `-c`, or `-c ""`, preloads nothing and keeps `""` |
| ScanExamples.SeveralFlags | src/Codeception/Application.php:134-142 | two flags give two preloads, in argument order |
| ScanExamples.ZeroPrefixDropped | src/Codeception/Application.php:143-145 | the prefix `"0"` is dropped, since PHP's `empty("0")` holds |
| Configuration.PreloadError | src/Codeception/Application.php:161-171 | a load succeeds exactly when nothing is thrown; "not found" (404) becomes a 405 naming the path; anything else passes unchanged; 404 never escapes |
| Configuration.PreloadAllSpec | src/Codeception/Application.php:134-142 | preloads are issued in order up to and including the first failure, whose converted exception is what escapes; without a failure every path is issued |
| Configuration.PreloadAllAfterLoaded | src/Codeception/Application.php:134-142 | preloads that all succeeded do not change what follows |
| Configuration.PreloadAllSnoc | src/Codeception/Application.php:137-138 | after successful preloads, one more successful preload extends the run |
| Configuration.PreloadAllStopsAt | src/Codeception/Application.php:137-138 | the first failing preload is the last one issued, and its failure escapes |
| Registry.CommandName | src/Codeception/Application.php:71-84 | the class must exist, then must implement the interface, else the matching exception; otherwise its static name |
| Registry.NewCommand | src/Codeception/Application.php:61 | one listed class yields a command exactly when `new` can instantiate it and it implements the interface; the command carries the class's static name |
| Registry.NewCommandFailures | src/Codeception/Application.php:61 | as written, a name `new` cannot instantiate fails with the engine error of `new` (`Class "X" not found`, `Cannot instantiate …`, code 0) before validation; validated first, a missing class or one without the interface fails with `getCustomCommandName`'s exception; an instantiable class without the interface fails validation in both orders |
| Registry.RegisterAllSpec | src/Codeception/Application.php:60-62 | in either order: one command per registrable class in list order, under its static name; the run fails exactly when some class is not registrable; it stops at the first such class, whose failure is the one reported |
| Registry.RegisterAllAfterValid | src/Codeception/Application.php:60-62 | classes already registered do not change what follows |
| Registry.RegisterAllSnoc | src/Codeception/Application.php:60-62 | after registered classes, one more registrable class appends its command |
| Registry.RegisterAllStopsAt | src/Codeception/Application.php:60-62 | after registered classes, the first class that fails ends the loop and its failure is the one reported |
| Registry.RegistrationExamples | src/Codeception/Application.php:61 | a valid class is registered under its static name in either order; a missing class adds nothing: as written it reports `Class "Bad\Class" not found` (an engine error), validated first the launcher's "not found" exception |
| Launcher.Disposition | src/Codeception/Application.php:31-42 | returns exactly on no error or code 404; status 1 for every other exception; a non-exception throwable is not caught |
| Launcher.ExplicitSnoc | src/Codeception/Application.php:138 | proof helper for the request log: one more preload appends one explicit-path request |
| Launcher.ExplicitPathFailureIsFatal | src/Codeception/Application.php:50-54 | a failing explicit path adds no command, never requests the default configuration, and does not let registration return normally |
| Launcher.DefaultNotFoundIsSilent | src/Codeception/Application.php:33-36 | a default configuration that is not found ends registration normally, with nothing added |
| Launcher.RegistrationOutcome | src/Codeception/Application.php:28-43 | as written, with the configuration loaded: registration returns exactly when every class can be instantiated and implements the interface, adding one command per class in order; otherwise it adds the commands before the first failing class, then exits with status 1 if that class can be instantiated, and lets the engine error of `new` escape if it cannot |
| Launcher.RegistrationOutcomeIntended | src/Codeception/Application.php:56-84 | validated first: a failing class that does not exist or lacks the interface ends with status 1 and the launcher's own exception; only a valid class that cannot be instantiated lets the engine error escape |
| Launcher.MissingClassEscapes | src/Codeception/Application.php:61 | for `extensions.commands: ["Bad\Class"]` with no such class, registration as written ends with the uncaught `Class "Bad\Class" not found`; validated first it exits with status 1 |
| Launcher.ArgvInput.constructor | src/Codeception/Application.php:152 | the input holds the filtered vector |
| Launcher.Application.constructor | src/Codeception/Application.php:19 | nothing is memoised, loaded or added at first |
| Launcher.Application.PreloadConfiguration | src/Codeception/Application.php:161-171 | one loader request for the path; the exception it lets out is `PreloadError` |
| Launcher.Application.GetCoreArguments | src/Codeception/Application.php:125-153 | with a memo, returns it and loads nothing; otherwise scans, preloading in order; on success it stores and returns a new input holding the filtered vector; on a failure it propagates it and stores nothing |
| Launcher.Application.ScanArguments | src/Codeception/Application.php:131-150 | the loop's requests are the preloads issued up to the first failure; its filtered vector is the scan's when none fails |
| Launcher.Application.Run | src/Codeception/Application.php:91-102 | an explicit input is used as given; without one the memoised core arguments are used (computed if needed); the `register_argc_argv` check follows |
| Launcher.Application.ReadCustomCommandsFromConfig | src/Codeception/Application.php:50-63 | core arguments first, then the request without a path, then registration in list order with `new` before validation; effects and exception are those of `ReadCustomCommands` |
| Launcher.Application.AddCommands | src/Codeception/Application.php:60-62 | per class as written: the `new` lookup, then validation, then the command is added; the commands added and the error returned are `RegisterAll`'s in that order |
| Launcher.Application.RegisterCustomCommands | src/Codeception/Application.php:28-43 | same effects as reading the commands; the end is the `Disposition` of the exception |

## Left out

- The console framework's own behaviour is not modelled:
  - option parsing of the filtered vector;
  - `ArgvInput` skipping the first element as the script name (the model's input just holds the vector);
  - `add` replacing a command of the same name (the model appends `(name, class)`);
  - `renderThrowable` and `ConsoleOutput`;
  - `getDefaultInputDefinition` (lines 107-114);
  - `parent::run` (`Launch` returns the input that would be dispatched).
- The configuration loader is not modelled. Its file discovery, YAML parsing and process-wide cache are replaced by fixed answers. The model does not relate the answer to the call without a path to the explicit paths preloaded before it.
- PHP reflection is modelled only as far as the launcher depends on it: whether `new` can instantiate a name, `class_exists`, and the interface check. Constructors of command classes, autoloaders that throw, and `getCommandName()` throwing are not modelled. Class lookup is a table.
- An `extensions.commands` entry that is not a list is not modelled. An absent or empty entry is the empty list.
- `exit(1)` is the outcome `ExitStatus(1)` and ends nothing. The rendered error message is not modelled.
- The globals `$_SERVER['argv']` and `ini_get('register_argc_argv')` are constant fields, fixed when the launcher is built.
- `run` with an explicit input passes that input on; the console framework's handling of it is not modelled.
- Arguments are modelled as character sequences, where PHP strings are bytes. The pattern's special characters are ASCII and bytes of multi-byte characters are never `c`, `-` or a line feed, so matching is the same.

## Findings

| source | as written | input that shows it | evidently intended | confidence | as-written member | corrected member |
|---|---|---|---|---|---|---|
| src/Codeception/Application.php:61 | `new $commandClass(...)` looks the class up before its argument `getCustomCommandName($commandClass)` runs, so a missing or non-instantiable class raises an engine `\Error`, which neither catch clause (lines 33 and 39) takes | `extensions.commands: ["Bad\Class"]` with no such class: the `\Error` `Class "Bad\Class" not found` escapes `registerCustomCommands` | `getCustomCommandName` rejects the class first: its "not found" `ConfigurationException`, rendered, then exit status 1 | high, not executed | Launcher.MissingClassEscapes | Launcher.RegistrationOutcomeIntended |
