# The `es` management command of django-elastic-migrations, in Dafny

This project models the base management command `Command` of
django-elastic-migrations (`django_elastic_migrations/management/commands/es.py`).
The command has two pieces of logic, and the model covers both:

- **Target resolver** (`get_index_specifying_options`). It reads the option
  bag of a subcommand: `mode` (default `'index'`), the positional `index`
  names (default `[]`) and `all` (default `False`). It logs a warning when
  names come together with `--all`. It raises a `CommandError` when neither
  names nor `--all` are given. Otherwise it returns
  `(indexes, use_version_mode, apply_all)`. This is module `Resolver`, a pure
  function returning a `Result`. The module also holds the help-message table
  (`get_index_specifying_help_messages`) and the mode constants.
- **Dispatcher** (`handle`). It calls `es_list` when the key `list_available`
  is present, whatever its value. It then scans `create, update, activate,
  drop` and calls `es_<cmd>` for the first key present, then returns. This is
  module `Dispatcher`. `Handle` is a method with the source's loop and early
  return; it records the subcommand calls in a trace and is proved equal to
  the routing specification `Route`. The properties are lemmas about `Route`.

The option bag is `map<string, Value>` (module `PyOptions`). A `Value` is a
Python bool, str, list of str or `None`. The module gives the Python semantics
the command relies on: `dict.get` with a default (a present key wins even when
its value is `None`), truthiness, `str()` in `str.format`, and `", ".join`.

Module `Arguments` records a defect in argument registration; see Findings.

Behaviour of the code worth noting, which the model follows:
- On success the names are returned unchanged, even with `--all` set. They
  are not cleared; only the warning says they will be ignored.
- The mode is whatever value the `mode` key holds, not an enumeration.
  `use_version_mode` is true only for the string `'version'`. The error message
  renders any mode value with `str()`.
- A truthy `index` value that cannot be joined (the bool `True`) makes the
  warning's `", ".join` raise a TypeError when `--all` is also set. The model
  has this as a second error, `JoinTypeError`.
- `include_versions=True` does not register `--mode`; see Findings.

## Model

| member | source | states |
|---|---|---|
| `PyOptions.JoinValue` | django_elastic_migrations/management/commands/es.py:111 | `", ".join(indexes)` fails exactly for a bool or `None` (not iterable) |
| `PyOptions.JoinContainsPart` | django_elastic_migrations/management/commands/es.py:111 | every name appears in the joined string |
| `Resolver.MissingTargetMessage` | django_elastic_migrations/management/commands/es.py:115-118 | the configuration error's message contains the mode string and `--all` |
| `Resolver.IgnoredNamesWarning` | django_elastic_migrations/management/commands/es.py:107-112 | the warning text quotes the joined names |
| `Resolver.Resolve` | django_elastic_migrations/management/commands/es.py:99-119 | fails iff (no truthy names and no truthy `all`) or (`all` truthy and `index` is `True`); a failure is a `CommandError` exactly in the first case, and its message names the mode and `--all`; on success returns the `index` and `all` values untouched and `use_version_mode` iff mode is `'version'`; warns iff both `all` and names are truthy |
| `Resolver.ResolveParsedOptions` | django_elastic_migrations/management/commands/es.py:101-119 | for options holding a name list under `index` and a bool under `all`, any mode and any other keys: fails (only with `CommandError`) iff names empty and `--all` off; otherwise returns the names in input order and `--all`; a warning iff both are given |
| `Resolver.WarningNamesEveryIndex` | django_elastic_migrations/management/commands/es.py:105-112 | the warning mentions every name that will be ignored |
| `Resolver.EmptyOptionsFail` | django_elastic_migrations/management/commands/es.py:100-118 | an empty option map fails with the configuration error for mode `index` |
| `Resolver.ModeDefaultsToIndex` | django_elastic_migrations/management/commands/es.py:100-102 | without a `mode` key, `use_version_mode` is false and an error names `index` |
| `Resolver.ModeDoesNotDecideValidity` | django_elastic_migrations/management/commands/es.py:100-119 | replacing the mode never changes success, the names, the all flag or the warning |
| `Resolver.AllWithNamesWarns` | django_elastic_migrations/management/commands/es.py:105-119 | names with `--all`: success, names kept, `--all` kept, a warning |
| `Resolver.IndexHelp` | django_elastic_migrations/management/commands/es.py:60-65 | the `index` help text refers to `--mode index` |
| `Resolver.AllHelp` | django_elastic_migrations/management/commands/es.py:66-70 | the `all` help text refers to `--mode index` and `--mode version` |
| `Resolver.HelpMessages` | django_elastic_migrations/management/commands/es.py:54-71 | the table has exactly the keys `mode`, `index`, `all`, with texts naming the mode constants |
| `Dispatcher.FirstPresent` | django_elastic_migrations/management/commands/es.py:44-45 | the position found is of a present key with no present key before it; none found means no key present |
| `Dispatcher.Handle` | django_elastic_migrations/management/commands/es.py:41-46 | the loop with its early return makes exactly the calls of `Route` |
| `Dispatcher.ListIffKeyPresent` | django_elastic_migrations/management/commands/es.py:42-43 | `es_list` runs iff `list_available` is a key, whatever its value, and runs first |
| `Dispatcher.AtMostOneAction` | django_elastic_migrations/management/commands/es.py:42-46 | at most two calls, only the last may be an action; `es_<k>` runs iff `k` is present and no earlier action key is |
| `Dispatcher.ForwardsUnchanged` | django_elastic_migrations/management/commands/es.py:43-46 | every call receives the arguments and the option map unchanged |
| `Dispatcher.KeysAloneDecide` | django_elastic_migrations/management/commands/es.py:42-46 | two option maps with the same keys call the same subcommands in the same order |
| `Dispatcher.CreateTakesPriority` | django_elastic_migrations/management/commands/es.py:44-46 | with `create` present the only action run is `es_create`, after `es_list` if listed |
| `Dispatcher.NoActionNoCall` | django_elastic_migrations/management/commands/es.py:41-46 | with none of the five keys, nothing is called |
| `Arguments.RegisterAsWritten` | django_elastic_migrations/management/commands/es.py:82-97 | whenever the code as written completes, it registered `index` first and `--all` last and never `--mode` |
| `Arguments.AsWrittenNeverCompletes` | django_elastic_migrations/management/commands/es.py:89-92 | with `include_versions=True` the registration as written exhausts any stack depth |
| `Arguments.RegisterIndexArguments` | django_elastic_migrations/management/commands/es.py:73-97 | corrected: `index` first, `--all` last, no duplicates, and `--mode` iff `include_versions` |
| `Arguments.AgreeWithoutVersions` | django_elastic_migrations/management/commands/es.py:82-97 | without versions the code as written and the corrected one register the same arguments |

## Left out

- `add_arguments` and the `--mode` choice registration in `get_index_version_specifying_arguments` (es.py:19-39, 73-80): these are calls on argparse. Only the list of registered argument names is modelled, in `Arguments`.
- `call_command` and the `es_*` subcommands: they are external Django commands. They appear only as `Invocation` records in a trace. Their return value, which `handle` passes back for the action call, is not modelled.
- `Dispatcher.Handle`: assumes every subcommand call returns. An exception raised by `es_list` or by an action propagates in the source and stops `handle`; the trace does not model that.
- The logger: the warning is returned as text in `Resolution.warning` instead of being logged.
- `PyOptions.Str`: renders a list as `['a', 'b']` without Python's escaping of quotes inside names and without the `u` prefix Python 2 gives unicode strings.
- `PyOptions.JoinValue`: joining a list whose items are not strings (a TypeError in Python) cannot occur, because `Names` holds strings only.
- Option values other than bools, strings, lists of strings and `None` (numbers, dicts) are not modelled.
- Resolver.Resolve: strings are sequences of code points, and Python 2's split between byte `str` and `unicode` is not modelled. The command formats its texts into byte-string templates. A non-ASCII `unicode` name in the warning (es.py:107-111), or a non-ASCII `unicode` mode in the error message (es.py:115-117), therefore raises UnicodeEncodeError in the source. For the warning, the model returns `Success` instead. For the mode, it returns the `CommandError`.
- `__init__`'s `print ""` and the Django `BaseCommand` machinery: console output and framework code.

## Findings

| source | as written | input that shows it | evidently intended | confidence | as-written member | corrected member |
|---|---|---|---|---|---|---|
| django_elastic_migrations/management/commands/es.py:92 | `get_index_specifying_arguments` calls itself, with `include_versions` defaulting to `True` | any call with `include_versions=True` (the default) recurses until the stack is exhausted; `--mode` is never registered | call `get_index_version_specifying_arguments`, registering `--mode` exactly when `include_versions` is true | high (not executed) | `Arguments.AsWrittenNeverCompletes` | `Arguments.RegisterIndexArguments` |
