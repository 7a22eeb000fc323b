/** The target resolver of the `es` base command: how a subcommand turns its
    raw options (`--mode`, the positional `index` names, `--all`) into the
    triple `(indexes, use_version_mode, apply_all)`, and the help messages
    shared by every subcommand that names indexes. */
module Resolver {
  import opened Wrappers
  import opened PyOptions

  /** `Command.MODE_INDEXES` and `Command.MODE_VERSIONS`. */
  const MODE_INDEXES: string := "index"
  const MODE_VERSIONS: string := "version"

  /** The triple the resolver returns. `indexes` and `applyAll` are the
      option values exactly as supplied (or their defaults). */
  datatype Selection = Selection(indexes: Value, useVersionMode: bool, applyAll: Value)

  /** A successful resolution: the triple and the text of the warning that
      was logged on the way, if any. */
  datatype Resolution = Resolution(selection: Selection, warning: Option<string>)

  /** `CommandError` is the user-facing configuration error; `JoinTypeError`
      is the TypeError raised while formatting the warning when the `index`
      value is a truthy value that is not iterable. */
  datatype ResolveError = CommandError(message: string) | JoinTypeError

  // The fixed parts of the texts below are constants, so that proofs about
  // the texts do not have to look into their characters.
  const WarningBefore: string := "./manage.py es_clear --all received named indexes '"
  const WarningAfter: string := "': these specified index names will be ignored because you have requested to clear *all* the indexes."
  const MissingBefore: string := "At least one "
  const MissingAfter: string := " or --all must be specified"
  const ModeHelp: string := "Specify whether to operate on indexes or index versions"
  const IndexHelpBefore: string := "Depending on --mode, the name of index(es) or index version(s) to operate on. In the case of `"
  const IndexHelpAfter: string := "` (the default), the active version will be operated upon, and indexes without an active version will be ignored."
  const AllHelpBefore: string := "Operate on all of the active indexes or index versions, depending on whether `"
  const AllHelpBetween: string := "`, or `"
  const AllHelpAfter: string := "` is supplied."

  /** The warning logged when named indexes come together with `--all`; it
      quotes the joined names. */
  function IgnoredNamesWarning(joined: string): (w: string)
    ensures Contains(w, joined)
  {
    ContainsMiddle(WarningBefore, joined, WarningAfter);
    WarningBefore + joined + WarningAfter
  }

  /** The configuration error's message; it names the mode and `--all`. */
  function MissingTargetMessage(mode: string): (m: string)
    ensures Contains(m, mode)
    ensures Contains(m, "--all")
  {
    ContainsMiddle(MissingBefore, mode, MissingAfter);
    ContainsMiddle(MissingBefore + mode + " or ", "--all", " must be specified");
    assert MissingBefore + mode + " or " + "--all" + " must be specified" == MissingBefore + mode + MissingAfter;
    MissingBefore + mode + MissingAfter
  }

  /** `Command.get_index_specifying_options`. */
  function Resolve(opts: Options): (r: Result<Resolution, ResolveError>)
    // It fails exactly when neither names nor --all are given, or when the
    // warning cannot join a truthy non-list `index` value.
    ensures r.Failure? <==>
      || (!Truthy(Get(opts, "index", Names([]))) && !Truthy(Get(opts, "all", Flag(false))))
      || (Truthy(Get(opts, "all", Flag(false))) && Get(opts, "index", Names([])) == Flag(true))
    ensures r.Failure? ==>
      (r.error.CommandError? <==> !Truthy(Get(opts, "index", Names([]))) && !Truthy(Get(opts, "all", Flag(false))))
    ensures r.Failure? && r.error.CommandError? ==>
      && Contains(r.error.message, Str(Get(opts, "mode", Text(MODE_INDEXES))))
      && Contains(r.error.message, "--all")
    // On success the names and the all flag are handed back untouched.
    ensures r.Success? ==>
      && r.value.selection.indexes == Get(opts, "index", Names([]))
      && r.value.selection.applyAll == Get(opts, "all", Flag(false))
      && (r.value.selection.useVersionMode <==> Get(opts, "mode", Text(MODE_INDEXES)) == Text(MODE_VERSIONS))
    ensures r.Success? ==>
      (r.value.warning.Some? <==> Truthy(Get(opts, "all", Flag(false))) && Truthy(Get(opts, "index", Names([]))))
  {
    var mode := Get(opts, "mode", Text(MODE_INDEXES));
    var indexes := Get(opts, "index", Names([]));
    var useVersionMode := mode == Text(MODE_VERSIONS);
    var applyAll := Get(opts, "all", Flag(false));
    var clash := Truthy(applyAll) && Truthy(indexes);
    if clash && JoinValue(", ", indexes).None? then
      Failure(JoinTypeError)
    else if !(Truthy(indexes) || Truthy(applyAll)) then
      Failure(CommandError(MissingTargetMessage(Str(mode))))
    else
      var warning := if clash then Some(IgnoredNamesWarning(JoinValue(", ", indexes).value)) else None;
      Success(Resolution(Selection(indexes, useVersionMode, applyAll), warning))
  }

  /** Options as the argument parser produces them: a list of names under
      `index`, a bool under `all`, and whatever else (`mode`, other flags).
      For them the resolver is a total validator: it fails, with the
      configuration error, exactly when no name is given and `--all` is not
      set, and otherwise returns the names in input order. */
  lemma ResolveParsedOptions(names: seq<string>, all: bool, rest: Options)
    ensures var opts := rest["index" := Names(names)]["all" := Flag(all)];
      && (Resolve(opts).Failure? <==> names == [] && !all)
      && (Resolve(opts).Failure? ==> Resolve(opts).error.CommandError?)
      && (Resolve(opts).Success? ==>
            && Resolve(opts).value.selection.indexes == Names(names)
            && Resolve(opts).value.selection.applyAll == Flag(all)
            && (Resolve(opts).value.warning.Some? <==> all && names != []))
  {
  }

  /** The warning mentions every name that will be ignored. */
  lemma WarningNamesEveryIndex(opts: Options, names: seq<string>, k: nat)
    requires Get(opts, "index", Names([])) == Names(names)
    requires Resolve(opts).Success? && Resolve(opts).value.warning.Some?
    requires k < |names|
    ensures Contains(Resolve(opts).value.warning.value, names[k])
  {
    var joined := Join(", ", names);
    assert Resolve(opts).value.warning.value == IgnoredNamesWarning(joined);
    JoinContainsPart(", ", names, k);
    ContainsTransitive(IgnoredNamesWarning(joined), joined, names[k]);
  }

  /** With no options at all the defaults (no names, `--all` off, index
      mode) make the resolver fail, naming the index mode. */
  lemma EmptyOptionsFail()
    ensures Resolve(map[]) == Failure(CommandError(MissingTargetMessage(MODE_INDEXES)))
  {
  }

  /** Without a `mode` key the resolver works in index mode. */
  lemma ModeDefaultsToIndex(opts: Options)
    requires "mode" !in opts
    ensures Resolve(opts).Success? ==> !Resolve(opts).value.selection.useVersionMode
    ensures Resolve(opts).Failure? && Resolve(opts).error.CommandError? ==>
      Contains(Resolve(opts).error.message, MODE_INDEXES)
  {
  }

  /** The mode never decides whether resolution succeeds, and never changes
      the names, the all flag or the warning. */
  lemma ModeDoesNotDecideValidity(opts: Options, m: Value)
    ensures Resolve(opts).Success? <==> Resolve(opts["mode" := m]).Success?
    ensures Resolve(opts).Success? ==>
      && Resolve(opts).value.selection.indexes == Resolve(opts["mode" := m]).value.selection.indexes
      && Resolve(opts).value.selection.applyAll == Resolve(opts["mode" := m]).value.selection.applyAll
      && Resolve(opts).value.warning == Resolve(opts["mode" := m]).value.warning
  {
  }

  /** Named indexes together with `--all`: success with `--all` kept, the
      names kept (not cleared) and a warning. */
  lemma AllWithNamesWarns(opts: Options, names: seq<string>)
    requires Get(opts, "index", Names([])) == Names(names) && names != []
    requires Get(opts, "all", Flag(false)) == Flag(true)
    ensures Resolve(opts).Success?
    ensures Resolve(opts).value.selection.indexes == Names(names)
    ensures Resolve(opts).value.selection.applyAll == Flag(true)
    ensures Resolve(opts).value.warning.Some?
  {
  }

  /** The help text of the positional `index` argument. */
  function IndexHelp(): (t: string)
    ensures Contains(t, "--mode " + MODE_INDEXES)
  {
    var indexMode := "--mode " + MODE_INDEXES;
    ContainsMiddle(IndexHelpBefore, indexMode, IndexHelpAfter);
    IndexHelpBefore + indexMode + IndexHelpAfter
  }

  /** The help text of `--all`, which names both modes. */
  function AllHelp(): (t: string)
    ensures Contains(t, "--mode " + MODE_INDEXES)
    ensures Contains(t, "--mode " + MODE_VERSIONS)
  {
    var indexMode := "--mode " + MODE_INDEXES;
    var versionMode := "--mode " + MODE_VERSIONS;
    var first := AllHelpBefore + indexMode + AllHelpBetween;
    ContainsMiddle(AllHelpBefore, indexMode, AllHelpBetween);
    ContainsAppend(first, indexMode, versionMode);
    ContainsAppend(first + versionMode, indexMode, AllHelpAfter);
    ContainsMiddle(first, versionMode, AllHelpAfter);
    first + versionMode + AllHelpAfter
  }

  /** `Command.get_index_specifying_help_messages`: exactly the keys `mode`,
      `index` and `all`; the texts refer to the two mode constants. */
  function HelpMessages(): (m: map<string, string>)
    ensures m.Keys == {"mode", "index", "all"}
    ensures Contains(m["index"], "--mode " + MODE_INDEXES)
    ensures Contains(m["all"], "--mode " + MODE_INDEXES)
    ensures Contains(m["all"], "--mode " + MODE_VERSIONS)
  {
    // The three keys differ in length, hence are distinct.
    assert |"mode"| == 4 && |"index"| == 5 && |"all"| == 3;
    var indexText, allText := IndexHelp(), AllHelp();
    var m := map[
      "mode" := ModeHelp,
      "index" := indexText,
      "all" := allText
    ];
    assert m["index"] == indexText && m["all"] == allText;
    m
  }
}
