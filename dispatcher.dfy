/** The dispatcher of the `es` base command (`Command.handle`): it routes
    one invocation to the `es_*` subcommands by which option keys are
    present, and forwards the positional arguments and the whole option bag
    to each of them. Each subcommand call is recorded in a trace. */
module Dispatcher {
  import opened Wrappers
  import opened PyOptions

  /** One `call_command(name, *args, **options)`. */
  datatype Invocation = Invocation(command: string, args: seq<string>, options: Options)

  /** The action keys, in the order `handle` scans them. */
  const Actions: seq<string> := ["create", "update", "activate", "drop"]

  /** The position of the first key of `keys` present in `opts`, if any. */
  function FirstPresent(keys: seq<string>, opts: Options): (r: Option<nat>)
    ensures r.Some? ==> r.value < |keys| && keys[r.value] in opts
    ensures r.Some? ==> forall j :: 0 <= j < r.value ==> keys[j] !in opts
    ensures r.None? ==> forall j :: 0 <= j < |keys| ==> keys[j] !in opts
    decreases |keys|
  {
    if |keys| == 0 then None
    else if keys[0] in opts then Some(0)
    else match FirstPresent(keys[1..], opts)
      case None => None
      case Some(i) => Some(i + 1)
  }

  /** The calls `handle(*args, **opts)` makes: `es_list` when the key
      `list_available` is present, then the subcommand of the first present
      action key. */
  function Route(args: seq<string>, opts: Options): seq<Invocation> {
    var list := if "list_available" in opts then [Invocation("es_list", args, opts)] else [];
    match FirstPresent(Actions, opts)
    case None => list
    case Some(i) => list + [Invocation("es_" + Actions[i], args, opts)]
  }

  /** `Command.handle`: the list check, then the scan over the action keys
      that returns after the first call. */
  method Handle(args: seq<string>, opts: Options) returns (calls: seq<Invocation>)
    ensures calls == Route(args, opts)
  {
    calls := [];
    if "list_available" in opts {
      calls := calls + [Invocation("es_list", args, opts)];
    }
    ghost var listed := calls;
    for i := 0 to |Actions|
      invariant calls == listed
      invariant forall j :: 0 <= j < i ==> Actions[j] !in opts
    {
      var cmd := Actions[i];
      if cmd in opts {
        calls := calls + [Invocation("es_" + cmd, args, opts)];
        return;
      }
    }
  }

  /** `es_list` runs exactly when the key `list_available` is present,
      whatever its value, and it runs before anything else. */
  lemma ListIffKeyPresent(args: seq<string>, opts: Options)
    ensures ("list_available" in opts) <==> (|Route(args, opts)| > 0 && Route(args, opts)[0].command == "es_list")
  {
    match FirstPresent(Actions, opts)
    case None =>
    case Some(i) =>
      assert ("es_" + Actions[i])[3..] == Actions[i];
  }

  /** At most one action subcommand runs, after `es_list` if that ran: the
      one of the first action key present, in the order create, update,
      activate, drop; with none of these keys present none runs. */
  lemma AtMostOneAction(args: seq<string>, opts: Options)
    ensures var r := Route(args, opts);
      && |r| <= 2
      && (forall j :: 0 <= j < |r| - 1 ==> r[j].command == "es_list")
      && (forall k :: 0 <= k < |Actions| ==>
            (Invocation("es_" + Actions[k], args, opts) in r <==>
              Actions[k] in opts && forall j :: 0 <= j < k ==> Actions[j] !in opts))
  {
    var r := Route(args, opts);
    forall k | 0 <= k < |Actions|
      ensures Invocation("es_" + Actions[k], args, opts) in r <==>
              Actions[k] in opts && forall j :: 0 <= j < k ==> Actions[j] !in opts
    {
      assert ("es_" + Actions[k])[3..] == Actions[k];
      match FirstPresent(Actions, opts)
      case None =>
      case Some(i) =>
        assert ("es_" + Actions[i])[3..] == Actions[i];
    }
  }

  /** Every subcommand receives the positional arguments and the option bag
      unchanged. */
  lemma ForwardsUnchanged(args: seq<string>, opts: Options)
    ensures forall c :: c in Route(args, opts) ==> c.args == args && c.options == opts
  {
  }

  /** Only which keys are present decides what runs, never their values. */
  lemma KeysAloneDecide(args: seq<string>, opts: Options, opts': Options)
    requires opts.Keys == opts'.Keys
    ensures |Route(args, opts)| == |Route(args, opts')|
    ensures forall j :: 0 <= j < |Route(args, opts)| ==> Route(args, opts)[j].command == Route(args, opts')[j].command
  {
  }

  /** An option bag with `create` present runs `es_create` as its only
      action, whichever of `update`, `activate` and `drop` are present too. */
  lemma CreateTakesPriority(args: seq<string>, opts: Options)
    requires "create" in opts
    ensures Route(args, opts) ==
      (if "list_available" in opts then [Invocation("es_list", args, opts)] else []) + [Invocation("es_create", args, opts)]
  {
    assert FirstPresent(Actions, opts) == Some(0);
    assert "es_" + Actions[0] == "es_create";
  }

  /** An option bag with none of the five keys runs nothing. */
  lemma NoActionNoCall(args: seq<string>, opts: Options)
    requires "list_available" !in opts
    requires forall k :: k in opts ==> k !in Actions
    ensures Route(args, opts) == []
  {
  }
}
