/** Which arguments `Command.get_index_specifying_arguments` registers on
    the parser, as the sequence of their names (`index` is the variadic
    positional, `--mode` the mode choice, `--all` the flag). The parser
    itself is not modelled. */
module Arguments {
  import opened Wrappers

  /** The registration as written, which calls itself where it means to
      register `--mode`. `depth` is the number of stack frames left before
      the interpreter gives up with a RuntimeError (maximum recursion
      depth exceeded), modelled as `None`. */
  function RegisterAsWritten(includeVersions: bool, depth: nat): (r: Option<seq<string>>)
    ensures r.Some? ==> |r.value| >= 2 && r.value[0] == "index" && r.value[|r.value| - 1] == "--all"
    ensures r.Some? ==> "--mode" !in r.value
    decreases depth
  {
    if depth == 0 then None
    else if includeVersions then
      match RegisterAsWritten(true, depth - 1)
      case None => None
      case Some(inner) => Some(["index"] + inner + ["--all"])
    else Some(["index", "--all"])
  }

  /** With versions requested the registration as written never completes,
      however deep the stack: it never registers `--mode`. */
  lemma {:induction false} AsWrittenNeverCompletes(depth: nat)
    ensures RegisterAsWritten(true, depth) == None
    decreases depth
  {
    if depth > 0 {
      AsWrittenNeverCompletes(depth - 1);
    }
  }

  /** The registration as evidently intended: the positional names, then
      `--mode` (through `get_index_version_specifying_arguments`) only when
      versions are requested, then `--all`. */
  function RegisterIndexArguments(includeVersions: bool): (r: seq<string>)
    ensures |r| >= 2 && r[0] == "index" && r[|r| - 1] == "--all"
    ensures "--mode" in r <==> includeVersions
    ensures forall i, j :: 0 <= i < j < |r| ==> r[i] != r[j]
  {
    if includeVersions then ["index", "--mode", "--all"] else ["index", "--all"]
  }

  /** The two agree where the code as written terminates: without versions. */
  lemma AgreeWithoutVersions(depth: nat)
    requires depth > 0
    ensures RegisterAsWritten(false, depth) == Some(RegisterIndexArguments(false))
  {
  }
}
