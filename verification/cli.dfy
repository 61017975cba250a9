/** What running the `pipe` command gives back to a panel, with the
    process itself left out: either the command ran to completion, with
    its exit status and its decoded output, or it could not be started.
    Also how the command reads the `--flag value` pairs of its argument
    vector, the partner of every argument vector a panel builds. */
module Cli {
  import opened Options

  datatype Run =
    | Finished(success: bool, stdout: string, stderr: string)
    | SpawnError(error: string)

  /** The value of the first `flag value` pair among `opts`, read two
      arguments at a time. */
  function FlagValue(opts: seq<string>, flag: string): (r: Option<string>)
    ensures r.Some? ==> exists i :: 0 <= i < |opts| - 1 && opts[i] == flag && opts[i + 1] == r.value
    decreases |opts|
  {
    if |opts| < 2 then None
    else if opts[0] == flag then Some(opts[1])
    else
      var rest := FlagValue(opts[2..], flag);
      assert forall i :: 2 <= i < |opts| ==> opts[i] == opts[2..][i - 2];
      rest
  }

  /** Pairs after the first one are read only when the first is not the
      flag looked for. */
  lemma FlagValueCons(flag: string, name: string, value: string, rest: seq<string>)
    ensures FlagValue([name, value] + rest, flag) ==
      if name == flag then Some(value) else FlagValue(rest, flag)
  {
    assert ([name, value] + rest)[2..] == rest;
  }
}
