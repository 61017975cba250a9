/** The start-up decision of the program (src/main.rs): run the command
    line interface or open the window, from the process arguments (the
    program name first) and whether the window was compiled in. */
module Dispatch {
  import opened Text

  datatype Launch = CommandLine | Window

  /** The first argument asks for the command line explicitly. */
  predicate AsksCommandLine(arg: string)
  {
    arg == "cli" || arg == "--cli"
  }

  /** The first argument names a command: it does not start with `-`
      and is not `gui` or `--gui`. */
  predicate NamesCommand(arg: string)
  {
    !StartsWith(arg, "-") && arg != "gui" && arg != "--gui"
  }

  function Choose(args: seq<string>, windowBuilt: bool): (r: Launch)
    ensures !windowBuilt ==> r == CommandLine
    ensures r == Window <==>
      windowBuilt && (|args| <= 1 || args[1] == "gui" || args[1] == "--gui" || (StartsWith(args[1], "-") && args[1] != "--cli"))
  {
    if |args| > 1 && AsksCommandLine(args[1]) then
      assert args[1] == "cli" ==> args[1][0] != '-';
      CommandLine
    else if |args| > 1 && NamesCommand(args[1]) then CommandLine
    else if windowBuilt then Window
    else CommandLine
  }

  /** An empty first argument counts as a command name. */
  lemma EmptyArgumentIsCommand(program: string, windowBuilt: bool)
    ensures Choose([program, ""], windowBuilt) == CommandLine
  {
  }

  /** Any flag other than `--cli` opens the window when it is built. */
  lemma FlagOpensWindow(program: string, flag: string, rest: seq<string>)
    requires StartsWith(flag, "-") && flag != "--cli"
    ensures Choose([program, flag] + rest, true) == Window
  {
  }
}
