/** The entry point: which command the first argument selects, and the exit status. */
module Cli {
  datatype Command = Help | Export | Sync | Unknown(name: string)

  /** The command named by `argv[1]`; a missing argument means the empty name. Later
      arguments are not looked at. */
  function Dispatch(argv: seq<string>): (c: Command)
    ensures c == Help <==> |argv| > 1 && argv[1] in {"-h", "--help"}
    ensures c == Export <==> |argv| > 1 && argv[1] == "export"
    ensures c == Sync <==> |argv| <= 1 || argv[1] == ""
    ensures c.Unknown? ==> |argv| > 1 && c.name == argv[1]
  {
    var cmd := if |argv| > 1 then argv[1] else "";
    if cmd == "-h" || cmd == "--help" then Help
    else if cmd == "export" then Export
    else if cmd == "" then Sync
    else Unknown(cmd)
  }

  /** The process exit status once the command has run to completion. */
  function ExitStatus(c: Command): int {
    if c.Unknown? then 1 else 0
  }

  /** The run fails exactly for a first argument that names no command. */
  lemma ExitStatusIff(argv: seq<string>)
    ensures ExitStatus(Dispatch(argv)) == 1 <==>
      |argv| > 1 && argv[1] !in {"-h", "--help", "export", ""}
    ensures ExitStatus(Dispatch(argv)) == 0 || ExitStatus(Dispatch(argv)) == 1
  {
  }

  /** Only the first argument matters. */
  lemma DispatchIgnoresRest(argv: seq<string>, more: seq<string>)
    requires |argv| > 1
    ensures Dispatch(argv + more) == Dispatch(argv)
  {
    assert (argv + more)[1] == argv[1];
  }
}
