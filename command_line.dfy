/** The flag prefix of `main`: an optional `--dryrun` in first position,
    then an optional `--force` right after it; everything else names a file. */
module CommandLine {
  const DryRunFlag := "--dryrun"
  const ForceFlag := "--force"

  /** How a command line is understood. `ArgIndexError` is the uncaught
      IndexError raised when `--dryrun` is the only argument. */
  datatype Invocation =
    | Usage(exitCode: int)
    | ArgIndexError
    | Run(dryrun: bool, force: bool, files: seq<string>)

  /** The flags a run with these settings was given, in the only order
      that is recognised. */
  function FlagPrefix(dryrun: bool, force: bool): (p: seq<string>)
    ensures |p| == (if dryrun then 1 else 0) + (if force then 1 else 0)
  {
    (if dryrun then [DryRunFlag] else []) + (if force then [ForceFlag] else [])
  }

  /** Lines 206-221 of `main`, on `args = sys.argv[1:]`. */
  method ParseArgs(argv: seq<string>) returns (inv: Invocation)
    ensures inv.Usage? <==> argv == []
    ensures inv.Usage? ==> inv.exitCode == 1
    ensures inv.ArgIndexError? <==> argv == [DryRunFlag]
    ensures inv.Run? ==> argv == FlagPrefix(inv.dryrun, inv.force) + inv.files
    ensures inv.Run? ==> (inv.dryrun <==> argv[0] == DryRunFlag)
    ensures inv.Run? ==>
      var next := if inv.dryrun then 1 else 0;
      (inv.force <==> next < |argv| && argv[next] == ForceFlag)
  {
    var args := argv;
    if args == [] {
      return Usage(1);
    }
    var dryrun := false;
    var force := false;
    if args[0] == DryRunFlag {
      dryrun := true;
      args := args[1..];
    }
    if args == [] {
      return ArgIndexError;
    }
    if args[0] == ForceFlag {
      force := true;
      args := args[1..];
    }
    return Run(dryrun, force, args);
  }

  /** Flags out of order are file names: `--force --dryrun f` forces a real
      run on the files `--dryrun` and `f`, and a second `--dryrun` or a flag
      after a file name is a file name too. */
  method FlagOrderExamples() returns (swapped: Invocation, repeated: Invocation, late: Invocation)
    ensures swapped == Run(false, true, [DryRunFlag, "f"])
    ensures repeated == Run(true, false, [DryRunFlag])
    ensures late == Run(false, false, ["f", ForceFlag])
  {
    assert |ForceFlag| != |DryRunFlag|;
    swapped := ParseArgs([ForceFlag, DryRunFlag, "f"]);
    assert swapped.Run? && !swapped.dryrun && swapped.force;
    assert [ForceFlag, DryRunFlag, "f"] == [ForceFlag] + swapped.files;
    assert swapped.files == [ForceFlag, DryRunFlag, "f"][1..];
    repeated := ParseArgs([DryRunFlag, DryRunFlag]);
    assert [DryRunFlag, DryRunFlag] == [DryRunFlag] + repeated.files;
    late := ParseArgs(["f", ForceFlag]);
  }
}
