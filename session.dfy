/** `main` as a whole: the startup checks, then, when they all pass, the recording
    loop over the receptions supplied. */
module Session {
  import opened Text
  import opened Clock
  import opened Startup
  import opened Recorder

  /** What a run leaves behind. `exitCode` is None while the loop is still recording
      (the program never leaves the loop by itself). `file` is None when the run did not
      create the output file, so whatever was at the path is untouched. */
  datatype Run = Run(exitCode: Option<int>, calls: seq<Call>, file: Option<string>, console: string)

  /** `main`: argument count, the duration as parsed, the operating system's answers, the
      clock reading taken as `firstTimestamp`, and the receptions of the loop. */
  method RunMain(argCount: int, parsedDuration: int, env: Environment, firstClock: Timespec,
                 rxs: seq<Reception>) returns (run: Run)
    ensures var st := Start(argCount, parsedDuration, env);
      run.calls == st.calls &&
      (st.outcome.Exit? ==>
         run.exitCode == Some(st.outcome.code) && run.console == [] &&
         run.file == (if FileCreated(st, env) then Some([]) else None)) &&
      (st.outcome.Recording? ==>
         run.exitCode == None &&
         run.file == Some(FileText(GetMicrosecond(firstClock), rxs)) &&
         run.console == Rows(GetMicrosecond(firstClock), rxs))
  {
    var st := Start(argCount, parsedDuration, env);
    match st.outcome {
      case Exit(code) =>
        var created := FileCreated(st, env);
        run := Run(Some(code), st.calls, if created then Some([]) else None, []);
      case Recording(_, _) =>
        var file, console := Record(firstClock, rxs);
        run := Run(None, st.calls, Some(file), console);
    }
  }
}
