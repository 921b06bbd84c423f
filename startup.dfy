/** The startup checks of `main`: argument count and duration, then the existence of
    the output file, then `creat`, `socket`, `ioctl` and `bind`, each failure ending the
    program with EINVAL, EEXIST or EIO before anything later is attempted. The results of
    the operating-system calls are inputs. */
module Startup {

  /** Linux `errno` values returned as exit codes. */
  const EIO: int := 5
  const EEXIST: int := 17
  const EINVAL: int := 22

  /** The operating-system calls made during startup. */
  datatype Call = Access | Creat | Socket | Ioctl | Bind

  /** The order in which `main` makes them. */
  const CALL_ORDER: seq<Call> := [Access, Creat, Socket, Ioctl, Bind]

  /** What the operating system answers: whether `access(targetPath, F_OK)` finds the
      file, and the values `creat`, `socket` and `bind` return. The `ioctl` result is
      not examined by the program and so is not an input. */
  datatype Environment = Environment(fileExists: bool, creatResult: int, socketResult: int, bindResult: int)

  /** How startup ends: a returned exit code, or entry into the recording loop with the
      file descriptor and the socket open. */
  datatype Outcome = Exit(code: int) | Recording(targetFile: int, canSocket: int)

  /** The outcome together with the calls made, in the order they were made. */
  datatype StartupResult = StartupResult(outcome: Outcome, calls: seq<Call>)

  /** `arg_count >= 4` and `atoi(args[2]) > 0`. With fewer arguments the duration keeps
      its initial value 0. */
  predicate ArgumentsValid(argCount: int, parsedDuration: int)
  {
    argCount >= 4 && parsedDuration > 0
  }

  /** Whether the program carries on after `call` returned. `access` returning 0 (the
      file exists) stops it; a `creat` descriptor of 0 or below stops it; a negative
      `socket` or `bind` result stops it; the `ioctl` result is ignored. */
  predicate Succeeds(call: Call, env: Environment)
  {
    match call
    case Access => !env.fileExists
    case Creat => env.creatResult > 0
    case Socket => env.socketResult >= 0
    case Ioctl => true
    case Bind => env.bindResult >= 0
  }

  /** The exit code returned when `call` stops the program. */
  function FailureCode(call: Call): (r: int)
  {
    if call == Access then EEXIST else EIO
  }

  /** `main` from its entry up to the recording loop, lines 30-91. */
  function Start(argCount: int, parsedDuration: int, env: Environment): (r: StartupResult)
    ensures |r.calls| <= |CALL_ORDER| && r.calls == CALL_ORDER[..|r.calls|]
    ensures r.outcome.Exit? <==> r.calls != CALL_ORDER || !Succeeds(Bind, env)
  {
    if !ArgumentsValid(argCount, parsedDuration) then StartupResult(Exit(EINVAL), [])
    else if env.fileExists then StartupResult(Exit(EEXIST), [Access])
    else if env.creatResult <= 0 then StartupResult(Exit(EIO), [Access, Creat])
    else if env.socketResult < 0 then StartupResult(Exit(EIO), [Access, Creat, Socket])
    else if env.bindResult < 0 then StartupResult(Exit(EIO), CALL_ORDER)
    else StartupResult(Recording(env.creatResult, env.socketResult), CALL_ORDER)
  }

  /** Whether startup left a newly created output file behind: `creat` was called and
      returned a descriptor. */
  predicate FileCreated(r: StartupResult, env: Environment)
  {
    Creat in r.calls && env.creatResult >= 0
  }

  /** Invalid arguments are the only cause of EINVAL, and they stop the program before
      any file or socket call. */
  lemma InvalidArgumentsTouchNothing(argCount: int, parsedDuration: int, env: Environment)
    ensures var r := Start(argCount, parsedDuration, env);
      (r.outcome == Exit(EINVAL) <==> !ArgumentsValid(argCount, parsedDuration)) &&
      (!ArgumentsValid(argCount, parsedDuration) ==> r.calls == [])
  {
  }

  /** An existing output file is the only cause of EEXIST; it is detected by `access`
      alone, so the file is neither created nor truncated and no socket is opened. */
  lemma ExistingFileIsLeftAlone(argCount: int, parsedDuration: int, env: Environment)
    ensures var r := Start(argCount, parsedDuration, env);
      (r.outcome == Exit(EEXIST) <==> ArgumentsValid(argCount, parsedDuration) && env.fileExists) &&
      (r.outcome == Exit(EEXIST) ==> r.calls == [Access] && !FileCreated(r, env))
  {
  }

  /** The calls follow the fixed order and stop at the first one that fails: every call
      made but the last succeeded; startup exits exactly when the last call made failed,
      with that call's code; and it reaches the loop only after all five calls. */
  lemma StopsAtFirstFailure(argCount: int, parsedDuration: int, env: Environment)
    requires ArgumentsValid(argCount, parsedDuration)
    ensures var r := Start(argCount, parsedDuration, env);
      1 <= |r.calls| <= |CALL_ORDER| && r.calls == CALL_ORDER[..|r.calls|] &&
      (forall i :: 0 <= i < |r.calls| - 1 ==> Succeeds(r.calls[i], env)) &&
      (r.outcome.Exit? <==> !Succeeds(r.calls[|r.calls| - 1], env)) &&
      (r.outcome.Exit? ==> r.outcome.code == FailureCode(r.calls[|r.calls| - 1])) &&
      (r.outcome.Recording? ==>
         r.calls == CALL_ORDER && r.outcome == Recording(env.creatResult, env.socketResult))
  {
    var r := Start(argCount, parsedDuration, env);
    assert Succeeds(Ioctl, env);
    if r.outcome.Recording? {
      assert forall i :: 0 <= i < |CALL_ORDER| ==> Succeeds(CALL_ORDER[i], env);
    }
  }

  /** Startup ends in one of three exit codes, or in the recording loop. */
  lemma ExitCodes(argCount: int, parsedDuration: int, env: Environment)
    ensures var r := Start(argCount, parsedDuration, env);
      r.outcome.Exit? ==> r.outcome.code in {EINVAL, EEXIST, EIO}
  {
  }

  /** `creat` returning descriptor 0 (possible when standard input is closed) is taken
      for a failure: the program returns EIO although the file was created. */
  lemma CreatZeroIsFailure(argCount: int, parsedDuration: int, env: Environment)
    requires ArgumentsValid(argCount, parsedDuration) && !env.fileExists && env.creatResult == 0
    ensures var r := Start(argCount, parsedDuration, env);
      r.outcome == Exit(EIO) && FileCreated(r, env) && Socket !in r.calls
  {
  }
}
