/**
 * The side effects of both overview programs, recorded instead of
 * performed: `subprocess.run` (waits), `subprocess.Popen` (detached) and
 * closing the overview window. Tokenising a launch command (`shlex.split`
 * followed by `expand_tokens`) is a library and environment call and
 * enters as the parameter `tokenize`.
 */
module Actions {
  import opened Optional

  datatype Event =
    | Run(argv: seq<string>)      // subprocess.run(argv, ...)
    | Spawn(argv: seq<string>)    // subprocess.Popen(argv)
    | CloseWindow                 // self.close()

  /** The recording stand-in for process spawning and window closing. */
  class Executor {
    var log: seq<Event>

    constructor ()
      ensures log == []
    {
      log := [];
    }

    method RunAndWait(argv: seq<string>)
      modifies this
      ensures log == old(log) + [Run(argv)]
    {
      log := log + [Run(argv)];
    }

    method SpawnDetached(argv: seq<string>)
      modifies this
      ensures log == old(log) + [Spawn(argv)]
    {
      log := log + [Spawn(argv)];
    }

    method CloseOverlay()
      modifies this
      ensures log == old(log) + [CloseWindow]
    {
      log := log + [CloseWindow];
    }

    /** `launch(cmd)`, the same in both programs. */
    method Launch(cmd: Option<string>, tokenize: string -> seq<string>)
      modifies this
      ensures log == old(log) + LaunchEvents(cmd, tokenize)
    {
      if !Truthy(cmd) {
        CloseOverlay();
        return;
      }
      var argv := tokenize(cmd.value);
      if argv == [] {
        // `Popen([])` raises before `self.close()` is reached
        return;
      }
      SpawnDetached(argv);
      CloseOverlay();
    }
  }

  /**
   * The events `launch(cmd)` records. A non-empty command that tokenises to
   * nothing (only blanks) makes `Popen` raise, so nothing starts and the
   * overview stays open.
   */
  function LaunchEvents(cmd: Option<string>, tokenize: string -> seq<string>): seq<Event>
  {
    if !Truthy(cmd) then [CloseWindow]
    else if tokenize(cmd.value) == [] then []
    else [Spawn(tokenize(cmd.value)), CloseWindow]
  }

  /** How many processes a sequence of events starts. */
  function Processes(es: seq<Event>): nat
  {
    if es == [] then 0 else Processes(es[..|es| - 1]) + (if es[|es| - 1].CloseWindow? then 0 else 1)
  }

  lemma {:induction false} ProcessesAppend(a: seq<Event>, b: seq<Event>)
    ensures Processes(a + b) == Processes(a) + Processes(b)
    decreases |b|
  {
    if b == [] {
      assert a + b == a;
    } else {
      assert (a + b)[..|a + b| - 1] == a + b[..|b| - 1];
      ProcessesAppend(a, b[..|b| - 1]);
    }
  }

  /**
   * A launch does nothing at all exactly when a non-empty command tokenises to
   * nothing; otherwise it ends by closing the overview, and it starts one
   * process exactly when the tokenised command is non-empty.
   */
  lemma LaunchShape(cmd: Option<string>, tokenize: string -> seq<string>)
    ensures var es := LaunchEvents(cmd, tokenize);
      (es == [] <==> Truthy(cmd) && tokenize(cmd.value) == []) &&
      (es != [] ==> es[|es| - 1] == CloseWindow) &&
      Processes(es) == (if Truthy(cmd) && tokenize(cmd.value) != [] then 1 else 0) &&
      (forall e :: e in es && e.Spawn? ==> Truthy(cmd) && e.argv == tokenize(cmd.value) && e.argv != []) &&
      (forall e :: e in es ==> !e.Run?)
  {
    var es := LaunchEvents(cmd, tokenize);
    if Truthy(cmd) && tokenize(cmd.value) != [] {
      assert es[..1] == [Spawn(tokenize(cmd.value))];
      assert Processes(es) == Processes(es[..1]) + 0;
      assert es[..1][..0] == [];
    }
  }
}
