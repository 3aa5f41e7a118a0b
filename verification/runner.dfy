/** The completion protocol of `runCommand` in src/index.ts, as a pure reducer over
    the trace of notifications a child process delivers: stdout chunks, stderr
    chunks, the exit signal and the 'error' event. Spawning, stdin and the Promise
    machinery are not modelled; the Promise's "settles once" rule is the `settled`
    field, which only the first settling event sets. */
module Runner {
  import opened Wrappers
  import opened Text

  /** One notification from the child process. */
  datatype Event =
    | Out(chunk: string)         // 'data' on stdout
    | Err(chunk: string)         // 'data' on stderr
    | Exit(code: Option<int>)    // 'exit'; Node passes a null code when a signal ended the process
    | Fault(message: string)     // 'error' (the process could not be spawned)

  /** A `commandLog` entry: what was run, what it printed, how it ended. */
  datatype CommandResult = CommandResult(
    command: string,
    stdOut: string,
    stdErr: string,
    exitCode: Option<int>)

  /** How the Promise returned by `runCommand` settles. */
  datatype Settlement =
    | Resolved(result: CommandResult)
    | Rejected(result: CommandResult)
    | Failed(message: string)

  /** What a run knows of its command: the binary's path and the command string. */
  datatype Invocation = Invocation(path: string, cmd: string)

  /** The closure state of one `runCommand` call, the records this call appends to the
      instance's shared command log (records other calls push there are not tracked),
      and the Promise's settlement. */
  datatype RunState = RunState(
    out: seq<string>,
    err: seq<string>,
    exited: bool,
    exitCode: Option<int>,
    log: seq<CommandResult>,
    settled: Option<Settlement>)

  const Initial := RunState([], [], false, None, [], None)

  /** The settlement a record asks for: rejection unless the exit code is exactly 0
      (a null code is `!== 0` too). */
  function Outcome(rec: CommandResult): (s: Settlement)
    ensures s.Rejected? <==> rec.exitCode != Some(0)
    ensures s.Resolved? <==> rec.exitCode == Some(0)
    ensures !s.Failed? && s.result == rec
  {
    if rec.exitCode != Some(0) then Rejected(rec) else Resolved(rec)
  }

  /** The record `handleExit` builds from the buffers it has at that moment. */
  function Snapshot(inv: Invocation, s: RunState): CommandResult {
    CommandResult(inv.path + " " + inv.cmd, Concat(s.out), Concat(s.err), s.exitCode)
  }

  /** `handleExit`: push the record, then resolve or reject; a Promise that is
      already settled ignores the second call. */
  function HandleExit(inv: Invocation, s: RunState): RunState {
    var rec := Snapshot(inv, s);
    s.(log := s.log + [rec],
       settled := if s.settled.Some? then s.settled else Some(Outcome(rec)))
  }

  /** `cmd.includes(' -out ')`: the command writes its result to a file, so an empty
      stdout is no reason to wait. */
  predicate WritesOutputFile(inv: Invocation) {
    Contains(inv.cmd, " -out ")
  }

  /** The exit handler's test, on the buffers as they are when the exit arrives. */
  predicate CompletesOnExit(inv: Invocation, out: seq<string>, err: seq<string>, code: Option<int>) {
    || (code == Some(0) && (|out| > 0 || WritesOutputFile(inv)))
    || (code != Some(0) && |err| > 0)
  }

  /** One notification. Chunks are appended to their buffer; a chunk that arrives
      after the exit fires `handleExit` again when its stream matches the exit code
      (stdout for 0, stderr otherwise); the exit fires it when the evidence already
      gathered matches the code; the 'error' event rejects without logging. */
  function Step(inv: Invocation, s: RunState, e: Event): (r: RunState)
    ensures s.settled.Some? ==> r.settled == s.settled
    ensures |s.log| <= |r.log| <= |s.log| + 1 && r.log[..|s.log|] == s.log
    ensures |r.log| > |s.log| ==> r.exited && r.log[|s.log|] == Snapshot(inv, r)
    ensures |r.log| > |s.log| && s.settled.None? ==> r.settled == Some(Outcome(r.log[|s.log|]))
    ensures |r.log| == |s.log| && s.settled.None? && r.settled.Some? ==> e.Fault? && r.settled == Some(Failed(e.message))
  {
    match e
    case Out(c) =>
      var s' := s.(out := s.out + [c]);
      if s.exited && s.exitCode == Some(0) then HandleExit(inv, s') else s'
    case Err(c) =>
      var s' := s.(err := s.err + [c]);
      if s.exited && s.exitCode != Some(0) then HandleExit(inv, s') else s'
    case Exit(code) =>
      var s' := s.(exited := true, exitCode := code);
      if CompletesOnExit(inv, s.out, s.err, code) then HandleExit(inv, s') else s'
    case Fault(m) =>
      if s.settled.None? then s.(settled := Some(Failed(m))) else s
  }

  /** The state after a whole trace, events taken in arrival order. */
  function Run(inv: Invocation, t: seq<Event>): RunState
    decreases |t|
  {
    if |t| == 0 then Initial else Step(inv, Run(inv, t[..|t| - 1]), t[|t| - 1])
  }

  // ---------------------------------------------------------------------------
  // An independent description of a trace: which chunks arrived, how the last exit
  // ended, and at which positions the protocol fires.
  // ---------------------------------------------------------------------------

  /** The stdout chunks of a trace, in arrival order. */
  function OutChunks(t: seq<Event>): seq<string>
    decreases |t|
  {
    if |t| == 0 then []
    else OutChunks(t[..|t| - 1]) + (if t[|t| - 1].Out? then [t[|t| - 1].chunk] else [])
  }

  /** The stderr chunks of a trace, in arrival order. */
  function ErrChunks(t: seq<Event>): seq<string>
    decreases |t|
  {
    if |t| == 0 then []
    else ErrChunks(t[..|t| - 1]) + (if t[|t| - 1].Err? then [t[|t| - 1].chunk] else [])
  }

  /** The code of the last exit in a trace, if there was one. */
  function LastExit(t: seq<Event>): Option<Option<int>>
    decreases |t|
  {
    if |t| == 0 then None
    else if t[|t| - 1].Exit? then Some(t[|t| - 1].code)
    else LastExit(t[..|t| - 1])
  }

  /** Whether the event at position `i` fires `handleExit`, judged from what arrived
      before it. */
  predicate FiresAt(inv: Invocation, t: seq<Event>, i: nat)
    requires i < |t|
  {
    var before := t[..i];
    match t[i]
    case Out(_) => LastExit(before) == Some(Some(0))
    case Err(_) => LastExit(before).Some? && LastExit(before).value != Some(0)
    case Exit(code) => CompletesOnExit(inv, OutChunks(before), ErrChunks(before), code)
    case Fault(_) => false
  }

  /** The record for a trace prefix: every chunk so far, concatenated in arrival
      order, and the code of the last exit. */
  function RecordOf(inv: Invocation, t: seq<Event>): CommandResult {
    CommandResult(
      inv.path + " " + inv.cmd,
      Concat(OutChunks(t)), Concat(ErrChunks(t)),
      if LastExit(t).Some? then LastExit(t).value else None)
  }

  /** One record per firing position, in order. */
  function Firings(inv: Invocation, t: seq<Event>): seq<CommandResult>
    decreases |t|
  {
    if |t| == 0 then []
    else Firings(inv, t[..|t| - 1]) + (if FiresAt(inv, t, |t| - 1) then [RecordOf(inv, t)] else [])
  }

  /** Every attempt to settle the Promise, in order: one per firing and one per
      'error' event. The Promise takes the first. */
  function Attempts(inv: Invocation, t: seq<Event>): seq<Settlement>
    decreases |t|
  {
    if |t| == 0 then []
    else
      var e := t[|t| - 1];
      Attempts(inv, t[..|t| - 1])
      + (if e.Fault? then [Failed(e.message)]
         else if FiresAt(inv, t, |t| - 1) then [Outcome(RecordOf(inv, t))]
         else [])
  }

  function First(attempts: seq<Settlement>): Option<Settlement> {
    if |attempts| == 0 then None else Some(attempts[0])
  }

  /** The reducer agrees with the trace description: the buffers hold exactly the
      chunks of each stream in arrival order, whatever the interleaving; the log
      holds one record per firing position, each with the chunks received up to
      it; the settlement is the first attempt, so it is fixed by the first firing
      (or the first 'error' event). */
  lemma RunMatchesTrace(inv: Invocation, t: seq<Event>)
    ensures Run(inv, t).out == OutChunks(t)
    ensures Run(inv, t).err == ErrChunks(t)
    ensures Run(inv, t).exited <==> LastExit(t).Some?
    ensures Run(inv, t).exitCode == if LastExit(t).Some? then LastExit(t).value else None
    ensures Run(inv, t).log == Firings(inv, t)
    ensures Run(inv, t).settled == First(Attempts(inv, t))
  {
    BuffersMatchTrace(inv, t);
    LogMatchesTrace(inv, t);
    SettledMatchesTrace(inv, t);
  }

  lemma {:induction false} BuffersMatchTrace(inv: Invocation, t: seq<Event>)
    ensures Run(inv, t).out == OutChunks(t)
    ensures Run(inv, t).err == ErrChunks(t)
    ensures Run(inv, t).exited <==> LastExit(t).Some?
    ensures Run(inv, t).exitCode == if LastExit(t).Some? then LastExit(t).value else None
    decreases |t|
  {
    if |t| > 0 {
      var p := t[..|t| - 1];
      BuffersMatchTrace(inv, p);
      match t[|t| - 1]
      case Out(c) =>
      case Err(c) =>
      case Exit(code) =>
      case Fault(m) =>
    }
  }

  lemma {:induction false} LogMatchesTrace(inv: Invocation, t: seq<Event>)
    ensures Run(inv, t).log == Firings(inv, t)
    decreases |t|
  {
    if |t| > 0 {
      var p := t[..|t| - 1];
      LogMatchesTrace(inv, p);
      BuffersMatchTrace(inv, p);
      BuffersMatchTrace(inv, t);
    }
  }

  lemma {:induction false} SettledMatchesTrace(inv: Invocation, t: seq<Event>)
    ensures Run(inv, t).settled == First(Attempts(inv, t))
    decreases |t|
  {
    if |t| > 0 {
      var p := t[..|t| - 1];
      SettledMatchesTrace(inv, p);
      BuffersMatchTrace(inv, p);
      BuffersMatchTrace(inv, t);
      if |Attempts(inv, p)| > 0 {
        assert Attempts(inv, t)[0] == Attempts(inv, p)[0];
      }
    }
  }

  /** The firing rule, one event at a time. An exit fires `handleExit` exactly when
      code 0 meets some stdout (or an output file is expected), or a non-zero code
      meets some stderr; a later stdout chunk fires it exactly when the last exit
      had code 0, a later stderr chunk exactly when it did not; the 'error' event
      never does. Each firing appends one record holding every chunk received so
      far, so a command can be logged more than once. */
  lemma FiringRule(inv: Invocation, t: seq<Event>, e: Event)
    ensures var before, after := Run(inv, t).log, Run(inv, t + [e]).log;
      && after[..|before|] == before
      && |after| <= |before| + 1
      && (e.Exit? ==> (|after| > |before| <==> CompletesOnExit(inv, OutChunks(t), ErrChunks(t), e.code)))
      && (e.Out? ==> (|after| > |before| <==> LastExit(t) == Some(Some(0))))
      && (e.Err? ==> (|after| > |before| <==> LastExit(t).Some? && LastExit(t).value != Some(0)))
      && (e.Fault? ==> |after| == |before|)
      && (|after| > |before| ==> after[|before|] == RecordOf(inv, t + [e]))
  {
    var t' := t + [e];
    assert t'[..|t'| - 1] == t;
    RunMatchesTrace(inv, t);
    RunMatchesTrace(inv, t');
  }

  /** Completion never fires before an exit: a trace without one has an empty log,
      and the only way its Promise can have settled is the 'error' event. */
  lemma {:induction false} NoCompletionBeforeExit(inv: Invocation, t: seq<Event>)
    requires LastExit(t).None?
    ensures Run(inv, t).log == []
    ensures Run(inv, t).settled.Some? ==> Run(inv, t).settled.value.Failed?
    decreases |t|
  {
    if |t| > 0 {
      var p := t[..|t| - 1];
      assert LastExit(p).None?;
      NoCompletionBeforeExit(inv, p);
      RunMatchesTrace(inv, p);
      RunMatchesTrace(inv, t);
    }
  }

  /** The Promise settles at most once: once settled, no further notification
      changes the settlement, and the log only ever grows at the end. */
  lemma {:induction false} SettlementIsFinal(inv: Invocation, t: seq<Event>, u: seq<Event>)
    ensures Run(inv, t).settled.Some? ==> Run(inv, t + u).settled == Run(inv, t).settled
    ensures |Run(inv, t).log| <= |Run(inv, t + u).log|
    ensures Run(inv, t + u).log[..|Run(inv, t).log|] == Run(inv, t).log
    decreases |u|
  {
    if |u| == 0 {
      assert t + u == t;
    } else {
      var u' := u[..|u| - 1];
      SettlementIsFinal(inv, t, u');
      assert (t + u)[..|t + u| - 1] == t + u';
    }
  }

  /** Evidence that matches the exit is enough: when the last exit had code 0 and
      some stdout arrived (or an output file is expected), or it had another code and
      some stderr arrived, the Promise has settled, in whatever order the chunks and
      the exit came. The protocol does not hang on output that outruns the exit. */
  lemma {:induction false} EvidenceSettles(inv: Invocation, t: seq<Event>)
    requires LastExit(t).Some?
    requires CompletesOnExit(inv, OutChunks(t), ErrChunks(t), LastExit(t).value)
    ensures Run(inv, t).settled.Some?
    decreases |t|
  {
    var p := t[..|t| - 1];
    var e := t[|t| - 1];
    BuffersMatchTrace(inv, p);
    assert t == p + [e];
    FiringRule(inv, p, e);
    SettlementIsFinal(inv, p, [e]);
    match e
    case Exit(code) =>
      assert OutChunks(t) == OutChunks(p) && ErrChunks(t) == ErrChunks(p);
    case Out(c) =>
      assert LastExit(t) == LastExit(p);
      if LastExit(p) != Some(Some(0)) {
        assert ErrChunks(t) == ErrChunks(p);
        EvidenceSettles(inv, p);
      }
    case Err(c) =>
      assert LastExit(t) == LastExit(p);
      if LastExit(p) == Some(Some(0)) {
        assert OutChunks(t) == OutChunks(p);
        EvidenceSettles(inv, p);
      }
    case Fault(m) =>
  }

  /** A settlement that carries a record carries this run's command line, and it is
      a resolution exactly when the record's exit code is 0. */
  lemma {:induction false} SettledRecord(inv: Invocation, t: seq<Event>)
    ensures var st := Run(inv, t).settled;
      st.Some? && !st.value.Failed? ==>
        && st.value.result.command == inv.path + " " + inv.cmd
        && (st.value.Resolved? <==> st.value.result.exitCode == Some(0))
    decreases |t|
  {
    if |t| > 0 {
      SettledRecord(inv, t[..|t| - 1]);
    }
  }
}
