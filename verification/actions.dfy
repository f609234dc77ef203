/** `lium dut do`: a fixed table of named remote actions, run in the
    requested order against one DUT and stopped at the first failure. */
module Actions {
  import opened Results
  import opened DutTypes
  import opened Seqs

  datatype DutAction =
    | Reboot        // run `reboot; exit`
    | Login         // log in on the DUT's screen
    | TailMessages  // follow /var/log/messages

  /** The dispatch table, keyed by the names users type. */
  const DutActionTable: map<string, DutAction> :=
    map["reboot" := Reboot, "login" := Login, "tail_messages" := TailMessages]

  /** The table holds exactly three names. */
  lemma DutActionNames()
    ensures DutActionTable.Keys == {"reboot", "login", "tail_messages"}
  {
    var keys := DutActionTable.Keys;
    assert "reboot" in keys && "login" in keys && "tail_messages" in keys;
    forall n | n in keys ensures n in {"reboot", "login", "tail_messages"} {
    }
  }

  /** The requested names that are not in the table, in request order. */
  function UnknownActions(names: seq<string>): (unknown: seq<string>)
    ensures |unknown| <= |names|
    ensures forall k :: 0 <= k < |unknown| ==> unknown[k] !in DutActionTable
    ensures forall k :: 0 <= k < |names| && names[k] !in DutActionTable ==> names[k] in unknown
    ensures unknown == [] <==> forall k :: 0 <= k < |names| ==> names[k] in DutActionTable
    ensures forall n :: n in unknown <==> n in names && n !in DutActionTable
  {
    if |names| == 0 then []
    else if names[0] in DutActionTable then UnknownActions(names[1..])
    else [names[0]] + UnknownActions(names[1..])
  }

  /** The requested names that are in the table, in request order. */
  function KnownActions(names: seq<string>): (known: seq<string>)
    ensures forall k :: 0 <= k < |known| ==> known[k] in DutActionTable
  {
    if |names| == 0 then []
    else if names[0] in DutActionTable then [names[0]] + KnownActions(names[1..])
    else KnownActions(names[1..])
  }

  /** The unknown names are reported in request order: the request is the
      known names and the unknown names merged, neither reordered. */
  lemma {:induction false} UnknownActionsKeepOrder(names: seq<string>)
    ensures Interleaves(names, KnownActions(names), UnknownActions(names))
  {
    if |names| > 0 {
      UnknownActionsKeepOrder(names[1..]);
    }
  }

  /** `flat_map` over the table: the action of every known name, unknown
      names skipped. */
  function LookupActions(names: seq<string>): (acts: seq<DutAction>)
    ensures |acts| == |names| - |UnknownActions(names)|
    ensures forall k :: 0 <= k < |acts| ==> acts[k] in DutActionTable.Values
  {
    if |names| == 0 then []
    else if names[0] in DutActionTable then [DutActionTable[names[0]]] + LookupActions(names[1..])
    else LookupActions(names[1..])
  }

  /** `zip`: pairs up to the shorter of the two sequences. */
  function Zip<A, B>(xs: seq<A>, ys: seq<B>): (pairs: seq<(A, B)>)
    ensures |pairs| == if |xs| <= |ys| then |xs| else |ys|
    ensures forall k :: 0 <= k < |pairs| ==> pairs[k] == (xs[k], ys[k])
  {
    if |xs| == 0 || |ys| == 0 then [] else [(xs[0], ys[0])] + Zip(xs[1..], ys[1..])
  }

  /** Once every name is known, the lookup drops nothing, so zipping names
      with looked-up actions pairs each name with its own action. */
  lemma {:induction false} LookupActionsAligned(names: seq<string>)
    requires UnknownActions(names) == []
    ensures |LookupActions(names)| == |names|
    ensures forall k :: 0 <= k < |names| ==> LookupActions(names)[k] == DutActionTable[names[k]]
  {
    if |names| > 0 {
      assert names[0] in DutActionTable;
      LookupActionsAligned(names[1..]);
      assert forall k :: 1 <= k < |names| ==> names[1..][k - 1] == names[k];
    }
  }

  lemma ZipAligned(names: seq<string>)
    requires UnknownActions(names) == []
    ensures var steps := Zip(names, LookupActions(names));
      |steps| == |names| &&
      forall k :: 0 <= k < |names| ==> steps[k] == (names[k], DutActionTable[names[k]])
  {
    LookupActionsAligned(names);
  }

  datatype DoArgs = DoArgs(dut: Option<string>, actions: seq<string>, listActions: bool)

  datatype DoOutput = ListedActions(names: set<string>) | Completed

  /** The names of the actions that were started, in order, and how the
      command ended. */
  datatype DoRun = DoRun(invoked: seq<string>, result: Result<DoOutput, DutError>)

  /** The loop over the named steps: run each in turn and stop at the first
      failure, reporting that step's name with its cause. */
  function RunSteps(ssh: SshInfo, steps: seq<(string, DutAction)>,
                    effect: (SshInfo, DutAction) -> Outcome<string>): (run: DoRun)
    ensures |run.invoked| <= |steps|
    ensures forall k :: 0 <= k < |run.invoked| ==> run.invoked[k] == steps[k].0
    ensures run.result.Ok? ==>
      && run.result.value == Completed
      && |run.invoked| == |steps|
      && forall k :: 0 <= k < |steps| ==> effect(ssh, steps[k].1) == Pass
    ensures run.result.Err? ==>
      && 0 < |run.invoked|
      && var last := |run.invoked| - 1;
      && effect(ssh, steps[last].1).Fail?
      && run.result.error == ActionFailed(steps[last].0, effect(ssh, steps[last].1).error)
      && forall k :: 0 <= k < last ==> effect(ssh, steps[k].1) == Pass
  {
    if |steps| == 0 then DoRun([], Ok(Completed))
    else
      match effect(ssh, steps[0].1)
      case Fail(cause) => DoRun([steps[0].0], Err(ActionFailed(steps[0].0, cause)))
      case Pass =>
        var rest := RunSteps(ssh, steps[1..], effect);
        DoRun([steps[0].0] + rest.invoked, rest.result)
  }

  /** `lium dut do`. `keyReady` is the outcome of installing the testing
      key, `connect` resolves the `--dut` string, and `effect` is what an
      action does on the DUT. */
  function RunDutDo(args: DoArgs, keyReady: Outcome<string>,
                    connect: string -> Result<SshInfo, string>,
                    effect: (SshInfo, DutAction) -> Outcome<string>): (run: DoRun)
    ensures keyReady.Fail? ==> run == DoRun([], Err(KeyNotReady(keyReady.error)))
    ensures keyReady.Pass? && args.listActions ==>
      run == DoRun([], Ok(ListedActions({"reboot", "login", "tail_messages"})))
    ensures run.invoked != [] ==> keyReady.Pass? && !args.listActions && args.dut.Some?
  {
    if keyReady.Fail? then DoRun([], Err(KeyNotReady(keyReady.error)))
    else if args.listActions then
      DutActionNames();
      DoRun([], Ok(ListedActions(DutActionTable.Keys)))
    else
      var unknown := UnknownActions(args.actions);
      if unknown != [] || args.actions == [] then DoRun([], Err(UnknownAction(unknown)))
      else if args.dut.None? then DoRun([], Err(MissingDut))
      else
        match connect(args.dut.value)
        case Err(e) => DoRun([], Err(Remote(e)))
        case Ok(ssh) => RunSteps(ssh, Zip(args.actions, LookupActions(args.actions)), effect)
  }

  /** Validation comes first: an unknown name, or no name at all, fails
      before anything runs and before `--dut` is even looked at; the error
      lists every unknown name in request order. */
  lemma RunDutDoValidatesFirst(args: DoArgs, keyReady: Outcome<string>,
                               connect: string -> Result<SshInfo, string>,
                               effect: (SshInfo, DutAction) -> Outcome<string>)
    requires keyReady == Pass && !args.listActions
    requires args.actions == [] || exists k :: 0 <= k < |args.actions| && args.actions[k] !in DutActionTable
    ensures var run := RunDutDo(args, keyReady, connect, effect);
      && run.invoked == []
      && run.result == Err(UnknownAction(UnknownActions(args.actions)))
      && (forall n :: n in run.result.error.names <==> n in args.actions && n !in DutActionTable)
  {
  }

  /** A run that started any action had a valid, non-empty request and a
      reachable `--dut`; the actions started are a prefix of the request. */
  lemma RunDutDoRunsInOrder(args: DoArgs, keyReady: Outcome<string>,
                            connect: string -> Result<SshInfo, string>,
                            effect: (SshInfo, DutAction) -> Outcome<string>)
    ensures var run := RunDutDo(args, keyReady, connect, effect);
      run.invoked != [] ==>
        && keyReady == Pass && !args.listActions
        && args.actions != []
        && (forall k :: 0 <= k < |args.actions| ==> args.actions[k] in DutActionTable)
        && args.dut.Some? && connect(args.dut.value).Ok?
        && |run.invoked| <= |args.actions|
        && run.invoked == args.actions[..|run.invoked|]
  {
    var run := RunDutDo(args, keyReady, connect, effect);
    if run.invoked != [] {
      ZipAligned(args.actions);
    }
  }

  /** A valid request runs. With the key ready and a non-empty request of
      known names: a missing `--dut` and an unreachable DUT fail before any
      action starts; otherwise every action runs in order when all of them
      succeed, and the run stops at the first failing action, reporting
      its name and cause. */
  lemma RunDutDoValidRequest(args: DoArgs, keyReady: Outcome<string>,
                             connect: string -> Result<SshInfo, string>,
                             effect: (SshInfo, DutAction) -> Outcome<string>)
    requires keyReady == Pass && !args.listActions
    requires args.actions != [] && UnknownActions(args.actions) == []
    ensures var run := RunDutDo(args, keyReady, connect, effect);
      && (args.dut.None? ==> run == DoRun([], Err(MissingDut)))
      && (args.dut.Some? && connect(args.dut.value).Err? ==>
            run == DoRun([], Err(Remote(connect(args.dut.value).error))))
      && (args.dut.Some? && connect(args.dut.value).Ok? ==>
            var ssh := connect(args.dut.value).value;
            && ((forall k :: 0 <= k < |args.actions| ==> effect(ssh, DutActionTable[args.actions[k]]) == Pass) ==>
                  run == DoRun(args.actions, Ok(Completed)))
            && (forall j ::
                  (&& 0 <= j < |args.actions|
                   && effect(ssh, DutActionTable[args.actions[j]]).Fail?
                   && (forall k :: 0 <= k < j ==> effect(ssh, DutActionTable[args.actions[k]]) == Pass)) ==>
                    && run.invoked == args.actions[..j + 1]
                    && run.result == Err(ActionFailed(args.actions[j], effect(ssh, DutActionTable[args.actions[j]]).error))))
  {
    ZipAligned(args.actions);
  }

  /** Success means every requested action ran, in order, and succeeded. */
  lemma RunDutDoSuccess(args: DoArgs, keyReady: Outcome<string>,
                        connect: string -> Result<SshInfo, string>,
                        effect: (SshInfo, DutAction) -> Outcome<string>)
    requires !args.listActions
    ensures var run := RunDutDo(args, keyReady, connect, effect);
      run.result.Ok? ==>
        && args.dut.Some? && connect(args.dut.value).Ok?
        && run.invoked == args.actions
        && forall k :: 0 <= k < |args.actions| ==>
             effect(connect(args.dut.value).value, DutActionTable[args.actions[k]]) == Pass
  {
    var run := RunDutDo(args, keyReady, connect, effect);
    if run.result.Ok? {
      ZipAligned(args.actions);
    }
  }

  /** A failing action stops the run: it is the last one started, the error
      names it and carries its cause, every earlier one succeeded, and no
      later one was started. */
  lemma RunDutDoStopsAtFirstFailure(args: DoArgs, keyReady: Outcome<string>,
                                    connect: string -> Result<SshInfo, string>,
                                    effect: (SshInfo, DutAction) -> Outcome<string>)
    ensures var run := RunDutDo(args, keyReady, connect, effect);
      run.result.Err? && run.result.error.ActionFailed? ==>
        && args.dut.Some? && connect(args.dut.value).Ok?
        && var ssh := connect(args.dut.value).value;
        && var last := |run.invoked| - 1;
        && 0 <= last < |args.actions|
        && run.invoked == args.actions[..last + 1]
        && run.result.error.name == args.actions[last]
        && effect(ssh, DutActionTable[args.actions[last]]) == Fail(run.result.error.cause)
        && forall k :: 0 <= k < last ==> effect(ssh, DutActionTable[args.actions[k]]) == Pass
  {
    var run := RunDutDo(args, keyReady, connect, effect);
    if run.result.Err? && run.result.error.ActionFailed? {
      ZipAligned(args.actions);
    }
  }
}
