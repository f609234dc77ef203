/** `lium dut monitor`: one forwarded local port per monitored DUT, handed
    out in order from a fixed base, then a status screen redrawn in a loop. */
module Monitor {
  import opened Results
  import opened DutTypes

  /** The local port of the first monitored DUT; the next ones follow. */
  const MonitorBasePort := 4022

  /** A monitored DUT: its identifier and the local port forwarded to it. */
  datatype MonitorTarget = MonitorTarget(id: string, port: int)

  /** Opens the monitor sessions in order, the i-th DUT on port 4022 + i,
      and stops at the first one that cannot be opened. `keyReady` is the
      outcome of installing the testing key; `open` starts the forwarding
      session for a DUT on a local port. */
  method OpenMonitors(duts: seq<string>, keyReady: Outcome<string>,
                      open: (string, int) -> Outcome<string>)
    returns (r: Result<seq<MonitorTarget>, DutError>, ghost failedAt: nat)
    ensures keyReady.Fail? ==> r == Err(KeyNotReady(keyReady.error))
    ensures r.Ok? ==>
      && |r.value| == |duts|
      && (forall k :: 0 <= k < |duts| ==>
            r.value[k] == MonitorTarget(duts[k], MonitorBasePort + k)
            && open(duts[k], MonitorBasePort + k) == Pass)
      && (forall i, j :: 0 <= i < j < |r.value| ==> r.value[i].port < r.value[j].port)
    ensures r.Err? && keyReady.Pass? ==>
      && failedAt < |duts|
      && open(duts[failedAt], MonitorBasePort + failedAt).Fail?
      && r.error == Remote(open(duts[failedAt], MonitorBasePort + failedAt).error)
      && forall k :: 0 <= k < failedAt ==> open(duts[k], MonitorBasePort + k) == Pass
  {
    failedAt := 0;
    if keyReady.Fail? {
      return Err(KeyNotReady(keyReady.error)), failedAt;
    }
    var targets: seq<MonitorTarget> := [];
    var port := MonitorBasePort;
    var i := 0;
    while i < |duts|
      invariant 0 <= i <= |duts|
      invariant port == MonitorBasePort + i
      invariant |targets| == i
      invariant forall k :: 0 <= k < i ==>
        targets[k] == MonitorTarget(duts[k], MonitorBasePort + k)
        && open(duts[k], MonitorBasePort + k) == Pass
    {
      match open(duts[i], port)
      case Fail(cause) =>
        failedAt := i;
        return Err(Remote(cause)), failedAt;
      case Pass =>
        targets := targets + [MonitorTarget(duts[i], port)];
        port := port + 1;
        i := i + 1;
    }
    r := Ok(targets);
  }

  /** One screen refresh: the header, then one status line per target in
      order; a target whose status cannot be read ends the monitor with
      that error after the lines printed so far. */
  datatype Frame = Frame(lines: seq<string>, result: Outcome<DutError>)

  function StatusLines(targets: seq<MonitorTarget>,
                       status: MonitorTarget -> Result<string, string>): (frame: Frame)
    ensures |frame.lines| <= |targets|
    ensures forall k :: 0 <= k < |frame.lines| ==>
      status(targets[k]).Ok? && frame.lines[k] == status(targets[k]).value
    ensures frame.result == Pass <==> |frame.lines| == |targets|
    ensures frame.result.Fail? ==>
      && status(targets[|frame.lines|]).Err?
      && frame.result.error == Remote(status(targets[|frame.lines|]).error)
  {
    if |targets| == 0 then Frame([], Pass)
    else
      match status(targets[0])
      case Err(e) => Frame([], Fail(Remote(e)))
      case Ok(line) =>
        var rest := StatusLines(targets[1..], status);
        Frame([line] + rest.lines, rest.result)
  }

  function Refresh(header: string, targets: seq<MonitorTarget>,
                   status: MonitorTarget -> Result<string, string>): (frame: Frame)
    ensures |frame.lines| >= 1 && frame.lines[0] == header
    ensures frame.lines[1..] == StatusLines(targets, status).lines
    ensures frame.result == StatusLines(targets, status).result
    ensures frame.result == Pass <==> |frame.lines| == |targets| + 1
  {
    var body := StatusLines(targets, status);
    assert ([header] + body.lines)[1..] == body.lines;
    Frame([header] + body.lines, body.result)
  }

  /** A refresh is complete exactly when every target's status can be read;
      otherwise it ends at the first target whose status cannot be read,
      after the status lines of all earlier targets. */
  lemma {:induction false} RefreshComplete(header: string, targets: seq<MonitorTarget>,
                                           status: MonitorTarget -> Result<string, string>)
    ensures var frame := Refresh(header, targets, status);
      && (frame.result == Pass <==> forall k :: 0 <= k < |targets| ==> status(targets[k]).Ok?)
      && (frame.result.Fail? ==>
            var n := |frame.lines| - 1;
            && n < |targets|
            && (forall k :: 0 <= k < n ==> status(targets[k]).Ok?)
            && status(targets[n]).Err?
            && frame.result.error == Remote(status(targets[n]).error))
  {
    var body := StatusLines(targets, status);
    assert |Refresh(header, targets, status).lines| == |body.lines| + 1;
    if body.result.Fail? {
      var n := |body.lines|;
      assert status(targets[n]).Err?;
    }
  }
}
