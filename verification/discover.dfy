/** `lium dut discover`: choose the candidate addresses (a remote host that
    runs the discovery itself, a target list, or a scan of the local
    network), then resolve them all. */
module Discover {
  import opened Results
  import opened Text
  import opened DutTypes
  import opened Seqs

  /** The target-list parse: trim the whole text, split it on newlines,
      trim every line and drop the blank ones. */
  function TargetList(text: string): (addrs: seq<string>)
    ensures addrs == KeepNonBlank(Split(text, '\n'))
    ensures forall k :: 0 <= k < |addrs| ==>
      addrs[k] != [] && NoEdgeWhitespace(addrs[k])
  {
    KeepSplitIgnoresOuterTrim(text);
    KeepNonBlankClean(Split(text, '\n'));
    KeepNonBlank(Split(Trim(text), '\n'))
  }

  /** The trim of the whole text before the split is redundant: the parse
      keeps exactly the non-blank trimmed lines of the original text. */
  lemma KeepSplitIgnoresOuterTrim(text: string)
    ensures KeepNonBlank(Split(Trim(text), '\n')) == KeepNonBlank(Split(text, '\n'))
  {
    TrimSlice(text);
    var n := LeadingWhitespace(text);
    var m := Trim(text);
    var a := text[..n];
    var c := text[n + |m|..];
    assert text == a + (m + c);
    KeepSplitDropsLeadingWhitespace(a, m + c);
    KeepSplitDropsTrailingWhitespace(m, c);
  }

  /** An address is a candidate exactly when some line of the text trims
      to it. */
  lemma TargetListMembership(text: string, x: string)
    ensures x in TargetList(text) <==> x != [] && x in TrimAll(Split(text, '\n'))
  {
    KeepNonBlankMembership(Split(text, '\n'), x);
  }

  /** The words of the command run on a remote host; the extra attribute
      names follow them. */
  const DiscoverWords: seq<string> := ["~/lium", "dut", "discover"]

  /** The command string as the discover command builds it: start from
      `~/lium dut discover` and append a space and each extra attribute. */
  function AppendWords(cmd: string, extra: seq<string>): string
    decreases |extra|
  {
    if |extra| == 0 then cmd else AppendWords(cmd + " " + extra[0], extra[1..])
  }

  function DiscoverCommand(extra: seq<string>): (cmd: string)
    ensures cmd == Join(DiscoverWords + extra, ' ')
  {
    DiscoverWordsJoined();
    AppendWordsJoins(DiscoverWords, extra);
    AppendWords("~/lium dut discover", extra)
  }

  lemma {:induction false} JoinSnoc(parts: seq<string>, x: string, sep: char)
    requires |parts| > 0
    ensures Join(parts + [x], sep) == Join(parts, sep) + [sep] + x
  {
    if |parts| == 1 {
      assert (parts + [x])[1..] == [x];
    } else {
      assert (parts + [x])[1..] == parts[1..] + [x];
      JoinSnoc(parts[1..], x, sep);
    }
  }

  lemma {:induction false} AppendWordsJoins(words: seq<string>, extra: seq<string>)
    requires |words| > 0
    ensures AppendWords(Join(words, ' '), extra) == Join(words + extra, ' ')
    decreases |extra|
  {
    if |extra| == 0 {
      assert words + extra == words;
    } else {
      JoinSnoc(words, extra[0], ' ');
      AppendWordsJoins(words + [extra[0]], extra[1..]);
      assert words + [extra[0]] + extra[1..] == words + extra;
    }
  }

  lemma DiscoverWordsJoined()
    ensures Join(DiscoverWords, ' ') == "~/lium dut discover"
  {
    assert DiscoverWords[1..] == ["dut", "discover"];
    assert ["dut", "discover"][1..] == ["discover"];
    assert Join(["dut", "discover"], ' ') == "dut" + " " + "discover";
    assert Join(DiscoverWords, ' ') == "~/lium" + " " + ("dut" + " " + "discover");
  }

  lemma DiscoverWordsHaveNoSpace()
    ensures forall k :: 0 <= k < |DiscoverWords| ==> ' ' !in DiscoverWords[k]
  {
  }

  /** The remote command is the fixed words followed by the extra
      attributes, separated by single spaces; when no attribute holds a
      space, splitting the command on spaces recovers them one by one. */
  lemma DiscoverCommandWords(extra: seq<string>)
    ensures (forall k :: 0 <= k < |extra| ==> ' ' !in extra[k]) ==>
      Split(DiscoverCommand(extra), ' ') == DiscoverWords + extra
  {
    if forall k :: 0 <= k < |extra| ==> ' ' !in extra[k] {
      DiscoverWordsSplit(extra);
    }
  }

  lemma DiscoverWordsSplit(extra: seq<string>)
    requires forall k :: 0 <= k < |extra| ==> ' ' !in extra[k]
    ensures Split(Join(DiscoverWords + extra, ' '), ' ') == DiscoverWords + extra
  {
    DiscoverWordsHaveNoSpace();
    NoSeparatorConcat(DiscoverWords, extra, ' ');
    SplitJoin(DiscoverWords + extra, ' ');
  }

  datatype DiscoverArgs = DiscoverArgs(
    interface: Option<string>,
    remote: Option<string>,
    targetList: Option<string>,
    extraAttr: seq<string>)

  /** What discovery consumes from the outside world. */
  datatype DiscoverEnv = DiscoverEnv(
    currentExe: Result<string, string>,                   // path of the running program
    connect: string -> Result<SshInfo, string>,          // SshInfo::new
    pushExecutable: (SshInfo, string) -> Outcome<string>, // copy a file to `~/` on the host
    runCommand: (SshInfo, string) -> Outcome<string>,     // run a command, output streamed
    readTargetList: string -> Result<string, string>,     // a file, or standard input for "-"
    scanLocal: Option<string> -> Result<seq<string>, string>,
    fetchInParallel: (seq<string>, seq<string>) -> Result<seq<Attributes>, string>)

  datatype DiscoverOutput =
    | Delegated(host: SshInfo, command: string)
    | Discovered(candidates: seq<string>, duts: seq<Attributes>)

  /** The candidate addresses of a local discovery. */
  function Candidates(args: DiscoverArgs, env: DiscoverEnv): (r: Result<seq<string>, DutError>)
    ensures args.targetList.Some? ==>
      match env.readTargetList(args.targetList.value)
      case Err(e) => r == Err(Io(e))
      case Ok(text) => r == Ok(KeepNonBlank(Split(text, '\n')))
    ensures args.targetList.None? ==>
      (r.Ok? <==> env.scanLocal(args.interface).Ok?) &&
      (r.Ok? ==> r.value == env.scanLocal(args.interface).value)
    ensures args.targetList.None? && env.scanLocal(args.interface).Err? ==>
      r == Err(Remote(env.scanLocal(args.interface).error))
  {
    match args.targetList
    case Some(path) =>
      (match env.readTargetList(path)
       case Err(e) => Err(Io(e))
       case Ok(text) => Ok(TargetList(text)))
    case None =>
      (match env.scanLocal(args.interface)
       case Err(e) => Err(Remote(e))
       case Ok(addrs) => Ok(addrs))
  }

  /** `lium dut discover`. A remote host takes precedence: nothing is probed
      locally; the path of the running program is looked up before the
      host is resolved, then the program is copied there and run with the
      same extra attributes. Otherwise the candidates are resolved in one
      batch. */
  function RunDiscover(args: DiscoverArgs, env: DiscoverEnv): (r: Result<DiscoverOutput, DutError>)
    ensures args.remote.Some? ==>
      (r.Ok? <==>
        && env.currentExe.Ok?
        && env.connect(args.remote.value).Ok?
        && env.pushExecutable(env.connect(args.remote.value).value, env.currentExe.value).Pass?
        && env.runCommand(env.connect(args.remote.value).value, DiscoverCommand(args.extraAttr)).Pass?)
    ensures args.remote.Some? && env.currentExe.Err? ==> r == Err(Io(env.currentExe.error))
    ensures args.remote.Some? && env.currentExe.Ok? && env.connect(args.remote.value).Err? ==>
      r == Err(Remote(env.connect(args.remote.value).error))
    ensures args.remote.Some? && env.currentExe.Ok? && env.connect(args.remote.value).Ok? ==>
      var host := env.connect(args.remote.value).value;
      var push := env.pushExecutable(host, env.currentExe.value);
      var run := env.runCommand(host, DiscoverCommand(args.extraAttr));
      && (push.Fail? ==> r == Err(Remote(push.error)))
      && (push.Pass? && run.Fail? ==> r == Err(Remote(run.error)))
    ensures args.remote.Some? && r.Ok? ==>
      r.value == Delegated(env.connect(args.remote.value).value, DiscoverCommand(args.extraAttr))
    ensures args.remote.None? && r.Ok? ==>
      && r.value.Discovered?
      && Candidates(args, env) == Ok(r.value.candidates)
      && env.fetchInParallel(r.value.candidates, args.extraAttr) == Ok(r.value.duts)
    ensures args.remote.None? && Candidates(args, env).Err? ==> r == Err(Candidates(args, env).error)
    ensures (args.remote.None? && Candidates(args, env).Ok? &&
             env.fetchInParallel(Candidates(args, env).value, args.extraAttr).Ok?) ==> r.Ok?
    ensures (args.remote.None? && Candidates(args, env).Ok? &&
             env.fetchInParallel(Candidates(args, env).value, args.extraAttr).Err?) ==>
      r == Err(Remote(env.fetchInParallel(Candidates(args, env).value, args.extraAttr).error))
  {
    match args.remote
    case Some(remote) =>
      (match env.currentExe
       case Err(e) => Err(Io(e))
       case Ok(exe) =>
         match env.connect(remote)
         case Err(e) => Err(Remote(e))
         case Ok(host) =>
           match env.pushExecutable(host, exe)
           case Fail(e) => Err(Remote(e))
           case Pass =>
             var cmd := DiscoverCommand(args.extraAttr);
             match env.runCommand(host, cmd)
             case Fail(e) => Err(Remote(e))
             case Pass => Ok(Delegated(host, cmd)))
    case None =>
      match Candidates(args, env)
      case Err(e) => Err(e)
      case Ok(addrs) =>
        match env.fetchInParallel(addrs, args.extraAttr)
        case Err(e) => Err(Remote(e))
        case Ok(duts) => Ok(Discovered(addrs, duts))
  }
}
