/**
  RestartTool: the restart command table and the restart sequence.

  The adb binary is the AdbEmbedded oracle (on an initialized instance); the
  fastboot binary is a second oracle, and the path it is started from only
  appears in a message, so it is a parameter. Messages are what the tool's
  outputMessage signal carries, in order.
 */
module RestartTool {
  import opened Text
  import opened Modes
  import opened AdbEmbedded

  /** RestartTool::RestartMode, codes 0 to 5. */
  datatype RestartMode = ToSystem | ToRecovery | ToBootloader | ToFastboot | ToEdl | ToShutdown
  {
    function Code(): (c: int)
      ensures 0 <= c <= 5
    {
      match this
      case ToSystem => 0
      case ToRecovery => 1
      case ToBootloader => 2
      case ToFastboot => 3
      case ToEdl => 4
      case ToShutdown => 5
    }
  }

  const UnknownModeName := "未知模式"

  /** getModeName over the stored code: one name per enumerator, 未知模式 for anything else. */
  function ModeName(code: int): (name: string)
    ensures name == UnknownModeName <==> !(0 <= code <= 5)
  {
    if code == 0 then "正常模式"
    else if code == 1 then "恢复模式"
    else if code == 2 then "引导程序"
    else if code == 3 then "Fastboot模式"
    else if code == 4 then "EDL模式"
    else if code == 5 then "关机"
    else UnknownModeName
  }

  /** No two restart targets share a name. */
  lemma ModeNamesDistinct(t1: RestartMode, t2: RestartMode)
    requires t1 != t2
    ensures ModeName(t1.Code()) != ModeName(t2.Code())
  {
  }

  /** One outputMessage emission: the text and its error flag. */
  datatype Message = Message(text: string, isError: bool)

  function Note(text: string): Message {
    Message(text, false)
  }

  function Alarm(text: string): Message {
    Message(text, true)
  }

  // ---------------------------------------------------------------------------
  // getRestartCommand
  // ---------------------------------------------------------------------------

  /** The (current, target) pairs for which getRestartCommand has a command. */
  predicate Supported(current: DeviceMode, target: RestartMode) {
    || current == Adb
    || (current == Fastboot && target != ToEdl)
    || (current == Fastbootd && target != ToFastboot && target != ToEdl)
  }

  /** The word after `reboot` for each non-system target, in adb's reboot syntax. */
  function RebootArg(target: RestartMode): string {
    match target
    case ToSystem => ""
    case ToRecovery => "recovery"
    case ToBootloader => "bootloader"
    case ToFastboot => "fastboot"
    case ToEdl => "edl"
    case ToShutdown => "-p"
  }

  const RootedReboot := "shell su -c \"reboot "

  /** The part of an ADB command after its -s address. */
  function AdbSuffix(target: RestartMode, hasRoot: bool): string {
    if target == ToSystem then "reboot"
    else if hasRoot then RootedReboot + RebootArg(target) + "\""
    else if target == ToShutdown then "shell reboot -p"
    else "reboot " + RebootArg(target)
  }

  /** The command an ADB-mode device gets: the -s address, then the reboot request. */
  function AdbCommand(id: string, target: RestartMode, hasRoot: bool): string {
    "-s " + id + " " + AdbSuffix(target, hasRoot)
  }

  /** The fastboot verb for a target in either Fastboot flavour. */
  function FastbootVerb(target: RestartMode): string {
    match target
    case ToSystem => "reboot"
    case ToRecovery => "reboot-recovery"
    case ToBootloader => "reboot-bootloader"
    case ToFastboot => "reboot-fastboot"
    case ToEdl => ""
    case ToShutdown => "shutdown"
  }

  /**
    getRestartCommand: empty exactly for the unsupported pairs; an ADB
    command is addressed with -s to the device; a Fastboot command is a single
    word with no address.
   */
  function RestartCommand(id: string, current: DeviceMode, target: RestartMode, hasRoot: bool): (command: string)
    ensures command == "" <==> !Supported(current, target)
    ensures current == Adb ==> StartsWith(command, "-s " + id + " ")
    ensures current != Adb ==> ' ' !in command
  {
    if current == Adb then AdbCommand(id, target, hasRoot)
    else if current == Fastboot && target != ToEdl then FastbootVerb(target)
    else if current == Fastbootd && target != ToFastboot && target != ToEdl then FastbootVerb(target)
    else ""
  }

  /** The messages getRestartCommand itself emits: the two refusals to go to EDL, and Fastbootd to Fastboot. */
  function CommandNotes(current: DeviceMode, target: RestartMode): seq<Message> {
    if current == Fastboot && target == ToEdl then [Alarm("❌ 传统Fastboot模式不支持直接重启到EDL")]
    else if current == Fastbootd && target == ToFastboot then [Note("ℹ️ 设备已在Fastbootd模式")]
    else if current == Fastbootd && target == ToEdl then [Alarm("❌ Fastbootd模式不支持直接重启到EDL")]
    else []
  }

  /** Restarting an ADB device to the system never depends on root. */
  lemma SystemIgnoresRoot(id: string)
    ensures RestartCommand(id, Adb, ToSystem, true) == RestartCommand(id, Adb, ToSystem, false)
  {
  }

  /** Outside ADB mode the command depends on neither the id nor root. */
  lemma FastbootCommandUnaddressed(id1: string, id2: string, current: DeviceMode, target: RestartMode, r1: bool, r2: bool)
    requires current != Adb
    ensures RestartCommand(id1, current, target, r1) == RestartCommand(id2, current, target, r2)
  {
  }

  /** Fastboot and Fastbootd use the same verb for every target both support. */
  lemma FastbootFlavoursAgree(id: string, target: RestartMode, hasRoot: bool)
    requires Supported(Fastbootd, target)
    ensures RestartCommand(id, Fastboot, target, hasRoot) == RestartCommand(id, Fastbootd, target, hasRoot)
  {
  }

  /** Within one mode, different targets get different commands. */
  lemma CommandsDistinct(id: string, current: DeviceMode, t1: RestartMode, t2: RestartMode, hasRoot: bool)
    requires Supported(current, t1) && Supported(current, t2) && t1 != t2
    ensures RestartCommand(id, current, t1, hasRoot) != RestartCommand(id, current, t2, hasRoot)
  {
    if current == Adb {
      var p := "-s " + id + " ";
      var s1 := AdbSuffix(t1, hasRoot);
      var s2 := AdbSuffix(t2, hasRoot);
      AdbSuffixesDistinct(t1, t2, hasRoot);
      assert (p + s1)[|p|..] == s1;
      assert (p + s2)[|p|..] == s2;
    } else {
      FastbootVerbsDistinct(t1, t2);
    }
  }

  lemma FastbootVerbsDistinct(t1: RestartMode, t2: RestartMode)
    requires t1 != t2 && t1 != ToEdl && t2 != ToEdl
    ensures FastbootVerb(t1) != FastbootVerb(t2)
  {
    var v1 := FastbootVerb(t1);
    var v2 := FastbootVerb(t2);
    if |v1| == |v2| && |v1| > 7 {
      assert v1[7] != v2[7];
    }
  }

  /** Each non-system target's reboot word starts with its own character. */
  lemma RebootArgHeads(t1: RestartMode, t2: RestartMode)
    requires t1 != t2 && t1 != ToSystem && t2 != ToSystem
    ensures RebootArg(t1) != "" && RebootArg(t2) != "" && RebootArg(t1)[0] != RebootArg(t2)[0]
  {
  }

  lemma AdbSuffixesDistinct(t1: RestartMode, t2: RestartMode, hasRoot: bool)
    requires t1 != t2
    ensures AdbSuffix(t1, hasRoot) != AdbSuffix(t2, hasRoot)
  {
    var s1 := AdbSuffix(t1, hasRoot);
    var s2 := AdbSuffix(t2, hasRoot);
    if t1 == ToSystem || t2 == ToSystem {
      assert s1[0] != s2[0] || |s1| != |s2|;
    } else {
      RebootArgHeads(t1, t2);
      if hasRoot {
        assert s1[|RootedReboot|] == RebootArg(t1)[0];
        assert s2[|RootedReboot|] == RebootArg(t2)[0];
      } else if t1 == ToShutdown || t2 == ToShutdown {
        assert s1[0] != s2[0];
      } else {
        assert s1[7] == RebootArg(t1)[0];
        assert s2[7] == RebootArg(t2)[0];
      }
    }
  }

  // ---------------------------------------------------------------------------
  // checkRootPermission
  // ---------------------------------------------------------------------------

  function RootProbe(id: string): string {
    "-s " + id + " shell su -c \"echo root\""
  }

  /** checkRootPermission's answer: the probe's result mentions "root". */
  predicate HasRoot(run: Runner, id: string) {
    Contains(Exec(run, RootProbe(id)), "root")
  }

  /** The message checkRootPermission emits for its answer. */
  function RootMessage(hasRoot: bool): Message {
    if hasRoot then Note("✅ 设备具有Root权限") else Note("⚠️ 设备没有Root权限，尝试普通重启")
  }

  // ---------------------------------------------------------------------------
  // restartDevice
  // ---------------------------------------------------------------------------

  const AlreadyFastbootd := "Device already in Fastbootd mode"
  const NoCommand := ErrorPrefix + "No command generated or mode not supported"

  /** A result restartDevice reports as a failure. */
  predicate IsFailureText(result: string) {
    Contains(result, "Error") || Contains(result, "error") || Contains(result, "failed")
  }

  /** A program run by restartDevice, with its arguments. */
  datatype Call = AdbCall(args: seq<string>) | FastbootCall(args: seq<string>)

  /** The fastboot arguments: -s and the id when there is an id, then the command's words. */
  function FastbootArgs(id: string, command: string): seq<string> {
    (if id == "" then [] else ["-s", id]) + SplitArgs(command)
  }

  /** A Fastboot-mode restart runs fastboot with -s, the id and the single verb. */
  lemma FastbootArgsOf(id: string, current: DeviceMode, target: RestartMode, hasRoot: bool)
    requires current != Adb && Supported(current, target)
    ensures FastbootArgs(id, RestartCommand(id, current, target, hasRoot))
         == (if id == "" then [] else ["-s", id]) + [FastbootVerb(target)]
  {
    SplitWhole(FastbootVerb(target), ' ');
  }

  /** Arguments joined with single spaces, as QStringList::join(" "). */
  function Joined(args: seq<string>): string
    decreases |args|
  {
    if args == [] then ""
    else if |args| == 1 then args[0]
    else args[0] + " " + Joined(args[1..])
  }

  /** What the fastboot run yields: its stdout then its stderr, whatever the exit code, or a timeout error. */
  function FastbootResult(outcome: ProcessOutcome): (r: string)
    ensures outcome.TimedOut? ==> r == CommandTimeout
    ensures outcome.Finished? ==> StartsWith(r, outcome.stdout) && EndsWith(r, outcome.stderr)
  {
    if outcome.TimedOut? then CommandTimeout else outcome.stdout + outcome.stderr
  }

  /** The advice that follows a failure, chosen by the first matching symptom. */
  function FailureHints(result: string): seq<Message> {
    if Contains(result, "no permissions") then [Note("💡 建议: 检查USB调试授权或尝试重新插拔设备")]
    else if Contains(result, "device not found") then [Note("💡 建议: 设备可能已断开连接")]
    else if Contains(result, "command not found") then [Note("💡 建议: 该设备不支持此重启命令")]
    else []
  }

  /** What to expect after a command was sent, by target. */
  function TargetHints(target: RestartMode): seq<Message> {
    match target
    case ToFastboot => [Note("💡 设备将重启到Fastbootd模式 (Android 10+ 用户空间Fastboot)")]
    case ToBootloader => [Note("💡 设备将重启到Fastboot模式 (传统引导程序)")]
    case ToRecovery => [Note("💡 设备将重启到恢复模式")]
    case ToEdl => [Note("⚠️ 设备将进入EDL模式，请谨慎操作")]
    case _ => []
  }

  const FailedMessage := Alarm("❌ 重启命令执行失败")
  const SentMessage := Note("✅ 重启命令已发送")

  /** The closing messages: the failure report and its advice, or the sent report and the target's hint. */
  function Verdict(result: string, target: RestartMode): (ms: seq<Message>)
    ensures |ms| > 0
    ensures ms[0] == FailedMessage <==> IsFailureText(result)
    ensures ms[0] == SentMessage <==> !IsFailureText(result)
  {
    if IsFailureText(result) then [FailedMessage] + FailureHints(result)
    else [SentMessage] + TargetHints(target)
  }

  function StartMessage(id: string, target: RestartMode): Message {
    Note("🔄 尝试重启设备 " + id + " 到 " + ModeName(target.Code()) + " 模式...")
  }

  const UnsupportedAlarm := Alarm("❌ 无法生成重启命令或模式不支持")

  /** What one restartDevice call comes to: the returned text, the messages in order, the programs run. */
  datatype Restarted = Restarted(result: string, messages: seq<Message>, calls: seq<Call>)

  function RootProbeCall(id: string): Call {
    AdbCall(SplitArgs(RootProbe(id)))
  }

  /** Whether restartDevice stops before anything runs: a Fastbootd device asked for Fastboot. */
  predicate StaysInFastbootd(current: DeviceMode, target: RestartMode) {
    current == Fastbootd && target == ToFastboot
  }

  /** The root answer restartDevice works with: probed on an ADB device, false otherwise. */
  predicate RootFor(run: Runner, id: string, current: DeviceMode) {
    current == Adb && HasRoot(run, id)
  }

  /**
    restartDevice as a whole. A Fastbootd device asked for Fastboot stops at
    once. Root is probed for an ADB device only. Without a command the result
    is an error and nothing else runs. Otherwise the command runs through adb
    (ADB mode) or fastboot (any other mode, with -s and the id in front), the
    raw result is returned, and the closing messages classify it.
   */
  function Restart(id: string, current: DeviceMode, target: RestartMode,
                   run: Runner, fastboot: Runner, fastbootPath: string): (o: Restarted)
    ensures |o.messages| > 1 && o.messages[0] == StartMessage(id, target)
  {
    var start := [StartMessage(id, target)];
    if StaysInFastbootd(current, target) then
      Restarted(AlreadyFastbootd, start + [Note("ℹ️ 设备已在Fastbootd模式")], [])
    else
      var hasRoot := RootFor(run, id, current);
      var probe := if current == Adb then [RootProbeCall(id)] else [];
      var before := start + (if current == Adb then [RootMessage(hasRoot)] else []) + CommandNotes(current, target);
      var command := RestartCommand(id, current, target, hasRoot);
      if command == "" then
        Restarted(NoCommand, before + [UnsupportedAlarm], probe)
      else
        var ran := RunCommand(id, current, command, run, fastboot, fastbootPath);
        Restarted(ran.result, before + ran.messages + Verdict(ran.result, target), probe + ran.calls)
  }

  /**
    Running a command restartDevice generated: the notes it emits up to the
    result, the result and the one program run. ADB mode goes through adb; any
    other mode runs fastboot with -s and the id in front of the command's words.
   */
  function RunCommand(id: string, current: DeviceMode, command: string,
                      run: Runner, fastboot: Runner, fastbootPath: string): (ran: Restarted)
    ensures |ran.calls| == 1 && ran.calls[0].AdbCall? == (current == Adb)
    ensures forall k :: 0 <= k < |ran.messages| ==> !ran.messages[k].isError
  {
    if current == Adb then
      var result := Exec(run, command);
      Restarted(result, [Note("💻 执行命令: " + command), Note("📋 命令结果: " + result)],
                [AdbCall(SplitArgs(command))])
    else
      var args := FastbootArgs(id, command);
      var result := FastbootResult(fastboot(args));
      Restarted(result,
                [Note("💻 执行命令: " + command),
                 Note("执行Fastboot命令: " + fastbootPath + " " + Joined(args)),
                 Note("📋 命令结果: " + result)],
                [FastbootCall(args)])
  }

  /** The messages flagged as errors, in order. */
  function Alarms(ms: seq<Message>): (r: seq<Message>)
    ensures forall k :: 0 <= k < |r| ==> r[k].isError
    ensures |r| <= |ms|
  {
    if ms == [] then []
    else Alarms(ms[..|ms| - 1]) + (if ms[|ms| - 1].isError then [ms[|ms| - 1]] else [])
  }

  lemma {:induction false} AlarmsAppend(a: seq<Message>, b: seq<Message>)
    ensures Alarms(a + b) == Alarms(a) + Alarms(b)
    decreases |b|
  {
    if b == [] {
      assert a + b == a;
    } else {
      var c := b[..|b| - 1];
      var last := b[|b| - 1];
      var tail := if last.isError then [last] else [];
      AlarmsAppend(a, c);
      assert (a + b)[..|a + b| - 1] == a + c;
      assert (a + b)[|a + b| - 1] == last;
      calc {
        Alarms(a + b);
        Alarms(a + c) + tail;
        (Alarms(a) + Alarms(c)) + tail;
        { SeqAssoc(Alarms(a), Alarms(c), tail); }
        Alarms(a) + (Alarms(c) + tail);
        Alarms(a) + Alarms(b);
      }
    }
  }

  lemma AlarmsSingle(m: Message)
    ensures Alarms([m]) == (if m.isError then [m] else [])
  {
    assert [m][..0] == [];
  }

  /** The root probe is the first thing run exactly when the device is in ADB mode and restartDevice goes on. */
  lemma RestartProbesRootInAdbOnly(id: string, current: DeviceMode, target: RestartMode,
                                   run: Runner, fastboot: Runner, fastbootPath: string)
    ensures var o := Restart(id, current, target, run, fastboot, fastbootPath);
            |o.calls| > 0 && o.calls[0] == RootProbeCall(id) <==> current == Adb
  {
  }

  /** A Fastbootd device asked for Fastboot: nothing runs, one note, and no error. */
  lemma RestartStaysInFastbootd(id: string, run: Runner, fastboot: Runner, fastbootPath: string)
    ensures var o := Restart(id, Fastbootd, ToFastboot, run, fastboot, fastbootPath);
            o.result == AlreadyFastbootd && o.calls == [] && Alarms(o.messages) == []
  {
    var o := Restart(id, Fastbootd, ToFastboot, run, fastboot, fastbootPath);
    NoAlarms(o.messages);
  }

  /**
    A pair with no command: nothing but the root probe runs, the result is
    the no-command error and the last message is the matching alarm.
   */
  lemma RestartUnsupported(id: string, current: DeviceMode, target: RestartMode,
                           run: Runner, fastboot: Runner, fastbootPath: string)
    requires !Supported(current, target) && !StaysInFastbootd(current, target)
    ensures var o := Restart(id, current, target, run, fastboot, fastbootPath);
            && o.result == NoCommand && StartsWith(o.result, ErrorPrefix)
            && o.calls == []
            && o.messages[|o.messages| - 1] == UnsupportedAlarm
  {
    assert NoCommand[..|ErrorPrefix|] == ErrorPrefix;
  }

  /** An ADB device's command runs through adb after the root probe, and its shaped result is returned. */
  lemma RestartAdbRuns(id: string, target: RestartMode, run: Runner, fastboot: Runner, fastbootPath: string)
    ensures var o := Restart(id, Adb, target, run, fastboot, fastbootPath);
            var command := RestartCommand(id, Adb, target, HasRoot(run, id));
            o.calls == [RootProbeCall(id), AdbCall(SplitArgs(command))] && o.result == Exec(run, command)
  {
    var command := RestartCommand(id, Adb, target, HasRoot(run, id));
    assert RootFor(run, id, Adb) == HasRoot(run, id);
    RestartRuns(id, Adb, target, run, fastboot, fastbootPath);
    var ran := RunCommand(id, Adb, command, run, fastboot, fastbootPath);
    assert ran.calls == [AdbCall(SplitArgs(command))] && ran.result == Exec(run, command);
  }

  /** Once there is a command, restartDevice's result and runs are those of running it, after the root probe. */
  lemma RestartRuns(id: string, current: DeviceMode, target: RestartMode,
                    run: Runner, fastboot: Runner, fastbootPath: string)
    requires Supported(current, target) && !StaysInFastbootd(current, target)
    ensures var o := Restart(id, current, target, run, fastboot, fastbootPath);
            var ran := RunCommand(id, current, RestartCommand(id, current, target, RootFor(run, id, current)),
                                  run, fastboot, fastbootPath);
            o.result == ran.result && o.calls == (if current == Adb then [RootProbeCall(id)] else []) + ran.calls
  {
    assert RestartCommand(id, current, target, RootFor(run, id, current)) != "";
  }

  /** Any other supported pair runs fastboot once, with the address and the verb, and returns its output. */
  lemma RestartFastbootRuns(id: string, current: DeviceMode, target: RestartMode,
                            run: Runner, fastboot: Runner, fastbootPath: string)
    requires current != Adb && Supported(current, target) && !StaysInFastbootd(current, target)
    ensures var o := Restart(id, current, target, run, fastboot, fastbootPath);
            var args := (if id == "" then [] else ["-s", id]) + [FastbootVerb(target)];
            o.calls == [FastbootCall(args)] && o.result == FastbootResult(fastboot(args))
  {
    FastbootArgsOf(id, current, target, false);
  }

  /**
    Once a command was run, the only message flagged as an error is the
    failure report, and it is there exactly when the result reads as a
    failure; the messages end with the verdict on the result.
   */
  lemma RestartVerdict(id: string, current: DeviceMode, target: RestartMode,
                       run: Runner, fastboot: Runner, fastbootPath: string)
    requires Supported(current, target) && !StaysInFastbootd(current, target)
    ensures var o := Restart(id, current, target, run, fastboot, fastbootPath);
            var v := Verdict(o.result, target);
            && |o.messages| >= |v|
            && o.messages[|o.messages| - |v|..] == v
            && Alarms(o.messages) == (if IsFailureText(o.result) then [FailedMessage] else [])
  {
    var o := Restart(id, current, target, run, fastboot, fastbootPath);
    var lead := RestartLead(id, current, target, run, fastboot, fastbootPath);
    QuietLeadVerdict(lead, o.result, target);
  }

  /** Before its verdict, a restart that ran a command emits nothing flagged as an error. */
  lemma RestartLead(id: string, current: DeviceMode, target: RestartMode,
                    run: Runner, fastboot: Runner, fastbootPath: string)
    returns (lead: seq<Message>)
    requires Supported(current, target) && !StaysInFastbootd(current, target)
    ensures var o := Restart(id, current, target, run, fastboot, fastbootPath);
            Alarms(lead) == [] && o.messages == lead + Verdict(o.result, target)
  {
    var hasRoot := RootFor(run, id, current);
    var command := RestartCommand(id, current, target, hasRoot);
    assert command != "";
    var ran := RunCommand(id, current, command, run, fastboot, fastbootPath);
    var notes := CommandNotes(current, target);
    assert notes == [];
    var opening := [StartMessage(id, target)] + (if current == Adb then [RootMessage(hasRoot)] else []);
    var before := opening + notes;
    assert before == opening;
    var v := Verdict(ran.result, target);
    assert Restart(id, current, target, run, fastboot, fastbootPath).messages == before + ran.messages + v;
    QuietOpening(id, target, current, hasRoot);
    NoAlarms(ran.messages);
    AlarmsAppend(opening, ran.messages);
    lead := before + ran.messages;
  }

  /** The start message and the root report are notes, never errors. */
  lemma QuietOpening(id: string, target: RestartMode, current: DeviceMode, hasRoot: bool)
    ensures Alarms([StartMessage(id, target)] + (if current == Adb then [RootMessage(hasRoot)] else [])) == []
  {
    var opening := [StartMessage(id, target)] + (if current == Adb then [RootMessage(hasRoot)] else []);
    assert forall k :: 0 <= k < |opening| ==> !opening[k].isError;
    NoAlarms(opening);
  }

  /** Quiet messages followed by a verdict: the verdict closes them and its alarms are the only ones. */
  lemma QuietLeadVerdict(lead: seq<Message>, result: string, target: RestartMode)
    requires Alarms(lead) == []
    ensures var ms := lead + Verdict(result, target);
            && ms[|lead|..] == Verdict(result, target)
            && Alarms(ms) == (if IsFailureText(result) then [FailedMessage] else [])
  {
    var v := Verdict(result, target);
    assert (lead + v)[|lead|..] == v;
    AlarmsAppend(lead, v);
    VerdictAlarms(result, target);
  }

  lemma {:induction false} NoAlarms(ms: seq<Message>)
    requires forall k :: 0 <= k < |ms| ==> !ms[k].isError
    ensures Alarms(ms) == []
    decreases |ms|
  {
    if ms != [] {
      NoAlarms(ms[..|ms| - 1]);
    }
  }

  /** The verdict's only error-flagged message is the failure report. */
  lemma VerdictAlarms(result: string, target: RestartMode)
    ensures Alarms(Verdict(result, target)) == (if IsFailureText(result) then [FailedMessage] else [])
  {
    var hints := if IsFailureText(result) then FailureHints(result) else TargetHints(target);
    NoAlarms(hints);
    AlarmsSingle(Verdict(result, target)[0]);
    AlarmsAppend([Verdict(result, target)[0]], hints);
    assert Verdict(result, target) == [Verdict(result, target)[0]] + hints;
  }

  /** restartDevice, step by step: the messages are emitted and the programs run in the order Restart gives. */
  method RestartDevice(id: string, current: DeviceMode, target: RestartMode,
                       run: Runner, fastboot: Runner, fastbootPath: string)
    returns (result: string, messages: seq<Message>, calls: seq<Call>)
    ensures Restarted(result, messages, calls) == Restart(id, current, target, run, fastboot, fastbootPath)
  {
    messages := [StartMessage(id, target)];
    calls := [];
    if current == Fastbootd && target == ToFastboot {
      messages := messages + [Note("ℹ️ 设备已在Fastbootd模式")];
      assert Restarted(AlreadyFastbootd, messages, calls) == Restart(id, current, target, run, fastboot, fastbootPath);
      return AlreadyFastbootd, messages, calls;
    }
    var hasRoot, report, probe := ProbeRootSteps(id, current, run);
    calls := probe;
    messages := messages + report;
    ghost var before := [StartMessage(id, target)] + (if current == Adb then [RootMessage(hasRoot)] else [])
                        + CommandNotes(current, target);
    var command := RestartCommand(id, current, target, hasRoot);
    messages := messages + CommandNotes(current, target);
    assert messages == before;
    if command == "" {
      messages := messages + [UnsupportedAlarm];
      assert Restarted(NoCommand, messages, calls) == Restart(id, current, target, run, fastboot, fastbootPath);
      return NoCommand, messages, calls;
    }
    var ran: seq<Message>;
    var call: seq<Call>;
    result, ran, call := RunCommandSteps(id, current, command, run, fastboot, fastbootPath);
    calls := calls + call;
    messages := messages + ran + Verdict(result, target);
    ghost var o := Restart(id, current, target, run, fastboot, fastbootPath);
    assert Restarted(result, ran, call) == RunCommand(id, current, command, run, fastboot, fastbootPath);
    assert o.messages == before + ran + Verdict(result, target);
  }

  /** The root check of restartDevice: only an ADB device is probed, and its answer is reported. */
  method ProbeRootSteps(id: string, current: DeviceMode, run: Runner)
    returns (hasRoot: bool, messages: seq<Message>, calls: seq<Call>)
    ensures hasRoot == RootFor(run, id, current)
    ensures messages == (if current == Adb then [RootMessage(hasRoot)] else [])
    ensures calls == (if current == Adb then [RootProbeCall(id)] else [])
  {
    hasRoot := false;
    messages := [];
    calls := [];
    if current == Adb {
      calls := [RootProbeCall(id)];
      hasRoot := Contains(Exec(run, RootProbe(id)), "root");
      messages := [RootMessage(hasRoot)];
    }
  }

  /** The command-running part of restartDevice, one emission at a time. */
  method RunCommandSteps(id: string, current: DeviceMode, command: string,
                         run: Runner, fastboot: Runner, fastbootPath: string)
    returns (result: string, messages: seq<Message>, calls: seq<Call>)
    ensures Restarted(result, messages, calls) == RunCommand(id, current, command, run, fastboot, fastbootPath)
  {
    messages := [Note("💻 执行命令: " + command)];
    if current == Adb {
      calls := [AdbCall(SplitArgs(command))];
      result := Exec(run, command);
    } else {
      var args := FastbootArgs(id, command);
      calls := [FastbootCall(args)];
      messages := messages + [Note("执行Fastboot命令: " + fastbootPath + " " + Joined(args))];
      result := FastbootResult(fastboot(args));
    }
    messages := messages + [Note("📋 命令结果: " + result)];
  }
}
