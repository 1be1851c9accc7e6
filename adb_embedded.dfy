/**
  AdbEmbedded: running the bundled adb binary and shaping what it printed into
  one result string.

  The binary itself (its extraction, the temporary directory, the process and
  its wait) is not modelled: a run is an oracle from the argument list to a
  ProcessOutcome, and whether extraction succeeds is a parameter.
 */
module AdbEmbedded {
  import opened Text

  /** What a run of the binary came to: no exit within the timeout, or an exit code and both streams. */
  datatype ProcessOutcome = TimedOut | Finished(exitCode: int, stdout: string, stderr: string)

  /** The binary as an oracle: the same arguments always produce the same outcome. */
  type Runner = seq<string> -> ProcessOutcome

  const NotInitialized := "Error: ADB not initialized"
  const CommandTimeout := "Error: Command timeout"
  const ErrorPrefix := "Error: "

  /** A run that did not end normally: it timed out, or it exited with a non-zero code. */
  predicate Failed(outcome: ProcessOutcome) {
    outcome.TimedOut? || outcome.exitCode != 0
  }

  /**
    The argument list of a command: the command split on single spaces with the
    empty parts dropped. Every argument is non-empty and space-free, and laid end
    to end they give back the command without its spaces; quotes get no
    special treatment.
   */
  function SplitArgs(command: string): (args: seq<string>)
    ensures forall k :: 0 <= k < |args| ==> args[k] != "" && ' ' !in args[k]
    ensures Concat(args) == Without(command, ' ')
  {
    SplitPieces(command, ' ');
    SplitConcat(command, ' ');
    Split(command, ' ')
  }

  /** Words laid out with a space after each one. */
  function Spaced(words: seq<string>): string {
    if words == [] then "" else words[0] + " " + Spaced(words[1..])
  }

  /** Splitting words that were laid out with spaces gives back the words. */
  lemma {:induction false} SplitArgsSpaced(words: seq<string>)
    requires forall k :: 0 <= k < |words| ==> words[k] != "" && ' ' !in words[k]
    ensures SplitArgs(Spaced(words)) == words
  {
    if words != [] {
      var tail := Spaced(words[1..]);
      SplitArgsSpaced(words[1..]);
      assert Spaced(words) == words[0] + [' '] + tail;
      SplitToken(words[0], ' ', tail);
      assert words == [words[0]] + words[1..];
    }
  }

  /**
    The result string of a finished or timed-out run: a timeout and a non-zero
    exit are reported as errors (the latter carrying stderr verbatim), an
    empty stdout as "Success", anything else as stdout with its surrounding
    white space cut off.
   */
  function Shape(outcome: ProcessOutcome): (r: string)
    ensures Failed(outcome) ==> StartsWith(r, ErrorPrefix)
    ensures outcome.Finished? && outcome.exitCode != 0 ==> r[|ErrorPrefix|..] == outcome.stderr
    ensures outcome.TimedOut? ==> r == CommandTimeout
    ensures !Failed(outcome) ==> (r == "Success" <==> outcome.stdout == [] || Trim(outcome.stdout) == "Success")
    ensures !Failed(outcome) && outcome.stdout != [] ==> IsTrimmed(r) && exists i :: PaddedAt(outcome.stdout, r, i)
  {
    match outcome
    case TimedOut => CommandTimeout
    case Finished(code, out, err) =>
      if code != 0 then ErrorPrefix + err
      else if out == [] then "Success"
      else Trim(out)
  }

  /** A successful run whose stdout is only white space yields the empty string, not "Success". */
  lemma BlankOutputIsEmpty(out: string)
    requires out != [] && AllSpace(out)
    ensures Shape(Finished(0, out, "")) == ""
  {
  }

  /** What executeCommand returns on an initialized instance. */
  function Exec(run: Runner, command: string): (r: string)
    ensures Failed(run(SplitArgs(command))) ==> StartsWith(r, ErrorPrefix)
  {
    Shape(run(SplitArgs(command)))
  }

  /** The getprop command for a property, addressed to one serial unless the serial is empty. */
  function GetPropCommand(serial: string, prop: string): (command: string)
    ensures serial == "" ==> StartsWith(command, "shell getprop ")
    ensures serial != "" ==> StartsWith(command, "-s " + serial + " ")
  {
    if serial == "" then "shell getprop " + prop
    else "-s " + serial + " shell getprop " + prop
  }

  /** What getDeviceInfo returns on an initialized instance: the getprop result, trimmed. */
  function DeviceProp(run: Runner, serial: string, prop: string): (r: string)
    ensures IsTrimmed(r)
    ensures Failed(run(SplitArgs(GetPropCommand(serial, prop)))) ==> StartsWith(r, "Error")
  {
    var raw := Exec(run, GetPropCommand(serial, prop));
    TrimKeepsError(raw);
    Trim(raw)
  }

  /** A space-free serial and property become the arguments -s serial shell getprop prop (the first two only for a serial). */
  lemma GetPropArgs(serial: string, prop: string)
    requires ' ' !in serial && prop != "" && ' ' !in prop
    ensures SplitArgs(GetPropCommand(serial, prop))
         == (if serial == "" then [] else ["-s", serial]) + ["shell", "getprop", prop]
  {
    var words := (if serial == "" then [] else ["-s", serial]) + ["shell", "getprop", prop];
    var command := GetPropCommand(serial, prop);
    GetPropSpaced(serial, prop);
    assert Spaced(words) == command + " ";
    assert forall k :: 0 <= k < |words| ==> words[k] != "" && ' ' !in words[k];
    SplitArgsSpaced(words);
    TrailingSpace(command);
  }

  /** The getprop command is its words laid out with a space after each, but for the last space. */
  lemma GetPropSpaced(serial: string, prop: string)
    ensures Spaced((if serial == "" then [] else ["-s", serial]) + ["shell", "getprop", prop])
         == GetPropCommand(serial, prop) + " "
  {
    var last := ["shell", "getprop", prop];
    assert Spaced(last) == "shell getprop " + prop + " " by {
      SpacedCons("shell", ["getprop", prop]);
      SpacedCons("getprop", [prop]);
      SpacedCons(prop, []);
      assert Spaced([prop]) == prop + " ";
      assert Spaced(["getprop", prop]) == "getprop " + prop + " ";
    }
    if serial != "" {
      var words := ["-s", serial] + last;
      SpacedCons("-s", [serial] + last);
      SpacedCons(serial, last);
      assert words == ["-s"] + ([serial] + last);
      var head := "-s " + serial;
      var tail := "shell getprop " + prop;
      assert Spaced(words) == (head + " ") + (tail + " ");
      assert " " + "shell getprop " == " shell getprop ";
      calc {
        (head + " ") + (tail + " ");
        { SeqAssoc(head, " ", tail + " "); }
        head + (" " + (tail + " "));
        { SeqAssoc(" ", tail, " "); SeqAssoc(" ", "shell getprop ", prop); }
        head + ((" shell getprop " + prop) + " ");
        { SeqAssoc(head, " shell getprop " + prop, " "); SeqAssoc(head, " shell getprop ", prop); }
        ((head + " shell getprop ") + prop) + " ";
        GetPropCommand(serial, prop) + " ";
      }
    } else {
      assert [] + last == last;
      assert Spaced(last) == GetPropCommand(serial, prop) + " ";
    }
  }

  lemma SpacedCons(w: string, rest: seq<string>)
    ensures Spaced([w] + rest) == w + " " + Spaced(rest)
  {
    assert ([w] + rest)[1..] == rest;
  }

  /** A trailing space adds no argument. */
  lemma TrailingSpace(command: string)
    ensures SplitArgs(command + " ") == SplitArgs(command)
  {
    SplitTrailing(command, ' ');
  }

  /** Cutting white space off a result that starts with an error keeps it starting with "Error". */
  lemma TrimKeepsError(s: string)
    ensures StartsWith(s, ErrorPrefix) ==> StartsWith(Trim(s), "Error")
  {
    if !StartsWith(s, ErrorPrefix) {
      return;
    }
    var t := TrimStart(s);
    assert t == s;
    var r := TrimEnd(s);
    forall j | |r| <= j < |s|
      ensures IsSpace(s[j])
    {
      assert s[j] == s[|r|..][j - |r|];
    }
    assert !IsSpace(s[4]);
  }

  /** AdbEmbedded's initialization flag; the rest of the instance (paths, temporary directory) is I/O. */
  class Adb {
    var initialized: bool

    constructor()
      ensures !initialized
    {
      initialized := false;
    }

    /**
      initialize(): true straight away once initialized; otherwise the outcome
      of extracting the tools, and only a successful extraction sets the flag.
     */
    method Initialize(extracts: bool) returns (ok: bool)
      modifies this
      ensures old(initialized) ==> ok && initialized
      ensures !old(initialized) ==> ok == extracts && initialized == extracts
      ensures ok == initialized
    {
      if initialized {
        return true;
      }
      if !extracts {
        return false;
      }
      initialized := true;
      ok := true;
    }

    /**
      executeCommand(): an instance that is not initialized and fails to
      initialize reports so; otherwise the run's shaped result.
     */
    method ExecuteCommand(command: string, extracts: bool, run: Runner) returns (r: string)
      modifies this
      ensures initialized == (old(initialized) || extracts)
      ensures initialized ==> r == Exec(run, command)
      ensures !initialized ==> r == NotInitialized
    {
      if !initialized {
        var ok := Initialize(extracts);
        if !ok {
          return NotInitialized;
        }
      }
      r := Exec(run, command);
    }

    /** getDeviceInfo(): the getprop command's result, trimmed. */
    method GetDeviceInfo(serial: string, prop: string, extracts: bool, run: Runner) returns (r: string)
      modifies this
      ensures initialized == (old(initialized) || extracts)
      ensures initialized ==> r == DeviceProp(run, serial, prop)
      ensures !initialized ==> r == Trim(NotInitialized)
    {
      r := ExecuteCommand(GetPropCommand(serial, prop), extracts, run);
      r := Trim(r);
    }
  }
}
