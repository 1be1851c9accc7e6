/**
  DeviceDetector: one polling tick. It lists the attached devices, classifies
  and describes each listed serial, compares the result with the snapshot of
  the previous tick, emits connected / mode-changed / disconnected events and
  keeps the new snapshot.

  Every adb run goes through an initialized AdbEmbedded instance (monitoring
  only starts after initialization succeeds), so each probe is
  AdbEmbedded.Exec of the oracle. The timer that drives the ticks is left out.
 */
module DeviceDetector {
  import opened Text
  import opened Modes
  import opened DeviceRecord
  import opened AdbEmbedded

  /** The signals of the detector, in the order it emits them. */
  datatype Event =
    | Connected(info: DeviceInfo)
    | ModeChanged(serial: string, mode: DeviceMode)
    | Disconnected(serial: string)

  const ListCommand := "devices -l"
  const DevicesCommand := "devices"

  // ---------------------------------------------------------------------------
  // Reading the device listing
  // ---------------------------------------------------------------------------

  /** The lines of an adb result, empty lines dropped. */
  function Lines(output: string): seq<string> {
    Split(output, '\n')
  }

  /** A listing line names a device: it mentions "device", is not the header, and has two space-separated words. */
  predicate ListsDevice(line: string) {
    Contains(line, "device") && !StartsWith(line, "List") && |Split(line, ' ')| >= 2
  }

  /** The serial of a device line: its first space-separated word. */
  function SerialOf(line: string): (serial: string)
    requires ListsDevice(line)
    ensures serial != "" && ' ' !in serial
    ensures StartsWith(Without(line, ' '), serial)
  {
    SplitPieces(line, ' ');
    SplitConcat(line, ' ');
    var parts := Split(line, ' ');
    ConcatAppend([parts[0]], parts[1..]);
    assert parts == [parts[0]] + parts[1..];
    parts[0]
  }

  /**
    The serial is the whole first word: after the line's leading spaces it
    comes complete, and a space follows it.
   */
  lemma SerialFirstWord(line: string)
    requires ListsDevice(line)
    ensures var body := SkipLeading(line, ' ');
            StartsWith(body, SerialOf(line)) && |SerialOf(line)| < |body| && body[|SerialOf(line)|] == ' '
  {
    FirstPiece(line, ' ');
  }

  /**
    A `devices -l` line: optional leading spaces, the serial, the run of
    spaces that pads the serial column, then the state "device" and whatever
    follows it. It is a device line unless it starts with "List", and it
    yields exactly the serial.
   */
  lemma DeviceLineSerial(pad: string, serial: string, gap: string, tail: string)
    requires AllOf(pad, ' ') && AllOf(gap, ' ') && gap != []
    requires serial != "" && ' ' !in serial && !StartsWith(pad + serial, "List")
    requires StartsWith(tail, "device")
    ensures ListsDevice(pad + serial + gap + tail)
    ensures SerialOf(pad + serial + gap + tail) == serial
  {
    DeviceLine(pad, serial, gap, tail, pad + serial + gap + tail);
  }

  /** The three tests of a device line, for a line of that shape; its first word is the serial. */
  lemma DeviceLine(pad: string, serial: string, gap: string, tail: string, line: string)
    requires AllOf(pad, ' ') && AllOf(gap, ' ') && gap != []
    requires serial != "" && ' ' !in serial && !StartsWith(pad + serial, "List")
    requires StartsWith(tail, "device") && line == pad + serial + gap + tail
    ensures ListsDevice(line) && Split(line, ' ')[0] == serial
  {
    assert |Split(line, ' ')| >= 2 && Split(line, ' ')[0] == serial by {
      assert tail[0] == 'd';
      SerialWordFirst(pad, serial, gap, tail);
    }
    assert Contains(line, "device") by {
      MentionsDevice(pad + serial + gap, tail, line);
    }
    assert !StartsWith(line, "List") by {
      assert line == (pad + serial) + (gap + tail);
      NotListPrefix(pad + serial, gap + tail);
    }
  }

  /** Leading spaces, a space-free serial, spaces and a word: the split has at least two pieces and the serial comes first. */
  lemma SerialWordFirst(pad: string, serial: string, gap: string, tail: string)
    requires AllOf(pad, ' ') && AllOf(gap, ' ') && gap != []
    requires serial != "" && ' ' !in serial && tail != [] && tail[0] != ' '
    ensures Split(pad + serial + gap + tail, ' ') == [serial] + Split(tail, ' ')
    ensures |Split(tail, ' ')| >= 1
  {
    var word := serial + gap + tail;
    assert pad + serial + gap + tail == pad + word;
    SplitLeadingSeps(pad, word, ' ');
    SplitTokenGap(serial, gap, tail, ' ');
    SplitHasPiece(tail);
  }

  /** A line that ends with a text starting with "device" mentions "device". */
  lemma MentionsDevice(head: string, tail: string, line: string)
    requires StartsWith(tail, "device") && line == head + tail
    ensures Contains(line, "device")
  {
    StartsWithContains(tail, "device");
    ContainsPrepend(head, tail, "device");
  }

  /** A text that does not start with "List" keeps not doing so when a space-led text follows it. */
  lemma NotListPrefix(a: string, b: string)
    requires !StartsWith(a, "List") && b != [] && b[0] == ' '
    ensures !StartsWith(a + b, "List")
  {
    if |a| >= 4 {
      assert (a + b)[..4] == a[..4];
    } else if |a + b| >= 4 {
      assert (a + b)[..4][|a|] == ' ';
    }
  }

  /** A text that starts with a letter splits into at least one word. */
  lemma SplitHasPiece(s: string)
    requires s != [] && s[0] != ' '
    ensures |Split(s, ' ')| >= 1
  {
    SplitConcat(s, ' ');
    WithoutAppend([s[0]], s[1..], ' ');
    assert s == [s[0]] + s[1..];
  }

  // ---------------------------------------------------------------------------
  // Classifying and describing one serial
  // ---------------------------------------------------------------------------

  /** The SDK-version probe addressed to a serial. */
  function SdkProbe(serial: string): string {
    "-s " + serial + " shell getprop ro.build.version.sdk"
  }

  /** detectEDLMode: a stub that never detects anything. */
  function DetectEdl(): bool {
    false
  }

  /** detectMTKDAMode: a stub that never detects anything. */
  function DetectMtkDa(): bool {
    false
  }

  /**
    detectDeviceMode: ADB when the SDK probe's result has no "Error" in it;
    otherwise Fastboot when the `devices` output mentions both the serial and
    "fastboot"; otherwise (the EDL and MTK probes being stubs) Unknown.
   */
  function DetectMode(run: Runner, serial: string): (m: DeviceMode)
    ensures m == Adb <==> !Contains(Exec(run, SdkProbe(serial)), "Error")
    ensures m == Fastboot <==> Contains(Exec(run, SdkProbe(serial)), "Error")
                                && Contains(Exec(run, DevicesCommand), serial)
                                && Contains(Exec(run, DevicesCommand), "fastboot")
    ensures m == Adb || m == Fastboot || m == Unknown
  {
    if !Contains(Exec(run, SdkProbe(serial)), "Error") then Adb
    else if Contains(Exec(run, DevicesCommand), serial) && Contains(Exec(run, DevicesCommand), "fastboot") then Fastboot
    else if DetectEdl() then Edl9008
    else if DetectMtkDa() then MtkDa
    else Unknown
  }

  /** A probe that times out or exits non-zero never classifies a device as ADB. */
  lemma FailedProbeNotAdb(run: Runner, serial: string)
    requires Failed(run(SplitArgs(SdkProbe(serial))))
    ensures DetectMode(run, serial) != Adb
  {
    StartsWithContains(Exec(run, SdkProbe(serial)), "Error");
    assert StartsWith(Exec(run, SdkProbe(serial)), "Error") by {
      assert Exec(run, SdkProbe(serial))[..5] == ErrorPrefix[..5];
    }
  }

  function ImeiCommand(serial: string): string {
    "-s " + serial + " shell service call iphonesubinfo 1 | awk -F \"'\" '{print $2}' | sed '1 d' | tr -d '.' | awk '{print $1}'"
  }

  function CpuCommand(serial: string): string {
    "-s " + serial + " shell cat /proc/cpuinfo | grep -i processor | wc -l"
  }

  function MemCommand(serial: string): string {
    "-s " + serial + " shell cat /proc/meminfo | grep MemTotal"
  }

  /** The fields that only a Fastboot report or later code would fill: getDeviceInfo never sets them. */
  predicate NoExtraText(d: DeviceInfo) {
    && d.meid == "" && d.simState == "" && d.networkType == "" && d.bluetoothMac == ""
    && d.storageSize == "" && d.screenResolution == "" && d.batteryHealth == ""
    && d.bootloaderVersion == "" && d.basebandVersion == "" && d.productName == ""
    && d.variant == "" && d.hwVersion == "" && d.selinuxStatus == ""
    && !d.isBootloaderUnlocked && !d.isFastbootdMode && !d.isRooted
  }

  /**
    getDeviceInfo: a default record carrying the serial and the mode; only an
    ADB device gets its descriptive fields, from getprop and three shell
    probes, and then its CPU field ends in " cores".
   */
  function BuildInfo(run: Runner, serial: string, mode: DeviceMode): (d: DeviceInfo)
    ensures d.serialNumber == serial && d.mode == mode
    ensures NoExtraText(d)
    ensures mode != Adb ==> d == Default().(serialNumber := serial, mode := mode)
    ensures mode == Adb ==> d.cpuInfo == Trim(Exec(run, CpuCommand(serial))) + " cores" && EndsWith(d.cpuInfo, " cores")
    ensures mode == Adb ==>
              && d.manufacturer == DeviceProp(run, serial, "ro.product.manufacturer")
              && d.model == DeviceProp(run, serial, "ro.product.model")
              && d.deviceName == DeviceProp(run, serial, "ro.product.device")
              && d.androidVersion == DeviceProp(run, serial, "ro.build.version.release")
              && d.buildNumber == DeviceProp(run, serial, "ro.build.display.id")
              && d.wifiMac == DeviceProp(run, serial, "ro.boot.wifimacaddr")
              && d.imei == Trim(Exec(run, ImeiCommand(serial)))
              && d.ramSize == Trim(Exec(run, MemCommand(serial)))
  {
    var base := Default().(serialNumber := serial, mode := mode);
    if mode != Adb then base
    else
      var cpu := Trim(Exec(run, CpuCommand(serial))) + " cores";
      assert cpu[|cpu| - 6..] == " cores";
      base.(manufacturer := DeviceProp(run, serial, "ro.product.manufacturer"),
            model := DeviceProp(run, serial, "ro.product.model"),
            deviceName := DeviceProp(run, serial, "ro.product.device"),
            androidVersion := DeviceProp(run, serial, "ro.build.version.release"),
            buildNumber := DeviceProp(run, serial, "ro.build.display.id"),
            imei := Trim(Exec(run, ImeiCommand(serial))),
            wifiMac := DeviceProp(run, serial, "ro.boot.wifimacaddr"),
            cpuInfo := cpu,
            ramSize := Trim(Exec(run, MemCommand(serial))))
  }

  /** The record a tick builds for a listed serial. */
  function Probe(run: Runner, serial: string): (d: DeviceInfo)
    ensures d.serialNumber == serial
    ensures d.mode == Adb || d.mode == Fastboot || d.mode == Unknown
  {
    BuildInfo(run, serial, DetectMode(run, serial))
  }

  // ---------------------------------------------------------------------------
  // The tick, specified line by line
  // ---------------------------------------------------------------------------

  /** How a tick describes a listed serial; with a fixed oracle this is ProbeOf(run). */
  type Prober = string -> DeviceInfo

  /** The record a tick builds for a listed serial. */
  function ProbeOf(run: Runner): (probe: Prober)
    ensures KeepsSerial(probe)
  {
    serial => Probe(run, serial)
  }

  /** Every record a prober builds carries the serial it was built for. */
  ghost predicate KeepsSerial(probe: Prober) {
    forall serial :: probe(serial).serialNumber == serial
  }

  /** The listing a tick reads. */
  function Listing(run: Runner): seq<string> {
    Lines(Exec(run, ListCommand))
  }

  /** Some line of the listing names `serial`. */
  predicate Listed(lines: seq<string>, serial: string) {
    exists k :: 0 <= k < |lines| && ListsDevice(lines[k]) && SerialOf(lines[k]) == serial
  }

  /** The map newDevices after the given lines: each device line (re)binds its serial. */
  function Scan(probe: Prober, lines: seq<string>): map<string, DeviceInfo>
    decreases |lines|
  {
    if lines == [] then map[]
    else
      var m := Scan(probe, lines[..|lines| - 1]);
      var line := lines[|lines| - 1];
      if ListsDevice(line) then m[SerialOf(line) := probe(SerialOf(line))] else m
  }

  /** The event (if any) one listing line emits, judged against the previous snapshot. */
  function ArrivalOf(prev: map<string, DeviceInfo>, probe: Prober, line: string): seq<Event> {
    if !ListsDevice(line) then []
    else
      var serial := SerialOf(line);
      var info := probe(serial);
      if serial !in prev then [Connected(info)]
      else if prev[serial].mode != info.mode then [ModeChanged(serial, info.mode)]
      else []
  }

  /** The events of the listing loop, line by line. */
  function Arrivals(prev: map<string, DeviceInfo>, probe: Prober, lines: seq<string>): seq<Event>
    decreases |lines|
  {
    if lines == [] then []
    else Arrivals(prev, probe, lines[..|lines| - 1]) + ArrivalOf(prev, probe, lines[|lines| - 1])
  }

  /** The events of the disconnect loop over the previous keys, in the given order. */
  function Departures(keys: seq<string>, next: map<string, DeviceInfo>): seq<Event>
    decreases |keys|
  {
    if keys == [] then []
    else
      var k := keys[|keys| - 1];
      Departures(keys[..|keys| - 1], next) + (if k in next then [] else [Disconnected(k)])
  }

  /** Everything one tick emits: the listing loop's events, then the disconnects in key order. */
  function TickEvents(prev: map<string, DeviceInfo>, run: Runner): seq<Event> {
    var lines := Listing(run);
    Arrivals(prev, ProbeOf(run), lines) + Departures(SortedKeys(prev.Keys), Scan(ProbeOf(run), lines))
  }

  /** The snapshot a tick keeps. */
  function Snapshot(run: Runner): map<string, DeviceInfo> {
    Scan(ProbeOf(run), Listing(run))
  }

  // ---------------------------------------------------------------------------
  // The detector object
  // ---------------------------------------------------------------------------

  class Detector {
    /** m_currentDevices: the snapshot of the previous tick. */
    var current: map<string, DeviceInfo>

    constructor()
      ensures current == map[]
    {
      current := map[];
    }

    /**
      detectConnectedDevices: the emitted events are TickEvents of the old
      snapshot, and the new snapshot is the freshly built map.
     */
    method Tick(run: Runner) returns (emitted: seq<Event>)
      modifies this
      ensures emitted == TickEvents(old(current), run)
      ensures current == Snapshot(run)
    {
      var lines := Listing(run);
      var next, arrivals := ScanListing(run, current, lines);
      var departures := Disconnects(SortedKeys(current.Keys), next);
      emitted := arrivals + departures;
      current := next;
    }
  }

  /**
    The listing loop of detectConnectedDevices: classify and describe each
    device line's serial, bind it in the new map, and emit connected or
    mode-changed against the previous snapshot.
   */
  method ScanListing(run: Runner, prev: map<string, DeviceInfo>, lines: seq<string>)
    returns (next: map<string, DeviceInfo>, emitted: seq<Event>)
    ensures next == Scan(ProbeOf(run), lines)
    ensures emitted == Arrivals(prev, ProbeOf(run), lines)
  {
    next := map[];
    emitted := [];
    var i := 0;
    while i < |lines|
      invariant 0 <= i <= |lines|
      invariant next == Scan(ProbeOf(run), lines[..i])
      invariant emitted == Arrivals(prev, ProbeOf(run), lines[..i])
    {
      var line := lines[i];
      var listed, serial, info, step := ReadLine(run, prev, line);
      ScanSnoc(ProbeOf(run), prev, lines, i);
      if listed {
        next := next[serial := info];
      }
      emitted := emitted + step;
      i := i + 1;
    }
    assert lines[..i] == lines;
  }

  /** One more line extends the scan map and the arrival events by that line's share. */
  lemma ScanSnoc(probe: Prober, prev: map<string, DeviceInfo>, lines: seq<string>, i: int)
    requires 0 <= i < |lines|
    ensures Scan(probe, lines[..i + 1])
         == (if ListsDevice(lines[i]) then Scan(probe, lines[..i])[SerialOf(lines[i]) := probe(SerialOf(lines[i]))]
             else Scan(probe, lines[..i]))
    ensures Arrivals(prev, probe, lines[..i + 1]) == Arrivals(prev, probe, lines[..i]) + ArrivalOf(prev, probe, lines[i])
  {
    assert lines[..i + 1][..i] == lines[..i];
    assert lines[..i + 1][i] == lines[i];
  }

  /**
    One pass of the listing loop: a device line's serial is classified and
    described, and the line's event is judged against the previous snapshot.
   */
  method ReadLine(run: Runner, prev: map<string, DeviceInfo>, line: string)
    returns (listed: bool, serial: string, info: DeviceInfo, step: seq<Event>)
    ensures listed == ListsDevice(line)
    ensures listed ==> serial == SerialOf(line) && info == ProbeOf(run)(serial)
    ensures step == ArrivalOf(prev, ProbeOf(run), line)
  {
    listed, serial, info, step := ListsDevice(line), "", Default(), [];
    if listed {
      serial := SerialOf(line);
      var mode := DetectMode(run, serial);
      info := BuildInfo(run, serial, mode);
      assert info == ProbeOf(run)(serial);
      if serial !in prev {
        step := [Connected(info)];
      } else if prev[serial].mode != mode {
        step := [ModeChanged(serial, mode)];
      }
    }
  }

  /** The disconnect loop of detectConnectedDevices: every previous key missing from the new map, in key order. */
  method Disconnects(keys: seq<string>, next: map<string, DeviceInfo>) returns (emitted: seq<Event>)
    ensures emitted == Departures(keys, next)
  {
    emitted := [];
    var j := 0;
    while j < |keys|
      invariant 0 <= j <= |keys|
      invariant emitted == Departures(keys[..j], next)
    {
      assert keys[..j + 1][..j] == keys[..j];
      if keys[j] !in next {
        emitted := emitted + [Disconnected(keys[j])];
      }
      j := j + 1;
    }
    assert keys[..j] == keys;
  }

  // ---------------------------------------------------------------------------
  // What a tick promises
  // ---------------------------------------------------------------------------

  /** A serial is listed by some lines when the earlier lines list it or the last line names it. */
  lemma ListedSnoc(lines: seq<string>, serial: string)
    requires lines != []
    ensures Listed(lines, serial)
        <==> Listed(lines[..|lines| - 1], serial)
             || (ListsDevice(lines[|lines| - 1]) && SerialOf(lines[|lines| - 1]) == serial)
  {
    var init := lines[..|lines| - 1];
    if Listed(lines, serial) {
      var k :| 0 <= k < |lines| && ListsDevice(lines[k]) && SerialOf(lines[k]) == serial;
      if k < |init| {
        assert init[k] == lines[k];
      }
    }
    if Listed(init, serial) {
      var k :| 0 <= k < |init| && ListsDevice(init[k]) && SerialOf(init[k]) == serial;
      assert lines[k] == init[k];
    }
  }

  /**
    The new snapshot holds exactly the listed serials, each bound to the record
    built for it: a serial listed twice keeps the record of its last line,
    which the oracle makes the same record.
   */
  lemma {:induction false} ScanContents(probe: Prober, lines: seq<string>, serial: string)
    ensures serial in Scan(probe, lines) <==> Listed(lines, serial)
    ensures serial in Scan(probe, lines) ==> Scan(probe, lines)[serial] == probe(serial)
    decreases |lines|
  {
    if lines != [] {
      ScanContents(probe, lines[..|lines| - 1], serial);
      ListedSnoc(lines, serial);
    }
  }

  /** The listing loop never emits a disconnect. */
  lemma {:induction false} ArrivalsNoDisconnect(prev: map<string, DeviceInfo>, probe: Prober, lines: seq<string>)
    ensures forall e :: e in Arrivals(prev, probe, lines) ==> !e.Disconnected?
    decreases |lines|
  {
    if lines != [] {
      ArrivalsNoDisconnect(prev, probe, lines[..|lines| - 1]);
    }
  }

  /**
    The listing loop announces a record as connected exactly when it is the
    record of a listed serial that the previous snapshot lacks.
   */
  lemma {:induction false} ArrivalsConnected(prev: map<string, DeviceInfo>, probe: Prober, lines: seq<string>,
                                             info: DeviceInfo)
    requires KeepsSerial(probe)
    ensures Connected(info) in Arrivals(prev, probe, lines)
        <==> Listed(lines, info.serialNumber) && info.serialNumber !in prev && info == probe(info.serialNumber)
    decreases |lines|
  {
    if lines != [] {
      ArrivalsConnected(prev, probe, lines[..|lines| - 1], info);
      ListedSnoc(lines, info.serialNumber);
    }
  }

  /**
    The listing loop reports a mode change exactly for a listed serial that the
    previous snapshot holds under a different mode, and carries the new mode.
   */
  lemma {:induction false} ArrivalsModeChanged(prev: map<string, DeviceInfo>, probe: Prober, lines: seq<string>,
                                               serial: string, mode: DeviceMode)
    ensures ModeChanged(serial, mode) in Arrivals(prev, probe, lines)
        <==> Listed(lines, serial) && serial in prev && mode == probe(serial).mode && prev[serial].mode != mode
    decreases |lines|
  {
    if lines != [] {
      ArrivalsModeChanged(prev, probe, lines[..|lines| - 1], serial, mode);
      ListedSnoc(lines, serial);
    }
  }

  /** The disconnect loop emits only disconnects, exactly for the keys missing from the new map. */
  lemma {:induction false} DeparturesExact(keys: seq<string>, next: map<string, DeviceInfo>, e: Event)
    ensures e in Departures(keys, next) ==> e.Disconnected?
    ensures e.Disconnected? ==> (e in Departures(keys, next) <==> e.serial in keys && e.serial !in next)
    decreases |keys|
  {
    if keys != [] {
      var init := keys[..|keys| - 1];
      DeparturesExact(init, next, e);
      assert keys == init + [keys[|keys| - 1]];
    }
  }

  /** Connected fires exactly for the listed serials missing from the previous snapshot, with their new record. */
  lemma TickConnected(prev: map<string, DeviceInfo>, run: Runner, info: DeviceInfo)
    ensures Connected(info) in TickEvents(prev, run)
        <==> info.serialNumber in Snapshot(run) && info.serialNumber !in prev
             && info == Snapshot(run)[info.serialNumber]
  {
    var lines := Listing(run);
    var probe := ProbeOf(run);
    ArrivalsConnected(prev, probe, lines, info);
    DeparturesExact(SortedKeys(prev.Keys), Scan(probe, lines), Connected(info));
    ScanContents(probe, lines, info.serialNumber);
  }

  /** Mode-changed fires exactly for serials in both snapshots whose mode differs, and carries the new mode. */
  lemma TickModeChanged(prev: map<string, DeviceInfo>, run: Runner, serial: string, mode: DeviceMode)
    ensures ModeChanged(serial, mode) in TickEvents(prev, run)
        <==> serial in prev && serial in Snapshot(run)
             && mode == Snapshot(run)[serial].mode && prev[serial].mode != mode
  {
    ModeChangedIn(prev, ProbeOf(run), Listing(run), serial, mode);
  }

  /** The mode-changed events of a tick, for any probe and listing. */
  lemma ModeChangedIn(prev: map<string, DeviceInfo>, probe: Prober, lines: seq<string>, serial: string, mode: DeviceMode)
    ensures var next := Scan(probe, lines);
            ModeChanged(serial, mode) in Arrivals(prev, probe, lines) + Departures(SortedKeys(prev.Keys), next)
            <==> serial in prev && serial in next && mode == next[serial].mode && prev[serial].mode != mode
  {
    ArrivalsModeChanged(prev, probe, lines, serial, mode);
    DeparturesExact(SortedKeys(prev.Keys), Scan(probe, lines), ModeChanged(serial, mode));
    ScanContents(probe, lines, serial);
  }

  /** Disconnected fires exactly for the previous serials missing from the new snapshot. */
  lemma TickDisconnected(prev: map<string, DeviceInfo>, run: Runner, serial: string)
    ensures Disconnected(serial) in TickEvents(prev, run)
        <==> serial in prev && serial !in Snapshot(run)
  {
    var lines := Listing(run);
    var probe := ProbeOf(run);
    ArrivalsNoDisconnect(prev, probe, lines);
    DeparturesExact(SortedKeys(prev.Keys), Scan(probe, lines), Disconnected(serial));
  }

  /** Every disconnect comes after every connect and mode change of the same tick. */
  lemma TickDisconnectsLast(prev: map<string, DeviceInfo>, run: Runner)
    ensures forall i, j :: 0 <= i < j < |TickEvents(prev, run)| && TickEvents(prev, run)[i].Disconnected?
              ==> TickEvents(prev, run)[j].Disconnected?
  {
    var lines := Listing(run);
    var probe := ProbeOf(run);
    var a := Arrivals(prev, probe, lines);
    var d := Departures(SortedKeys(prev.Keys), Scan(probe, lines));
    ArrivalsNoDisconnect(prev, probe, lines);
    forall k | 0 <= k < |d|
      ensures d[k].Disconnected?
    {
      DeparturesExact(SortedKeys(prev.Keys), Scan(probe, lines), d[k]);
    }
    OrderedConcat(a, d);
  }

  /** Events without disconnects followed by disconnects only: no disconnect precedes another kind. */
  lemma OrderedConcat(a: seq<Event>, d: seq<Event>)
    requires forall e :: e in a ==> !e.Disconnected?
    requires forall k :: 0 <= k < |d| ==> d[k].Disconnected?
    ensures forall i, j :: 0 <= i < j < |a + d| && (a + d)[i].Disconnected? ==> (a + d)[j].Disconnected?
  {
    forall k | 0 <= k < |a|
      ensures !(a + d)[k].Disconnected?
    {
      assert (a + d)[k] == a[k];
      assert a[k] in a;
    }
    forall k | |a| <= k < |a + d|
      ensures (a + d)[k].Disconnected?
    {
      assert (a + d)[k] == d[k - |a|];
    }
  }

  /** No listed serial differs from the snapshot: the listing loop is silent. */
  lemma {:induction false} ArrivalsQuiet(prev: map<string, DeviceInfo>, probe: Prober, lines: seq<string>)
    requires forall k :: 0 <= k < |lines| && ListsDevice(lines[k]) ==>
               SerialOf(lines[k]) in prev && prev[SerialOf(lines[k])].mode == probe(SerialOf(lines[k])).mode
    ensures Arrivals(prev, probe, lines) == []
    decreases |lines|
  {
    if lines != [] {
      var init := lines[..|lines| - 1];
      assert forall k :: 0 <= k < |init| ==> init[k] == lines[k];
      ArrivalsQuiet(prev, probe, init);
    }
  }

  /** No previous key is missing: the disconnect loop is silent. */
  lemma {:induction false} DeparturesQuiet(keys: seq<string>, next: map<string, DeviceInfo>)
    requires forall k :: k in keys ==> k in next
    ensures Departures(keys, next) == []
    decreases |keys|
  {
    if keys != [] {
      DeparturesQuiet(keys[..|keys| - 1], next);
    }
  }

  /** A second tick over the same listing and the same probe results emits nothing. */
  lemma TickIdempotent(run: Runner)
    ensures TickEvents(Snapshot(run), run) == []
  {
    var lines := Listing(run);
    var probe := ProbeOf(run);
    var snap := Scan(probe, lines);
    forall k | 0 <= k < |lines| && ListsDevice(lines[k])
      ensures SerialOf(lines[k]) in snap && snap[SerialOf(lines[k])].mode == probe(SerialOf(lines[k])).mode
    {
      ScanContents(probe, lines, SerialOf(lines[k]));
    }
    ArrivalsQuiet(snap, probe, lines);
    DeparturesQuiet(SortedKeys(snap.Keys), snap);
  }

  /** Every record in a snapshot is in ADB, Fastboot or Unknown mode: the tick never reports Fastbootd, EDL or MTK. */
  lemma SnapshotModes(run: Runner, serial: string)
    requires serial in Snapshot(run)
    ensures Snapshot(run)[serial].mode in {Adb, Fastboot, Unknown}
  {
    ScanContents(ProbeOf(run), Listing(run), serial);
  }

  // ---------------------------------------------------------------------------
  // detectADBDevices / detectFastbootDevices
  // ---------------------------------------------------------------------------

  /** The serial in front of the first tab of a line, trimmed. */
  function TabSerial(line: string): (serial: string)
    ensures IsTrimmed(serial) && '\t' !in serial
  {
    var head := BeforeFirst(line, '\t');
    TrimInside(head);
    Trim(head)
  }

  /** Trimming takes nothing out of the middle: a character absent from a text is absent from its trimmed form. */
  lemma TrimInside(s: string)
    ensures forall c :: c !in s ==> c !in Trim(s)
  {
    var i :| PaddedAt(s, Trim(s), i);
    forall k | 0 <= k < |Trim(s)|
      ensures Trim(s)[k] in s
    {
      assert Trim(s)[k] == s[i..i + |Trim(s)|][k] == s[i + k];
    }
  }

  /** The usual `devices` line: a serial, a tab and the state. */
  lemma TabSerialOf(serial: string, state: string)
    requires IsTrimmed(serial) && '\t' !in serial
    ensures TabSerial(serial + "\t" + state) == serial
  {
    var line := serial + "\t" + state;
    IndexOfFirstAt(line, serial);
    assert BeforeFirst(line, '\t') == serial;
    TrimmedFixed(serial);
  }

  lemma IndexOfFirstAt(line: string, serial: string)
    requires '\t' !in serial && StartsWith(line, serial + "\t")
    ensures IndexOf(line, '\t') == |serial|
  {
    assert line[..|serial|] == serial;
    assert line[|serial|] == '\t';
    IndexOfFirst(line, '\t', |serial|);
  }

  /** The lines of the plain `devices` listing. */
  function DevicesListing(run: Runner): seq<string> {
    Lines(Exec(run, DevicesCommand))
  }

  /** The serials detectADBDevices appends, line by line. */
  function AdbSerials(lines: seq<string>): seq<string>
    decreases |lines|
  {
    if lines == [] then []
    else
      AdbSerials(lines[..|lines| - 1]) + AdbLineSerial(lines[|lines| - 1])
  }

  /** What one line of the adb listing contributes: its serial, when the line names a device and the serial is not empty. */
  function AdbLineSerial(line: string): seq<string>
  {
    var serial := TabSerial(line);
    if Contains(line, "device") && !StartsWith(line, "List") && serial != "" then [serial] else []
  }

  /** The serials detectFastbootDevices appends, line by line. */
  function FastbootSerials(lines: seq<string>): seq<string>
    decreases |lines|
  {
    if lines == [] then []
    else
      FastbootSerials(lines[..|lines| - 1]) + FastbootLineSerial(lines[|lines| - 1])
  }

  /** What one line of the fastboot listing contributes: its serial, when that is not empty. */
  function FastbootLineSerial(line: string): seq<string>
  {
    var serial := TabSerial(line);
    if serial != "" then [serial] else []
  }

  /** What a device list may hold after detection: a non-empty serial, trimmed and free of tabs. */
  predicate CleanSerial(serial: string) {
    serial != "" && IsTrimmed(serial) && '\t' !in serial
  }

  /** Every serial detectADBDevices appends is clean. */
  lemma {:induction false} AdbSerialsClean(lines: seq<string>)
    ensures forall k :: 0 <= k < |AdbSerials(lines)| ==> CleanSerial(AdbSerials(lines)[k])
    decreases |lines|
  {
    if lines != [] {
      var init := lines[..|lines| - 1];
      AdbSerialsClean(init);
      CleanAppend(AdbSerials(init), AdbLineSerial(lines[|lines| - 1]));
    }
  }

  /** Every serial detectFastbootDevices appends is clean. */
  lemma {:induction false} FastbootSerialsClean(lines: seq<string>)
    ensures forall k :: 0 <= k < |FastbootSerials(lines)| ==> CleanSerial(FastbootSerials(lines)[k])
    decreases |lines|
  {
    if lines != [] {
      var init := lines[..|lines| - 1];
      FastbootSerialsClean(init);
      CleanAppend(FastbootSerials(init), FastbootLineSerial(lines[|lines| - 1]));
    }
  }

  lemma CleanAppend(a: seq<string>, b: seq<string>)
    requires forall k :: 0 <= k < |a| ==> CleanSerial(a[k])
    requires forall k :: 0 <= k < |b| ==> CleanSerial(b[k])
    ensures forall k :: 0 <= k < |a + b| ==> CleanSerial((a + b)[k])
  {
    forall k | 0 <= k < |a + b|
      ensures CleanSerial((a + b)[k])
    {
      if k < |a| {
        assert (a + b)[k] == a[k];
      } else {
        assert (a + b)[k] == b[k - |a|];
      }
    }
  }

  /** An empty line has no serial. */
  lemma EmptyLineNoSerial()
    ensures TabSerial("") == ""
  {
    assert BeforeFirst("", '\t') == "";
    assert AllSpace("");
  }

  /**
    detectADBDevices: appends the serial of each line that mentions "device"
    and is not the header, skipping empty serials; answers whether the whole
    list, including what the caller put in it, is non-empty.
   */
  method DetectAdbDevices(run: Runner, devices: seq<string>) returns (found: bool, result: seq<string>)
    ensures result == devices + AdbSerials(DevicesListing(run))
    ensures found <==> result != []
  {
    result := AppendAdbSerials(devices, DevicesListing(run));
    found := result != [];
  }

  /** The loop of detectADBDevices over the listing lines. */
  method AppendAdbSerials(devices: seq<string>, lines: seq<string>) returns (result: seq<string>)
    ensures result == devices + AdbSerials(lines)
  {
    result := devices;
    var i := 0;
    while i < |lines|
      invariant 0 <= i <= |lines|
      invariant result == devices + AdbSerials(lines[..i])
    {
      ghost var done := AdbSerials(lines[..i]);
      var extra := ReadAdbLine(lines[i]);
      result := result + extra;
      AdbSerialsSnoc(lines, i);
      SeqAssoc(devices, done, extra);
      assert result == devices + AdbSerials(lines[..i + 1]);
      i := i + 1;
    }
    assert lines[..i] == lines;
  }

  /** One pass of detectADBDevices' loop: the serial a line adds to the list, if any. */
  method ReadAdbLine(line: string) returns (extra: seq<string>)
    ensures extra == AdbLineSerial(line)
  {
    extra := [];
    if Contains(line, "device") && !StartsWith(line, "List") {
      var serial := TabSerial(line);
      if serial != "" {
        extra := [serial];
      }
    }
  }

  /** One more line extends the adb serial list by what that line contributes. */
  lemma AdbSerialsSnoc(lines: seq<string>, i: int)
    requires 0 <= i < |lines|
    ensures AdbSerials(lines[..i + 1]) == AdbSerials(lines[..i]) + AdbLineSerial(lines[i])
  {
    assert lines[..i + 1][..i] == lines[..i];
    assert lines[..i + 1][i] == lines[i];
  }

  /** One more line extends the fastboot serial list by that line's serial, if it has one. */
  lemma FastbootSerialsSnoc(lines: seq<string>, i: int)
    requires 0 <= i < |lines|
    ensures FastbootSerials(lines[..i + 1]) == FastbootSerials(lines[..i]) + FastbootLineSerial(lines[i])
  {
    assert lines[..i + 1][..i] == lines[..i];
    assert lines[..i + 1][i] == lines[i];
  }

  /**
    detectFastbootDevices: a fastboot run that does not finish in time leaves
    the list alone and answers false; otherwise every line's serial is
    appended (empty ones skipped) and the answer is whether the list is
    non-empty.
   */
  method DetectFastbootDevices(fastboot: Runner, devices: seq<string>) returns (found: bool, result: seq<string>)
    ensures fastboot([DevicesCommand]).TimedOut? ==> !found && result == devices
    ensures fastboot([DevicesCommand]).Finished? ==>
              result == devices + FastbootSerials(Lines(fastboot([DevicesCommand]).stdout))
              && (found <==> result != [])
  {
    var outcome := fastboot([DevicesCommand]);
    if outcome.TimedOut? {
      return false, devices;
    }
    result := AppendFastbootSerials(devices, Lines(outcome.stdout));
    found := result != [];
  }

  /** One pass of detectFastbootDevices' loop: the serial a non-empty line adds to the list, if any. */
  method ReadFastbootLine(line: string) returns (extra: seq<string>)
    ensures extra == FastbootLineSerial(line)
  {
    extra := [];
    if line == "" {
      EmptyLineNoSerial();
    }
    if line != "" {
      var serial := TabSerial(line);
      if serial != "" {
        extra := [serial];
      }
    }
  }

  /** The loop of detectFastbootDevices over the output lines. */
  method AppendFastbootSerials(devices: seq<string>, lines: seq<string>) returns (result: seq<string>)
    ensures result == devices + FastbootSerials(lines)
  {
    result := devices;
    var i := 0;
    while i < |lines|
      invariant 0 <= i <= |lines|
      invariant result == devices + FastbootSerials(lines[..i])
    {
      ghost var done := FastbootSerials(lines[..i]);
      var extra := ReadFastbootLine(lines[i]);
      result := result + extra;
      FastbootSerialsSnoc(lines, i);
      SeqAssoc(devices, done, extra);
      assert result == devices + FastbootSerials(lines[..i + 1]);
      i := i + 1;
    }
    assert lines[..i] == lines;
  }
}
