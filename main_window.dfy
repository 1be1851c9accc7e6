/**
  MainWindow: the window's mirror of the connected devices, kept up to date
  by the detector's signals, and what it hands on to the tool panel, the
  device information panel and the output panel.

  The widgets are abstracted: the tool panel is represented by the map last
  passed to its updateDeviceList, the information panel by the record it shows
  (or nothing), and the output panel by the lines appended to it.
 */
module MainWindow {
  import opened Modes
  import opened DeviceRecord
  import opened AdbEmbedded
  import opened DeviceDetector
  import opened Text

  // ---------------------------------------------------------------------------
  // The mirror map under each signal
  // ---------------------------------------------------------------------------

  /** onDeviceConnected: the record is stored under its serial, replacing any earlier one. */
  function Connect(devices: map<string, DeviceInfo>, info: DeviceInfo): (r: map<string, DeviceInfo>)
    ensures r.Keys == devices.Keys + {info.serialNumber}
    ensures r[info.serialNumber] == info
    ensures forall k :: k in devices && k != info.serialNumber ==> r[k] == devices[k]
  {
    devices[info.serialNumber := info]
  }

  /** onDeviceDisconnected: a known serial is dropped; an unknown one changes nothing. */
  function Disconnect(devices: map<string, DeviceInfo>, serial: string): (r: map<string, DeviceInfo>)
    ensures r.Keys == devices.Keys - {serial}
    ensures forall k :: k in r ==> r[k] == devices[k]
  {
    if serial in devices then devices - {serial} else devices
  }

  /** onDeviceModeChanged: only the mode of a known serial changes; an unknown serial changes nothing. */
  function ChangeMode(devices: map<string, DeviceInfo>, serial: string, mode: DeviceMode): (r: map<string, DeviceInfo>)
    ensures r.Keys == devices.Keys
    ensures serial in devices ==> r[serial] == devices[serial].(mode := mode)
    ensures forall k :: k in devices && k != serial ==> r[k] == devices[k]
  {
    if serial in devices then devices[serial := devices[serial].(mode := mode)] else devices
  }

  /** The mirror after one detector event. */
  function Apply(devices: map<string, DeviceInfo>, e: Event): map<string, DeviceInfo> {
    match e
    case Connected(info) => Connect(devices, info)
    case ModeChanged(serial, mode) => ChangeMode(devices, serial, mode)
    case Disconnected(serial) => Disconnect(devices, serial)
  }

  /** The mirror after a run of events, taken in emission order. */
  function ApplyAll(devices: map<string, DeviceInfo>, events: seq<Event>): map<string, DeviceInfo>
    decreases |events|
  {
    if events == [] then devices
    else Apply(ApplyAll(devices, events[..|events| - 1]), events[|events| - 1])
  }

  lemma {:induction false} ApplyAllAppend(devices: map<string, DeviceInfo>, a: seq<Event>, b: seq<Event>)
    ensures ApplyAll(devices, a + b) == ApplyAll(ApplyAll(devices, a), b)
    decreases |b|
  {
    if b == [] {
      assert a + b == a;
    } else {
      ApplyAllAppend(devices, a, b[..|b| - 1]);
      assert (a + b)[..|a + b| - 1] == a + b[..|b| - 1];
    }
  }

  // ---------------------------------------------------------------------------
  // The mirror follows the detector
  // ---------------------------------------------------------------------------

  lemma ApplyOne(devices: map<string, DeviceInfo>, e: Event)
    ensures ApplyAll(devices, [e]) == Apply(devices, e)
  {
    assert [e][..0] == [];
  }

  /**
    The window's table `t` agrees with the detector's stored map `d`: the same
    serials, each in the same mode. The other fields may differ, because a
    mode change rewrites only the mode of the window's record while the
    detector stores a freshly probed one.
   */
  predicate SameModes(t: map<string, DeviceInfo>, d: map<string, DeviceInfo>) {
    && t.Keys == d.Keys
    && (forall k :: k in t && k in d ==> t[k].mode == d[k].mode)
  }

  /**
    The mirror `m`, which started as the table `t`, after the listing loop
    read the lines that built `scan` against the detector's previous map
    `prev`: every serial listed so far is present with the mode the probe
    reports (with the whole probed record if it is new), and every other
    earlier serial keeps the table's record.
   */
  predicate Mirrors(prev: map<string, DeviceInfo>, t: map<string, DeviceInfo>, probe: Prober,
                    m: map<string, DeviceInfo>, scan: map<string, DeviceInfo>) {
    && m.Keys == prev.Keys + scan.Keys
    && (forall k :: k in scan ==> m[k].mode == probe(k).mode)
    && (forall k :: k in scan && k !in prev ==> m[k] == probe(k))
    && (forall k :: k in prev && k !in scan && k in t ==> m[k] == t[k])
  }

  /** One listing line's event keeps the mirror in step with the map being built. */
  lemma ArrivalStep(prev: map<string, DeviceInfo>, t: map<string, DeviceInfo>, probe: Prober,
                    m: map<string, DeviceInfo>, scan: map<string, DeviceInfo>, line: string)
    requires KeepsSerial(probe) && SameModes(t, prev) && Mirrors(prev, t, probe, m, scan)
    ensures Mirrors(prev, t, probe, ApplyAll(m, ArrivalOf(prev, probe, line)),
                    if ListsDevice(line) then scan[SerialOf(line) := probe(SerialOf(line))] else scan)
  {
    if ListsDevice(line) {
      var s := SerialOf(line);
      if s !in prev {
        ApplyOne(m, Connected(probe(s)));
        ConnectStep(prev, t, probe, m, scan, s);
      } else if prev[s].mode != probe(s).mode {
        ApplyOne(m, ModeChanged(s, probe(s).mode));
        ModeChangeStep(prev, t, probe, m, scan, s);
      } else {
        QuietStep(prev, t, probe, m, scan, s);
      }
    } else {
      assert ArrivalOf(prev, probe, line) == [];
    }
  }

  lemma ConnectStep(prev: map<string, DeviceInfo>, t: map<string, DeviceInfo>, probe: Prober,
                    m: map<string, DeviceInfo>, scan: map<string, DeviceInfo>, s: string)
    requires KeepsSerial(probe) && Mirrors(prev, t, probe, m, scan) && s !in prev
    ensures Mirrors(prev, t, probe, Connect(m, probe(s)), scan[s := probe(s)])
  {
    assert probe(s).serialNumber == s;
    assert Connect(m, probe(s)).Keys == prev.Keys + scan[s := probe(s)].Keys;
    ConnectModes(prev, t, probe, m, scan, s);
    ConnectKept(prev, t, probe, m, scan, s);
  }

  /** After a connection, every listed serial shows the probed mode, and new serials the probed record. */
  lemma ConnectModes(prev: map<string, DeviceInfo>, t: map<string, DeviceInfo>, probe: Prober,
                     m: map<string, DeviceInfo>, scan: map<string, DeviceInfo>, s: string)
    requires KeepsSerial(probe) && Mirrors(prev, t, probe, m, scan) && s !in prev
    ensures var m2 := Connect(m, probe(s));
            && (forall k :: k in scan[s := probe(s)] ==> m2[k].mode == probe(k).mode)
            && (forall k :: k in scan[s := probe(s)] && k !in prev ==> m2[k] == probe(k))
  {
    assert probe(s).serialNumber == s;
  }

  /** After a connection, earlier serials not listed yet keep the table's records. */
  lemma ConnectKept(prev: map<string, DeviceInfo>, t: map<string, DeviceInfo>, probe: Prober,
                    m: map<string, DeviceInfo>, scan: map<string, DeviceInfo>, s: string)
    requires KeepsSerial(probe) && Mirrors(prev, t, probe, m, scan) && s !in prev
    ensures var m2 := Connect(m, probe(s));
            forall k :: k in prev && k !in scan[s := probe(s)] && k in t ==> m2[k] == t[k]
  {
    assert probe(s).serialNumber == s;
  }

  lemma ModeChangeStep(prev: map<string, DeviceInfo>, t: map<string, DeviceInfo>, probe: Prober,
                       m: map<string, DeviceInfo>, scan: map<string, DeviceInfo>, s: string)
    requires Mirrors(prev, t, probe, m, scan) && s in prev
    ensures Mirrors(prev, t, probe, ChangeMode(m, s, probe(s).mode), scan[s := probe(s)])
  {
    var m2 := ChangeMode(m, s, probe(s).mode);
    var scan2 := scan[s := probe(s)];
    assert s in m;
    assert m2.Keys == prev.Keys + scan2.Keys;
    ModeChangeModes(prev, t, probe, m, scan, s);
    ModeChangeKept(prev, t, probe, m, scan, s);
  }

  /** After a mode change, every listed serial shows the probed mode, and new serials the probed record. */
  lemma ModeChangeModes(prev: map<string, DeviceInfo>, t: map<string, DeviceInfo>, probe: Prober,
                        m: map<string, DeviceInfo>, scan: map<string, DeviceInfo>, s: string)
    requires Mirrors(prev, t, probe, m, scan) && s in prev
    ensures var m2 := ChangeMode(m, s, probe(s).mode);
            && (forall k :: k in scan[s := probe(s)] ==> m2[k].mode == probe(k).mode)
            && (forall k :: k in scan[s := probe(s)] && k !in prev ==> m2[k] == probe(k))
  {
    var m2 := ChangeMode(m, s, probe(s).mode);
    forall k | k in scan && k != s
      ensures m2[k] == m[k]
    {
    }
  }

  /** After a mode change, earlier serials not listed yet keep the table's records. */
  lemma ModeChangeKept(prev: map<string, DeviceInfo>, t: map<string, DeviceInfo>, probe: Prober,
                       m: map<string, DeviceInfo>, scan: map<string, DeviceInfo>, s: string)
    requires Mirrors(prev, t, probe, m, scan) && s in prev
    ensures var m2 := ChangeMode(m, s, probe(s).mode);
            forall k :: k in prev && k !in scan[s := probe(s)] && k in t ==> m2[k] == t[k]
  {
  }

  /**
    A known serial whose mode the detector finds unchanged: no event, and the
    table already shows the probed mode, from its agreement with `prev`.
   */
  lemma QuietStep(prev: map<string, DeviceInfo>, t: map<string, DeviceInfo>, probe: Prober,
                  m: map<string, DeviceInfo>, scan: map<string, DeviceInfo>, s: string)
    requires SameModes(t, prev) && Mirrors(prev, t, probe, m, scan)
    requires s in prev && prev[s].mode == probe(s).mode
    ensures Mirrors(prev, t, probe, m, scan[s := probe(s)])
  {
    if s !in scan {
      assert s in t && m[s] == t[s];
    }
  }

  /** The mirror after the listing loop's events, against the map the loop builds. */
  lemma {:induction false} ArrivalsMirror(prev: map<string, DeviceInfo>, t: map<string, DeviceInfo>,
                                          probe: Prober, lines: seq<string>)
    requires KeepsSerial(probe) && SameModes(t, prev)
    ensures Mirrors(prev, t, probe, ApplyAll(t, Arrivals(prev, probe, lines)), Scan(probe, lines))
    decreases |lines|
  {
    if lines == [] {
      assert Mirrors(prev, t, probe, t, map[]);
    } else {
      var init := lines[..|lines| - 1];
      var line := lines[|lines| - 1];
      ArrivalsMirror(prev, t, probe, init);
      ApplyAllAppend(t, Arrivals(prev, probe, init), ArrivalOf(prev, probe, line));
      ArrivalStep(prev, t, probe, ApplyAll(t, Arrivals(prev, probe, init)), Scan(probe, init), line);
    }
  }

  /** The disconnect loop's events drop exactly the given keys missing from the new snapshot, and touch no record. */
  lemma {:induction false} DeparturesMirror(m: map<string, DeviceInfo>, keys: seq<string>, next: map<string, DeviceInfo>)
    ensures var r := ApplyAll(m, Departures(keys, next));
            && (forall k :: k in r <==> k in m && (k !in keys || k in next))
            && (forall k :: k in r ==> r[k] == m[k])
    decreases |keys|
  {
    if keys != [] {
      var init := keys[..|keys| - 1];
      var last := keys[|keys| - 1];
      DeparturesMirror(m, init, next);
      var r0 := ApplyAll(m, Departures(init, next));
      var d := if last in next then [] else [Disconnected(last)];
      assert Departures(keys, next) == Departures(init, next) + d;
      ApplyAllAppend(m, Departures(init, next), d);
      if d != [] {
        ApplyOne(r0, Disconnected(last));
      }
      assert forall j :: j in keys <==> j in init || j == last by {
        assert keys == init + [last];
      }
    }
  }

  /**
    The listing loop's events and then the disconnects, for any prober and
    listing, applied to any table that agrees with the detector's previous map.
   */
  lemma MirrorAfter(prev: map<string, DeviceInfo>, t: map<string, DeviceInfo>, probe: Prober, lines: seq<string>)
    requires KeepsSerial(probe) && SameModes(t, prev)
    ensures var snap := Scan(probe, lines);
            var after := ApplyAll(t, Arrivals(prev, probe, lines) + Departures(SortedKeys(prev.Keys), snap));
            && SameModes(after, snap)
            && (forall k :: k in snap && k !in prev ==> after[k] == snap[k])
  {
    var snap := Scan(probe, lines);
    var a := Arrivals(prev, probe, lines);
    var keys := SortedKeys(prev.Keys);
    ArrivalsMirror(prev, t, probe, lines);
    ApplyAllAppend(t, a, Departures(keys, snap));
    forall k | k in snap
      ensures snap[k] == probe(k)
    {
      ScanContents(probe, lines, k);
    }
    SettleDepartures(prev, t, probe, ApplyAll(t, a), snap, keys);
  }

  /** The disconnects, applied to a mirror in step with the new map, leave exactly the new map's keys and modes. */
  lemma SettleDepartures(prev: map<string, DeviceInfo>, t: map<string, DeviceInfo>, probe: Prober,
                         m: map<string, DeviceInfo>, snap: map<string, DeviceInfo>, keys: seq<string>)
    requires Mirrors(prev, t, probe, m, snap)
    requires forall k :: k in snap ==> snap[k] == probe(k)
    requires forall k :: k in keys <==> k in prev
    ensures var after := ApplyAll(m, Departures(keys, snap));
            && SameModes(after, snap)
            && (forall k :: k in snap && k !in prev ==> after[k] == snap[k])
  {
    DeparturesMirror(m, keys, snap);
    var after := ApplyAll(m, Departures(keys, snap));
    assert after.Keys == snap.Keys;
  }

  /**
    One poll: a window table that agrees with the detector's stored map on
    serials and modes still agrees with the detector's new map after the
    poll's events are applied in emission order, and a newly connected
    serial gets the detector's whole record.
   */
  lemma MirrorFollowsTick(prev: map<string, DeviceInfo>, t: map<string, DeviceInfo>, run: Runner)
    requires SameModes(t, prev)
    ensures var after := ApplyAll(t, TickEvents(prev, run));
            var snap := Snapshot(run);
            && SameModes(after, snap)
            && (forall k :: k in snap && k !in prev ==> after[k] == snap[k])
  {
    MirrorAfter(prev, t, ProbeOf(run), Listing(run));
  }

  /** The window's table after a sequence of polls, each fed its own events. */
  function Follow(t: map<string, DeviceInfo>, prev: map<string, DeviceInfo>, runs: seq<Runner>): map<string, DeviceInfo>
    decreases |runs|
  {
    if runs == [] then t
    else Follow(ApplyAll(t, TickEvents(prev, runs[0])), Snapshot(runs[0]), runs[1..])
  }

  /** The detector's stored map after a sequence of polls. */
  function Stored(prev: map<string, DeviceInfo>, runs: seq<Runner>): map<string, DeviceInfo> {
    if runs == [] then prev else Snapshot(runs[|runs| - 1])
  }

  /**
    Poll after poll, the window's table keeps the detector's serials and
    modes, starting from both empty or from any agreeing pair.
   */
  lemma {:induction false} MirrorFollowsPolls(t: map<string, DeviceInfo>, prev: map<string, DeviceInfo>, runs: seq<Runner>)
    requires SameModes(t, prev)
    ensures SameModes(Follow(t, prev, runs), Stored(prev, runs))
    decreases |runs|
  {
    if runs != [] {
      MirrorFollowsTick(prev, t, runs[0]);
      MirrorFollowsPolls(ApplyAll(t, TickEvents(prev, runs[0])), Snapshot(runs[0]), runs[1..]);
      if |runs| > 1 {
        assert runs[1..][|runs[1..]| - 1] == runs[|runs| - 1];
      }
    }
  }

  // ---------------------------------------------------------------------------
  // Labels and panel updates
  // ---------------------------------------------------------------------------

  /** The mode label of the connect message. */
  function ConnectLabel(mode: DeviceMode): string {
    match mode
    case Adb => "ADB"
    case Fastboot => "Fastboot"
    case Fastbootd => "Fastbootd"
    case Edl9008 => "EDL 9008"
    case MtkDa => "MTK DA"
    case _ => "未知"
  }

  /** The mode label of the mode-change message, which knows fewer modes. */
  function ChangeLabel(mode: DeviceMode): string {
    match mode
    case Adb => "ADB"
    case Fastboot => "Fastboot"
    case Fastbootd => "Fastbootd"
    case _ => "未知"
  }

  /** The two labels agree except on EDL 9008 and MTK DA, which the mode-change message calls 未知. */
  lemma LabelsDiffer(mode: DeviceMode)
    ensures ConnectLabel(mode) == ChangeLabel(mode) <==> mode !in {Edl9008, MtkDa}
    ensures mode in {Edl9008, MtkDa} ==> ChangeLabel(mode) == "未知"
  {
  }

  function ConnectedLine(info: DeviceInfo): string {
    "🔗 设备已连接: " + info.serialNumber + " (" + info.model + ") - " + ConnectLabel(info.mode)
  }

  function DisconnectedLine(serial: string): string {
    "❌ 设备已断开: " + serial
  }

  function ModeChangedLine(serial: string, mode: DeviceMode): string {
    "🔄 设备模式改变: " + serial + " -> " + ChangeLabel(mode)
  }

  /** The first output line: the embedded adb tool's initialization verdict. */
  function StartupLine(adbReady: bool): string {
    if adbReady then "✅ ADB 初始化成功" else "❌ 无法初始化嵌入式ADB工具"
  }

  const StartedLine := "🚀 Phone Toolbox 已启动"

  /** What the device information panel shows: nothing (cleared), or one record. */
  datatype Panel = Blank | Showing(info: DeviceInfo)

  /** onDeviceSelectionChanged: an empty or unknown id clears the panel, a known id shows its record. */
  function SelectionView(devices: map<string, DeviceInfo>, deviceId: string): (p: Panel)
    ensures p == Blank <==> deviceId == "" || deviceId !in devices
    ensures p.Showing? ==> deviceId in devices && p.info == devices[deviceId]
  {
    if deviceId == "" || deviceId !in devices then Blank else Showing(devices[deviceId])
  }

  /**
    The window's state: the mirror map, the map the tool panel was last given,
    the information panel and the output panel's lines.
   */
  class Window {
    var devices: map<string, DeviceInfo>
    var listed: map<string, DeviceInfo>
    var panel: Panel
    var log: seq<string>

    /** The tool panel always lists the mirror. */
    predicate Valid()
      reads this
    {
      listed == devices
    }

    /**
      The window's start-up: `adbReady` is what the embedded tool's
      initialization returned. The output panel opens with the initialization
      verdict and then the start-up line.
     */
    constructor(adbReady: bool)
      ensures Valid() && devices == map[] && panel == Blank
      ensures log == [StartupLine(adbReady), StartedLine]
    {
      devices := map[];
      listed := map[];
      panel := Blank;
      log := [StartupLine(adbReady), StartedLine];
    }

    method OnDeviceConnected(info: DeviceInfo)
      requires Valid()
      modifies this
      ensures Valid()
      ensures devices == Connect(old(devices), info)
      ensures log == old(log) + [ConnectedLine(info)]
      ensures panel == old(panel)
    {
      devices := devices[info.serialNumber := info];
      listed := devices;
      log := log + [ConnectedLine(info)];
    }

    method OnDeviceDisconnected(serial: string)
      requires Valid()
      modifies this
      ensures Valid()
      ensures devices == Disconnect(old(devices), serial)
      ensures log == old(log) + (if serial in old(devices) then [DisconnectedLine(serial)] else [])
      ensures panel == old(panel)
    {
      if serial in devices {
        log := log + [DisconnectedLine(serial)];
        devices := devices - {serial};
        listed := devices;
      }
    }

    /**
      onDeviceModeChanged; `selected` is what the tool panel's
      getSelectedDevice returns. The information panel is refreshed only when
      the changed serial is the selected one.
     */
    method OnDeviceModeChanged(serial: string, mode: DeviceMode, selected: string)
      requires Valid()
      modifies this
      ensures Valid()
      ensures devices == ChangeMode(old(devices), serial, mode)
      ensures log == old(log) + (if serial in old(devices) then [ModeChangedLine(serial, mode)] else [])
      ensures panel == (if serial in old(devices) && selected == serial then Showing(devices[serial]) else old(panel))
    {
      if serial in devices {
        devices := devices[serial := devices[serial].(mode := mode)];
        listed := devices;
        log := log + [ModeChangedLine(serial, mode)];
        if selected == serial {
          panel := Showing(devices[serial]);
        }
      }
    }

    method OnDeviceSelectionChanged(deviceId: string)
      modifies this
      ensures panel == SelectionView(devices, deviceId)
      ensures devices == old(devices) && listed == old(listed) && log == old(log)
    {
      if deviceId == "" || deviceId !in devices {
        panel := Blank;
      } else {
        panel := Showing(devices[deviceId]);
      }
    }

  }
}
