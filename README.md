# PhoneToolbox device layer, modelled in Dafny

PhoneToolbox is a Qt desktop tool for Android phones. It ships its own copy of
`adb` and `fastboot`, and it polls for attached devices, decides what mode each
one is in (ADB, Fastboot, Fastbootd, EDL 9008, MTK DA), reads a record of
properties from each device, and restarts a device into another mode. The model
covers this core:

- the mode enumeration and the device record: its map form and its two text renderings;
- the embedded `adb` command runner;
- the device detector's poll, which diffs one listing against the last one and emits
  connected, mode-changed and disconnected events;
- the restart tool: command choice, root probe, fastboot invocation and the messages it reports;
- the main window's device table, kept in step with the detector's events. Poll after poll it holds the detector's serials, each in the detector's mode. A record whose mode changed keeps its other fields as first seen, while the detector stores a freshly probed record;
- the tool panel's device list, its selection and its restart button;
- the device information panel's label texts and its extra-row bookkeeping.

Running a program is an oracle, `Runner = seq<string> -> ProcessOutcome`. It maps the
argument vector to a timeout or to an exit code with the standard output and error.
An `adb` command is `Exec(run, command)`: the command is split on spaces, and the
outcome is shaped as `AdbEmbedded::executeCommand` shapes it.

`QMap` iterates in key order. The model writes that order out as `Text.SortedKeys`
and uses it where order is observable: the order of disconnect events and the order
of items in the list.

Modules, one per source file, plus `Text` for the string operations the source borrows from `QString`:

| file | module | source |
|---|---|---|
| `text.dfy` | `Text` | `QString` operations: split with empty parts skipped, `trimmed`, `contains`, key order |
| `modes.dfy` | `Modes` | `src/core/device_detector.h` |
| `device_info.dfy` | `DeviceRecord` | `src/core/device_info.cpp` |
| `adb_embedded.dfy` | `AdbEmbedded` | `src/core/adb_embedded.cpp` |
| `device_detector.dfy` | `DeviceDetector` | `src/core/device_detector.cpp` |
| `restart_tool.dfy` | `RestartTool` | `src/core/restart_tool.cpp` |
| `main_window.dfy` | `MainWindow` | `src/ui/main_window.cpp` |
| `tool_panel.dfy` | `ToolPanel` | `src/ui/tool_panel.cpp` |
| `device_info_panel.dfy` | `DeviceInfoPanel` | `src/ui/device_info_panel.cpp` |

The header declares the modes Unknown = 0 through Recovery = 5. Every switch in the
source also names a Fastbootd mode that the header does not declare. The model gives
Fastbootd the next free code, 6.

## Model

| member | source | states |
|---|---|---|
| Modes.DeviceMode.Code | src/core/device_detector.h:15-22 | every mode is stored as a code from 0 to 6 |
| Modes.ModeOfCode | src/core/device_detector.h:15-22 | a code from 0 to 6 reads back as the mode with that code; any other code reads as Unknown, as the `default` branches treat it |
| Modes.CodeRoundTrip | src/core/device_detector.h:15-22 | storing a mode as its code and reading it back gives the same mode |
| Modes.CodeInjective | src/core/device_detector.h:15-22 | no two modes share a code |
| DeviceRecord.Default | src/core/device_info.cpp:4-10 | a new record has every text field empty, the three flags false and mode code 0 |
| DeviceRecord.Values | src/core/device_info.cpp:12-54 | the record yields one value per map key |
| DeviceRecord.ToMap | src/core/device_info.cpp:12-54 | the map's keys are exactly the 27 field names |
| DeviceRecord.MapKeysDistinct | src/core/device_info.cpp:12-54 | the 27 key names are pairwise distinct |
| DeviceRecord.ToMapSize | src/core/device_info.cpp:12-54 | the map has 27 entries: no field overwrites another |
| DeviceRecord.ToMapAt | src/core/device_info.cpp:17-51 | each key maps to its own field's value |
| DeviceRecord.FromToMap | src/core/device_info.cpp:12-54 | the record can be read back from its map unchanged: the map loses nothing |
| DeviceRecord.RunModeText | src/core/device_info.cpp:77-95 | the run-mode line reads Fastbootd exactly when the Fastbootd flag is set, otherwise 传统Fastboot |
| DeviceRecord.LockText | src/core/device_info.cpp:77-95 | the lock line reads 已解锁 exactly when the bootloader is unlocked, otherwise 已锁定 |
| DeviceRecord.HeadersDiffer | src/core/device_info.cpp:56-95 | the fastboot and ADB renderings of a record always differ |
| DeviceRecord.ToTextDelegates | src/core/device_info.cpp:56-60 | `toString` gives the fastboot rendering exactly when the mode code is 2 or 3 |
| DeviceRecord.SplitUnlines | src/core/device_info.cpp:77-95 | splitting newline-terminated single lines at newlines gives those lines back |
| DeviceRecord.FastbootTextLines | src/core/device_info.cpp:77-95 | when its fields hold no newline, the fastboot rendering splits into the header and one line per field |
| DeviceRecord.FastbootLinesPlain | src/core/device_info.cpp:77-95 | those lines are non-empty and hold no newline |
| DeviceRecord.AdbTextLines | src/core/device_info.cpp:62-74 | when its fields hold no newline, the ADB rendering splits into one line per field plus the mode line, and the mode line's number reads back as the mode code |
| DeviceRecord.EdlRenderedAsFastboot | src/core/device_info.cpp:58-59 | an EDL 9008 record (code 3) is rendered with the fastboot template |
| DeviceRecord.FastbootdRenderedAsAdb | src/core/device_info.cpp:58-59 | a Fastbootd record is rendered with the ADB template, not the fastboot one |
| DeviceRecord.ToTextByModeDelegates | src/core/device_info.cpp:58-59 | the corrected dispatch gives the fastboot rendering exactly for Fastboot and Fastbootd |
| AdbEmbedded.SplitArgs | src/core/adb_embedded.cpp:157 | every argument is non-empty and holds no space, and the arguments joined are the command with its spaces removed |
| AdbEmbedded.SplitArgsSpaced | src/core/adb_embedded.cpp:157 | words without spaces, joined with single spaces, split back into the same words |
| AdbEmbedded.Shape | src/core/adb_embedded.cpp:162-176 | failures start with `Error: `; a non-zero exit gives the standard error after that prefix; a timeout gives the timeout error; otherwise the result is `Success` exactly when the output is empty or trims to `Success`, else the trimmed output |
| AdbEmbedded.BlankOutputIsEmpty | src/core/adb_embedded.cpp:176 | output made only of whitespace gives the empty string, not `Success` |
| AdbEmbedded.Exec | src/core/adb_embedded.cpp:147-177 | a failed run of the split command gives a result starting with `Error: ` |
| AdbEmbedded.GetPropCommand | src/core/adb_embedded.cpp:181-186 | without a serial the command is `shell getprop …`; with one it addresses the device with `-s serial` |
| AdbEmbedded.DeviceProp | src/core/adb_embedded.cpp:179-189 | a property read is trimmed, and it starts with `Error` when the run failed |
| AdbEmbedded.GetPropArgs | src/core/adb_embedded.cpp:181-186 | for a space-free serial and property the runner receives exactly `-s serial shell getprop prop`, or `shell getprop prop` without a serial |
| AdbEmbedded.GetPropSpaced | src/core/adb_embedded.cpp:181-186 | the getprop command is its argument words joined by single spaces |
| AdbEmbedded.TrailingSpace | src/core/adb_embedded.cpp:157 | a trailing space adds no argument |
| AdbEmbedded.TrimKeepsError | src/core/adb_embedded.cpp:188 | trimming an error result keeps its `Error` prefix |
| AdbEmbedded.Adb.Initialize | src/core/adb_embedded.cpp:37-53 | an initialized runner stays initialized and reports success; otherwise it becomes initialized exactly when extraction succeeds, and reports that |
| AdbEmbedded.Adb.ExecuteCommand | src/core/adb_embedded.cpp:147-177 | an uninitialized runner first tries to initialize; it then runs the command, or returns the not-initialized error |
| AdbEmbedded.Adb.GetDeviceInfo | src/core/adb_embedded.cpp:179-189 | the property read through the runner, trimmed, or the trimmed not-initialized error |
| DeviceDetector.SerialOf | src/core/device_detector.cpp:53-56 | the serial taken from a device line is non-empty, has no space and its characters come first once the spaces are taken out |
| DeviceDetector.SerialFirstWord | src/core/device_detector.cpp:55-57 | the serial is the whole first word: after the leading spaces the line starts with it, and a space follows it |
| DeviceDetector.DeviceLineSerial | src/core/device_detector.cpp:53-57 | a `devices -l` line made of optional leading spaces, the serial, a padding run of one or more spaces and "device…" is a device line (unless it starts with "List") and yields exactly that serial |
| DeviceDetector.DetectMode | src/core/device_detector.cpp:85-112 | ADB exactly when the sdk probe's result has no `Error`; Fastboot exactly when it has one and the `devices` listing mentions both the serial and `fastboot`; otherwise Unknown, because the EDL and MTK probes always say no |
| DeviceDetector.FailedProbeNotAdb | src/core/device_detector.cpp:88-93 | a device whose sdk probe fails is never taken for ADB |
| DeviceDetector.BuildInfo | src/core/device_detector.cpp:114-143 | the record carries the serial and mode; a non-ADB device gets nothing else; an ADB device gets each property from its own getprop or shell command, and its CPU field is the trimmed processor count followed by ` cores`; every field the source does not fill stays empty |
| DeviceDetector.Probe | src/core/device_detector.cpp:57-58 | the probed record keeps the serial, and its mode is ADB, Fastboot or Unknown |
| DeviceDetector.ProbeOf | src/core/device_detector.cpp:57-58 | the prober built from a runner keeps the serial it is asked about |
| DeviceDetector.Detector.Tick | src/core/device_detector.cpp:44-83 | one poll emits the events of `TickEvents` and leaves the new snapshot as the current map |
| DeviceDetector.ScanListing | src/core/device_detector.cpp:52-72 | the listing loop builds the scan map and emits the arrival events in line order |
| DeviceDetector.ReadLine | src/core/device_detector.cpp:53-69 | one pass of the listing loop: whether the line names a device, its serial and probed record, and the events it emits |
| DeviceDetector.ScanSnoc | src/core/device_detector.cpp:52-72 | one more line adds its serial to the scan map and its events to the arrivals |
| DeviceDetector.Disconnects | src/core/device_detector.cpp:75-80 | the disconnect loop emits, in key order, one event per old serial missing from the new map |
| DeviceDetector.ListedSnoc | src/core/device_detector.cpp:52-56 | a serial is listed by lines plus one more exactly when it is listed by the lines or by the last line |
| DeviceDetector.ScanContents | src/core/device_detector.cpp:52-60 | a serial is in the scan map exactly when some device line lists it, and it maps to that serial's probed record |
| DeviceDetector.ArrivalsNoDisconnect | src/core/device_detector.cpp:62-69 | the listing loop emits no disconnect |
| DeviceDetector.ArrivalsConnected | src/core/device_detector.cpp:63-64 | the loop emits Connected(info) exactly when the serial is listed, was not known, and info is its probed record |
| DeviceDetector.ArrivalsModeChanged | src/core/device_detector.cpp:66-67 | the loop emits ModeChanged(serial, mode) exactly when the serial is listed and known, and mode is its new mode, which differs from the old one |
| DeviceDetector.DeparturesExact | src/core/device_detector.cpp:75-80 | the disconnect loop emits only disconnects, and one for a serial exactly when it was known and is missing now |
| DeviceDetector.TickConnected | src/core/device_detector.cpp:44-83 | a poll reports a connection exactly for a serial new to the snapshot, with its snapshot record |
| DeviceDetector.TickModeChanged | src/core/device_detector.cpp:44-83 | a poll reports a mode change exactly for a serial in both maps whose mode differs, with the new mode |
| DeviceDetector.ModeChangedIn | src/core/device_detector.cpp:44-83 | for any probe and listing, a mode change is emitted exactly for a serial in both maps whose mode differs, with the new mode |
| DeviceDetector.TickDisconnected | src/core/device_detector.cpp:44-83 | a poll reports a disconnect exactly for a serial that was known and is not in the snapshot |
| DeviceDetector.TickDisconnectsLast | src/core/device_detector.cpp:52-80 | every disconnect of a poll comes after all of its connections and mode changes |
| DeviceDetector.OrderedConcat | src/core/device_detector.cpp:52-80 | arrivals followed by disconnects keep the disconnects last |
| DeviceDetector.ArrivalsQuiet | src/core/device_detector.cpp:62-69 | a listing with no new serial and no changed mode emits nothing |
| DeviceDetector.DeparturesQuiet | src/core/device_detector.cpp:75-80 | when every old serial is still present, no disconnect is emitted |
| DeviceDetector.TickIdempotent | src/core/device_detector.cpp:44-83 | polling again against an unchanged runner emits no event |
| DeviceDetector.SnapshotModes | src/core/device_detector.cpp:57 | every device in a snapshot is ADB, Fastboot or Unknown |
| DeviceDetector.TabSerial | src/core/device_detector.cpp:168 | the serial cut from a line before its first tab is trimmed and holds no tab |
| DeviceDetector.TabSerialOf | src/core/device_detector.cpp:168 | a line `serial<TAB>state` yields exactly that serial |
| DeviceDetector.AdbSerialsClean | src/core/device_detector.cpp:161-176 | every serial detectADBDevices collects is non-empty, trimmed and free of tabs |
| DeviceDetector.FastbootSerialsClean | src/core/device_detector.cpp:178-202 | every serial detectFastbootDevices collects is non-empty, trimmed and free of tabs |
| DeviceDetector.DetectAdbDevices | src/core/device_detector.cpp:161-176 | appends the serials of the `devices` listing's device lines, and reports whether the list is non-empty |
| DeviceDetector.AppendAdbSerials | src/core/device_detector.cpp:166-173 | the loop appends exactly the serials of the device lines, in order |
| DeviceDetector.ReadAdbLine | src/core/device_detector.cpp:167-172 | one pass: a line naming a device, not the header, adds its non-empty tab-separated serial; any other line adds nothing |
| DeviceDetector.AdbSerialsSnoc | src/core/device_detector.cpp:166-173 | one more line extends the adb serials by what that line adds |
| DeviceDetector.DetectFastbootDevices | src/core/device_detector.cpp:178-202 | a timeout reports false and appends nothing; otherwise every non-empty serial of the output is appended, and the result reports whether the list is non-empty |
| DeviceDetector.AppendFastbootSerials | src/core/device_detector.cpp:192-199 | the loop appends exactly the non-empty serials of the output lines, in order |
| DeviceDetector.ReadFastbootLine | src/core/device_detector.cpp:193-198 | one pass: a non-empty line adds its non-empty tab-separated serial; an empty line adds nothing |
| DeviceDetector.FastbootSerialsSnoc | src/core/device_detector.cpp:192-199 | one more line extends the fastboot serials by that line's serial, if it has one |
| RestartTool.RestartMode.Code | src/core/restart_tool.h:15-22 | every restart target is stored as a code from 0 to 5 |
| RestartTool.ModeName | src/core/restart_tool.cpp:114-125 | the unknown-mode name is given exactly for codes outside 0 to 5 |
| RestartTool.ModeNamesDistinct | src/core/restart_tool.cpp:114-125 | different targets have different names |
| RestartTool.RestartCommand | src/core/restart_tool.cpp:127-225 | the command is empty exactly for an unsupported pair of current mode and target; an ADB command addresses the device with `-s id`; a fastboot command is a single space-free word |
| RestartTool.SystemIgnoresRoot | src/core/restart_tool.cpp:131-174 | restarting to system gives the same command with or without root |
| RestartTool.FastbootCommandUnaddressed | src/core/restart_tool.cpp:175-221 | a fastboot command depends neither on the device id nor on root |
| RestartTool.FastbootFlavoursAgree | src/core/restart_tool.cpp:175-221 | Fastboot and Fastbootd give the same command for every target both support |
| RestartTool.CommandsDistinct | src/core/restart_tool.cpp:127-225 | two different supported targets never give the same command |
| RestartTool.FastbootVerbsDistinct | src/core/restart_tool.cpp:175-221 | the fastboot verbs of different targets differ |
| RestartTool.RebootArgHeads | src/core/restart_tool.cpp:131-174 | the reboot arguments of different non-system targets differ in their first letter |
| RestartTool.AdbSuffixesDistinct | src/core/restart_tool.cpp:131-174 | the ADB command tails of different targets differ, with or without root |
| RestartTool.FastbootArgsOf | src/core/restart_tool.cpp:43-47 | fastboot receives `-s id` when there is an id, and then the single verb |
| RestartTool.FastbootResult | src/core/restart_tool.cpp:54-60 | a timeout gives the timeout error; otherwise the result is the standard output followed by the standard error |
| RestartTool.Verdict | src/core/restart_tool.cpp:65-94 | the verdict opens with the failure report exactly when the result reads as a failure, and with the sent report otherwise |
| RestartTool.Restart | src/core/restart_tool.cpp:9-97 | every restart reports at least two messages, the first announcing the device and the target |
| RestartTool.RunCommand | src/core/restart_tool.cpp:33-63 | running a command makes exactly one call, to adb exactly for an ADB device, and reports no error message |
| RestartTool.Alarms | src/core/restart_tool.cpp:9-97 | the error-flagged messages, in order |
| RestartTool.AlarmsAppend | src/core/restart_tool.cpp:9-97 | the error messages of two message runs are those of each, in order |
| RestartTool.AlarmsSingle | src/core/restart_tool.cpp:9-97 | a single message is an alarm exactly when it is flagged as an error |
| RestartTool.RestartProbesRootInAdbOnly | src/core/restart_tool.cpp:21-24 | the first call is the root probe exactly when the device is in ADB mode |
| RestartTool.RestartStaysInFastbootd | src/core/restart_tool.cpp:16-19 | a Fastbootd device asked for Fastboot runs nothing, reports no error and returns the already-in-Fastbootd text |
| RestartTool.RestartUnsupported | src/core/restart_tool.cpp:26-31 | an unsupported pair runs nothing, returns the no-command error and ends with the matching alarm |
| RestartTool.RestartAdbRuns | src/core/restart_tool.cpp:21-37 | an ADB device gets the root probe and then the command, and the result is the command's result |
| RestartTool.RestartFastbootRuns | src/core/restart_tool.cpp:38-61 | a supported non-ADB restart runs fastboot once with the address and the verb, and returns its output |
| RestartTool.RestartVerdict | src/core/restart_tool.cpp:63-96 | once a command ran, the messages end with the verdict, and the only error message is the failure report, present exactly when the result reads as a failure |
| RestartTool.RestartLead | src/core/restart_tool.cpp:11-63 | the messages before the verdict carry no error |
| RestartTool.QuietLeadVerdict | src/core/restart_tool.cpp:63-94 | error-free messages followed by a verdict raise the failure report exactly on a failure |
| RestartTool.NoAlarms | src/core/restart_tool.cpp:9-97 | messages none of which is an error raise no alarm |
| RestartTool.VerdictAlarms | src/core/restart_tool.cpp:65-94 | the verdict's only alarm is the failure report, present exactly on a failure |
| RestartTool.RestartDevice | src/core/restart_tool.cpp:9-97 | the method returns the result, messages and calls that `Restart` specifies |
| RestartTool.ProbeRootSteps | src/core/restart_tool.cpp:21-24 | only an ADB device is probed for root; the probe's answer is reported in one message |
| RestartTool.RunCommandSteps | src/core/restart_tool.cpp:33-61 | the method's run of the command agrees with `RunCommand` |
| MainWindow.Connect | src/ui/main_window.cpp:96 | the serial is added with the new record; no other entry changes |
| MainWindow.Disconnect | src/ui/main_window.cpp:117-120 | the serial is removed; no other entry changes |
| MainWindow.ChangeMode | src/ui/main_window.cpp:126-128 | a known serial gets the new mode and keeps the rest of its record; no other entry changes, and no key is added |
| MainWindow.ApplyAllAppend | src/ui/main_window.cpp:94-145 | applying two event runs is applying one after the other |
| MainWindow.ApplyOne | src/ui/main_window.cpp:94-145 | applying one event is `Apply` |
| MainWindow.ArrivalStep | src/ui/main_window.cpp:94-145 | the window's table keeps mirroring the poll across each device line |
| MainWindow.ConnectStep | src/ui/main_window.cpp:94-113 | a connection keeps the table mirroring the poll |
| MainWindow.ModeChangeStep | src/ui/main_window.cpp:124-145 | a mode change keeps the table mirroring the poll |
| MainWindow.QuietStep | src/ui/main_window.cpp:94-145 | a line with no event keeps the table mirroring the poll |
| MainWindow.ArrivalsMirror | src/ui/main_window.cpp:94-145 | after the listing's events the table holds old and scanned serials, every scanned serial with its new mode and every new one with its whole record |
| MainWindow.DeparturesMirror | src/ui/main_window.cpp:115-122 | after the disconnects exactly the serials still present or never known remain, with unchanged records |
| MainWindow.MirrorAfter | src/ui/main_window.cpp:94-145 | a table that agrees with the previous map on serials and modes, after a poll's events, has exactly the snapshot's serials and modes, and new serials have their whole record |
| MainWindow.SettleDepartures | src/ui/main_window.cpp:115-122 | the disconnects bring the mirrored table down to the snapshot's serials |
| MainWindow.MirrorFollowsTick | src/ui/main_window.cpp:94-145 | a window table that agrees with the detector's stored map on serials and modes still agrees with the detector's new map after one poll's events, and new devices get their whole record |
| MainWindow.MirrorFollowsPolls | src/ui/main_window.cpp:94-145 | poll after poll, the window's table keeps exactly the detector's serials, each in the detector's mode |
| MainWindow.LabelsDiffer | src/ui/main_window.cpp:100-107 | the connect and mode-change logs name a mode alike except EDL 9008 and MTK DA, which the mode-change log calls 未知 |
| MainWindow.SelectionView | src/ui/main_window.cpp:147-156 | the panel is cleared exactly when the id is empty or unknown, and otherwise shows that device's record |
| MainWindow.Window.constructor | src/ui/main_window.cpp:6-26 | a new window has no devices and a blank panel, and its log holds the ADB initialization verdict (success or failure) followed by the start-up line |
| MainWindow.Window.OnDeviceConnected | src/ui/main_window.cpp:94-113 | the device is added, the list is refreshed and one log line is appended |
| MainWindow.Window.OnDeviceDisconnected | src/ui/main_window.cpp:115-122 | a known device is removed and logged; an unknown one changes nothing |
| MainWindow.Window.OnDeviceModeChanged | src/ui/main_window.cpp:124-145 | a known device gets the new mode and a log line, and the panel shows it again when it is the one selected |
| MainWindow.Window.OnDeviceSelectionChanged | src/ui/main_window.cpp:147-156 | the panel becomes `SelectionView`; nothing else changes |
| ToolPanel.DeviceItem | src/ui/tool_panel.cpp:101-117 | a device item is selectable, carries the serial and its text begins with the serial and a line break, so it never reads as the placeholder |
| ToolPanel.Render | src/ui/tool_panel.cpp:100-118 | one item per key, in key order |
| ToolPanel.ItemsMatchDevices | src/ui/tool_panel.cpp:95-126 | the list has one item per device, or only the unselectable placeholder when there is none; a serial is a device exactly when some selectable item carries it; no two items share a serial |
| ToolPanel.RenderCovers | src/ui/tool_panel.cpp:100-118 | rendering distinct keys covering the devices gives one selectable item per device and no shared serial |
| ToolPanel.RenderSerials | src/ui/tool_panel.cpp:100-118 | item i carries key i and is selectable |
| ToolPanel.DistinctCard | src/ui/tool_panel.cpp:100-118 | distinct keys listing a set are as many as its members |
| ToolPanel.Choose | src/ui/tool_panel.cpp:133-164 | the button is enabled exactly for a picked item that is not the placeholder and names a known device; the signal carries the selection then and is empty otherwise; the stored selection is the item's serial even when the device is unknown |
| ToolPanel.ChooseFromList | src/ui/tool_panel.cpp:133-164 | picking any item of the rendered list enables the button exactly when the item is selectable, and then signals that device |
| ToolPanel.ClickOutcome | src/ui/tool_panel.cpp:166-183 | a restart is requested exactly when the selection names a known device, with its mode and the chosen target; otherwise the select-a-device alarm is raised |
| ToolPanel.EnabledClickRequests | src/ui/tool_panel.cpp:133-183 | a click after a selection that enabled the button requests a restart of that device |
| ToolPanel.Panel.constructor | src/ui/tool_panel.cpp:8-93 | a new panel has no devices, an empty list (no placeholder yet), restart disabled, and nothing selected or sent |
| ToolPanel.Panel.UpdateDeviceList | src/ui/tool_panel.cpp:95-126 | the panel takes the devices, the list becomes `ItemsOf` them, and the button is disabled when there is none and otherwise left as it was |
| ToolPanel.RenderInOrder | src/ui/tool_panel.cpp:100-118 | the loop renders one item per device, in key order |
| ToolPanel.Panel.OnSelectionChanged | src/ui/tool_panel.cpp:133-164 | selection, button and signal follow `Choose` |
| ToolPanel.Panel.OnRestartClicked | src/ui/tool_panel.cpp:166-183 | a click raises the alarm or requests the restart as `ClickOutcome` says, and changes nothing else |
| DeviceInfoPanel.OrUnknown | src/ui/device_info_panel.cpp:129-132 | an empty field shows as 未知, any other as itself |
| DeviceInfoPanel.BootloaderText | src/ui/device_info_panel.cpp:135-141 | the label starts with the version, or 未知, and ends in 已解锁 exactly when unlocked and in 已锁定 exactly when locked |
| DeviceInfoPanel.ModeTextNames | src/ui/device_info_panel.cpp:147-175 | the mode box's first line is the mode's name, and 未知模式 is shown exactly for Unknown and Recovery |
| DeviceInfoPanel.ModeNamesDistinct | src/ui/device_info_panel.cpp:147-175 | recognised modes have different names |
| DeviceInfoPanel.FirstLine | src/ui/device_info_panel.cpp:147-175 | a single-line name, a line break and a description read back as the name up to the first break |
| DeviceInfoPanel.FirstBreak | src/ui/device_info_panel.cpp:147-175 | the first line break of such a text is the one right after the name |
| DeviceInfoPanel.RootText | src/ui/device_info_panel.cpp:178-191 | rooted exactly when rooted; the Magisk advice exactly when unrooted and the version mentions 10, 11, 12 or 13; the SuperSU advice exactly otherwise |
| DeviceInfoPanel.RootAdviceMisses14 | src/ui/device_info_panel.cpp:178-224 | Android 14 gets the SuperSU advice, while its version label says it supports Fastbootd |
| DeviceInfoPanel.NotContained2 | src/ui/device_info_panel.cpp:183-219 | two different two-digit strings do not contain each other |
| DeviceInfoPanel.FirstMarker | src/ui/device_info_panel.cpp:194-224 | the marker found is the first, in the order 17 … 10, 9, 8, that the version contains |
| DeviceInfoPanel.VersionText | src/ui/device_info_panel.cpp:194-224 | the label is 未知 exactly for an empty version, and otherwise starts with the version |
| DeviceInfoPanel.AnnotationFirstMatch | src/ui/device_info_panel.cpp:194-224 | the annotation is marker i's note exactly when the version contains marker i and no earlier one; it is the old-Android note exactly when it contains none |
| DeviceInfoPanel.NotesDistinct | src/ui/device_info_panel.cpp:194-224 | the notes of different markers differ from each other and from the old-Android note |
| DeviceInfoPanel.NoteNotOld | src/ui/device_info_panel.cpp:194-224 | no marker's note is the old-Android note |
| DeviceInfoPanel.KeyOf | src/ui/device_info_panel.cpp:292 | a non-empty key found for a widget holds that widget |
| DeviceInfoPanel.CpuLookup | src/ui/device_info_panel.cpp:292-295 | the key looked up while clearing is "cpu" when that key is present, and empty otherwise |
| DeviceInfoPanel.InfoPanel.constructor | src/ui/device_info_panel.cpp:61-91 | the panel starts with the eight fixed keys, no extra row, and every label reading 未连接 |
| DeviceInfoPanel.InfoPanel.Show | src/ui/device_info_panel.cpp:227-268 | a missing key gets a new widget and a new row under its caption; an existing key only has its text replaced |
| DeviceInfoPanel.InfoPanel.Update | src/ui/device_info_panel.cpp:126-269 | the labels become the record's texts, and the CPU and storage rows are added or rewritten for non-empty fields |
| DeviceInfoPanel.InfoPanel.ShowExtras | src/ui/device_info_panel.cpp:227-268 | the repeated CPU block adds at most one CPU row; each non-empty field's widget holds its text |
| DeviceInfoPanel.InfoPanel.ShowCpuTwice | src/ui/device_info_panel.cpp:227-255 | the second CPU block changes neither the widgets nor the rows the first one left |
| DeviceInfoPanel.StorageStep | src/ui/device_info_panel.cpp:257-268 | the storage block after the CPU block leaves both fields' keys, rows and texts |
| DeviceInfoPanel.InfoPanel.Clear | src/ui/device_info_panel.cpp:271-298 | every label reads 未连接 and every extra row is gone; of the keys only "cpu" is dropped, and only if there was an extra row |
| DeviceInfoPanel.StorageRowLostAfterClear | src/ui/device_info_panel.cpp:257-298 | after a clear the storage key survives without its row, so a later record's storage size gets no row |

## Left out

- Extracting the embedded tools, the temporary directory and starting the adb server are not modelled. `AdbEmbedded.Adb.Initialize` takes the extraction's success as a parameter.
- Process execution is the `Runner` oracle. A program that fails to start is treated like one that does not finish in time, because `waitForFinished` returns false in both cases.
- The fastboot path is a parameter of the restart. Separate runners stand for `adb` and `fastboot`.
- The detector and the restart tool read through `Exec`, which assumes the runner is initialized. The detector only polls after initialization succeeded. The uninitialized path is modelled once, in `AdbEmbedded.Adb`.
- The poll timer, Qt signals and slots, and `qDebug` logging are not modelled. Signals are sequences of events or messages. Slots are methods, and the caller wires them.
- `QString::arg` is modelled as plain substitution. Qt also re-substitutes a `%n` that occurs inside a substituted value; the model does not.
- Clearing a `QListWidget` emits a selection-changed signal of its own. That is Qt library behaviour and is not modelled.
- MainWindow.Window: `log` keeps the text of each output line, not its error flag, so the start-up failure line is not marked as an error.
- The output panel, the main window's layout and menus, and `main.cpp` are not part of this model.
- RestartTool.RestartCommand: for a rooted ADB device the command `shell su -c "reboot …"` is split on spaces, so the quoted part reaches adb in pieces. The model shows this only through the general contract of `AdbEmbedded.SplitArgs`. No lemma spells out the resulting argument list.
- ToolPanel.Panel.OnRestartClicked: the click records the restart it requests. The restart itself is `RestartTool.RestartDevice`, and the target read from the combo box is a parameter.
- ToolPanel.Panel.Valid: the invariant does not say that the items match the devices, because that statement goes through the sorted key order. `UpdateDeviceList` states it as a postcondition instead.
- DeviceInfoPanel.InfoPanel: widgets are integer identities and the form is a list of extra rows. Deleting a widget frees nothing, so setting text on a widget whose row was removed is modelled as an update of `texts`.
- DeviceInfoPanel.InfoPanel.Show: widget parents, layout and styling are not modelled.

## Findings

| source | as written | input that shows it | evidently intended | confidence | as-written member | corrected member |
|---|---|---|---|---|---|---|
| src/core/device_info.cpp:58 | `toString` sends mode codes 2 and 3 to the fastboot template, but 3 is EDL 9008 and Fastbootd is not 3 | a record in EDL 9008 mode gets the fastboot text; a Fastbootd record gets the ADB text | the fastboot template for Fastboot and Fastbootd | not executed | DeviceRecord.EdlRenderedAsFastboot | DeviceRecord.ToTextByModeDelegates |
