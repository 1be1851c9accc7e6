/**
  ToolPanel: the device list, the selected device and the restart button.

  The list widget is represented by its items in display order; the signals
  the panel emits are kept as sequences (deviceSelectionChanged payloads and
  outputMessage messages), and a restart request is recorded with the
  arguments it hands to restartDevice, whose behaviour is RestartTool's.
 */
module ToolPanel {
  import opened Text
  import opened Modes
  import opened DeviceRecord
  import opened RestartTool

  /** One list entry: its text, the serial stored as its user data, and whether it can be selected. */
  datatype Item = Item(text: string, serial: string, selectable: bool)

  const NoDevicesText := "无设备连接"

  /** The placeholder shown for an empty map: it carries no serial and cannot be selected. */
  const Placeholder := Item(NoDevicesText, "", false)

  /** The mode tag appended to an item's text. */
  function ModeTag(mode: DeviceMode): string {
    match mode
    case Adb => " [ADB]"
    case Fastboot => " [Fastboot]"
    case Fastbootd => " [Fastbootd]"
    case Edl9008 => " [EDL]"
    case MtkDa => " [MTK DA]"
    case _ => " [未知]"
  }

  /** The entry for one record: serial, a line break, model and mode tag; tagged with the record's serial. */
  function DeviceItem(info: DeviceInfo): (item: Item)
    ensures item.selectable && item.serial == info.serialNumber
    ensures StartsWith(item.text, info.serialNumber + "\n")
    ensures item.text != NoDevicesText
  {
    var text := info.serialNumber + "\n" + info.model + ModeTag(info.mode);
    assert text[..|info.serialNumber + "\n"|] == info.serialNumber + "\n";
    assert text[|info.serialNumber|] == '\n';
    Item(text, info.serialNumber, true)
  }

  /** The entries for the given keys of a map, in that order. */
  function Render(devices: map<string, DeviceInfo>, keys: seq<string>): (items: seq<Item>)
    requires forall k :: k in keys ==> k in devices
    ensures |items| == |keys|
    ensures forall i :: 0 <= i < |keys| ==> items[i] == DeviceItem(devices[keys[i]])
    decreases |keys|
  {
    if keys == [] then []
    else Render(devices, keys[..|keys| - 1]) + [DeviceItem(devices[keys[|keys| - 1]])]
  }

  /** The list updateDeviceList shows: one entry per record in key order, or the placeholder alone. */
  function ItemsOf(devices: map<string, DeviceInfo>): seq<Item> {
    Render(devices, SortedKeys(devices.Keys)) + (if |devices| == 0 then [Placeholder] else [])
  }

  /** Every record is stored under its own serial, as the main window keeps them. */
  predicate KeyedBySerial(devices: map<string, DeviceInfo>) {
    forall k :: k in devices ==> devices[k].serialNumber == k
  }

  /**
    The list has one selectable entry per stored device, tagged with its
    serial, and nothing else; an empty map gives exactly the placeholder.
   */
  lemma ItemsMatchDevices(devices: map<string, DeviceInfo>)
    requires KeyedBySerial(devices)
    ensures var items := ItemsOf(devices);
            && |items| == (if |devices| == 0 then 1 else |devices|)
            && (|devices| == 0 ==> items == [Placeholder])
            && (forall k :: k in devices <==> exists i :: 0 <= i < |items| && items[i].selectable && items[i].serial == k)
            && (forall i, j :: 0 <= i < j < |items| ==> items[i].serial != items[j].serial)
  {
    var keys := SortedKeys(devices.Keys);
    if |devices| == 0 {
      assert devices.Keys == {};
      assert keys == [];
      assert ItemsOf(devices) == [Placeholder];
    } else {
      RenderCovers(devices, keys);
      assert ItemsOf(devices) == Render(devices, keys);
    }
  }

  /** Entries for distinct stored keys covering the map: one selectable entry per device, tagged with its serial. */
  lemma RenderCovers(devices: map<string, DeviceInfo>, keys: seq<string>)
    requires KeyedBySerial(devices)
    requires forall k :: k in keys <==> k in devices
    requires forall i, j :: 0 <= i < j < |keys| ==> keys[i] != keys[j]
    ensures var items := Render(devices, keys);
            && |items| == |devices|
            && (forall k :: k in devices <==> exists i :: 0 <= i < |items| && items[i].selectable && items[i].serial == k)
            && (forall i, j :: 0 <= i < j < |items| ==> items[i].serial != items[j].serial)
  {
    var items := Render(devices, keys);
    RenderSerials(devices, keys);
    forall k | k in devices
      ensures exists i :: 0 <= i < |items| && items[i].selectable && items[i].serial == k
    {
      var i :| 0 <= i < |keys| && keys[i] == k;
      assert items[i].serial == k;
    }
    DistinctCard(keys, devices.Keys);
  }

  /** The entries for stored keys carry those keys, in order, and are all selectable. */
  lemma RenderSerials(devices: map<string, DeviceInfo>, keys: seq<string>)
    requires KeyedBySerial(devices) && forall k :: k in keys ==> k in devices
    ensures forall i :: 0 <= i < |keys| ==> Render(devices, keys)[i].serial == keys[i] && Render(devices, keys)[i].selectable
  {
  }

  /** A repetition-free sequence listing exactly a set's members is as long as the set. */
  lemma {:induction false} DistinctCard(keys: seq<string>, s: set<string>)
    requires forall k :: k in keys <==> k in s
    requires forall i, j :: 0 <= i < j < |keys| ==> keys[i] != keys[j]
    ensures |keys| == |s|
    decreases |keys|
  {
    if keys != [] {
      var last := keys[|keys| - 1];
      var init := keys[..|keys| - 1];
      forall k | k in init
        ensures k in s - {last}
      {
        var i :| 0 <= i < |init| && init[i] == k;
        assert keys[i] == k;
      }
      forall k | k in s - {last}
        ensures k in init
      {
        var i :| 0 <= i < |keys| && keys[i] == k;
        assert init[i] == k;
      }
      DistinctCard(init, s - {last});
    } else {
      assert s == {};
    }
  }

  /** What a selection change comes to: the stored selection, the button state and the emitted serial. */
  datatype Pick = Pick(selected: string, enabled: bool, signal: string)

  /**
    onDeviceListSelectionChanged, given the selected items: no selection or
    the placeholder clears the selection; otherwise the item's serial is
    stored, and restart is enabled and the serial emitted only when the serial
    is a stored device.
   */
  function Choose(devices: map<string, DeviceInfo>, picked: seq<Item>): (p: Pick)
    ensures p.enabled <==> picked != [] && picked[0].text != NoDevicesText && picked[0].serial in devices
    ensures p.signal == (if p.enabled then p.selected else "")
    ensures picked == [] || picked[0].text == NoDevicesText ==> p.selected == ""
    ensures picked != [] && picked[0].text != NoDevicesText ==> p.selected == picked[0].serial
  {
    if picked == [] then Pick("", false, "")
    else if picked[0].text == NoDevicesText then Pick("", false, "")
    else
      var serial := picked[0].serial;
      if serial in devices then Pick(serial, true, serial) else Pick(serial, false, "")
  }

  /** Picking an entry of the shown list: a device entry enables restart and emits its serial, the placeholder neither. */
  lemma ChooseFromList(devices: map<string, DeviceInfo>, i: int)
    requires KeyedBySerial(devices) && 0 <= i < |ItemsOf(devices)|
    ensures var item := ItemsOf(devices)[i];
            var p := Choose(devices, [item]);
            && (p.enabled <==> item.selectable)
            && (item.selectable ==> p.signal == item.serial && devices[item.serial] == devices[p.selected])
  {
    var keys := SortedKeys(devices.Keys);
    assert |ItemsOf(devices)| == |keys| + (if |devices| == 0 then 1 else 0);
    if i < |keys| {
      assert ItemsOf(devices)[i] == DeviceItem(devices[keys[i]]);
    } else {
      assert ItemsOf(devices)[i] == Placeholder;
    }
  }

  /** The outcome of a restart click: an error message, or a request handed to restartDevice. */
  datatype Click =
    | Refused(message: Message)
    | Requested(id: string, current: DeviceMode, target: RestartMode)

  const SelectFirst := Alarm("❌ 请先选择一个设备")

  /**
    onRestartButtonClicked: a request with the stored record's mode exactly
    when the stored selection is a known device, the error otherwise.
   */
  function ClickOutcome(devices: map<string, DeviceInfo>, selected: string, target: RestartMode): (c: Click)
    ensures c.Requested? <==> selected != "" && selected in devices
    ensures c.Requested? ==> c.id == selected && c.current == devices[selected].mode && c.target == target
    ensures c.Refused? ==> c.message == SelectFirst
  {
    if selected == "" || selected !in devices then Refused(SelectFirst)
    else Requested(selected, devices[selected].mode, target)
  }

  /** A selection that enabled restart makes the next click a request for that device, unless its serial is empty. */
  lemma EnabledClickRequests(devices: map<string, DeviceInfo>, picked: seq<Item>, target: RestartMode)
    requires Choose(devices, picked).enabled && picked[0].serial != ""
    ensures var p := Choose(devices, picked);
            ClickOutcome(devices, p.selected, target) == Requested(picked[0].serial, devices[picked[0].serial].mode, target)
  {
  }

  /** The panel's state. */
  /** One more key adds that key's entry at the end. */
  lemma RenderSnoc(devices: map<string, DeviceInfo>, keys: seq<string>, i: int)
    requires 0 <= i < |keys| && forall k :: k in keys ==> k in devices
    ensures Render(devices, keys[..i + 1]) == Render(devices, keys[..i]) + [DeviceItem(devices[keys[i]])]
  {
    assert keys[..i + 1][..i] == keys[..i];
    assert keys[..i + 1][i] == keys[i];
  }

  /** The loop of updateDeviceList: one entry per record, in the map's key order. */
  method RenderInOrder(devices: map<string, DeviceInfo>) returns (list: seq<Item>)
    ensures list == Render(devices, SortedKeys(devices.Keys))
  {
    list := [];
    var keys := SortedKeys(devices.Keys);
    var i := 0;
    while i < |keys|
      invariant 0 <= i <= |keys|
      invariant list == Render(devices, keys[..i])
    {
      RenderSnoc(devices, keys, i);
      list := list + [DeviceItem(devices[keys[i]])];
      i := i + 1;
    }
    assert keys[..i] == keys;
  }

  class Panel {
    /** m_currentDevices */
    var devices: map<string, DeviceInfo>
    /** the list widget's entries */
    var items: seq<Item>
    /** m_currentSelectedDevice */
    var selected: string
    var restartEnabled: bool
    /** deviceSelectionChanged payloads, in order */
    var emitted: seq<string>
    /** outputMessage emissions of the panel itself, in order */
    var messages: seq<Message>
    /** restartDevice calls, in order */
    var requests: seq<Click>

    /**
      An empty map leaves restart disabled, and only requests reach
      restartDevice. (That the list shows the stored map is kept by
      UpdateDeviceList, the only method that changes either.)
     */
    predicate Valid()
      reads this
    {
      && (|devices| == 0 ==> !restartEnabled)
      && (forall k :: 0 <= k < |requests| ==> requests[k].Requested?)
    }

    /**
      A new panel: no devices, an empty list (the placeholder appears only
      once updateDeviceList is given an empty map), restart disabled and
      nothing selected or sent.
     */
    constructor()
      ensures Valid() && devices == map[] && items == [] && !restartEnabled
      ensures selected == "" && emitted == [] && messages == [] && requests == []
    {
      devices := map[];
      items := [];
      selected := "";
      restartEnabled := false;
      emitted := [];
      messages := [];
      requests := [];
    }

    /** updateDeviceList: the stored map is replaced wholesale and the list rebuilt from it. */
    method UpdateDeviceList(newDevices: map<string, DeviceInfo>)
      requires Valid()
      modifies this
      ensures Valid()
      ensures devices == newDevices && items == ItemsOf(newDevices)
      ensures restartEnabled == (old(restartEnabled) && |newDevices| != 0)
      ensures selected == old(selected) && emitted == old(emitted)
      ensures messages == old(messages) && requests == old(requests)
    {
      devices := newDevices;
      var list := RenderInOrder(newDevices);
      items := list + (if |newDevices| == 0 then [Placeholder] else []);
      if |newDevices| == 0 {
        restartEnabled := false;
      }
    }

    /** getSelectedDevice: the stored selection, which may name a device no longer stored. */
    function SelectedDevice(): string
      reads this
    {
      selected
    }

    /** onDeviceListSelectionChanged, given the widget's selected items. */
    method OnSelectionChanged(picked: seq<Item>)
      requires Valid()
      modifies this
      ensures Valid()
      ensures var p := Choose(devices, picked);
              selected == p.selected && restartEnabled == p.enabled && emitted == old(emitted) + [p.signal]
      ensures devices == old(devices) && items == old(items)
      ensures messages == old(messages) && requests == old(requests)
    {
      if picked == [] {
        selected := "";
        restartEnabled := false;
        emitted := emitted + [""];
        return;
      }
      var item := picked[0];
      if item.text == NoDevicesText {
        selected := "";
        restartEnabled := false;
        emitted := emitted + [""];
        return;
      }
      selected := item.serial;
      if selected in devices {
        restartEnabled := true;
        emitted := emitted + [selected];
      } else {
        restartEnabled := false;
        emitted := emitted + [""];
      }
    }

    /** onRestartButtonClicked with the target chosen in the mode box. */
    method OnRestartClicked(target: RestartMode)
      requires Valid()
      modifies this
      ensures Valid()
      ensures var c := ClickOutcome(devices, selected, target);
              && (c.Refused? ==> messages == old(messages) + [c.message] && requests == old(requests))
              && (c.Requested? ==> requests == old(requests) + [c] && messages == old(messages))
      ensures devices == old(devices) && items == old(items) && selected == old(selected)
      ensures restartEnabled == old(restartEnabled) && emitted == old(emitted)
    {
      if selected == "" || selected !in devices {
        messages := messages + [SelectFirst];
        return;
      }
      var info := devices[selected];
      requests := requests + [Requested(selected, info.mode, target)];
    }
  }
}
