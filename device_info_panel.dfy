/**
  DeviceInfoPanel: the texts the information panel derives from a device
  record, and its bookkeeping of the extra rows (CPU, storage) it adds to its
  form and of the widgets it keeps by key.

  Widgets are represented by identities (integers, the null pointer being
  NoWidget); the eight fixed labels by their texts; the form by the rows after
  its eight fixed ones; and each extra label by its text.
 */
module DeviceInfoPanel {
  import opened Text
  import opened Modes
  import opened DeviceRecord

  // ---------------------------------------------------------------------------
  // Label texts
  // ---------------------------------------------------------------------------

  const UnknownText := "未知"
  const NotConnected := "未连接"

  /** An empty field is shown as 未知. */
  function OrUnknown(s: string): (r: string)
    ensures r != ""
    ensures s != "" ==> r == s
    ensures s == "" ==> r == UnknownText
  {
    if s == "" then UnknownText else s
  }

  const UnlockedTag := " (已解锁)"
  const LockedTag := " (已锁定)"

  /** The bootloader label: the version (or 未知) with the lock state after it. */
  function BootloaderText(version: string, unlocked: bool): (r: string)
    ensures StartsWith(r, OrUnknown(version))
    ensures EndsWith(r, UnlockedTag) <==> unlocked
    ensures EndsWith(r, LockedTag) <==> !unlocked
  {
    var base := OrUnknown(version);
    var r := base + (if unlocked then UnlockedTag else LockedTag);
    assert r[..|base|] == base;
    assert r[|r| - 6..] == (if unlocked then UnlockedTag else LockedTag);
    assert UnlockedTag[3] != LockedTag[3];
    r
  }

  /** The mode's name in the mode box. */
  function ModeName(mode: DeviceMode): string {
    match mode
    case Adb => "ADB模式"
    case Fastboot => "Fastboot模式"
    case Fastbootd => "Fastbootd模式"
    case Edl9008 => "EDL 9008模式"
    case MtkDa => "MTK DA模式"
    case _ => "未知模式"
  }

  /** The mode's description under its name. */
  function ModeDescription(mode: DeviceMode): string {
    match mode
    case Adb => "Android调试模式，可执行ADB命令"
    case Fastboot => "引导程序模式，可刷写分区"
    case Fastbootd => "Android 10+ 用户空间Fastboot，可刷写系统分区"
    case Edl9008 => "紧急下载模式，可进行底层修复"
    case MtkDa => "联发科下载模式，可刷写MTK设备"
    case _ => "无法识别的设备模式"
  }

  /** The mode box: name, a line break, description. */
  function ModeText(mode: DeviceMode): string {
    ModeName(mode) + "\n" + ModeDescription(mode)
  }

  /** The mode box's first line names the mode; a recovery or unrecognised mode is called 未知模式. */
  lemma ModeTextNames(mode: DeviceMode)
    ensures BeforeFirst(ModeText(mode), '\n') == ModeName(mode)
    ensures ModeName(mode) == "未知模式" <==> mode in {DeviceMode.Unknown, Recovery}
  {
    FirstLine(ModeName(mode), ModeDescription(mode));
  }

  /** Different recognised modes get different names in the mode box. */
  lemma ModeNamesDistinct(m1: DeviceMode, m2: DeviceMode)
    requires m1 != m2 && m1 !in {DeviceMode.Unknown, Recovery} && m2 !in {DeviceMode.Unknown, Recovery}
    ensures ModeName(m1) != ModeName(m2)
  {
    var n1 := ModeName(m1);
    var n2 := ModeName(m2);
    assert |n1| != |n2| || n1[0] != n2[0];
  }

  lemma FirstLine(a: string, b: string)
    requires '\n' !in a
    ensures BeforeFirst(a + "\n" + b, '\n') == a
  {
    FirstBreak(a, b);
    assert (a + "\n" + b)[..|a|] == a;
  }

  /** The first line break of a + "\n" + b is the one after a. */
  lemma {:induction false} FirstBreak(a: string, b: string)
    requires '\n' !in a
    ensures IndexOf(a + "\n" + b, '\n') == |a|
    decreases |a|
  {
    if a != [] {
      assert (a + "\n" + b)[1..] == a[1..] + "\n" + b;
      FirstBreak(a[1..], b);
    }
  }

  const Rooted := "✅ 已Root"
  const MagiskAdvice := "❌ 未Root (Android 10+ 建议使用Magisk)"
  const SuperSuAdvice := "❌ 未Root (可考虑使用SuperSU或Magisk)"

  /** The versions the root advice treats as Android 10 or later. */
  predicate MagiskEra(version: string) {
    Contains(version, "10") || Contains(version, "11") || Contains(version, "12") || Contains(version, "13")
  }

  /** The root label: rooted, or one of the two pieces of advice by Android version. */
  function RootText(rooted: bool, version: string): (r: string)
    ensures r == Rooted <==> rooted
    ensures r == MagiskAdvice <==> !rooted && MagiskEra(version)
    ensures r == SuperSuAdvice <==> !rooted && !MagiskEra(version)
  {
    assert Rooted[0] != MagiskAdvice[0];
    assert |MagiskAdvice| != |SuperSuAdvice|;
    if rooted then Rooted
    else if MagiskEra(version) then MagiskAdvice
    else SuperSuAdvice
  }

  /** Android 14 gets the SuperSU advice although its annotation says it supports Fastbootd. */
  lemma RootAdviceMisses14()
    ensures RootText(false, "14") == SuperSuAdvice
    ensures Annotation("14") == " (Android 14 - 支持Fastbootd)"
  {
    NotContained2("14", "10");
    NotContained2("14", "11");
    NotContained2("14", "12");
    NotContained2("14", "13");
    NotContained2("14", "17");
    NotContained2("14", "16");
    NotContained2("14", "15");
    assert StartsWith("14", "14");
    assert FirstMarker("14", 0) == 3;
  }

  /** Two-character strings that differ do not contain each other. */
  lemma NotContained2(s: string, sub: string)
    requires |s| == 2 && |sub| == 2 && s != sub
    ensures !Contains(s, sub)
  {
    ShortNotContains(s[1..], sub);
  }

  // ---------------------------------------------------------------------------
  // The Android version annotation
  // ---------------------------------------------------------------------------

  /** The version markers, tried in this order. */
  const Markers: seq<string> := ["17", "16", "15", "14", "13", "12", "11", "10", "9", "8"]

  /** The annotation for marker i: the first eight support Fastbootd, 9 and 8 only classic Fastboot. */
  function MarkerNote(i: nat): string
    requires i < |Markers|
  {
    if i < 8 then " (Android " + Markers[i] + " - 支持Fastbootd)"
    else " (Android " + Markers[i] + " - 仅传统Fastboot)"
  }

  const OldAndroid := " (旧版本Android)"

  /** The first marker, from `from` on, that the version contains; |Markers| if none. */
  function FirstMarker(version: string, from: nat): (i: nat)
    requires from <= |Markers|
    ensures from <= i <= |Markers|
    ensures i < |Markers| ==> Contains(version, Markers[i])
    ensures forall j :: from <= j < i ==> !Contains(version, Markers[j])
    decreases |Markers| - from
  {
    if from == |Markers| then from
    else if Contains(version, Markers[from]) then from
    else FirstMarker(version, from + 1)
  }

  /** The annotation after a non-empty version: the first marker it contains decides. */
  function Annotation(version: string): string {
    var i := FirstMarker(version, 0);
    if i < |Markers| then MarkerNote(i) else OldAndroid
  }

  /** The Android version label: 未知 for an empty version, else the version with its annotation. */
  function VersionText(version: string): (r: string)
    ensures version == "" <==> r == UnknownText
    ensures version != "" ==> StartsWith(r, version)
  {
    if version == "" then UnknownText
    else
      var r := version + Annotation(version);
      assert r[..|version|] == version;
      assert |r| > |UnknownText| by {
        assert |Annotation(version)| >= |OldAndroid|;
      }
      r
  }

  /**
    The annotation is the note of the earliest marker in the order 17 … 10,
    9, 8 that the version contains, and the old-Android note when it contains
    none of them.
   */
  lemma AnnotationFirstMatch(version: string, i: nat)
    requires i < |Markers|
    ensures Annotation(version) == MarkerNote(i)
        <==> Contains(version, Markers[i]) && forall j :: 0 <= j < i ==> !Contains(version, Markers[j])
    ensures Annotation(version) == OldAndroid <==> forall j :: 0 <= j < |Markers| ==> !Contains(version, Markers[j])
  {
    var k := FirstMarker(version, 0);
    forall a: nat, b: nat | a < b < |Markers|
      ensures MarkerNote(a) != MarkerNote(b) && MarkerNote(a) != OldAndroid
    {
      NotesDistinct(a, b);
    }
    NoteNotOld(i);
    if k < |Markers| {
      NoteNotOld(k);
    }
  }

  lemma NotesDistinct(a: nat, b: nat)
    requires a < b < |Markers|
    ensures MarkerNote(a) != MarkerNote(b) && MarkerNote(a) != OldAndroid
  {
    var na := MarkerNote(a);
    var nb := MarkerNote(b);
    var prefix := " (Android ";
    assert na[..|prefix|] == prefix;
    assert OldAndroid[1] == '(' && OldAndroid[2] != 'A';
    assert na[2] == 'A';
    assert na[|prefix|] == Markers[a][0];
    assert nb[|prefix|] == Markers[b][0];
    if Markers[a][0] == Markers[b][0] {
      assert na[|prefix| + 1] == Markers[a][1];
      assert nb[|prefix| + 1] == Markers[b][1];
    }
  }

  lemma NoteNotOld(i: nat)
    requires i < |Markers|
    ensures MarkerNote(i) != OldAndroid
  {
    assert MarkerNote(i)[2] == 'A';
  }

  /** The eight fixed labels. */
  datatype Labels = Labels(serial: string, model: string, manufacturer: string, android: string,
                           bootloader: string, mode: string, root: string, battery: string)

  /** clearDeviceInfo's labels. */
  const Cleared := Labels(NotConnected, NotConnected, NotConnected, NotConnected,
                          NotConnected, NotConnected, NotConnected, NotConnected)

  /** updateDeviceInfo's labels for a record. */
  function LabelsOf(info: DeviceInfo): Labels {
    Labels(OrUnknown(info.serialNumber), OrUnknown(info.model), OrUnknown(info.manufacturer),
           VersionText(info.androidVersion),
           BootloaderText(info.bootloaderVersion, info.isBootloaderUnlocked),
           ModeText(info.mode), RootText(info.isRooted, info.androidVersion), OrUnknown(info.batteryHealth))
  }

  // ---------------------------------------------------------------------------
  // The widget map and the extra rows
  // ---------------------------------------------------------------------------

  /** The null widget pointer that QMap::value gives for a missing key. */
  const NoWidget := -1

  /** QMap::value: the widget under a key, or the null pointer. */
  function ValueOf(widgets: map<string, int>, key: string): int {
    if key in widgets then widgets[key] else NoWidget
  }

  /** QMap::key: the first key in key order holding the widget, or the empty string. */
  function KeyOf(widgets: map<string, int>, widget: int): (k: string)
    ensures k != "" ==> k in widgets && widgets[k] == widget
  {
    var holders := set k | k in widgets && widgets[k] == widget;
    if holders == {} then "" else Least(holders)
  }

  /** No two keys share a widget. */
  predicate Injective(widgets: map<string, int>) {
    forall k1, k2 :: k1 in widgets && k2 in widgets && k1 != k2 ==> widgets[k1] != widgets[k2]
  }

  /** The key the removal loop looks up is "cpu" while it is present, and empty once it is gone. */
  lemma CpuLookup(widgets: map<string, int>)
    requires Injective(widgets) && forall k :: k in widgets ==> widgets[k] >= 0
    ensures "cpu" in widgets ==> KeyOf(widgets, ValueOf(widgets, "cpu")) == "cpu"
    ensures "cpu" !in widgets ==> KeyOf(widgets, ValueOf(widgets, "cpu")) == ""
  {
    var v := ValueOf(widgets, "cpu");
    var holders := set k | k in widgets && widgets[k] == v;
    if "cpu" in widgets {
      assert holders == {"cpu"};
      assert IsLeast("cpu", holders);
      LeastUnique(holders);
    } else {
      assert holders == {};
    }
  }

  /** A row after the fixed eight: its caption and its widget. */
  datatype Row = Row(caption: string, widget: int)

  const CpuCaption := "CPU信息:"
  const StorageCaption := "存储空间:"

  /**
    What the CPU and storage blocks leave behind, from widgets w0, rows r0 and
    texts t0 to w, r and t: a key for each non-empty field, the old widgets
    kept, each such field's widget holding its text, and a row appended for
    each key that was missing.
   */
  predicate Extended(w: map<string, int>, r: seq<Row>, t: map<int, string>,
                     w0: map<string, int>, r0: seq<Row>, t0: map<int, string>, cpu: string, storage: string)
  {
    && w.Keys == w0.Keys + (if cpu != "" then {"cpu"} else {}) + (if storage != "" then {"storage"} else {})
    && (forall k :: k in w0 ==> w[k] == w0[k])
    && (cpu != "" ==> w["cpu"] in t && t[w["cpu"]] == cpu)
    && (storage != "" ==> w["storage"] in t && t[w["storage"]] == storage)
    && r == r0 + (if cpu != "" && "cpu" !in w0 then [Row(CpuCaption, w["cpu"])] else [])
              + (if storage != "" && "storage" !in w0 then [Row(StorageCaption, w["storage"])] else [])
  }

  /** The storage block after the CPU block: the two effects add up. */
  lemma StorageStep(w0: map<string, int>, r0: seq<Row>, t0: map<int, string>,
                    w1: map<string, int>, r1: seq<Row>, t1: map<int, string>,
                    w2: map<string, int>, r2: seq<Row>, t2: map<int, string>, cpu: string, storage: string)
    requires Extended(w1, r1, t1, w0, r0, t0, cpu, "")
    requires storage == "" ==> w2 == w1 && r2 == r1 && t2 == t1
    requires storage != "" ==> && "storage" in w2 && w2 == w1["storage" := w2["storage"]]
                               && ("storage" in w1 ==> w2 == w1 && r2 == r1)
                               && ("storage" !in w1 ==> r2 == r1 + [Row(StorageCaption, w2["storage"])])
                               && t2 == t1[w2["storage"] := storage]
    requires Injective(w2)
    ensures Extended(w2, r2, t2, w0, r0, t0, cpu, storage)
  {
    if storage != "" {
      assert "storage" in w1 <==> "storage" in w0;
      assert "cpu" in w2 ==> w2["cpu"] != w2["storage"];
      assert forall k :: k in w1 ==> w2[k] == w1[k];
      var cpuRow := if cpu != "" && "cpu" !in w0 then [Row(CpuCaption, w1["cpu"])] else [];
      var storageRow := if "storage" !in w0 then [Row(StorageCaption, w2["storage"])] else [];
      assert r2 == (r0 + cpuRow) + storageRow;
    }
  }

  /** The widgets of the eight fixed rows, numbered in the order the form adds them. */
  function FixedWidgets(): map<string, int> {
    map["serial" := 0, "model" := 1, "manufacturer" := 2, "android" := 3,
        "bootloader" := 4, "mode" := 5, "root" := 6, "battery" := 7]
  }

  lemma FixedWidgetsValid()
    ensures Injective(FixedWidgets())
    ensures forall k :: k in FixedWidgets() ==> 0 <= FixedWidgets()[k] < FixedRows
    ensures FixedWidgets().Keys == {"serial", "model", "manufacturer", "android", "bootloader", "mode", "root", "battery"}
  {
  }

  /** The number of fixed rows at the top of the form. */
  const FixedRows := 8

  class InfoPanel {
    var labels: Labels
    /** m_infoWidgets */
    var widgets: map<string, int>
    /** the form's rows after the fixed ones */
    var rows: seq<Row>
    /** the texts of the extra labels */
    var texts: map<int, string>
    /** the identity the next new widget gets */
    var nextId: int

    /** Widgets are distinct, non-null and already created. */
    predicate Valid()
      reads this
    {
      && 0 <= nextId
      && Injective(widgets)
      && (forall k :: k in widgets ==> 0 <= widgets[k] < nextId)
      && (forall i :: 0 <= i < |rows| ==> 0 <= rows[i].widget < nextId)
    }

    constructor()
      ensures Valid() && labels == Cleared && rows == []
      ensures widgets.Keys == {"serial", "model", "manufacturer", "android", "bootloader", "mode", "root", "battery"}
    {
      labels := Cleared;
      widgets := FixedWidgets();
      FixedWidgetsValid();
      rows := [];
      texts := map[];
      nextId := 8;
    }

    /** One block of the form: a new row and widget for a missing key, otherwise the existing widget's text. */
    method Show(key: string, caption: string, text: string)
      requires Valid()
      modifies this
      ensures Valid()
      ensures labels == old(labels)
      ensures key in widgets && widgets == old(widgets)[key := widgets[key]]
      ensures key in old(widgets) ==> widgets == old(widgets) && rows == old(rows)
      ensures key !in old(widgets) ==> rows == old(rows) + [Row(caption, widgets[key])]
      ensures texts == old(texts)[widgets[key] := text]
    {
      if key !in widgets {
        var id := nextId;
        nextId := nextId + 1;
        rows := rows + [Row(caption, id)];
        widgets := widgets[key := id];
        texts := texts[id := text];
      } else {
        texts := texts[widgets[key] := text];
      }
    }

    /**
      updateDeviceInfo: the labels from the record, then the CPU block twice
      and the storage block once, each only for a non-empty field.
     */
    method Update(info: DeviceInfo)
      requires Valid()
      modifies this
      ensures Valid()
      ensures labels == LabelsOf(info)
      ensures Extended(widgets, rows, texts, old(widgets), old(rows), old(texts), info.cpuInfo, info.storageSize)
    {
      labels := LabelsOf(info);
      ShowExtras(info.cpuInfo, info.storageSize);
    }

    /** The CPU block, repeated as the source repeats it, and the storage block. */
    method ShowExtras(cpu: string, storage: string)
      requires Valid()
      modifies this
      ensures Valid() && labels == old(labels)
      ensures Extended(widgets, rows, texts, old(widgets), old(rows), old(texts), cpu, storage)
    {
      ghost var w0, r0, t0 := widgets, rows, texts;
      ShowCpuTwice(cpu);
      ghost var w1, r1, t1 := widgets, rows, texts;
      if storage != "" {
        Show("storage", StorageCaption, storage);
      }
      StorageStep(w0, r0, t0, w1, r1, t1, widgets, rows, texts, cpu, storage);
    }

    /** The CPU block shown twice, as the source does: the second time only rewrites the same text. */
    method ShowCpuTwice(cpu: string)
      requires Valid()
      modifies this
      ensures Valid() && labels == old(labels)
      ensures Extended(widgets, rows, texts, old(widgets), old(rows), old(texts), cpu, "")
    {
      if cpu != "" {
        Show("cpu", CpuCaption, cpu);
      }
      ghost var w1, r1 := widgets, rows;
      if cpu != "" {
        Show("cpu", CpuCaption, cpu);
      }
      assert widgets == w1 && rows == r1;
    }

    /**
      clearDeviceInfo: every label back to 未连接 and every extra row removed,
      last first; of the widget keys only "cpu" is dropped, and only when
      there was an extra row.
     */
    method Clear()
      requires Valid()
      modifies this
      ensures Valid()
      ensures labels == Cleared && rows == []
      ensures widgets == (if old(rows) != [] && "cpu" in old(widgets) then old(widgets) - {"cpu"} else old(widgets))
      ensures texts == old(texts)
    {
      labels := Cleared;
      var total := FixedRows + |rows|;
      var i := total - 1;
      ghost var w0 := widgets;
      while i >= FixedRows
        invariant FixedRows - 1 <= i < total
        invariant |rows| == i + 1 - FixedRows
        invariant rows == old(rows)[..|rows|]
        invariant Valid()
        invariant labels == Cleared && texts == old(texts)
        invariant widgets == (if i < total - 1 && "cpu" in w0 then w0 - {"cpu"} else w0)
      {
        rows := rows[..i - FixedRows];
        CpuLookup(widgets);
        var key := KeyOf(widgets, ValueOf(widgets, "cpu"));
        if key != "" {
          widgets := widgets - {key};
        }
        i := i - 1;
      }
    }
  }

  /**
    After a clear, the storage key outlives its row: a later record with a
    storage size adds no storage row, so the size is written to a label that
    is no longer in the form.
   */
  method StorageRowLostAfterClear(info: DeviceInfo, storage: DeviceInfo) returns (p: InfoPanel)
    requires info.cpuInfo == "" && info.storageSize != "" && storage.storageSize != ""
    ensures "storage" in p.widgets
    ensures forall i :: 0 <= i < |p.rows| ==> p.rows[i].caption != StorageCaption
  {
    p := new InfoPanel();
    assert "cpu" !in p.widgets && "storage" !in p.widgets;
    p.Update(info);
    assert "cpu" !in p.widgets && "storage" in p.widgets;
    assert |p.rows| == 1;
    p.Clear();
    assert "storage" in p.widgets && p.rows == [];
    p.Update(storage.(cpuInfo := ""));
    assert p.rows == [];
  }
}
