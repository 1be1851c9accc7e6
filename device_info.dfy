/**
  DeviceInfo: the per-device record, its 27-entry variant map and its two
  text renderings (the ADB template and the Fastboot report).
 */
module DeviceRecord {
  import opened Text
  import opened Modes

  /**
    One attached device. The source stores the mode as an int; every write in
    the source stores an enumerator (or the default 0), so the model keeps the
    enumeration and renders its Code().
   */
  datatype DeviceInfo = DeviceInfo(
    serialNumber: string,
    manufacturer: string,
    model: string,
    deviceName: string,
    androidVersion: string,
    buildNumber: string,
    imei: string,
    meid: string,
    simState: string,
    networkType: string,
    wifiMac: string,
    bluetoothMac: string,
    cpuInfo: string,
    ramSize: string,
    storageSize: string,
    screenResolution: string,
    batteryHealth: string,
    bootloaderVersion: string,
    basebandVersion: string,
    productName: string,
    variant: string,
    hwVersion: string,
    isBootloaderUnlocked: bool,
    isFastbootdMode: bool,
    isRooted: bool,
    selinuxStatus: string,
    mode: DeviceMode)

  /** Every text field of a record is empty. */
  predicate NoText(d: DeviceInfo) {
    && d.serialNumber == "" && d.manufacturer == "" && d.model == "" && d.deviceName == ""
    && d.androidVersion == "" && d.buildNumber == "" && d.imei == "" && d.meid == ""
    && d.simState == "" && d.networkType == "" && d.wifiMac == "" && d.bluetoothMac == ""
    && d.cpuInfo == "" && d.ramSize == "" && d.storageSize == "" && d.screenResolution == ""
    && d.batteryHealth == "" && d.bootloaderVersion == "" && d.basebandVersion == ""
    && d.productName == "" && d.variant == "" && d.hwVersion == "" && d.selinuxStatus == ""
  }

  /** DeviceInfo::DeviceInfo(): all flags false, mode 0, every string empty. */
  function Default(): (d: DeviceInfo)
    ensures NoText(d)
    ensures !d.isBootloaderUnlocked && !d.isFastbootdMode && !d.isRooted
    ensures d.mode.Code() == 0
  {
    DeviceInfo("", "", "", "", "", "", "", "", "", "", "", "", "", "", "", "", "", "", "", "", "", "",
               false, false, false, "", Unknown)
  }

  // ---------------------------------------------------------------------------
  // toMap
  // ---------------------------------------------------------------------------

  /** A QVariant as toMap fills it: a string, a bool or an int. */
  datatype Variant = Str(text: string) | Flag(flag: bool) | Number(number: int)

  /** The 27 keys of toMap, in the source's order. */
  const MapKeys: seq<string> := [
    "serialNumber", "manufacturer", "model", "deviceName", "androidVersion", "buildNumber",
    "imei", "meid", "simState", "networkType", "wifiMac", "bluetoothMac",
    "cpuInfo", "ramSize", "storageSize", "screenResolution", "batteryHealth",
    "productName", "variant", "hwVersion", "bootloaderVersion", "basebandVersion",
    "isBootloaderUnlocked", "isFastbootdMode",
    "isRooted", "selinuxStatus", "mode"]

  /** The values toMap stores, position by position with MapKeys. */
  function Values(d: DeviceInfo): (v: seq<Variant>)
    ensures |v| == |MapKeys|
  {
    [
      Str(d.serialNumber), Str(d.manufacturer), Str(d.model), Str(d.deviceName),
      Str(d.androidVersion), Str(d.buildNumber), Str(d.imei), Str(d.meid), Str(d.simState),
      Str(d.networkType), Str(d.wifiMac), Str(d.bluetoothMac), Str(d.cpuInfo), Str(d.ramSize),
      Str(d.storageSize), Str(d.screenResolution), Str(d.batteryHealth), Str(d.productName),
      Str(d.variant), Str(d.hwVersion), Str(d.bootloaderVersion), Str(d.basebandVersion),
      Flag(d.isBootloaderUnlocked), Flag(d.isFastbootdMode), Flag(d.isRooted),
      Str(d.selinuxStatus), Number(d.mode.Code())]
  }

  /** DeviceInfo::toMap: every one of the 27 names, bound to the field of that name. */
  function ToMap(d: DeviceInfo): (m: map<string, Variant>)
    ensures m.Keys == set k | k in MapKeys
  {
    MapKeysDistinct();
    map i | 0 <= i < |MapKeys| :: MapKeys[i] := Values(d)[i]
  }

  /** No key of toMap is repeated. */
  lemma MapKeysDistinct()
    ensures |MapKeys| == 27
    ensures forall i, j :: 0 <= i < j < |MapKeys| ==> MapKeys[i] != MapKeys[j]
  {
  }

  lemma {:induction false} DistinctSeqCard(ks: seq<string>)
    requires forall i, j :: 0 <= i < j < |ks| ==> ks[i] != ks[j]
    ensures |set k | k in ks| == |ks|
  {
    if ks != [] {
      var rest := ks[1..];
      DistinctSeqCard(rest);
      assert (set k | k in ks) == {ks[0]} + (set k | k in rest);
      assert ks[0] !in (set k | k in rest);
    }
  }

  /** toMap has exactly 27 entries. */
  lemma ToMapSize(d: DeviceInfo)
    ensures |ToMap(d)| == 27
  {
    MapKeysDistinct();
    DistinctSeqCard(MapKeys);
  }

  function TextAt(m: map<string, Variant>, k: string): string {
    if k in m && m[k].Str? then m[k].text else ""
  }

  function FlagAt(m: map<string, Variant>, k: string): bool {
    k in m && m[k].Flag? && m[k].flag
  }

  function NumberAt(m: map<string, Variant>, k: string): int {
    if k in m && m[k].Number? then m[k].number else 0
  }

  /**
    Reads a record back from a map, each field from the key of its name
    (missing or mistyped entries read as the defaults). This is the inverse
    that shows toMap binds every field, each to its own key.
   */
  function FromMap(m: map<string, Variant>): DeviceInfo {
    DeviceInfo(
      TextAt(m, "serialNumber"), TextAt(m, "manufacturer"), TextAt(m, "model"), TextAt(m, "deviceName"),
      TextAt(m, "androidVersion"), TextAt(m, "buildNumber"), TextAt(m, "imei"), TextAt(m, "meid"),
      TextAt(m, "simState"), TextAt(m, "networkType"), TextAt(m, "wifiMac"), TextAt(m, "bluetoothMac"),
      TextAt(m, "cpuInfo"), TextAt(m, "ramSize"), TextAt(m, "storageSize"), TextAt(m, "screenResolution"),
      TextAt(m, "batteryHealth"), TextAt(m, "bootloaderVersion"), TextAt(m, "basebandVersion"),
      TextAt(m, "productName"), TextAt(m, "variant"), TextAt(m, "hwVersion"),
      FlagAt(m, "isBootloaderUnlocked"), FlagAt(m, "isFastbootdMode"), FlagAt(m, "isRooted"),
      TextAt(m, "selinuxStatus"), ModeOfCode(NumberAt(m, "mode")))
  }

  /** toMap binds the i-th name to the i-th value. */
  lemma ToMapAt(d: DeviceInfo, i: int)
    requires 0 <= i < |MapKeys|
    ensures MapKeys[i] in ToMap(d) && ToMap(d)[MapKeys[i]] == Values(d)[i]
  {
    MapKeysDistinct();
  }

  /** toMap loses nothing: the record reads back from its map. */
  lemma FromToMap(d: DeviceInfo)
    ensures FromMap(ToMap(d)) == d
  {
    ToMapAt(d, 0);
    ToMapAt(d, 1);
    ToMapAt(d, 2);
    ToMapAt(d, 3);
    ToMapAt(d, 4);
    ToMapAt(d, 5);
    ToMapAt(d, 6);
    ToMapAt(d, 7);
    ToMapAt(d, 8);
    ToMapAt(d, 9);
    ToMapAt(d, 10);
    ToMapAt(d, 11);
    ToMapAt(d, 12);
    ToMapAt(d, 13);
    ToMapAt(d, 14);
    ToMapAt(d, 15);
    ToMapAt(d, 16);
    ToMapAt(d, 17);
    ToMapAt(d, 18);
    ToMapAt(d, 19);
    ToMapAt(d, 20);
    ToMapAt(d, 21);
    ToMapAt(d, 22);
    ToMapAt(d, 23);
    ToMapAt(d, 24);
    ToMapAt(d, 25);
    ToMapAt(d, 26);
    CodeRoundTrip(d.mode);
  }

  // ---------------------------------------------------------------------------
  // toString / toFastbootString
  // ---------------------------------------------------------------------------

  const FastbootHeader := "🚀 Fastboot设备信息:"
  const AdbHeader := "📱 Device Info:"

  /** The run-mode line's value: Fastbootd for the userspace variant, else legacy Fastboot. */
  function RunModeText(isFastbootd: bool): (r: string)
    ensures r == "Fastbootd" <==> isFastbootd
    ensures r == "传统Fastboot" <==> !isFastbootd
  {
    if isFastbootd then "Fastbootd" else "传统Fastboot"
  }

  /** The lock line's value: unlocked or locked, never anything else. */
  function LockText(unlocked: bool): (r: string)
    ensures r == "🔓 已解锁" <==> unlocked
    ensures r == "🔒 已锁定" <==> !unlocked
  {
    if unlocked then "🔓 已解锁" else "🔒 已锁定"
  }

  /** Lines joined with a newline after each one. */
  function Unlines(ls: seq<string>): string {
    if ls == [] then "" else ls[0] + "\n" + Unlines(ls[1..])
  }

  /** The nine labelled lines of the Fastboot report, after its header. */
  function FastbootLines(d: DeviceInfo): seq<string> {
    [ "   序列号: " + d.serialNumber,
      "   产品型号: " + d.productName,
      "   设备变体: " + d.variant,
      "   硬件版本: " + d.hwVersion,
      "   Bootloader版本: " + d.bootloaderVersion,
      "   BL锁状态: " + LockText(d.isBootloaderUnlocked),
      "   运行模式: " + RunModeText(d.isFastbootdMode),
      "   电池状态: " + d.batteryHealth,
      "   制造商: " + d.manufacturer ]
  }

  /** DeviceInfo::toFastbootString: the header and the nine lines, each ended by a newline. */
  function ToFastbootText(d: DeviceInfo): string {
    Unlines([FastbootHeader] + FastbootLines(d))
  }

  /** The first seven lines of the ADB template after its header. */
  function AdbLines(d: DeviceInfo): seq<string> {
    [ AdbHeader,
      "   Serial: " + d.serialNumber,
      "   Manufacturer: " + d.manufacturer,
      "   Model: " + d.model,
      "   Device: " + d.deviceName,
      "   Android: " + d.androidVersion,
      "   Build: " + d.buildNumber,
      "   IMEI: " + d.imei ]
  }

  /** The last line of the ADB template: the mode as an integer, not ended by a newline. */
  function AdbModeLine(d: DeviceInfo): string {
    "   Mode: " + NatToString(d.mode.Code())
  }

  /** The ADB template of toString: header, seven field lines, then the unterminated mode line. */
  function AdbText(d: DeviceInfo): string {
    Unlines(AdbLines(d)) + AdbModeLine(d)
  }

  /** Mode codes 2 and 3 are the ones toString treats as Fastboot-family, as written. */
  predicate FastbootCode(code: int) {
    code == 2 || code == 3
  }

  /** DeviceInfo::toString, as written: the Fastboot report for codes 2 and 3, the ADB template otherwise. */
  function ToText(d: DeviceInfo): string {
    if FastbootCode(d.mode.Code()) then ToFastbootText(d) else AdbText(d)
  }

  lemma HeadersDiffer(d: DeviceInfo)
    ensures ToFastbootText(d) != AdbText(d)
  {
    assert ToFastbootText(d)[0] == FastbootHeader[0] by {
      var f := [FastbootHeader] + FastbootLines(d);
      var rest := "\n" + Unlines(f[1..]);
      assert ToFastbootText(d) == FastbootHeader + rest;
      assert (FastbootHeader + rest)[0] == FastbootHeader[0];
    }
    assert AdbText(d)[0] == AdbHeader[0] by {
      var a := AdbLines(d);
      var rest := "\n" + Unlines(a[1..]) + AdbModeLine(d);
      assert AdbText(d) == AdbHeader + rest;
      assert (AdbHeader + rest)[0] == AdbHeader[0];
    }
    assert FastbootHeader[0] == '🚀' && AdbHeader[0] == '📱';
  }

  /** toString delegates to toFastbootString exactly when the mode code is 2 or 3. */
  lemma ToTextDelegates(d: DeviceInfo)
    ensures ToText(d) == ToFastbootText(d) <==> FastbootCode(d.mode.Code())
  {
    HeadersDiffer(d);
  }

  // Reading a rendering back line by line.

  /** Every line is non-empty and holds no line break. */
  predicate PlainLines(ls: seq<string>) {
    forall k :: 0 <= k < |ls| ==> ls[k] != "" && '\n' !in ls[k]
  }

  /** Non-empty lines without line breaks come back out of Unlines one for one. */
  lemma {:induction false} SplitUnlines(ls: seq<string>, tail: string)
    requires PlainLines(ls)
    ensures Split(Unlines(ls) + tail, '\n') == ls + Split(tail, '\n')
  {
    if ls == [] {
      assert Unlines(ls) + tail == tail;
    } else {
      var rest := Split(tail, '\n');
      var u := Unlines(ls[1..]);
      assert PlainLines(ls[1..]);
      SplitUnlines(ls[1..], tail);
      assert Unlines(ls) + tail == ls[0] + ['\n'] + (u + tail);
      SplitToken(ls[0], '\n', u + tail);
      assert ls == [ls[0]] + ls[1..];
      SeqAssoc([ls[0]], ls[1..], rest);
    }
  }

  /** No field shown by the Fastboot report holds a line break. */
  predicate FastbootFieldsSingleLine(d: DeviceInfo) {
    '\n' !in d.serialNumber && '\n' !in d.productName && '\n' !in d.variant && '\n' !in d.hwVersion
    && '\n' !in d.bootloaderVersion && '\n' !in d.batteryHealth && '\n' !in d.manufacturer
  }

  /**
    When no shown field holds a line break, toFastbootString reads back as the
    header followed by the nine lines, in the order serial, product, variant,
    hardware, bootloader, lock, run mode, battery, manufacturer.
   */
  lemma FastbootTextLines(d: DeviceInfo)
    requires FastbootFieldsSingleLine(d)
    ensures Split(ToFastbootText(d), '\n') == [FastbootHeader] + FastbootLines(d)
  {
    var ls := [FastbootHeader] + FastbootLines(d);
    FastbootLinesPlain(d);
    assert ToFastbootText(d) + "" == ToFastbootText(d);
    SplitUnlines(ls, "");
  }

  lemma FastbootLinesPlain(d: DeviceInfo)
    requires FastbootFieldsSingleLine(d)
    ensures PlainLines([FastbootHeader] + FastbootLines(d))
  {
    var ls := [FastbootHeader] + FastbootLines(d);
    assert FastbootHeader != "" && '\n' !in FastbootHeader;
    IdentityLinesPlain(d);
    VersionLinesPlain(d);
    StateLinesPlain(d);
    forall k | 0 < k < |ls|
      ensures ls[k] != "" && '\n' !in ls[k]
    {
      assert ls[k] == FastbootLines(d)[k - 1];
    }
  }

  /** The serial, product and variant lines of the Fastboot report are plain. */
  lemma IdentityLinesPlain(d: DeviceInfo)
    requires FastbootFieldsSingleLine(d)
    ensures forall k :: 0 <= k < 3 ==> FastbootLines(d)[k] != "" && '\n' !in FastbootLines(d)[k]
  {
    LabelledLine("   序列号: ", d.serialNumber);
    LabelledLine("   产品型号: ", d.productName);
    LabelledLine("   设备变体: ", d.variant);
  }

  /** The hardware, bootloader and lock lines of the Fastboot report are plain. */
  lemma VersionLinesPlain(d: DeviceInfo)
    requires FastbootFieldsSingleLine(d)
    ensures forall k :: 3 <= k < 6 ==> FastbootLines(d)[k] != "" && '\n' !in FastbootLines(d)[k]
  {
    LabelledLine("   硬件版本: ", d.hwVersion);
    LabelledLine("   Bootloader版本: ", d.bootloaderVersion);
    LabelledLine("   BL锁状态: ", LockText(d.isBootloaderUnlocked));
  }

  /** The run-mode, battery and manufacturer lines of the Fastboot report are plain. */
  lemma StateLinesPlain(d: DeviceInfo)
    requires FastbootFieldsSingleLine(d)
    ensures forall k :: 6 <= k < 9 ==> FastbootLines(d)[k] != "" && '\n' !in FastbootLines(d)[k]
  {
    LabelledLine("   运行模式: ", RunModeText(d.isFastbootdMode));
    LabelledLine("   电池状态: ", d.batteryHealth);
    LabelledLine("   制造商: ", d.manufacturer);
  }

  /** A label followed by a one-line value is a non-empty line. */
  lemma LabelledLine(tag: string, value: string)
    requires tag != [] && '\n' !in tag && '\n' !in value
    ensures tag + value != [] && '\n' !in tag + value
  {
  }

  predicate AdbFieldsSingleLine(d: DeviceInfo) {
    '\n' !in d.serialNumber && '\n' !in d.manufacturer && '\n' !in d.model && '\n' !in d.deviceName
    && '\n' !in d.androidVersion && '\n' !in d.buildNumber && '\n' !in d.imei
  }

  /**
    When no shown field holds a line break, the ADB template reads back as its
    header, the serial, manufacturer, model, device, Android, build and IMEI
    lines, and the mode line, whose number reads back as the mode's code.
   */
  lemma AdbTextLines(d: DeviceInfo)
    requires AdbFieldsSingleLine(d)
    ensures Split(AdbText(d), '\n') == AdbLines(d) + [AdbModeLine(d)]
    ensures ParseNat(NatToString(d.mode.Code())) == d.mode.Code()
  {
    var last := AdbModeLine(d);
    assert '\n' !in last;
    SplitUnlines(AdbLines(d), last);
    SplitWhole(last, '\n');
    ParseNatToString(d.mode.Code());
  }

  // ---------------------------------------------------------------------------
  // The code-3 collision, and the dispatch the comment at the branch describes
  // ---------------------------------------------------------------------------

  /** As written, an EDL 9008 record (code 3) is rendered as a Fastboot report … */
  lemma EdlRenderedAsFastboot(d: DeviceInfo)
    requires d.mode == Edl9008
    ensures ToText(d) == ToFastbootText(d)
  {
  }

  /** … while a Fastbootd record (code 6) gets the ADB template. */
  lemma FastbootdRenderedAsAdb(d: DeviceInfo)
    requires d.mode == Fastbootd
    ensures ToText(d) != ToFastbootText(d)
    ensures ToText(d) == AdbText(d)
  {
    HeadersDiffer(d);
  }

  /** toString as its comment intends: the Fastboot report for Fastboot and Fastbootd records. */
  function ToTextByMode(d: DeviceInfo): string {
    if d.mode == Fastboot || d.mode == Fastbootd then ToFastbootText(d) else AdbText(d)
  }

  lemma ToTextByModeDelegates(d: DeviceInfo)
    ensures ToTextByMode(d) == ToFastbootText(d) <==> d.mode in {Fastboot, Fastbootd}
  {
    HeadersDiffer(d);
  }
}
