/**
 * The connection supervisor around the bundled `adb` binary: parsing of the
 * `adb devices` listing, the choice of device and connect port, the DNS wait,
 * the buffer-size setting and the state changes of `initServer` and
 * `connectionAndStart`. Every external process is represented by its outcome,
 * which the caller supplies; the argument vectors of the processes launched are
 * recorded in `launched`, and the lines written to the shell in `shellInput`.
 */
module Adb {
  import opened Wrappers
  import opened Numbers
  import opened Text

  /** `MAX_OUTPUT_BUFFER_SIZE`, 16 KiB. */
  const MaxOutputBufferSize: int := 1024 * 16
  /** The default text of the buffer-size setting. */
  const DefaultBufferSizeSetting: string := "16384"
  /** The minimum dwell after discovery began, and the hard ceiling of the DNS wait, in milliseconds. */
  const MinDnsScanMs: int := 3000
  const MaxDnsWaitMs: int := 10000
  /** The line of the `adb devices` listing that is not a device. */
  const DevicesHeader: string := "List of devices attached"
  /** `BuildConfig.APPLICATION_ID`. */
  const ApplicationId: string := "com.draco.ladb"
  /** The default startup command: `echo 'Success! ※\(^o^)/※'`. */
  const DefaultStartupCommand: string := "echo 'Success! \U{203B}\\(^o^)/\U{203B}'"

  /** `ADB.InitResult`. */
  datatype InitResult = Success | NeedsPort | Failure

  // ---------------------------------------------------------------------
  // `getDevices`: drop the header, keep the text before the first tab,
  // drop empty names.
  // ---------------------------------------------------------------------

  /** `line.split("\t").first()`: the text before the first tab, or the whole line. */
  function BeforeTab(line: string): string {
    if line == [] || line[0] == '\t' then [] else [line[0]] + BeforeTab(line[1..])
  }

  /** The first field is a tab-free prefix of the line that ends at the first tab or at the end. */
  lemma {:induction false} BeforeTabIsField(line: string)
    ensures var r := BeforeTab(line);
      '\t' !in r && r <= line && (r == line || line[|r|] == '\t')
  {
    if line != [] && line[0] != '\t' {
      BeforeTabIsField(line[1..]);
    }
  }

  /** What one line of the listing contributes: its name, unless it is the header or the name is empty. */
  function DeviceOf(line: string): seq<string> {
    if Contains(line, DevicesHeader) || BeforeTab(line) == [] then [] else [BeforeTab(line)]
  }

  /** `getDevices` applied to the lines the `adb devices` process printed, one line at a time. */
  function GetDevices(lines: seq<string>): seq<string> {
    if lines == [] then [] else DeviceOf(lines[0]) + GetDevices(lines[1..])
  }

  // The three stages as the source writes them, each over the whole list.

  function DropHeader(lines: seq<string>): seq<string> {
    if lines == [] then []
    else (if Contains(lines[0], DevicesHeader) then [] else [lines[0]]) + DropHeader(lines[1..])
  }

  function FirstFields(lines: seq<string>): seq<string> {
    if lines == [] then [] else [BeforeTab(lines[0])] + FirstFields(lines[1..])
  }

  function DropEmpty(names: seq<string>): seq<string> {
    if names == [] then []
    else (if names[0] == [] then [] else [names[0]]) + DropEmpty(names[1..])
  }

  /** The line-at-a-time listing is the source's filter, map, filter pipeline. */
  lemma {:induction false} GetDevicesIsPipeline(lines: seq<string>)
    ensures GetDevices(lines) == DropEmpty(FirstFields(DropHeader(lines)))
  {
    if lines != [] {
      GetDevicesIsPipeline(lines[1..]);
      var kept := if Contains(lines[0], DevicesHeader) then [] else [lines[0]];
      FirstFieldsAppend(kept, DropHeader(lines[1..]));
      DropEmptyAppend(FirstFields(kept), FirstFields(DropHeader(lines[1..])));
    }
  }

  lemma {:induction false} FirstFieldsAppend(a: seq<string>, b: seq<string>)
    ensures FirstFields(a + b) == FirstFields(a) + FirstFields(b)
  {
    if a != [] {
      assert (a + b)[1..] == a[1..] + b;
      FirstFieldsAppend(a[1..], b);
    } else {
      assert a + b == b;
    }
  }

  lemma {:induction false} DropEmptyAppend(a: seq<string>, b: seq<string>)
    ensures DropEmpty(a + b) == DropEmpty(a) + DropEmpty(b)
  {
    if a != [] {
      assert (a + b)[1..] == a[1..] + b;
      DropEmptyAppend(a[1..], b);
    } else {
      assert a + b == b;
    }
  }

  /**
   * A name is listed exactly when it is non-empty and is the text before the
   * first tab of some line that is not the header line.
   */
  lemma {:induction false} DevicesListed(lines: seq<string>, name: string)
    ensures name in GetDevices(lines) <==>
      name != [] && exists l :: l in lines && !Contains(l, DevicesHeader) && BeforeTab(l) == name
  {
    if lines != [] {
      DevicesListed(lines[1..], name);
      assert forall l :: l in lines <==> l == lines[0] || l in lines[1..];
    }
  }

  /** Every listed name is non-empty and holds no tab. */
  lemma DevicesAreNames(lines: seq<string>, name: string)
    requires name in GetDevices(lines)
    ensures name != [] && '\t' !in name
  {
    DevicesListed(lines, name);
    var l :| l in lines && !Contains(l, DevicesHeader) && BeforeTab(l) == name;
    BeforeTabIsField(l);
  }

  /** The listing keeps the order of the lines: it distributes over concatenation. */
  lemma {:induction false} DevicesInOrder(a: seq<string>, b: seq<string>)
    ensures GetDevices(a + b) == GetDevices(a) + GetDevices(b)
  {
    if a != [] {
      assert (a + b)[1..] == a[1..] + b;
      DevicesInOrder(a[1..], b);
    } else {
      assert a + b == b;
    }
  }

  lemma {:induction false} BeforeTabOf(name: string, rest: string)
    requires '\t' !in name
    ensures BeforeTab(name + "\t" + rest) == name
  {
    if name != [] {
      assert (name + "\t" + rest)[1..] == name[1..] + "\t" + rest;
      BeforeTabOf(name[1..], rest);
    }
  }

  /**
   * A listing with the header line, one `serial<TAB>state` line and a blank
   * line yields exactly that serial, for any serial without a tab and any
   * state, as long as neither holds the header text.
   */
  lemma OneDeviceListing(name: string, state: string)
    requires name != [] && '\t' !in name
    requires !Contains(name, DevicesHeader) && !Contains(state, DevicesHeader)
    ensures GetDevices([DevicesHeader, name + "\t" + state, ""]) == [name]
  {
    var line := name + "\t" + state;
    assert Contains(DevicesHeader, DevicesHeader) by {
      assert OccursAt(DevicesHeader, DevicesHeader, 0);
    }
    if Contains(line, DevicesHeader) {
      assert '\t' !in DevicesHeader;
      ContainsAcrossSeparator(name, '\t', state, DevicesHeader);
    }
    assert !Contains("", DevicesHeader);
    BeforeTabOf(name, state);
    var lines := [DevicesHeader, line, ""];
    assert GetDevices(lines[2..]) == [];
    assert GetDevices(lines[1..]) == [name];
  }

  // ---------------------------------------------------------------------
  // Device choice in `connectionAndStart`.
  // ---------------------------------------------------------------------

  /** The first index whose name contains `sub` (when `present`) or lacks it; `|ds|` when none. */
  function FirstWith(ds: seq<string>, sub: string, present: bool): (k: nat)
    ensures k <= |ds|
  {
    if ds == [] then 0
    else if Contains(ds[0], sub) == present then 0
    else 1 + FirstWith(ds[1..], sub, present)
  }

  lemma {:induction false} FirstWithIsFirst(ds: seq<string>, sub: string, present: bool)
    ensures var k := FirstWith(ds, sub, present);
      (k < |ds| ==> Contains(ds[k], sub) == present) &&
      forall j :: 0 <= j < k ==> Contains(ds[j], sub) != present
  {
    if ds != [] && Contains(ds[0], sub) != present {
      FirstWithIsFirst(ds[1..], sub, present);
      var k := FirstWith(ds[1..], sub, present);
      assert forall j :: 1 <= j < k + 1 ==> ds[j] == ds[1..][j - 1];
    }
  }

  /**
   * The serial chosen among several devices: the first containing `localhost`;
   * when there is none, the first not containing `emulator`; when every one is
   * an emulator, the first device.
   */
  function ChooseDevice(ds: seq<string>): (r: string)
    requires ds != []
    ensures r in ds
  {
    var local := FirstWith(ds, "localhost", true);
    if local < |ds| then ds[local]
    else
      var device := FirstWith(ds, "emulator", false);
      if device < |ds| then ds[device] else ds[0]
  }

  /**
   * Device priority: the chosen serial is the first local device when there is
   * one; otherwise the first device that is not an emulator when there is one;
   * otherwise the first device.
   */
  lemma DevicePriority(ds: seq<string>)
    requires ds != []
    ensures (exists i :: 0 <= i < |ds| && Contains(ds[i], "localhost")) ==>
      (exists k :: 0 <= k < |ds| && ChooseDevice(ds) == ds[k] && Contains(ds[k], "localhost") &&
        forall j :: 0 <= j < k ==> !Contains(ds[j], "localhost"))
    ensures ((forall i :: 0 <= i < |ds| ==> !Contains(ds[i], "localhost")) &&
      (exists i :: 0 <= i < |ds| && !Contains(ds[i], "emulator"))) ==>
      (exists k :: 0 <= k < |ds| && ChooseDevice(ds) == ds[k] && !Contains(ds[k], "emulator") &&
        forall j :: 0 <= j < k ==> Contains(ds[j], "emulator"))
    ensures (forall i :: 0 <= i < |ds| ==> !Contains(ds[i], "localhost") && Contains(ds[i], "emulator")) ==>
      ChooseDevice(ds) == ds[0]
  {
    var local := FirstWith(ds, "localhost", true);
    var device := FirstWith(ds, "emulator", false);
    FirstWithIsFirst(ds, "localhost", true);
    FirstWithIsFirst(ds, "emulator", false);
    if local < |ds| {
      assert ChooseDevice(ds) == ds[local];
    } else if device < |ds| {
      assert ChooseDevice(ds) == ds[device];
    }
  }

  /** The arguments after the binary for the interactive `adb` shell. */
  function ShellArgs(ds: seq<string>): (args: seq<string>)
    requires ds != []
    ensures |ds| == 1 ==> args == ["shell"]
    ensures |ds| > 1 ==> |args| == 3 && args[0] == "-s" && args[1] in ds && args[2] == "shell"
  {
    if |ds| > 1 then ["-s", ChooseDevice(ds), "shell"] else ["shell"]
  }

  /** An emulator next to a network device: the network device is chosen. */
  lemma EmulatorPassedOver()
    ensures ShellArgs(["emulator-5554", "192.168.1.5:5555"]) == ["-s", "192.168.1.5:5555", "shell"]
  {
    var ds := ["emulator-5554", "192.168.1.5:5555"];
    NotContaining(ds[0], "localhost", 5);
    NotContaining(ds[1], "localhost", 0);
    NotContaining(ds[1], "emulator", 0);
    assert Contains(ds[0], "emulator") by {
      assert OccursAt(ds[0], "emulator", 0);
    }
    assert FirstWith(ds, "localhost", true) == 2;
    assert FirstWith(ds, "emulator", false) == 1;
  }

  /** A local device wins over an earlier network device. */
  lemma LocalDevicePreferred()
    ensures ShellArgs(["192.168.1.5:5555", "localhost:41234"]) == ["-s", "localhost:41234", "shell"]
  {
    var ds := ["192.168.1.5:5555", "localhost:41234"];
    NotContaining(ds[0], "localhost", 0);
    assert OccursAt(ds[1], "localhost", 0);
  }

  lemma NotContaining(s: string, sub: string, k: nat)
    requires k < |sub| && sub[k] !in s
    ensures !Contains(s, sub)
  {
    if Contains(s, sub) {
      ContainsHasChars(s, sub, k);
    }
  }

  // ---------------------------------------------------------------------
  // The connect port and the DNS wait of `initServer`.
  // ---------------------------------------------------------------------

  /** `lastConnectedPort ?: adbPort?.toString() ?: manualDebugPort`. */
  function ConnectPort(last: Option<string>, discovered: Option<int>, manual: Option<string>): (r: Option<string>)
    ensures r.None? <==> last.None? && discovered.None? && manual.None?
    ensures last.Some? ==> r == last
  {
    if last.Some? then last
    else if discovered.Some? then Some(DecimalString(discovered.value))
    else manual
  }

  /**
   * Port priority below the remembered port: a discovered port is used ahead of
   * the manual one and is written so that it reads back as the same number.
   */
  lemma DiscoveredPortRoundTrip(discovered: int, manual: Option<string>)
    requires MinInt <= discovered <= MaxInt
    ensures ConnectPort(None, Some(discovered), manual).Some?
    ensures ParseInt(ConnectPort(None, Some(discovered), manual).value) == Some(discovered)
  {
    ParseDecimalRoundTrip(discovered);
  }

  /** The manual port is used only when nothing was remembered or discovered. */
  lemma ManualPortLast(last: Option<string>, discovered: Option<int>, manual: string)
    ensures ConnectPort(last, discovered, Some(manual)) == Some(manual) <==>
      last == Some(manual) || (last.None? && (discovered.None? || DecimalString(discovered.value) == manual))
  {
  }

  /** `"localhost:$connectPort"`, where a missing port prints as `null`. */
  function ConnectTarget(port: Option<string>): string {
    "localhost:" + port.GetOr("null")
  }

  /**
   * With nothing remembered, `adb connect` is sent to the discovered port: the
   * target is `localhost:` followed by text that parses back to that port.
   */
  lemma DiscoveredTarget(discovered: int, manual: Option<string>)
    requires MinInt <= discovered <= MaxInt
    ensures var target := ConnectTarget(ConnectPort(None, Some(discovered), manual));
      |target| > 10 && target[..10] == "localhost:" && ParseInt(target[10..]) == Some(discovered)
  {
    var text := DecimalString(discovered);
    var target := ConnectTarget(ConnectPort(None, Some(discovered), manual));
    assert target == "localhost:" + text;
    assert target[10..] == text;
    ParseDecimalRoundTrip(discovered);
  }

  /** One observation of the wait loop: the clock and `DnsDiscover.pendingResolves`. */
  datatype DnsSample = DnsSample(now: int, pending: bool)

  /** The resolver counts as done: the minimum dwell is over and nothing is pending. */
  predicate DnsResolved(start: int, aliveTime: Option<int>, s: DnsSample) {
    s.now >= aliveTime.GetOr(start) + MinDnsScanMs && !s.pending
  }

  /** The wait loop stops at this observation. */
  predicate DnsWaitDone(start: int, aliveTime: Option<int>, s: DnsSample) {
    DnsResolved(start, aliveTime, s) || s.now >= start + MaxDnsWaitMs
  }

  /**
   * The DNS wait of `initServer`, over the observations made once per second
   * from `start` on. It stops at the first observation where discovery has
   * been alive for the minimum dwell (counted from `start` when discovery never
   * began) with nothing pending, or where the hard ceiling has passed.
   */
  method AwaitDns(start: int, aliveTime: Option<int>, clock: seq<DnsSample>) returns (exit: nat, resolved: bool)
    requires clock != [] && clock[|clock| - 1].now >= start + MaxDnsWaitMs
    ensures exit < |clock| && DnsWaitDone(start, aliveTime, clock[exit])
    ensures forall j :: 0 <= j < exit ==> !DnsWaitDone(start, aliveTime, clock[j])
    ensures resolved <==> DnsResolved(start, aliveTime, clock[exit])
    ensures !resolved ==> clock[exit].now >= start + MaxDnsWaitMs
    ensures forall j :: 0 <= j < exit ==> clock[j].now < start + MaxDnsWaitMs
  {
    var maxTimeoutTime := start + MaxDnsWaitMs;
    var minDnsScanTime := aliveTime.GetOr(start) + MinDnsScanMs;
    exit := 0;
    while true
      invariant exit < |clock|
      invariant forall j :: 0 <= j < exit ==> !DnsWaitDone(start, aliveTime, clock[j])
      decreases |clock| - exit
    {
      var sample := clock[exit];
      if sample.now >= minDnsScanTime && !sample.pending {
        return exit, true;
      }
      if sample.now >= maxTimeoutTime {
        return exit, false;
      }
      exit := exit + 1;
    }
  }

  // ---------------------------------------------------------------------
  // `getOutputBufferSize`.
  // ---------------------------------------------------------------------

  /**
   * The buffer-size setting parsed as a Java `int`; the default text when the
   * setting is unset, and `MaxOutputBufferSize` when the text does not parse.
   */
  function GetOutputBufferSize(setting: Option<string>): (r: int)
    ensures MinInt <= r <= MaxInt
    ensures ParseInt(setting.GetOr(DefaultBufferSizeSetting)).None? ==> r == MaxOutputBufferSize
    ensures ParseInt(setting.GetOr(DefaultBufferSizeSetting)).Some? ==>
      r == ParseInt(setting.GetOr(DefaultBufferSizeSetting)).value
  {
    var parsed := ParseInt(setting.GetOr(DefaultBufferSizeSetting));
    if parsed.Some? then parsed.value else MaxOutputBufferSize
  }

  /**
   * A setting `-n` is accepted as the negative size `-n` (down to the smallest
   * 32-bit value), which fails the read buffer's allocation.
   */
  lemma {:induction false} SignedSetting(n: nat)
    requires n <= -MinInt
    ensures GetOutputBufferSize(Some("-" + DecimalNat(n))) == -(n as int)
  {
    var text := "-" + DecimalNat(n);
    assert text[1..] == DecimalNat(n);
    DigitsValueOfDecimal(n);
  }

  /** With no setting, or a setting that is not a number, the size is 16 KiB. */
  lemma DefaultBufferSize(setting: Option<string>)
    requires setting.None? || ParseInt(setting.value).None?
    ensures GetOutputBufferSize(setting) == MaxOutputBufferSize
  {
    if setting.None? {
      ParseDecimalRoundTrip(16384);
      assert DecimalString(16384) == DefaultBufferSizeSetting by {
        assert DecimalNat(1) == "1";
        assert DecimalNat(16) == "16";
        assert DecimalNat(163) == "163";
        assert DecimalNat(1638) == "1638";
      }
    }
  }

  // ---------------------------------------------------------------------
  // The supervisor.
  // ---------------------------------------------------------------------

  /**
   * Settings as read while starting: `auto_shell`, the permission check, and
   * `startup_command` with its default applied (see `StartupCommandSetting`).
   */
  datatype Environment = Environment(autoShell: bool, secureSettingsGranted: bool, startupCommand: string)

  /** The `startup_command` preference as read: the stored text, or the default when unset. */
  function StartupCommandSetting(stored: Option<string>): string {
    stored.GetOr(DefaultStartupCommand)
  }

  /** What the external processes reported: whether `adb connect` finished in time, and the `adb devices` lines. */
  datatype ConnectOutcome = ConnectOutcome(connected: bool, deviceLines: seq<string>)

  /** What `initServer` observed while waiting for discovery. */
  datatype Discovery = Discovery(start: int, aliveTime: Option<int>, clock: seq<DnsSample>, adbPort: Option<int>)

  predicate WaitEnds(d: Discovery) {
    d.clock != [] && d.clock[|d.clock| - 1].now >= d.start + MaxDnsWaitMs
  }

  /** The result `connectionAndStart` reaches for an outcome. */
  function ConnectResult(outcome: ConnectOutcome): InitResult {
    if !outcome.connected then Failure
    else if GetDevices(outcome.deviceLines) == [] then NeedsPort
    else Success
  }

  /** The argument vector of `adb(...)`: the binary, then the arguments. */
  function AdbArgv(adbPath: string, args: seq<string>): seq<string> {
    [adbPath] + args
  }

  /** The interactive shell launched: `adb` with the device arguments, or `sh -l`. */
  function ShellArgv(adbPath: string, env: Environment, devices: seq<string>): seq<string>
    requires devices != []
  {
    if env.autoShell then AdbArgv(adbPath, ShellArgs(devices)) else ["sh", "-l"]
  }

  /** Makes `adb` inside the shell name the bundled binary. */
  function AliasLine(adbPath: string): string {
    "alias adb=\"" + adbPath + "\""
  }

  /** Asks the shell to grant this app the secure-settings permission, quietly. */
  const GrantLine: string := "pm grant " + ApplicationId + " android.permission.WRITE_SECURE_SETTINGS &> /dev/null"

  function EnteredLine(autoShell: bool): string {
    if autoShell then "echo 'Entered adb shell'" else "echo 'Entered non-adb shell'"
  }

  function GrantLines(env: Environment): seq<string> {
    if env.secureSettingsGranted then [] else [GrantLine]
  }

  function CommandLines(env: Environment): seq<string> {
    if env.startupCommand == [] then [] else [env.startupCommand]
  }

  /**
   * The lines sent to a fresh shell, in order: the alias, the permission grant
   * when the permission is missing, the greeting, and the startup command
   * unless it is empty.
   */
  function StartupLines(adbPath: string, env: Environment): (r: seq<string>)
    ensures 2 <= |r| <= 4 && r[0] == AliasLine(adbPath)
  {
    [AliasLine(adbPath)] + GrantLines(env) + [EnteredLine(env.autoShell)] + CommandLines(env)
  }

  /**
   * The last line a fresh shell receives: the default greeting when no startup
   * command is stored, the stored command when it is non-empty, and the
   * `Entered ...` line when the stored command is empty.
   */
  lemma StartupCommandLast(adbPath: string, env: Environment, stored: Option<string>)
    requires env.startupCommand == StartupCommandSetting(stored)
    ensures var lines := StartupLines(adbPath, env);
      && (stored.None? ==> lines[|lines| - 1] == DefaultStartupCommand)
      && (stored.Some? && stored.value != [] ==> lines[|lines| - 1] == stored.value)
      && (stored == Some([]) ==> lines[|lines| - 1] == EnteredLine(env.autoShell))
  {
  }

  /** The shell `connectionAndStart` launches once the listing is known: none for an empty listing. */
  function ShellLaunch(adbPath: string, env: Environment, devices: seq<string>): seq<seq<string>> {
    if devices == [] then [] else [ShellArgv(adbPath, env, devices)]
  }

  /** The processes `connectionAndStart` launches for an outcome. */
  function ConnectLaunches(adbPath: string, env: Environment, port: Option<string>, outcome: ConnectOutcome): seq<seq<string>> {
    [AdbArgv(adbPath, ["connect", ConnectTarget(port)])] +
    (if outcome.connected then [AdbArgv(adbPath, ["devices"])] + ShellLaunch(adbPath, env, GetDevices(outcome.deviceLines))
     else [])
  }

  class Adb {
    const adbPath: string
    /** `running`: the shell is ready for commands. */
    var running: bool
    /** The re-entrancy guard of `initServer`. */
    var tryingToPair: bool
    var manualDebugPort: Option<string>
    var lastConnectedPort: Option<string>
    /** The value of `ladb_last_connected_port` in the preferences. */
    var storedPort: Option<string>
    /** The argument vector of the current interactive shell, if any. */
    var shellProcess: Option<seq<string>>
    /** The lines written to the current shell. */
    var shellInput: seq<string>
    /** Every process launched, in order. */
    var launched: seq<seq<string>>

    /** A ready shell has a process; lines are written only to a process. */
    ghost predicate Valid()
      reads this
    {
      (running ==> shellProcess.Some?) && (shellProcess.None? ==> shellInput == [])
    }

    /** `init`: the remembered port is loaded from the preferences. */
    constructor (adbPath: string, storedPort: Option<string>)
      ensures Valid()
      ensures this.adbPath == adbPath && this.storedPort == storedPort
      ensures lastConnectedPort == storedPort && manualDebugPort.None?
      ensures !running && !tryingToPair && shellProcess.None? && shellInput == [] && launched == []
    {
      this.adbPath := adbPath;
      this.storedPort := storedPort;
      lastConnectedPort := storedPort;
      manualDebugPort := None;
      running, tryingToPair := false, false;
      shellProcess, shellInput, launched := None, [], [];
    }

    /** `setManualDebugPort`: the port becomes both the manual and the remembered port, unsaved. */
    method SetManualDebugPort(port: string)
      modifies this
      ensures manualDebugPort == Some(port) && lastConnectedPort == Some(port)
      ensures storedPort == old(storedPort) && running == old(running) && tryingToPair == old(tryingToPair)
      ensures shellProcess == old(shellProcess) && shellInput == old(shellInput) && launched == old(launched)
    {
      manualDebugPort := Some(port);
      lastConnectedPort := Some(port);
    }

    /** `sendToShellProcess`: a line for the shell, dropped when there is no shell. */
    method SendToShellProcess(msg: string)
      requires Valid()
      modifies this
      ensures Valid()
      ensures shellInput == if old(shellProcess).Some? then old(shellInput) + [msg] else old(shellInput)
      ensures shellProcess == old(shellProcess) && running == old(running) && tryingToPair == old(tryingToPair)
      ensures manualDebugPort == old(manualDebugPort) && lastConnectedPort == old(lastConnectedPort)
      ensures storedPort == old(storedPort) && launched == old(launched)
    {
      if shellProcess.None? {
        return;
      }
      shellInput := shellInput + [msg];
    }

    /**
     * The shell part of `connectionAndStart`: launch `adb shell` (or `sh -l`
     * without `auto_shell`) and write the startup lines to it.
     */
    method StartShell(env: Environment, deviceList: seq<string>)
      requires Valid() && deviceList != []
      modifies this
      ensures Valid()
      ensures shellProcess == Some(ShellArgv(adbPath, env, deviceList))
      ensures shellInput == StartupLines(adbPath, env)
      ensures launched == old(launched) + [ShellArgv(adbPath, env, deviceList)]
      ensures running == old(running) && tryingToPair == old(tryingToPair)
      ensures manualDebugPort == old(manualDebugPort) && lastConnectedPort == old(lastConnectedPort)
      ensures storedPort == old(storedPort)
    {
      var argv := ShellArgv(adbPath, env, deviceList);
      launched := launched + [argv];
      shellProcess := Some(argv);
      shellInput := [];

      SendStartupLines(env);
    }

    /** The startup lines of `connectionAndStart`, written to the shell one by one. */
    method SendStartupLines(env: Environment)
      requires Valid() && shellProcess.Some?
      modifies this
      ensures Valid()
      ensures shellInput == old(shellInput) + [AliasLine(adbPath)] + GrantLines(env) + [EnteredLine(env.autoShell)] + CommandLines(env)
      ensures shellProcess == old(shellProcess) && launched == old(launched)
      ensures running == old(running) && tryingToPair == old(tryingToPair)
      ensures manualDebugPort == old(manualDebugPort) && lastConnectedPort == old(lastConnectedPort)
      ensures storedPort == old(storedPort)
    {
      SendToShellProcess(AliasLine(adbPath));
      if !env.secureSettingsGranted {
        SendToShellProcess(GrantLine);
      }
      ghost var sent := old(shellInput) + [AliasLine(adbPath)] + GrantLines(env);
      assert shellInput == sent;
      if env.autoShell {
        SendToShellProcess("echo 'Entered adb shell'");
      } else {
        SendToShellProcess("echo 'Entered non-adb shell'");
      }
      sent := sent + [EnteredLine(env.autoShell)];
      assert shellInput == sent;
      if env.startupCommand != [] {
        SendToShellProcess(env.startupCommand);
      }
    }

    /**
     * `connectionAndStart`: connect, list the devices, start the shell and feed
     * it its startup lines. A timed-out connect fails; an empty listing asks for
     * a port and forgets the remembered one; otherwise the port is remembered
     * and saved and the shell is ready. Every normal exit clears the guard.
     */
    method ConnectionAndStart(connectPort: Option<string>, env: Environment, outcome: ConnectOutcome)
      returns (result: InitResult)
      requires Valid()
      modifies this
      ensures Valid()
      ensures result == ConnectResult(outcome)
      ensures !tryingToPair
      ensures launched == old(launched) + ConnectLaunches(adbPath, env, connectPort, outcome)
      ensures manualDebugPort == old(manualDebugPort)
      ensures result == Failure ==>
        && lastConnectedPort == old(lastConnectedPort) && storedPort == old(storedPort)
        && running == old(running) && shellProcess == old(shellProcess) && shellInput == old(shellInput)
      ensures result == NeedsPort ==>
        && lastConnectedPort.None? && storedPort == old(storedPort)
        && running == old(running) && shellProcess == old(shellProcess) && shellInput == old(shellInput)
      ensures result == Success ==>
        && lastConnectedPort == connectPort && storedPort == connectPort && running
        && shellProcess == Some(ShellArgv(adbPath, env, GetDevices(outcome.deviceLines)))
        && shellInput == StartupLines(adbPath, env)
    {
      launched := launched + [AdbArgv(adbPath, ["connect", ConnectTarget(connectPort)])];
      if !outcome.connected {
        tryingToPair := false;
        return Failure;
      }
      result := ListDevicesAndStart(connectPort, env, outcome.deviceLines);
    }

    /**
     * The part of `connectionAndStart` after a successful connect: `getDevices`
     * launches `adb devices`; an empty listing asks for a port and forgets the
     * remembered one, any other starts the shell and remembers and saves the port.
     */
    method ListDevicesAndStart(connectPort: Option<string>, env: Environment, deviceLines: seq<string>)
      returns (result: InitResult)
      requires Valid()
      modifies this
      ensures Valid()
      ensures result == (if GetDevices(deviceLines) == [] then NeedsPort else Success)
      ensures !tryingToPair && manualDebugPort == old(manualDebugPort)
      ensures launched == old(launched) + [AdbArgv(adbPath, ["devices"])] + ShellLaunch(adbPath, env, GetDevices(deviceLines))
      ensures result == NeedsPort ==>
        && lastConnectedPort.None? && storedPort == old(storedPort)
        && running == old(running) && shellProcess == old(shellProcess) && shellInput == old(shellInput)
      ensures result == Success ==>
        && lastConnectedPort == connectPort && storedPort == connectPort && running
        && shellProcess == Some(ShellArgv(adbPath, env, GetDevices(deviceLines)))
        && shellInput == StartupLines(adbPath, env)
    {
      launched := launched + [AdbArgv(adbPath, ["devices"])];
      var deviceList := GetDevices(deviceLines);
      if deviceList == [] {
        lastConnectedPort := None;
        tryingToPair := false;
        return NeedsPort;
      }
      StartShell(env, deviceList);
      lastConnectedPort := connectPort;
      storedPort := connectPort;
      running := true;
      tryingToPair := false;
      return Success;
    }

    /**
     * `initServer`. A running shell or a start already under way returns
     * `Success` at once and changes nothing. Otherwise, with `auto_shell`, the
     * server waits for discovery, starts the `adb` server and picks the port
     * (remembered, then discovered, then manual); with no port at all it asks
     * for one. Without `auto_shell` no port is chosen. The guard raised on
     * entry is lowered on every normal exit, so it ends as it began.
     */
    method InitServer(env: Environment, discovery: Discovery, outcome: ConnectOutcome) returns (result: InitResult)
      requires Valid()
      requires env.autoShell ==> WaitEnds(discovery)
      modifies this
      ensures Valid()
      ensures tryingToPair == old(tryingToPair)
      ensures manualDebugPort == old(manualDebugPort)
      ensures old(running) || old(tryingToPair) ==>
        && result == Success && running == old(running)
        && lastConnectedPort == old(lastConnectedPort) && storedPort == old(storedPort)
        && shellProcess == old(shellProcess) && shellInput == old(shellInput) && launched == old(launched)
      ensures (!old(running) && !old(tryingToPair) && env.autoShell &&
        ConnectPort(old(lastConnectedPort), discovery.adbPort, old(manualDebugPort)).None?) ==>
        && result == NeedsPort && !running
        && lastConnectedPort == old(lastConnectedPort) && storedPort == old(storedPort)
        && shellProcess == old(shellProcess) && shellInput == old(shellInput)
        && launched == old(launched) + [AdbArgv(adbPath, ["start-server"])]
      ensures (!old(running) && !old(tryingToPair) && env.autoShell &&
        ConnectPort(old(lastConnectedPort), discovery.adbPort, old(manualDebugPort)).Some?) ==>
        var port := ConnectPort(old(lastConnectedPort), discovery.adbPort, old(manualDebugPort));
        && result == ConnectResult(outcome)
        && launched == old(launched) + [AdbArgv(adbPath, ["start-server"])] + ConnectLaunches(adbPath, env, port, outcome)
        && (result == Success ==> lastConnectedPort == port && storedPort == port && running)
        && (result == NeedsPort ==> lastConnectedPort.None?)
      ensures !old(running) && !old(tryingToPair) && !env.autoShell ==>
        && result == ConnectResult(outcome)
        && launched == old(launched) + ConnectLaunches(adbPath, env, None, outcome)
        && (result == Success ==> lastConnectedPort.None? && storedPort.None? && running)
    {
      if running || tryingToPair {
        return Success;
      }
      tryingToPair := true;
      var connectPort: Option<string> := None;
      if env.autoShell {
        var exit, resolved := AwaitDns(discovery.start, discovery.aliveTime, discovery.clock);
        launched := launched + [AdbArgv(adbPath, ["start-server"])];
        connectPort := ConnectPort(lastConnectedPort, discovery.adbPort, manualDebugPort);
        if connectPort.None? {
          tryingToPair := false;
          return NeedsPort;
        }
      }
      result := ConnectionAndStart(connectPort, env, outcome);
    }

    /** `resumeInitServerWithPort`: the port becomes the manual one and the connection is retried with it. */
    method ResumeInitServerWithPort(port: string, env: Environment, outcome: ConnectOutcome) returns (result: InitResult)
      requires Valid()
      modifies this
      ensures Valid()
      ensures manualDebugPort == Some(port) && !tryingToPair
      ensures result == ConnectResult(outcome)
      ensures launched == old(launched) + ConnectLaunches(adbPath, env, Some(port), outcome)
      ensures result == Success ==> lastConnectedPort == Some(port) && storedPort == Some(port) && running
      ensures result == NeedsPort ==> lastConnectedPort.None?
      ensures result == Failure ==> lastConnectedPort == old(lastConnectedPort)
    {
      manualDebugPort := Some(port);
      result := ConnectionAndStart(Some(port), env, outcome);
    }

    /**
     * `pair`: runs `adb pair localhost:<port>`, then `adb kill-server`; pairing
     * succeeded exactly when the pair process exited with status 0.
     */
    method Pair(port: string, exitValue: int) returns (success: bool)
      modifies this
      ensures success <==> exitValue == 0
      ensures launched == old(launched) + [AdbArgv(adbPath, ["pair", "localhost:" + port]), AdbArgv(adbPath, ["kill-server"])]
      ensures running == old(running) && tryingToPair == old(tryingToPair) && shellProcess == old(shellProcess)
      ensures shellInput == old(shellInput) && lastConnectedPort == old(lastConnectedPort)
      ensures manualDebugPort == old(manualDebugPort) && storedPort == old(storedPort)
    {
      launched := launched + [AdbArgv(adbPath, ["pair", "localhost:" + port])];
      launched := launched + [AdbArgv(adbPath, ["kill-server"])];
      success := exitValue == 0;
    }
  }
}
