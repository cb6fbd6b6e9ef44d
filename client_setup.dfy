/**
 * What the client set-up of both `MainActivity` versions and the view model's
 * pairing check share: the SDK level from which pairing by code exists, and
 * the stages the set-up coroutine goes through.
 */
module ClientSetup {
  import opened OutputTail
  import Adb

  /** `Build.VERSION_CODES.R`, Android 11, the first release with wireless pairing. */
  const SdkR: int := 30

  /** Not yet paired, on Android 11 or later: the user has to pair by code first. */
  predicate PairingRequired(paired: bool, sdkInt: int) {
    !paired && sdkInt >= SdkR
  }

  /**
   * Where the set-up coroutine of `initializeClient` stands: not started,
   * blocked on the pairing latch, holding a live shell, or past the shell's death.
   */
  datatype Phase = Idle | AwaitingPairing | ShellStarted | ShellDied

  /** `adb wait-for-device`: blocks until the device accepts the connection. */
  function WaitForDevice(adbPath: string): seq<string> {
    Adb.AdbArgv(adbPath, ["wait-for-device"])
  }

  /** `adb shell`, the interactive shell whose output goes to the buffer. */
  function Shell(adbPath: string): seq<string> {
    Adb.AdbArgv(adbPath, ["shell"])
  }

  /** `adb pair localhost:<port>`; the pairing code is written to its input. */
  function PairLaunch(adbPath: string, port: string): seq<string> {
    Adb.AdbArgv(adbPath, ["pair", "localhost:" + port])
  }

  /** The messages the set-up writes to the buffer through `debugMessage`. */
  const RequestingPairingMessage: string := "Requesting pairing information"
  const RequestingPairInfoMessage: string := "Requesting additional pairing information"
  const WaitingMessage: string := "Waiting for device to accept connection. This part may take a while."
  const ConnectedMessage: string := "Connection established"
  const ShellingMessage: string := "Shelling into device"

  /**
   * The bytes `debugMessage(msg)` appends to the buffer: `DEBUG: `, the
   * message and the line separator, which is a newline on Android.
   */
  function DebugLine(msg: string): seq<byte> {
    AsciiBytes("DEBUG: " + msg + "\n")
  }

  /** The bytes of the `debugMessage` calls for `msgs`, in order. */
  function DebugLines(msgs: seq<string>): seq<byte> {
    if msgs == [] then [] else DebugLines(msgs[..|msgs| - 1]) + DebugLine(msgs[|msgs| - 1])
  }

  /** One more message appends its line after the earlier ones. */
  lemma DebugLinesSnoc(msgs: seq<string>, msg: string)
    ensures DebugLines(msgs + [msg]) == DebugLines(msgs) + DebugLine(msg)
  {
    assert (msgs + [msg])[..|msgs|] == msgs;
  }

  /**
   * A poll whose window can hold the last logged line shows that line at the
   * end of what it reads.
   */
  lemma LastLineInWindow(msgs: seq<string>, window: nat)
    requires msgs != [] && |DebugLine(msgs[|msgs| - 1])| <= window
    ensures IsSuffix(DebugLine(msgs[|msgs| - 1]), Tail(DebugLines(msgs), window))
  {
    var log := DebugLines(msgs);
    var last := DebugLine(msgs[|msgs| - 1]);
    var t := Tail(log, window);
    assert log[|log| - |last|..] == last;
    assert t == log[|log| - |t|..];
    assert t[|t| - |last|..] == log[|log| - |last|..];
  }
}
