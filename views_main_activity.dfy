/**
 * `views.MainActivity`: the activity that forwards the tail of the output
 * buffer to the view model, pairs on Android 11 and later before shelling
 * into the device, and resets the client on request.
 */
module ViewsMainActivity {
  import opened Wrappers
  import opened OutputTail
  import opened ChangeFeed
  import opened ClientSetup
  import Adb

  /**
   * `readEndOfFile` with a window of `window` bytes: a suffix of the file,
   * all of it when it fits the window and exactly `window` bytes otherwise.
   */
  function ReadEndOfFile(bytes: seq<byte>, window: nat): (r: seq<byte>)
    ensures IsSuffix(r, bytes)
    ensures |r| == if |bytes| <= window then |bytes| else window
  {
    Tail(bytes, window)
  }

  const ShellDiedMessage: string := "Shell has died"
  const DisconnectingMessage: string := "Disconnecting all clients"
  const KillingMessage: string := "Killing server"
  const ClearingMessage: string := "Clearing pairing memory"
  const ErasingMessage: string := "Erasing all ADB server files"
  const ResetCompleteMessage: string := "LADB reset complete!"
  const ExitingMessage: string := "Exiting in three seconds"

  /** The messages the reset logs, in order. */
  const ResetMessages: seq<string> :=
    [DisconnectingMessage, KillingMessage, ClearingMessage, ErasingMessage, ResetCompleteMessage, ExitingMessage]

  class MainActivity {
    const adbPath: string
    /** `ProcessInfo.MAX_OUTPUT_BUFFER_SIZE`. */
    const window: nat
    /** `Build.VERSION.SDK_INT`. */
    const sdkInt: int
    /** The temporary file that holds the output, shared with the shell process. */
    const outputBufferFile: BufferFile
    /** Whether the `paired` preference was already set when the activity was created. */
    ghost const pairedAtCreate: bool

    /** The `paired` preference of the activity. */
    var paired: bool
    /** `viewModel.outputString`: no value until the first post. */
    var outputString: Option<seq<byte>>
    /** Every value posted to `outputString`, in order. */
    var posted: seq<seq<byte>>
    /** Every `adb` process started, in order. */
    var launched: seq<seq<string>>
    /** The argument vector of `adbShellProcess`, once assigned. */
    var shell: Option<seq<string>>
    /** The count of `pairingInfoLatch`. */
    var latch: nat
    /** Whether `handlePairing` showed the pairing dialog. */
    var pairDialogShown: bool
    var commandEnabled: bool
    var phase: Phase
    /** Every message passed to `debugMessage`, in order. */
    ghost var debugLog: seq<string>

    /**
     * A started shell is the `adb shell` process, and the `paired` preference
     * is only ever set once `wait-for-device` has been started.
     */
    ghost predicate Valid()
      reads this
    {
      && (phase == ShellStarted || phase == ShellDied ==> shell == Some(Shell(adbPath)))
      && (paired ==> pairedAtCreate || WaitForDevice(adbPath) in launched)
    }

    /**
     * `onCreate`, up to the call of `initializeClient`: the buffer is a new,
     * empty temporary file.
     */
    constructor (adbPath: string, window: nat, sdkInt: int, paired: bool)
      ensures Valid()
      ensures this.adbPath == adbPath && this.window == window && this.sdkInt == sdkInt && this.paired == paired
      ensures fresh(outputBufferFile) && outputBufferFile.contents == Some([])
      ensures outputString.None? && posted == [] && launched == [] && shell.None? && debugLog == []
      ensures latch == 1 && !pairDialogShown && !commandEnabled && phase == Idle
    {
      this.adbPath := adbPath;
      this.window := window;
      this.sdkInt := sdkInt;
      outputBufferFile := new BufferFile();
      pairedAtCreate := paired;
      this.paired := paired;
      outputString := None;
      posted := [];
      launched := [];
      shell := None;
      latch := 1;
      pairDialogShown := false;
      commandEnabled := false;
      phase := Idle;
      debugLog := [];
    }

    /** `debugMessage`: the message's `DEBUG: ` line is appended to the buffer file. */
    method DebugMessage(msg: string)
      modifies this`debugLog, outputBufferFile
      ensures outputBufferFile.contents == Some(old(outputBufferFile.contents).GetOr([]) + DebugLine(msg))
      ensures debugLog == old(debugLog) + [msg]
    {
      outputBufferFile.AppendText(DebugLine(msg));
      debugLog := debugLog + [msg];
    }

    /**
     * `adb(true, ...)`: the process starts with its output and errors
     * redirected to the buffer file, which the redirection truncates.
     */
    method LaunchRedirected(argv: seq<string>)
      modifies this`launched, outputBufferFile
      ensures launched == old(launched) + [argv]
      ensures outputBufferFile.contents == Some([])
    {
      outputBufferFile.WriteText([]);
      launched := launched + [argv];
    }

    /**
     * `startOutputFeed`, over the snapshots of the buffer file its polls find.
     * The loop runs while the file exists, so it makes exactly the polls
     * before the first missing snapshot; each posts the tail it read only
     * when that differs from the current output.
     */
    method StartOutputFeed(snapshots: seq<Option<seq<byte>>>) returns (polls: nat)
      modifies this`outputString, this`posted
      ensures polls == FirstMissing(snapshots)
      ensures posted == old(posted) + Posts(old(outputString), Tails(snapshots[..polls], window))
      ensures outputString == Shown(old(outputString), Tails(snapshots[..polls], window))
    {
      polls := 0;
      ghost var polled: seq<seq<byte>> := [];
      while polls < |snapshots| && snapshots[polls].Some?
        invariant polls <= FirstMissing(snapshots)
        invariant polled == Tails(snapshots[..polls], window)
        invariant posted == old(posted) + Posts(old(outputString), polled)
        invariant outputString == Shown(old(outputString), polled)
      {
        FirstMissingAt(snapshots, polls);
        var out := ReadEndOfFile(snapshots[polls].value, window);
        TailsSnoc(snapshots, window, polls);
        PostIfChanged(out, old(posted), old(outputString), polled);
        polled := polled + [out];
        polls := polls + 1;
      }
      FirstMissingAt(snapshots, polls);
    }

    /** One poll of the feed: `out` is posted only when it differs from the current output. */
    method PostIfChanged(out: seq<byte>, ghost base: seq<seq<byte>>, ghost start: Option<seq<byte>>, ghost polled: seq<seq<byte>>)
      requires posted == base + Posts(start, polled) && outputString == Shown(start, polled)
      modifies this`outputString, this`posted
      ensures posted == base + Posts(start, polled + [out])
      ensures outputString == Shown(start, polled + [out])
    {
      PostsAppend(start, polled, out);
      if Some(out) != outputString {
        outputString := Some(out);
        posted := posted + [out];
      }
    }

    /**
     * `initializeClient`. Unpaired on Android 11 or later, it logs the
     * pairing request, shows the pairing dialog and blocks on the latch while
     * the latch is up; otherwise it goes straight on to `wait-for-device` and
     * the shell, whose redirection leaves the buffer empty.
     */
    method InitializeClient()
      requires Valid() && phase == Idle
      modifies this, outputBufferFile
      ensures Valid()
      ensures pairDialogShown == (old(pairDialogShown) || PairingRequired(old(paired), sdkInt))
      ensures PairingRequired(old(paired), sdkInt) && old(latch) > 0 ==>
        && phase == AwaitingPairing && paired == old(paired)
        && launched == old(launched) && shell == old(shell) && !commandEnabled
        && debugLog == old(debugLog) + [RequestingPairingMessage]
        && outputBufferFile.contents == Some(old(outputBufferFile.contents).GetOr([]) + DebugLine(RequestingPairingMessage))
      ensures !(PairingRequired(old(paired), sdkInt) && old(latch) > 0) ==>
        && phase == ShellStarted && paired && commandEnabled
        && launched == old(launched) + [WaitForDevice(adbPath), Shell(adbPath)]
        && debugLog == old(debugLog) + (if PairingRequired(old(paired), sdkInt) then [RequestingPairingMessage] else [])
             + [WaitingMessage, ConnectedMessage, ShellingMessage]
        && outputBufferFile.contents == Some([])
      ensures latch == old(latch) && outputString == old(outputString) && posted == old(posted)
    {
      commandEnabled := false;
      if !paired && sdkInt >= SdkR {
        DebugMessage(RequestingPairingMessage);
        pairDialogShown := true;
        if latch > 0 {
          phase := AwaitingPairing;
          return;
        }
      }
      ConnectAndShell();
    }

    /**
     * The pairing dialog's confirm button: the request is logged, `adb pair
     * localhost:<port>` starts redirected into the buffer and runs to its end,
     * and the latch is counted down, whatever the pairing's outcome.
     */
    method PairDialogConfirmed(port: string)
      requires Valid()
      modifies this, outputBufferFile
      ensures Valid()
      ensures launched == old(launched) + [PairLaunch(adbPath, port)]
      ensures debugLog == old(debugLog) + [RequestingPairInfoMessage] && outputBufferFile.contents == Some([])
      ensures latch == if old(latch) > 0 then old(latch) - 1 else 0
      ensures paired == old(paired) && shell == old(shell) && phase == old(phase)
      ensures pairDialogShown == old(pairDialogShown) && commandEnabled == old(commandEnabled)
      ensures outputString == old(outputString) && posted == old(posted)
    {
      DebugMessage(RequestingPairInfoMessage);
      LaunchRedirected(PairLaunch(adbPath, port));
      if latch > 0 {
        latch := latch - 1;
      }
    }

    /**
     * `pairingInfoLatch.await()` in the blocked set-up coroutine: it stays
     * blocked while the latch is up, and once it is down carries on to
     * `wait-for-device` and the shell.
     */
    method AwaitPairing()
      requires Valid() && phase == AwaitingPairing
      modifies this, outputBufferFile
      ensures Valid()
      ensures old(latch) > 0 ==>
        && phase == AwaitingPairing && paired == old(paired)
        && launched == old(launched) && shell == old(shell)
        && debugLog == old(debugLog) && outputBufferFile.contents == old(outputBufferFile.contents)
      ensures old(latch) == 0 ==>
        && phase == ShellStarted && paired && commandEnabled
        && launched == old(launched) + [WaitForDevice(adbPath), Shell(adbPath)]
        && debugLog == old(debugLog) + [WaitingMessage, ConnectedMessage, ShellingMessage]
        && outputBufferFile.contents == Some([])
      ensures latch == old(latch) && pairDialogShown == old(pairDialogShown)
      ensures outputString == old(outputString) && posted == old(posted)
    {
      if latch == 0 {
        ConnectAndShell();
      }
    }

    /**
     * The end of `initializeClient`: `wait-for-device` runs to its end, only
     * then is the `paired` preference set, and the interactive shell starts
     * with its output redirected into the buffer, which that empties; each
     * step is logged first.
     */
    method ConnectAndShell()
      requires Valid()
      modifies this, outputBufferFile
      ensures Valid()
      ensures launched == old(launched) + [WaitForDevice(adbPath), Shell(adbPath)]
      ensures paired && shell == Some(Shell(adbPath)) && commandEnabled && phase == ShellStarted
      ensures debugLog == old(debugLog) + [WaitingMessage, ConnectedMessage, ShellingMessage]
      ensures outputBufferFile.contents == Some([])
      ensures latch == old(latch) && pairDialogShown == old(pairDialogShown)
      ensures outputString == old(outputString) && posted == old(posted)
    {
      DebugMessage(WaitingMessage);
      launched := launched + [WaitForDevice(adbPath)];
      DebugMessage(ConnectedMessage);
      paired := true;
      DebugMessage(ShellingMessage);
      LaunchRedirected(Shell(adbPath));
      shell := Some(Shell(adbPath));
      commandEnabled := true;
      phase := ShellStarted;
    }

    /**
     * `adbShellProcess.waitFor()` returning: the death is logged after
     * whatever the shell wrote, and commands are disabled.
     */
    method OnShellDeath()
      requires Valid() && phase == ShellStarted
      modifies this, outputBufferFile
      ensures Valid()
      ensures phase == ShellDied && !commandEnabled
      ensures debugLog == old(debugLog) + [ShellDiedMessage]
      ensures outputBufferFile.contents == Some(old(outputBufferFile.contents).GetOr([]) + DebugLine(ShellDiedMessage))
      ensures paired == old(paired) && launched == old(launched) && shell == old(shell)
      ensures latch == old(latch) && pairDialogShown == old(pairDialogShown)
      ensures outputString == old(outputString) && posted == old(posted)
    {
      DebugMessage(ShellDiedMessage);
      commandEnabled := false;
      phase := ShellDied;
    }

    /**
     * The help dialog's reset button: the buffer is emptied, every client is
     * disconnected, the server is killed and the `paired` preference cleared,
     * so that the next start asks for pairing again on Android 11 or later.
     * Each step is logged, so the buffer ends up holding exactly the reset's
     * own six lines, the last announcing the exit.
     */
    method Reset()
      requires Valid()
      modifies this, outputBufferFile
      ensures Valid()
      ensures debugLog == old(debugLog) + ResetMessages
      ensures outputBufferFile.contents == Some(DebugLines(ResetMessages))
      ensures !paired && !commandEnabled
      ensures launched == old(launched) + [Adb.AdbArgv(adbPath, ["disconnect"]), Adb.AdbArgv(adbPath, ["kill-server"])]
      ensures shell == old(shell) && phase == old(phase) && latch == old(latch)
      ensures outputString == old(outputString) && posted == old(posted)
    {
      commandEnabled := false;
      outputBufferFile.WriteText([]);
      ResetServer(debugLog);
      ResetFiles(old(debugLog));
      assert ResetMessages[..6] == ResetMessages;
    }

    /**
     * The first half of the reset: every client is disconnected, the server
     * killed and the `paired` preference cleared, each after its log line.
     */
    method ResetServer(ghost before: seq<string>)
      requires outputBufferFile.contents == Some([]) && debugLog == before
      modifies this`debugLog, this`launched, this`paired, outputBufferFile
      ensures outputBufferFile.contents == Some(DebugLines(ResetMessages[..3]))
      ensures debugLog == before + ResetMessages[..3]
      ensures launched == old(launched) + [Adb.AdbArgv(adbPath, ["disconnect"]), Adb.AdbArgv(adbPath, ["kill-server"])]
      ensures !paired
    {
      assert ResetMessages[..0] == [];
      LogResetStep(before, 0);
      launched := launched + [Adb.AdbArgv(adbPath, ["disconnect"])];
      LogResetStep(before, 1);
      launched := launched + [Adb.AdbArgv(adbPath, ["kill-server"])];
      LogResetStep(before, 2);
      paired := false;
    }

    /**
     * The second half of the reset: the app's files are erased, which leaves
     * the buffer alone since it lives in the cache directory, and the exit is
     * announced.
     */
    method ResetFiles(ghost before: seq<string>)
      requires outputBufferFile.contents == Some(DebugLines(ResetMessages[..3]))
      requires debugLog == before + ResetMessages[..3]
      modifies this`debugLog, outputBufferFile
      ensures outputBufferFile.contents == Some(DebugLines(ResetMessages[..6]))
      ensures debugLog == before + ResetMessages[..6]
    {
      LogResetStep(before, 3);
      LogResetStep(before, 4);
      LogResetStep(before, 5);
    }

    /** Step `k` of the reset's log, after the steps before it and nothing else. */
    method LogResetStep(ghost before: seq<string>, k: nat)
      requires k < |ResetMessages| && outputBufferFile.contents == Some(DebugLines(ResetMessages[..k]))
      requires debugLog == before + ResetMessages[..k]
      modifies this`debugLog, outputBufferFile
      ensures outputBufferFile.contents == Some(DebugLines(ResetMessages[..k + 1]))
      ensures debugLog == before + ResetMessages[..k + 1]
    {
      assert ResetMessages[..k] + [ResetMessages[k]] == ResetMessages[..k + 1];
      DebugLinesSnoc(ResetMessages[..k], ResetMessages[k]);
      DebugMessage(ResetMessages[k]);
    }
  }

  /**
   * A poll of the buffer as the reset leaves it shows the exit notice last,
   * once the window can hold that line.
   */
  lemma ResetAnnouncesExit(window: nat)
    requires |DebugLine(ExitingMessage)| <= window
    ensures IsSuffix(DebugLine(ExitingMessage), Tail(DebugLines(ResetMessages), window))
  {
    LastLineInWindow(ResetMessages, window);
  }
}
