/**
 * The original `MainActivity`, before the view model: it polls the tail of
 * the output buffer into its text view through a fixed 4 KiB window and asks
 * for pairing whenever the device is not yet paired, whatever its SDK level.
 */
module LegacyMainActivity {
  import opened Wrappers
  import opened OutputTail
  import opened ChangeFeed
  import opened ClientSetup

  /** `MAX_OUTPUT_BUFFER_SIZE`: the tail window, 4 KiB. */
  const MaxOutputBufferSize: nat := 1024 * 4

  /**
   * `readEndOfFile`: a suffix of the file, all of it when it has at most
   * 4096 bytes, otherwise exactly its last 4096 bytes.
   */
  function ReadEndOfFile(bytes: seq<byte>): (r: seq<byte>)
    ensures IsSuffix(r, bytes)
    ensures |r| == if |bytes| <= 4096 then |bytes| else 4096
  {
    Tail(bytes, MaxOutputBufferSize)
  }

  /** Byte for byte, a long file's window holds the file's bytes from offset `size - 4096` on. */
  lemma ReadEndOfFileAt(bytes: seq<byte>, i: nat)
    requires |bytes| > 4096 && i < 4096
    ensures ReadEndOfFile(bytes)[i] == bytes[|bytes| - 4096 + i]
  {
    TailAt(bytes, MaxOutputBufferSize, i);
  }

  class MainActivity {
    const adbPath: string
    /** The temporary file that holds the output, shared with the shell process. */
    const outputBufferFile: BufferFile
    /** Whether the `paired` preference was already set when the activity was created. */
    ghost const pairedAtCreate: bool

    /** The `paired` preference of the activity. */
    var paired: bool
    /** The text of the `output` view: never null, empty once cleared. */
    var outputText: seq<byte>
    /** Every text put into the `output` view by the feed, in order. */
    var shown: seq<seq<byte>>
    /** Every `adb` process started, in order. */
    var launched: seq<seq<string>>
    /** The argument vector of `adbShellProcess`, once assigned. */
    var shell: Option<seq<string>>
    /** The count of `pairingInfoLatch`. */
    var latch: nat
    /** Whether `handlePairing` showed the pairing dialog. */
    var pairDialogShown: bool
    var commandEnabled: bool
    var phase: Phase
    /** Every message passed to `debugMessage`, in order. */
    ghost var debugLog: seq<string>

    /**
     * A started shell is the `adb shell` process, and the `paired` preference
     * is only ever set once `wait-for-device` has been started.
     */
    ghost predicate Valid()
      reads this
    {
      && (phase == ShellStarted ==> shell == Some(Shell(adbPath)))
      && (paired ==> pairedAtCreate || WaitForDevice(adbPath) in launched)
    }

    /**
     * `onCreate`, up to the call of `initializeClient`: the buffer is a new,
     * empty temporary file.
     */
    constructor (adbPath: string, paired: bool)
      ensures Valid()
      ensures this.adbPath == adbPath && this.paired == paired
      ensures fresh(outputBufferFile) && outputBufferFile.contents == Some([])
      ensures outputText == [] && shown == [] && launched == [] && shell.None? && debugLog == []
      ensures latch == 1 && !pairDialogShown && !commandEnabled && phase == Idle
    {
      this.adbPath := adbPath;
      outputBufferFile := new BufferFile();
      pairedAtCreate := paired;
      this.paired := paired;
      outputText := [];
      shown := [];
      launched := [];
      shell := None;
      latch := 1;
      pairDialogShown := false;
      commandEnabled := false;
      phase := Idle;
      debugLog := [];
    }

    /** `debugMessage`: the message's `DEBUG: ` line is appended to the buffer file. */
    method DebugMessage(msg: string)
      modifies this`debugLog, outputBufferFile
      ensures outputBufferFile.contents == Some(old(outputBufferFile.contents).GetOr([]) + DebugLine(msg))
      ensures debugLog == old(debugLog) + [msg]
    {
      outputBufferFile.AppendText(DebugLine(msg));
      debugLog := debugLog + [msg];
    }

    /**
     * `adb(true, ...)`: the process starts with its output and errors
     * redirected to the buffer file, which the redirection truncates.
     */
    method LaunchRedirected(argv: seq<string>)
      modifies this`launched, outputBufferFile
      ensures launched == old(launched) + [argv]
      ensures outputBufferFile.contents == Some([])
    {
      outputBufferFile.WriteText([]);
      launched := launched + [argv];
    }

    /**
     * `startOutputFeed`, over the snapshots of the buffer file its polls find.
     * The loop never ends by itself; reading a missing file throws and ends
     * the thread, so it makes exactly the polls before the first missing
     * snapshot. Each replaces the text only when what it read differs.
     */
    method StartOutputFeed(snapshots: seq<Option<seq<byte>>>) returns (polls: nat)
      modifies this`outputText, this`shown
      ensures polls == FirstMissing(snapshots)
      ensures shown == old(shown) + Posts(Some(old(outputText)), Tails(snapshots[..polls], MaxOutputBufferSize))
      ensures Some(outputText) == Shown(Some(old(outputText)), Tails(snapshots[..polls], MaxOutputBufferSize))
    {
      polls := 0;
      ghost var polled: seq<seq<byte>> := [];
      while polls < |snapshots| && snapshots[polls].Some?
        invariant polls <= FirstMissing(snapshots)
        invariant polled == Tails(snapshots[..polls], MaxOutputBufferSize)
        invariant shown == old(shown) + Posts(Some(old(outputText)), polled)
        invariant Some(outputText) == Shown(Some(old(outputText)), polled)
      {
        FirstMissingAt(snapshots, polls);
        var out := ReadEndOfFile(snapshots[polls].value);
        TailsSnoc(snapshots, MaxOutputBufferSize, polls);
        ShowIfChanged(out, old(shown), old(outputText), polled);
        polled := polled + [out];
        polls := polls + 1;
      }
      FirstMissingAt(snapshots, polls);
    }

    /** One poll of the feed: the text is replaced by `out` only when they differ. */
    method ShowIfChanged(out: seq<byte>, ghost base: seq<seq<byte>>, ghost start: seq<byte>, ghost polled: seq<seq<byte>>)
      requires shown == base + Posts(Some(start), polled) && Some(outputText) == Shown(Some(start), polled)
      modifies this`outputText, this`shown
      ensures shown == base + Posts(Some(start), polled + [out])
      ensures Some(outputText) == Shown(Some(start), polled + [out])
    {
      PostsAppend(Some(start), polled, out);
      if out != outputText {
        outputText := out;
        shown := shown + [out];
      }
    }

    /**
     * `initializeClient`. The output text is cleared first. Unpaired, on any
     * SDK level, it logs the pairing request, shows the pairing dialog and
     * blocks on the latch while the latch is up; otherwise it goes straight on
     * to `wait-for-device` and the shell, whose redirection leaves the buffer
     * empty.
     */
    method InitializeClient()
      requires Valid() && phase == Idle
      modifies this, outputBufferFile
      ensures Valid()
      ensures outputText == [] && shown == old(shown)
      ensures pairDialogShown == (old(pairDialogShown) || !old(paired))
      ensures !old(paired) && old(latch) > 0 ==>
        && phase == AwaitingPairing && paired == old(paired)
        && launched == old(launched) && shell == old(shell) && !commandEnabled
        && debugLog == old(debugLog) + [RequestingPairingMessage]
        && outputBufferFile.contents == Some(old(outputBufferFile.contents).GetOr([]) + DebugLine(RequestingPairingMessage))
      ensures old(paired) || old(latch) == 0 ==>
        && phase == ShellStarted && paired && commandEnabled
        && launched == old(launched) + [WaitForDevice(adbPath), Shell(adbPath)]
        && debugLog == old(debugLog) + (if old(paired) then [] else [RequestingPairingMessage])
             + [WaitingMessage, ConnectedMessage, ShellingMessage]
        && outputBufferFile.contents == Some([])
      ensures latch == old(latch)
    {
      commandEnabled := false;
      outputText := [];
      if !paired {
        DebugMessage(RequestingPairingMessage);
        pairDialogShown := true;
        if latch > 0 {
          phase := AwaitingPairing;
          return;
        }
      }
      ConnectAndShell();
    }

    /**
     * The pairing dialog's confirm button: the request is logged, `adb pair
     * localhost:<port>` starts redirected into the buffer and runs to its end,
     * and the latch is counted down, whatever the pairing's outcome.
     */
    method PairDialogConfirmed(port: string)
      requires Valid()
      modifies this, outputBufferFile
      ensures Valid()
      ensures launched == old(launched) + [PairLaunch(adbPath, port)]
      ensures debugLog == old(debugLog) + [RequestingPairInfoMessage] && outputBufferFile.contents == Some([])
      ensures latch == if old(latch) > 0 then old(latch) - 1 else 0
      ensures paired == old(paired) && shell == old(shell) && phase == old(phase)
      ensures pairDialogShown == old(pairDialogShown) && commandEnabled == old(commandEnabled)
      ensures outputText == old(outputText) && shown == old(shown)
    {
      DebugMessage(RequestingPairInfoMessage);
      LaunchRedirected(PairLaunch(adbPath, port));
      if latch > 0 {
        latch := latch - 1;
      }
    }

    /**
     * `pairingInfoLatch.await()` in the blocked set-up thread: it stays
     * blocked while the latch is up, and once it is down carries on to
     * `wait-for-device` and the shell.
     */
    method AwaitPairing()
      requires Valid() && phase == AwaitingPairing
      modifies this, outputBufferFile
      ensures Valid()
      ensures old(latch) > 0 ==>
        && phase == AwaitingPairing && paired == old(paired)
        && launched == old(launched) && shell == old(shell)
        && debugLog == old(debugLog) && outputBufferFile.contents == old(outputBufferFile.contents)
      ensures old(latch) == 0 ==>
        && phase == ShellStarted && paired && commandEnabled
        && launched == old(launched) + [WaitForDevice(adbPath), Shell(adbPath)]
        && debugLog == old(debugLog) + [WaitingMessage, ConnectedMessage, ShellingMessage]
        && outputBufferFile.contents == Some([])
      ensures latch == old(latch) && pairDialogShown == old(pairDialogShown)
      ensures outputText == old(outputText) && shown == old(shown)
    {
      if latch == 0 {
        ConnectAndShell();
      }
    }

    /**
     * The end of `initializeClient`: `wait-for-device` runs to its end, only
     * then is the `paired` preference set, and the interactive shell starts
     * with its output redirected into the buffer, which that empties; each
     * step is logged first.
     */
    method ConnectAndShell()
      requires Valid()
      modifies this, outputBufferFile
      ensures Valid()
      ensures launched == old(launched) + [WaitForDevice(adbPath), Shell(adbPath)]
      ensures paired && shell == Some(Shell(adbPath)) && commandEnabled && phase == ShellStarted
      ensures debugLog == old(debugLog) + [WaitingMessage, ConnectedMessage, ShellingMessage]
      ensures outputBufferFile.contents == Some([])
      ensures latch == old(latch) && pairDialogShown == old(pairDialogShown)
      ensures outputText == old(outputText) && shown == old(shown)
    {
      DebugMessage(WaitingMessage);
      launched := launched + [WaitForDevice(adbPath)];
      DebugMessage(ConnectedMessage);
      paired := true;
      DebugMessage(ShellingMessage);
      LaunchRedirected(Shell(adbPath));
      shell := Some(Shell(adbPath));
      commandEnabled := true;
      phase := ShellStarted;
    }
  }
}
