/**
 * `MainActivityViewModel`: the poller that publishes the tail of the shell's
 * output buffer, the start-once launch of the `adb` supervisor, and the
 * pairing preference.
 */
module MainViewModel {
  import opened Wrappers
  import opened OutputTail
  import opened ChangeFeed
  import opened ClientSetup
  import Adb

  /**
   * `readOutputFile` with the buffer size the setting gives. Allocating the
   * read buffer comes first and throws for a negative size, whether or not the
   * file exists (`None`). A missing file reads as empty; an existing one as the
   * whole file when it fits the buffer, otherwise as exactly its last
   * `bufferSize` bytes.
   */
  function ReadOutputFile(file: Option<seq<byte>>, bufferSize: int): (r: Option<seq<byte>>)
    ensures r.None? <==> bufferSize < 0
    ensures r.Some? && file.None? ==> r.value == []
    ensures r.Some? && file.Some? ==> IsSuffix(r.value, file.value) && |r.value| <= bufferSize
    ensures r.Some? && file.Some? && |file.value| <= bufferSize ==> r.value == file.value
    ensures r.Some? && file.Some? && |file.value| > bufferSize ==> |r.value| == bufferSize
  {
    if bufferSize < 0 then None else Some(Tail(file.GetOr([]), bufferSize))
  }

  /**
   * Polling a file that does not change, any number of times, posts at most
   * once: nothing when its window is already shown, otherwise that window once.
   */
  lemma UnchangedFilePostsOnce(current: Option<seq<byte>>, file: Option<seq<byte>>, files: seq<Option<seq<byte>>>, window: nat)
    requires files != [] && forall i :: 0 <= i < |files| ==> files[i] == file
    ensures var seen := Tail(file.GetOr([]), window);
      Posts(current, Tails(files, window)) == if current == Some(seen) then [] else [seen]
  {
    var polled := Tails(files, window);
    forall i | 0 <= i < |polled|
      ensures polled[i] == Tail(file.GetOr([]), window)
    {
      TailsAt(files, window, i);
    }
    UnchangedPostsOnce(current, Tail(file.GetOr([]), window), polled);
  }

  class MainActivityViewModel {
    /** `_outputText`: no value until the first post. */
    var outputText: Option<seq<byte>>
    /** Every value posted to `_outputText`, in order. */
    var posted: seq<seq<byte>>
    var viewModelHasStartedADB: bool
    /** How many shell-death watchers (`startShellDeathThread`) were launched. */
    var deathWatchers: nat
    /** `paired_key` in the default preferences. */
    var pairedKey: bool
    /** `Build.VERSION.SDK_INT`. */
    const sdkInt: int
    const adb: Adb.Adb
    /** `adb.outputBufferFile`. */
    const outputBufferFile: BufferFile

    constructor (adb: Adb.Adb, outputBufferFile: BufferFile, sdkInt: int, pairedKey: bool)
      ensures this.adb == adb && this.outputBufferFile == outputBufferFile
      ensures this.sdkInt == sdkInt && this.pairedKey == pairedKey
      ensures outputText.None? && posted == [] && !viewModelHasStartedADB && deathWatchers == 0
    {
      this.adb := adb;
      this.outputBufferFile := outputBufferFile;
      this.sdkInt := sdkInt;
      this.pairedKey := pairedKey;
      outputText := None;
      posted := [];
      viewModelHasStartedADB := false;
      deathWatchers := 0;
    }

    /**
     * `startOutputThread`, over the snapshots of the buffer file its polls
     * find. Each poll posts what it read only when that differs from the
     * current text. A negative buffer size kills the coroutine at its first
     * read, before anything is posted.
     */
    method RunOutputThread(snapshots: seq<Option<seq<byte>>>, setting: Option<string>)
      modifies this`outputText, this`posted
      ensures var size := Adb.GetOutputBufferSize(setting);
        size < 0 ==> outputText == old(outputText) && posted == old(posted)
      ensures var size := Adb.GetOutputBufferSize(setting);
        size >= 0 ==>
          && posted == old(posted) + Posts(old(outputText), Tails(snapshots, size))
          && outputText == Shown(old(outputText), Tails(snapshots, size))
    {
      var size := Adb.GetOutputBufferSize(setting);
      var i := 0;
      ghost var polled: seq<seq<byte>> := [];
      while i < |snapshots|
        invariant 0 <= i <= |snapshots|
        invariant size < 0 ==> i == 0 && outputText == old(outputText) && posted == old(posted)
        invariant size >= 0 ==> polled == Tails(snapshots[..i], size)
        invariant posted == old(posted) + Posts(old(outputText), polled)
        invariant outputText == Shown(old(outputText), polled)
      {
        var out := ReadOutputFile(snapshots[i], size);
        if out.None? {
          return;
        }
        TailsSnoc(snapshots, size, i);
        PostIfChanged(out.value, old(posted), old(outputText), polled);
        polled := polled + [out.value];
        i := i + 1;
      }
      assert snapshots[..i] == snapshots;
    }

    /** One poll of the output thread: `out` is posted only when it differs from the current text. */
    method PostIfChanged(out: seq<byte>, ghost base: seq<seq<byte>>, ghost start: Option<seq<byte>>, ghost polled: seq<seq<byte>>)
      requires posted == base + Posts(start, polled) && outputText == Shown(start, polled)
      modifies this`outputText, this`posted
      ensures posted == base + Posts(start, polled + [out])
      ensures outputText == Shown(start, polled + [out])
    {
      PostsAppend(start, polled, out);
      if Some(out) != outputText {
        outputText := Some(out);
        posted := posted + [out];
      }
    }

    /**
     * `startADBServer`. When this view model already started `adb`, or the
     * shell is running, it returns without starting anything or invoking the
     * callback. Otherwise it runs `initServer`; on `Success` it launches a
     * death watcher and records that it started `adb`. The callback receives
     * whether `initServer` returned `Success`.
     */
    method StartAdbServer(env: Adb.Environment, discovery: Adb.Discovery, outcome: Adb.ConnectOutcome)
      returns (callback: Option<bool>)
      requires adb.Valid()
      requires env.autoShell ==> Adb.WaitEnds(discovery)
      modifies this, adb
      ensures adb.Valid()
      ensures old(viewModelHasStartedADB) || old(adb.running) ==>
        && callback.None? && viewModelHasStartedADB == old(viewModelHasStartedADB)
        && deathWatchers == old(deathWatchers) && unchanged(adb)
      ensures !old(viewModelHasStartedADB) && !old(adb.running) ==>
        && callback.Some? && viewModelHasStartedADB == callback.value
        && deathWatchers == old(deathWatchers) + (if callback.value then 1 else 0)
        && (callback.value && !old(adb.tryingToPair) ==> adb.running)
      ensures outputText == old(outputText) && posted == old(posted) && pairedKey == old(pairedKey)
    {
      if viewModelHasStartedADB || adb.running {
        return None;
      }
      var result := adb.InitServer(env, discovery, outcome);
      var success := result == Adb.Success;
      if success {
        deathWatchers := deathWatchers + 1;
        viewModelHasStartedADB := true;
      }
      return Some(success);
    }

    /** `clearOutputText`: the buffer file is left existing and empty. */
    method ClearOutputText()
      modifies outputBufferFile
      ensures outputBufferFile.contents == Some([])
    {
      outputBufferFile.WriteText([]);
    }

    /** `needsToPair`: not yet paired, on Android 11 or later. */
    predicate NeedsToPair()
      reads this
    {
      PairingRequired(pairedKey, sdkInt)
    }

    /**
     * `setPairedBefore`: records the paired flag; once it is set, pairing is
     * no longer asked for, and once cleared it is again on Android 11 or later.
     */
    method SetPairedBefore(value: bool)
      modifies this
      ensures pairedKey == value
      ensures NeedsToPair() <==> !value && sdkInt >= SdkR
      ensures outputText == old(outputText) && posted == old(posted)
      ensures viewModelHasStartedADB == old(viewModelHasStartedADB) && deathWatchers == old(deathWatchers)
    {
      pairedKey := value;
    }
  }
}
