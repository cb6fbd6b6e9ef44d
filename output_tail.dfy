/**
 * The output buffer file and the tail window through which every output
 * poller reads it: the whole file when it fits in the window, otherwise the
 * last `window` bytes, read from offset `size - window`.
 */
module OutputTail {
  import opened Wrappers

  newtype byte = x: int | 0 <= x < 256

  predicate IsSuffix(t: seq<byte>, s: seq<byte>) {
    |t| <= |s| && s[|s| - |t|..] == t
  }

  /**
   * The tail window of a file of `|bytes|` bytes: the longest suffix of the
   * file that is no longer than the window.
   */
  function Tail(bytes: seq<byte>, window: nat): (r: seq<byte>)
    ensures IsSuffix(r, bytes)
    ensures |r| <= window
    ensures |r| < window ==> r == bytes
  {
    if |bytes| <= window then bytes else bytes[|bytes| - window..]
  }

  /** Byte for byte, the window holds the file's bytes at offsets `[|bytes| - |r|, |bytes|)`. */
  lemma TailAt(bytes: seq<byte>, window: nat, i: nat)
    requires i < |Tail(bytes, window)|
    ensures |bytes| <= window ==> Tail(bytes, window)[i] == bytes[i]
    ensures |bytes| > window ==> Tail(bytes, window)[i] == bytes[|bytes| - window + i]
  {
  }

  /**
   * Once the bytes appended since a poll fill the window, the window no longer
   * depends on what the file held before.
   */
  lemma TailForgetsHead(head: seq<byte>, recent: seq<byte>, window: nat)
    requires |recent| >= window
    ensures Tail(head + recent, window) == Tail(recent, window)
  {
    var all := head + recent;
    assert all[|all| - window..] == recent[|recent| - window..];
  }

  /**
   * The window after an append is determined by the window before it and the
   * appended bytes: reading the tail loses nothing a later tail needs.
   */
  lemma TailOfAppend(before: seq<byte>, appended: seq<byte>, window: nat)
    ensures Tail(before + appended, window) == Tail(Tail(before, window) + appended, window)
  {
    var t := Tail(before, window);
    var a := before + appended;
    var b := t + appended;
    if |a| > window {
      if |b| > window {
        assert a[|a| - window..] == b[|b| - window..];
      } else if |before| > window {
        assert appended == [] && a == before && b == t;
      } else {
        assert t == before;
      }
    } else {
      assert t == before;
    }
  }

  /**
   * What successive polls read from successive snapshots of the file: each
   * snapshot's tail window, a missing file reading as empty.
   */
  function Tails(files: seq<Option<seq<byte>>>, window: nat): (r: seq<seq<byte>>)
    ensures |r| == |files|
  {
    if files == [] then []
    else Tails(files[..|files| - 1], window) + [Tail(files[|files| - 1].GetOr([]), window)]
  }

  /** Poll `i` reads the tail window of snapshot `i`. */
  lemma {:induction false} TailsAt(files: seq<Option<seq<byte>>>, window: nat, i: nat)
    requires i < |files|
    ensures Tails(files, window)[i] == Tail(files[i].GetOr([]), window)
  {
    if i < |files| - 1 {
      TailsAt(files[..|files| - 1], window, i);
    }
  }

  /** The polls of the first `i + 1` snapshots read what the first `i` read, then snapshot `i`'s window. */
  lemma TailsSnoc(files: seq<Option<seq<byte>>>, window: nat, i: nat)
    requires i < |files|
    ensures Tails(files[..i + 1], window) == Tails(files[..i], window) + [Tail(files[i].GetOr([]), window)]
  {
    assert files[..i + 1][..i] == files[..i];
  }

  /** The number of polls before the first one that finds the file missing. */
  function FirstMissing(files: seq<Option<seq<byte>>>): (k: nat)
    ensures k <= |files|
  {
    if files == [] || files[0].None? then 0 else 1 + FirstMissing(files[1..])
  }

  /** The file exists at every poll before `FirstMissing`, and is missing at that poll if there is one. */
  lemma {:induction false} FirstMissingIsFirst(files: seq<Option<seq<byte>>>)
    ensures var k := FirstMissing(files);
      (k < |files| ==> files[k].None?) && forall j :: 0 <= j < k ==> files[j].Some?
  {
    if files != [] && files[0].Some? {
      FirstMissingIsFirst(files[1..]);
      assert forall j :: 1 <= j < FirstMissing(files) ==> files[j] == files[1..][j - 1];
    }
  }

  /**
   * Scanning the snapshots from the front: a poll at or before the first
   * missing snapshot that finds the file goes on, and one that finds it
   * missing, or runs out of snapshots, stops exactly there.
   */
  lemma {:induction false} FirstMissingAt(files: seq<Option<seq<byte>>>, i: nat)
    requires i <= FirstMissing(files)
    ensures i < |files| && files[i].Some? ==> i < FirstMissing(files)
    ensures i == |files| || (i < |files| && files[i].None?) ==> i == FirstMissing(files)
  {
    if i > 0 {
      FirstMissingAt(files[1..], i - 1);
    }
  }

  /**
   * Text as the buffer file stores it, one byte per character: the UTF-8
   * encoding of the ASCII messages the app itself writes.
   */
  function AsciiBytes(text: string): (r: seq<byte>)
    ensures |r| == |text|
  {
    if text == [] then [] else [(text[0] as int % 256) as byte] + AsciiBytes(text[1..])
  }

  /** The file that the shell process writes into and the pollers read. */
  class BufferFile {
    /** The file's bytes, or `None` when the file does not exist. */
    var contents: Option<seq<byte>>

    /** `File.createTempFile`: a new, empty file. */
    constructor ()
      ensures contents == Some([])
    {
      contents := Some([]);
    }

    /** `file.writeText(text)`: creates or truncates the file and writes `text`. */
    method WriteText(text: seq<byte>)
      modifies this
      ensures contents == Some(text)
    {
      contents := Some(text);
    }

    /** `file.appendText(text)`: creates the file when it is missing and adds `text` at its end. */
    method AppendText(text: seq<byte>)
      modifies this
      ensures contents == Some(old(contents).GetOr([]) + text)
    {
      contents := Some(contents.GetOr([]) + text);
    }
  }
}
