/**
 * The change-only publisher shared by every output poller: each poll polled a
 * value and posts it only when it differs from the value currently shown.
 */
module ChangeFeed {
  import opened Wrappers

  /** The value shown after the polls that read `polled`, starting from `current`. */
  function Shown<T>(current: Option<T>, polled: seq<T>): Option<T> {
    if polled == [] then current else Some(polled[|polled| - 1])
  }

  /** The values posted, in order, by polls that read `polled`, starting from `current`. */
  function Posts<T(==)>(current: Option<T>, polled: seq<T>): seq<T>
  {
    if polled == [] then []
    else
      var earlier := polled[..|polled| - 1];
      var x := polled[|polled| - 1];
      Posts(current, earlier) + (if Shown(current, earlier) == Some(x) then [] else [x])
  }

  /** One more poll posts the value it read exactly when that value is not already shown. */
  lemma PostsAppend<T>(current: Option<T>, polled: seq<T>, x: T)
    ensures Posts(current, polled + [x]) ==
      Posts(current, polled) + (if Shown(current, polled) == Some(x) then [] else [x])
    ensures Shown(current, polled + [x]) == Some(x)
  {
    assert (polled + [x])[..|polled|] == polled;
  }

  /** A poll posts at most once, so there are never more posts than polls. */
  lemma {:induction false} PostsBounded<T>(current: Option<T>, polled: seq<T>)
    ensures |Posts(current, polled)| <= |polled|
  {
    if polled != [] {
      PostsBounded(current, polled[..|polled| - 1]);
    }
  }

  /**
   * No post repeats the value shown before it: the first post differs from the
   * initial value and consecutive posts differ from each other.
   */
  lemma {:induction false} PostsNeverRepeat<T>(current: Option<T>, polled: seq<T>)
    ensures var p := Posts(current, polled);
      (p != [] ==> current != Some(p[0])) &&
      forall i :: 0 <= i < |p| - 1 ==> p[i] != p[i + 1]
  {
    if polled != [] {
      var earlier := polled[..|polled| - 1];
      PostsNeverRepeat(current, earlier);
      PostsReachShown(current, earlier);
    }
  }

  /**
   * Subscribers end up seeing the last value read: the last post, or the
   * initial value when nothing was posted, is what the polls left shown.
   */
  lemma {:induction false} PostsReachShown<T>(current: Option<T>, polled: seq<T>)
    ensures var p := Posts(current, polled);
      (if p == [] then current else Some(p[|p| - 1])) == Shown(current, polled)
  {
    if polled != [] {
      PostsReachShown(current, polled[..|polled| - 1]);
    }
  }

  /**
   * Polling an unchanged file any number of times posts at most once: exactly
   * once when the value differs from what is shown, never when it is the same.
   */
  lemma {:induction false} UnchangedPostsOnce<T>(current: Option<T>, x: T, polled: seq<T>)
    requires polled != [] && forall i :: 0 <= i < |polled| ==> polled[i] == x
    ensures Posts(current, polled) == if current == Some(x) then [] else [x]
  {
    var earlier := polled[..|polled| - 1];
    if earlier != [] {
      UnchangedPostsOnce(current, x, earlier);
    }
  }
}
