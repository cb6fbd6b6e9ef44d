/**
 * `BookmarksRecyclerAdapter`: the bookmarks as a sorted set of strings
 * (a `TreeSet` in natural `String` order), persisted whole after every
 * change and shown one item per position in ascending order.
 */
module Bookmarks {

  // ---------------------------------------------------------------------
  // String order.
  // ---------------------------------------------------------------------

  /**
   * `a.compareTo(b) < 0`: at the first position where the strings differ
   * the character of `a` is smaller, or `a` is a proper prefix of `b`.
   */
  predicate Below(a: string, b: string) {
    if a == [] then b != []
    else if b == [] then false
    else if a[0] != b[0] then a[0] < b[0]
    else Below(a[1..], b[1..])
  }

  lemma {:induction false} BelowIrreflexive(a: string)
    ensures !Below(a, a)
  {
    if a != [] {
      BelowIrreflexive(a[1..]);
    }
  }

  lemma {:induction false} BelowTransitive(a: string, b: string, c: string)
    requires Below(a, b) && Below(b, c)
    ensures Below(a, c)
  {
    if a != [] && a[0] == b[0] && b[0] == c[0] {
      BelowTransitive(a[1..], b[1..], c[1..]);
    }
  }

  /** Two different strings are always ordered one way round: the order is total. */
  lemma {:induction false} BelowTotal(a: string, b: string)
    requires a != b
    ensures Below(a, b) || Below(b, a)
  {
    if a != [] && b != [] && a[0] == b[0] {
      assert a == [a[0]] + a[1..] && b == [b[0]] + b[1..];
      BelowTotal(a[1..], b[1..]);
    }
  }

  lemma BelowAsymmetric(a: string, b: string)
    requires Below(a, b)
    ensures !Below(b, a)
  {
    if Below(b, a) {
      BelowTransitive(a, b, a);
      BelowIrreflexive(a);
    }
  }

  // ---------------------------------------------------------------------
  // The sorted set as an ascending sequence.
  // ---------------------------------------------------------------------

  /** Ascending without repetitions: the iteration order of a `TreeSet`. */
  predicate StrictlySorted(s: seq<string>) {
    forall i, j :: 0 <= i < j < |s| ==> Below(s[i], s[j])
  }

  function Elements(s: seq<string>): set<string> {
    set x | x in s
  }

  /** `TreeSet.add`: the element goes in at its place in the order, once. */
  function Insert(s: seq<string>, t: string): seq<string> {
    if s == [] then [t]
    else if s[0] == t then s
    else if Below(t, s[0]) then [t] + s
    else [s[0]] + Insert(s[1..], t)
  }

  /** `TreeSet.remove`. */
  function Remove(s: seq<string>, t: string): seq<string> {
    if s == [] then []
    else (if s[0] == t then [] else [s[0]]) + Remove(s[1..], t)
  }

  lemma TailSorted(s: seq<string>)
    requires StrictlySorted(s) && s != []
    ensures StrictlySorted(s[1..])
  {
    var rest := s[1..];
    forall i, j | 0 <= i < j < |rest|
      ensures Below(rest[i], rest[j])
    {
      assert rest[i] == s[i + 1] && rest[j] == s[j + 1];
    }
  }

  /** An element below everything in an ascending sequence can go in front of it. */
  lemma SortedCons(x: string, r: seq<string>)
    requires StrictlySorted(r) && forall y :: y in r ==> Below(x, y)
    ensures StrictlySorted([x] + r)
  {
    var s := [x] + r;
    forall i, j | 0 <= i < j < |s|
      ensures Below(s[i], s[j])
    {
      if i == 0 {
        assert s[j] == r[j - 1];
      } else {
        assert s[i] == r[i - 1] && s[j] == r[j - 1];
      }
    }
  }

  /** Insertion adds `t` and keeps every other element. */
  lemma {:induction false} InsertElements(s: seq<string>, t: string)
    ensures forall y :: y in Insert(s, t) <==> y in s || y == t
  {
    if s != [] && s[0] != t && !Below(t, s[0]) {
      InsertElements(s[1..], t);
      assert s == [s[0]] + s[1..];
    }
  }

  /** In an ascending sequence, insertion lengthens the sequence by one exactly when `t` is new. */
  lemma {:induction false} InsertLength(s: seq<string>, t: string)
    requires StrictlySorted(s)
    ensures |Insert(s, t)| == |s| + (if t in s then 0 else 1)
  {
    if t in s {
      InsertPresent(s, t);
    } else if s != [] && !Below(t, s[0]) {
      TailSorted(s);
      InsertLength(s[1..], t);
    }
  }

  /** Insertion keeps the sequence ascending. */
  lemma {:induction false} InsertSorted(s: seq<string>, t: string)
    requires StrictlySorted(s)
    ensures StrictlySorted(Insert(s, t))
  {
    if s == [] {
    } else if s[0] == t {
    } else if Below(t, s[0]) {
      forall y | y in s
        ensures Below(t, y)
      {
        var k :| 0 <= k < |s| && s[k] == y;
        if k > 0 {
          BelowTransitive(t, s[0], y);
        }
      }
      SortedCons(t, s);
    } else {
      var rest := s[1..];
      TailSorted(s);
      InsertSorted(rest, t);
      InsertElements(rest, t);
      BelowTotal(t, s[0]);
      forall y | y in Insert(rest, t)
        ensures Below(s[0], y)
      {
        if y != t {
          var k :| 0 <= k < |rest| && rest[k] == y;
          assert s[k + 1] == y;
        }
      }
      SortedCons(s[0], Insert(rest, t));
    }
  }

  /** Adding an element already present changes nothing. */
  lemma {:induction false} InsertPresent(s: seq<string>, t: string)
    requires StrictlySorted(s) && t in s
    ensures Insert(s, t) == s
  {
    if s[0] != t {
      assert t in s[1..];
      var k :| 0 <= k < |s| && s[k] == t;
      assert Below(s[0], t);
      BelowAsymmetric(s[0], t);
      InsertPresent(s[1..], t);
      assert s == [s[0]] + s[1..];
    }
  }

  /** Removal drops `t` and keeps every other element. */
  lemma {:induction false} RemoveElements(s: seq<string>, t: string)
    ensures forall y :: y in Remove(s, t) <==> y in s && y != t
  {
    if s != [] {
      RemoveElements(s[1..], t);
      assert s == [s[0]] + s[1..];
    }
  }

  /** Removal keeps the sequence ascending. */
  lemma {:induction false} RemoveSorted(s: seq<string>, t: string)
    requires StrictlySorted(s)
    ensures StrictlySorted(Remove(s, t))
  {
    if s != [] {
      var rest := s[1..];
      TailSorted(s);
      RemoveSorted(rest, t);
      if s[0] != t {
        RemoveElements(rest, t);
        forall y | y in Remove(rest, t)
          ensures Below(s[0], y)
        {
          var k :| 0 <= k < |rest| && rest[k] == y;
          assert s[k + 1] == y;
        }
        SortedCons(s[0], Remove(rest, t));
      }
    }
  }

  /** Removing an element that is absent changes nothing. */
  lemma {:induction false} RemoveAbsent(s: seq<string>, t: string)
    requires t !in s
    ensures Remove(s, t) == s
  {
    if s != [] {
      assert t !in s[1..];
      RemoveAbsent(s[1..], t);
      assert s == [s[0]] + s[1..];
    }
  }

  /** In an ascending sequence, removal shortens the sequence by one exactly when `t` is there. */
  lemma {:induction false} RemoveLength(s: seq<string>, t: string)
    requires StrictlySorted(s)
    ensures |Remove(s, t)| == |s| - (if t in s then 1 else 0)
  {
    if s != [] {
      TailSorted(s);
      RemoveLength(s[1..], t);
      if s[0] == t {
        assert t !in s[1..] by {
          if t in s[1..] {
            var k :| 0 <= k < |s| - 1 && s[1..][k] == t;
            assert Below(s[0], s[k + 1]);
            BelowIrreflexive(t);
          }
        }
      }
      assert s == [s[0]] + s[1..];
    }
  }

  /**
   * An ascending sequence is determined by its elements: two ascending
   * sequences holding the same strings are the same sequence. The sorted set
   * is therefore faithfully a set.
   */
  lemma {:induction false} SortedUnique(s: seq<string>, t: seq<string>)
    requires StrictlySorted(s) && StrictlySorted(t)
    requires forall x :: x in s <==> x in t
    ensures s == t
  {
    if s != [] {
      assert s[0] in t;
    }
    if t != [] {
      assert t[0] in s;
    }
    if s != [] && t != [] {
      if s[0] != t[0] {
        var i :| 0 <= i < |t| && t[i] == s[0];
        var j :| 0 <= j < |s| && s[j] == t[0];
        assert Below(t[0], s[0]) && Below(s[0], t[0]);
        BelowAsymmetric(s[0], t[0]);
      }
      TailSorted(s);
      TailSorted(t);
      forall x
        ensures x in s[1..] <==> x in t[1..]
      {
        if x in s[1..] {
          var a :| 0 <= a < |s| - 1 && s[1..][a] == x;
          assert Below(s[0], s[a + 1]);
          BelowIrreflexive(x);
          assert x in t;
        }
        if x in t[1..] {
          var b :| 0 <= b < |t| - 1 && t[1..][b] == x;
          assert Below(t[0], t[b + 1]);
          BelowIrreflexive(x);
          assert x in s;
        }
      }
      SortedUnique(s[1..], t[1..]);
      assert s == [s[0]] + s[1..] && t == [t[0]] + t[1..];
    }
  }

  /** In an ascending sequence there are as many distinct elements as positions. */
  lemma {:induction false} SortedCount(s: seq<string>)
    requires StrictlySorted(s)
    ensures |Elements(s)| == |s|
  {
    if s != [] {
      var rest := s[1..];
      TailSorted(s);
      SortedCount(rest);
      assert s[0] !in rest by {
        if s[0] in rest {
          var k :| 0 <= k < |rest| && rest[k] == s[0];
          assert Below(s[0], s[k + 1]);
          BelowIrreflexive(s[0]);
        }
      }
      assert s == [s[0]] + rest;
      assert Elements(s) == {s[0]} + Elements(rest);
    }
  }

  /**
   * The element at position `i` of an ascending sequence is the `i`-th
   * smallest: exactly the elements before it are below it.
   */
  lemma PositionRank(s: seq<string>, i: nat)
    requires StrictlySorted(s) && i < |s|
    ensures forall j :: 0 <= j < |s| ==> (Below(s[j], s[i]) <==> j < i)
    ensures (set x | x in s && Below(x, s[i])) == Elements(s[..i])
  {
    forall j | 0 <= j < |s|
      ensures Below(s[j], s[i]) <==> j < i
    {
      if j == i {
        BelowIrreflexive(s[i]);
      } else if j > i {
        BelowAsymmetric(s[i], s[j]);
      }
    }
    forall x
      ensures (x in s && Below(x, s[i])) <==> x in s[..i]
    {
      if x in s && Below(x, s[i]) {
        var j :| 0 <= j < |s| && s[j] == x;
        assert s[..i][j] == x;
      }
      if x in s[..i] {
        var j :| 0 <= j < i && s[..i][j] == x;
        assert s[j] == x;
      }
    }
  }

  class BookmarksRecyclerAdapter {
    /** `list`, the sorted set, in ascending order. */
    var list: seq<string>
    /** The `bookmarks` string set in the preferences. */
    var saved: set<string>
    /** How many times `notifyDataSetChanged` was called. */
    var notifications: nat

    ghost predicate Valid()
      reads this
    {
      StrictlySorted(list)
    }

    /** A new adapter: an empty list over the preferences as stored. */
    constructor (saved: set<string>)
      ensures Valid()
      ensures list == [] && this.saved == saved && notifications == 0
    {
      list := [];
      this.saved := saved;
      notifications := 0;
    }

    /**
     * `updateList`: the list is cleared and refilled with the stored set, so
     * afterwards it holds exactly the stored bookmarks, whatever it held
     * before; the views are told only when `refresh` is set.
     */
    method UpdateList(refresh: bool)
      requires Valid()
      modifies this
      ensures Valid()
      ensures Elements(list) == saved
      ensures saved == old(saved)
      ensures notifications == old(notifications) + (if refresh then 1 else 0)
    {
      list := [];
      var rest := saved;
      while rest != {}
        invariant StrictlySorted(list)
        invariant forall y :: y in saved <==> y in list || y in rest
        invariant saved == old(saved) && notifications == old(notifications)
        decreases |rest|
      {
        var x :| x in rest;
        InsertSorted(list, x);
        InsertElements(list, x);
        list := Insert(list, x);
        rest := rest - {x};
      }
      if refresh {
        notifications := notifications + 1;
      }
    }

    /** `saveList`: the whole current set is written to the preferences. */
    method SaveList()
      modifies this`saved
      ensures saved == Elements(list)
    {
      saved := Elements(list);
    }

    /**
     * `add`: the list holds the old elements and `text`, in order; an element
     * already present leaves it as it was. The views are told and the set saved.
     */
    method Add(text: string)
      requires Valid()
      modifies this
      ensures Valid()
      ensures Elements(list) == old(Elements(list)) + {text}
      ensures text in old(list) ==> list == old(list)
      ensures saved == Elements(list)
      ensures notifications == old(notifications) + 1
    {
      InsertSorted(list, text);
      InsertElements(list, text);
      if text in list {
        InsertPresent(list, text);
      }
      list := Insert(list, text);
      notifications := notifications + 1;
      SaveList();
    }

    /**
     * `delete`: exactly `text` leaves the list; an absent `text` leaves it as
     * it was. The views are told and the set saved.
     */
    method Delete(text: string)
      requires Valid()
      modifies this
      ensures Valid()
      ensures Elements(list) == old(Elements(list)) - {text}
      ensures text !in old(list) ==> list == old(list)
      ensures saved == Elements(list)
      ensures notifications == old(notifications) + 1
    {
      RemoveSorted(list, text);
      RemoveElements(list, text);
      if text !in list {
        RemoveAbsent(list, text);
      }
      list := Remove(list, text);
      notifications := notifications + 1;
      SaveList();
    }

    /**
     * `edit`: `text` is removed and `newText` added. When `newText` was
     * already there beside `text`, the two merge and the list shrinks by one.
     */
    method Edit(text: string, newText: string)
      requires Valid()
      modifies this
      ensures Valid()
      ensures Elements(list) == (old(Elements(list)) - {text}) + {newText}
      ensures |list| == |old(list)| - (if text in old(list) then 1 else 0)
        + (if newText in old(list) && newText != text then 0 else 1)
      ensures saved == Elements(list)
      ensures notifications == old(notifications) + 1
    {
      RemoveSorted(list, text);
      RemoveElements(list, text);
      RemoveLength(list, text);
      var removed := Remove(list, text);
      InsertSorted(removed, newText);
      InsertElements(removed, newText);
      InsertLength(removed, newText);
      list := Insert(removed, newText);
      notifications := notifications + 1;
      SaveList();
    }

    /** `getItemCount`: the number of bookmarks in the set. */
    method ItemCount() returns (n: int)
      requires Valid()
      ensures n == |Elements(list)|
    {
      SortedCount(list);
      n := |list|;
    }

    /**
     * The text `onBindViewHolder` shows at `position`: the bookmark that has
     * exactly `position` bookmarks below it.
     */
    method ElementAt(position: int) returns (text: string)
      requires Valid() && 0 <= position < |list|
      ensures text in list
      ensures |set x | x in list && Below(x, text)| == position
    {
      text := list[position];
      PositionRank(list, position);
      assert StrictlySorted(list[..position]) by {
        forall i, j | 0 <= i < j < position
          ensures Below(list[..position][i], list[..position][j])
        {
        }
      }
      SortedCount(list[..position]);
    }
  }
}
