/** Linear search and first-occurrence erasure over sequences.
    Both the per-cell tag lists of the occupancy grid and the population
    lists are searched front to back and lose only their first match. */
module Seqs {

  /** Index of the first occurrence of `t` in `s`, or -1 when there is none. */
  function FirstIndex<T(==)>(s: seq<T>, t: T): (k: int)
    ensures -1 <= k < |s|
  {
    if s == [] then -1
    else if s[0] == t then 0
    else
      var k := FirstIndex(s[1..], t);
      if k == -1 then -1 else k + 1
  }

  /** The first index is -1 exactly when `t` is absent; otherwise it holds
      `t` and nothing before it does. */
  lemma {:induction false} FirstIndexMeans<T>(s: seq<T>, t: T)
    ensures var k := FirstIndex(s, t);
      && (k == -1 <==> t !in s)
      && (0 <= k ==> s[k] == t && t !in s[..k])
  {
    if s != [] && s[0] != t {
      FirstIndexMeans(s[1..], t);
      assert s == [s[0]] + s[1..];
      var k := FirstIndex(s[1..], t);
      if k != -1 {
        assert s[..k + 1] == [s[0]] + s[1..][..k];
      }
    }
  }

  /** A position holding `t` with no `t` before it is the first index. */
  lemma {:induction false} FirstIndexIs<T>(s: seq<T>, t: T, k: int)
    requires 0 <= k < |s| && s[k] == t && t !in s[..k]
    ensures FirstIndex(s, t) == k
  {
    if k > 0 {
      assert s[0] == s[..k][0];
      assert s[1..][..k - 1] == s[..k][1..];
      FirstIndexIs(s[1..], t, k - 1);
    }
  }

  /** `s` without its element at index `k`; `s` itself when `k` is not an
      index (the "not found" marker -1 in particular). */
  function EraseAt<T>(s: seq<T>, k: int): seq<T> {
    if 0 <= k < |s| then s[..k] + s[k + 1..] else s
  }

  /** Erasing never introduces an element. */
  lemma EraseAtWithin<T>(s: seq<T>)
    ensures forall k, x :: x in EraseAt(s, k) ==> x in s
  {
  }

  /** `s` with its first occurrence of `t` erased; `s` itself when `t` is absent. */
  function RemoveFirst<T(==)>(s: seq<T>, t: T): seq<T> {
    EraseAt(s, FirstIndex(s, t))
  }

  /** Removing the first `t` changes nothing when `t` is absent, and
      otherwise takes exactly one `t` out of the multiset of elements. */
  lemma RemoveFirstMeans<T>(s: seq<T>, t: T)
    ensures t !in s ==> RemoveFirst(s, t) == s
    ensures t in s ==> |RemoveFirst(s, t)| == |s| - 1
    ensures multiset(RemoveFirst(s, t)) == multiset(s) - multiset{t}
  {
    FirstIndexMeans(s, t);
    var k := FirstIndex(s, t);
    if k != -1 {
      assert s == s[..k] + [t] + s[k + 1..];
    }
  }

  /** A loop that walks a list by index and erases an element at or before
      its cursor skips the element right after the cursor: that element
      slides into the slot just visited, and the next slot holds its successor. */
  lemma EraseBehindCursorSkips<T>(s: seq<T>, k: int, i: int)
    requires 0 <= k <= i && i + 1 < |s|
    ensures EraseAt(s, k)[i] == s[i + 1]
    ensures i + 2 < |s| ==> EraseAt(s, k)[i + 1] == s[i + 2]
  {
  }

  /** The erasure an agent's death makes during an index walk: the first
      element whose key equals the key at the cursor `i` lies at or before
      `i`, so erasing it shortens the list by one and moves the element after
      the cursor into the visited slot and its successor into the next one. */
  lemma {:induction false} EraseFirstAtCursor<T, K>(all: seq<T>, keys: seq<K>, i: int)
    requires |keys| == |all| && 0 <= i < |all|
    ensures var e := EraseAt(all, FirstIndex(keys, keys[i]));
      && |e| == |all| - 1
      && (i + 1 < |all| ==> e[i] == all[i + 1])
      && (i + 2 < |all| ==> e[i + 1] == all[i + 2])
  {
    var k := FirstIndex(keys, keys[i]);
    FirstIndexMeans(keys, keys[i]);
    if i + 1 < |all| {
      EraseBehindCursorSkips(all, k, i);
    }
  }

  /** Everything before the first `t` keeps its place, and everything after
      it moves up by exactly one: the relative order of the rest is kept. */
  lemma {:induction false} RemoveFirstKeepsOrder<T>(s: seq<T>, t: T)
    requires t in s
    ensures var k, r := FirstIndex(s, t), RemoveFirst(s, t);
      && |r| == |s| - 1
      && (forall i :: 0 <= i < k ==> r[i] == s[i])
      && (forall i :: k <= i < |s| - 1 ==> r[i] == s[i + 1])
  {
    FirstIndexMeans(s, t);
  }

  /** Appending a fresh `t` and then erasing the first `t` gives back the original. */
  lemma {:induction false} RemoveFirstUndoesAppend<T>(s: seq<T>, t: T)
    requires t !in s
    ensures RemoveFirst(s + [t], t) == s
  {
    FirstIndexIs(s + [t], t, |s|);
    assert (s + [t])[..|s|] == s;
  }
}
