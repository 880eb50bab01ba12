/** Python's `del lst[:stop]` with its slice-bound normalisation, and the
    history truncation `del finished[:-k]` the launcher builds on it. */
module PyList {

  function Min(a: int, b: int): int {
    if a <= b then a else b
  }

  /** The position a slice bound `stop` denotes in a list of length `n`:
      negative bounds count from the end, and out-of-range bounds clamp. */
  function SliceBound(n: nat, stop: int): (b: nat)
    ensures b <= n
    ensures 0 <= stop <= n ==> b == stop
    ensures stop < 0 && stop + n >= 0 ==> b == n + stop
    ensures stop + n < 0 ==> b == 0
    ensures stop > n ==> b == n
  {
    if stop < 0 then (if stop + n < 0 then 0 else stop + n)
    else if stop > n then n
    else stop
  }

  /** `del lst[:stop]`: the list that remains. */
  function DelPrefix<T>(lst: seq<T>, stop: int): seq<T> {
    lst[SliceBound(|lst|, stop)..]
  }

  /** The last `m` elements of `s`. */
  function Last<T>(s: seq<T>, m: nat): seq<T>
    requires m <= |s|
  {
    s[|s| - m..]
  }

  /** `del lst[:-k]`, for every integer `k` Python accepts: with `k >= 1` the
      last `k` elements are kept (all of them when there are fewer), with
      `k == 0` nothing is deleted (`lst[:-0]` is `lst[:0]`), and with `k < 0`
      the first `-k` elements are deleted. */
  function KeepLast<T>(lst: seq<T>, k: int): (r: seq<T>)
    ensures k >= 1 ==> |r| == Min(k, |lst|) && r == Last(lst, |r|)
    ensures k == 0 ==> r == lst
    ensures k < 0 ==> r == lst[Min(-k, |lst|)..]
    // Unless `k` is negative, the newest element survives.
    ensures k >= 0 && lst != [] ==> r != [] && r[|r| - 1] == lst[|lst| - 1]
  {
    DelPrefix(lst, -k)
  }

  /** One append-and-truncate step, as `_process_finished` does it. */
  function Archive<T>(history: seq<T>, item: T, k: int): seq<T> {
    KeepLast(history + [item], k)
  }

  /** Archiving `items` one at a time, in order. */
  function ArchiveAll<T>(history: seq<T>, items: seq<T>, k: int): seq<T>
    decreases |items|
  {
    if items == [] then history
    else ArchiveAll(Archive(history, items[0], k), items[1..], k)
  }

  /** Taking the last elements of a suffix is taking them of the whole. */
  lemma LastOfSuffix<T>(s: seq<T>, m: nat, t: seq<T>, m': nat)
    requires m <= |s| && m' <= m + |t|
    ensures Last(Last(s, m) + t, m') == Last(s + t, m')
  {
    var u := Last(s, m) + t;
    assert u == (s + t)[|s| - m..];
    assert u[|u| - m'..] == (s + t)[|s| - m..][|u| - m'..];
  }

  /** With `k >= 1` and a history already within bound, archiving a run of
      finished processes keeps exactly the `k` most recent ones of the
      whole run, in completion order. */
  lemma {:induction false} ArchiveAllKeepsMostRecent<T>(history: seq<T>, items: seq<T>, k: int)
    requires k >= 1 && |history| <= k
    ensures var all := history + items;
      ArchiveAll(history, items, k) == Last(all, Min(k, |all|))
    decreases |items|
  {
    var all := history + items;
    if items == [] {
      assert all == history;
    } else {
      var s := history + [items[0]];
      var h' := Archive(history, items[0], k);
      assert h' == Last(s, |h'|);
      ArchiveAllKeepsMostRecent(h', items[1..], k);
      LastOfSuffix(s, |h'|, items[1..], Min(k, |all|));
      assert s + items[1..] == all;
    }
  }

  /** Finishing P1, P2 and P3 with `finished_to_keep = 2` leaves [P2, P3]. */
  lemma KeepTwoOfThree<T>(p1: T, p2: T, p3: T)
    ensures ArchiveAll([], [p1, p2, p3], 2) == [p2, p3]
  {
    ArchiveAllKeepsMostRecent([], [p1, p2, p3], 2);
    assert [] + [p1, p2, p3] == [p1, p2, p3];
  }
}
