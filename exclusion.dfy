/**
 * The temporary exclusion list `pass`: `TemporaryExclusion` pushes a
 * channel and arms a timer, the timer and `CancelTE` remove it again with
 * `splice(indexOf(channel), 1)`, taken literally: when the channel is absent
 * `indexOf` is -1, and `splice(-1, 1)` removes the last element.
 */
module Exclusion {

  /** `list.indexOf(x)`: the first position of `x`, or -1. */
  function IndexOf(list: seq<string>, x: string): (r: int)
    ensures -1 <= r < |list|
    ensures r == -1 <==> x !in list
    ensures r >= 0 ==> list[r] == x && forall j :: 0 <= j < r ==> list[j] != x
    decreases |list|
  {
    if |list| == 0 then -1
    else if list[0] == x then 0
    else
      var r := IndexOf(list[1..], x);
      assert forall j :: 1 <= j < |list| ==> list[1..][j - 1] == list[j];
      if r == -1 then -1 else r + 1
  }

  /**
   * `list.splice(start, 1)`: a negative start counts from the end (and is
   * clamped at 0), a start at or past the end removes nothing.
   */
  function Splice1(list: seq<string>, start: int): seq<string>
  {
    var k := if start < 0 then (if |list| + start < 0 then 0 else |list| + start) else start;
    if k < |list| then list[..k] + list[k + 1..] else list
  }

  /** The list without the first occurrence of `x`. */
  function RemoveFirst(list: seq<string>, x: string): (r: seq<string>)
    ensures x in list ==> multiset(r) == multiset(list) - multiset{x}
    ensures x !in list ==> r == list
    decreases |list|
  {
    if |list| == 0 then []
    else
      assert list == [list[0]] + list[1..];
      if list[0] == x then list[1..]
      else [list[0]] + RemoveFirst(list[1..], x)
  }

  /** Removing the first occurrence is removing at `indexOf`. */
  lemma {:induction false} RemoveFirstAtIndex(list: seq<string>, x: string)
    requires x in list
    ensures 0 <= IndexOf(list, x) && RemoveFirst(list, x) == list[..IndexOf(list, x)] + list[IndexOf(list, x) + 1..]
    decreases |list|
  {
    if list[0] == x {
      assert list[..0] == [];
    } else {
      var tail := list[1..];
      assert x in tail by {
        var j :| 0 <= j < |list| && list[j] == x;
        assert tail[j - 1] == x;
      }
      RemoveFirstAtIndex(tail, x);
      var k := IndexOf(tail, x);
      assert IndexOf(list, x) == k + 1;
      assert RemoveFirst(list, x) == [list[0]] + RemoveFirst(tail, x);
      ShiftSlices(list, k);
    }
  }

  lemma ShiftSlices(list: seq<string>, k: nat)
    requires k + 1 < |list|
    ensures [list[0]] + (list[1..][..k] + list[1..][k + 1..]) == list[..k + 1] + list[k + 2..]
  {
    assert list[..k + 1] == [list[0]] + list[1..][..k];
    assert list[k + 2..] == list[1..][k + 1..];
  }

  /** Splicing at `indexOf(x)` removes the first occurrence of a present `x`. */
  lemma SpliceRemovesFirst(list: seq<string>, x: string)
    requires x in list
    ensures Splice1(list, IndexOf(list, x)) == RemoveFirst(list, x)
  {
    RemoveFirstAtIndex(list, x);
  }

  /** Splicing at `indexOf(x)` of an absent `x` removes the last element. */
  lemma SpliceAbsentDropsLast(list: seq<string>, x: string)
    requires x !in list && |list| > 0
    ensures Splice1(list, IndexOf(list, x)) == list[..|list| - 1]
  {
    assert list[|list|..] == [];
  }

  /** The exclusion list shared by both commands and every relay. */
  class ExclusionList {
    var pass: seq<string>

    constructor()
      ensures pass == []
    {
      pass := [];
    }

    /** `TemporaryExclusion`: the channel is appended; its timer is armed outside the model. */
    method TemporaryExclusion(channelId: string)
      modifies this
      ensures pass == old(pass) + [channelId]
    {
      pass := pass + [channelId];
    }

    /** The timer armed by `TemporaryExclusion` fires: `splice(indexOf(channelId), 1)`, whatever the list holds by then. */
    method TimerFired(channelId: string)
      modifies this
      ensures pass == Splice1(old(pass), IndexOf(old(pass), channelId))
      ensures channelId in old(pass) ==> pass == RemoveFirst(old(pass), channelId)
      ensures channelId !in old(pass) && |old(pass)| > 0 ==> pass == old(pass)[..|old(pass)| - 1]
    {
      if channelId in pass {
        SpliceRemovesFirst(pass, channelId);
      } else if |pass| > 0 {
        SpliceAbsentDropsLast(pass, channelId);
      }
      pass := Splice1(pass, IndexOf(pass, channelId));
    }

    /** `CancelTE`: removes one occurrence when the channel is excluded, else reports that it is not. */
    method CancelTE(channelId: string) returns (wasExcluded: bool)
      modifies this
      ensures wasExcluded <==> channelId in old(pass)
      ensures wasExcluded ==> pass == RemoveFirst(old(pass), channelId)
      ensures !wasExcluded ==> pass == old(pass)
    {
      if channelId in pass {
        SpliceRemovesFirst(pass, channelId);
        pass := Splice1(pass, IndexOf(pass, channelId));
        return true;
      }
      return false;
    }
  }

  /**
   * A stale timer drops another channel's exclusion: once `a` was cancelled it
   * is no longer listed, and when `a`'s timer still fires it takes out the
   * last listed channel, which is some other channel's entry.
   */
  lemma StaleTimerDropsOther(list: seq<string>, a: string)
    requires a !in list && |list| > 0
    ensures list[|list| - 1] != a
    ensures Splice1(list, IndexOf(list, a)) == list[..|list| - 1]
    ensures multiset(Splice1(list, IndexOf(list, a))) == multiset(list) - multiset{list[|list| - 1]}
  {
    SpliceAbsentDropsLast(list, a);
    assert list == list[..|list| - 1] + [list[|list| - 1]];
  }
}
