/**
 * The unified-message-id handlers as an object over the two cache tables:
 * registration of inbound messages, recording of relayed copies, quote
 * resolution and the cascade on deletion. Each method is specified by the
 * step function of the same behaviour on `Correlation.Tables`.
 */
module Correlators {
  import opened Wrappers
  import opened Text
  import opened Domain
  import opened Correlation
  import Topology

  /** `generateRandomString(length)`: one alphabet character per draw. */
  method GenerateRandomString(length: nat, rolls: seq<nat>) returns (result: string)
    requires |rolls| == length
    ensures result == RandomString(rolls)
  {
    result := "";
    for i := 0 to length
      invariant result == RandomString(rolls[..i])
    {
      assert rolls[..i + 1][..i] == rolls[..i];
      result := result + CharAt(rolls[i]);
    }
    assert rolls[..length] == rolls;
  }

  /**
   * The channels whose messages get unity ids: every channel of every group
   * in mesh mode, source then target of every pair in two-way mode, the
   * source of every pair in one-way mode.
   */
  method WatchedChannels(mode: Topology.Mode, pairs: seq<Route>, groups: seq<seq<Endpoint>>) returns (cachechannel: seq<string>)
    ensures mode == Topology.OneWay ==> |cachechannel| == |pairs|
    ensures mode == Topology.OneWay ==> forall i :: 0 <= i < |pairs| ==> cachechannel[i] == pairs[i].source.channelId
    ensures mode == Topology.TwoWay ==> |cachechannel| == 2 * |pairs|
    ensures mode == Topology.TwoWay ==> forall i :: 0 <= i < |pairs| ==>
      cachechannel[2 * i] == pairs[i].source.channelId && cachechannel[2 * i + 1] == pairs[i].target.channelId
    ensures mode == Topology.Mesh ==> cachechannel == GroupChannels(groups)
  {
    cachechannel := [];
    match mode
    case Mesh =>
      for g := 0 to |groups|
        invariant cachechannel == GroupChannels(groups[..g])
      {
        assert groups[..g + 1][..g] == groups[..g];
        for k := 0 to |groups[g]|
          invariant cachechannel == GroupChannels(groups[..g]) + ChannelIds(groups[g][..k])
        {
          assert groups[g][..k + 1][..k] == groups[g][..k];
          cachechannel := cachechannel + [groups[g][k].channelId];
        }
        assert groups[g][..|groups[g]|] == groups[g];
      }
      assert groups[..|groups|] == groups;
    case TwoWay =>
      for i := 0 to |pairs|
        invariant |cachechannel| == 2 * i
        invariant forall j :: 0 <= j < i ==> cachechannel[2 * j] == pairs[j].source.channelId && cachechannel[2 * j + 1] == pairs[j].target.channelId
      {
        cachechannel := cachechannel + [pairs[i].source.channelId];
        cachechannel := cachechannel + [pairs[i].target.channelId];
      }
    case OneWay =>
      for i := 0 to |pairs|
        invariant |cachechannel| == i
        invariant forall j :: 0 <= j < i ==> cachechannel[j] == pairs[j].source.channelId
      {
        cachechannel := cachechannel + [pairs[i].source.channelId];
      }
  }

  /** The channel ids of a group, in order. */
  function ChannelIds(group: seq<Endpoint>): (r: seq<string>)
    ensures |r| == |group| && forall k :: 0 <= k < |group| ==> r[k] == group[k].channelId
    decreases |group|
  {
    if |group| == 0 then [] else ChannelIds(group[..|group| - 1]) + [group[|group| - 1].channelId]
  }

  /** The channel ids of all groups, group by group. */
  function GroupChannels(groups: seq<seq<Endpoint>>): seq<string>
    decreases |groups|
  {
    if |groups| == 0 then [] else GroupChannels(groups[..|groups| - 1]) + ChannelIds(groups[|groups| - 1])
  }

  /** Every channel of every mesh group is watched. */
  lemma {:induction false} GroupChannelsCover(groups: seq<seq<Endpoint>>, g: nat, k: nat)
    requires g < |groups| && k < |groups[g]|
    ensures groups[g][k].channelId in GroupChannels(groups)
    decreases |groups|
  {
    if g < |groups| - 1 {
      var prefix := groups[..|groups| - 1];
      assert prefix[g] == groups[g];
      GroupChannelsCover(prefix, g, k);
    } else {
      assert ChannelIds(groups[g])[k] == groups[g][k].channelId;
    }
  }

  /** The engine's view of the cache: both tables with their expiry instants. */
  class Correlator {
    var messages: map<string, Stamped<string>>
    var unity: map<string, Stamped<seq<string>>>
    /** `Unity_Message_ID_Time`, the lifetime of every entry. */
    const ttl: int
    /** The channels registration and deletion listen to. */
    const watched: seq<string>

    function State(): Tables
      reads this
    {
      Tables(messages, unity)
    }

    constructor(ttl: int, watched: seq<string>)
      ensures State() == Tables(map[], map[])
      ensures this.ttl == ttl && this.watched == watched
    {
      messages := map[];
      unity := map[];
      this.ttl := ttl;
      this.watched := watched;
    }

    /**
     * `unity_id_create` with the retry's result kept: draws ids until one has
     * no live copy list. The attempts are the draws of successive tries.
     */
    method UnityIdCreate(now: int, attempts: seq<seq<nat>>) returns (id: Option<string>)
      requires forall i :: 0 <= i < |attempts| ==> |attempts[i]| == IdLength
      ensures id == AllocateFresh(State(), now, attempts)
    {
      var i := 0;
      while i < |attempts|
        invariant 0 <= i <= |attempts|
        invariant AllocateFresh(State(), now, attempts) == AllocateFresh(State(), now, attempts[i..])
      {
        var candidate := GenerateRandomString(IdLength, attempts[i]);
        assert attempts[i..][0] == attempts[i] && attempts[i..][1..] == attempts[i + 1..];
        if CopiesOf(State(), candidate, now).None? {
          return Some(candidate);
        }
        i := i + 1;
      }
      return None;
    }

    /** The registration handler for one inbound message. */
    method OnMessage(s: Session, now: int, attempts: seq<seq<nat>>)
      requires forall i :: 0 <= i < |attempts| ==> |attempts[i]| == IdLength
      modifies this
      ensures State() == Register(old(State()), watched, s, now, ttl, attempts)
    {
      if s.channelId in watched {
        var key := Key(SessionRef(s));
        var current := UnityIdOf(State(), key, now);
        if !(current.Some? && current.value != "") {
          var id := UnityIdCreate(now, attempts);
          if id.Some? {
            messages := messages[key := Stamped(id.value, now + ttl)];
            unity := unity[id.value := Stamped([], now + ttl)];
          }
        }
      }
    }

    /** Append the record of a delivered copy to the source message's copy list. */
    method RecordDelivery(key: string, copy: MessageRef, now: int)
      modifies this
      ensures State() == Record(old(State()), key, copy, now, ttl)
    {
      var id := UnityIdOf(State(), key, now);
      if id.Some? && id.value != "" {
        var list := CopiesOf(State(), id.value, now);
        if list.Some? {
          var messageList := list.value + [Key(copy)];
          unity := unity[id.value := Stamped(messageList, now + ttl)];
        }
      }
    }

    /**
     * The quote scan: the id field of the first record whose channel,
     * platform and bot fields are the target's, else the empty string;
     * `None` when the quoted message's id or list is gone.
     */
    method ResolveQuote(quoteKey: string, target: Endpoint, now: int) returns (quote: Option<string>)
      ensures quote == QuoteId(State(), quoteKey, target, now)
    {
      var unityIdQuote := UnityIdOf(State(), quoteKey, now);
      if unityIdQuote.None? {
        return None;
      }
      var targetMessageId := CopiesOf(State(), unityIdQuote.value, now);
      if targetMessageId.None? {
        return None;
      }
      var list := targetMessageId.value;
      var quoteMessageId := "";
      var i := 0;
      while i < |list|
        invariant 0 <= i <= |list|
        invariant forall j :: 0 <= j < i ==> !RecordTargets(list[j], target)
        invariant quoteMessageId == ""
      {
        if RecordTargets(list[i], target) {
          quoteMessageId := Field(list[i], ':', 0);
          assert FirstTargetIndex(list, target) == Some(i) by {
            FirstTargetUnique(list, target, i);
          }
          break;
        }
        i := i + 1;
      }
      quote := Some(quoteMessageId);
    }

    /**
     * The deletion handler: for a watched channel, the cascade over the
     * deleted message's copies; `failing` are the positions whose delete
     * call rejects.
     */
    method OnDelete(s: Session, now: int, failing: set<nat>) returns (calls: seq<DeleteCall>)
      modifies this
      ensures s.channelId in watched ==> (calls, State()) == Cascade(old(State()), Key(SessionRef(s)), now, failing)
      ensures s.channelId !in watched ==> calls == [] && State() == old(State())
    {
      calls := [];
      if s.channelId !in watched {
        return;
      }
      var key := Key(SessionRef(s));
      var id := UnityIdOf(State(), key, now);
      if !(id.Some? && id.value != "") {
        return;
      }
      var found := CopiesOf(State(), id.value, now);
      if found.None? {
        return;
      }
      var list := found.value;
      ghost var t0 := State();
      ghost var done: set<nat> := {};
      for i := 0 to |list|
        invariant calls == DeleteCalls(list[..i])
        invariant done == Completing(list[..i], failing)
        invariant State() == Evicted(t0, key, id.value, list, done)
      {
        assert list[..i + 1][..i] == list[..i];
        DeleteCallsSnoc(list[..i], list[i]);
        assert list[..i + 1] == list[..i] + [list[i]];
        CompletingSnoc(list, i, failing);
        if WellFormedRecord(list[i]) {
          calls := calls + [CallFor(list[i])];
          if i !in failing {
            messages := messages - {list[i]};
            messages := messages - {key};
            unity := unity - {id.value};
            EvictedStep(t0, key, id.value, list, done, i);
            done := done + {i};
          }
        }
      }
      assert list[..|list|] == list;
      EvictedCompleting(t0, key, id.value, list, failing);
    }
  }

  /** The tables after the completing callbacks in `done` have run their evictions. */
  function Evicted(t: Tables, key: string, id: string, list: seq<string>, done: set<nat>): Tables
  {
    if done == {} then t
    else Tables(t.messages - {key} - (set j | j in done && j < |list| :: list[j]), t.unity - {id})
  }

  /** After every callback, the evictions are those of the cascade. */
  lemma EvictedCompleting(t: Tables, key: string, id: string, list: seq<string>, failing: set<nat>)
    ensures var done := Completing(list, failing);
      Evicted(t, key, id, list, done) ==
        if done == {} then t else Tables(t.messages - {key} - (set j | j in done :: list[j]), t.unity - {id})
  {
    var done := Completing(list, failing);
    assert (set j | j in done && j < |list| :: list[j]) == (set j | j in done :: list[j]);
  }

  lemma EvictedStep(t: Tables, key: string, id: string, list: seq<string>, done: set<nat>, i: nat)
    requires i < |list|
    ensures var e := Evicted(t, key, id, list, done);
      Evicted(t, key, id, list, done + {i}) == Tables(e.messages - {list[i]} - {key}, e.unity - {id})
  {
    var e := Evicted(t, key, id, list, done);
    var lhs := Evicted(t, key, id, list, done + {i});
    assert lhs.messages == e.messages - {list[i]} - {key};
  }

  lemma {:induction false} DeleteCallsSnoc(list: seq<string>, e: string)
    ensures DeleteCalls(list + [e]) == DeleteCalls(list) + (if WellFormedRecord(e) then [CallFor(e)] else [])
    decreases |list|
  {
    var last := if WellFormedRecord(e) then [CallFor(e)] else [];
    if |list| == 0 {
      assert list + [e] == [e];
      assert [e][1..] == [];
      assert DeleteCalls([e]) == last + DeleteCalls([]);
    } else {
      var t := list + [e];
      var head := if WellFormedRecord(list[0]) then [CallFor(list[0])] else [];
      assert t[0] == list[0];
      assert t[1..] == list[1..] + [e];
      DeleteCallsSnoc(list[1..], e);
      assert DeleteCalls(t) == head + DeleteCalls(t[1..]);
      assert DeleteCalls(list) == head + DeleteCalls(list[1..]);
      assert DeleteCalls(t) == head + (DeleteCalls(list[1..]) + last);
    }
  }

  lemma CompletingSnoc(list: seq<string>, i: nat, failing: set<nat>)
    requires i < |list|
    ensures Completing(list[..i + 1], failing) ==
      Completing(list[..i], failing) + (if WellFormedRecord(list[i]) && i !in failing then {i} else {})
  {
    assert forall j :: 0 <= j < i ==> list[..i + 1][j] == list[..i][j];
  }

  /** Two records at the front of the list cannot both be the first match. */
  lemma FirstTargetUnique(list: seq<string>, target: Endpoint, i: nat)
    requires i < |list| && RecordTargets(list[i], target)
    requires forall j :: 0 <= j < i ==> !RecordTargets(list[j], target)
    ensures FirstTargetIndex(list, target) == Some(i)
  {
    var r := FirstTargetIndex(list, target);
  }
}
