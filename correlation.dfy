/**
 * The unified-message-id tables as values: `mpmf_message` maps the key of an
 * inbound message to its unity id, `mpmf_unity` maps a unity id to the
 * records of the copies relayed so far. Every entry carries the instant it
 * expires; an entry is live at `now` iff `now` is before that instant.
 */
module Correlation {
  import opened Wrappers
  import opened Text
  import opened Domain

  // ---------------------------------------------------------------- tables

  /** A cached value with its expiry instant (`now + ttl` when it was set). */
  datatype Stamped<T> = Stamped(value: T, expiry: int)

  datatype Tables = Tables(messages: map<string, Stamped<string>>, unity: map<string, Stamped<seq<string>>>)

  /** `cache.get('mpmf_message', key)`: the unity id, while it is live. */
  function UnityIdOf(t: Tables, key: string, now: int): (r: Option<string>)
    ensures r.Some? <==> key in t.messages && now < t.messages[key].expiry
    ensures r.Some? ==> r.value == t.messages[key].value
  {
    if key in t.messages && now < t.messages[key].expiry then Some(t.messages[key].value) else None
  }

  /** `cache.get('mpmf_unity', id)`: the copy records, while they are live. */
  function CopiesOf(t: Tables, id: string, now: int): (r: Option<seq<string>>)
    ensures r.Some? <==> id in t.unity && now < t.unity[id].expiry
    ensures r.Some? ==> r.value == t.unity[id].value
  {
    if id in t.unity && now < t.unity[id].expiry then Some(t.unity[id].value) else None
  }

  /**
   * `cache.set('mpmf_message', key, id, ttl)` then `cache.get` of the same key
   * at `later` finds the id exactly while `later` is before `now + ttl`; no
   * other key's lookup changes.
   */
  lemma SetThenGetUnityId(t: Tables, key: string, id: string, now: int, ttl: int, later: int, other: string)
    requires other != key
    ensures var t2 := t.(messages := t.messages[key := Stamped(id, now + ttl)]);
      && (UnityIdOf(t2, key, later) == Some(id) <==> later < now + ttl)
      && (UnityIdOf(t2, key, later).None? <==> now + ttl <= later)
      && UnityIdOf(t2, other, later) == UnityIdOf(t, other, later)
  {
  }

  /**
   * `cache.set('mpmf_unity', id, list, ttl)` then `cache.get` of the same id at
   * `later` finds the list exactly while `later` is before `now + ttl`; no
   * other id's lookup changes.
   */
  lemma SetThenGetCopies(t: Tables, id: string, list: seq<string>, now: int, ttl: int, later: int, other: string)
    requires other != id
    ensures var t2 := t.(unity := t.unity[id := Stamped(list, now + ttl)]);
      && (CopiesOf(t2, id, later) == Some(list) <==> later < now + ttl)
      && (CopiesOf(t2, id, later).None? <==> now + ttl <= later)
      && CopiesOf(t2, other, later) == CopiesOf(t, other, later)
  {
  }

  /** The key has a truthy unity id: live and not empty. */
  predicate HasUnityId(t: Tables, key: string, now: int)
  {
    UnityIdOf(t, key, now).Some? && UnityIdOf(t, key, now).value != ""
  }

  // ---------------------------------------------------------------- codec

  /** A message on one bot in one channel: the four fields of a key or copy record. */
  datatype MessageRef = MessageRef(id: string, channel: string, platform: string, bot: string)

  /** The key of a message and the record of a copy: the four fields joined with `:`. */
  function Key(r: MessageRef): string
  {
    r.id + ":" + r.channel + ":" + r.platform + ":" + r.bot
  }

  /** The key of an inbound message: its id, channel, platform and the receiving bot. */
  function SessionRef(s: Session): MessageRef
  {
    MessageRef(s.messageId, s.channelId, s.platform, s.selfId)
  }

  /** A record that `split(':')` turns into at least four fields; others leave fields `undefined`. */
  predicate WellFormedRecord(e: string)
  {
    |Split(e, ':')| >= 4
  }

  /** The four fields `split(':')[0..3]` read back; extra pieces are ignored. */
  function Decode(e: string): (r: Option<MessageRef>)
    ensures r.Some? <==> WellFormedRecord(e)
  {
    if WellFormedRecord(e) then
      Some(MessageRef(Field(e, ':', 0), Field(e, ':', 1), Field(e, ':', 2), Field(e, ':', 3)))
    else None
  }

  /** No field of the reference contains the separator. */
  predicate ColonFree(r: MessageRef)
  {
    ':' !in r.id && ':' !in r.channel && ':' !in r.platform && ':' !in r.bot
  }

  /** Every key splits into at least four fields, whatever its fields contain. */
  lemma KeyWellFormed(r: MessageRef)
    ensures WellFormedRecord(Key(r))
  {
    SplitLength(r.id + ":" + r.channel + ":" + r.platform, ':', r.bot);
    assert Key(r) == r.id + ":" + r.channel + ":" + r.platform + [':'] + r.bot;
    SplitLength(r.id + ":" + r.channel, ':', r.platform);
    assert r.id + ":" + r.channel + ":" + r.platform == r.id + ":" + r.channel + [':'] + r.platform;
    SplitLength(r.id, ':', r.channel);
    assert r.id + ":" + r.channel == r.id + [':'] + r.channel;
  }

  /** Decoding a key gives back its reference when no field contains `:`. */
  lemma DecodeKey(r: MessageRef)
    requires ColonFree(r)
    ensures Decode(Key(r)) == Some(r)
  {
    var c := r.platform + [':'] + r.bot;
    var b := r.channel + [':'] + c;
    var a := r.id + [':'] + b;
    SplitNoSep(r.bot, ':');
    SplitCons(r.platform, ':', r.bot);
    SplitCons(r.channel, ':', c);
    SplitCons(r.id, ':', b);
    assert Key(r) == a;
    assert Split(a, ':') == [r.id, r.channel, r.platform, r.bot];
  }

  /**
   * A colon inside the message id shifts every field: the record of
   * `x:y`, `c`, `p`, `b` decodes to `x`, `y`, `c`, `p`, another reference.
   */
  lemma DecodeKeyWithColon(x: string, y: string, c: string, p: string, b: string)
    requires ':' !in x && ':' !in y && ':' !in c && ':' !in p && ':' !in b
    ensures Decode(Key(MessageRef(x + ":" + y, c, p, b))) == Some(MessageRef(x, y, c, p))
    ensures Decode(Key(MessageRef(x + ":" + y, c, p, b))) != Some(MessageRef(x + ":" + y, c, p, b))
  {
    var e := p + [':'] + b;
    var d := c + [':'] + e;
    var k := y + [':'] + d;
    var all := x + [':'] + k;
    SplitNoSep(b, ':');
    SplitCons(p, ':', b);
    SplitCons(c, ':', e);
    SplitCons(y, ':', d);
    SplitCons(x, ':', k);
    assert Key(MessageRef(x + ":" + y, c, p, b)) == all;
    assert Split(all, ':') == [x, y, c, p, b];
    assert |x + ":" + y| != |x|;
  }

  // ---------------------------------------------------------------- ids

  /** The length of a unity id. */
  const IdLength := 20

  /** The 62 letters and digits an id is drawn from. */
  const Alphabet := "ABCDEFGHIJKLMNOPQRSTUVWXYZabcdefghijklmnopqrstuvwxyz0123456789"

  /** `characters.charAt(k)`: the k-th letter, or the empty string past the end. */
  function CharAt(k: nat): string
  {
    if k < |Alphabet| then [Alphabet[k]] else ""
  }

  /**
   * The string `generateRandomString` builds from its draws
   * `Math.floor(Math.random() * 62)`, one per character.
   */
  function RandomString(rolls: seq<nat>): (r: string)
    ensures |r| <= |rolls|
    ensures (forall i :: 0 <= i < |rolls| ==> rolls[i] < |Alphabet|) ==> |r| == |rolls|
    ensures forall i :: 0 <= i < |r| ==> r[i] in Alphabet
  {
    if |rolls| == 0 then ""
    else
      var prefix := RandomString(rolls[..|rolls| - 1]);
      assert forall i :: 0 <= i < |rolls| - 1 ==> rolls[..|rolls| - 1][i] == rolls[i];
      prefix + CharAt(rolls[|rolls| - 1])
  }

  /** One attempt of draws: twenty of them, each below 62. */
  predicate ValidRolls(rolls: seq<nat>)
  {
    |rolls| == IdLength && forall j :: 0 <= j < |rolls| ==> rolls[j] < |Alphabet|
  }

  /** A valid attempt yields a twenty-character alphanumeric id. */
  lemma ValidRollsId(rolls: seq<nat>)
    requires ValidRolls(rolls)
    ensures |RandomString(rolls)| == IdLength && RandomString(rolls) != ""
  {
  }

  /**
   * Allocation as `unity_id_create` is written: draw an id; when it already
   * has a live copy list, the retry's result is dropped and nothing is returned.
   */
  function AllocateAsWritten(t: Tables, now: int, rolls: seq<nat>): (r: Option<string>)
    ensures r.Some? ==> r.value == RandomString(rolls) && CopiesOf(t, r.value, now).None?
    ensures r.None? ==> CopiesOf(t, RandomString(rolls), now).Some?
  {
    var id := RandomString(rolls);
    if CopiesOf(t, id, now).Some? then None else Some(id)
  }

  /**
   * Allocation with the retry's result kept: the first drawn id that has no
   * live copy list, trying the attempts in order.
   */
  function AllocateFresh(t: Tables, now: int, attempts: seq<seq<nat>>): (r: Option<string>)
    ensures r.Some? ==> CopiesOf(t, r.value, now).None?
    ensures r.Some? ==> exists i :: 0 <= i < |attempts| && r.value == RandomString(attempts[i])
    ensures r.None? <==> forall i :: 0 <= i < |attempts| ==> CopiesOf(t, RandomString(attempts[i]), now).Some?
    decreases |attempts|
  {
    if |attempts| == 0 then None
    else
      match AllocateAsWritten(t, now, attempts[0])
      case Some(id) => Some(id)
      case None =>
        var r := AllocateFresh(t, now, attempts[1..]);
        assert forall i :: 1 <= i < |attempts| ==> attempts[1..][i - 1] == attempts[i];
        r
  }

  /**
   * A colliding first draw loses the id as written, while keeping the
   * retry's result returns the fresh second draw.
   */
  lemma CollisionLosesId(t: Tables, now: int, first: seq<nat>, second: seq<nat>)
    requires CopiesOf(t, RandomString(first), now).Some?
    requires CopiesOf(t, RandomString(second), now).None?
    ensures AllocateAsWritten(t, now, first) == None
    ensures AllocateFresh(t, now, [first, second]) == Some(RandomString(second))
  {
    assert [first, second][1..] == [second];
    assert [second][1..] == [];
  }

  // ---------------------------------------------------------------- steps

  /**
   * The registration handler: a message in a watched channel whose key has
   * no truthy unity id gets a fresh id, stored with an empty copy list; both
   * entries expire after `ttl`.
   */
  function Register(t: Tables, watched: seq<string>, s: Session, now: int, ttl: int, attempts: seq<seq<nat>>): Tables
  {
    var key := Key(SessionRef(s));
    if s.channelId !in watched || HasUnityId(t, key, now) then t
    else
      match AllocateFresh(t, now, attempts)
      case None => t
      case Some(id) => Tables(t.messages[key := Stamped(id, now + ttl)], t.unity[id := Stamped([], now + ttl)])
  }

  /** A registered message has a live id whose copy list is empty, and no live list of another message is overwritten. */
  lemma RegisterAllocates(t: Tables, watched: seq<string>, s: Session, now: int, ttl: int, attempts: seq<seq<nat>>)
    requires s.channelId in watched && !HasUnityId(t, Key(SessionRef(s)), now)
    requires 0 < ttl
    requires forall i :: 0 <= i < |attempts| ==> ValidRolls(attempts[i])
    requires AllocateFresh(t, now, attempts).Some?
    ensures var t' := Register(t, watched, s, now, ttl, attempts);
      && HasUnityId(t', Key(SessionRef(s)), now)
      && CopiesOf(t', UnityIdOf(t', Key(SessionRef(s)), now).value, now) == Some([])
      && CopiesOf(t, UnityIdOf(t', Key(SessionRef(s)), now).value, now).None?
      && (forall id :: CopiesOf(t, id, now).Some? ==> CopiesOf(t', id, now) == CopiesOf(t, id, now))
  {
    var id := AllocateFresh(t, now, attempts).value;
    var i :| 0 <= i < |attempts| && id == RandomString(attempts[i]);
    ValidRollsId(attempts[i]);
  }

  /** A message outside the watched channels, or one already holding an id, leaves the tables as they are. */
  lemma RegisterKeepsExisting(t: Tables, watched: seq<string>, s: Session, now: int, ttl: int, attempts: seq<seq<nat>>)
    requires s.channelId !in watched || HasUnityId(t, Key(SessionRef(s)), now)
    ensures Register(t, watched, s, now, ttl, attempts) == t
  {
  }

  /** A registered key stops being live once its ttl has passed. */
  lemma RegisterExpires(t: Tables, watched: seq<string>, s: Session, now: int, ttl: int, attempts: seq<seq<nat>>, later: int)
    requires s.channelId in watched && !HasUnityId(t, Key(SessionRef(s)), now)
    requires 0 <= ttl && now + ttl <= later
    ensures !HasUnityId(Register(t, watched, s, now, ttl, attempts), Key(SessionRef(s)), later)
  {
  }

  /**
   * Recording a delivery: the copy's record is appended to the copy list of
   * the source message's unity id and the list's ttl restarts. Nothing is
   * written when the source has no truthy id or its list has expired.
   */
  function Record(t: Tables, key: string, copy: MessageRef, now: int, ttl: int): Tables
  {
    if !HasUnityId(t, key, now) then t
    else
      var id := UnityIdOf(t, key, now).value;
      match CopiesOf(t, id, now)
      case None => t
      case Some(list) => t.(unity := t.unity[id := Stamped(list + [Key(copy)], now + ttl)])
  }

  /** Recording appends exactly the copy's record, keeps earlier records in order and touches nothing else. */
  lemma RecordAppends(t: Tables, key: string, copy: MessageRef, now: int, ttl: int)
    requires HasUnityId(t, key, now) && CopiesOf(t, UnityIdOf(t, key, now).value, now).Some?
    requires 0 < ttl
    ensures var t' := Record(t, key, copy, now, ttl); var id := UnityIdOf(t, key, now).value;
      && CopiesOf(t', id, now) == Some(CopiesOf(t, id, now).value + [Key(copy)])
      && t'.messages == t.messages
      && (forall other :: other != id ==> CopiesOf(t', other, now) == CopiesOf(t, other, now))
  {
  }

  /** Without a truthy id for the source, or without its list, recording writes nothing. */
  lemma RecordWithoutId(t: Tables, key: string, copy: MessageRef, now: int, ttl: int)
    requires !HasUnityId(t, key, now) || CopiesOf(t, UnityIdOf(t, key, now).value, now).None?
    ensures Record(t, key, copy, now, ttl) == t
  {
  }

  // ---------------------------------------------------------------- quotes

  /** The record's channel, platform and bot fields equal the target's. */
  predicate RecordTargets(e: string, target: Endpoint)
  {
    WellFormedRecord(e) && Field(e, ':', 1) == target.channelId && Field(e, ':', 2) == target.platform &&
    Field(e, ':', 3) == target.botId
  }

  /** The position of the first record copied to the target. */
  function FirstTargetIndex(list: seq<string>, target: Endpoint): (r: Option<nat>)
    ensures r.Some? ==> r.value < |list| && RecordTargets(list[r.value], target)
    ensures r.Some? ==> forall j :: 0 <= j < r.value ==> !RecordTargets(list[j], target)
    ensures r.None? <==> forall j :: 0 <= j < |list| ==> !RecordTargets(list[j], target)
    decreases |list|
  {
    if |list| == 0 then None
    else if RecordTargets(list[0], target) then Some(0)
    else
      var rest := FirstTargetIndex(list[1..], target);
      assert forall j :: 1 <= j < |list| ==> list[1..][j - 1] == list[j];
      match rest
      case Some(i) => Some(i + 1)
      case None => None
  }

  /**
   * Quote resolution: the id field of the first record copied to the
   * target, or the empty string when there is none. `None` when the quoted
   * message has no live id or no live list: the lookup then throws and the
   * relay is abandoned.
   */
  function QuoteId(t: Tables, quoteKey: string, target: Endpoint, now: int): Option<string>
  {
    match UnityIdOf(t, quoteKey, now)
    case None => None
    case Some(id) =>
      match CopiesOf(t, id, now)
      case None => None
      case Some(list) =>
        match FirstTargetIndex(list, target)
        case Some(i) => Some(Field(list[i], ':', 0))
        case None => Some("")
  }

  /** After a copy to the target is recorded, quoting the source resolves to that copy's id unless an earlier copy went to the same target. */
  lemma RecordThenQuote(t: Tables, key: string, target: Endpoint, sendId: string, now: int, ttl: int)
    requires HasUnityId(t, key, now) && CopiesOf(t, UnityIdOf(t, key, now).value, now).Some?
    requires 0 < ttl
    requires ColonFree(MessageRef(sendId, target.channelId, target.platform, target.botId))
    requires forall j :: 0 <= j < |CopiesOf(t, UnityIdOf(t, key, now).value, now).value| ==>
      !RecordTargets(CopiesOf(t, UnityIdOf(t, key, now).value, now).value[j], target)
    ensures QuoteId(Record(t, key, MessageRef(sendId, target.channelId, target.platform, target.botId), now, ttl), key, target, now)
      == Some(sendId)
  {
    var copy := MessageRef(sendId, target.channelId, target.platform, target.botId);
    var list := CopiesOf(t, UnityIdOf(t, key, now).value, now).value;
    var list' := list + [Key(copy)];
    DecodeKey(copy);
    assert RecordTargets(list'[|list|], target);
    assert forall j :: 0 <= j < |list| ==> list'[j] == list[j];
    var i := FirstTargetIndex(list', target).value;
    assert i == |list|;
  }

  // ---------------------------------------------------------------- deletion

  /** One `deleteMessage(channelId, messageId)` on the bot keyed `platform:bot`. */
  datatype DeleteCall = DeleteCall(bot: string, channelId: string, messageId: string)

  /** The delete call a well-formed record asks for. */
  function CallFor(e: string): DeleteCall
    requires WellFormedRecord(e)
  {
    DeleteCall(Field(e, ':', 2) + ":" + Field(e, ':', 3), Field(e, ':', 1), Field(e, ':', 0))
  }

  /**
   * The delete calls attempted, one per well-formed record, in order; a record
   * with missing fields names no bot and throws before any call. An attempt on
   * a bot that is not connected throws as well, like a rejected call: such
   * attempts are among the `failing` ones of the cascade.
   */
  function DeleteCalls(list: seq<string>): (r: seq<DeleteCall>)
    ensures |r| <= |list|
    ensures (forall j :: 0 <= j < |list| ==> WellFormedRecord(list[j])) ==> |r| == |list|
    decreases |list|
  {
    if |list| == 0 then []
    else (if WellFormedRecord(list[0]) then [CallFor(list[0])] else []) + DeleteCalls(list[1..])
  }

  /**
   * The records whose callback runs to its evictions: well-formed ones whose
   * delete call is not in `failing` (a rejected `deleteMessage` skips them).
   */
  function Completing(list: seq<string>, failing: set<nat>): set<nat>
  {
    set j | 0 <= j < |list| && WellFormedRecord(list[j]) && j !in failing
  }

  /**
   * The deletion handler for a message key: when it has a truthy id and a
   * live copy list, one delete call per record; every completing callback
   * evicts its copy's key, the source key and the unity entry, so nothing is
   * evicted when no callback completes, in particular for an empty list.
   */
  function Cascade(t: Tables, key: string, now: int, failing: set<nat>): (seq<DeleteCall>, Tables)
  {
    if !HasUnityId(t, key, now) then ([], t)
    else
      var id := UnityIdOf(t, key, now).value;
      match CopiesOf(t, id, now)
      case None => ([], t)
      case Some(list) =>
        var done := Completing(list, failing);
        if done == {} then (DeleteCalls(list), t)
        else (DeleteCalls(list), Tables(t.messages - {key} - (set j | j in done :: list[j]), t.unity - {id}))
  }

  /** The delete call for a recorded copy targets that copy's bot, channel and message. */
  lemma CallForKey(copy: MessageRef)
    requires ColonFree(copy)
    ensures WellFormedRecord(Key(copy))
    ensures CallFor(Key(copy)) == DeleteCall(copy.platform + ":" + copy.bot, copy.channel, copy.id)
  {
    DecodeKey(copy);
  }

  /** Calls follow the records one to one when every record is well formed. */
  lemma {:induction false} DeleteCallsEach(list: seq<string>)
    requires forall j :: 0 <= j < |list| ==> WellFormedRecord(list[j])
    ensures |DeleteCalls(list)| == |list|
    ensures forall j :: 0 <= j < |list| ==> DeleteCalls(list)[j] == CallFor(list[j])
    decreases |list|
  {
    if |list| > 0 {
      assert forall j :: 1 <= j < |list| ==> list[1..][j - 1] == list[j];
      DeleteCallsEach(list[1..]);
    }
  }

  /**
   * When no call fails and the list is not empty, one call is made per copy
   * and afterwards neither the source key, nor any copy's key, nor the
   * unity entry is present; deleting again makes no call.
   */
  lemma CascadeEvictsAll(t: Tables, key: string, now: int)
    requires HasUnityId(t, key, now)
    requires CopiesOf(t, UnityIdOf(t, key, now).value, now).Some?
    requires var list := CopiesOf(t, UnityIdOf(t, key, now).value, now).value;
      |list| > 0 && forall j :: 0 <= j < |list| ==> WellFormedRecord(list[j])
    ensures var id := UnityIdOf(t, key, now).value; var list := CopiesOf(t, id, now).value;
      var (calls, t') := Cascade(t, key, now, {});
      && |calls| == |list|
      && (forall j :: 0 <= j < |list| ==> calls[j] == CallFor(list[j]))
      && key !in t'.messages
      && (forall j :: 0 <= j < |list| ==> list[j] !in t'.messages)
      && id !in t'.unity
      && Cascade(t', key, now, {}).0 == []
  {
    var id := UnityIdOf(t, key, now).value;
    var list := CopiesOf(t, id, now).value;
    assert 0 in Completing(list, {});
    DeleteCallsEach(list);
    var t' := Cascade(t, key, now, {}).1;
    forall j | 0 <= j < |list| ensures list[j] !in t'.messages {
      assert j in Completing(list, {});
    }
  }

  /** An empty copy list makes no call and evicts nothing. */
  lemma CascadeEmptyList(t: Tables, key: string, now: int, failing: set<nat>)
    requires HasUnityId(t, key, now)
    requires CopiesOf(t, UnityIdOf(t, key, now).value, now) == Some([])
    ensures Cascade(t, key, now, failing) == ([], t)
  {
    assert Completing([], failing) == {};
  }

  /** When every call fails, the calls are made but every entry stays. */
  lemma CascadeAllFailing(t: Tables, key: string, now: int, failing: set<nat>)
    requires HasUnityId(t, key, now)
    requires CopiesOf(t, UnityIdOf(t, key, now).value, now).Some?
    requires forall j :: 0 <= j < |CopiesOf(t, UnityIdOf(t, key, now).value, now).value| ==> j in failing
    ensures Cascade(t, key, now, failing).1 == t
  {
    var list := CopiesOf(t, UnityIdOf(t, key, now).value, now).value;
    assert Completing(list, failing) == {};
  }

  /**
   * The full cycle: a message registered, then relayed to M targets, then
   * deleted, makes one delete call per relayed copy on that copy's bot and
   * channel; the list keeps the copies in delivery order.
   */
  lemma {:induction false} RecordAllThenCascade(t: Tables, key: string, copies: seq<MessageRef>, now: int, ttl: int)
    requires HasUnityId(t, key, now) && CopiesOf(t, UnityIdOf(t, key, now).value, now) == Some([])
    requires 0 < ttl
    requires forall j :: 0 <= j < |copies| ==> ColonFree(copies[j])
    ensures var t' := RecordAll(t, key, copies, now, ttl);
      && HasUnityId(t', key, now)
      && CopiesOf(t', UnityIdOf(t, key, now).value, now) == Some(Keys(copies))
      && |Cascade(t', key, now, {}).0| == |copies|
      && forall j :: 0 <= j < |copies| ==>
        Cascade(t', key, now, {}).0[j] == DeleteCall(copies[j].platform + ":" + copies[j].bot, copies[j].channel, copies[j].id)
  {
    var t' := RecordAll(t, key, copies, now, ttl);
    RecordAllAppends(t, key, copies, now, ttl);
    var list := Keys(copies);
    forall j | 0 <= j < |list| ensures WellFormedRecord(list[j]) && CallFor(list[j]) ==
      DeleteCall(copies[j].platform + ":" + copies[j].bot, copies[j].channel, copies[j].id) {
      CallForKey(copies[j]);
    }
    DeleteCallsEach(list);
  }

  /** The records of a sequence of copies. */
  function Keys(copies: seq<MessageRef>): (r: seq<string>)
    ensures |r| == |copies| && forall j :: 0 <= j < |copies| ==> r[j] == Key(copies[j])
  {
    seq(|copies|, j requires 0 <= j < |copies| => Key(copies[j]))
  }

  /** Recording the copies one after another, in delivery order. */
  function RecordAll(t: Tables, key: string, copies: seq<MessageRef>, now: int, ttl: int): Tables
    decreases |copies|
  {
    if |copies| == 0 then t
    else Record(RecordAll(t, key, copies[..|copies| - 1], now, ttl), key, copies[|copies| - 1], now, ttl)
  }

  /** Recording a sequence of copies into an empty list leaves exactly their records, in order. */
  lemma {:induction false} RecordAllAppends(t: Tables, key: string, copies: seq<MessageRef>, now: int, ttl: int)
    requires HasUnityId(t, key, now) && CopiesOf(t, UnityIdOf(t, key, now).value, now) == Some([])
    requires 0 < ttl
    ensures RecordAll(t, key, copies, now, ttl).messages == t.messages
    ensures CopiesOf(RecordAll(t, key, copies, now, ttl), UnityIdOf(t, key, now).value, now) == Some(Keys(copies))
    decreases |copies|
  {
    if |copies| == 0 {
      assert Keys(copies) == [];
    } else {
      var prefix := copies[..|copies| - 1];
      RecordAllAppends(t, key, prefix, now, ttl);
      var mid := RecordAll(t, key, prefix, now, ttl);
      assert UnityIdOf(mid, key, now) == UnityIdOf(t, key, now);
      RecordAppends(mid, key, copies[|copies| - 1], now, ttl);
      assert Keys(prefix) + [Key(copies[|copies| - 1])] == Keys(copies);
    }
  }
}
