# Multi-platform message forwarding: the relay engine

A model of the relay engine of the Koishi plugin `multi-platform-message-forwarding`,
which relays chat messages between channels on different platforms (QQ, KOOK,
Discord, …). The plugin comes in two generations:

- the older handler in `src/index.tsx`:
  - one `Message_Forwarding` call per route and per inbound message;
  - a temporary exclusion list;
  - names, plain or markdown-quote text, or a KOOK card message;
  - a unified-message-id cache that correlates a message with its relayed
    copies, for quotes and for cascading deletes;
- the newer `src/index.ts` with `src/processor.ts`: one `Processor` object per
  route, with an allow/deny vocabulary filter and a name header.

Both generations turn the configured topology (one-way pairs, two-way pairs,
mesh groups) into directed routes.

Modules, one per part of the program:

| module | what it holds |
|---|---|
| `Wrappers`, `Text`, `Domain` | `Option`; the JavaScript string operations used (`includes`, `split`, `join`, global literal `replace`); endpoints, routes, sessions |
| `Topology` | the three expansion modes, as loops that grow `existingItems` |
| `Processing` | the `Processor` class: `filter`, `produceHeaders`, the message handler |
| `Legacy` | the older handler's filter, name resolution, and plain and markdown text |
| `Images`, `Card` | `parseTextWithImages`, `isImgTag`, `extractImgSrc`, and the KOOK card module loop |
| `Correlation` | the two cache tables as values: codec, id allocation, register/record/quote/cascade steps |
| `Correlators` | the `Correlator` class over the two tables; `generateRandomString`; the watched-channel list |
| `Exclusion` | the `pass` list class with `push` and `splice(indexOf(x), 1)` |
| `Forwarding` | `Message_Forwarding` for one route |

Adapter calls, the cache's clock, `Math.random` and timers are not executed in
the model. They become parameters:

- channel and member names (`Option<string>`);
- what `sendMessage` resolves to: the delivered copy's id, or `None` when it rejects;
- the set of delete calls that reject;
- an explicit `now`;
- the stream of random draws;
- timer callbacks, as method calls of their own.

The cache tables are maps from key to a value with its expiry instant.
`Correlation.UnityIdOf` and `Correlation.CopiesOf` are `cache.get` on them: a
value is visible while `now` is before its expiry. `SetThenGetUnityId` and
`SetThenGetCopies` state what a `cache.set` followed by a `cache.get` sees.

## Model

| member | source | states |
|---|---|---|
| Topology.ExpandOneWay | src/index.ts:9-22 | one route per configured pair, its six fields copied unchanged, in order |
| Topology.ExpandTwoWay | src/index.ts:23-44 | 2N routes: per pair, the pair itself and then its source/target swap |
| Topology.TwoWaySymmetric | src/index.tsx:704-728 | two-way routes are closed under reversal; no self-loop arises when no pair has one |
| Topology.ExpandMesh | src/index.ts:45-82 | the routes created are exactly `existingItems`; it is the left-to-right dedup of the candidate tuples (b→c, then c→b, per group and b<c); it holds no duplicate; a route is in it iff it joins two different positions of one group |
| Topology.MeshRoutesCharacterised | src/index.ts:46-78 | the dedup of all candidates has no duplicates, and holds exactly the ordered pairs of distinct positions of one group |
| Topology.MeshGroupAddsAll | src/index.ts:50-81 | a group of K distinct endpoints whose edges were not seen before adds exactly its K×(K−1) routes, after the earlier ones |
| Topology.MeshNoSelfLoops | src/index.tsx:738-783 | with distinct endpoints in every group, no mesh route relays a channel into itself |
| Topology.Expand | src/index.ts:7-84 | the mode dispatch: per mode, the routes described above |
| Processing.HeaderText | src/processor.ts:70-102 | the header is empty iff both name displays are off; it ends in `": "` iff either is on; it starts with the wrapped channel name, or with the wrapped user name when only user names are on; with both on it is the wrapped channel name, then the wrapped user name, then `": "` |
| Processing.Outgoing | src/processor.ts:22-28 | the sent text starts with the header and ends with the content; it is one character longer, a line break right after the header, iff wrapping is on |
| Processing.Processor.constructor | src/processor.ts:5-16 | the processor keeps the configuration and the six endpoint fields |
| Processing.Processor.ProduceHeaders | src/processor.ts:70-102 | the pushed pieces joined with nothing are the header; the user name is the session's in nickname mode, else the member lookup's |
| Processing.Processor.OnMessage | src/processor.ts:17-30 | a delivery happens iff the filter admits the session; it goes to the target bot and channel with header plus content |
| Processing.FilterAdmitsOnlySource | src/processor.ts:47-63 | an admitted session has content, comes from the source channel and platform, is written by neither bot, and mentions a listed word (allow list) or none (deny list) |
| Processing.EmptyVocabulary | src/processor.ts:55-58 | an empty allow list rejects everything; an empty deny list admits exactly the structurally valid sessions |
| Processing.EmptyWordInVocabulary | src/processor.ts:55-58 | the empty word occurs in every content: listed in a deny list it rejects everything, in an allow list it admits every structurally valid session |
| Processing.FilterAgreesWithLegacy | src/processor.ts:47-63 | in deny mode, for sessions with content, the processor's filter and the older handler's filter admit the same sessions, given the same vocabulary and no exclusions; without content the processor always rejects, while the older handler admits it exactly when the vocabulary is empty and the structural conditions hold |
| Processing.PlainTextAgreesWithHeader | src/index.tsx:593-605 | without wrapping, with both names present, the older plain text equals the processor's header plus the content |
| Processing.HeaderExample | src/processor.ts:70-102 | an example: with `[` `]` around both names, channel General and user Alice give `[General][Alice]: ` |
| Legacy.AdmitsRejections | src/index.tsx:414-424 | a filtered word, an excluded channel, a foreign channel or platform, a bot author, or absent content against a non-empty vocabulary each stop the relay; with no vocabulary only the structural conditions remain, even for absent content |
| Legacy.UserName | src/index.tsx:425-437 | no name without the setting; the session's display name in nickname mode; else the event's member nick, or the lookup's when that is empty |
| Legacy.ChannelName | src/index.tsx:438-448 | no name without the setting; else the event's channel name, or the lookup's when that is empty |
| Legacy.PlainText | src/index.tsx:593-605 | the plain text is the wrapped present names, then the tail; it always ends with the content |
| Legacy.PlainTextBare | src/index.tsx:599-600 | with both name settings off the text is the content alone |
| Legacy.PlainTextSeparator | src/index.tsx:601-605 | with a name setting on, `": "` comes before the content, or `": &#10;"` when wrapping |
| Legacy.MarkdownNames | src/index.tsx:581-587 | the four-way name branch gives the wrapped present names joined with nothing |
| Legacy.MarkdownText | src/index.tsx:580-591 | the wrapped names, then `&#10;---&#10;` iff some name is present, then `"> "` and the quoted content |
| Legacy.UnquoteQuoteLines | src/index.tsx:591 | removing the quote markers restores the content exactly |
| Legacy.QuoteLinesMarked | src/index.tsx:591 | every line break of the quoted content is followed by `> ` |
| Images.ParseTextWithImages | src/index.tsx:119-132 | the loop builds the leftmost scan `Segments`: the segments joined give the input; their number is odd; every odd segment is one whole tag; no even segment contains an image tag; no match starts inside a text segment, so every tag is the leftmost match after the previous one |
| Images.SegmentsSegment | src/index.tsx:119-132 | the leftmost scan cuts every input into text and tags that join back to it, with no match starting inside a text |
| Images.SegmentKinds | src/index.tsx:134-137 | on parsed text, `isImgTag` holds of a segment iff its position is odd |
| Images.TagEnd | src/index.tsx:120 | a tag match at a position ends at least five characters later, within the string |
| Images.CloseAt | src/index.tsx:120 | the lazy `.*?\/?>` stops at the first `>`, and `.` never crosses a line terminator |
| Images.ExtractImgSrc | src/index.tsx:139-143 | an extracted source holds no quote character and no line terminator |
| Images.ExtractRoundTrip | src/index.tsx:139-143 | the source of `<img src="url"…` is `url` for every url without quotes or line breaks |
| Images.DecodeEscapeAmp | src/index.tsx:557 | decoding `&amp;` undoes escaping `&` |
| Card.HeaderModules | src/index.tsx:490-523 | no header in custom-card mode; else one kmarkdown section whose content is exactly `(font)`, the names joined by spaces, `(font)[pink]`, and `：` without wrapping; with wrapping a divider follows it |
| Card.BuildCard | src/index.tsx:525-570 | in compatibility mode an image sends the flat text once; otherwise an image without a source abandons the card; otherwise the modules are the header and then one module per segment, in order |
| Card.ImageInSegments | src/index.tsx:525-528 | the parsed segments of a text hold an image tag iff `isImgTag` holds of the whole text |
| Card.CardOfParsedText | src/index.tsx:527-562 | on parsed text, the module after the header at an odd position is an image container and at an even position a plain-text section of that segment |
| Correlation.SetThenGetUnityId | src/index.tsx:364 | after setting a key's unity id with a ttl, reading the key gives that id exactly while the ttl has not run out, and nothing afterwards; other keys read as before |
| Correlation.SetThenGetCopies | src/index.tsx:365 | after setting an id's copy list with a ttl, reading the id gives that list exactly while the ttl has not run out, and nothing afterwards; other ids read as before |
| Correlation.Decode | src/index.tsx:375 | a record decodes iff `split(':')` gives at least four fields |
| Correlation.KeyWellFormed | src/index.tsx:674 | every copy record splits into at least four fields |
| Correlation.DecodeKey | src/index.tsx:674 | decoding a record returns its four fields when none contains `:` |
| Correlation.DecodeKeyWithColon | src/index.tsx:375 | a `:` inside the id shifts the fields, so the record decodes to a different reference |
| Correlation.RandomString | src/index.tsx:66-73 | at most one character per draw; exactly one when every draw is below 62; every character is a letter or digit of the alphabet |
| Correlation.ValidRollsId | src/index.tsx:356 | twenty valid draws give a twenty-character, non-empty id |
| Correlation.AllocateAsWritten | src/index.tsx:355-362 | the drawn id is returned iff it has no live copy list; on a collision nothing is returned |
| Correlation.AllocateFresh | src/index.tsx:355-362 | a returned id has no live copy list and is one of the draws; nothing is returned iff every draw collides |
| Correlation.CollisionLosesId | src/index.tsx:357-358 | a colliding first draw loses the id as written, while the retry yields the fresh second draw |
| Correlation.RegisterAllocates | src/index.tsx:352-366 | a new message in a watched channel gets a live, previously unused id with an empty list, and no live list is overwritten |
| Correlation.RegisterKeepsExisting | src/index.tsx:353-354 | a message outside the watched channels, or one with a live id, leaves both tables unchanged |
| Correlation.RegisterExpires | src/index.tsx:364-365 | a freshly registered key has no id once its ttl has passed |
| Correlation.RecordAppends | src/index.tsx:670-677 | recording appends exactly `sendId:guild:platform:bot` to the list; earlier records stay in order; nothing else changes |
| Correlation.RecordWithoutId | src/index.tsx:671 | without a live id (or list) for the source, nothing is written |
| Correlation.FirstTargetIndex | src/index.tsx:612-617 | the first position whose channel, platform and bot fields match the target; none iff no record matches |
| Correlation.RecordThenQuote | src/index.tsx:608-618 | after a copy to a target is recorded, quoting the source towards that target resolves to the copy's id, unless an earlier copy went there |
| Correlation.DeleteCalls | src/index.tsx:374-375 | at most one attempted call per record; exactly one per record when all are well formed |
| Correlation.DeleteCallsEach | src/index.tsx:374-375 | with well-formed records, attempted call j is the delete of record j |
| Correlation.CallForKey | src/index.tsx:375 | the delete for a recorded copy goes to that copy's bot (`platform:bot`), channel and message id |
| Correlation.CascadeEvictsAll | src/index.tsx:369-382 | with a non-empty list and no failing call: one call per copy; afterwards no source key, copy key or unity entry remains; a second delete issues no call |
| Correlation.CascadeEmptyList | src/index.tsx:374-379 | an empty list issues no call and evicts nothing |
| Correlation.CascadeAllFailing | src/index.tsx:374-379 | when every call rejects, no entry is evicted |
| Correlation.RecordAllAppends | src/index.tsx:670-677 | recording M copies into an empty list leaves exactly their M records, in delivery order |
| Correlation.RecordAllThenCascade | src/index.tsx:369-382 | relaying to M targets and then deleting issues exactly M calls, call j on copy j's bot, channel and id |
| Correlators.GenerateRandomString | src/index.tsx:66-73 | the loop appends one `charAt` per draw and builds the draw string |
| Correlators.WatchedChannels | src/index.tsx:334-351 | the watched channels: every group member (mesh); source then target of each pair (two-way); each source (one-way) |
| Correlators.GroupChannelsCover | src/index.tsx:336-341 | every channel of every mesh group is watched |
| Correlators.Correlator.constructor | src/index.tsx:57-62 | both tables start out empty |
| Correlators.Correlator.UnityIdCreate | src/index.tsx:355-362 | the retry loop returns the corrected allocation |
| Correlators.Correlator.OnMessage | src/index.tsx:352-368 | the new tables are the registration step of the old ones |
| Correlators.Correlator.RecordDelivery | src/index.tsx:670-677 | the new tables are the recording step of the old ones |
| Correlators.Correlator.ResolveQuote | src/index.tsx:608-618 | the scan with `break` returns the quote resolution of the current tables |
| Correlators.Correlator.OnDelete | src/index.tsx:369-382 | for a watched channel, the calls and new tables are the cascade of the old ones; else nothing changes |
| Exclusion.IndexOf | src/index.tsx:394 | the first position of the channel, or −1 exactly when it is absent |
| Exclusion.RemoveFirst | src/index.tsx:403 | removing the first occurrence takes one copy of a present channel out of the multiset, and changes nothing otherwise |
| Exclusion.SpliceRemovesFirst | src/index.tsx:394-403 | `splice(indexOf(x), 1)` removes the first occurrence of a present `x` |
| Exclusion.SpliceAbsentDropsLast | src/index.tsx:394 | for an absent `x` it removes the last element instead |
| Exclusion.ExclusionList.constructor | src/index.tsx:387 | the list starts out empty |
| Exclusion.ExclusionList.TemporaryExclusion | src/index.tsx:389-398 | the channel is appended |
| Exclusion.ExclusionList.TimerFired | src/index.tsx:393-396 | the timer's splice: removes the first occurrence when present, else the last element |
| Exclusion.ExclusionList.CancelTE | src/index.tsx:400-408 | reports exclusion iff the channel is listed, and then removes one occurrence; otherwise nothing changes |
| Exclusion.StaleTimerDropsOther | src/index.tsx:393-394 | when a cancelled channel's timer fires on any non-empty list that no longer holds it, it removes the last entry, another channel's, and exactly one copy of it |
| Forwarding.MessageForwarding | src/index.tsx:413-684 | absent content against a non-empty vocabulary fails; otherwise nothing is sent or recorded unless the filter admits the session; an admitted session whose name reads throw (no member or channel on the event, or a rejected member or channel lookup, src/index.tsx lines 428, 431, 440 and 443) fails; the text path sends the plain or markdown text with the resolved quote, or fails; on the card path, compatibility mode with an image tag in the content sends the flat text, a source-less image outside compatibility mode fails, and otherwise exactly the card of the header and the content's segments is created; only text sends that resolve are recorded, exactly the copy, when the cache is present |
| Forwarding.CardRelay | src/index.tsx:487-577 | absent content fails; with an image tag in compatibility mode the flat text is sent (and recorded when it resolves); a source-less image outside compatibility mode fails; otherwise the card is the header, then one module per segment of the content |
| Forwarding.TextRelay | src/index.tsx:578-678 | the outcome is the given text body with the quote plan of the tables before the call; a body that throws or an unresolvable quote fails; a resolved send is recorded, exactly the copy, when the cache is present |
| Forwarding.TextBody | src/index.tsx:578-606 | the text body is missing exactly when markdown applies and the content is absent |
| Forwarding.AbsentContentText | src/index.tsx:476-479 | a session without content on a non-KOOK platform sends the plain text with the word `undefined` after the names, and fails on the markdown path |
| Forwarding.DeliveredCopyIsQuotable | src/index.tsx:608-677 | a copy recorded by a relay becomes the quote target of its source towards the same target |
| Forwarding.UnquotedNeverFails | src/index.tsx:665-669 | without quote, cache or unified ids the text is sent without a quote |
| Forwarding.QuoteWithoutMatchIsEmpty | src/index.tsx:608-618 | a quoted message with no copy at this target is quoted with the empty id |
| Text.Split | src/index.tsx:375 | `split` always returns at least one piece |
| Text.SplitCons | src/index.tsx:375 | splitting peels off a leading separator-free field |

## Left out

- Mention rewriting (`src/index.tsx:619-664`) is not modelled. It rewrites `<at id=…/>` through member and `binding` database lookups. The model sends the message as if it held no mention.
- Decoding of the KOOK payload (`src/index.tsx:452-480`) is not modelled, because it is `JSON.parse` of adapter data. Its result is the input `kookContent`; `None` stands for the parse failure that falls back to the session content.
- The configuration schema (`src/config.ts` and `src/index.tsx:168-328`) is declarative UI with no logic.
- Koishi wiring (`ctx.on`, `ctx.command`), logging and the command replies sent with `session.send` are left out. The reply of `CancelTE` is the result `wasExcluded`.
- Adapter calls become inputs: `getChannel`, `getGuildMember`, `sendMessage`, `deleteMessage`, `internal.createMessage`. A rejected name lookup in `produceHeaders` would throw; that case is not modelled (the older handler's name reads are, see `Forwarding.NamesThrow`). A delete attempted on a missing bot throws like a rejected one; both are in the `failing` set.
- Timers and `parseInt`: `TemporaryExclusion` does not model the delay. Its timer is a separate `TimerFired` call, which may come at any later point.
- Concurrency is not modelled; every step runs sequentially.
  - The `forEach(async …)` cascade runs its callbacks in list order.
  - Interleaved `get`/`push`/`set` of one copy list by parallel relays (`src/index.tsx:670-677`) is not modelled, so lost updates cannot be shown.
- The cache backend: an entry is live while `now` is before `now + ttl` at its last set. A missing ttl (never expiring) is not modelled.
- The commented-out custom-card branch (`src/index.tsx:490-492`) sends no header modules.
- Correlation.Register and Correlators.Correlator.OnMessage use the corrected allocation `AllocateFresh` from the Findings row, not the code as written. On a collision the code would store the message key with the value `undefined`, and an empty copy list under the key `undefined`, so that message is never correlated. Only `Correlation.AllocateAsWritten` and `Correlation.CollisionLosesId` model that behaviour.
- Correlators.Correlator.UnityIdCreate: the draws are finite. When every supplied attempt collides no id is stored, where the corrected code would keep drawing.
- Topology.ExpandMesh: the triple loop is split into the methods `ExpandGroup` (the `b` loop) and `ExpandRow` (the `c` loop). That keeps each proof small; the iteration order and the shared `existingItems` are unchanged.
- The `h('quote')` element and JSX rendering are left out. The quote is the `quote` field of the text send.

Where the code differs from the plugin's documented behaviour, the model follows the code, except for the allocation defect under Findings:

- `produceHeaders` emits the wrap symbols and an empty name when a name is missing. It does not omit the segment.
- A quote whose message has no id or no live list throws, and the relay is abandoned. A quote lookup with no matching copy is sent with the empty id; the quote is not dropped.
- Compatibility mode sends the flat header-plus-content text, with its image tags unchanged. Images are not reduced to their URLs.
- Card messages are not recorded, so they are neither quoted nor cascaded.
- Recording never allocates an id. Ids are allocated only by the registration handler, for watched channels.
- The cascade evicts only inside callbacks whose delete call succeeded. An empty list, or all calls failing, evicts nothing.

## Findings

| source | as written | input that shows it | evidently intended | confidence | as-written member | corrected member |
|---|---|---|---|---|---|---|
| src/index.tsx:355-362 | on a collision, `unity_id_create` calls itself again but drops the result and returns `undefined`. The message is then stored without a usable id, so it is never correlated | tables holding a live copy list under the first drawn id, with a fresh second draw | return the retry's result, so the first fresh draw becomes the id | not executed | Correlation.AllocateAsWritten | Correlation.AllocateFresh |
