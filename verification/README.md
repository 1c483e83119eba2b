# A verified model of libevent 2.0.21

This project models the parts of libevent 2.0.21 where the bookkeeping is hardest to get right, and proves what they
promise. `dafny verify dfyconfig.toml` checks all of it with Dafny 4.11.

Where the original updates things in place, the model does too: an evbuffer, a heap, an event base, a rate limit, a
poller, a request table are classes whose methods change their fields. Each such method is proved against a simple
view of the state, and the theorems are about that view. Protocols between threads (rate-limit groups, the Windows
condition variable) and the running of active events are state machines; their theorems hold for every interleaving or
every behaviour of callbacks.

| files | subject | main result |
|---|---|---|
| `Bytes`, `ChainList`, `Evbuffer`, `EvbufferMove`, `EvbufferRuns`, `EvbufferCases` | evbuffer, a list of chains of bytes | any run of operations on two buffers does to them what it does to two flat byte queues, return values included (`EvbufferRuns.Execute`), with no chain leaked or shared; exactly when single operations go wrong |
| `EvbufferReserve` | room offered to a caller as vectors, and taken back | exactly which vectors can be committed, and that reserve, write and commit append |
| `EvbufferSearch` | searching and reading lines across chains | the first match of a naive scan; a line, its end and the rest are the old contents |
| `MinHeap`, `TimeoutView`, `Timeouts`, `TimeoutRuns` | timeouts: a heap, common-timeout lists and their proxies | any run of operations does to the whole what it does to one map from events to deadlines (`TimeoutRuns.Execute`): nothing fires early, a turn of the loop fires exactly what is due, and an event fires once for each time it is added; the loop never sleeps past a deadline |
| `ActiveQueues`, `ActiveRuns` | active events by priority | nothing is run while something more urgent is active; what is run, and in which order, follows from the history of activations and deletions (`ActiveRuns.HistoryTells`) |
| `Evmap`, `EvmapRuns` | wanted events, the changelist and epoll | after the changes are applied the kernel watches exactly what is wanted, and after any run of calls what it would if each had been passed on at once (`EvmapRuns.LikeAtOnce`) |
| `TokenBucket`, `RateLimit`, `RateRuns`, `RateGroup` | rate limits | for any run of reads, writes, refills, decrements by the user and changes of configuration: a bound on the bytes let through (`RateRuns.LetThrough`, `RateRuns.FirstToLast`) that no token is lost (`RateRuns.Conserved`, `RateRuns.FullRate`), and exactly when a direction is forgotten (`RateRuns.StopsExactly`); a suspended group holds its members back (`RateGroup.SuspendHolds`) and forgets none |
| `CondVar` | condition variable for Windows | in every interleaving: an exact account of wake-ups (`CondVar.WakeupsAreGranted`), and exactly how many of those who waited a signal or a broadcast wakes (`CondVar.SignalWakes`) |
| `DnsNames` | DNS names with compression | what is written is read back; reading ends, and refuses only what has no end or does not fit |
| `DnsRequests`, `DnsRuns`, `Nameservers` | DNS requests and servers | in any run requests are served as by one queue with a limit (`DnsRuns.Execute`), each on the ring it belongs on, with distinct ids, at the server picked for it; servers are picked in turn |
| `Tagging` | tagged records | records and integers are read back |
| `Inet6`, `Inet6Parts`, `Inet6Quads` | IPv6 addresses as text | every printed address is parsed back; exactly which texts are accepted, and as which addresses (`Inet6Quads.PtonReads`) |
| `Seqs` | sequences without repeats, options | shared by the others |

Some properties that one would expect turn out to hold only under a condition. The model keeps the code as it is,
proves the exact condition and gives an input where it fails, with the members named here:

* `evbuffer_add` leaves `last_with_datap` wrong when it fills a spare chain, and fails an assertion when it would leave
  an empty chain before data (`Evbuffer.EvBuffer.Add`, `EvbufferCases.SpareFilled`, `EvbufferCases.AddAborts`).
* `evbuffer_remove_buffer` leaves `last_with_datap` of the source wrong when it takes part of the bytes of a single chain
  that is not the first (`EvbufferMove.RemoveBuffer`, `EvbufferCases.RemovedFromBehind`).
* `evbuffer_commit_space` leaves it wrong when the last of several spare chains is used
  (`EvbufferReserve.CommitSpace`, `EvbufferCases.CommitLeavesBehind`).
* A single vector from `evbuffer_reserve_space` may be refused by `evbuffer_commit_space`
  (`EvbufferReserve.ReserveSpace`, `EvbufferCases.ReservedAndRefused`).
* `ev_token_bucket_update` adds tokens to a bucket that holds more than its maximum, which a negative decrement brings
  about, and may turn them into a debt while the direction goes on (`TokenBucket.Update`, `TokenBucket.TokensStay`,
  `RateLimit.Limited.Refresh`, `RateLimit.OverfullForgets`, `RateRuns.ReadForgets`,
  `RateRuns.StopsExactly`).
* Internal events of a priority other than 0 let less urgent events run first (`ActiveQueues.InternalPriority`,
  `ActiveQueues.InternalElsewhere`).
* `n_to_wake` counts more than the waiters when signals come early (`CondVar.EarlySignalStays`, `CondVar.ExcessBegins`).
* DNS names with empty labels do not read back (`DnsNames.TextRoundTrip`), and pointers beyond 14 bits point elsewhere
  (`DnsNames.Pointer`).
* `dnsname_to_labels` does not look whether there is a place for the final zero (`DnsNames.ToLabels`,
  `DnsNames.ZeroWithoutPlace`); in requests there always is (`DnsNames.RequestHasRoom`).
* Raising the number of requests in flight leaves requests waiting although there is room (`DnsRequests.Base.SetMax`,
  `DnsRuns.IdleAfter`, `DnsRuns.RaisedLimitLeavesIdle`).
* The comment at the head of event_tagging.c has the high part of tags and integers first; the code writes the low part
  first, and so does the model (`Tagging.TagExample`, `Tagging.EncodedBytes`).
* Reading a tag may look past the five bytes that were made contiguous (`Tagging.DecodeTag`).
* `evtag_consume` drains everything for a length from 2^31 on (`Tagging.Consume`, `Tagging.PeekThenConsume`).
* `evutil_inet_ntop` drops the last character when there is no room for the terminating zero (`Inet6.Ntop`), and
  `evutil_inet_pton` lets a colon at the end through (`Inet6Parts.TrailingColon`),
  though not after a dotted quad (`Inet6Quads.QuadThenColon`).

## Model

| member | source | states |
|---|---|---|
| `ChainList.ChainNew` | deps/libevent-2.0.21-stable/buffer.c:154-181 | A new chain is empty, unlinked, and has room for what was asked; with its header it has the smallest size, or less than twice what was asked. |
| `Evbuffer.EvBuffer.constructor` | deps/libevent-2.0.21-stable/buffer.c:339-353 | A new buffer is valid, holds nothing and owns no chain. |
| `Evbuffer.EvBuffer.FindVictim` | deps/libevent-2.0.21-stable/buffer.c:293-296 | The walk from last_with_datap, right or not, ends at the first empty chain, or at the end of the list. |
| `Evbuffer.EvBuffer.FreeAllChains` | deps/libevent-2.0.21-stable/buffer.c:229-237 | Exactly the chains from the given one on are gone from memory; the others are untouched. |
| `Evbuffer.EvBuffer.FreeTrailingEmptyChains` | deps/libevent-2.0.21-stable/buffer.c:264-277 | The list is cut at its first trailing empty chain; what is left is a proper list and no chain is leaked. |
| `Evbuffer.EvBuffer.AdvanceLastWithData` | deps/libevent-2.0.21-stable/buffer.c:645-659 | last_with_datap moves to the end of the run of chains with data that follows it. |
| `Evbuffer.EvBuffer.ChainInsert` | deps/libevent-2.0.21-stable/buffer.c:282-311 | On any proper list: the assertion that the chains to be freed are empty fails exactly when one behind the first empty one has data, and then nothing has changed; else the new chain replaces them or follows the last one, contents grow by its data, and where last_with_datap ends up. |
| `Evbuffer.EvBuffer.Add` | deps/libevent-2.0.21-stable/buffer.c:1533-1617 | On any proper list, last_with_datap right or not: refused, with nothing changed, exactly when the end is frozen; the assertion of evbuffer_chain_insert fails exactly when the data does not fit in the last chain and an empty chain would come to lie before data; else the contents grow by the data. Exactly when last_with_datap is right afterwards. |
| `Evbuffer.EvBuffer.AddInLast` | deps/libevent-2.0.21-stable/buffer.c:1558-1579 | Data that fits in the last chain, also by realigning it, is appended; last_with_datap is right afterwards exactly when it designates the last chain, or was right and there was no data. |
| `Evbuffer.EvBuffer.AddSpilling` | deps/libevent-2.0.21-stable/buffer.c:1585-1609 | Data split between the room in the last chain and a new chain is appended in order; exactly when the assertion fails, what has been appended then, and exactly when last_with_datap is right. |
| `Evbuffer.EvBuffer.Prepend` | deps/libevent-2.0.21-stable/buffer.c:1619-1691 | Refused exactly when the start is frozen; else the data precedes the old contents, in whichever of the three places it is stored. |
| `Evbuffer.EvBuffer.PrependSpilling` | deps/libevent-2.0.21-stable/buffer.c:1656-1683 | The end of the data goes before the first chain's bytes and its beginning on a new first chain: data then old contents. |
| `Evbuffer.EvBuffer.DrainChains` | deps/libevent-2.0.21-stable/buffer.c:982-1001 | Freeing whole chains leaves a suffix of the list whose bytes are a suffix of the contents, with last_with_datap moved only if its chain is gone. |
| `Evbuffer.EvBuffer.Drain` | deps/libevent-2.0.21-stable/buffer.c:950-1017 | Exactly the first len bytes are gone, or all; a frozen non-empty buffer refuses and stays as it is. |
| `Evbuffer.EvBuffer.Copyout` | deps/libevent-2.0.21-stable/buffer.c:1034-1078 | A copy of the first bytes, as many as asked for and there; refused exactly when frozen, asked for something and not empty. |
| `Evbuffer.EvBuffer.Remove` | deps/libevent-2.0.21-stable/buffer.c:1020-1032 | What is handed out followed by what is left is what was there. |
| `Evbuffer.EvBuffer.PullChains` | deps/libevent-2.0.21-stable/buffer.c:1243-1257 | Chains swallowed whole leave the same bytes in the new chain and the rest of the list; it is known whether the last chain with data, or the chain before it, went. |
| `Evbuffer.EvBuffer.Pullup` | deps/libevent-2.0.21-stable/buffer.c:1173-1283 | Contents do not change, the first bytes asked for lie in one chain, and null is returned exactly when more are asked for than there are, or none. |
| `Evbuffer.EvBuffer.AppendChain` | deps/libevent-2.0.21-stable/buffer.c:298-302 | A chain linked after the last one: the list, its bytes, and last_with_datap on the new chain exactly when it has data. |
| `Evbuffer.EvBuffer.ReplaceTail` | deps/libevent-2.0.21-stable/buffer.c:303-309 | The chain takes the place of empty ones, which are freed. |
| `Evbuffer.EvBuffer.PrependInFirst` | deps/libevent-2.0.21-stable/buffer.c:1644-1655 | With room before the first chain's bytes, data precedes them; last_with_datap stays right also when the buffer was empty. |
| `Evbuffer.EvBuffer.PushFirst` | deps/libevent-2.0.21-stable/buffer.c:1669-1682 | A chain put in front: the list and last_with_datap move by one. |
| `Evbuffer.EvBuffer.DrainAll` | deps/libevent-2.0.21-stable/buffer.c:968-975 | All chains are freed and nothing is left. |
| `Evbuffer.EvBuffer.ZeroChain` | deps/libevent-2.0.21-stable/buffer.c:737-745 | The empty list, valid. |
| `Evbuffer.EvBuffer.DrainInto` | deps/libevent-2.0.21-stable/buffer.c:1003-1007 | The first chain that is left loses its first bytes: contents are those without them. |
| `Evbuffer.EvBuffer.PullFinish` | deps/libevent-2.0.21-stable/buffer.c:1259-1278 | The filled chain, then the rest of the list: same contents, and last_with_datap right in each of the three cases. |
| `Evbuffer.EvBuffer.PullupInPlace` | deps/libevent-2.0.21-stable/buffer.c:1223-1230 | The bytes asked for lie in the first chain, which had room for them; contents do not change. |
| `Evbuffer.EvBuffer.PullupNew` | deps/libevent-2.0.21-stable/buffer.c:1231-1239 | The bytes asked for lie in a new first chain; contents do not change. |
| `Evbuffer.EvBuffer.AddWhenRight` | deps/libevent-2.0.21-stable/buffer.c:282-311 | With last_with_datap right, the assertion fails exactly when the last chain has room and the first empty chain is not the last; with no spare chain neither it nor last_with_datap goes wrong. |
| `Evbuffer.EvBuffer.ChainsAllEmpty` | deps/libevent-2.0.21-stable/buffer.c:239-249 | True exactly when every chain from the given one on is empty. |
| `Evbuffer.EvBuffer.TopUp` | deps/libevent-2.0.21-stable/buffer.c:1594-1603 | As much of the data as the last chain has room for is appended there. |
| `Evbuffer.EvBuffer.AddFirst` | deps/libevent-2.0.21-stable/buffer.c:1548-1569 | Data added to a buffer without chains is on the one chain it then has. |
| `EvbufferMove.AppendList` | deps/libevent-2.0.21-stable/buffer.c:826-838 | Two lists linked: chains, blocks and last_with_datap of the joined list. |
| `EvbufferMove.PrependList` | deps/libevent-2.0.21-stable/buffer.c:840-856 | The other list linked in front, likewise. |
| `EvbufferMove.AddBuffer` | deps/libevent-2.0.21-stable/buffer.c:858-902 | All bytes of the other buffer move to the end in order and it is left empty; the buffers share no chain; exactly when it is refused. |
| `EvbufferMove.PrependBuffer` | deps/libevent-2.0.21-stable/buffer.c:904-948 | All bytes of the other buffer move to the front in order and it is left empty; exactly when it is refused. |
| `EvbufferMove.WholeChains` | deps/libevent-2.0.21-stable/buffer.c:1116-1128 | From any valid source: the loop stops at the first chain that does not fit whole and says how much is left to copy; the assertion that it does not pass the last chain with data holds. |
| `EvbufferMove.LinkMoved` | deps/libevent-2.0.21-stable/buffer.c:1130-1147 | The moved chains, empty ones among them or not, replace the trailing empty chains of the destination. |
| `EvbufferMove.RemoveBuffer` | deps/libevent-2.0.21-stable/buffer.c:1083-1171 | Of any two valid buffers: with m the smaller of datlen and what there is, the destination grows by the first m bytes of the source, which keeps the rest; the buffers share no chain. Exactly when the assertion of evbuffer_add fails, exactly when last_with_datap of the source is wrong afterwards (some bytes go, not all, and all are in one chain that is not the first), and exactly when that of the destination is right. |
| `EvbufferMove.CopyChain` | deps/libevent-2.0.21-stable/buffer.c:812-824 | The list is taken over as it is, with last_with_datap on the same chain. |
| `EvbufferMove.GiveUp` | deps/libevent-2.0.21-stable/buffer.c:795-804 | The buffer whose list was taken is empty and owns nothing. |
| `EvbufferMove.Receive` | deps/libevent-2.0.21-stable/buffer.c:1130-1147 | The destination grows by the bytes of the moved chains, and its last_with_datap moves to the end of the run of chains with data that follows. |
| `EvbufferMove.Detach` | deps/libevent-2.0.21-stable/buffer.c:1140-1142 | The first chains and the others are two proper lists that share nothing. |
| `EvbufferMove.MoveWhole` | deps/libevent-2.0.21-stable/buffer.c:1116-1147 | The first chains go over in order and the source is a valid buffer of the others. |
| `EvbufferMove.RemoveSome` | deps/libevent-2.0.21-stable/buffer.c:1116-1161 | For fewer bytes than there are, of any two valid buffers: they go over in order and the rest stays; the three exact conditions of RemoveBuffer. |
| `EvbufferMove.SendWhole` | deps/libevent-2.0.21-stable/buffer.c:1116-1147 | All but the last copy: the lists of both buffers, the bytes moved, and the three exact conditions in terms of the state then. |
| `EvbufferMove.TakeFrom` | deps/libevent-2.0.21-stable/buffer.c:1149-1153 | The first bytes of the first chain with data are gone. |
| `EvbufferMove.BehindWhen` | deps/libevent-2.0.21-stable/buffer.c:1116-1128 | The walk stops at the last chain with data without having met a byte exactly when all bytes are there. |
| `EvbufferMove.GaplessFine` | deps/libevent-2.0.21-stable/buffer.c:1083-1171 | With no empty chain before the last one with data in the source, and a chain moved or no spare chain in the destination, nothing goes wrong. |
| `EvbufferRuns.Execute` | deps/libevent-2.0.21-stable/buffer.c:858-1283 | For every list of add, prepend, drain, remove, pullup, freeze and the three moves on two new buffers, wherever malloc puts each chain: contents, frozen ends, bytes handed out and every return value are those of two flat queues. |
| `EvbufferRuns.StepMove` | deps/libevent-2.0.21-stable/buffer.c:858-948 | A move does to both buffers what it does to two flat queues, and returns what they say. |
| `EvbufferReserve.CountRoom` | deps/libevent-2.0.21-stable/buffer.c:1851-1876 | The room counted is the sum over the chains looked at; when it is not enough, all chains or the allowed number have been looked at. |
| `EvbufferReserve.ExpandFast` | deps/libevent-2.0.21-stable/buffer.c:1830-1935 | Afterwards at most n chains at the end have room for the bytes asked for; contents do not change. The last chain with data stays as it is, and so does every empty one, but for realigning, if there are fewer than n. |
| `EvbufferReserve.SetupVecs` | deps/libevent-2.0.21-stable/buffer.c:2001-2035 | The vectors are the room of consecutive chains from the first with room on, no more than allowed, and together as long as asked. |
| `EvbufferReserve.ExpandSingleChain` | deps/libevent-2.0.21-stable/buffer.c:1719-1826 | One chain from the last one with data on has room for the bytes asked for, by realigning, moving, or a new chain; contents do not change. It is the last one or the first with room, except exactly when the last one with data is passed over for the next and another follows. |
| `EvbufferReserve.ReserveSpace` | deps/libevent-2.0.21-stable/buffer.c:612-643 | Contents never change; refused exactly when frozen or asked for no vector; else enough room within the number of vectors. A single vector will be accepted by evbuffer_commit_space except exactly when the last chain with data is passed over for the next one and another follows. |
| `EvbufferReserve.CheckVecs` | deps/libevent-2.0.21-stable/buffer.c:698-708 | The first pass accepts exactly the vectors that point to the room of consecutive chains and are no longer than it. |
| `EvbufferReserve.AdjustChains` | deps/libevent-2.0.21-stable/buffer.c:709-718 | The second pass appends the bytes written at the vectors, in order, and leaves last_with_datap right. |
| `EvbufferReserve.CommitSpace` | deps/libevent-2.0.21-stable/buffer.c:661-729 | Accepted exactly when Acceptable holds of the vectors: then the bytes written there are appended, in vector order; else nothing changes. The exact case in which last_with_datap goes wrong. |
| `EvbufferReserve.OfferedIsAcceptable` | deps/libevent-2.0.21-stable/buffer.c:612-729 | What was offered in several vectors is accepted, and last_with_datap stays right. |
| `EvbufferReserve.SingleVecAcceptable` | deps/libevent-2.0.21-stable/buffer.c:677-708 | A vector from a reservation of one vector is accepted if and only if its chain is the last or the first with room. |
| `EvbufferReserve.AppendThroughVectors` | deps/libevent-2.0.21-stable/buffer.c:612-729 | Reserving in several vectors, writing there and committing is appending. |
| `EvbufferReserve.ExpandByAppending` | deps/libevent-2.0.21-stable/buffer.c:1881-1895 | A new chain brings the room to what was asked within the number of chains. |
| `EvbufferReserve.ExpandByReplacing` | deps/libevent-2.0.21-stable/buffer.c:1896-1934 | One chain in place of all empty ones is enough, with the room in the last chain with data. |
| `EvbufferReserve.ResizeLastWithData` | deps/libevent-2.0.21-stable/buffer.c:1790-1815 | The last chain with data is replaced, in its place, by a larger one with the same bytes. |
| `EvbufferReserve.InsertNew` | deps/libevent-2.0.21-stable/buffer.c:1817-1820 | A new chain of the size asked for, at the end, in place of empty ones. |
| `EvbufferReserve.CommitLast` | deps/libevent-2.0.21-stable/buffer.c:677-687 | The bytes written in the last chain are appended; the exact condition under which last_with_datap is right. |
| `EvbufferReserve.CommitFrom` | deps/libevent-2.0.21-stable/buffer.c:690-718 | From the first chain with room on: accepted exactly when the vectors are what was offered; else nothing changes. |
| `EvbufferReserve.ExpandWithData` | deps/libevent-2.0.21-stable/buffer.c:1756-1815 | For a last chain with data and too little room, in each branch: room for what was asked, and when the chain is one that a commit looks at. |
| `EvbufferReserve.ExpandEmpty` | deps/libevent-2.0.21-stable/buffer.c:1838-1848 | The first chain of an empty buffer. |
| `EvbufferCases.TwoSpares` | deps/libevent-2.0.21-stable/buffer.c:1830-1895 | From a new buffer, an add and two reservations: data in one chain and two spare chains with room. |
| `EvbufferCases.SpareFilled` | deps/libevent-2.0.21-stable/buffer.c:1558-1569 | A new buffer, an add, a reservation and an add: last_with_datap is wrong. |
| `EvbufferCases.AddAborts` | deps/libevent-2.0.21-stable/buffer.c:282-311 | With two spare chains, an add too large for the last fails the assertion. |
| `EvbufferCases.CommitLeavesBehind` | deps/libevent-2.0.21-stable/buffer.c:677-687 | With two spare chains, a commit to the last leaves last_with_datap wrong. |
| `EvbufferCases.ReservedAndRefused` | deps/libevent-2.0.21-stable/buffer.c:1774-1789 | With two spare chains, a single vector is reserved in the middle one and refused. |
| `EvbufferCases.RemovedFromBehind` | deps/libevent-2.0.21-stable/buffer.c:1116-1128 | Two bytes committed behind an empty chain, and one removed: last_with_datap of the source is wrong. |
| `EvbufferSearch.PtrMatches` | deps/libevent-2.0.21-stable/buffer.c:2456-2488 | True exactly when the text occurs in the flat contents at the position. |
| `EvbufferSearch.SearchRange` | deps/libevent-2.0.21-stable/buffer.c:2496-2559 | The first position in range at which a naive scan of the flat contents finds the text, else -1. |
| `EvbufferSearch.FindEolChar` | deps/libevent-2.0.21-stable/buffer.c:1317-1342 | The first CR or LF, although the data is scanned in chunks. |
| `EvbufferSearch.FindStop` | deps/libevent-2.0.21-stable/buffer.c:1295-1364 | The next stop byte across chains; nothing before it is one. |
| `EvbufferSearch.SpanEol` | deps/libevent-2.0.21-stable/buffer.c:1366-1403 | The length of the run of CR and LF in the flat contents. |
| `EvbufferSearch.PtrAdd` | deps/libevent-2.0.21-stable/buffer.c:2410-2450 | Moving a position on succeeds exactly when it stays before the end, and then denotes that byte. |
| `EvbufferSearch.SearchCrlf` | deps/libevent-2.0.21-stable/buffer.c:1450-1467 | For LF or CR LF lines: the first line end, lone CRs passed over. |
| `EvbufferSearch.SearchEol` | deps/libevent-2.0.21-stable/buffer.c:1415-1488 | For each style, the first line end and its length, or none. |
| `EvbufferSearch.Readln` | deps/libevent-2.0.21-stable/buffer.c:1490-1527 | The line, its end and what is left make up the old contents, and no line end comes earlier; none exactly when frozen or when there is no line end, and then nothing changes. |
| `EvbufferSearch.SearchStop` | deps/libevent-2.0.21-stable/buffer.c:1437-1442 | The first line end for the styles whose ends begin at every stop byte. |
| `EvbufferSearch.StrictEol` | deps/libevent-2.0.21-stable/buffer.c:1443-1449 | The first CR LF is the first strict line end. |
| `MinHeap.RootIsFirst` | deps/libevent-2.0.21-stable/minheap-internal.h:69 | In an ordered heap no entry is earlier than the root. |
| `MinHeap.TimeHeap.constructor` | deps/libevent-2.0.21-stable/minheap-internal.h:64 | A new heap is empty. |
| `MinHeap.TimeHeap.Top` | deps/libevent-2.0.21-stable/minheap-internal.h:67-69 | An event no later than any other, exactly when there is one. |
| `MinHeap.TimeHeap.ShiftUp` | deps/libevent-2.0.21-stable/minheap-internal.h:133-143 | From a heap in order but at the hole, one in order with the same events, every index right. |
| `MinHeap.TimeHeap.ShiftDown` | deps/libevent-2.0.21-stable/minheap-internal.h:145-158 | Likewise downwards, towards the earlier child. |
| `MinHeap.TimeHeap.Push` | deps/libevent-2.0.21-stable/minheap-internal.h:71-77 | The event is added; order and indices hold. |
| `MinHeap.TimeHeap.Erase` | deps/libevent-2.0.21-stable/minheap-internal.h:96-115 | Exactly the event is removed, wherever it was, order and indices hold; -1 exactly when it was not there. |
| `MinHeap.TimeHeap.SubtractAll` | deps/libevent-2.0.21-stable/event.c:2446-2455 | Every entry's time is moved by the same amount, once, and the heap stays in order. |
| `MinHeap.TimeHeap.Reserve` | deps/libevent-2.0.21-stable/minheap-internal.h:117-131 | Room for the entries, which stay. |
| `MinHeap.TimeHeap.Init` | deps/libevent-2.0.21-stable/minheap-internal.h:66 | A new event is outside the heap, which stays as it is. |
| `TimeoutView.PutCovers` | deps/libevent-2.0.21-stable/event.c:2150-2156 | An event put into a list anywhere but at its head leaves the proxy of every list no later than the list. |
| `TimeoutView.ProxyCovers` | deps/libevent-2.0.21-stable/event.c:1144-1151 | A proxy put at the time of the first event covers its list and uncovers no other. |
| `TimeoutView.FreedCovers` | deps/libevent-2.0.21-stable/event.c:2502-2539 | Taking an event out never leaves a list without a proxy in time, unless it is the proxy that is taken and does not fire. |
| `TimeoutView.AdvancedGood` | deps/libevent-2.0.21-stable/event.c:2446-2468 | Moving all times by the same amount keeps lists sorted and covered and moves every deadline by it. |
| `Timeouts.Base.constructor` | deps/libevent-2.0.21-stable/event.c:552-569 | A new base has no deadlines. |
| `Timeouts.Base.Unlink` | deps/libevent-2.0.21-stable/event.c:2526-2535 | The event leaves the heap or the list its timeval names, and nothing else moves. |
| `Timeouts.Base.InsertInOrder` | deps/libevent-2.0.21-stable/event.c:2542-2570 | The event comes after all that expire no later and before all that expire later. |
| `Timeouts.Base.Place` | deps/libevent-2.0.21-stable/event.c:2102-2150 | Whether the event was pending or its timeout had fired already, it now is pending once, at the new time, and its callback is called off. |
| `Timeouts.Base.AddTimeout` | deps/libevent-2.0.21-stable/event.c:2026-2165 | Of all deadlines exactly this event's changes, to the absolute time or to now plus the interval, and all invariants hold, with the proxy moved if the event comes first; a callback still to run because of the old timeout is called off, one for another reason is not. |
| `Timeouts.Base.Del` | deps/libevent-2.0.21-stable/event.c:2196-2268 | The event has no deadline and is not active; all other deadlines stay. |
| `Timeouts.Base.Process` | deps/libevent-2.0.21-stable/event.c:2474-2499 | Exactly the events of the heap that are due fire, in order of expiry; lists are left alone. |
| `Timeouts.Base.StartProxy` | deps/libevent-2.0.21-stable/event.c:1320-1326 | Taking an active proxy to run it keeps the invariants while its callback is still to come. |
| `Timeouts.Base.CommonCallback` | deps/libevent-2.0.21-stable/event.c:1156-1177 | Exactly the events of the list that are due fire; if any are left the proxy waits for the first of them. |
| `Timeouts.Base.TimeoutNext` | deps/libevent-2.0.21-stable/event.c:2379-2414 | With nothing active: no limit exactly when nothing is pending; else the wait ends with the earliest deadline, of the heap or of any list, and not later. |
| `Timeouts.Base.InitCommon` | deps/libevent-2.0.21-stable/event.c:1181-1253 | The list of that duration, an old one if there is one; refused exactly when there are 256 others; no deadline changes. |
| `Timeouts.Base.Turn` | deps/libevent-2.0.21-stable/event.c:1616-1627 | One turn at a time: what is due fires, and nothing else; the deadlines left are exactly those that are later. |
| `Timeouts.Base.TimeoutCorrect` | deps/libevent-2.0.21-stable/event.c:2422-2472 | A clock set back moves every deadline back by the same amount; otherwise none moves. |
| `Timeouts.Base.Assign` | deps/libevent-2.0.21-stable/event.c:1718-1752 | A new event has no deadline and changes none. |
| `Timeouts.Base.Link` | deps/libevent-2.0.21-stable/event.c:2600-2608 | The event is in the heap, or at its place in its list, and all invariants but coverage hold. |
| `Timeouts.Base.Schedule` | deps/libevent-2.0.21-stable/event.c:1144-1151 | The proxy waits for the first event of its list, also if it had already fired. |
| `Timeouts.Base.Fire` | deps/libevent-2.0.21-stable/event.c:1171-1172 | The event is taken out and active because of its timeout; lists stay covered. |
| `TimeoutRuns.Do` | deps/libevent-2.0.21-stable/event.c:1616-1627 | Each operation does to the base what it does to a map from events to deadlines; nothing fires before its time, and what fires has no deadline then. |
| `TimeoutRuns.Execute` | deps/libevent-2.0.21-stable/event.c:1616-1627 | So does any run, from any valid state: events set up, common timeouts made, timeouts added and deleted, a clock set back, whole turns of the loop, and their parts with anything in between, the wait of a callback for the lock included. |
| `TimeoutRuns.FiresWhenDue` | deps/libevent-2.0.21-stable/event.c:2474-2499 | In a run, a turn fires an event if and only if it is due, and leaves only what is due later. |
| `TimeoutRuns.OncePerAdd` | deps/libevent-2.0.21-stable/event.c:2026-2165 | In a run no event fires twice unless it was added in between. |
| `ActiveQueues.ProcessSingleQueue` | deps/libevent-2.0.21-stable/event.c:1311-1370 | The loop runs the queue as the recursive description says, whatever callbacks do; run with nothing more urgent active, it takes every event while nothing more urgent is. |
| `ActiveQueues.ProcessQueues` | deps/libevent-2.0.21-stable/event.c:1409-1435 | Likewise the loop over priorities; nothing is taken while something more urgent is active, and events of one priority only, internal ones aside. What else it does is said by the lemmas of ActiveRuns about the same outcome. |
| `ActiveQueues.DoAllKeeps` | deps/libevent-2.0.21-stable/event.c:2288-2327 | As long as event_continue is not set nothing more urgent than the running priority is active. |
| `ActiveQueues.MostUrgentFirst` | deps/libevent-2.0.21-stable/event.c:1311-1435 | For every behaviour of callbacks: each event taken is first in its queue and every more urgent queue is empty; one call runs events of one priority only, internal ones aside. |
| `ActiveQueues.InternalElsewhere` | deps/libevent-2.0.21-stable/event.c:1421-1428 | For every other priority of internal events, a base with one, every event in its queue, and a script of callbacks such that a less urgent event of the user is taken while a more urgent one is active. |
| `ActiveQueues.InternalPriority` | deps/libevent-2.0.21-stable/event.c:1311-1435 | Nothing is ever taken while something more urgent is active if and only if the priority of internal events is 0. |
| `ActiveRuns.TellsNothing` | deps/libevent-2.0.21-stable/event.c:1006-1041 | A new base, with empty queues, has the empty history. |
| `ActiveRuns.DoTells` | deps/libevent-2.0.21-stable/event.c:2245-2327 | Whatever is done to a base, each queue holds the events of its priority that were made active and not taken or deleted since, in the order they became active. |
| `ActiveRuns.HistoryTells` | deps/libevent-2.0.21-stable/event.c:1311-1435 | So it is before every callback of a call of event_process_active, and after it; and each event taken is the first of its queue. |
| `ActiveRuns.DeletedIsNotRun` | deps/libevent-2.0.21-stable/event.c:2245-2246 | An event deleted during a callback is not run later, unless it is made active in between. |
| `ActiveRuns.ActivatedIsRun` | deps/libevent-2.0.21-stable/event.c:2289-2327 | An event made active during a callback and not deleted after that is run later in the call, or is still in its queue at its end. |
| `ActiveRuns.ActiveIsRun` | deps/libevent-2.0.21-stable/event.c:1311-1435 | So is one that is active at the beginning. |
| `ActiveRuns.FirstComeFirstRun` | deps/libevent-2.0.21-stable/event.c:1321-1326 | Events of one priority are run in the order in which they became active. |
| `ActiveRuns.BreakStops` | deps/libevent-2.0.21-stable/event.c:1355-1370 | The count is -1 if and only if there was a break during the last callback, and there was none in those before; else the count is the number of events run that are not internal. |
| `ActiveRuns.ContinueTold` | deps/libevent-2.0.21-stable/event.c:2303-2320 | With nothing more urgent active, event_continue is set during a callback if and only if something more urgent than the running priority is made active. |
| `ActiveRuns.RunsToTheEnd` | deps/libevent-2.0.21-stable/event.c:1409-1435 | Without a break or event_continue, every queue up to that of the events run is empty at the end, and all are if only internal events were run; something is run if anything is active. |
| `Evmap.WantedBySome` | deps/libevent-2.0.21-stable/evmap.c:262-332 | The counters are positive exactly when some event wants the direction. |
| `Evmap.ChangesCompose` | deps/libevent-2.0.21-stable/evmap.c:646-723 | An add to a change adds to what will be watched, a delete takes away from it, whatever the change was. |
| `Evmap.GatheringIsSafe` | deps/libevent-2.0.21-stable/epoll.c:351-383 | Any requests on a descriptor, gathered in one change and applied, leave the kernel as passing on each at once does. |
| `Evmap.Poller.GetOrConstruct` | deps/libevent-2.0.21-stable/evmap.c:615-644 | A descriptor has one change at most, found through its slot, which starts from what is watched. |
| `Evmap.Poller.ChangelistAdd` | deps/libevent-2.0.21-stable/evmap.c:646-675 | The change of the descriptor, made if need be, now asks for the added directions. |
| `Evmap.Poller.ChangelistDel` | deps/libevent-2.0.21-stable/evmap.c:677-723 | The change of the descriptor takes an add back or asks for a delete. |
| `Evmap.Poller.IoAdd` | deps/libevent-2.0.21-stable/evmap.c:262-332 | The event is added, or refused exactly when a counter is full; the backend is told exactly when what is wanted changes; other descriptors stay. |
| `Evmap.Poller.IoDel` | deps/libevent-2.0.21-stable/evmap.c:335-387 | The event is removed; the backend is told exactly when what is wanted changes. |
| `Evmap.Poller.ApplyOne` | deps/libevent-2.0.21-stable/epoll.c:173-330 | Whatever the kernel had for the descriptor, it now watches what the change says; the retries make every case succeed. |
| `Evmap.Poller.ApplyEach` | deps/libevent-2.0.21-stable/epoll.c:351-383 | Requests on a descriptor applied each at once leave the kernel as the one change they make up, applied once. |
| `Evmap.Poller.ApplyChanges` | deps/libevent-2.0.21-stable/epoll.c:332-349 | Each descriptor with a change is watched as its change says, each other as before. |
| `Evmap.Poller.RemoveAll` | deps/libevent-2.0.21-stable/evmap.c:559-578 | No slot refers to a change any more; nothing else in the slots changes. |
| `Evmap.Poller.Dispatch` | deps/libevent-2.0.21-stable/epoll.c:385-403 | The kernel watches each descriptor for exactly what some event wants, unless the descriptor was closed behind the library's back and nothing was asked of it since. |
| `Evmap.Poller.CloseFd` | deps/libevent-2.0.21-stable/epoll.c:217-231 | A descriptor that is closed and opened again drops out of the kernel; the invariants allow for it. |
| `Evmap.Poller.AddTo` | deps/libevent-2.0.21-stable/evmap.c:286-331 | The same for a descriptor that has its slot. |
| `EvmapRuns.StepKeeps` | deps/libevent-2.0.21-stable/epoll.c:351-383 | Without a changelist, each call leaves the kernel watching exactly what is wanted, but on closed descriptors. |
| `EvmapRuns.Execute` | deps/libevent-2.0.21-stable/evmap.c:262-387 | For any run of adds, deletes, waits and closes, with a changelist and without: the same events, and the same returned values. |
| `EvmapRuns.LikeAtOnce` | deps/libevent-2.0.21-stable/epoll.c:332-403 | From the start, after any such run and before the next wait, the kernel watches every descriptor that was not closed as if each call had been passed on at once; the kernel is the same if none was closed. |
| `TokenBucket.Update` | deps/libevent-2.0.21-stable/bufferevent_ratelim.c:72-110 | In 64-bit unsigned arithmetic: the limit becomes min(maximum, limit + ticks * rate) if and only if limit is at most maximum or the wrapped difference is at most the tokens due; nothing happens for no ticks or more than INT_MAX. |
| `TokenBucket.OverfullGrows` | deps/libevent-2.0.21-stable/bufferevent_ratelim.c:95-98 | A bucket of maximum 1 that holds 2 is updated to 3. |
| `TokenBucket.OverfullTurns` | deps/libevent-2.0.21-stable/bufferevent_ratelim.c:95-98 | A full bucket of maximum 1 is updated to a negative limit. |
| `TokenBucket.TokensStay` | deps/libevent-2.0.21-stable/bufferevent_ratelim.c:95-98 | A bucket with tokens has tokens after an update if and only if it was not above its maximum, or the sum stays in the range of ssize_t, or goes all the way round. |
| `TokenBucket.OneUpdateOrTwo` | deps/libevent-2.0.21-stable/bufferevent_ratelim.c:72-110 | Updating at two ticks comes to the same as updating at the later. |
| `TokenBucket.NoTickTwice` | deps/libevent-2.0.21-stable/bufferevent_ratelim.c:77-84 | Although ticks wrap at 32 bits, no update counts more ticks than have passed since the last. |
| `TokenBucket.RateBound` | deps/libevent-2.0.21-stable/bufferevent_sock.c:149-182 | The case of one bucket by itself of the bound that RateRuns.FirstToLast proves of runs: the bytes of any series of reads, each within what was allowed, are at most the maximum plus the rate times the ticks from the first to the last. |
| `TokenBucket.WithinRefreshed` | deps/libevent-2.0.21-stable/bufferevent_ratelim.c:72-110 | An update at any later time keeps what was let through, and what is left, within the bound. |
| `TokenBucket.WithinRead` | deps/libevent-2.0.21-stable/bufferevent_ratelim.c:268-296 | So does a read of no more than is left. |
| `RateLimit.Limited.constructor` | deps/libevent-2.0.21-stable/bufferevent_ratelim.c:594-601 | Without a configuration nothing is suspended. |
| `RateLimit.Limited.Refresh` | deps/libevent-2.0.21-stable/bufferevent_ratelim.c:112-124 | Both buckets are updated as TokenBucket.Update says. A direction that was stopped whenever its bucket was empty still is, exactly when it is stopped or its tokens do not turn into a debt. |
| `RateLimit.Limited.GetReadMax` | deps/libevent-2.0.21-stable/bufferevent_ratelim.c:199-266 | What may be read is the tokens there are after an update, none if there are none; when the invariant stays. |
| `RateLimit.Limited.DecrementRead` | deps/libevent-2.0.21-stable/bufferevent_ratelim.c:274-296 | Reading is suspended exactly when the bucket is empty afterwards, and then the refill timer runs or is about to; exactly when it runs. |
| `RateLimit.Limited.DecrementWrite` | deps/libevent-2.0.21-stable/bufferevent_ratelim.c:312-333 | The same for writing. |
| `RateLimit.Limited.DecrementReadLimit` | deps/libevent-2.0.21-stable/bufferevent_ratelim.c:900-925 | The invariants hold although only a change of sign is acted on; suspension and timer in each case. |
| `RateLimit.Limited.DecrementWriteLimit` | deps/libevent-2.0.21-stable/bufferevent_ratelim.c:927-954 | The same for writing. |
| `RateLimit.Limited.TimerExpires` | deps/libevent-2.0.21-stable/bufferevent_ratelim.c:395-408 | Between the expiry of the timer and its callback the invariants hold. |
| `RateLimit.Limited.RefillCallback` | deps/libevent-2.0.21-stable/bufferevent_ratelim.c:395-441 | Exactly the directions that are suspended and still empty stay suspended, and then the timer is set again; when the invariant stays. |
| `RateLimit.Limited.ClearRateLimit` | deps/libevent-2.0.21-stable/bufferevent_ratelim.c:573-584 | Without a configuration nothing is suspended and no timer runs. |
| `RateLimit.Limited.SetRateLimit` | deps/libevent-2.0.21-stable/bufferevent_ratelim.c:586-630 | Limits are cut, or start at the rate; a direction is suspended exactly when its bucket is empty, and the timer runs exactly when one is. |
| `RateLimit.Limited.GetWriteMax` | deps/libevent-2.0.21-stable/bufferevent_ratelim.c:268-272 | The same for writing. |
| `RateLimit.OverfullForgets` | deps/libevent-2.0.21-stable/bufferevent_ratelim.c:900-925 | A configuration, a large negative decrement and one tick: the bucket is empty, reading is not suspended and no timer runs. |
| `RateRuns.Perform` | deps/libevent-2.0.21-stable/bufferevent_sock.c:123-198 | Each act does to a bufferevent with a rate limit what it does to a plain record of its state, and lets through as many bytes. A read or write always brings the buckets up to date; it moves nothing while its direction is suspended, and else all that is wanted unless that empties the bucket, which then suspends the direction; without a limit it moves what is wanted up to 16384. |
| `RateRuns.Transfer` | deps/libevent-2.0.21-stable/bufferevent_ratelim.c:199-441 | So does any run of acts, from any state; its transfers are those of the plain run. |
| `RateRuns.MirrorRun` | deps/libevent-2.0.21-stable/bufferevent_ratelim.c:268-333 | A run in which reading and writing change places reads what the other writes, and ends in the mirror image. |
| `RateRuns.StepLooked` | deps/libevent-2.0.21-stable/bufferevent_ratelim.c:395-441 | Every act keeps it that a direction that is stopped will be looked at again. |
| `RateRuns.StepStops` | deps/libevent-2.0.21-stable/bufferevent_ratelim.c:112-124 | An act after which an empty bucket does not stop reading is exactly one that brings the buckets up to date, be it the read callback itself, and carries a running bucket out of the range of ssize_t. |
| `RateRuns.StopsExactly` | deps/libevent-2.0.21-stable/bufferevent_ratelim.c:199-441 | At every point of any run an empty bucket stops reading, if and only if there is no such act in it: callbacks that move nothing, changes of configuration and decrements by the user included. |
| `RateRuns.ReadForgets` | deps/libevent-2.0.21-stable/bufferevent_sock.c:153-183 | A full bucket of maximum 1 and the read callback one tick later: nothing is read, the bucket is in debt, and reading is not suspended and no timer runs. |
| `RateRuns.NeverForgotten` | deps/libevent-2.0.21-stable/bufferevent_ratelim.c:199-441 | There is none where the user gives no tokens back and no bucket is above its maximum at first; none then rises above it, whatever the configurations. |
| `RateRuns.StepGain` | deps/libevent-2.0.21-stable/bufferevent_ratelim.c:199-296 | What an act reads and leaves is at most what there was, the rate for each tick it counts and what the user gives back. |
| `RateRuns.LetThrough` | deps/libevent-2.0.21-stable/bufferevent_ratelim.c:199-441 | For every run in which the limit is not removed, at any times and with any tick lengths: the bytes read and the tokens left are at most the tokens there were, those that came in, at each update the rate of the time for each tick counted, and those the user gave back. |
| `RateRuns.GainsAreDue` | deps/libevent-2.0.21-stable/bufferevent_ratelim.c:72-110 | By one clock that does not go back, no tick is counted in a run that has not passed in it, although counts wrap. |
| `RateRuns.LetThroughInTime` | deps/libevent-2.0.21-stable/bufferevent_ratelim.c:199-441 | So in such a run what came in is at most the rate of the time for each tick that passed, and what the user gave back. |
| `RateRuns.LetThroughSteady` | deps/libevent-2.0.21-stable/bufferevent_ratelim.c:199-441 | With one configuration, what came in is the rate for each tick from the beginning to the end. |
| `RateRuns.FirstToLast` | deps/libevent-2.0.21-stable/bufferevent_ratelim.c:199-441 | If the user gives none back either, the bytes read are at most the maximum plus the rate times the ticks from the first read that moved something to the last. |
| `RateRuns.GiftLetsMore` | deps/libevent-2.0.21-stable/bufferevent_ratelim.c:900-925 | With five tokens given back, that bound does not hold. |
| `RateRuns.ReadsAll` | deps/libevent-2.0.21-stable/bufferevent_sock.c:157-183 | A read that is not suspended takes all that is wanted, or leaves nothing. |
| `RateRuns.Conserved` | deps/libevent-2.0.21-stable/bufferevent_ratelim.c:199-441 | In every run without tokens given back, the bytes read, the tokens left and what the maximum cut off are exactly what there was and what came in. |
| `RateRuns.HungryGetsAll` | deps/libevent-2.0.21-stable/bufferevent_sock.c:157-183 | When a read in such a run wants more than it gets, everything that came in has been read, but for what the maximum cut off. |
| `RateRuns.FullRate` | deps/libevent-2.0.21-stable/bufferevent_ratelim.c:395-441 | A reader that used up its tokens and wants enough at every tick gets exactly the rate at every tick, suspended and let go by the timer each time. |
| `RateRuns.WriteConserved` | deps/libevent-2.0.21-stable/bufferevent_ratelim.c:268-333 | The same as RateRuns.Conserved. |
| `RateRuns.WriteLetThrough` | deps/libevent-2.0.21-stable/bufferevent_ratelim.c:268-333 | The same of writing as RateRuns.LetThrough. |
| `RateRuns.WriteLetThroughInTime` | deps/libevent-2.0.21-stable/bufferevent_ratelim.c:268-333 | The same as RateRuns.LetThroughInTime. |
| `RateRuns.WriteFirstToLast` | deps/libevent-2.0.21-stable/bufferevent_ratelim.c:268-333 | The same as RateRuns.FirstToLast. |
| `RateRuns.WriteStopsExactly` | deps/libevent-2.0.21-stable/bufferevent_ratelim.c:268-333 | The same as RateRuns.StopsExactly. |
| `RateRuns.WriteNeverForgotten` | deps/libevent-2.0.21-stable/bufferevent_ratelim.c:268-333 | The same as RateRuns.NeverForgotten. |
| `RateGroup.RandomOrder` | deps/libevent-2.0.21-stable/bufferevent_ratelim.c:444-484 | The two loops visit each member once. |
| `RateGroup.StepKeeps` | deps/libevent-2.0.21-stable/bufferevent_ratelim.c:350-373 | Every step of every thread keeps it: a member held for its group is in a suspended group, or the group is to be gone over again, or the member is still to come. |
| `RateGroup.NeverForgotten` | deps/libevent-2.0.21-stable/bufferevent_ratelim.c:731-806 | So it holds in every interleaving, the window after the group lock is dropped included. |
| `RateGroup.LockRespected` | deps/libevent-2.0.21-stable/bufferevent_ratelim.c:358-371 | No step changes whether a member is held back for the group without its lock. |
| `RateGroup.OneHolder` | deps/libevent-2.0.21-stable/bufferevent_ratelim.c:366-370 | A lock that is taken is not taken again before it is released. |
| `RateGroup.ReleasedIsFree` | deps/libevent-2.0.21-stable/bufferevent_ratelim.c:366-370 | Then it may be. |
| `RateGroup.NeverBlocks` | deps/libevent-2.0.21-stable/bufferevent_ratelim.c:358-371 | A pass over the members can always go on, whoever holds which lock, and comes to its end. |
| `RateGroup.SuspendHolds` | deps/libevent-2.0.21-stable/bufferevent_ratelim.c:350-373 | From the beginning of a pass that suspends to its end, in every interleaving: each member has its turn and is held back then, unless another thread holds its lock; whoever was held back before still is. |
| `RateGroup.SuspendHoldsAll` | deps/libevent-2.0.21-stable/bufferevent_ratelim.c:350-373 | With no lock held all members are held back. |
| `RateGroup.StaysHeld` | deps/libevent-2.0.21-stable/bufferevent_ratelim.c:350-373 | While the group stays suspended, a member that is held back stays so, unless it leaves. |
| `RateGroup.NoticedIsHeld` | deps/libevent-2.0.21-stable/bufferevent_ratelim.c:228-243 | A member that looks at its limit while the group is suspended is held back from then on, in every interleaving. |
| `RateGroup.JoinedIsHeld` | deps/libevent-2.0.21-stable/bufferevent_ratelim.c:731-775 | So is one that joins then, once it has finished joining. |
| `RateGroup.FreeStaysFree` | deps/libevent-2.0.21-stable/bufferevent_ratelim.c:228-251 | While the group is not suspended, looking at the limit and joining hold nobody back. |
| `RateGroup.UnsuspendFrees` | deps/libevent-2.0.21-stable/bufferevent_ratelim.c:486-503 | From the beginning of a pass that lets go to its end, in every interleaving: each member has its turn and is free then, unless another thread holds its lock; exactly if one is missed is the group to be gone over again. |
| `RateGroup.LeaverIsFree` | deps/libevent-2.0.21-stable/bufferevent_ratelim.c:785-806 | Whoever leaves is no member and not held back; the others stay as they are. |
| `RateGroup.FinishFrees` | deps/libevent-2.0.21-stable/bufferevent_ratelim.c:486-503 | A pass that no lock stands in the way of lets every member go. |
| `RateGroup.EventuallyFree` | deps/libevent-2.0.21-stable/bufferevent_ratelim.c:527-556 | However far below zero the bucket is, as many quiet ticks as bring it to the smallest share let all members go. |
| `CondVar.StepKeeps` | deps/libevent-2.0.21-stable/evthread_win32.c:215-295 | Each step of each thread keeps the counters equal to what they count, and the event set whenever a wake-up is left for a waiter. |
| `CondVar.RunKeeps` | deps/libevent-2.0.21-stable/evthread_win32.c:215-295 | So every interleaving does. |
| `CondVar.NoLostWakeup` | deps/libevent-2.0.21-stable/evthread_win32.c:250-259 | In every run a waiter that a wake-up is left for finds the event set and returns 0 when it looks. |
| `CondVar.ZeroMeansSignalled` | deps/libevent-2.0.21-stable/evthread_win32.c:251-259 | A wait that returns 0 was signalled after it began. |
| `CondVar.WakeupsAreGranted` | deps/libevent-2.0.21-stable/evthread_win32.c:215-228 | In every run, exactly: wake-ups left, waits that returned 0 and wake-ups left at broadcasts add up to one for each signal and one for each waiter at a broadcast; n_waiting is the number of registered threads. |
| `CondVar.SignalReaches` | deps/libevent-2.0.21-stable/evthread_win32.c:215-228 | After a signal or a broadcast the event is set and every thread that waits has a wake-up it may take; a signal adds exactly one, a broadcast makes one for each. |
| `CondVar.SignalWakes` | deps/libevent-2.0.21-stable/evthread_win32.c:215-295 | After a signal or a broadcast and until the next, in every interleaving: of those who waited then, the first that look return 0, exactly as many as there are wake-ups; until then the others wait on and are ready to return 0. |
| `CondVar.SignalWakesOne` | deps/libevent-2.0.21-stable/evthread_win32.c:222-223 | So after a signal, until some wait returns 0, whoever waited then waits still, finds the event set and returns 0 when it looks. |
| `CondVar.WaitsUntilItLooks` | deps/libevent-2.0.21-stable/evthread_win32.c:237-250 | A registered thread stays registered, with its generation, until it looks. |
| `CondVar.SignalledWhileWaiting` | deps/libevent-2.0.21-stable/evthread_win32.c:237-259 | A wait that a signal follows before it looks is ready to return 0 after it, whatever came in between. |
| `CondVar.ResultsMean` | deps/libevent-2.0.21-stable/evthread_win32.c:250-295 | A wait returns 0, 1 or -1; 1 only if it is timed, -1 only if waiting for the event failed. |
| `CondVar.LookingBack` | deps/libevent-2.0.21-stable/evthread_win32.c:248-295 | A thread that comes back from the event: whatever others do before it looks, exactly when it leaves and with which result, after which it may wait again. |
| `CondVar.LooksAndLeaves` | deps/libevent-2.0.21-stable/evthread_win32.c:250-272 | Whoever looks waits on if and only if no wake-up is left for it, the event was set, and its time is not up. |
| `CondVar.EventStays` | deps/libevent-2.0.21-stable/evthread_win32.c:273-292 | The event is reset exactly by a look that ends in waiting on with no wake-up left, and by a return with nobody waiting. |
| `CondVar.BroadcastWakesAll` | deps/libevent-2.0.21-stable/evthread_win32.c:216-280 | After a broadcast and until the next signal, in every interleaving: of the threads that waited then exactly those that have not looked since still wait, n_to_wake is their number, each finds the event set and returns 0 when it looks, timed or not; all others returned 0. |
| `CondVar.StepWakes` | deps/libevent-2.0.21-stable/evthread_win32.c:250-272 | Any step but a signal: a thread that registered before the last signal and looks while a wake-up is left returns 0 and takes it; no other step ends a wait with 0. |
| `CondVar.RunWakes` | deps/libevent-2.0.21-stable/evthread_win32.c:250-272 | Until the next signal, in every interleaving: as many waits return 0 as threads from before it look, up to the wake-ups left. |
| `CondVar.EarlySignalStays` | deps/libevent-2.0.21-stable/evthread_win32.c:222-225 | A run in which a signal with no waiter stays and one later signal wakes two threads. |
| `CondVar.ExcessBegins` | deps/libevent-2.0.21-stable/evthread_win32.c:220-272 | n_to_wake comes to exceed n_waiting exactly by a signal, or by a wait of the present generation given up, when they are equal. |
| `DnsNames.ReadsUnique` | deps/libevent-2.0.21-stable/evdns.c:953-979 | Bytes at a position spell one list of labels, in one number of steps. |
| `DnsNames.StepsBounded` | deps/libevent-2.0.21-stable/evdns.c:965-968 | A name that ends takes fewer steps than the message has bytes, so more pointers than bytes means a cycle. |
| `DnsNames.SplitNoDots` | deps/libevent-2.0.21-stable/evdns.c:1608-1631 | Labels are what lies between the dots. |
| `DnsNames.SplitExample` | deps/libevent-2.0.21-stable/evdns.c:1596-1631 | The two labels of a name with a dot. |
| `DnsNames.TextRoundTrip` | deps/libevent-2.0.21-stable/evdns.c:1566-1571 | The text read back is the text written if and only if no label is empty, or the name is. |
| `DnsNames.NameParse` | deps/libevent-2.0.21-stable/evdns.c:935-989 | Ends on every packet; succeeds if and only if the bytes spell labels whose text fits; returns that text and the offset after the name. |
| `DnsNames.Pointer` | deps/libevent-2.0.21-stable/evdns.c:1604-1607 | A pointer leads back to the position if and only if the position has 14 bits. |
| `DnsNames.TargetBits` | deps/libevent-2.0.21-stable/evdns.c:960-966 | A pointer leads to the low fourteen bits of its two bytes, the high byte first. |
| `DnsNames.PointerBits` | deps/libevent-2.0.21-stable/evdns.c:1604-1607 | Both high bits of a pointer that is written are set. |
| `DnsNames.LabelTable.GetPos` | deps/libevent-2.0.21-stable/evdns.c:1537-1546 | The position of the whole rest of the name, if it is in the table. |
| `DnsNames.LabelTable.Add` | deps/libevent-2.0.21-stable/evdns.c:1549-1564 | A full table stays as it is. |
| `DnsNames.WriteLabel` | deps/libevent-2.0.21-stable/evdns.c:1620-1631 | One label more: as soon as the rest is written behind it, the name and every entry made for it are spelled. |
| `DnsNames.WriteLast` | deps/libevent-2.0.21-stable/evdns.c:1609-1637 | With the last label and the zero, the name and everything in the table are spelled; exactly when there is no place for the zero. |
| `DnsNames.WriteRef` | deps/libevent-2.0.21-stable/evdns.c:1604-1607 | With a pointer to an earlier occurrence of the rest, likewise; such an entry is always of an earlier name. |
| `DnsNames.ToLabels` | deps/libevent-2.0.21-stable/evdns.c:1577-1641 | On success the message spells the name up to its first empty label, ends where the result says, and still spells every name in the table, which has then been entered exactly what it should be. For every name, with or without a table and an end that is known: exactly when it succeeds, how long it is, and that its final zero has no place before buf_len exactly when no end is known and the last label leaves none. |
| `DnsNames.WriteName` | deps/libevent-2.0.21-stable/evdns.c:1597-1641 | The loop over the labels, with the same exact outcomes, from any place in the message. |
| `DnsNames.ZeroWithoutPlace` | deps/libevent-2.0.21-stable/evdns.c:1634-1637 | A name of one letter and a buf_len of two. |
| `DnsNames.RequestHasRoom` | deps/libevent-2.0.21-stable/evdns.c:1643-1671 | In a request of evdns_request_len there is place for the zero, and exactly the names over 255 bytes or with a label over 63 are refused. |
| `DnsNames.WriteAll` | deps/libevent-2.0.21-stable/evdns.c:1887-1935 | A message of names, with other fields between them and one table for all: each name, empty labels inside or not, lies from its start to its end, and a reader ends there unless it has an empty label inside; exactly for the last name begun, and exactly when it shares no end with those before it and leaves none, is there no place for the zero. Each name begins where the fields of the one before it end, and those lie behind it; it fails only with a name, or with fields that do not fit. |
| `DnsNames.ReadAll` | deps/libevent-2.0.21-stable/evdns.c:1234-1239 | Parsed at each start, every name of such a message comes back up to its first empty label, with the offset just after it if it has none inside. |
| `DnsNames.PutLabel` | deps/libevent-2.0.21-stable/evdns.c:1625-1628 | Length byte and label lie behind what was there. |
| `DnsNames.PutLast` | deps/libevent-2.0.21-stable/evdns.c:1609-1638 | What lies behind what was there spells the last label and ends; one zero ends an empty one; exactly when there is no place for the zero. |
| `DnsNames.PutPointer` | deps/libevent-2.0.21-stable/evdns.c:1604-1607 | What lies behind what was there spells what the pointer leads to. |
| `DnsRequests.Base.constructor` | deps/libevent-2.0.21-stable/evdns.c:3828-3855 | A new table has no requests. |
| `DnsRequests.Base.Find` | deps/libevent-2.0.21-stable/evdns.c:478-493 | Looking in one bucket finds the request with that id if any bucket has it. |
| `DnsRequests.UnusedExists` | deps/libevent-2.0.21-stable/evdns.c:1294-1307 | With fewer than 65535 requests in flight there is an unused id. |
| `DnsRequests.Base.PickId` | deps/libevent-2.0.21-stable/evdns.c:1294-1307 | Stops if every id turns up among the random ones, with an id no request in flight has. |
| `DnsRequests.Base.Submit` | deps/libevent-2.0.21-stable/evdns.c:2681-2773 | In any valid table: issued exactly when there is room, to the server picked and under an id no other request in flight has, also ahead of requests that wait, else behind all that wait; other requests stay; no request waits in vain if none did. |
| `DnsRequests.Base.Pump` | deps/libevent-2.0.21-stable/evdns.c:729-751 | Exactly as many waiting requests as there is room for are issued, in order, each to the server picked for it; all others stay. |
| `DnsRequests.Base.Finish` | deps/libevent-2.0.21-stable/evdns.c:647-697 | The request is gone from its ring, its place is given away to exactly as many as there is room for, in order, each to the server picked for it, and no request waits while there is room; all others stay. |
| `DnsRequests.Base.Reassign` | deps/libevent-2.0.21-stable/evdns.c:2161-2170 | Another server changes nothing else. |
| `DnsRequests.Base.SetMax` | deps/libevent-2.0.21-stable/evdns.c:3314-3343 | Every request in flight is in the bucket of its id in the new table; counters still equal ring sizes; no request waits in vain if and only if none waits or as many are in flight as the new number. |
| `DnsRequests.Base.PumpOne` | deps/libevent-2.0.21-stable/evdns.c:733-750 | The first that waits is issued to the server picked, under an unused id; all others stay. |
| `DnsRequests.Base.Rehash` | deps/libevent-2.0.21-stable/evdns.c:3324-3338 | All requests in flight are in the buckets of the new table, and in them only. |
| `DnsRequests.InflightCount` | deps/libevent-2.0.21-stable/evdns.c:318-326 | The counter of requests in flight is the number of requests that do not wait. |
| `DnsRuns.Execute` | deps/libevent-2.0.21-stable/evdns.c:647-751 | For every run of submit, finish, resume, reassign and resize: rings, counters and ids are right, what is in flight and what waits, in which order, is what a plain queue with a limit says, and each request in flight is at the server last picked for it. |
| `DnsRuns.Do` | deps/libevent-2.0.21-stable/evdns.c:647-751 | One such operation does what it does to the queue and to the map from requests to servers. |
| `DnsRuns.Clip` | deps/libevent-2.0.21-stable/evdns.c:3406-3412 | The limit is the number asked for, or the nearest from 1 to 65000. |
| `DnsRuns.IdleAfter` | deps/libevent-2.0.21-stable/evdns.c:729-751 | For each operation, exactly when a request waits afterwards although there is room. |
| `DnsRuns.NeverIdle` | deps/libevent-2.0.21-stable/evdns.c:729-751 | Without a resize none ever does. |
| `DnsRuns.RaisedLimitLeavesIdle` | deps/libevent-2.0.21-stable/evdns.c:3314-3343 | Room for one, two requests, room for two: the second waits. |
| `Nameservers.Servers.Add` | deps/libevent-2.0.21-stable/evdns.c:2504-2515 | A new server comes right after the head; the count of good servers is right. |
| `Nameservers.Servers.Failed` | deps/libevent-2.0.21-stable/evdns.c:556-613 | The count of good servers is right, also for a server that had failed before; the requests that were to go to it are given to the good servers left, in turn, which turns the ring by as many; otherwise the ring stays. |
| `Nameservers.Servers.Up` | deps/libevent-2.0.21-stable/evdns.c:616-635 | Likewise when it comes back. |
| `Nameservers.Servers.Pick` | deps/libevent-2.0.21-stable/evdns.c:1312-1345 | Stops; turns the ring past the first good server from the head on, and gives that; with no good server turns it by one and gives the new head. |
| `Nameservers.Servers.PickMany` | deps/libevent-2.0.21-stable/evdns.c:1312-1345 | Any number of picks go round the good servers in the order of the ring, and leave it turned by as many. |
| `Nameservers.Servers.PickEach` | deps/libevent-2.0.21-stable/evdns.c:1312-1345 | As many picks as there are good servers give each of them exactly once. |
| `Tagging.EncodeTag` | deps/libevent-2.0.21-stable/event_tagging.c:171-192 | The bytes of the tag, at most five. |
| `Tagging.TagByte` | deps/libevent-2.0.21-stable/event_tagging.c:171-192 | Each byte of a tag: its digits to the base 128, the lowest first, with the high bit set on all but the last. |
| `Tagging.TagExample` | deps/libevent-2.0.21-stable/event_tagging.c:72-90 | The bytes of the two tags in the comment, of which the second differs from it. |
| `Tagging.DecodeTag` | deps/libevent-2.0.21-stable/event_tagging.c:194-231 | The number the bytes stand for, to 32 bits, and its length; fails exactly when no last byte is there; looks past the bytes made contiguous exactly when there are more than five and the first five all say that more follow. |
| `Tagging.TagRoundTrip` | deps/libevent-2.0.21-stable/event_tagging.c:171-231 | A tag is read back whatever follows. |
| `Tagging.EncodeInt` | deps/libevent-2.0.21-stable/event_tagging.c:115-136 | The loop leaves the number of nibbles less one and the nibbles, each half byte in its place. |
| `Tagging.EncodedBytes` | deps/libevent-2.0.21-stable/event_tagging.c:115-136 | The count of nibbles less one is in the high half of the first byte, the lowest nibble in its low half, the next in the high half of the second. |
| `Tagging.DecodeInt` | deps/libevent-2.0.21-stable/event_tagging.c:304-335 | The number, or failure exactly when it has too many nibbles or is cut short. |
| `Tagging.IntRoundTrip` | deps/libevent-2.0.21-stable/event_tagging.c:115-335 | An encoded number is read back, whatever follows, exactly when it has no more nibbles than allowed. |
| `Tagging.Widths` | deps/libevent-2.0.21-stable/event_tagging.c:346-358 | 8 and 16 nibbles are exactly the 32-bit and the 64-bit numbers. |
| `Tagging.EncodesOne` | deps/libevent-2.0.21-stable/event_tagging.c:115-136 | A number has one encoding. |
| `Tagging.Marshal` | deps/libevent-2.0.21-stable/event_tagging.c:245-252 | Tag, length and payload. |
| `Tagging.UnmarshalHeader` | deps/libevent-2.0.21-stable/event_tagging.c:422-436 | What is left of the buffer in each case, and the length as an int. |
| `Tagging.Unmarshal` | deps/libevent-2.0.21-stable/event_tagging.c:451-465 | Tag, payload and rest for every payload below 2^31; failure, with the header gone, if the payload is not all there or its length is 2^32 - 1; exactly when the original goes on with a negative length. |
| `Tagging.PeekThenConsume` | deps/libevent-2.0.21-stable/event_tagging.c:386-447 | Of any bytes: what evtag_peek_length says is what evtag_consume removes, if and only if the whole is below 2^32 and the length is below 2^31 or nothing follows the record. |
| `Tagging.MarshalAll` | deps/libevent-2.0.21-stable/event_tagging.c:245-252 | Records one after the other. |
| `Tagging.UnmarshalAll` | deps/libevent-2.0.21-stable/event_tagging.c:451-465 | Any list of records comes out in order and unchanged, and trailing bytes stay. |
| `Tagging.PeekLength` | deps/libevent-2.0.21-stable/event_tagging.c:386-402 | The length of header and payload, to 32 bits. |
| `Tagging.Consume` | deps/libevent-2.0.21-stable/event_tagging.c:438-447 | Exactly the record is gone, or everything if its length is negative as an int; failure otherwise. |
| `Inet6.FindGap` | deps/libevent-2.0.21-stable/evutil.c:1634-1651 | The leftmost of the longest runs of zeros if it is two words or more, else none (section 4.2 of RFC 5952). |
| `Inet6.PrintWords` | deps/libevent-2.0.21-stable/evutil.c:1653-1669 | Words and gap as text. |
| `Inet6.DigitsAre` | deps/libevent-2.0.21-stable/evutil.c:1653-1669 | Hexadecimal digits are small letters. |
| `Inet6.GapExample` | deps/libevent-2.0.21-stable/evutil.c:1653-1669 | The text of an address with a gap. |
| `Inet6.QuadExample` | deps/libevent-2.0.21-stable/evutil.c:1620-1632 | The text of an address with a dotted quad. |
| `Inet6.Ntop` | deps/libevent-2.0.21-stable/evutil.c:1606-1674 | The text, whole if and only if it is shorter than the room; null if it is longer; less its last character if it just fits. |
| `Inet6.ReadWords` | deps/libevent-2.0.21-stable/evutil.c:1735-1764 | The loop over the words; Inet6Parts.WholeParse says what it reads of a text without a quad, Inet6Quads.FrontParse and Inet6Quads.LettersBad of one with. |
| `Inet6.Pton` | deps/libevent-2.0.21-stable/evutil.c:1701-1786 | What the text means, or refusal; Inet6Quads.PtonReads says what that is, of every text. |
| `Inet6.RoundTrip` | deps/libevent-2.0.21-stable/evutil.c:1606-1786 | The text of every address, dotted quads included, is parsed to that address (section 2.2 of RFC 4291). |
| `Inet6.PrintAndParse` | deps/libevent-2.0.21-stable/evutil.c:1606-1786 | Printed with room enough and parsed, every address is what it was. |
| `Inet6.GapEnd` | deps/libevent-2.0.21-stable/evutil.c:1659-1661 | Skipping zeros from the start of the gap ends at its end. |
| `Inet6Parts.PtonReadsParts` | deps/libevent-2.0.21-stable/evutil.c:1701-1786 | The case of Inet6Quads.PtonReads without a dot: a text is accepted, and as which address, exactly as its parts between colons say: words of up to four characters, at most one gap, nothing or a word last. |
| `Inet6Parts.WordStep` | deps/libevent-2.0.21-stable/evutil.c:1739-1754 | The loop takes a part if and only if all of it is a word. |
| `Inet6Parts.TailParse` | deps/libevent-2.0.21-stable/evutil.c:1736-1764 | After the gap: words only, and no more than there is place for. |
| `Inet6Parts.TrailingColon` | deps/libevent-2.0.21-stable/evutil.c:1751-1754 | A colon after the last word makes no difference. |
| `Inet6Parts.WholeParse` | deps/libevent-2.0.21-stable/evutil.c:1735-1764 | The loop over a text without a quad reads what its parts say, or gives up. |
| `Inet6Quads.PtonReads` | deps/libevent-2.0.21-stable/evutil.c:1701-1786 | Every text is accepted, and as which address, exactly as its parts between colons say: with a dot in it, the last part must begin with a digit and be four numbers up to 255, and the parts before it words with at most one gap, two fewer than without. |
| `Inet6Quads.FrontParse` | deps/libevent-2.0.21-stable/evutil.c:1735-1764 | The loop does not look past the colon before the quad. |
| `Inet6Quads.LettersBad` | deps/libevent-2.0.21-stable/evutil.c:1707-1754 | Anything between that colon and the digits of the quad is refused, although strtol reads on into the quad. |
| `Inet6Quads.DotBefore` | deps/libevent-2.0.21-stable/evutil.c:1707-1724 | A dot before the last colon is refused. |
| `Inet6Quads.QuadThenColon` | deps/libevent-2.0.21-stable/evutil.c:1713-1717 | So is a colon at the end of a text with a dot. |

## Left out

- EvbufferMove.RemoveBuffer: when the assertion fails the original ends, so that nothing is stated of the buffers.
- DnsNames.ToLabels: when the final zero has no place it is not written and nothing is stated of the message; with a table, where the name begins is at most 2^14, as its callers have it.
- DnsNames.WriteAll: a message of at most 2^14 bytes; the original's has 1500.
- RateLimit.Limited.DecrementRead: asks that the limit stays in the range of ssize_t, where C leaves the result open; so do its three siblings.
- RateRuns.Transfer: a decrement by the user does nothing without a limit, where the original fails an assertion, or if the result leaves the range of ssize_t.
- Tagging.Unmarshal: what the original copies when it goes on with a negative length is not modelled.
- Inet6.ScanInt: numbers of any size, where C leaves open what sscanf makes of one that does not fit an int.
- EvbufferReserve.ReserveSpace: a negative size is not modelled.
- DnsNames.NameParse: bytes after the packet that the original copies before it gives up are not modelled; the call fails there too.
- RateRuns.LetThroughInTime: all configurations share one tick length; with another, ticks are counted anew, which RateRuns.LetThrough allows for.
- RateRuns.WriteLetThroughInTime: likewise.
- RateRuns.LetThrough: without a group; a group hands out at least its smallest share to each member, whatever its bucket holds.
- Tagging.DecodeTag: bits beyond the 32nd are dropped, where the original shifts by more than the width of an int; bytes past the five made contiguous are taken to follow them, which in the original holds within a chain.
- DnsRequests.Base.Submit: assumes at least one server; search lists, which issue a new request for an old one, are left out.
- Evbuffers: chains are records in a map that each buffer owns, buffers of bytes are sequences, and addresses are given by the caller of an operation, so that ownership and leaks can be stated; size_t overflow is not modelled.
- Evbuffer callbacks and their counters, locking, pinned, reference, mmap and sendfile chains.
- Timeouts: I/O and signal events, the wake-up of the loop by other threads, persistent events, activation by the user; times are integers, not pairs.
- Active events: deferred callbacks; the callbacks themselves are scripts of activations, deletions and a loop break.
- Evmap: edge-triggered events, signals, errors of epoll_ctl other than EEXIST and ENOENT, running out of memory.
- Rate-limit groups: the writing direction, which is the same code, and the shares of members.
- Condition variable: the generation does not wrap; times are reduced to whether a timed wait is over.
- DNS: rings are sequences from the head on; packets, replies, retransmission counts, probes of failed servers and their timers.
- Tagging works on flat bytes; that an evbuffer acts as flat bytes is the subject of the evbuffer modules. Integer and timeval records are their payloads.
- IPv4 text, and getaddrinfo and the other helpers of evutil.c.
- Sockets, files, clocks and random numbers are parameters; failing allocation is left out everywhere.
- HTTP, RPC, OpenSSL, filtering and paired bufferevents, IOCP, the other backends, and the sources outside libevent, which are thin wrappers.
