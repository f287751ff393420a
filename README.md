# hMailServer: SMTP DATA transparency buffer and object cache, modelled in Dafny

This project models two pieces of hMailServer's server core and proves properties of them.

**The transparent transmission buffer** (`TransparentTransmissionBuffer.cpp`) handles the SMTP DATA phase. Bytes arrive in chunks of any size. When receiving, the buffer spots the end-of-mail-data indicator (section 4.1.1.4 of RFC 2821) and trims it. On a flush, it carves a ready segment off the front of the buffer. The segment ends at the last line feed among the last `MAX_LINE_LENGTH` bytes (the text-line limit of section 4.5.3.1 of RFC 2821). The segment is then dot-stuffed (sending) or dot-unstuffed (receiving), as section 4.5.2 of RFC 2821 describes. Finally it goes to the connection (sending) or to the message file (receiving).

**The object cache** (`Cache.h`) keeps objects loaded from the database in a map from name to object. An object is served from the cache while it is younger than the time-to-live. Lookups are counted as hits or misses.

Files:
- `Transparency.dfy`: the byte type, the stuffing and unstuffing transforms as functions, the lemmas about them, and the two array-building methods the server runs.
- `TransmissionBuffer.dfy`: the end-of-data test, the quota test, the split-point search, and the class `TransparentTransmissionBuffer`.
- `KeyOrder.dfy`: the order the cache's map keeps its keys in, and the fact that every non-empty key set has a first key.
- `Cache.dfy`: the class `Cache<T>`.
- `Scenarios.dfy`: client code that checks what a caller can conclude from the buffer's contracts: an empty body, a trailing terminator, a terminator split across two appends, an over-long line, a long body that an unforced flush after end-of-data cancels although it holds line feeds, and a dead connection.
- `Wrappers.dfy`: `Option`.

The buffer keeps a ghost record of every byte `Append` has kept (`stream`) and of the raw segments it has carved off, one after another (`flushed`). Its invariant `Valid()` says the two always agree: `flushed + buffer == stream`. So between `Append` and `Flush` no byte is lost or duplicated, however the input is chunked. `Append` itself may discard three arbitrary bytes when its end-of-data test fires (see below); those bytes are not in `stream`. The ghost logs `enqueued` and `fileWrites` record what went to each sink.

Where the code differs from a natural reading of its purpose, the model follows the code:
- The empty-body test looks only at the first three bytes of the buffer. When it fires, the last three bytes are trimmed, whatever they are (`EndOfDataSeen`, `Append`).
- The file quota stops writes only once `dataSent / 1024 > maxSizeKB`. That means at least `1024 * (maxSizeKB + 1)` bytes, not just over `1024 * maxSizeKB` (`QuotaThreshold`).
- The file is closed on every flush past the early return that finds the transmission ended. This happens even if bytes are still buffered.
- An unforced flush returns at once only while the buffer holds at most 40 000 bytes and the transmission has not ended. After end-of-data, an unforced flush of a buffer longer than `maxLineLength` cancels the transmission and suppresses the file write.
- The over-long test looks only at the buffer's size: any buffer longer than `maxLineLength` cancels the transmission, even when it holds line feeds.
- The sink is chosen by the direction (`isSending`), not by which `Initialize` was called.
- The leading-dot test is `i == 0 || (i > 2 && s[i-1] == LF)`. As a result, stuffing and then unstuffing gives back the input exactly unless the input starts with ". LF ." (`RoundTrip`). In that case the dot at index 2 is lost (`UnstuffStuff`, `RoundTripCounterexample`).

Inputs from outside the model:
- `MAX_LINE_LENGTH` is declared outside these files. It is the constructor parameter `maxLineLength` and must be positive.
- Whether the connection handle still resolves is the `connectionAlive` argument of `Flush`.
- Whether the file opens is the `openSucceeds` argument of `InitializeFile`.
- In the cache, `GetName` and `GetID` are function fields given to the constructor.
- `Seconds()` is the `ageOf` argument of each lookup.
- The result of `ReadObject` is the `loaded` argument.

## Model

| member | source | states |
|---|---|---|
| `Transparency.InsertTransmissionPeriod` | hmailserver/source/Server/Common/Util/TransparentTransmissionBuffer.cpp:250-293 | the pointer-walking loop into a buffer of twice the input length yields exactly `Stuffed(segment)`; the writes stay in bounds, so the 2x capacity suffices |
| `Transparency.RemoveTransmissionPeriod` | hmailserver/source/Server/Common/Util/TransparentTransmissionBuffer.cpp:295-330 | the loop into a buffer of the input's length yields exactly `Unstuffed(segment)`; the writes stay in bounds |
| `Transparency.StuffedLength` | hmailserver/source/Server/Common/Util/TransparentTransmissionBuffer.cpp:253-289 | stuffing adds exactly one byte per leading dot, so its output is at most twice the input |
| `Transparency.UnstuffedLength` | hmailserver/source/Server/Common/Util/TransparentTransmissionBuffer.cpp:298-327 | unstuffing removes exactly the leading dots, so its output is never longer than its input |
| `Transparency.NoLeadingDotsIdentity` | hmailserver/source/Server/Common/Util/TransparentTransmissionBuffer.cpp:264-284 | a segment with no leading dot passes through both transforms unchanged |
| `Transparency.NoDotsNoLeadingDots` | hmailserver/source/Server/Common/Util/TransparentTransmissionBuffer.cpp:267-279 | only a dot byte can be a leading dot |
| `Transparency.UnstuffStuffLeading` | hmailserver/source/Server/Common/Util/TransparentTransmissionBuffer.cpp:269-278 | a leading dot that stuffing doubled comes back from unstuffing as a single dot |
| `Transparency.UnstuffStuffOther` | hmailserver/source/Server/Common/Util/TransparentTransmissionBuffer.cpp:306-326 | any other byte comes back from unstuffing unchanged, except the dot of ". LF ." at the start |
| `Transparency.UnstuffStuff` | hmailserver/source/Server/Common/Util/TransparentTransmissionBuffer.cpp:250-330 | unstuffing a stuffed segment gives back the segment, or, for a segment starting ". LF .", the segment without its dot at index 2 |
| `Transparency.RoundTrip` | hmailserver/source/Server/Common/Util/TransparentTransmissionBuffer.cpp:250-330 | unstuff(stuff(s)) == s if and only if s does not start with ". LF ." |
| `Transparency.RoundTripCounterexample` | hmailserver/source/Server/Common/Util/TransparentTransmissionBuffer.cpp:274 | ". LF ." stuffs to ". . LF ." and unstuffs to ". LF": the `i > 2` test skips the dot at index 2 |
| `TransmissionBuffer.QuotaThreshold` | hmailserver/source/Server/Common/Util/TransparentTransmissionBuffer.cpp:235 | the whole-kilobyte quota test holds exactly when the quota is positive and at least `1024 * (maxSizeKB + 1)` bytes were appended |
| `TransmissionBuffer.LastLineFeed` | hmailserver/source/Server/Common/Util/TransparentTransmissionBuffer.cpp:174-186 | the backward scan finds a line feed in the window with no line feed after it, or reports that the window has none |
| `TransmissionBuffer.SegmentLength` | hmailserver/source/Server/Common/Util/TransparentTransmissionBuffer.cpp:171-196 | a forced flush carves the whole buffer; otherwise the segment ends at the rightmost line feed among the last `maxLineLength` bytes; nothing is carved from an empty buffer or an unforced window without a line feed |
| `TransmissionBuffer.SegmentLengthFound` | hmailserver/source/Server/Common/Util/TransparentTransmissionBuffer.cpp:184-189 | the index where the flush loop stops is one less than the segment length |
| `TransmissionBuffer.SegmentLengthNotFound` | hmailserver/source/Server/Common/Util/TransparentTransmissionBuffer.cpp:175-222 | a flush loop that runs past the window carves nothing |
| `TransmissionBuffer.TransparentTransmissionBuffer.constructor` | hmailserver/source/Server/Common/Util/TransparentTransmissionBuffer.cpp:17-26 | the direction is fixed, the buffer is empty and every flag and counter starts at zero or false |
| `TransmissionBuffer.TransparentTransmissionBuffer.InitializeConnection` | hmailserver/source/Server/Common/Util/TransparentTransmissionBuffer.cpp:33-41 | records the connection and resets the byte count; it always succeeds |
| `TransmissionBuffer.TransparentTransmissionBuffer.InitializeFile` | hmailserver/source/Server/Common/Util/TransparentTransmissionBuffer.cpp:43-62 | on a successful open the file is open and the byte count is reset; on failure nothing changes and false is returned |
| `TransmissionBuffer.TransparentTransmissionBuffer.SetMaxSizeKB` | hmailserver/source/Server/Common/Util/TransparentTransmissionBuffer.cpp:64-68 | stores the quota |
| `TransmissionBuffer.TransparentTransmissionBuffer.Append` | hmailserver/source/Server/Common/Util/TransparentTransmissionBuffer.cpp:70-122 | an empty chunk changes nothing; otherwise the count grows by the chunk length and the chunk follows the old buffer, except that when receiving and the end-of-data test fires, the last three bytes are dropped and the transmission is ended; the ended flag is never cleared; the no-loss invariant is kept |
| `TransmissionBuffer.TransparentTransmissionBuffer.GetRequiresFlush` | hmailserver/source/Server/Common/Util/TransparentTransmissionBuffer.cpp:124-131 | true exactly when more than 40 000 bytes are buffered or the transmission has ended |
| `TransmissionBuffer.TransparentTransmissionBuffer.GetSize` | hmailserver/source/Server/Common/Util/TransparentTransmissionBuffer.cpp:133-137 | reports the bytes appended since Initialize, not the buffered length |
| `TransmissionBuffer.TransparentTransmissionBuffer.Flush` | hmailserver/source/Server/Common/Util/TransparentTransmissionBuffer.cpp:139-230 | without force and without need, nothing changes and false is returned; a buffer longer than `maxLineLength` sets the cancel flag and forces the flush; when `SegmentLength` names a segment, the old buffer is that segment followed by the new buffer, `lastSendEndedWithNewline` says whether it ends in a line feed, and the stuffed segment is enqueued (sending, live connection) or the unstuffed segment written (receiving, within quota, not cancelled); otherwise the buffer is kept and false is returned; an ended transmission closes the file; the cancel flag and the byte count never go back; the no-loss invariant is kept |
| `TransmissionBuffer.TransparentTransmissionBuffer.Deliver` | hmailserver/source/Server/Common/Util/TransparentTransmissionBuffer.cpp:188-216 | moves the first `copySize` bytes from the buffer to the end of `flushed` and hands their transform to the sink of the direction |
| `TransmissionBuffer.TransparentTransmissionBuffer.SaveToFile` | hmailserver/source/Server/Common/Util/TransparentTransmissionBuffer.cpp:232-248 | returns false and writes nothing over quota; otherwise returns true and writes the segment only if the transmission is not cancelled |
| `KeyOrder.LeastExists` | hmailserver/source/Server/Common/Cache/Cache.h:138-141 | walking a non-empty key set in map order has a first key |
| `KeyOrder.LeastUnique` | hmailserver/source/Server/Common/Cache/Cache.h:45 | the map order has exactly one first key |
| `ObjectCache.FirstKeyWithId` | hmailserver/source/Server/Common/Cache/Cache.h:138-151 | the by-ID search finds the first key in map order whose object has the ID, or none when no object has it |
| `ObjectCache.Cache.constructor` | hmailserver/source/Server/Common/Cache/Cache.h:49-56 | empty, disabled, TTL and counters zero |
| `ObjectCache.Cache.Clear` | hmailserver/source/Server/Common/Cache/Cache.h:58-67 | empties the map and zeroes both counters |
| `ObjectCache.Cache.SetTTL` | hmailserver/source/Server/Common/Cache/Cache.h:69-77 | stores the TTL and zeroes both counters; the map is untouched |
| `ObjectCache.Cache.SetEnabled` | hmailserver/source/Server/Common/Cache/Cache.h:80-88 | disabling leaves an empty map and zero counters; enabling changes only the flag |
| `ObjectCache.Cache.GetHitRate` | hmailserver/source/Server/Common/Cache/Cache.h:91-103 | 0 before the first hit; always a percentage between 0 and 100; 100 when there were only hits |
| `ObjectCache.Cache.RemoveObject` | hmailserver/source/Server/Common/Cache/Cache.h:105-116 | removes exactly the entry under the object's name, if present; every other entry stays |
| `ObjectCache.Cache.RemoveObjectByName` | hmailserver/source/Server/Common/Cache/Cache.h:118-129 | removes exactly the entry under the name, if present; every other entry stays |
| `ObjectCache.Cache.RemoveObjectById` | hmailserver/source/Server/Common/Cache/Cache.h:131-152 | removes exactly the first entry in key order whose object has the ID, and nothing if none has it |
| `ObjectCache.Cache.FirstIsLeastRemaining` | hmailserver/source/Server/Common/Cache/Cache.h:141-149 | the first match met while walking the keys in order is the entry `FirstKeyWithId` names |
| `ObjectCache.Cache.GetObjectByName` | hmailserver/source/Server/Common/Cache/Cache.h:154-189 | when enabled, a fresh cached entry is returned as one more hit with nothing else changed, and (by the invariant `Valid()` that every object is cached under its own name) it is the object named `name`; a stale one is erased; then the loaded object is returned, and when enabled and the load succeeded it is cached under its own name as one more miss; a failed load returns none and adds nothing; when disabled the map and counters do not change |
| `ObjectCache.Cache.GetObjectById` | hmailserver/source/Server/Common/Cache/Cache.h:191-231 | as by name, for the first entry in key order with the ID: fresh is a hit and the returned object has that ID, stale is erased before the load |
| `ObjectCache.Cache.AddToCache` | hmailserver/source/Server/Common/Cache/Cache.h:233-249 | maps the object's name to it, replacing any entry there, and counts one miss |
| `ObjectCache.Cache.GetObjectIsWithinTTL` | hmailserver/source/Server/Common/Cache/Cache.h:251-266 | true exactly when the object is younger than the TTL, counting one hit then |

## Left out

- ObjectCache.Cache.GetHitRate: the non-zero case is single-precision arithmetic; the model computes it with exact integer division, and the contract states only the zero case, the 0..100 range and the all-hits case.
- 32-bit overflow of `data_sent_`, the chunk size and the cache counters is not modelled; they are unbounded naturals.
- Append's checks for a null input and a missing internal buffer, with their error report and rethrow, cannot arise: a Dafny sequence is always present.
- File handling is reduced to an "open" flag and a log of what is handed to the file for writing. The result of the write, the file name and the error report on a failed open are not modelled.
- The connection's write queue is reduced to a log of what is enqueued; the weak pointer is reduced to whether it still resolves.
- The byte-buffer class and the raw memory handling (`new[]`, `delete[]`, pointer walking) are modelled as sequences and one array per transform.
- The destructor does nothing and is not modelled.
- The cache's mutex and singleton base class only serialise access and provide a global instance; they are left out.
- The null check on a cached object and the debug-only assertion that an object has an ID before caching are left out; cached objects are never null.
- The map's key order is taken to be lexicographic by Unicode scalar value (a Dafny `char`); for keys holding characters from U+E000 to U+FFFF together with characters above U+FFFF this differs from the UTF-16 code-unit order of the Windows wide strings the source uses; the string class's comparison operator is not part of this model.
- The SpamAssassin stress test drives real clients and an external daemon over the network; it holds no logic to model.
