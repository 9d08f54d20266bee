# Recording playout for the Lua plugin: indexer, pacing loop, RTP switching

This project models three pieces of `plugins/janus_lua_extra.c`, which plays
recorded `.mjr` files back into a live session:

- **The indexer** (`janus_play_get_frames`). It builds the path of the
  recording, appending `.mjr` unless the name already contains it. The first
  pass checks every record tag and the one-time header (legacy or JSON
  info header), and it tracks RTP timestamps to find a
  32-bit timestamp reset. The second pass turns every media record into a
  descriptor with a 64-bit adjusted timestamp. It links each descriptor into a
  doubly-linked list, walking back from the tail to the first descriptor it
  may follow.
- **The pacing loop** of `janus_play_playout_thread`. Two cursors walk the
  audio and video lists. The first frame of a track leaves at once. A later
  frame leaves when the time since the track's reference time reaches its
  timestamp delta less 5 ms, and the reference time then moves by the nominal
  delta. Video leaves in bursts of equal timestamps. The loop naps when a pass
  relays nothing, and it ends with "stopped" or "ended".
- **The RTP header normaliser** (`janus_rtp_header_update2`) and the arming
  of its sequence resets at playback start. The normaliser rewrites the
  timestamp and sequence number of each relayed header (the fixed header of
  section 5.1 of RFC 3550). Output sequence numbers continue across SSRC
  changes and playback restarts (`ReanchorSeq`). Output timestamps continue
  across an SSRC change, moved on by the ticks that passed (`SwitchTs`). A
  restart of the same source re-maps only the video timestamp base, to the
  last output plus 2000, so audio timestamps keep their old mapping and
  video ones continue only from the old base timestamp (`ResetTs`).

Modules:

- `Common`: bytes, big-endian reads, C's truncating division.
- `MjrPath`: the path rule.
- `Container`: the first pass, as a function `ScanFrom` and as the loop
  `ScanForResets`.
- `Timestamps`: reset tracking and adjusted timestamps.
- `Frames`: descriptors, `InsertOrdered` as the specification of a linked
  insertion, and the `FrameList` class. It keeps `next`/`prev` links as
  index sequences, with -1 for NULL.
- `Indexer`: the second pass and the whole indexer.
- `Playout`: the pacing loop. `PlayFrom` is its specification, and `Loop`
  runs it over the list links.
- `RtpSwitching`: `Update` is the normaliser as a function on values.
  `HeaderUpdate` is the method that updates an `RtpHeader` and a
  `SwitchingContext` in place.

Where the code departs from the behaviour the system is meant to have,
the model follows the code:

- Output sequence numbers are meant to rise by exactly one per packet,
  whatever resets or source changes occur. The code gives that only
  on an SSRC change or an armed reset (`ReanchorSeq`) and between consecutive
  inputs of one SSRC (`Consecutive`). Otherwise the input's gaps are carried
  over (`Translation`).
- At equal timestamps the index is meant to have sequence numbers rising
  under the circular comparison. The code gives that except where they
  repeat or lie exactly 10000 apart (`EqualTsSeqRises`). A new descriptor
  that follows neither such a twin nor anything after it is linked before
  the twin (`LinkedBeforeTwin`); the comparison is not transitive, so a
  later descriptor can stop the walk first and put it after. In a
  one-element list a repeated number goes before its earlier twin
  (`RepeatedSeqGoesFirst`), and numbers 10000 apart go latest-first in
  either file order (`SeqGapUndecided`).
- Records shorter than an RTP header are meant to be skipped as framing.
  In the first pass the code does that only for legacy (`'E'`) records. JSON-dialect
  (`'J'`) records are read as RTP whatever their length, and after the info
  header the 16 bytes that follow it are read too.
- The output timestamp is meant to be non-decreasing. The code works
  modulo 2^32. An audio packet that finds the audio reset armed moves the
  *video* timestamp base (`OtherDirection`, `ResetTs`).
- The reference time is meant to move by the delta. The code's
  `timeval` arithmetic takes the whole seconds away from the microseconds
  again, so the reference falls behind by 1 µs per whole second of delta
  (`AdvanceLag`). The model keeps this as written.

## Model

| member | source | states |
|---|---|---|
| MjrPath.SourcePathKeepsName | plugins/janus_lua_extra.c:211-215 | the path starts with the directory, a slash and the name, and equals exactly that when the name already contains ".mjr" |
| MjrPath.SourcePathHasExtension | plugins/janus_lua_extra.c:211-215 | whatever name is given, the opened path contains ".mjr" |
| MjrPath.SourcePathExtensionOptional | plugins/janus_lua_extra.c:212-215 | a name without ".mjr" and the same name with ".mjr" appended open the same path |
| Container.CString | plugins/janus_lua_extra.c:289-291 | the text the JSON parser sees is the buffer's prefix up to the first NUL, and it holds no NUL |
| Container.StepAt | plugins/janus_lua_extra.c:236-379 | a record the first pass does not reject has its tag and length field in the file, the pass moves to the next record, and the one-time header flag is set exactly by a header record |
| Container.ScanAcceptsOnlyValid | plugins/janus_lua_extra.c:236-380 | a file the first pass accepts is framed throughout, and its first one-time header passed its check (with `ValidAccepted`, an if-and-only-if) |
| Container.ValidAccepted | plugins/janus_lua_extra.c:236-380 | conversely, a file framed throughout whose first one-time header passes its check is accepted by the first pass |
| Container.BadTagRejects | plugins/janus_lua_extra.c:240-244 | a bad tag or an incomplete length anywhere the scan reaches makes the indexer fail |
| Container.BadHeaderRejects | plugins/janus_lua_extra.c:251-345 | a first one-time header that fails its check makes the indexer fail |
| Container.ReadRecord | plugins/janus_lua_extra.c:237-379 | one iteration of the first pass produces exactly the step `StepAt` describes: a short tag, a first byte other than 'M', a second byte other than 'E'/'J', or a missing length field rejects the file |
| Container.ReadLegacy | plugins/janus_lua_extra.c:245-272 | a legacy record gives the step `LegacyStep` describes: the first 5-byte record is the header, skipped if its type byte is 'v' or 'a' and otherwise rejecting the file; other records shorter than 12 bytes are skipped; the rest yield the timestamp read over the tag's bytes |
| Container.ReadJson | plugins/janus_lua_extra.c:273-361 | a JSON record gives the step `InfoStep` describes: the first non-empty one is accepted only if its NUL-terminated text parses with string `t` in a/A/v/V, string `c` and integers `s`, `u`, and the 16 bytes after it are then read as RTP; every other record yields the timestamp read over the tag's bytes |
| Container.ScanForResets | plugins/janus_lua_extra.c:228-380 | the first pass fails exactly when `ScanFrom` rejects the file; otherwise it returns the reset tracker's state after every timestamp read, in file order |
| Timestamps.TrackTs | plugins/janus_lua_extra.c:361-377 | after one timestamp, `last_ts` is it; `reset` becomes it on a backward jump of more than 2000000000 and on a forward timestamp below `reset`, and is unchanged otherwise; the first packet sets `first_ts` to its timestamp less 1000000 when that is above 1000000, otherwise to the timestamp itself, and `first_ts` is then fixed |
| Timestamps.Adjust | plugins/janus_lua_extra.c:413-427 | the adjusted timestamp is the raw one modulo 2^32, lies in [0, 2^33), and equals the raw one exactly when no reset was seen or the raw one is above `first_ts` |
| Timestamps.AdjustOrder | plugins/janus_lua_extra.c:413-427 | with a reset, every pre-reset value orders before every post-reset value, and differences within each class are kept |
| Timestamps.TrackRising | plugins/janus_lua_extra.c:361-377 | a rising run of non-zero timestamps sets `first_ts` from the first one (less a million when above a million) and detects no reset |
| Timestamps.TrackAfterWrap | plugins/janus_lua_extra.c:366-377 | a drop of more than 2·10^9 followed by a rising run records the first value after the drop as the reset |
| Timestamps.SingleWrapIsMonotone | plugins/janus_lua_extra.c:361-427 | for a recording that wraps once, whose first value is above 10^6 and whose wrapped values stay at or below that value less 10^6 (the baseline), the reset is the first wrapped value, wrapped values gain exactly 2^32, and the adjusted sequence never decreases |
| Timestamps.WrapExample | plugins/janus_lua_extra.c:361-427 | 4294966000, 4294966800, 500, 1300 adjust to 4294966000, 4294966800, 2^32+500, 2^32+1300 |
| Frames.SeqPrecedesAsymmetric | plugins/janus_lua_extra.c:457-485 | the sequence-number test at equal timestamps never holds both ways |
| Frames.ScanBack | plugins/janus_lua_extra.c:437-489 | the backward walk stops right after the last descriptor the new one may follow, and it may follow none of the descriptors it passed |
| Frames.InsertOrdered | plugins/janus_lua_extra.c:432-495 | linking in adds exactly the new descriptor (a permutation of old plus new) |
| Frames.InsertKeepsOrder | plugins/janus_lua_extra.c:437-495 | if no descriptor could be linked before its left neighbour, that stays true after an insertion |
| Frames.OrderedIsTsSorted | plugins/janus_lua_extra.c:437-495 | such a list is sorted by adjusted timestamp |
| Frames.EqualTsSeqRises | plugins/janus_lua_extra.c:455-485 | at equal timestamps, neighbours' sequence numbers rise under the circular comparison unless they repeat or lie exactly 10000 apart |
| Frames.LinkedBeforeTwin | plugins/janus_lua_extra.c:437-495 | a descriptor that follows neither its twin (equal timestamp, repeated sequence number or one 10000 away) nor anything after the twin is linked before the twin, which moves one place on |
| Frames.RepeatedSeqGoesFirst | plugins/janus_lua_extra.c:455-495 | in a one-element list, a repeated sequence number at an equal timestamp is linked before its earlier twin |
| Frames.SeqGapUndecided | plugins/janus_lua_extra.c:457-495 | in a one-element list, sequence numbers exactly 10000 apart at an equal timestamp are linked latest-first, in either file order |
| Frames.InsertAtTail | plugins/janus_lua_extra.c:441-454 | a descriptor that may follow the tail is appended |
| Frames.InsertAtHead | plugins/janus_lua_extra.c:490-495 | a descriptor that may follow no descriptor becomes the head |
| Frames.FrameList.constructor | plugins/janus_lua_extra.c:383 | the list starts empty |
| Frames.FrameList.Insert | plugins/janus_lua_extra.c:432-496 | the links stay a valid doubly-linked list, and its contents become `InsertOrdered` of the old contents |
| Frames.FrameList.Link | plugins/janus_lua_extra.c:432-496 | the pointer updates on the links store the new descriptor last, keep the links valid, and produce `InsertOrdered` of the old contents |
| Frames.FrameList.WalkBack | plugins/janus_lua_extra.c:439-489 | the loop following `prev` from `last` stops at position `ScanBack`, at the descriptor there or at NULL |
| Frames.FrameList.LinkAfterTmp | plugins/janus_lua_extra.c:441-485 | splicing after `tmp` (and updating `last` when `tmp` was the tail) puts the descriptor at the position after `tmp` |
| Frames.FrameList.LinkFirst | plugins/janus_lua_extra.c:432-435 | the first descriptor, or one that follows nothing, becomes the head (and the tail of an empty list) |
| Indexer.FrameAt | plugins/janus_lua_extra.c:401-429 | a descriptor's sequence number is bytes 2-3 of the RTP header read after the record header, and its timestamp is that header's timestamp adjusted with the first pass's baseline and reset (so equal to it modulo 2^32); its length is the record's, and its offset is just past the record header |
| Indexer.ReadFrame | plugins/janus_lua_extra.c:401-429 | the second pass's descriptor for a media record is `FrameAt` |
| Indexer.Pass2Permutation | plugins/janus_lua_extra.c:384-500 | the index holds exactly the descriptors of the media records, each once |
| Indexer.Pass2Ordered | plugins/janus_lua_extra.c:384-500 | the index is in order and sorted by adjusted timestamp |
| Indexer.Pass2KeepsFileOrder | plugins/janus_lua_extra.c:437-454 | media records that already arrive in order are indexed in file order |
| Indexer.BuildIndex | plugins/janus_lua_extra.c:382-500 | the second-pass loop leaves a valid list whose contents are the pass's specification |
| Indexer.Index | plugins/janus_lua_extra.c:207-380 | the indexer fails exactly on a missing argument, a file that cannot be opened, or a file the first pass rejects; otherwise its list is ordered, timestamp-sorted and a permutation of the media descriptors |
| Indexer.GetFrames | plugins/janus_lua_extra.c:207-515 | the result is NULL exactly when `Index` fails or finds no media; otherwise it is a fresh valid list holding `Index`'s list |
| Playout.AdvanceLag | plugins/janus_lua_extra.c:654-663 | for a delta of d µs the reference moves by d − d/10^6: never more than d, and at most 1 µs less per whole second |
| Playout.BurstEnd | plugins/janus_lua_extra.c:686-700 | a video burst is the longest run of frames sharing the first one's timestamp, and it holds at least one frame |
| Playout.Step | plugins/janus_lua_extra.c:618-751 | a branch relays exactly the frames its cursor moves over |
| Playout.StepPacing | plugins/janus_lua_extra.c:618-751 | the first frame leaves at once and sets the reference to the clock; later frames leave exactly when elapsed ≥ delta − 5000 µs, and the reference then moves by `Advance(delta)`; otherwise nothing moves; audio sends at most one frame, video a whole burst |
| Playout.Round | plugins/janus_lua_extra.c:612-752 | a pass never moves a cursor backwards or past its list's end |
| Playout.RoundSends | plugins/janus_lua_extra.c:612-752 | a pass naps exactly when the pass before relayed nothing on either track, and it relays each track's frames from the cursor on, the cursor advancing by their number |
| Playout.KeepsAnchor | plugins/janus_lua_extra.c:633-663 | after the first send the reference time always equals that send's clock plus the nominal advances since, however late each frame left |
| Playout.SentInListOrder | plugins/janus_lua_extra.c:610-753 | over any run, each track's relayed frames are the list's frames from the cursor on, in order, each once |
| Playout.OutcomeMeaning | plugins/janus_lua_extra.c:610-760 | "stopped" only after a stop request; a run still going saw no stop or tear down; "ended" without a tear down means both lists were played to the end; a run still going made one pass per tick, and otherwise the loop ended on the tick after its last pass, "stopped" exactly when that tick saw the stop request |
| Playout.RunEnding | plugins/janus_lua_extra.c:610-760 | a run is still going exactly when it made one pass per tick; otherwise it ended before the last tick, and its event is "stopped" exactly when the tick after its last pass saw the stop request |
| Playout.Burst | plugins/janus_lua_extra.c:731-748 | the inner `while` relays exactly the burst at the cursor and leaves the cursor at its end |
| Playout.Send | plugins/janus_lua_extra.c:618-748 | a send relays one audio frame or one video burst and moves the cursor past it |
| Playout.Branch | plugins/janus_lua_extra.c:618-751 | one track's branch, over the list links, does exactly what `Step` specifies |
| Playout.OnePass | plugins/janus_lua_extra.c:612-752 | one loop iteration, over the links, is `Round` |
| Playout.Loop | plugins/janus_lua_extra.c:610-760 | the loop's outcome and relays over the links are `PlayFrom` from the start state |
| Playout.Playout | plugins/janus_lua_extra.c:583-760 | the playout over two index lists is `PlayFrom` of their contents |
| RtpSwitching.TicksBounds | plugins/janus_lua_extra.c:823-826 | the gap on an SSRC change is at least one tick; from one whole tick on it is exactly the whole ticks elapsed at the track's clock rate, and below one tick it is 1 |
| RtpSwitching.RewriteFormula | plugins/janus_lua_extra.c:842-849 | the output is the input's distance from the base, carried to the output base (sequence numbers one past); only the header's timestamp and sequence number change, and the direction then follows the packet's SSRC with no reset pending |
| RtpSwitching.AnchoredBases | plugins/janus_lua_extra.c:812-841 | the bases the rewrite uses after the SSRC check and the reset check, field by field |
| RtpSwitching.ReanchorSeq | plugins/janus_lua_extra.c:812-846 | after an SSRC change or an armed reset, the output sequence number is the last one plus one, whatever the input |
| RtpSwitching.SwitchTs | plugins/janus_lua_extra.c:812-844 | after an SSRC change the output timestamp is the last one plus the elapsed-time gap, plus 2000 when a video reset is armed |
| RtpSwitching.ResetTs | plugins/janus_lua_extra.c:834-889 | an armed reset without an SSRC change maps video onto the last output plus 2000, while audio keeps its mapping |
| RtpSwitching.Translation | plugins/janus_lua_extra.c:842-849 | between two packets of one SSRC the rewrite is a translation modulo 2^32 and 2^16 |
| RtpSwitching.Consecutive | plugins/janus_lua_extra.c:842-849 | consecutive input sequence numbers of one SSRC stay consecutive |
| RtpSwitching.Steady | plugins/janus_lua_extra.c:811-841 | a packet of the current SSRC with no reset armed leaves the bases alone |
| RtpSwitching.OtherDirection | plugins/janus_lua_extra.c:879-886 | a packet leaves the other direction alone, except that an audio packet finding the audio reset armed sets the video timestamp base |
| RtpSwitching.SwitchingContext.ArmSequenceReset | plugins/janus_lua_extra.c:604-605 | playback start arms both directions' sequence resets and changes nothing else |
| RtpSwitching.ArmedContinues | plugins/janus_lua_extra.c:604-605 | after playback start the first packet of either direction continues the output sequence |
| RtpSwitching.Resync | plugins/janus_lua_extra.c:853-878 | the SSRC block re-anchors a direction exactly when the SSRC changed |
| RtpSwitching.HeaderUpdate | plugins/janus_lua_extra.c:801-898 | a NULL header or context changes nothing; otherwise the context and header become `Update` of their old values |

## Left out

- Reading the file: `fopen`/`fseek`/`fread` become a map from openable paths
  to byte contents. Short reads of the tag and the RTP header are modelled
  (bytes the file does not have keep the buffer's old contents). Read errors
  are not, and neither is `ftell` failing.
- The info header's text on a short read: the C code parses the buffer up to
  the declared length, so on a short read the stale bytes after what was read
  (the tag's tail, then whatever earlier reads left there) are part of the
  JSON text. The model parses only the bytes the file has, because the buffer
  beyond its first eight bytes is not modelled.
- A file that ends inside a record's 2-byte length field is rejected by the
  model. The C code would go on with a stale or indeterminate length.
- Path and buffer limits: the 1024-byte `g_snprintf` truncation of the path,
  and info headers longer than the 1500-byte buffer (which overflow it in C).
- The JSON library is a parameter. The values of `c`, `s` and `u`, and the
  log lines, are not used.
- The second pass assumes what the first pass guarantees (`Framed`). Its
  `bytes < 0` break cannot happen for a file read.
- Logging, threads, atomics, reference counts and the Lua glue
  (`plugins/janus_lua_extra.c:49-205`) are not part of this model.
- The playout's startup checks and file opening (519-582), the "start" event
  (607-608), freeing the lists and closing files (754, 763-797) are not
  modelled.
- In the playout, the clock readings, the stop flag and the destroyed/inactive
  flags come in as one `Tick` per pass. The 5 ms `usleep` is recorded as a
  nap flag, and the payloads relayed are the descriptors. The calls the loop
  makes to the normaliser for each relayed frame are not composed with the
  playout: the normaliser is modelled and proved on its own.
- An empty list stands for a NULL list pointer.
- Playout.Advance: the reference time is one integer in microseconds. The
  `timeval` fields and the `tv_usec > 1000000` normalisation are not kept
  apart. Their sum is what the pacing compares, and the model keeps that sum
  exactly.
- RtpSwitching.HeaderUpdate: `janus_get_monotonic_time()` is called twice,
  for the gap and for the last-packet time. These are the parameters `now`
  and `after`. The `step` argument is ignored, as in the source.
- RtpSwitching.HeaderUpdate: only the header fields the code touches are
  modelled (payload type, sequence number, timestamp, SSRC), in host order.
  The `htonl`/`ntohs` conversions are left implicit.
