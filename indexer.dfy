/** The indexer: opens a recording, runs the first pass for timestamp
    resets and header validation, then the second pass that links one
    descriptor per media record into a list ordered by adjusted timestamp
    and sequence number. */
module Indexer {
  import opened Common
  import opened Timestamps
  import opened Container
  import opened Frames
  import MjrPath

  /** Records the second pass turns into descriptors: not of the JSON
      dialect, and at least a fixed RTP header long. */
  predicate IsMedia(file: seq<Byte>, offset: nat)
    requires offset + RecordHeader <= |file|
  {
    file[offset + 1] != TagJ && RecordLen(file, offset) >= MinRtp
  }

  /** The descriptor of the media record at `offset`: sequence number and
      timestamp from the RTP header read after the record header (the
      tag's bytes where the file has none), the timestamp adjusted with
      the first pass's result, the payload length and position. */
  function FrameAt(file: seq<Byte>, st: TsState, offset: nat): (f: Frame)
    requires offset + RecordHeader <= |file|
    ensures f.ts % TWO32 == RtpTimestamp(file[offset..offset + 8], file, offset + RecordHeader)
    ensures f.ts == Adjust(RtpTimestamp(file[offset..offset + 8], file, offset + RecordHeader), st.firstTs, st.reset)
    ensures f.seqNo == RtpSeqNo(file[offset..offset + 8], file, offset + RecordHeader)
    ensures f.len == RecordLen(file, offset) && f.offset == offset + RecordHeader
  {
    Frame(RtpSeqNo(file[offset..offset + 8], file, offset + RecordHeader),
          Adjust(RtpTimestamp(file[offset..offset + 8], file, offset + RecordHeader), st.firstTs, st.reset),
          RecordLen(file, offset), offset + RecordHeader)
  }

  /** The descriptors of the media records from `offset` on, in file
      order (up to a record header the file cuts short, which a file the
      first pass accepts does not have). */
  function MediaFrames(file: seq<Byte>, st: TsState, offset: nat): seq<Frame>
    decreases |file| - offset
  {
    if offset + RecordHeader > |file| then []
    else
      var rest := MediaFrames(file, st, NextRecord(file, offset));
      if IsMedia(file, offset) then [FrameAt(file, st, offset)] + rest else rest
  }

  /** The second pass from `offset` on: each media record's descriptor is
      linked into `acc` as the list insertion does. */
  function Pass2From(file: seq<Byte>, st: TsState, offset: nat, acc: seq<Frame>): seq<Frame>
    decreases |file| - offset
  {
    if offset + RecordHeader > |file| then acc
    else
      var acc' := if IsMedia(file, offset) then InsertOrdered(acc, FrameAt(file, st, offset)) else acc;
      Pass2From(file, st, NextRecord(file, offset), acc')
  }

  /** The index holds exactly the media records' descriptors. */
  lemma {:induction false} Pass2Permutation(file: seq<Byte>, st: TsState, offset: nat, acc: seq<Frame>)
    ensures multiset(Pass2From(file, st, offset, acc)) == multiset(acc) + multiset(MediaFrames(file, st, offset))
    decreases |file| - offset
  {
    if offset + RecordHeader <= |file| {
      var next := NextRecord(file, offset);
      if IsMedia(file, offset) {
        var f := FrameAt(file, st, offset);
        Pass2Permutation(file, st, next, InsertOrdered(acc, f));
        assert multiset([f] + MediaFrames(file, st, next)) == multiset{f} + multiset(MediaFrames(file, st, next));
      } else {
        Pass2Permutation(file, st, next, acc);
      }
    }
  }

  /** The index is in order: no descriptor could be linked before its
      left neighbour, so timestamps never decrease along it. */
  lemma {:induction false} Pass2Ordered(file: seq<Byte>, st: TsState, offset: nat, acc: seq<Frame>)
    requires Ordered(acc)
    ensures Ordered(Pass2From(file, st, offset, acc))
    ensures TsSorted(Pass2From(file, st, offset, acc))
    decreases |file| - offset
  {
    if offset + RecordHeader <= |file| {
      var next := NextRecord(file, offset);
      if IsMedia(file, offset) {
        InsertKeepsOrder(acc, FrameAt(file, st, offset));
        Pass2Ordered(file, st, next, InsertOrdered(acc, FrameAt(file, st, offset)));
      } else {
        Pass2Ordered(file, st, next, acc);
      }
    } else {
      OrderedIsTsSorted(acc);
    }
  }

  /** Each descriptor may follow the one before it. */
  predicate Chain(list: seq<Frame>)
  {
    forall i :: 0 <= i < |list| - 1 ==> GoesAfter(list[i], list[i + 1])
  }

  /** Media records that already arrive in order are indexed in file
      order. */
  lemma {:induction false} Pass2KeepsFileOrder(file: seq<Byte>, st: TsState, offset: nat, acc: seq<Frame>)
    requires Chain(acc + MediaFrames(file, st, offset))
    ensures Pass2From(file, st, offset, acc) == acc + MediaFrames(file, st, offset)
    decreases |file| - offset
  {
    if offset + RecordHeader <= |file| {
      var next := NextRecord(file, offset);
      var rest := MediaFrames(file, st, next);
      if IsMedia(file, offset) {
        var f := FrameAt(file, st, offset);
        assert acc + MediaFrames(file, st, offset) == (acc + [f]) + rest;
        assert |acc| == 0 || GoesAfter(acc[|acc| - 1], f) by {
          if |acc| > 0 {
            assert (acc + [f] + rest)[|acc| - 1] == acc[|acc| - 1];
            assert (acc + [f] + rest)[|acc|] == f;
          }
        }
        InsertAtTail(acc, f);
        Pass2KeepsFileOrder(file, st, next, acc + [f]);
      } else {
        Pass2KeepsFileOrder(file, st, next, acc);
      }
    } else {
      assert acc + [] == acc;
    }
  }

  /** A framed record is whole, and the records after it are framed. */
  lemma {:induction false} FramedNext(file: seq<Byte>, offset: nat)
    requires Framed(file, offset) && offset < |file|
    ensures offset + RecordHeader <= |file| && Framed(file, NextRecord(file, offset))
  {
  }

  /** The list `acc` built up to `offset`, completed by the rest of the
      pass, is the whole pass's list. */
  predicate Pass2Rest(file: seq<Byte>, st: TsState, offset: nat, acc: seq<Frame>)
  {
    Pass2From(file, st, 0, []) == Pass2From(file, st, offset, acc)
  }

  /** One record of the second pass: linking the record at `offset` in if
      it is media keeps the list on the way to the whole pass's list. */
  lemma {:induction false} Pass2Advance(file: seq<Byte>, st: TsState, offset: nat, acc: seq<Frame>, acc': seq<Frame>)
    requires offset + RecordHeader <= |file| && Pass2Rest(file, st, offset, acc)
    requires acc' == if IsMedia(file, offset) then InsertOrdered(acc, FrameAt(file, st, offset)) else acc
    ensures Pass2Rest(file, st, NextRecord(file, offset), acc')
  {
  }

  /** The second pass as the loop runs it. */
  method BuildIndex(file: seq<Byte>, st: TsState) returns (list: FrameList)
    requires Framed(file, 0)
    ensures fresh(list) && list.Valid()
    ensures list.Contents() == Pass2From(file, st, 0, [])
  {
    list := new FrameList();
    var offset: nat := 0;
    while offset < |file|
      invariant Framed(file, offset)
      invariant list.Valid()
      invariant Pass2Rest(file, st, offset, list.Contents())
      decreases |file| - offset
    {
      FramedNext(file, offset);
      ghost var acc := list.Contents();
      var tag := file[offset..offset + 8];
      var len := RecordLen(file, offset);
      if tag[1] != TagJ && len >= MinRtp {
        // An RTP packet: linked in; anything else is skipped.
        var p := ReadFrame(file, st, offset);
        list.Insert(p);
      }
      Pass2Advance(file, st, offset, acc, list.Contents());
      // Past the header and the declared payload.
      offset := NextRecord(file, offset);
    }
  }

  /** The descriptor of a media record, as the second pass reads it: only
      the RTP header, over the tag's bytes. The loop body's reading steps,
      proved equal to the specification `FrameAt` that the lemmas use. */
  method ReadFrame(file: seq<Byte>, st: TsState, offset: nat) returns (p: Frame)
    requires offset + RecordHeader <= |file|
    ensures p == FrameAt(file, st, offset)
  {
    var tag := file[offset..offset + 8];
    var len := RecordLen(file, offset);
    var rtp := Overlay(tag, Window(file, offset + RecordHeader, 16));
    var raw := BE32(rtp[4..8]);
    var ts: int;
    if st.reset == 0 {
      ts := raw;
    } else if raw > st.firstTs {
      // Before the reset.
      ts := raw;
    } else {
      // After the reset.
      ts := TWO32 + raw;
    }
    p := Frame(BE16(rtp[2], rtp[3]), ts, len, offset + RecordHeader);
  }

  /** The whole indexer: None where the source returns NULL (a missing
      argument, a file that cannot be opened, a rejected file), otherwise
      the list (null when the recording holds no media record). `files`
      maps the paths that can be opened to their contents. */
  method GetFrames(dir: Option<string>, filename: Option<string>, files: map<string, seq<Byte>>, parse: JsonParser)
    returns (list: FrameList?)
    ensures list != null ==> fresh(list) && list.Valid()
    ensures list != null <==> Index(dir, filename, files, parse).Some? && Index(dir, filename, files, parse).value != []
    ensures list != null ==> list.Contents() == Index(dir, filename, files, parse).value
  {
    if dir.None? || filename.None? {
      return null;
    }
    var path := MjrPath.SourcePath(dir.value, filename.value);
    if path !in files {
      // The file cannot be opened.
      return null;
    }
    var file := files[path];
    var scan := ScanForResets(file, parse);
    if scan.None? {
      return null;
    }
    ScanAcceptsOnlyValid(file, parse, 0, false);
    list := BuildIndex(file, scan.value);
    if list.head == -1 {
      // An empty list is the NULL pointer.
      list := null;
    }
  }

  /** The recording `dir`/`filename` names, when both are given and
      the file can be opened. */
  function Recording(dir: Option<string>, filename: Option<string>, files: map<string, seq<Byte>>): Option<seq<Byte>>
  {
    if dir.None? || filename.None? then None
    else
      var path := MjrPath.SourcePath(dir.value, filename.value);
      if path in files then Some(files[path]) else None
  }

  /** What the indexer produces, as a value: None when it fails, the
      second pass's list otherwise. It fails exactly when an argument is
      missing, the file cannot be opened or the first pass rejects it;
      otherwise the list is in order and holds exactly the descriptors of
      the media records, the timestamps adjusted with the first pass's
      result. */
  function Index(dir: Option<string>, filename: Option<string>, files: map<string, seq<Byte>>, parse: JsonParser)
    : (r: Option<seq<Frame>>)
    ensures r.Some? <==> Recording(dir, filename, files).Some? &&
                         ScanFrom(Recording(dir, filename, files).value, parse, 0, false).Some?
    ensures r.Some? ==> Ordered(r.value) && TsSorted(r.value)
    ensures r.Some? ==>
              var file := Recording(dir, filename, files).value;
              var st := TrackAll(TsInit, ScanFrom(file, parse, 0, false).value);
              multiset(r.value) == multiset(MediaFrames(file, st, 0))
  {
    match Recording(dir, filename, files)
    case None => None
    case Some(file) =>
      match ScanFrom(file, parse, 0, false)
      case None => None
      case Some(tss) =>
        var st := TrackAll(TsInit, tss);
        Pass2Ordered(file, st, 0, []);
        Pass2Permutation(file, st, 0, []);
        Some(Pass2From(file, st, 0, []))
  }
}
