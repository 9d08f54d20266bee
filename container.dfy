/** The framed `.mjr` container and the first pass of the indexer, which
    validates every record header and the one-time info header and feeds
    every RTP timestamp it reads to the reset tracker.

    A record is an 8-byte tag whose byte 0 is 'M' and byte 1 is 'E'
    (legacy dialect) or 'J' (JSON dialect), a 2-byte big-endian length,
    then that many payload bytes. */
module Container {
  import opened Common
  import opened Timestamps

  const TagM: Byte := 77        // 'M'
  const TagE: Byte := 69        // 'E'
  const TagJ: Byte := 74        // 'J'
  const TypeVideo: Byte := 118  // 'v'
  const TypeAudio: Byte := 97   // 'a'
  /** 8-byte tag plus 2-byte length. */
  const RecordHeader: nat := 10
  /** Records shorter than a fixed RTP header are not media. */
  const MinRtp: nat := 12
  /** Length of the legacy one-time header record ("audio"/"video"). */
  const LegacyHeaderLen: nat := 5

  /** The decoded JSON values the info header check looks at. */
  datatype Json = JString(s: string) | JInt(n: int) | JOther
  /** An info header as decoded by the JSON library: the members of the
      top-level object (none when the text is not an object). */
  type Info = map<string, Json>
  /** The JSON library: None when the text does not parse. */
  type JsonParser = seq<Byte> -> Option<Info>

  predicate HasString(info: Info, key: string)
  {
    key in info && info[key].JString?
  }

  predicate HasInteger(info: Info, key: string)
  {
    key in info && info[key].JInt?
  }

  /** `t` is the string "a" or "v" in either case, `c` a string, `s` and
      `u` integers. */
  predicate InfoValid(info: Info)
  {
    && HasString(info, "t") && info["t"].s in {"a", "A", "v", "V"}
    && HasString(info, "c")
    && HasInteger(info, "s")
    && HasInteger(info, "u")
  }

  /** The text a C string in the buffer holds: up to the first NUL. */
  function CString(b: seq<Byte>): (r: seq<Byte>)
    ensures |r| <= |b| && r == b[..|r|]
    ensures forall j :: 0 <= j < |r| ==> r[j] != 0
    ensures |r| < |b| ==> b[|r|] == 0
  {
    if |b| == 0 || b[0] == 0 then [] else [b[0]] + CString(b[1..])
  }

  /** The declared payload length of the record at `offset`. */
  function RecordLen(file: seq<Byte>, offset: nat): U16
    requires offset + RecordHeader <= |file|
  {
    BE16(file[offset + 8], file[offset + 9])
  }

  /** Where the record after the one at `offset` starts. */
  function NextRecord(file: seq<Byte>, offset: nat): (next: nat)
    requires offset + RecordHeader <= |file|
    ensures next >= offset + RecordHeader
  {
    offset + RecordHeader + RecordLen(file, offset)
  }

  /** The timestamp of a 16-byte RTP header read at `pos` into a buffer
      whose first eight bytes are `base`: bytes the file does not have
      keep the buffer's old contents. */
  function RtpTimestamp(base: seq<Byte>, file: seq<Byte>, pos: nat): U32
    requires |base| == 8
  {
    BE32(Overlay(base, Window(file, pos, 16))[4..8])
  }

  /** The sequence number of a 16-byte RTP header read at `pos` into a
      buffer whose first eight bytes are `base`. */
  function RtpSeqNo(base: seq<Byte>, file: seq<Byte>, pos: nat): U16
    requires |base| == 8
  {
    var h := Overlay(base, Window(file, pos, 16));
    BE16(h[2], h[3])
  }

  /** The first eight bytes of the buffer after the info header's
      payload is read into it and NUL-terminated at its declared length. */
  function InfoBuffer(tag: seq<Byte>, body: seq<Byte>, len: nat): (b: seq<Byte>)
    requires |tag| == 8
    ensures |b| == 8
  {
    var b := Overlay(tag, body);
    if len < 8 then b[len := 0] else b
  }

  function Prepend(ts: U32, rest: Option<seq<U32>>): (r: Option<seq<U32>>)
    ensures r.Some? <==> rest.Some?
    ensures r.Some? ==> r.value == [ts] + rest.value
  {
    match rest
    case None => None
    case Some(s) => Some([ts] + s)
  }

  function PrependAll(seen: seq<U32>, rest: Option<seq<U32>>): Option<seq<U32>>
  {
    match rest
    case None => None
    case Some(s) => Some(seen + s)
  }

  /** What the first pass does with the record at `offset`: reject the
      file, skip the record, or read a timestamp from it. `parsed` says
      whether a one-time header has been accepted. A file that ends inside
      a record's length field is rejected. */
  datatype ScanStep = Reject | Skip(next: nat, parsed: bool) | Emit(ts: U32, next: nat, parsed: bool)

  function StepAt(file: seq<Byte>, parse: JsonParser, offset: nat, parsed: bool): (step: ScanStep)
    requires offset < |file|
    ensures !step.Reject? ==> offset + RecordHeader <= |file| && step.next == NextRecord(file, offset)
    ensures !step.Reject? ==> step.parsed == (parsed || IsHeaderRecord(file, offset))
  {
    if offset + 8 > |file| || file[offset] != TagM then Reject
    else if file[offset + 1] != TagE && file[offset + 1] != TagJ then Reject
    else if offset + RecordHeader > |file| then Reject
    else if file[offset + 1] == TagE then LegacyStep(file, offset, parsed)
    else InfoStep(file, parse, offset, parsed)
  }

  /** A record of the legacy dialect: the first 5-byte record is the
      one-time header, other records shorter than an RTP header are
      skipped, the rest are RTP. */
  function LegacyStep(file: seq<Byte>, offset: nat, parsed: bool): ScanStep
    requires offset + RecordHeader <= |file|
  {
    var len := RecordLen(file, offset);
    if len == LegacyHeaderLen && !parsed then
      if LegacyTypeOk(file, offset) then Skip(NextRecord(file, offset), true) else Reject
    else if len < MinRtp then Skip(NextRecord(file, offset), parsed)
    else Emit(RtpTimestamp(file[offset..offset + 8], file, offset + RecordHeader), NextRecord(file, offset), parsed)
  }

  /** A record of the JSON dialect: the first non-empty one is the info
      header. There is no `continue` after the info header, so the 16
      bytes that follow it are read as an RTP header too; every other
      record is read as RTP whatever its length. */
  function InfoStep(file: seq<Byte>, parse: JsonParser, offset: nat, parsed: bool): ScanStep
    requires offset + RecordHeader <= |file|
  {
    var len := RecordLen(file, offset);
    if len > 0 && !parsed then
      if InfoAccepted(file, parse, offset) then Emit(InfoRtpTimestamp(file, offset), NextRecord(file, offset), true)
      else Reject
    else Emit(RtpTimestamp(file[offset..offset + 8], file, offset + RecordHeader), NextRecord(file, offset), parsed)
  }

  /** The media-type byte of a legacy header (the tag's 'M' when the
      file has no byte there) is 'v' or 'a'. */
  predicate LegacyTypeOk(file: seq<Byte>, offset: nat)
    requires offset + RecordHeader <= |file|
  {
    var b := Overlay(file[offset..offset + 8], Window(file, offset + RecordHeader, LegacyHeaderLen));
    b[0] == TypeVideo || b[0] == TypeAudio
  }

  /** The info header's payload parses as JSON with the required members. */
  predicate InfoAccepted(file: seq<Byte>, parse: JsonParser, offset: nat)
    requires offset + RecordHeader <= |file|
  {
    var info := parse(CString(Window(file, offset + RecordHeader, RecordLen(file, offset))));
    info.Some? && InfoValid(info.value)
  }

  /** The timestamp read right after the info header's payload. */
  function InfoRtpTimestamp(file: seq<Byte>, offset: nat): U32
    requires offset + RecordHeader <= |file|
  {
    var len := RecordLen(file, offset);
    var body := Window(file, offset + RecordHeader, len);
    RtpTimestamp(InfoBuffer(file[offset..offset + 8], body, len), file, offset + RecordHeader + |body|)
  }

  /** First pass from the record at `offset` on: None when the file is
      rejected, otherwise the RTP timestamps it reads, in file order. */
  function ScanFrom(file: seq<Byte>, parse: JsonParser, offset: nat, parsed: bool): Option<seq<U32>>
    decreases |file| - offset
  {
    if offset >= |file| then Some([])
    else
      match StepAt(file, parse, offset, parsed)
      case Reject => None
      case Skip(next, p) => ScanFrom(file, parse, next, p)
      case Emit(ts, next, p) => Prepend(ts, ScanFrom(file, parse, next, p))
  }

  /** The scan from `offset` after a skipped record, as seen by a caller
      that has already collected `seen`. */
  lemma {:induction false} ScanSkips(file: seq<Byte>, parse: JsonParser, offset: nat, parsed: bool, seen: seq<U32>, next: nat, p: bool)
    requires offset < |file| && StepAt(file, parse, offset, parsed) == Skip(next, p)
    ensures PrependAll(seen, ScanFrom(file, parse, offset, parsed)) == PrependAll(seen, ScanFrom(file, parse, next, p))
  {
  }

  /** The scan from `offset` after a record whose timestamp is read. */
  lemma {:induction false} ScanEmits(file: seq<Byte>, parse: JsonParser, offset: nat, parsed: bool, seen: seq<U32>, ts: U32, next: nat, p: bool)
    requires offset < |file| && StepAt(file, parse, offset, parsed) == Emit(ts, next, p)
    ensures PrependAll(seen, ScanFrom(file, parse, offset, parsed)) == PrependAll(seen + [ts], ScanFrom(file, parse, next, p))
  {
    var rest := ScanFrom(file, parse, next, p);
    assert ScanFrom(file, parse, offset, parsed) == Prepend(ts, rest);
    if rest.Some? {
      assert seen + ([ts] + rest.value) == (seen + [ts]) + rest.value;
    }
  }

  lemma {:induction false} PrependNothing(rest: Option<seq<U32>>)
    ensures PrependAll([], rest) == rest
  {
    if rest.Some? {
      assert [] + rest.value == rest.value;
    }
  }

  /** The scan stops at a rejected record. */
  lemma {:induction false} ScanRejects(file: seq<Byte>, parse: JsonParser, offset: nat, parsed: bool, seen: seq<U32>)
    requires offset < |file| && StepAt(file, parse, offset, parsed) == Reject
    ensures PrependAll(seen, ScanFrom(file, parse, offset, parsed)) == None
  {
  }

  /** Every record from `offset` on has a complete tag and length, and its
      tag starts with 'M' followed by 'E' or 'J'. */
  predicate Framed(file: seq<Byte>, offset: nat)
    decreases |file| - offset
  {
    offset >= |file| ||
    (&& offset + RecordHeader <= |file|
     && file[offset] == TagM
     && (file[offset + 1] == TagE || file[offset + 1] == TagJ)
     && Framed(file, NextRecord(file, offset)))
  }

  /** Whether the record at `offset` would be taken as the one-time header
      while none has been accepted yet. */
  predicate IsHeaderRecord(file: seq<Byte>, offset: nat)
    requires offset + RecordHeader <= |file|
  {
    || (file[offset + 1] == TagE && RecordLen(file, offset) == LegacyHeaderLen)
    || (file[offset + 1] == TagJ && RecordLen(file, offset) > 0)
  }

  /** The offset of the first record taken as the one-time header. */
  function FirstHeader(file: seq<Byte>, offset: nat): (h: Option<nat>)
    requires Framed(file, offset)
    ensures h.Some? ==> offset <= h.value && h.value + RecordHeader <= |file|
    decreases |file| - offset
  {
    if offset >= |file| then None
    else if IsHeaderRecord(file, offset) then Some(offset)
    else FirstHeader(file, NextRecord(file, offset))
  }

  /** The one-time header at `offset` passes its check: a legacy header
      declares 'v' or 'a', an info header parses and has `t`, `c`, `s`
      and `u` of the right kinds. */
  predicate HeaderAccepted(file: seq<Byte>, parse: JsonParser, offset: nat)
    requires offset + RecordHeader <= |file|
  {
    if file[offset + 1] == TagE then LegacyTypeOk(file, offset) else InfoAccepted(file, parse, offset)
  }

  /** The first pass accepts a file only if every record tag is valid,
      every length is complete, and the first one-time header (legacy or
      info) passes its check. */
  lemma {:induction false} ScanAcceptsOnlyValid(file: seq<Byte>, parse: JsonParser, offset: nat, parsed: bool)
    requires ScanFrom(file, parse, offset, parsed).Some?
    ensures Framed(file, offset)
    ensures !parsed && FirstHeader(file, offset).Some? ==>
              HeaderAccepted(file, parse, FirstHeader(file, offset).value)
    decreases |file| - offset
  {
    if offset < |file| {
      var next := NextRecord(file, offset);
      ScanAcceptsOnlyValid(file, parse, next, StepAt(file, parse, offset, parsed).parsed);
    }
  }

  /** A tag whose byte 0 is not 'M' or whose byte 1 is neither 'E' nor
      'J', on any record the scan reaches, rejects the file. */
  lemma {:induction false} BadTagRejects(file: seq<Byte>, parse: JsonParser)
    requires !Framed(file, 0)
    ensures ScanFrom(file, parse, 0, false).None?
  {
    if ScanFrom(file, parse, 0, false).Some? {
      ScanAcceptsOnlyValid(file, parse, 0, false);
    }
  }

  /** A rejected first one-time header rejects the file. */
  lemma {:induction false} BadHeaderRejects(file: seq<Byte>, parse: JsonParser)
    requires Framed(file, 0) && FirstHeader(file, 0).Some?
    requires !HeaderAccepted(file, parse, FirstHeader(file, 0).value)
    ensures ScanFrom(file, parse, 0, false).None?
  {
    if ScanFrom(file, parse, 0, false).Some? {
      ScanAcceptsOnlyValid(file, parse, 0, false);
    }
  }

  /** Conversely, the first pass accepts every framed file whose first
      one-time header (when it still has to find one) passes its check. */
  lemma {:induction false} ValidAccepted(file: seq<Byte>, parse: JsonParser, offset: nat, parsed: bool)
    requires Framed(file, offset)
    requires !parsed && FirstHeader(file, offset).Some? ==> HeaderAccepted(file, parse, FirstHeader(file, offset).value)
    ensures ScanFrom(file, parse, offset, parsed).Some?
    decreases |file| - offset
  {
    if offset < |file| {
      var step := StepAt(file, parse, offset, parsed);
      assert !step.Reject?;
      ValidAccepted(file, parse, NextRecord(file, offset), step.parsed);
    }
  }

  /** One record of the first pass as the loop body reads it: the tag and
      length checks, the one-time header check, and the read of the RTP
      header whose timestamp the reset tracking sees. */
  method ReadRecord(file: seq<Byte>, parse: JsonParser, offset: nat, parsedHeader: bool) returns (step: ScanStep)
    requires offset < |file|
    ensures step == StepAt(file, parse, offset, parsedHeader)
  {
    if offset + 8 > |file| || file[offset] != TagM {
      return Reject;
    }
    var kind := file[offset + 1];
    if (kind != TagE && kind != TagJ) || offset + RecordHeader > |file| {
      return Reject;
    }
    if kind == TagE {
      step := ReadLegacy(file, offset, parsedHeader);
    } else {
      step := ReadJson(file, parse, offset, parsedHeader);
    }
  }

  /** A record of the legacy dialect, after its tag and length are read:
      the loop body's reads and checks in order, proved equal to the
      specification `LegacyStep` that `ScanFrom` and its lemmas use. */
  method ReadLegacy(file: seq<Byte>, offset: nat, parsed: bool) returns (step: ScanStep)
    requires offset + RecordHeader <= |file|
    ensures step == LegacyStep(file, offset, parsed)
  {
    var tag := file[offset..offset + 8];
    var len := RecordLen(file, offset);
    var next := NextRecord(file, offset);
    var pos := offset + RecordHeader;
    if len == LegacyHeaderLen && !parsed {
      var buf := Overlay(tag, Window(file, pos, LegacyHeaderLen));
      if buf[0] != TypeVideo && buf[0] != TypeAudio {
        return Reject;
      }
      return Skip(next, true);
    } else if len < MinRtp {
      return Skip(next, parsed);
    }
    // Only the RTP header is read, over the tag's bytes.
    var ts := RtpTimestamp(tag, file, pos);
    return Emit(ts, next, parsed);
  }

  /** A record of the JSON dialect. The info header's text is read,
      NUL-terminated and checked; with no `continue` after it, the 16
      bytes that follow are then read as an RTP header. The loop body's
      reads and checks in order, proved equal to the specification
      `InfoStep` that `ScanFrom` and its lemmas use. */
  method ReadJson(file: seq<Byte>, parse: JsonParser, offset: nat, parsed: bool) returns (step: ScanStep)
    requires offset + RecordHeader <= |file|
    ensures step == InfoStep(file, parse, offset, parsed)
  {
    var tag := file[offset..offset + 8];
    var len := RecordLen(file, offset);
    var next := NextRecord(file, offset);
    var pos := offset + RecordHeader;
    var buf := tag;
    var parsedHeader := parsed;
    if len > 0 && !parsed {
      var body := Window(file, pos, len);
      parsedHeader := true;
      buf := InfoBuffer(tag, body, len);
      pos := pos + |body|;
      var info := parse(CString(body));
      if info.None? || !InfoValid(info.value) {
        return Reject;
      }
    }
    var ts := RtpTimestamp(buf, file, pos);
    return Emit(ts, next, parsedHeader);
  }

  /** The first pass as the loop runs it: the header checks, then the
      reset detection over every RTP timestamp read. Returns the final
      `first_ts`, `last_ts` and `reset`, or None where the source
      returns NULL. */
  method ScanForResets(file: seq<Byte>, parse: JsonParser) returns (r: Option<TsState>)
    ensures r == match ScanFrom(file, parse, 0, false)
                 case None => None
                 case Some(tss) => Some(TrackAll(TsInit, tss))
  {
    var parsedHeader := false;
    var offset: nat := 0;
    var firstTs: U32, lastTs: U32, reset: U32 := 0, 0, 0;
    ghost var seen: seq<U32> := [];
    PrependNothing(ScanFrom(file, parse, 0, false));
    while offset < |file|
      invariant ScanFrom(file, parse, 0, false) == PrependAll(seen, ScanFrom(file, parse, offset, parsedHeader))
      invariant TsState(firstTs, lastTs, reset) == TrackAll(TsInit, seen)
      decreases |file| - offset
    {
      var step := ReadRecord(file, parse, offset, parsedHeader);
      match step
      case Reject =>
        ScanRejects(file, parse, offset, parsedHeader, seen);
        return None;
      case Skip(next, parsed) =>
        ScanSkips(file, parse, offset, parsedHeader, seen, next, parsed);
        offset, parsedHeader := next, parsed;
      case Emit(ts, next, parsed) =>
        ScanEmits(file, parse, offset, parsedHeader, seen, ts, next, parsed);
        if lastTs == 0 {
          firstTs := ts;
          if firstTs > BaselineSlack {
            firstTs := firstTs - BaselineSlack;
          }
        } else {
          if ts < lastTs {
            if lastTs - ts > ResetGap {
              reset := ts;
            }
          } else if ts < reset {
            reset := ts;
          }
        }
        lastTs := ts;
        assert (seen + [ts])[..|seen|] == seen;
        seen := seen + [ts];
        offset, parsedHeader := next, parsed;
    }
    assert seen + [] == seen;
    return Some(TsState(firstTs, lastTs, reset));
  }
}
