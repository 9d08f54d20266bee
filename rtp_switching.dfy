/** The RTP switching context: per direction, it rewrites the timestamp and
    sequence number of each relayed RTP header (the fixed header of section
    5.1 of RFC 3550) so that the receiver is meant to see one continuous
    stream across SSRC changes and playback restarts. What it does give:
    sequence numbers continue (`ReanchorSeq`), timestamps continue across
    an SSRC change (`SwitchTs`), a restart re-maps only the video timestamp
    base (`ResetTs`), and within one SSRC input gaps carry over
    (`Translation`). */
module RtpSwitching {
  import opened Common

  type PayloadType = x: int | 0 <= x < 128

  /** The header fields the normaliser reads or writes, in host order. */
  datatype Header = Header(pt: PayloadType, seqNum: U16, ts: U32, ssrc: U32)

  /** One direction's half of the context. `lastTime` is a monotonic clock
      reading in microseconds, 0 before the first packet. */
  datatype Direction = Direction(
    lastSsrc: U32,
    lastTs: U32, prevTs: U32, baseTs: U32, baseTsPrev: U32,
    lastSeq: U16, prevSeq: U16, baseSeq: U16, baseSeqPrev: U16,
    seqReset: bool, newSsrc: bool, lastTime: int)

  datatype Context = Context(audio: Direction, video: Direction)

  /** A rewritten packet: the new context and the new header. */
  datatype Rewritten = Rewritten(context: Context, header: Header)

  function Dir(c: Context, video: bool): Direction
  {
    if video then c.video else c.audio
  }

  function WithDir(c: Context, video: bool, d: Direction): Context
  {
    if video then c.(video := d) else c.(audio := d)
  }

  /** The RTP clock in ticks per millisecond: 90 for video; for audio 8 for
      the G.711 and G.722 payload types 0, 8 and 9, otherwise 48. */
  function Khz(video: bool, pt: PayloadType): int
  {
    if video then 90 else if pt == 0 || pt == 8 || pt == 9 then 8 else 48
  }

  /** The RTP ticks that passed in `elapsed` microseconds, truncated, and
      one tick when that truncates to nothing. */
  function Ticks(elapsed: int, khz: int): int
    requires khz > 0
  {
    var t := TDiv(elapsed * khz, 1000);
    if t == 0 then 1 else t
  }

  /** A non-negative elapsed time gives at least one tick, and otherwise
      the whole ticks that passed. */
  lemma {:induction false} TicksBounds(elapsed: int, khz: int)
    requires khz > 0
    ensures elapsed >= 0 ==> Ticks(elapsed, khz) >= 1
    ensures elapsed >= 0 ==> (Ticks(elapsed, khz) - 1) * 1000 <= elapsed * khz
    ensures elapsed * khz >= 1000 ==> elapsed * khz < (Ticks(elapsed, khz) + 1) * 1000
    ensures elapsed * khz >= 1000 ==> Ticks(elapsed, khz) * 1000 <= elapsed * khz
    ensures 0 <= elapsed * khz < 1000 ==> Ticks(elapsed, khz) == 1
  {
    TDivBounds(elapsed * khz, 1000);
  }

  /** The gap added to the timestamp base on an SSRC change: the ticks
      since the direction's last packet, as a 32-bit value, or nothing when
      no packet was handled yet. */
  function Gap(d: Direction, video: bool, pt: PayloadType, now: int): U32
  {
    if d.lastTime > 0 then Ticks(now - d.lastTime, Khz(video, pt)) % TWO32 else 0
  }

  /** A new SSRC: both bases are re-anchored to the incoming packet and the
      last output, the latter moved on by the gap (audio also moves its
      previous timestamp). */
  function Switch(d: Direction, h: Header, video: bool, now: int): Direction
  {
    SwitchBy(d, h, video, Gap(d, video, h.pt, now))
  }

  /** The SSRC switch for a given gap `g`. */
  function SwitchBy(d: Direction, h: Header, video: bool, g: U32): Direction
  {
    d.(lastSsrc := h.ssrc,
       baseTs := h.ts, baseTsPrev := (d.lastTs + g) % TWO32,
       baseSeq := h.seqNum, baseSeqPrev := d.lastSeq,
       lastTs := (d.lastTs + g) % TWO32,
       prevTs := if video then d.prevTs else (d.prevTs + g) % TWO32,
       newSsrc := true)
  }

  /** The context once the SSRC change and the armed sequence reset are
      taken into account. The reset re-anchors the sequence base and sets
      the VIDEO timestamp base to the video's last output plus 2000, in
      either branch. */
  function Anchored(c: Context, h: Header, video: bool, now: int): Context
  {
    var d0 := Dir(c, video);
    var d1 := if h.ssrc != d0.lastSsrc then Switch(d0, h, video, now) else d0;
    if !d1.seqReset then WithDir(c, video, d1)
    else
      var d2 := d1.(seqReset := false, baseSeqPrev := d1.lastSeq, baseSeq := h.seqNum);
      if video then c.(video := d2.(baseTsPrev := (d2.lastTs + 2000) % TWO32))
      else c.(audio := d2, video := c.video.(baseTsPrev := (c.video.lastTs + 2000) % TWO32))
  }

  /** The rewrite proper: the packet's distance from the bases, carried
      over to the output bases; the sequence number one past. */
  function Emit(d: Direction, h: Header, after: int): Direction
  {
    d.(prevTs := d.lastTs, lastTs := (h.ts - d.baseTs + d.baseTsPrev) % TWO32,
       prevSeq := d.lastSeq, lastSeq := (h.seqNum - d.baseSeq + d.baseSeqPrev + 1) % TWO16,
       lastTime := after)
  }

  /** One packet through the normaliser. `now` is the clock reading taken
      for the gap, `after` the one recorded as the last packet's time. */
  function Update(c: Context, h: Header, video: bool, now: int, after: int): Rewritten
  {
    var a := Anchored(c, h, video, now);
    var d := Emit(Dir(a, video), h, after);
    Rewritten(WithDir(a, video, d), h.(ts := d.lastTs, seqNum := d.lastSeq))
  }

  /** The rewrite formula: the output is the input's distance from the
      bases in use, carried over to the output bases, and the header takes
      it; only its timestamp and sequence number change. The direction
      then follows the packet's SSRC, has no reset pending, and keeps the
      previous output and the time of the packet. */
  lemma {:induction false} RewriteFormula(c: Context, h: Header, video: bool, now: int, after: int)
    ensures var r := Update(c, h, video, now, after);
            var d := Dir(r.context, video);
            && d.lastTs == (h.ts - d.baseTs + d.baseTsPrev) % TWO32
            && d.lastSeq == (h.seqNum - d.baseSeq + d.baseSeqPrev + 1) % TWO16
            && r.header == h.(ts := d.lastTs, seqNum := d.lastSeq)
            && r.header.ssrc == h.ssrc && r.header.pt == h.pt
            && d.prevSeq == Dir(c, video).lastSeq
            && d.lastSsrc == h.ssrc && !d.seqReset && d.lastTime == after
  {
  }

  /** The two moduli the rewrite works in. */
  predicate Modulus(m: int)
  {
    m == TWO32 || m == TWO16
  }

  lemma {:induction false} AddMod(x: int, k: int, m: int)
    requires Modulus(m)
    ensures (x % m + k) % m == (x + k) % m
  {
    if m == TWO32 {
    } else {
    }
  }

  /** The bases the rewrite of `h` uses, in terms of the direction before
      the packet. */
  lemma {:induction false} AnchoredBases(c: Context, h: Header, video: bool, now: int)
    ensures var d := Dir(c, video);
            var e := Dir(Anchored(c, h, video, now), video);
            var switched := h.ssrc != d.lastSsrc;
            var t := if switched then (d.lastTs + Gap(d, video, h.pt, now)) % TWO32 else d.lastTs;
            && e.lastSsrc == h.ssrc && !e.seqReset
            && e.lastSeq == d.lastSeq && e.lastTs == t
            && e.baseTs == (if switched then h.ts else d.baseTs)
            && e.baseTsPrev == (if video && d.seqReset then (t + 2000) % TWO32
                                else if switched then t else d.baseTsPrev)
            && e.baseSeq == (if switched || d.seqReset then h.seqNum else d.baseSeq)
            && e.baseSeqPrev == (if switched || d.seqReset then d.lastSeq else d.baseSeqPrev)
  {
  }

  /** The direction after the packet is the anchored one, rewritten. */
  lemma {:induction false} UpdatedDir(c: Context, h: Header, video: bool, now: int, after: int)
    ensures Dir(Update(c, h, video, now, after).context, video)
            == Emit(Dir(Anchored(c, h, video, now), video), h, after)
  {
  }

  /** Re-anchoring: after an SSRC change or an armed sequence reset the
      output sequence number is the previous output plus one, whatever the
      input. */
  lemma {:induction false} ReanchorSeq(c: Context, h: Header, video: bool, now: int, after: int)
    requires h.ssrc != Dir(c, video).lastSsrc || Dir(c, video).seqReset
    ensures Dir(Update(c, h, video, now, after).context, video).lastSeq == (Dir(c, video).lastSeq + 1) % TWO16
  {
    AnchoredBases(c, h, video, now);
    UpdatedDir(c, h, video, now, after);
  }

  /** On an SSRC change the output timestamp continues from the previous
      output, moved on by the gap and, when a video reset is armed, by 2000
      more. */
  lemma {:induction false} SwitchTs(c: Context, h: Header, video: bool, now: int, after: int)
    requires h.ssrc != Dir(c, video).lastSsrc
    ensures var d := Dir(c, video);
            Dir(Update(c, h, video, now, after).context, video).lastTs
            == (d.lastTs + Gap(d, video, h.pt, now) + (if video && d.seqReset then 2000 else 0)) % TWO32
  {
    var d := Dir(c, video);
    var g := Gap(d, video, h.pt, now);
    var e := Dir(Anchored(c, h, video, now), video);
    AnchoredBases(c, h, video, now);
    UpdatedDir(c, h, video, now, after);
    assert e.baseTs == h.ts;
    if video && d.seqReset {
      AddMod(d.lastTs + g, 2000, TWO32);
    }
  }

  /** An armed reset without an SSRC change keeps the timestamp base: video
      carries the packet's distance from it over to the previous output
      plus 2000, while audio keeps its old mapping, since the audio
      branch's timestamp fix lands on the video direction. */
  lemma {:induction false} ResetTs(c: Context, h: Header, video: bool, now: int, after: int)
    requires h.ssrc == Dir(c, video).lastSsrc && Dir(c, video).seqReset
    ensures var d := Dir(c, video);
            var d' := Dir(Update(c, h, video, now, after).context, video);
            && (video ==> d'.lastTs == (h.ts - d.baseTs + d.lastTs + 2000) % TWO32)
            && (!video ==> d'.lastTs == (h.ts - d.baseTs + d.baseTsPrev) % TWO32)
  {
    var d := Dir(c, video);
    AnchoredBases(c, h, video, now);
    UpdatedDir(c, h, video, now, after);
    if video {
      AddMod(d.lastTs + 2000, h.ts - d.baseTs, TWO32);
    }
  }

  /** Between two packets of one SSRC, with no reset armed in between, the
      rewrite is a translation: output timestamps differ by the input
      difference modulo 2^32 and output sequence numbers by the input
      difference modulo 2^16. */
  lemma {:induction false} Translation(c: Context, h1: Header, h2: Header, video: bool,
                                       now1: int, after1: int, now2: int, after2: int)
    requires h2.ssrc == h1.ssrc
    ensures var r1 := Update(c, h1, video, now1, after1);
            var r2 := Update(r1.context, h2, video, now2, after2);
            && (r2.header.ts - r1.header.ts - (h2.ts - h1.ts)) % TWO32 == 0
            && (r2.header.seqNum - r1.header.seqNum - (h2.seqNum - h1.seqNum)) % TWO16 == 0
  {
    var r1 := Update(c, h1, video, now1, after1);
    var d := Dir(r1.context, video);
    RewriteFormula(c, h1, video, now1, after1);
    Steady(r1.context, h2, video, now2);
    var r2 := Update(r1.context, h2, video, now2, after2);
    RewriteFormula(r1.context, h2, video, now2, after2);
    UpdatedDir(r1.context, h2, video, now2, after2);
    var x1, x2 := h1.ts - d.baseTs + d.baseTsPrev, h2.ts - d.baseTs + d.baseTsPrev;
    var y1, y2 := h1.seqNum - d.baseSeq + d.baseSeqPrev + 1, h2.seqNum - d.baseSeq + d.baseSeqPrev + 1;
    assert r1.header.ts == x1 % TWO32 && r2.header.ts == x2 % TWO32;
    assert r1.header.seqNum == y1 % TWO16 && r2.header.seqNum == y2 % TWO16;
    ModDiff(x2, x1, TWO32);
    ModDiff(y2, y1, TWO16);
  }

  /** Consecutive input sequence numbers of one SSRC give consecutive
      output sequence numbers. */
  lemma {:induction false} Consecutive(c: Context, h1: Header, h2: Header, video: bool,
                                       now1: int, after1: int, now2: int, after2: int)
    requires h2.ssrc == h1.ssrc && h2.seqNum == (h1.seqNum + 1) % TWO16
    ensures var r1 := Update(c, h1, video, now1, after1);
            var r2 := Update(r1.context, h2, video, now2, after2);
            r2.header.seqNum == (r1.header.seqNum + 1) % TWO16
  {
    Translation(c, h1, h2, video, now1, after1, now2, after2);
    var r1 := Update(c, h1, video, now1, after1);
    var r2 := Update(r1.context, h2, video, now2, after2);
    NextMod(r1.header.seqNum, r2.header.seqNum, h1.seqNum, h2.seqNum);
  }

  lemma {:induction false} NextMod(o1: U16, o2: U16, s1: U16, s2: U16)
    requires s2 == (s1 + 1) % TWO16 && (o2 - o1 - (s2 - s1)) % TWO16 == 0
    ensures o2 == (o1 + 1) % TWO16
  {
  }

  /** A packet of the direction's SSRC, with no reset armed, leaves the
      bases alone. */
  lemma {:induction false} Steady(c: Context, h: Header, video: bool, now: int)
    requires h.ssrc == Dir(c, video).lastSsrc && !Dir(c, video).seqReset
    ensures Anchored(c, h, video, now) == c
  {
  }

  lemma {:induction false} ModDiff(x: int, y: int, m: int)
    requires Modulus(m)
    ensures (x % m - y % m - (x - y)) % m == 0
  {
    if m == TWO32 {
    } else {
    }
  }

  /** A packet of one direction leaves the other direction alone, except
      that an audio packet that finds the audio reset armed sets the video
      timestamp base to the video's last output plus 2000. */
  lemma {:induction false} OtherDirection(c: Context, h: Header, video: bool, now: int, after: int)
    ensures var r := Update(c, h, video, now, after);
            && (video ==> r.context.audio == c.audio)
            && (!video && !c.audio.seqReset ==> r.context.video == c.video)
            && (!video && c.audio.seqReset ==>
                  r.context.video == c.video.(baseTsPrev := (c.video.lastTs + 2000) % TWO32))
  {
    var d0 := Dir(c, video);
    var d1 := if h.ssrc != d0.lastSsrc then Switch(d0, h, video, now) else d0;
    assert d1.seqReset == d0.seqReset;
  }

  /** An RTP header in a relayed packet, updated in place. */
  class RtpHeader {
    var pt: PayloadType
    var seqNum: U16
    var ts: U32
    var ssrc: U32

    function Value(): Header
      reads this
    {
      Header(pt, seqNum, ts, ssrc)
    }
  }

  /** A session's switching context, updated in place. */
  class SwitchingContext {
    var audio: Direction
    var video: Direction

    function Value(): Context
      reads this
    {
      Context(audio, video)
    }

    /** Playback start: both directions re-anchor their sequence numbers
        on their next packet. */
    method ArmSequenceReset()
      modifies this
      ensures audio == old(audio).(seqReset := true)
      ensures video == old(video).(seqReset := true)
    {
      audio := audio.(seqReset := true);
      video := video.(seqReset := true);
    }
  }

  /** After playback start arms both resets, the first packet of either
      direction continues the output sequence from the last one sent
      before, whatever its own sequence number or SSRC. */
  lemma {:induction false} ArmedContinues(c: Context, h: Header, video: bool, now: int, after: int)
    ensures var armed := Context(c.audio.(seqReset := true), c.video.(seqReset := true));
            Dir(Update(armed, h, video, now, after).context, video).lastSeq == (Dir(c, video).lastSeq + 1) % TWO16
  {
    var armed := Context(c.audio.(seqReset := true), c.video.(seqReset := true));
    assert Dir(armed, video).seqReset && Dir(armed, video).lastSeq == Dir(c, video).lastSeq;
    ReanchorSeq(armed, h, video, now, after);
  }

  /** The SSRC check of the normaliser, on one direction: the field
      assignments of the C block, proved equal to `Switch`, which the
      lemmas about the rewrite use. */
  method Resync(d0: Direction, h: Header, video: bool, now: int) returns (d: Direction)
    ensures d == if h.ssrc != d0.lastSsrc then Switch(d0, h, video, now) else d0
  {
    d := d0;
    if h.ssrc != d.lastSsrc {
      // SSRC changed: re-anchor both bases, moving the last output on by
      // the ticks since the last packet (at least one, wrapped to 32 bits).
      var offset: U32 := 0;
      if d.lastTime > 0 {
        offset := Ticks(now - d.lastTime, Khz(video, h.pt)) % TWO32;
      }
      d := SwitchBy(d, h, video, offset);
    }
  }

  /** The normaliser: a missing header or context changes nothing; the
      step argument is ignored. */
  method HeaderUpdate(header: RtpHeader?, context: SwitchingContext?, video: bool, step: int,
                      now: int, after: int)
    modifies header, context
    ensures header == null || context == null ==>
              (header != null ==> header.Value() == old(header.Value())) &&
              (context != null ==> context.Value() == old(context.Value()))
    ensures header != null && context != null ==>
              var r := Update(old(context.Value()), old(header.Value()), video, now, after);
              context.Value() == r.context && header.Value() == r.header
  {
    if header == null || context == null {
      return;
    }
    ghost var c0 := context.Value();
    var h0 := header.Value();
    var timestamp, sequence := h0.ts, h0.seqNum;
    var d := if video then context.video else context.audio;
    d := Resync(d, h0, video, now);
    ghost var d1 := d;
    ghost var a := Anchored(c0, h0, video, now);
    if d.seqReset {
      d := d.(seqReset := false, baseSeqPrev := d.lastSeq, baseSeq := sequence);
      if video {
        d := d.(baseTsPrev := (d.lastTs + 2000) % TWO32);
        assert a == c0.(video := d);
      } else {
        // The audio branch fixes the video timestamp base.
        context.video := context.video.(baseTsPrev := (context.video.lastTs + 2000) % TWO32);
        assert a == c0.(audio := d, video := context.video);
      }
    } else {
      assert a == WithDir(c0, video, d);
    }
    assert WithDir(context.Value(), video, d) == a;
    d := d.(prevTs := d.lastTs, lastTs := (timestamp - d.baseTs + d.baseTsPrev) % TWO32,
            prevSeq := d.lastSeq, lastSeq := (sequence - d.baseSeq + d.baseSeqPrev + 1) % TWO16);
    header.ts, header.seqNum := d.lastTs, d.lastSeq;
    d := d.(lastTime := after);
    assert d == Emit(Dir(a, video), h0, after);
    if video {
      context.video := d;
    } else {
      context.audio := d;
    }
    assert context.Value() == WithDir(a, video, d);
  }
}
