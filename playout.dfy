/** The pacing loop of the playout thread: two cursors walk the audio and
    video lists of the index and relay each frame when the clock says it
    is due. The clock readings and the stop and tear-down flags come in as
    one `Tick` per pass of the loop; what each pass relays comes out as a
    log. */
module Playout {
  import opened Common
  import opened Frames

  /** A frame may leave this many microseconds before it is due. */
  const SlackMicros: int := 5000
  const MicrosPerSecond: int := 1000 * 1000

  datatype Track = Audio | Video

  /** What the loop reads on one pass: `stop` is the recording's
      stop-playing flag, `halted` stands for the session or recording
      being destroyed or the session inactive, and the two clock readings
      are the ones the audio and the video branch take, in microseconds. */
  datatype Tick = Tick(stop: bool, halted: bool, aNow: int, vNow: int)

  /** What one pass of the loop does that can be seen from outside: the
      5 ms nap (taken when the pass before relayed nothing), then the
      audio frames relayed, then the video frames relayed. */
  datatype Pass = Pass(nap: bool, audio: seq<Frame>, video: seq<Frame>)

  /** The event pushed when the loop ends ("stopped" or "ended"), or
      Running when the ticks ran out with the loop still going. */
  datatype Outcome = Running | Stopped | Ended

  /** One track's cursor (list position), reference time in microseconds,
      and whether the last pass relayed something on it. */
  datatype Cursor = Cursor(at: nat, ref: int, sent: bool)
  datatype Play = Play(audio: Cursor, video: Cursor)

  datatype Moved = Moved(cursor: Cursor, sent: seq<Frame>)
  datatype Next = Next(state: Play, pass: Pass)
  datatype Run = Run(outcome: Outcome, passes: seq<Pass>)

  /** A timestamp difference in microseconds: times 1000, divided as C
      divides by the track's rate in kHz (48 for audio, 90 for video). */
  function DeltaMicros(track: Track, d: int): int
  {
    if track == Audio then TDiv(d * 1000, 48) else TDiv(d * 1000, 90)
  }

  /** The frame is due once the time passed since the reference reaches
      its delta less the slack. */
  predicate Due(passed: int, delta: int)
  {
    passed >= delta - SlackMicros
  }

  /** How far the reference time moves for a delta, as the seconds and
      microseconds arithmetic on the `timeval` does it: the remainder of
      the delta (C's `%`, of the delta's sign) goes into the
      microseconds; the whole seconds, when positive, go into the seconds
      and are also taken away from the microseconds. The carry between
      the two fields keeps the total, so with q whole seconds the total
      moves by the remainder d - q * 1000000, plus q * 1000000 - q when q
      is positive. */
  function Advance(d: int): int
  {
    var q := TDiv(d, 1000000);
    if q > 0 then d - q else d - q * 1000000
  }

  /** For a delta that is not negative the reference moves by the delta
      less one microsecond per whole second in it: it falls behind by at
      most that much and never runs ahead. */
  lemma {:induction false} AdvanceLag(d: int)
    requires d >= 0
    ensures Advance(d) == d - d / MicrosPerSecond
    ensures 0 <= d - Advance(d) <= d / MicrosPerSecond
  {
  }

  /** The delta of frame `i` from the one before it, in microseconds. */
  function Delta(track: Track, frames: seq<Frame>, i: nat): int
    requires 0 < i < |frames|
  {
    DeltaMicros(track, frames[i].ts - frames[i - 1].ts)
  }

  /** The end of the run of frames from `i` on that share frame `i`'s
      timestamp. */
  function BurstEnd(frames: seq<Frame>, i: nat): (j: nat)
    requires i < |frames|
    ensures i < j <= |frames|
    ensures forall k :: i <= k < j ==> frames[k].ts == frames[i].ts
    ensures j == |frames| || frames[j].ts != frames[i].ts
    decreases |frames| - i
  {
    if i + 1 < |frames| && frames[i + 1].ts == frames[i].ts then BurstEnd(frames, i + 1) else i + 1
  }

  /** The frames one send relays: one audio frame, or the video frame
      with all that follow it at the same timestamp. */
  function SpanEnd(track: Track, frames: seq<Frame>, i: nat): nat
    requires i < |frames|
  {
    if track == Audio then i + 1 else BurstEnd(frames, i)
  }

  /** One track's branch of a pass with the clock reading `now`. */
  function Step(track: Track, frames: seq<Frame>, c: Cursor, now: int): (m: Moved)
    requires c.at <= |frames|
    ensures c.at <= m.cursor.at <= |frames|
    ensures m.sent == frames[c.at..m.cursor.at]
  {
    if c.at == |frames| then
      Moved(Cursor(c.at, c.ref, false), [])
    else if c.at == 0 then
      // The first frame leaves at once and sets the reference time.
      var j := SpanEnd(track, frames, 0);
      Moved(Cursor(j, now, true), frames[0..j])
    else
      var d := Delta(track, frames, c.at);
      if !Due(now - c.ref, d) then
        Moved(Cursor(c.at, c.ref, false), [])
      else
        var j := SpanEnd(track, frames, c.at);
        Moved(Cursor(j, c.ref + Advance(d), true), frames[c.at..j])
  }

  /** The pacing rule: the first frame of a track leaves at once and sets
      the reference time to the clock; a later one is held back until the
      time passed since the reference reaches its delta less the slack,
      and then moves the reference by the nominal delta, not by the time
      that actually passed. Audio leaves one frame at a time; video leaves
      as a burst of every frame at the first one's timestamp, up to the
      next timestamp or the end of the list. */
  lemma {:induction false} StepPacing(track: Track, frames: seq<Frame>, c: Cursor, now: int)
    requires c.at <= |frames|
    ensures var m := Step(track, frames, c, now);
            && (m.cursor.sent <==> m.cursor.at > c.at)
            && (!m.cursor.sent ==> m.cursor.ref == c.ref)
            && (c.at == 0 < |frames| ==> m.cursor.sent && m.cursor.ref == now)
            && (0 < c.at < |frames| ==>
                  (m.cursor.sent <==> now - c.ref >= Delta(track, frames, c.at) - SlackMicros) &&
                  (m.cursor.sent ==> m.cursor.ref == c.ref + Advance(Delta(track, frames, c.at))))
            && (track == Audio ==> m.cursor.at <= c.at + 1)
            && (track == Video && m.cursor.sent ==>
                  (forall k :: c.at <= k < m.cursor.at ==> frames[k].ts == frames[c.at].ts) &&
                  (m.cursor.at == |frames| || frames[m.cursor.at].ts != frames[c.at].ts))
  {
  }

  /** One pass of the loop: a nap when the pass before relayed nothing,
      then the audio branch, then the video branch. */
  function Round(audio: seq<Frame>, video: seq<Frame>, s: Play, t: Tick): (n: Next)
    requires s.audio.at <= |audio| && s.video.at <= |video|
    ensures s.audio.at <= n.state.audio.at <= |audio| && s.video.at <= n.state.video.at <= |video|
  {
    var a := Step(Audio, audio, s.audio, t.aNow);
    var v := Step(Video, video, s.video, t.vNow);
    Next(Play(a.cursor, v.cursor), Pass(!s.audio.sent && !s.video.sent, a.sent, v.sent))
  }

  /** The loop goes on while nothing stops it and a cursor has frames left. */
  predicate Continue(audio: seq<Frame>, video: seq<Frame>, s: Play, t: Tick)
  {
    !t.halted && !t.stop && (s.audio.at < |audio| || s.video.at < |video|)
  }

  function Start(now: int): Play
  {
    Play(Cursor(0, now, false), Cursor(0, now, false))
  }

  /** The loop from state `s` over the passes `ticks` describe. */
  function PlayFrom(audio: seq<Frame>, video: seq<Frame>, s: Play, ticks: seq<Tick>): Run
    requires s.audio.at <= |audio| && s.video.at <= |video|
    decreases |ticks|
  {
    if |ticks| == 0 then Run(Running, [])
    else if !Continue(audio, video, s, ticks[0]) then
      Run(if ticks[0].stop then Stopped else Ended, [])
    else
      var n := Round(audio, video, s, ticks[0]);
      var r := PlayFrom(audio, video, n.state, ticks[1..]);
      Run(r.outcome, [n.pass] + r.passes)
  }

  function Of(audio: seq<Frame>, video: seq<Frame>, track: Track): seq<Frame>
  {
    if track == Audio then audio else video
  }

  function CursorOf(s: Play, track: Track): Cursor
  {
    if track == Audio then s.audio else s.video
  }

  function SentIn(p: Pass, track: Track): seq<Frame>
  {
    if track == Audio then p.audio else p.video
  }

  /** The frames the passes relay on `track`, in order. */
  function Sent(passes: seq<Pass>, track: Track): seq<Frame>
  {
    if |passes| == 0 then [] else SentIn(passes[0], track) + Sent(passes[1..], track)
  }

  /** A pass naps exactly when the pass before it relayed nothing, and
      relays on each track the frames its cursor moves over; on the audio
      track that is at most one frame. */
  lemma {:induction false} RoundSends(audio: seq<Frame>, video: seq<Frame>, s: Play, t: Tick, track: Track)
    requires s.audio.at <= |audio| && s.video.at <= |video|
    ensures var n := Round(audio, video, s, t);
            && (n.pass.nap <==> !s.audio.sent && !s.video.sent)
            && CursorOf(s, track).at + |SentIn(n.pass, track)| == CursorOf(n.state, track).at
            && RunOf(SentIn(n.pass, track), Of(audio, video, track), CursorOf(s, track).at)
            && (track == Audio ==> |n.pass.audio| <= 1)
  {
    StepPacing(Audio, audio, s.audio, t.aNow);
  }

  /** The sum of the advances of the reference time up to the send of
      frame `i - 1`: where the reference stands, relative to the first
      send, once frames 0 .. i - 1 have left. */
  function Offset(track: Track, frames: seq<Frame>, i: nat): int
    requires 1 <= i <= |frames|
  {
    if i == 1 then 0 else Offset(track, frames, i - 1) + Advance(Delta(track, frames, i - 1))
  }

  /** Frames at the same timestamp add nothing to the offset. */
  lemma {:induction false} OffsetAcrossBurst(track: Track, frames: seq<Frame>, i: nat, j: nat)
    requires 1 <= i < j <= |frames|
    requires forall k :: i <= k < j ==> frames[k].ts == frames[i].ts
    ensures Offset(track, frames, j) == Offset(track, frames, i) + Advance(Delta(track, frames, i))
    decreases j
  {
    if j > i + 1 {
      OffsetAcrossBurst(track, frames, i, j - 1);
      assert frames[j - 1].ts - frames[j - 2].ts == 0;
    }
  }

  /** The reference time never picks up the lateness of a send: after
      the first send it stands at the time of that send plus the nominal
      advances of the frames since, whenever each actually left. */
  lemma {:induction false} KeepsAnchor(track: Track, frames: seq<Frame>, c: Cursor, now: int)
    requires c.at <= |frames|
    ensures var m := Step(track, frames, c, now);
            && (c.at == 0 < |frames| ==> m.cursor.ref - Offset(track, frames, m.cursor.at) == now)
            && (c.at >= 1 ==> m.cursor.ref - Offset(track, frames, m.cursor.at) ==
                              c.ref - Offset(track, frames, c.at))
  {
    var m := Step(track, frames, c, now);
    if c.at == 0 < |frames| {
      if m.cursor.at > 1 {
        OffsetAcrossBurst(track, frames, 1, m.cursor.at);
        assert Delta(track, frames, 1) == 0 by {
          assert frames[1].ts == frames[0].ts;
        }
      }
    } else if c.at >= 1 && m.cursor.sent && m.cursor.at > c.at + 1 {
      OffsetAcrossBurst(track, frames, c.at, m.cursor.at);
    }
  }

  /** `sent` is the run of `frames` that starts at position `at`. */
  predicate RunOf(sent: seq<Frame>, frames: seq<Frame>, at: nat)
  {
    at + |sent| <= |frames| && forall k :: 0 <= k < |sent| ==> sent[k] == frames[at + k]
  }

  lemma {:induction false} RunOfJoin(a: seq<Frame>, b: seq<Frame>, frames: seq<Frame>, at: nat)
    requires RunOf(a, frames, at) && RunOf(b, frames, at + |a|)
    ensures RunOf(a + b, frames, at)
  {
    forall k | 0 <= k < |a + b| ensures (a + b)[k] == frames[at + k] {
      if k >= |a| {
        assert (a + b)[k] == b[k - |a|];
      }
    }
  }

  /** A run relays each track's frames once each, in list order, from
      where its cursor stood. */
  lemma {:induction false} SentInListOrder(audio: seq<Frame>, video: seq<Frame>, s: Play, ticks: seq<Tick>, track: Track)
    requires s.audio.at <= |audio| && s.video.at <= |video|
    ensures RunOf(Sent(PlayFrom(audio, video, s, ticks).passes, track), Of(audio, video, track), CursorOf(s, track).at)
  {
    RunInListOrder(audio, video, s, ticks, track, PlayFrom(audio, video, s, ticks));
  }

  /** `run` is the run from state `s` over `ticks`. */
  predicate RunFrom(run: Run, audio: seq<Frame>, video: seq<Frame>, s: Play, ticks: seq<Tick>)
    requires s.audio.at <= |audio| && s.video.at <= |video|
  {
    run == PlayFrom(audio, video, s, ticks)
  }

  /** SentInListOrder for a run given by name, so that the verifier
      unfolds the run one round at a time. */
  lemma {:induction false} RunInListOrder(audio: seq<Frame>, video: seq<Frame>, s: Play, ticks: seq<Tick>, track: Track,
                                          run: Run)
    requires s.audio.at <= |audio| && s.video.at <= |video|
    requires RunFrom(run, audio, video, s, ticks)
    ensures RunOf(Sent(run.passes, track), Of(audio, video, track), CursorOf(s, track).at)
    decreases |ticks|
  {
    if |ticks| > 0 && Continue(audio, video, s, ticks[0]) {
      var n := Round(audio, video, s, ticks[0]);
      RunCons(audio, video, s, ticks, run);
      var r := Run(run.outcome, run.passes[1..]);
      var frames, at := Of(audio, video, track), CursorOf(s, track).at;
      var here, later := SentIn(n.pass, track), Sent(r.passes, track);
      RoundSends(audio, video, s, ticks[0], track);
      RunInListOrder(audio, video, n.state, ticks[1..], track, r);
      SentCons(n.pass, r.passes, track);
      RunOfJoin(here, later, frames, at);
    }
  }

  /** A run that goes on past its first tick is that round's pass followed
      by the run from the round's state over the remaining ticks. */
  lemma {:induction false} RunCons(audio: seq<Frame>, video: seq<Frame>, s: Play, ticks: seq<Tick>, run: Run)
    requires s.audio.at <= |audio| && s.video.at <= |video|
    requires RunFrom(run, audio, video, s, ticks) && |ticks| > 0 && Continue(audio, video, s, ticks[0])
    ensures var n := Round(audio, video, s, ticks[0]);
            && |run.passes| > 0 && run.passes == [n.pass] + run.passes[1..]
            && RunFrom(Run(run.outcome, run.passes[1..]), audio, video, n.state, ticks[1..])
  {
  }

  lemma {:induction false} SentCons(p: Pass, passes: seq<Pass>, track: Track)
    ensures Sent([p] + passes, track) == SentIn(p, track) + Sent(passes, track)
  {
    assert ([p] + passes)[1..] == passes;
  }

  /** The final event: "stopped" only after a stop request; the ticks run
      out with the loop still going only if no pass saw a stop or a tear
      down; "ended" without a tear down means both lists were played to
      the end. */
  lemma {:induction false} OutcomeMeaning(audio: seq<Frame>, video: seq<Frame>, s: Play, ticks: seq<Tick>)
    requires s.audio.at <= |audio| && s.video.at <= |video|
    ensures var r := PlayFrom(audio, video, s, ticks);
            && (r.outcome == Stopped ==> exists k :: 0 <= k < |ticks| && ticks[k].stop)
            && (r.outcome == Running ==> forall k :: 0 <= k < |ticks| ==> !ticks[k].stop && !ticks[k].halted)
            && (r.outcome == Ended && (forall k :: 0 <= k < |ticks| ==> !ticks[k].halted) ==>
                  s.audio.at + |Sent(r.passes, Audio)| == |audio| &&
                  s.video.at + |Sent(r.passes, Video)| == |video|)
    ensures var r := PlayFrom(audio, video, s, ticks);
            && (r.outcome == Running <==> |r.passes| == |ticks|)
            && (r.outcome != Running ==>
                  |r.passes| < |ticks| && (r.outcome == Stopped <==> ticks[|r.passes|].stop))
  {
    var run := PlayFrom(audio, video, s, ticks);
    RunEnding(audio, video, s, ticks, run);
    RunStopped(audio, video, s, ticks, run);
    RunRunning(audio, video, s, ticks, run);
    RunEnded(audio, video, s, ticks, run);
  }

  /** A run still going has one pass per tick; otherwise the loop ended on
      the tick after its last pass, and the event is "stopped" exactly when
      that tick saw the stop request. */
  lemma {:induction false} RunEnding(audio: seq<Frame>, video: seq<Frame>, s: Play, ticks: seq<Tick>, run: Run)
    requires s.audio.at <= |audio| && s.video.at <= |video|
    requires RunFrom(run, audio, video, s, ticks)
    ensures run.outcome == Running <==> |run.passes| == |ticks|
    ensures run.outcome != Running ==>
              |run.passes| < |ticks| && (run.outcome == Stopped <==> ticks[|run.passes|].stop)
    decreases |ticks|
  {
    if |ticks| > 0 && Continue(audio, video, s, ticks[0]) {
      var n := Round(audio, video, s, ticks[0]);
      RunCons(audio, video, s, ticks, run);
      var r := Run(run.outcome, run.passes[1..]);
      RunEnding(audio, video, n.state, ticks[1..], r);
      if run.outcome != Running {
        assert ticks[1..][|r.passes|] == ticks[|run.passes|];
      }
    }
  }

  /** A run ends "stopped" only after a stop request. */
  lemma {:induction false} RunStopped(audio: seq<Frame>, video: seq<Frame>, s: Play, ticks: seq<Tick>, run: Run)
    requires s.audio.at <= |audio| && s.video.at <= |video|
    requires RunFrom(run, audio, video, s, ticks)
    ensures run.outcome == Stopped ==> exists k :: 0 <= k < |ticks| && ticks[k].stop
    decreases |ticks|
  {
    if |ticks| > 0 && Continue(audio, video, s, ticks[0]) {
      var n := Round(audio, video, s, ticks[0]);
      RunCons(audio, video, s, ticks, run);
      RunStopped(audio, video, n.state, ticks[1..], Run(run.outcome, run.passes[1..]));
      if run.outcome == Stopped {
        var k :| 0 <= k < |ticks[1..]| && ticks[1..][k].stop;
        assert ticks[k + 1].stop;
      }
    }
  }

  /** A run is still going when the ticks run out only if no tick saw a
      stop request or a tear down. */
  lemma {:induction false} RunRunning(audio: seq<Frame>, video: seq<Frame>, s: Play, ticks: seq<Tick>, run: Run)
    requires s.audio.at <= |audio| && s.video.at <= |video|
    requires RunFrom(run, audio, video, s, ticks)
    ensures run.outcome == Running ==> forall k :: 0 <= k < |ticks| ==> !ticks[k].stop && !ticks[k].halted
    decreases |ticks|
  {
    if |ticks| > 0 && Continue(audio, video, s, ticks[0]) {
      var n := Round(audio, video, s, ticks[0]);
      RunCons(audio, video, s, ticks, run);
      RunRunning(audio, video, n.state, ticks[1..], Run(run.outcome, run.passes[1..]));
      if run.outcome == Running {
        forall k | 0 <= k < |ticks| ensures !ticks[k].stop && !ticks[k].halted {
          if k > 0 {
            assert ticks[k] == ticks[1..][k - 1];
          }
        }
      }
    }
  }

  /** A run that ends without a tear down played both lists to the end. */
  lemma {:induction false} RunEnded(audio: seq<Frame>, video: seq<Frame>, s: Play, ticks: seq<Tick>, run: Run)
    requires s.audio.at <= |audio| && s.video.at <= |video|
    requires RunFrom(run, audio, video, s, ticks)
    ensures run.outcome == Ended && (forall k :: 0 <= k < |ticks| ==> !ticks[k].halted) ==>
              s.audio.at + |Sent(run.passes, Audio)| == |audio| &&
              s.video.at + |Sent(run.passes, Video)| == |video|
    decreases |ticks|
  {
    if |ticks| > 0 && Continue(audio, video, s, ticks[0]) {
      var n := Round(audio, video, s, ticks[0]);
      RunCons(audio, video, s, ticks, run);
      var r := Run(run.outcome, run.passes[1..]);
      RoundSends(audio, video, s, ticks[0], Audio);
      RoundSends(audio, video, s, ticks[0], Video);
      SentCons(n.pass, r.passes, Audio);
      SentCons(n.pass, r.passes, Video);
      RunEnded(audio, video, n.state, ticks[1..], r);
      if run.outcome == Ended && (forall k :: 0 <= k < |ticks| ==> !ticks[k].halted) {
        forall k | 0 <= k < |ticks[1..]| ensures !ticks[1..][k].halted {
          assert ticks[1..][k] == ticks[k + 1];
        }
      }
    }
  }

  lemma {:induction false} SliceGrow(frames: seq<Frame>, a: nat, b: nat)
    requires a <= b < |frames|
    ensures frames[a..b + 1] == frames[a..b] + [frames[b]]
    ensures a == b ==> frames[a..b + 1] == [frames[b]]
  {
  }

  /** The `while` of a video send: relays the node at list position `at`
      and every node after it with the same timestamp. */
  method Burst(store: seq<Frame>, next: seq<int>, prev: seq<int>, head: int, last: int, ghost order: seq<nat>,
               node: int, ghost at: nat)
    returns (node': int, ghost at': nat, sent: seq<Frame>)
    requires Linked(store, next, prev, head, last, order) && at < |order| && node == NodeAt(order, at)
    ensures at' == BurstEnd(Gather(store, order), at)
    ensures node' == NodeAt(order, at')
    ensures sent == Gather(store, order)[at..at']
  {
    ghost var frames := Gather(store, order);
    LinkedWalk(store, next, prev, head, last, order, at);
    var ts := store[node].ts;
    node', at', sent := node, at, [];
    while node' != -1 && store[node'].ts == ts
      invariant at <= at' <= BurstEnd(frames, at)
      invariant node' == NodeAt(order, at')
      invariant sent == frames[at..at']
      invariant ts == frames[at].ts
      decreases |frames| - at'
    {
      LinkedWalk(store, next, prev, head, last, order, at');
      SliceGrow(frames, at, at');
      sent := sent + [store[node']];
      node' := next[node'];
      at' := at' + 1;
    }
    if node' != -1 {
      LinkedWalk(store, next, prev, head, last, order, at');
    }
  }

  lemma {:induction false} StepWhenDue(track: Track, frames: seq<Frame>, c: Cursor, now: int)
    requires 0 < c.at < |frames| && Due(now - c.ref, Delta(track, frames, c.at))
    ensures var j := SpanEnd(track, frames, c.at);
            Step(track, frames, c, now) == Moved(Cursor(j, c.ref + Advance(Delta(track, frames, c.at)), true), frames[c.at..j])
  {
  }

  /** One track's branch of a pass over the list's links: `node` is the
      cursor and `c` the position and reference time it stands for. */
  method Branch(track: Track, store: seq<Frame>, next: seq<int>, prev: seq<int>, head: int, last: int,
                ghost order: seq<nat>, node: int, ghost c: Cursor, ref: int, now: int)
    returns (node': int, ref': int, moved: bool, sent: seq<Frame>, ghost at': nat)
    requires Linked(store, next, prev, head, last, order)
    requires c.at <= |order| && node == NodeAt(order, c.at) && ref == c.ref
    ensures Moved(Cursor(at', ref', moved), sent) == Step(track, Gather(store, order), c, now)
    ensures node' == NodeAt(order, at')
  {
    ghost var frames := Gather(store, order);
    if node == -1 {
      assert Step(track, frames, c, now) == Moved(Cursor(c.at, c.ref, false), []);
      return node, ref, false, [], c.at;
    }
    LinkedWalk(store, next, prev, head, last, order, c.at);
    if node == head {
      // The first frame: sent at once.
      node', at', sent := Send(track, store, next, prev, head, last, order, node, c.at);
      assert Step(track, frames, c, now) == Moved(Cursor(at', now, true), frames[c.at..at']);
      return node', now, true, sent, at';
    }
    LinkedWalk(store, next, prev, head, last, order, c.at - 1);
    var d := DeltaMicros(track, store[node].ts - store[prev[node]].ts);
    assert d == Delta(track, frames, c.at);
    var passed := now - ref;
    if passed < d - SlackMicros {
      // Not yet due.
      assert Step(track, frames, c, now) == Moved(Cursor(c.at, c.ref, false), []);
      return node, ref, false, [], c.at;
    }
    assert 0 < c.at < |frames| && Due(now - c.ref, Delta(track, frames, c.at));
    node', at', sent := Send(track, store, next, prev, head, last, order, node, c.at);
    StepWhenDue(track, frames, c, now);
    return node', ref + Advance(d), true, sent, at';
  }

  /** A send from the cursor: one audio frame, or the burst of video
      frames at the cursor's timestamp. */
  method Send(track: Track, store: seq<Frame>, next: seq<int>, prev: seq<int>, head: int, last: int,
              ghost order: seq<nat>, node: int, ghost at: nat)
    returns (node': int, ghost at': nat, sent: seq<Frame>)
    requires Linked(store, next, prev, head, last, order) && at < |order| && node == NodeAt(order, at)
    ensures at' == SpanEnd(track, Gather(store, order), at)
    ensures node' == NodeAt(order, at')
    ensures sent == Gather(store, order)[at..at']
  {
    if track == Audio {
      LinkedWalk(store, next, prev, head, last, order, at);
      SliceGrow(Gather(store, order), at, at);
      sent := [store[node]];
      node', at' := next[node], at + 1;
    } else {
      node', at', sent := Burst(store, next, prev, head, last, order, node, at);
    }
  }

  /** The pacing loop over the index lists (an empty list stands for a
      NULL one), one tick per pass; `start` is the clock when the thread
      starts. */
  method Playout(alist: FrameList, vlist: FrameList, start: int, ticks: seq<Tick>)
    returns (outcome: Outcome, passes: seq<Pass>)
    requires alist.Valid() && vlist.Valid()
    ensures Run(outcome, passes) == PlayFrom(alist.Contents(), vlist.Contents(), Start(start), ticks)
  {
    var aStore, aNext, aPrev, aHead, aLast := alist.store, alist.next, alist.prev, alist.head, alist.last;
    var vStore, vNext, vPrev, vHead, vLast := vlist.store, vlist.next, vlist.prev, vlist.head, vlist.last;
    ghost var aOrder, vOrder := alist.order, vlist.order;
    outcome, passes := Loop(aStore, aNext, aPrev, aHead, aLast, aOrder, vStore, vNext, vPrev, vHead, vLast, vOrder,
                            start, ticks);
  }

  lemma {:induction false} AppendPass(done: seq<Pass>, p: Pass, rest: seq<Pass>)
    ensures done + ([p] + rest) == (done + [p]) + rest
  {
  }

  /** The body of the loop, once it is known to go on: the nap, the audio
      branch, the video branch. */
  method OnePass(aStore: seq<Frame>, aNext: seq<int>, aPrev: seq<int>, aHead: int, aLast: int, ghost aOrder: seq<nat>,
                 vStore: seq<Frame>, vNext: seq<int>, vPrev: seq<int>, vHead: int, vLast: int, ghost vOrder: seq<nat>,
                 audio: int, video: int, aRef: int, vRef: int, aSent: bool, vSent: bool, ghost s: Play, t: Tick)
    returns (audio': int, video': int, aRef': int, vRef': int, aSent': bool, vSent': bool, pass: Pass, ghost s': Play)
    requires Linked(aStore, aNext, aPrev, aHead, aLast, aOrder)
    requires Linked(vStore, vNext, vPrev, vHead, vLast, vOrder)
    requires s.audio.at <= |aOrder| && s.video.at <= |vOrder|
    requires audio == NodeAt(aOrder, s.audio.at) && video == NodeAt(vOrder, s.video.at)
    requires s.audio == Cursor(s.audio.at, aRef, aSent) && s.video == Cursor(s.video.at, vRef, vSent)
    ensures Round(Gather(aStore, aOrder), Gather(vStore, vOrder), s, t) == Next(s', pass)
    ensures audio' == NodeAt(aOrder, s'.audio.at) && video' == NodeAt(vOrder, s'.video.at)
    ensures s'.audio == Cursor(s'.audio.at, aRef', aSent') && s'.video == Cursor(s'.video.at, vRef', vSent')
  {
    var nap := !aSent && !vSent;
    var aFrames, vFrames: seq<Frame>;
    ghost var a, v: nat;
    audio', aRef', aSent', aFrames, a := Branch(Audio, aStore, aNext, aPrev, aHead, aLast, aOrder, audio, s.audio, aRef, t.aNow);
    video', vRef', vSent', vFrames, v := Branch(Video, vStore, vNext, vPrev, vHead, vLast, vOrder, video, s.video, vRef, t.vNow);
    s' := Play(Cursor(a, aRef', aSent'), Cursor(v, vRef', vSent'));
    pass := Pass(nap, aFrames, vFrames);
  }

  /** The loop itself, on the two lists' links. */
  method Loop(aStore: seq<Frame>, aNext: seq<int>, aPrev: seq<int>, aHead: int, aLast: int, ghost aOrder: seq<nat>,
              vStore: seq<Frame>, vNext: seq<int>, vPrev: seq<int>, vHead: int, vLast: int, ghost vOrder: seq<nat>,
              start: int, ticks: seq<Tick>)
    returns (outcome: Outcome, passes: seq<Pass>)
    requires Linked(aStore, aNext, aPrev, aHead, aLast, aOrder)
    requires Linked(vStore, vNext, vPrev, vHead, vLast, vOrder)
    ensures Run(outcome, passes) == PlayFrom(Gather(aStore, aOrder), Gather(vStore, vOrder), Start(start), ticks)
  {
    ghost var A, V := Gather(aStore, aOrder), Gather(vStore, vOrder);
    var audio, video := aHead, vHead;
    var aRef, vRef := start, start;
    var aSent, vSent := false, false;
    ghost var s := Start(start);
    passes := [];
    var k := 0;
    while k < |ticks|
      invariant 0 <= k <= |ticks|
      invariant s.audio.at <= |A| && s.video.at <= |V|
      invariant audio == NodeAt(aOrder, s.audio.at) && video == NodeAt(vOrder, s.video.at)
      invariant s.audio == Cursor(s.audio.at, aRef, aSent) && s.video == Cursor(s.video.at, vRef, vSent)
      invariant PlayFrom(A, V, Start(start), ticks) ==
                Run(PlayFrom(A, V, s, ticks[k..]).outcome, passes + PlayFrom(A, V, s, ticks[k..]).passes)
    {
      var t := ticks[k];
      assert ticks[k..][0] == t && ticks[k..][1..] == ticks[k + 1..];
      if t.halted || t.stop || (audio == -1 && video == -1) {
        outcome := if t.stop then Stopped else Ended;
        assert passes + [] == passes;
        return;
      }
      var pass;
      ghost var s';
      audio, video, aRef, vRef, aSent, vSent, pass, s' :=
        OnePass(aStore, aNext, aPrev, aHead, aLast, aOrder, vStore, vNext, vPrev, vHead, vLast, vOrder,
                audio, video, aRef, vRef, aSent, vSent, s, t);
      ghost var r := PlayFrom(A, V, s', ticks[k + 1..]);
      assert PlayFrom(A, V, s, ticks[k..]) == Run(r.outcome, [pass] + r.passes);
      AppendPass(passes, pass, r.passes);
      passes := passes + [pass];
      s := s';
      k := k + 1;
    }
    outcome := Running;
    assert passes + [] == passes;
  }
}
