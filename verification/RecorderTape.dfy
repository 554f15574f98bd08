/**
 What a stereo recording is: the frames written so far, with silence told apart from sound, and the
 samples of the side that is ahead. One function per call; the conservation law over any run of calls.
 */
module RecorderTape {
  import opened Results

  type Sample = x: int | -0x8000 <= x < 0x8000

  const MAX_BUFFERED := 8000 * 30

  // One frame; None is silence written for a channel that had nothing to say.
  datatype Frame = Frame(down: Option<Sample>, up: Option<Sample>)

  datatype Tape = Tape(frames: seq<Frame>, down: seq<Sample>, up: seq<Sample>)

  const Blank := Tape([], [], [])

  function Min(a: nat, b: nat): nat { if a < b then a else b }

  function Max(a: nat, b: nat): nat { if a < b then b else a }

  function Zip(down: seq<Sample>, up: seq<Sample>): (frames: seq<Frame>)
    requires |down| == |up|
    ensures |frames| == |down|
  {
    seq(|down|, i requires 0 <= i < |down| => Frame(Some(down[i]), Some(up[i])))
  }

  function Alone(samples: seq<Sample>, downlink: bool): seq<Frame> {
    seq(|samples|, i requires 0 <= i < |samples| =>
      if downlink then Frame(Some(samples[i]), None) else Frame(None, Some(samples[i])))
  }

  // Every sample position both channels have reached.
  function Paired(t: Tape): Tape {
    var n := Min(|t.down|, |t.up|);
    Tape(t.frames + Zip(t.down[..n], t.up[..n]), t.down[n..], t.up[n..])
  }

  function Buffer(t: Tape, downlink: bool): seq<Sample> { if downlink then t.down else t.up }

  // The part of one side's buffer beyond the permitted lead, against silence.
  function Overflowed(t: Tape, downlink: bool): Tape {
    var buffer := Buffer(t, downlink);
    if |buffer| <= MAX_BUFFERED then t
    else
      var excess := |buffer| - MAX_BUFFERED;
      var frames := t.frames + Alone(buffer[..excess], downlink);
      if downlink then Tape(frames, t.down[excess..], t.up) else Tape(frames, t.down, t.up[excess..])
  }

  function Joined(t: Tape, samples: seq<Sample>, downlink: bool): Tape {
    if downlink then t.(down := t.down + samples) else t.(up := t.up + samples)
  }

  function Accept(t: Tape, samples: seq<Sample>, downlink: bool): Tape {
    if samples == [] then t else Overflowed(Paired(Joined(t, samples, downlink)), downlink)
  }

  // Closing pads the lagging side.
  function Padding(down: seq<Sample>, up: seq<Sample>): (frames: seq<Frame>)
    ensures |frames| == Max(|down|, |up|)
  {
    seq(Max(|down|, |up|), i requires 0 <= i < Max(|down|, |up|) =>
      Frame(if i < |down| then Some(down[i]) else None, if i < |up| then Some(up[i]) else None))
  }

  function Flushed(t: Tape): Tape { Tape(t.frames + Padding(t.down, t.up), [], []) }

  // ---- Channels -----------------------------------------------------------------------------

  function Channel(f: Frame, downlink: bool): Option<Sample> { if downlink then f.down else f.up }

  // What was really said on a channel, silence removed.
  function Heard(frames: seq<Frame>, downlink: bool): seq<Sample> {
    if frames == [] then []
    else
      var rest := Heard(frames[..|frames| - 1], downlink);
      match Channel(frames[|frames| - 1], downlink)
      case None => rest
      case Some(s) => rest + [s]
  }

  function Silence(frames: seq<Frame>, downlink: bool): nat {
    if frames == [] then 0
    else Silence(frames[..|frames| - 1], downlink) + (if Channel(frames[|frames| - 1], downlink).None? then 1 else 0)
  }

  lemma {:induction false} FramesAreHeardOrSilent(frames: seq<Frame>, downlink: bool)
    ensures |frames| == |Heard(frames, downlink)| + Silence(frames, downlink)
  {
    if frames != [] { FramesAreHeardOrSilent(frames[..|frames| - 1], downlink); }
  }

  lemma {:induction false} HeardAppends(front: seq<Frame>, back: seq<Frame>, downlink: bool)
    ensures Heard(front + back, downlink) == Heard(front, downlink) + Heard(back, downlink)
    ensures Silence(front + back, downlink) == Silence(front, downlink) + Silence(back, downlink)
  {
    if back == [] {
      assert front + back == front;
    } else {
      assert (front + back)[..|front + back| - 1] == front + back[..|back| - 1];
      HeardAppends(front, back[..|back| - 1], downlink);
    }
  }

  // Frames that carry exactly these samples on a channel.
  lemma {:induction false} HeardOf(frames: seq<Frame>, samples: seq<Sample>, downlink: bool)
    requires |samples| <= |frames|
    requires forall i | 0 <= i < |samples| :: Channel(frames[i], downlink) == Some(samples[i])
    requires forall i | |samples| <= i < |frames| :: Channel(frames[i], downlink).None?
    ensures Heard(frames, downlink) == samples && Silence(frames, downlink) == |frames| - |samples|
    decreases |frames|
  {
    if frames != [] {
      var front := frames[..|frames| - 1];
      if |samples| == |frames| {
        HeardOf(front, samples[..|samples| - 1], downlink);
      } else {
        HeardOf(front, samples, downlink);
      }
    }
  }

  // ---- Runs ---------------------------------------------------------------------------------

  datatype Call = Call(samples: seq<Sample>, downlink: bool)

  function Run(calls: seq<Call>): Tape {
    if calls == [] then Blank
    else
      var last := calls[|calls| - 1];
      Accept(Run(calls[..|calls| - 1]), last.samples, last.downlink)
  }

  // Everything a side has handed in.
  function Given(calls: seq<Call>, downlink: bool): seq<Sample> {
    if calls == [] then []
    else
      Given(calls[..|calls| - 1], downlink)
      + if calls[|calls| - 1].downlink == downlink then calls[|calls| - 1].samples else []
  }

  predicate Balanced(t: Tape, down: seq<Sample>, up: seq<Sample>) {
    && Heard(t.frames, true) + t.down == down && Heard(t.frames, false) + t.up == up
    && (t.down == [] || t.up == [])
    && |t.down| <= 240000 && |t.up| <= 240000
  }

  lemma PairedKeeps(t: Tape)
    ensures Heard(Paired(t).frames, true) + Paired(t).down == Heard(t.frames, true) + t.down
    ensures Heard(Paired(t).frames, false) + Paired(t).up == Heard(t.frames, false) + t.up
    ensures Paired(t).down == [] || Paired(t).up == []
    ensures |Paired(t).down| <= |t.down| && |Paired(t).up| <= |t.up|
    ensures Silence(Paired(t).frames, true) == Silence(t.frames, true)
    ensures Silence(Paired(t).frames, false) == Silence(t.frames, false)
  {
    hide Heard, Silence;
    var n := Min(|t.down|, |t.up|);
    var pairs := Zip(t.down[..n], t.up[..n]);
    HeardAppends(t.frames, pairs, true);
    HeardAppends(t.frames, pairs, false);
    HeardOf(pairs, t.down[..n], true);
    HeardOf(pairs, t.up[..n], false);
    Rejoined(Heard(t.frames, true), t.down, n);
    Rejoined(Heard(t.frames, false), t.up, n);
  }

  lemma Rejoined(before: seq<Sample>, samples: seq<Sample>, n: nat)
    requires n <= |samples|
    ensures (before + samples[..n]) + samples[n..] == before + samples
  {}

  lemma OverflowedKeeps(t: Tape, downlink: bool)
    ensures Heard(Overflowed(t, downlink).frames, true) + Overflowed(t, downlink).down == Heard(t.frames, true) + t.down
    ensures Heard(Overflowed(t, downlink).frames, false) + Overflowed(t, downlink).up == Heard(t.frames, false) + t.up
    ensures Silence(Overflowed(t, downlink).frames, !downlink)
            == Silence(t.frames, !downlink) + Max(|Buffer(t, downlink)|, MAX_BUFFERED) - MAX_BUFFERED
    ensures Silence(Overflowed(t, downlink).frames, downlink) == Silence(t.frames, downlink)
  {
    hide Heard, Silence;
    var buffer := Buffer(t, downlink);
    if |buffer| > MAX_BUFFERED {
      var excess := |buffer| - MAX_BUFFERED;
      var alone := Alone(buffer[..excess], downlink);
      HeardAppends(t.frames, alone, true);
      HeardAppends(t.frames, alone, false);
      HeardOf(alone, buffer[..excess], downlink);
      HeardOf(alone, [], !downlink);
      Rejoined(Heard(t.frames, downlink), buffer, excess);
    }
  }

  lemma AcceptBounds(t: Tape, samples: seq<Sample>, downlink: bool)
    requires samples != [] && (t.down == [] || t.up == []) && |t.down| <= MAX_BUFFERED && |t.up| <= MAX_BUFFERED
    ensures var after := Accept(t, samples, downlink);
      (after.down == [] || after.up == []) && |after.down| <= MAX_BUFFERED && |after.up| <= MAX_BUFFERED
  {}

  lemma AcceptKeeps(t: Tape, down: seq<Sample>, up: seq<Sample>, samples: seq<Sample>, downlink: bool)
    requires Balanced(t, down, up)
    ensures Balanced(Accept(t, samples, downlink), if downlink then down + samples else down,
                     if downlink then up else up + samples)
  {
    hide Heard, Silence, Paired, Overflowed;
    if samples == [] {
      assert down + [] == down && up + [] == up;
    } else {
      AcceptBounds(t, samples, downlink);
      var joined := Joined(t, samples, downlink);
      PairedKeeps(joined);
      OverflowedKeeps(Paired(joined), downlink);
    }
  }

  // Over every run of calls nothing is lost, reordered or invented: each channel, silence removed,
  // followed by its buffer, is what that side handed in; frames and buffer add up to the samples
  // accepted and the silence written; at most one side waits, and never beyond the permitted lead.
  lemma {:induction false} RunConserves(calls: seq<Call>)
    ensures Balanced(Run(calls), Given(calls, true), Given(calls, false))
    ensures |Run(calls).frames| + |Run(calls).down| == |Given(calls, true)| + Silence(Run(calls).frames, true)
    ensures |Run(calls).frames| + |Run(calls).up| == |Given(calls, false)| + Silence(Run(calls).frames, false)
    decreases |calls|
  {
    FramesAreHeardOrSilent(Run(calls).frames, true);
    FramesAreHeardOrSilent(Run(calls).frames, false);
    if calls != [] {
      var front, last := calls[..|calls| - 1], calls[|calls| - 1];
      RunConserves(front);
      AcceptKeeps(Run(front), Given(front, true), Given(front, false), last.samples, last.downlink);
      assert Given(front, true) + [] == Given(front, true) && Given(front, false) + [] == Given(front, false);
    }
  }

  // The side that is ahead after these calls, and by how much.
  function Lead(calls: seq<Call>): int { |Given(calls, true)| - |Given(calls, false)| }

  predicate WithinLead(calls: seq<Call>) {
    -240000 <= Lead(calls) <= 240000 && (calls == [] || WithinLead(calls[..|calls| - 1]))
  }

  predicate NoSilence(frames: seq<Frame>) { Silence(frames, true) == 0 == Silence(frames, false) }

  // One call writes silence exactly when it leaves its side further ahead than the permitted lead.
  lemma AcceptSilence(t: Tape, samples: seq<Sample>, downlink: bool)
    requires samples != []
    ensures var p := Paired(Joined(t, samples, downlink));
      NoSilence(Accept(t, samples, downlink).frames) <==> NoSilence(t.frames) && |Buffer(p, downlink)| <= 240000
  {
    hide Heard, Silence, Paired, Overflowed;
    var joined := Joined(t, samples, downlink);
    PairedKeeps(joined);
    OverflowedKeeps(Paired(joined), downlink);
  }

  // Without silence so far, the buffers after pairing are the lead.
  lemma PairedLead(t: Tape, down: seq<Sample>, up: seq<Sample>, samples: seq<Sample>, downlink: bool)
    requires Balanced(t, down, up) && NoSilence(t.frames)
    ensures var p := Paired(Joined(t, samples, downlink));
      && |p.down| - |p.up| == |down| - |up| + (if downlink then |samples| else -|samples|)
      && (p.down == [] || p.up == [])
      && |Buffer(p, !downlink)| <= 240000
  {
    hide Heard, Silence, Paired;
    FramesAreHeardOrSilent(t.frames, true);
    FramesAreHeardOrSilent(t.frames, false);
    var joined := Joined(t, samples, downlink);
    PairedKeeps(joined);
    FramesAreHeardOrSilent(Paired(joined).frames, true);
    FramesAreHeardOrSilent(Paired(joined).frames, false);
    assert |Heard(Paired(joined).frames, true)| == |Heard(Paired(joined).frames, false)|;
    assert |Heard(joined.frames, true) + joined.down| == |Heard(Paired(joined).frames, true)| + |Paired(joined).down|;
    assert |Heard(joined.frames, false) + joined.up| == |Heard(Paired(joined).frames, false)| + |Paired(joined).up|;
  }

  // Silence is written exactly when some side once got further ahead than the permitted lead.
  lemma {:induction false} SilenceIffLeadExceeded(calls: seq<Call>)
    ensures NoSilence(Run(calls).frames) <==> WithinLead(calls)
    decreases |calls|
  {
    if calls != [] {
      hide NoSilence, Accept, Balanced;
      var front, last := calls[..|calls| - 1], calls[|calls| - 1];
      SilenceIffLeadExceeded(front);
      RunConserves(front);
      if last.samples == [] {
        NothingAccepted(Run(front), last.downlink);
      } else {
        AcceptSilence(Run(front), last.samples, last.downlink);
        if NoSilence(Run(front).frames) {
          PairedLead(Run(front), Given(front, true), Given(front, false), last.samples, last.downlink);
        }
      }
    }
  }

  lemma NothingAccepted(t: Tape, downlink: bool)
    ensures Accept(t, [], downlink) == t
  {}

  lemma {:induction false} HeardIsTrack(frames: seq<Frame>, downlink: bool)
    requires Silence(frames, downlink) == 0
    ensures |Heard(frames, downlink)| == |frames|
    ensures forall i | 0 <= i < |frames| :: Channel(frames[i], downlink) == Some(Heard(frames, downlink)[i])
    decreases |frames|
  {
    if frames != [] { HeardIsTrack(frames[..|frames| - 1], downlink); }
  }

  // Within the lead, frame n holds sample n of both sides.
  lemma FramesPairByPosition(calls: seq<Call>, n: nat)
    requires WithinLead(calls) && n < |Run(calls).frames|
    ensures n < |Given(calls, true)| && n < |Given(calls, false)|
    ensures Run(calls).frames[n] == Frame(Some(Given(calls, true)[n]), Some(Given(calls, false)[n]))
  {
    var t := Run(calls);
    SilenceIffLeadExceeded(calls);
    RunConserves(calls);
    HeardIsTrack(t.frames, true);
    HeardIsTrack(t.frames, false);
    assert Given(calls, true)[n] == Heard(t.frames, true)[n];
    assert Given(calls, false)[n] == Heard(t.frames, false)[n];
  }

  // A closed recording holds everything both sides handed in.
  lemma FlushedIsComplete(calls: seq<Call>)
    ensures Heard(Flushed(Run(calls)).frames, true) == Given(calls, true)
    ensures Heard(Flushed(Run(calls)).frames, false) == Given(calls, false)
    ensures |Flushed(Run(calls)).frames| == |Run(calls).frames| + |Run(calls).down| + |Run(calls).up|
  {
    var t := Run(calls);
    RunConserves(calls);
    var padding := Padding(t.down, t.up);
    HeardAppends(t.frames, padding, true);
    HeardAppends(t.frames, padding, false);
    HeardOf(padding, t.down, true);
    HeardOf(padding, t.up, false);
  }
}
