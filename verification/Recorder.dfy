/**
 The stereo WAV recorder: two buffers and a file, updated in place. While no write fails, every call
 does to them what RecorderTape says; after a failure the recorder keeps nothing more.
 */
module Recorder {
  import opened Results
  import opened Bytes
  import opened RecorderTape

  // ---- The file's octets ----------------------------------------------------------------------

  // Little-endian, two's complement.
  function LE16(value: int): Octets { [value % 0x100, value / 0x100 % 0x100] }

  function LE32(value: int): (octets: Octets)
    ensures |octets| == 4
  {
    [value % 0x100, value / 0x100 % 0x100, value / 0x1_0000 % 0x100, value / 0x100_0000 % 0x100]
  }

  function Signed16(low: Byte, high: Byte): Sample {
    var n := low + 0x100 * high;
    if n < 0x8000 then n else n - 0x1_0000
  }

  function Read32(image: Octets, at: nat): nat
    requires at + 4 <= |image|
  {
    var b0: int, b1: int, b2: int, b3: int := image[at], image[at + 1], image[at + 2], image[at + 3];
    b0 + 0x100 * b1 + 0x1_0000 * b2 + 0x100_0000 * b3
  }

  function Level(s: Option<Sample>): Sample { match s case None => 0 case Some(x) => x }

  function FrameOctets(f: Frame): Octets { LE16(Level(f.down)) + LE16(Level(f.up)) }

  function Image(frames: seq<Frame>): Octets {
    if frames == [] then [] else Image(frames[..|frames| - 1]) + FrameOctets(frames[|frames| - 1])
  }

  const HEADER_SIZE := 44

  const RIFF: Octets := [0x52, 0x49, 0x46, 0x46]

  // WAVE, 8 kHz, two channels of 16 bits, data.
  function Format(): Octets {
    [0x57, 0x41, 0x56, 0x45] + [0x66, 0x6D, 0x74, 0x20] + LE32(16) + LE16(1) + LE16(2) + LE32(8000)
    + LE32(8000 * 2 * 2) + LE16(4) + LE16(16) + [0x64, 0x61, 0x74, 0x61]
  }

  // The two sizes are patched when the file is closed.
  function Header(riff: int, data: int): (header: Octets)
    ensures |header| == HEADER_SIZE
  {
    RIFF + LE32(riff) + Format() + LE32(data)
  }

  // A finished recording of these frames.
  function Finished(frames: seq<Frame>): Octets {
    Header(HEADER_SIZE - 8 + 4 * |frames|, 4 * |frames|) + Image(frames)
  }

  /** The placeholder header: RIFF, WAVE, fmt, PCM, two channels, 8000 frames a second of four octets, data. */
  lemma HeaderOctets()
    ensures Header(0, 0) == [0x52, 0x49, 0x46, 0x46] + [0, 0, 0, 0] + [
      0x57, 0x41, 0x56, 0x45, 0x66, 0x6D, 0x74, 0x20, 16, 0, 0, 0, 1, 0, 2, 0,
      0x40, 0x1F, 0, 0, 0x00, 0x7D, 0, 0, 4, 0, 16, 0, 0x64, 0x61, 0x74, 0x61] + [0, 0, 0, 0]
  {
    hide Format, LE32;
    FormatOctets();
    ZeroOctets();
  }

  lemma ZeroOctets()
    ensures LE32(0) == [0, 0, 0, 0]
  {
    assert |LE32(0)| == 4;
  }

  lemma FormatOctets()
    ensures Format() == [
      0x57, 0x41, 0x56, 0x45, 0x66, 0x6D, 0x74, 0x20, 16, 0, 0, 0, 1, 0, 2, 0,
      0x40, 0x1F, 0, 0, 0x00, 0x7D, 0, 0, 4, 0, 16, 0, 0x64, 0x61, 0x74, 0x61]
  {
    assert LE32(16) == [16, 0, 0, 0] && LE32(8000) == [0x40, 0x1F, 0, 0] && LE32(32000) == [0x00, 0x7D, 0, 0];
    assert LE16(1) == [1, 0] && LE16(2) == [2, 0] && LE16(4) == [4, 0] && LE16(16) == [16, 0];
    hide LE32, LE16;
  }

  lemma FourOctets(value: nat)
    ensures value % 0x1_0000_0000 == value % 0x100 + 0x100 * (value / 0x100 % 0x100)
              + 0x1_0000 * (value / 0x1_0000 % 0x100) + 0x100_0000 * (value / 0x100_0000 % 0x100)
  {
    var r1 := value / 0x100;
    var r2 := r1 / 0x100;
    var r3 := r2 / 0x100;
    var r4 := r3 / 0x100;
    assert value == 0x100 * r1 + value % 0x100 && r1 == 0x100 * r2 + r1 % 0x100;
    assert r2 == 0x100 * r3 + r2 % 0x100 && r3 == 0x100 * r4 + r3 % 0x100;
    assert value / 0x1_0000 == r2 && value / 0x100_0000 == r3;
  }

  lemma LE32RoundTrip(value: nat)
    ensures Read32(LE32(value), 0) == value % 0x1_0000_0000
  {
    FourOctets(value);
  }

  lemma HeaderSizes(riff: nat, data: nat, rest: Octets)
    ensures var image := Header(riff, data) + rest;
      && Read32(image, 4) == riff % 0x1_0000_0000 && Read32(image, 40) == data % 0x1_0000_0000
  {
    LE32RoundTrip(riff);
    LE32RoundTrip(data);
    var image := Header(riff, data) + rest;
    assert image[4..8] == LE32(riff) && image[40..44] == LE32(data);
  }

  // The sizes in a finished file count its octets exactly while they fit in 32 bits.
  lemma SizesFitIff(frames: seq<Frame>)
    ensures |Finished(frames)| == 44 + 4 * |frames|
    ensures Read32(Finished(frames), 40) == 4 * |frames| <==> 4 * |frames| < 0x1_0000_0000
    ensures Read32(Finished(frames), 4) == |Finished(frames)| - 8 <==> 36 + 4 * |frames| < 0x1_0000_0000
  {
    hide Image, Header;
    HeaderSizes(HEADER_SIZE - 8 + 4 * |frames|, 4 * |frames|, Image(frames));
    ImageSize(frames);
  }

  lemma {:induction false} ImageSize(frames: seq<Frame>)
    ensures |Image(frames)| == 4 * |frames|
  {
    if frames != [] { ImageSize(frames[..|frames| - 1]); }
  }

  lemma SampleRoundTrip(s: Sample)
    ensures Signed16(LE16(s)[0], LE16(s)[1]) == s
  {
    assert s == 0x100 * (s / 0x100) + s % 0x100;
  }

  // The frame whose octets start at `at`.
  function FrameAt(image: Octets, at: nat): (Sample, Sample)
    requires at + 4 <= |image|
  {
    (Signed16(image[at], image[at + 1]), Signed16(image[at + 2], image[at + 3]))
  }

  lemma FrameRoundTrip(f: Frame, image: Octets, at: nat)
    requires at + 4 <= |image| && image[at..at + 4] == FrameOctets(f)
    ensures FrameAt(image, at) == (Level(f.down), Level(f.up))
  {
    var octets := image[at..at + 4];
    assert octets[0] == image[at] && octets[1] == image[at + 1];
    assert octets[2] == image[at + 2] && octets[3] == image[at + 3];
    SampleRoundTrip(Level(f.down));
    SampleRoundTrip(Level(f.up));
  }

  lemma {:induction false} FrameOctetsAt(frames: seq<Frame>, n: nat)
    requires n < |frames|
    ensures 4 * n + 4 <= |Image(frames)| && Image(frames)[4 * n..4 * n + 4] == FrameOctets(frames[n])
    decreases |frames|
  {
    hide FrameOctets, Image;
    var front := frames[..|frames| - 1];
    ImageSize(front);
    ImageSize(frames);
    ImageLast(frames);
    if n < |frames| - 1 {
      FrameOctetsAt(front, n);
      assert Image(frames)[4 * n..4 * n + 4] == Image(front)[4 * n..4 * n + 4];
    }
  }

  lemma ImageLast(frames: seq<Frame>)
    requires frames != []
    ensures Image(frames) == Image(frames[..|frames| - 1]) + FrameOctets(frames[|frames| - 1])
  {}

  // Reading frame n back from the file gives the samples it was written for, silence as zero.
  lemma ImageReadBack(frames: seq<Frame>, n: nat)
    requires n < |frames|
    ensures 4 * n + 4 <= |Image(frames)|
    ensures FrameAt(Image(frames), 4 * n) == (Level(frames[n].down), Level(frames[n].up))
  {
    hide Image, FrameOctets, Level, FrameAt;
    FrameOctetsAt(frames, n);
    FrameRoundTrip(frames[n], Image(frames), 4 * n);
  }

  lemma {:induction false} ImageAppends(front: seq<Frame>, back: seq<Frame>)
    ensures Image(front + back) == Image(front) + Image(back)
  {
    if back == [] {
      assert front + back == front;
    } else {
      assert (front + back)[..|front + back| - 1] == front + back[..|back| - 1];
      ImageAppends(front, back[..|back| - 1]);
    }
  }

  // ---- The recorder -----------------------------------------------------------------------------

  class Recorder {
    var open: bool           // the file handle is present
    var closed: bool
    var image: Octets        // the file's contents
    var frames: nat
    var downBuf: seq<Sample>
    var upBuf: seq<Sample>
    ghost var written: seq<Frame>

    ghost function View(): Tape
      reads this
    {
      Tape(written, downBuf, upBuf)
    }

    // While the file is good its contents are the frames written so far.
    ghost predicate Valid()
      reads this
    {
      open && !closed ==> frames == |written| && image == Header(0, 0) + Image(written)
    }

    constructor ()
      ensures Valid() && open && !closed && View() == Blank
    {
      open, closed, frames, downBuf, upBuf, written := true, false, 0, [], [], [];
      image := Header(0, 0);
    }

    // A write at the end of the file; a failing one may leave a part behind. Nothing fails on a `healthy` disk.
    method WriteFile(octets: Octets, healthy: bool) returns (ok: bool)
      modifies this`image
      ensures ok ==> image == old(image) + octets
      ensures healthy ==> ok
    {
      ok := *;
      ok := ok || healthy;
      if ok {
        image := image + octets;
      } else {
        var part: nat := *;
        if 0 <= part <= |octets| { image := image + octets[..part]; }
      }
    }

    // pairLocked: writes every sample position both channels have reached.
    method PairLocked(healthy: bool)
      requires Valid() && open && !closed
      modifies this
      ensures Valid() && !closed
      ensures open ==> View() == Paired(old(View()))
      ensures healthy ==> open
    {
      hide Image, Header, Paired, Zip;
      while downBuf != [] && upBuf != []
        invariant Valid() && open && !closed && Paired(View()) == Paired(old(View()))
        decreases |downBuf| + |upBuf|
      {
        var count := if |upBuf| < |downBuf| then |upBuf| else |downBuf|;
        ghost var pairs := Zip(downBuf[..count], upBuf[..count]);
        var frame := InterleaveOctets(downBuf[..count], upBuf[..count]);
        var ok := WriteFile(frame, healthy);
        if !ok {
          open := false;
          return;
        }
        ImageAppends(written, pairs);
        PairedOnce(View(), count);
        written := written + pairs;
        frames := frames + count;
        downBuf, upBuf := downBuf[count..], upBuf[count..];
      }
      PairedDone(View());
    }

    // writeLocked: one channel, with silence on the other.
    method WriteLocked(samples: seq<Sample>, downlink: bool, healthy: bool)
      requires Valid() && !closed
      modifies this`image, this`open, this`frames, this`written
      ensures Valid()
      ensures open ==> old(open) && written == old(written) + Alone(samples, downlink)
      ensures healthy ==> open == old(open)
      ensures !old(open) ==> image == old(image) && !open
    {
      if !open || samples == [] {
        assert open ==> written + Alone(samples, downlink) == written;
        return;
      }
      ghost var alone := Alone(samples, downlink);
      var frame := AloneOctets(samples, downlink);
      var ok := WriteFile(frame, healthy);
      if !ok {
        open := false;
        return;
      }
      ImageAppends(written, alone);
      written := written + alone;
      frames := frames + |samples|;
    }

    // WriteDownlink and WriteUplink: join, pair, and write what is beyond the permitted lead.
    method Append(samples: seq<Sample>, downlink: bool, healthy: bool)
      requires Valid()
      modifies this
      ensures Valid() && closed == old(closed)
      ensures closed || !old(open) ==> open == old(open) && image == old(image) && View() == old(View())
      ensures open && !closed ==> View() == Accept(old(View()), samples, downlink)
      ensures healthy ==> open == old(open)
    {
      hide Header, Image, Paired;
      if closed || !open || samples == [] { return; }
      if downlink { downBuf := downBuf + samples; } else { upBuf := upBuf + samples; }
      PairLocked(healthy);
      var excess := (if downlink then |downBuf| else |upBuf|) - MAX_BUFFERED;
      if excess > 0 {
        if downlink {
          WriteLocked(downBuf[..excess], true, healthy);
          downBuf := downBuf[excess..];
        } else {
          WriteLocked(upBuf[..excess], false, healthy);
          upBuf := upBuf[excess..];
        }
      }
    }

    // The first half of Close: the buffered samples, the lagging side padded.
    method Flush(healthy: bool) returns (ok: bool)
      requires Valid() && open && !closed
      modifies this`image, this`frames
      ensures var final := Flushed(View()).frames;
        ok ==> image == Header(0, 0) + Image(final) && frames == |final|
      ensures healthy ==> ok
    {
      hide Header, Image, Padding;
      var padding := PaddingOctets(downBuf, upBuf);
      var count := if |upBuf| > |downBuf| then |upBuf| else |downBuf|;
      ImageAppends(written, Padding(downBuf, upBuf));
      if count > 0 {
        ok := WriteFile(padding, healthy);
        if !ok { return; }
        frames := frames + count;
      } else {
        assert written + Padding(downBuf, upBuf) == written;
        ok := true;
      }
    }

    // The second half: the two sizes, as 32-bit values.
    method PatchSizes(ghost body: Octets, healthy: bool) returns (ok: bool)
      requires image == Header(0, 0) + body
      modifies this`image
      ensures ok ==> image == Header(HEADER_SIZE - 8 + 4 * frames, 4 * frames) + body
      ensures healthy ==> ok
    {
      hide Header, LE32;
      var data := frames * 4;
      PatchedHeader(body, HEADER_SIZE - 8 + data, data);
      ok := PatchFile(4, LE32(HEADER_SIZE - 8 + data), healthy);
      if !ok { return; }
      ok := PatchFile(40, LE32(data), healthy);
    }

    // Close pads the lagging side, patches the sizes, and reports any failure.
    method Close(healthy: bool) returns (ok: bool)
      requires Valid()
      modifies this
      ensures closed
      ensures old(closed) ==> ok && image == old(image)
      ensures !old(closed) && !old(open) ==> !ok
      ensures !old(closed) && ok ==> image == Finished(Flushed(old(View())).frames)
      ensures !old(closed) && old(open) && healthy ==> ok
    {
      if closed { return true; }
      if !open {
        closed := true;
        return false;
      }
      hide Header, Image;
      ghost var final := Flushed(View()).frames;
      ok := Flush(healthy);
      closed := true;
      if !ok { return; }
      ok := PatchSizes(Image(final), healthy);
      if !ok { return; }
      ok := *;
      ok := ok || healthy;
    }

    method PatchFile(at: nat, octets: Octets, healthy: bool) returns (ok: bool)
      requires at + |octets| <= |image|
      modifies this`image
      ensures |image| == |old(image)|
      ensures ok ==> image == old(image)[..at] + octets + old(image)[at + |octets|..]
      ensures healthy ==> ok
    {
      ok := *;
      ok := ok || healthy;
      if ok { image := image[..at] + octets + image[at + |octets|..]; }
    }
  }

  // The two patches, one after the other, make the placeholder header the final one.
  lemma PatchedHeader(body: Octets, riff: int, data: int)
    ensures var image := Header(0, 0) + body;
      var first := image[..4] + LE32(riff) + image[8..];
      |first| >= HEADER_SIZE && first[..40] + LE32(data) + first[44..] == Header(riff, data) + body
  {
    var image := Header(0, 0) + body;
    var first := image[..4] + LE32(riff) + image[8..];
    assert |Format()| == 32;
    hide LE32, Format;
    assert first == (RIFF + LE32(riff) + Format()) + LE32(0) + body;
    assert |RIFF + LE32(riff) + Format()| == 40;
  }

  lemma PairedOnce(t: Tape, count: nat)
    requires count == Min(|t.down|, |t.up|)
    ensures Paired(Tape(t.frames + Zip(t.down[..count], t.up[..count]), t.down[count..], t.up[count..])) == Paired(t)
  {
    var next := Paired(t);
    assert Min(|next.down|, |next.up|) == 0;
    assert next.frames + Zip([], []) == next.frames;
  }

  lemma PairedDone(t: Tape)
    requires t.down == [] || t.up == []
    ensures Paired(t) == t
  {
    assert t.frames + Zip([], []) == t.frames;
  }

  // The three loops that lay frames out in a buffer.
  method InterleaveOctets(down: seq<Sample>, up: seq<Sample>) returns (frame: Octets)
    requires |down| == |up|
    ensures frame == Image(Zip(down, up))
  {
    frame := [];
    ghost var all := Zip(down, up);
    var index := 0;
    while index < |down|
      invariant 0 <= index <= |down| && frame == Image(all[..index])
    {
      ImageGrows(all, index);
      frame := frame + LE16(down[index]) + LE16(up[index]);
      index := index + 1;
    }
    assert all[..index] == all;
  }

  method AloneOctets(samples: seq<Sample>, downlink: bool) returns (frame: Octets)
    ensures frame == Image(Alone(samples, downlink))
  {
    frame := [];
    ghost var all := Alone(samples, downlink);
    var index := 0;
    while index < |samples|
      invariant 0 <= index <= |samples| && frame == Image(all[..index])
    {
      ImageGrows(all, index);
      frame := frame + if downlink then LE16(samples[index]) + LE16(0) else LE16(0) + LE16(samples[index]);
      index := index + 1;
    }
    assert all[..index] == all;
  }

  method PaddingOctets(down: seq<Sample>, up: seq<Sample>) returns (frame: Octets)
    ensures frame == Image(Padding(down, up))
  {
    frame := [];
    ghost var all := Padding(down, up);
    var count := if |up| > |down| then |up| else |down|;
    var index := 0;
    while index < count
      invariant 0 <= index <= count && frame == Image(all[..index])
    {
      ImageGrows(all, index);
      var left := if index < |down| then LE16(down[index]) else LE16(0);
      var right := if index < |up| then LE16(up[index]) else LE16(0);
      frame := frame + left + right;
      index := index + 1;
    }
    assert all[..index] == all;
  }

  lemma ImageGrows(frames: seq<Frame>, n: nat)
    requires n < |frames|
    ensures Image(frames[..n + 1]) == Image(frames[..n]) + (LE16(Level(frames[n].down)) + LE16(Level(frames[n].up)))
  {
    assert frames[..n + 1][..n] == frames[..n];
  }
}
