/** Frames out of the bytes a decoder writes to a pipe, however the pipe splits them
    (crates/ffmpeg/src/decode.rs:14-91). */
module Decodes {
  import opened Wrappers
  import opened Paths
  import opened Bytes

  /** A sample's 32 bits, which its four bytes give least first. */
  type Sample = int

  function SampleOf(bytes: seq<Byte>): Sample
    requires |bytes| >= 4
  {
    var (a: int, b: int, c: int, d: int) := (bytes[0], bytes[1], bytes[2], bytes[3]);
    a + 256 * (b + 256 * (c + 256 * d))
  }

  /** The whole samples of `bytes`. */
  function Samples(bytes: seq<Byte>): seq<Sample> {
    if |bytes| < 4 then [] else [SampleOf(bytes)] + Samples(bytes[4..])
  }

  /** Samples as a decoder writes them. */
  function Written(samples: seq<Sample>): seq<Byte>
    requires forall i :: 0 <= i < |samples| ==> 0 <= samples[i] < Limit(4)
  {
    if samples == [] then [] else Little(samples[0], 4) + Written(samples[1..])
  }

  /** Reading gives back what was written. */
  lemma {:induction false} SamplesWritten(samples: seq<Sample>)
    requires forall i :: 0 <= i < |samples| ==> 0 <= samples[i] < Limit(4)
    ensures Samples(Written(samples)) == samples
  {
    if samples != [] {
      SamplesWritten(samples[1..]);
      var bytes := Little(samples[0], 4);
      assert Written(samples) == bytes + Written(samples[1..]);
      SamplesOfBoth(bytes, Written(samples[1..]));
      NumberOfLittle(samples[0], 4);
      SampleIsNumber(bytes);
      assert samples == [samples[0]] + samples[1..];
    }
  }

  lemma SampleIsNumber(bytes: seq<Byte>)
    requires |bytes| == 4
    ensures SampleOf(bytes) == Number(bytes) && Samples(bytes) == [Number(bytes)]
  {
    var (b, c, d) := (bytes[1..], bytes[2..], bytes[3..]);
    assert b[1..] == c && c[1..] == d && d[1..] == [];
    assert Number(d) == d[0] && Number(c) == c[0] + 256 * Number(d) && Number(b) == b[0] + 256 * Number(c);
    assert Samples(bytes) == [SampleOf(bytes)] + Samples(bytes[4..]);
  }

  lemma {:induction false} SamplesOfBoth(a: seq<Byte>, b: seq<Byte>)
    requires |a| % 4 == 0
    ensures Samples(a + b) == Samples(a) + Samples(b) && |Samples(a)| == |a| / 4
  {
    if a == [] {
      assert a + b == b;
    } else {
      assert (a + b)[4..] == a[4..] + b;
      SamplesOfBoth(a[4..], b);
    }
  }

  // ---- Whole frames ----

  function Times(n: nat, size: nat): nat {
    n * size
  }

  lemma TimesBoth(m: nat, n: nat, size: nat)
    ensures Times(m + n, size) == Times(m, size) + Times(n, size)
    ensures Times(1, size) == size && Times(0, size) == 0
  {
  }

  lemma TimesFour(n: nat, channels: nat)
    ensures Times(n, 4 * channels) == 4 * Times(n, channels)
  {
  }

  lemma TimesGrow(m: nat, n: nat, size: nat)
    requires m <= n
    ensures Times(m, size) <= Times(n, size)
  {
    TimesBoth(m, n - m, size);
  }

  /** The whole parts of a size in `bytes`: all but less than one. */
  function WholeIn(bytes: nat, size: nat): (n: nat)
    requires size > 0
  {
    bytes / size
  }

  lemma WholeParts(bytes: nat, size: nat)
    requires size > 0
    ensures Times(WholeIn(bytes, size), size) <= bytes < Times(WholeIn(bytes, size), size) + size
  {
    assert bytes == size * (bytes / size) + bytes % size;
  }

  lemma WholeOnly(bytes: nat, size: nat, n: nat)
    requires size > 0 && Times(n, size) <= bytes < Times(n, size) + size
    ensures WholeIn(bytes, size) == n
  {
    WholeParts(bytes, size);
    var m := WholeIn(bytes, size);
    if m < n {
      TimesGrow(m + 1, n, size);
      TimesBoth(m, 1, size);
    } else if n < m {
      TimesGrow(n + 1, m, size);
      TimesBoth(n, 1, size);
    }
  }

  /** What one read of the pipe gives. */
  datatype Read = Got(n: nat) | Interrupted | Fails

  /** A decoder's output, which a read hands over in any parts, and how it ends. */
  class Child {
    const stream: seq<Byte>
    const fails: bool
    var read: nat
    /** How often a read will yet be interrupted. */
    var interruptions: nat
    var finished: bool
    /** How many reads failed. */
    ghost var failures: nat

    ghost predicate Valid()
      reads this
    {
      read <= |stream|
    }

    method ReadInto(buf: array<Byte>, start: nat, end: nat) returns (r: Read)
      requires Valid() && start < end <= buf.Length
      modifies this`read, this`interruptions, this`failures, buf
      ensures Valid()
      ensures forall i :: 0 <= i < start || end <= i < buf.Length ==> buf[i] == old(buf[i])
      ensures r.Got? ==> r.n <= end - start && read == old(read) + r.n && buf[start..start + r.n] == stream[old(read)..read]
      ensures r.Got? ==> (r.n == 0 <==> old(read) == |stream|)
      ensures !r.Got? ==> read == old(read)
      ensures failures == old(failures) + if r.Fails? then 1 else 0
      ensures if r.Interrupted? then interruptions < old(interruptions) else interruptions == old(interruptions)
    {
      var interrupts: bool, errs: bool := *, *;
      if interrupts && interruptions > 0 {
        interruptions := interruptions - 1;
        return Interrupted;
      }
      if errs {
        failures := failures + 1;
        return Fails;
      }
      var n: nat :| n <= end - start && n <= |stream| - read && (n == 0 <==> read == |stream|);
      for i := 0 to n
        invariant read == old(read) && interruptions == old(interruptions) && failures == old(failures)
        invariant forall j :: 0 <= j < start || end <= j < buf.Length ==> buf[j] == old(buf[j])
        invariant buf[start..start + i] == stream[read..read + i]
      {
        buf[start + i] := stream[read + i];
      }
      read := read + n;
      r := Got(n);
    }

    /** Reaps the child at the end of its output: whether it ended well. */
    method Finish() returns (ok: bool)
      modifies this`finished
      ensures finished && ok == !fails
    {
      finished := true;
      ok := !fails;
    }
  }

  datatype Error = Io | Ended

  class PcmStream {
    const child: Child
    const channels: nat
    var buf: array<Byte>
    var held: nat
    /** Everything returned so far, in how many frames, and the bytes it came from. */
    ghost var returned: seq<Sample>
    ghost var count: nat
    ghost var taken: nat

    const frameBytes: nat := 4 * channels

    /** What has been returned is of the stream's first whole frames, and what is held follows. */
    ghost predicate Follows()
      reads this, child, buf
    {
      && child.Valid() && channels > 0
      && taken + held == child.read && taken == Times(count, frameBytes) && held <= buf.Length
      && buf[..held] == child.stream[taken..child.read]
      && returned == Samples(child.stream[..taken])
    }

    /** And so less than a frame is held. */
    ghost predicate Valid()
      reads this, child, buf
    {
      Follows() && held < frameBytes && (child.finished ==> child.read == |child.stream|)
    }

    constructor (child: Child, channels: nat)
      requires child.Valid() && child.read == 0 && !child.finished && channels > 0
      ensures Valid() && this.child == child && this.channels == channels && returned == []
    {
      this.child, this.channels := child, channels;
      buf, held := new Byte[0], 0;
      returned, count, taken := [], 0, 0;
    }

    /** Makes room to read up to `end`. */
    method Resize(end: nat)
      requires Valid()
      modifies this`buf
      ensures Valid() && end <= buf.Length && (buf == old(buf) || fresh(buf))
    {
      if buf.Length < end {
        var larger := new Byte[end](i requires 0 <= i < end reads this, buf => if i < buf.Length then buf[i] else 0);
        assert larger[..held] == buf[..held];
        buf := larger;
      }
    }

    /** Reads until a frame is held. The stream may end first, or a read fail. */
    method Fill(end: nat) returns (r: Option<Read>)
      requires Valid() && !child.finished && held + frameBytes <= end <= buf.Length
      modifies this`held, child`read, child`interruptions, child`failures, buf
      ensures Follows() && held <= end
      ensures r.None? ==> held >= frameBytes
      ensures child.failures == old(child.failures) + if r == Some(Fails) then 1 else 0
      ensures r.Some? ==> held < frameBytes && (r.value.Fails? || (r.value == Got(0) && child.read == |child.stream|))
    {
      hide Samples, Times;
      while held < frameBytes
        invariant Follows() && held <= end && end <= buf.Length
        invariant child.failures == old(child.failures)
        decreases frameBytes - held, child.interruptions
      {
        ghost var (was, at) := (buf[..held], child.read);
        var read := child.ReadInto(buf, held, end);
        if read.Fails? || read == Got(0) {
          assert buf[..held] == was;
          return Some(read);
        }
        if read.Got? {
          assert buf[..held + read.n] == was + buf[held..held + read.n];
          Adjoin(child.stream, taken, at, child.read);
          held := held + read.n;
        } else {
          assert buf[..held] == was;
        }
      }
      r := None;
    }

    /** The samples of the first `whole` bytes held. */
    method Collect(whole: nat) returns (out: seq<Sample>)
      requires whole <= buf.Length && whole % 4 == 0
      ensures out == Samples(buf[..whole])
    {
      out := [];
      for i := 0 to whole / 4
        invariant out == Samples(buf[..4 * i])
      {
        var sample := buf[4 * i..4 * i + 4];
        out := out + [SampleOf(sample)];
        assert buf[..4 * (i + 1)] == buf[..4 * i] + sample;
        SamplesOfBoth(buf[..4 * i], sample);
        assert Samples(sample) == [SampleOf(sample)] + Samples(sample[4..]);
      }
    }

    /** Moves the bytes held after `whole` to the front. */
    method ShiftDown(whole: nat)
      requires whole <= held <= buf.Length
      modifies buf
      ensures buf[..held - whole] == old(buf[whole..held])
    {
      ghost var rest := buf[whole..held];
      forall i | 0 <= i < held - whole {
        buf[i] := buf[whole + i];
      }
      assert forall i :: 0 <= i < held - whole ==> buf[i] == rest[i];
    }

    /** Takes the whole frames held, and moves what is left to the front. */
    method TakeWhole(end: nat) returns (frames: nat, out: seq<Sample>)
      requires Follows() && frameBytes <= held <= end && !child.finished
      modifies this`held, this`returned, this`count, this`taken, buf
      ensures Valid() && returned == old(returned) + out
      ensures |out| == Times(frames, channels) && 1 <= frames <= WholeIn(end, frameBytes)
    {
      hide Times, WholeIn, Samples;
      frames := held / frameBytes;
      var whole := frames * frameBytes;
      FramesHeld(held, end, channels);
      out := Collect(whole);
      ghost var bytes := buf[..held];
      assert bytes[..whole] == buf[..whole];
      TakesFrames(child.stream, taken, bytes, count, frames, channels);
      ShiftDown(whole);
      assert buf[..held - whole] == bytes[whole..];
      held := held - whole;
      count, taken, returned := count + frames, taken + whole, returned + out;
    }

    /** Returns up to `maxFrames` frames, at least one, or none at the end of the stream; whatever the calls and
        the pipe's reads, what they return together is the stream's first whole frames. */
    method ReadFrames(maxFrames: nat) returns (r: Result<nat, Error>, out: seq<Sample>)
      requires Valid()
      modifies this, child, buf
      ensures Valid() && returned == old(returned) + out
      ensures r.Err? ==> out == []
      ensures r.Ok? ==> |out| == Times(r.value, channels) && r.value <= if maxFrames > 1 then maxFrames else 1
      ensures r == Ok(0) ==> child.finished
      ensures r == Err(Io) <==> child.failures > old(child.failures)
      ensures r == Err(Ended) ==> child.finished && child.fails
      ensures old(child.finished) ==> r == Ok(0)
      ensures !old(child.finished) && child.finished ==> r == if child.fails then Err(Ended) else Ok(0)
      ensures child.finished ==> AllReturned()
    {
      hide Times, WholeIn, Samples;
      TimesBoth(0, 0, channels);
      if child.finished {
        Ends();
        return Ok(0), [];
      }
      var most := if maxFrames > 1 then maxFrames else 1;
      var end := held + most * frameBytes;
      Room(held, most, frameBytes);
      Resize(end);
      var stopped := Fill(end);
      if stopped.Some? {
        if stopped.value.Fails? {
          return Err(Io), [];
        }
        var ok := child.Finish();
        Ends();
        return if ok then Ok(0) else Err(Ended), [];
      }
      var frames;
      frames, out := TakeWhole(end);
      r := Ok(frames);
    }

    /** All the stream's whole frames have been returned. */
    ghost predicate AllReturned()
      reads this, child
    {
      channels > 0 &&
      var whole := Times(WholeIn(|child.stream|, frameBytes), frameBytes);
      whole <= |child.stream| && returned == Samples(child.stream[..whole])
    }

    lemma Ends()
      requires Valid() && child.finished
      ensures AllReturned()
    {
      WholeOnly(|child.stream|, frameBytes, count);
    }
  }

  /** The whole frames of the bytes held. */
  lemma FramesHeld(held: nat, end: nat, channels: nat)
    requires channels > 0 && 4 * channels <= held <= end
    ensures var (size, frames) := (4 * channels, held / (4 * channels));
      && 1 <= frames <= WholeIn(end, size) && frames * size == Times(frames, size)
      && Times(frames, size) <= held < Times(frames, size) + size
      && Times(frames, size) == 4 * Times(frames, channels)
  {
    var (size, frames) := (4 * channels, held / (4 * channels));
    WholeParts(held, size);
    WholeParts(end, size);
    TimesFour(frames, channels);
    hide Times;
    if frames < 1 {
      TimesBoth(0, 0, size);
    }
    if WholeIn(end, size) < frames {
      TimesGrow(WholeIn(end, size) + 1, frames, size);
      TimesBoth(WholeIn(end, size), 1, size);
    }
  }

  /** Taking `frames` more than `count` from the bytes after those taken. */
  lemma TakesFrames(stream: seq<Byte>, taken: nat, bytes: seq<Byte>, count: nat, frames: nat, channels: nat)
    requires taken == Times(count, 4 * channels) && taken + |bytes| <= |stream| && bytes == stream[taken..taken + |bytes|]
    requires Times(frames, 4 * channels) <= |bytes|
    ensures var whole := Times(frames, 4 * channels);
      && taken + whole == Times(count + frames, 4 * channels)
      && Samples(stream[..taken + whole]) == Samples(stream[..taken]) + Samples(bytes[..whole])
      && |Samples(bytes[..whole])| == Times(frames, channels)
  {
    hide Times;
    var whole := Times(frames, 4 * channels);
    TimesFour(count, channels);
    TimesFour(frames, channels);
    TimesBoth(count, frames, 4 * channels);
    var (a, b) := (stream[..taken], bytes[..whole]);
    assert |a| == 4 * Times(count, channels) && |b| == 4 * Times(frames, channels);
    assert stream[..taken + whole] == a + b;
    hide Samples;
    SamplesOfBoth(b, []);
    SamplesOfBoth(a, b);
  }

  lemma Adjoin(s: seq<Byte>, a: nat, b: nat, c: nat)
    requires a <= b <= c <= |s|
    ensures s[a..b] + s[b..c] == s[a..c]
  {
  }

  lemma {:induction false} WrittenLength(samples: seq<Sample>)
    requires forall i :: 0 <= i < |samples| ==> 0 <= samples[i] < Limit(4)
    ensures |Written(samples)| == 4 * |samples|
  {
    if samples != [] {
      WrittenLength(samples[1..]);
    }
  }

  /** All the samples written come back, if they are whole frames. */
  lemma WrittenReturns(samples: seq<Sample>, frames: nat, channels: nat)
    requires forall i :: 0 <= i < |samples| ==> 0 <= samples[i] < Limit(4)
    requires channels > 0 && |samples| == Times(frames, channels)
    ensures var (stream, size) := (Written(samples), 4 * channels);
      && Times(WholeIn(|stream|, size), size) == |stream|
      && Samples(stream[..Times(WholeIn(|stream|, size), size)]) == samples
  {
    var (stream, size) := (Written(samples), 4 * channels);
    WrittenLength(samples);
    TimesFour(frames, channels);
    hide Times, Written, Samples, Limit;
    WholeOnly(|stream|, size, frames);
    assert stream[..|stream|] == stream;
    SamplesWritten(samples);
  }

  /** Room for `most` frames after less than one. */
  lemma Room(held: nat, most: nat, size: nat)
    requires held < size && most >= 1
    ensures most * size == Times(most, size) && size <= most * size && WholeIn(held + most * size, size) == most
  {
    TimesGrow(1, most, size);
    TimesBoth(0, 1, size);
    WholeOnly(held + most * size, size, most);
  }
}
