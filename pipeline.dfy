/** The integer part of process_iq_samples: every incoming (I, Q) pair goes through
    the floating-point chain (lowpass, envelope, DC block, AGC, volume), a counter
    that runs up to 42 keeps one value in 42, each kept value is clipped to the
    16-bit range and appended to g_audio_out, and once 4096 values have gathered they
    go to stdout and/or the speakers and the buffer starts again from empty.

    The floating-point chain is not modelled: it is the function `dsp`, which maps
    the pairs received so far to the value the newest one yields after volume
    scaling (every stage is a causal filter, so its output is a function of its
    input history). */
module Pipeline {
  import opened Wire
  import opened AudioSink

  const DecimationFactor: nat := 42
  /** Slots of g_audio_out; it never holds more than AudioBufferSize - 1 values
      between samples. */
  const OutCapacity: nat := 8192

  /** The clip to [-32768, 32767] and the (int16_t) conversion, which truncates
      toward zero. */
  function OutputSample(x: real): (r: int16)
    ensures x >= 32767.0 ==> r == 32767
    ensures x <= -32768.0 ==> r == -32768
    ensures 0.0 <= x < 32767.0 ==> r as real <= x < r as real + 1.0
    ensures -32768.0 < x < 0.0 ==> r as real - 1.0 < x <= r as real
  {
    if x > 32767.0 then 32767
    else if x < -32768.0 then -32768
    else if x >= 0.0 then x.Floor as int16
    else -((-x).Floor) as int16
  }

  /** g_stdout_mode and g_audio_enabled, fixed for the run. */
  datatype Config = Config(stdoutMode: bool, audioEnabled: bool)

  /** g_decim_counter, the filled part of g_audio_out, everything written to stdout
      so far and the speaker bookkeeping. */
  datatype Out = Out(counter: int, pending: seq<int16>, stdout: seq<int16>, sink: SinkState)

  ghost predicate OutInvariant(o: Out)
  {
    0 <= o.counter < DecimationFactor && |o.pending| < AudioBufferSize
  }

  /** One pass of the per-sample loop, given the value the chain produced. */
  function Step(cfg: Config, o: Out, v: real): (r: Out)
    ensures OutInvariant(o) ==> OutInvariant(r)
  {
    var c := o.counter + 1;
    if c < DecimationFactor then o.(counter := c)
    else
      var pending := o.pending + [OutputSample(v)];
      if |pending| < AudioBufferSize then Out(0, pending, o.stdout, o.sink)
      else
        Out(0, [],
            if cfg.stdoutMode then o.stdout + pending else o.stdout,
            if cfg.audioEnabled then AudioWrite(o.sink, pending, |pending|) else o.sink)
  }

  /** The per-sample loop over a run of chain values. */
  function Process(cfg: Config, o: Out, vals: seq<real>): (r: Out)
    ensures OutInvariant(o) ==> OutInvariant(r)
    decreases |vals|
  {
    if |vals| == 0 then o
    else Step(cfg, Process(cfg, o, vals[..|vals| - 1]), vals[|vals| - 1])
  }

  /** The chain values of a run of pairs that arrive after `history`. */
  function Values(dsp: seq<IQ> -> real, history: seq<IQ>, xs: seq<IQ>): (vs: seq<real>)
    ensures |vs| == |xs|
  {
    seq(|xs|, i requires 0 <= i < |xs| => dsp(history + xs[..i + 1]))
  }

  // ---------------------------------------------------------------------------
  // Reference definition of what the decimator keeps
  // ---------------------------------------------------------------------------

  /** Starting from counter c, the values the decimator keeps: the j-th one is the
      value of the sample that brings the counter to 42 for the (j+1)-th time. */
  function Kept(c: int, vals: seq<real>): seq<real>
    requires 0 <= c < DecimationFactor
  {
    seq((c + |vals|) / DecimationFactor, j requires 0 <= j < (c + |vals|) / DecimationFactor =>
      vals[DecimationFactor * (j + 1) - c - 1])
  }

  /** The samples those values become. */
  function Emitted(c: int, vals: seq<real>): (e: seq<int16>)
    requires 0 <= c < DecimationFactor
    ensures |e| == (c + |vals|) / DecimationFactor
    ensures forall j :: 0 <= j < |e| ==> e[j] == OutputSample(vals[DecimationFactor * (j + 1) - c - 1])
  {
    var k := Kept(c, vals);
    seq(|k|, j requires 0 <= j < |k| => OutputSample(k[j]))
  }

  /** The buffer-loads handed to the sinks: consecutive runs of 4096 samples. */
  function Blocks(s: seq<int16>): (bs: seq<seq<int16>>)
    requires |s| % AudioBufferSize == 0
    ensures |bs| * AudioBufferSize == |s|
    ensures forall i :: 0 <= i < |bs| ==> |bs[i]| == AudioBufferSize
    decreases |s|
  {
    if |s| == 0 then []
    else Blocks(s[..|s| - AudioBufferSize]) + [s[|s| - AudioBufferSize..]]
  }

  /** One more sample with its value appended. */
  lemma EmittedSnoc(c: int, vals: seq<real>, v: real)
    requires 0 <= c < DecimationFactor
    ensures Emitted(c, vals + [v]) ==
      Emitted(c, vals) + if (c + |vals| + 1) % DecimationFactor == 0 then [OutputSample(v)] else []
  {
    var a, b := Emitted(c, vals + [v]), Emitted(c, vals);
    var n := c + |vals|;
    if (n + 1) % DecimationFactor == 0 {
      assert (n + 1) / DecimationFactor == n / DecimationFactor + 1;
      assert a[|b|] == OutputSample(v);
      assert a == b + [OutputSample(v)];
    } else {
      assert (n + 1) / DecimationFactor == n / DecimationFactor;
      assert a == b;
    }
  }

  /** The output side after the samples `all` have been appended to an empty
      g_audio_out: whole loads of 4096 have gone to the sinks, the rest is pending. */
  ghost predicate Loads(cfg: Config, o: Out, all: seq<int16>, p: Out)
  {
    var f := |all| / AudioBufferSize;
    && p.pending == all[AudioBufferSize * f..]
    && p.stdout == o.stdout + (if cfg.stdoutMode then all[..AudioBufferSize * f] else [])
    && p.sink == (if cfg.audioEnabled then WriteAll(o.sink, Blocks(all[..AudioBufferSize * f])) else o.sink)
  }

  /** The closed form of the output side after the chain values `vals` (see
      ProcessClosedForm). */
  ghost predicate ClosedForm(cfg: Config, o: Out, vals: seq<real>, p: Out)
    requires 0 <= o.counter < DecimationFactor
  {
    && OutInvariant(p)
    && p.counter == (o.counter + |vals|) % DecimationFactor
    && Loads(cfg, o, o.pending + Emitted(o.counter, vals), p)
  }

  /** A sample the decimator drops keeps the closed form. */
  lemma StepSkips(cfg: Config, o: Out, vals: seq<real>, v: real, q: Out)
    requires OutInvariant(o) && ClosedForm(cfg, o, vals, q)
    requires (o.counter + |vals| + 1) % DecimationFactor != 0
    ensures ClosedForm(cfg, o, vals + [v], Step(cfg, q, v))
  {
    EmittedSnoc(o.counter, vals, v);
    var n := o.counter + |vals|;
    assert Emitted(o.counter, vals + [v]) == Emitted(o.counter, vals);
    assert (n + 1) % DecimationFactor == n % DecimationFactor + 1;
    assert Step(cfg, q, v) == q.(counter := q.counter + 1);
  }

  /** A kept sample that does not fill the buffer keeps the closed form. */
  lemma StepKeeps(cfg: Config, o: Out, vals: seq<real>, v: real, q: Out)
    requires OutInvariant(o) && ClosedForm(cfg, o, vals, q)
    requires (o.counter + |vals| + 1) % DecimationFactor == 0
    requires |q.pending| + 1 < AudioBufferSize
    ensures ClosedForm(cfg, o, vals + [v], Step(cfg, q, v))
  {
    EmittedSnoc(o.counter, vals, v);
    var all := o.pending + Emitted(o.counter, vals);
    var f := |all| / AudioBufferSize;
    var x := OutputSample(v);
    var all' := o.pending + Emitted(o.counter, vals + [v]);
    assert all' == all + [x];
    assert |all'| / AudioBufferSize == f;
    assert all'[..AudioBufferSize * f] == all[..AudioBufferSize * f];
    assert q.pending + [x] == all'[AudioBufferSize * f..];
  }

  /** The sequence facts behind a flush: appending the sample that completes the
      partial load after f whole loads makes f + 1 whole loads and nothing left. */
  lemma CompleteLoad(all: seq<int16>, x: int16, f: nat)
    requires |all| / AudioBufferSize == f && |all| == AudioBufferSize * f + AudioBufferSize - 1
    ensures var all' := all + [x];
      && |all'| / AudioBufferSize == f + 1
      && all'[..AudioBufferSize * (f + 1)] == all'
      && all'[AudioBufferSize * (f + 1)..] == []
      && Blocks(all') == Blocks(all[..AudioBufferSize * f]) + [all[AudioBufferSize * f..] + [x]]
  {
    var all' := all + [x];
    assert all'[..|all'| - AudioBufferSize] == all[..AudioBufferSize * f];
    assert all'[|all'| - AudioBufferSize..] == all[AudioBufferSize * f..] + [x];
  }

  /** The sample that completes a load flushes it. */
  lemma FlushLoads(cfg: Config, o: Out, all: seq<int16>, x: int16, q: Out)
    requires Loads(cfg, o, all, q) && |q.pending| + 1 == AudioBufferSize
    ensures var pending := q.pending + [x];
      Loads(cfg, o, all + [x], Out(0, [],
        if cfg.stdoutMode then q.stdout + pending else q.stdout,
        if cfg.audioEnabled then AudioWrite(q.sink, pending, |pending|) else q.sink))
  {
    var f := |all| / AudioBufferSize;
    CompleteLoad(all, x, f);
    var pending := q.pending + [x];
    FlushSink(o.sink, all, x, f);
    var all' := all + [x];
    assert all' == all[..AudioBufferSize * f] + pending;
    assert all'[..AudioBufferSize * (|all'| / AudioBufferSize)] == all';
  }

  /** The speakers' share of a flush: the completed load is one more block. */
  lemma FlushSink(s: SinkState, all: seq<int16>, x: int16, f: nat)
    requires |all| / AudioBufferSize == f && |all| == AudioBufferSize * f + AudioBufferSize - 1
    ensures var pending := all[AudioBufferSize * f..] + [x];
      WriteAll(s, Blocks(all + [x])) == AudioWrite(WriteAll(s, Blocks(all[..AudioBufferSize * f])), pending, |pending|)
  {
    CompleteLoad(all, x, f);
  }

  /** A kept sample that fills the buffer hands one more load to the sinks. */
  lemma StepFlushes(cfg: Config, o: Out, vals: seq<real>, v: real, q: Out)
    requires OutInvariant(o) && ClosedForm(cfg, o, vals, q)
    requires (o.counter + |vals| + 1) % DecimationFactor == 0
    requires |q.pending| + 1 == AudioBufferSize
    ensures ClosedForm(cfg, o, vals + [v], Step(cfg, q, v))
  {
    EmittedSnoc(o.counter, vals, v);
    var all := o.pending + Emitted(o.counter, vals);
    var x := OutputSample(v);
    assert o.pending + Emitted(o.counter, vals + [v]) == all + [x];
    FlushLoads(cfg, o, all, x, q);
    assert Step(cfg, q, v).counter == (o.counter + |vals + [v]|) % DecimationFactor;
  }

  /** What the per-sample loop does to the output side, in closed form. Let `all` be
      the buffered samples followed by the samples emitted for `vals`, and let f be
      the number of whole buffer-loads in it. The counter has advanced by |vals|
      modulo 42; the first 4096 * f samples of `all` have gone, in order and in
      loads of 4096, to stdout when stdout mode is on and to the speakers when
      audio is enabled; the rest is what the buffer holds, fewer than 4096. */
  lemma {:induction false} ProcessClosedForm(cfg: Config, o: Out, vals: seq<real>)
    requires OutInvariant(o)
    ensures ClosedForm(cfg, o, vals, Process(cfg, o, vals))
    decreases |vals|
  {
    if |vals| == 0 {
      assert o.pending + Emitted(o.counter, vals) == o.pending;
      assert Blocks([]) == [];
    } else {
      var init, v := vals[..|vals| - 1], vals[|vals| - 1];
      assert vals == init + [v];
      ProcessClosedForm(cfg, o, init);
      var q := Process(cfg, o, init);
      if (o.counter + |init| + 1) % DecimationFactor != 0 {
        StepSkips(cfg, o, init, v, q);
      } else if |q.pending| + 1 < AudioBufferSize {
        StepKeeps(cfg, o, init, v, q);
      } else {
        StepFlushes(cfg, o, init, v, q);
      }
    }
  }

  /** With the speakers on, the blocks the device has been handed are exactly the
      whole loads of the closed form, in order, and the slot index has moved on by
      their number modulo 4. */
  lemma SpeakerLoads(cfg: Config, o: Out, vals: seq<real>)
    requires OutInvariant(o) && cfg.audioEnabled && o.sink.running
    ensures var p := Process(cfg, o, vals);
      var all := o.pending + Emitted(o.counter, vals);
      var f := |all| / AudioBufferSize;
      && p.sink.played == o.sink.played + Blocks(all[..AudioBufferSize * f])
      && |p.sink.played| == |o.sink.played| + f
      && p.sink.current % AudioBuffers == (o.sink.current + f) % AudioBuffers
  {
    ProcessClosedForm(cfg, o, vals);
    var all := o.pending + Emitted(o.counter, vals);
    var f := |all| / AudioBufferSize;
    var blocks := Blocks(all[..AudioBufferSize * f]);
    assert |blocks| == f;
    RoundRobin(o.sink, blocks);
  }

  /** Starting from a fresh counter, 1000 pairs yield 23 output samples, far short of
      a buffer-load, so nothing reaches stdout or the speakers. */
  lemma ThousandPairs(cfg: Config, o: Out, vals: seq<real>)
    requires OutInvariant(o) && o.counter == 0 && o.pending == [] && |vals| == 1000
    ensures var p := Process(cfg, o, vals);
      && |p.pending| == 23 && p.counter == 34
      && p.stdout == o.stdout && p.sink == o.sink
  {
    ProcessClosedForm(cfg, o, vals);
    var all := o.pending + Emitted(o.counter, vals);
    assert |all| == 23;
    assert all[..0] == [];
    assert Blocks([]) == [];
  }

  /** The receiver's DSP output stage: the globals process_iq_samples updates. */
  class Receiver {
    var counter: int
    /** g_audio_out. */
    const out: array<int16>
    /** g_audio_out_count. */
    var count: int
    /** Every sample written to standard output so far. */
    var stdout: seq<int16>
    const cfg: Config
    const sink: AudioOut
    /** The floating-point chain, including the volume scaling. */
    const dsp: seq<IQ> -> real
    /** Every pair received so far, oldest first; the chain's state is a function of it. */
    var history: seq<IQ>

    function State(): Out
      reads this, out, sink
      requires 0 <= count <= out.Length
    {
      Out(counter, out[..count], stdout, sink.State())
    }

    ghost predicate Valid()
      reads this, out, sink
    {
      && out.Length == OutCapacity
      && sink.Valid()
      && 0 <= counter < DecimationFactor
      && 0 <= count < AudioBufferSize
    }

    /** The state before the first frame: counter 0, the output buffer empty. */
    constructor (cfg: Config, sink: AudioOut, dsp: seq<IQ> -> real)
      requires sink.Valid()
      ensures Valid() && this.cfg == cfg && this.sink == sink && this.dsp == dsp
      ensures State() == Out(0, [], [], sink.State()) && history == []
    {
      this.cfg, this.sink, this.dsp := cfg, sink, dsp;
      out := new int16[OutCapacity](i => 0);
      counter, count, stdout, history := 0, 0, [], [];
    }

    /** One pass of the loop in process_iq_samples for the pair x. */
    method PushSample(x: IQ)
      requires Valid()
      modifies this, out, sink, sink.slots, sink.lengths
      ensures Valid()
      ensures history == old(history) + [x]
      ensures State() == Step(cfg, old(State()), dsp(old(history) + [x]))
      ensures forall k :: 0 <= k < old(count) ==> out[k] == old(out[k])
    {
      history := history + [x];
      var audio := dsp(history);
      counter := counter + 1;
      if counter >= DecimationFactor {
        counter := 0;
        out[count] := OutputSample(audio);
        count := count + 1;
        assert out[..count] == old(out[..count]) + [OutputSample(audio)];
        if count >= AudioBufferSize {
          ghost var pending := out[..count];
          if cfg.stdoutMode {
            stdout := stdout + out[..count];
          }
          if cfg.audioEnabled {
            ghost var s0 := sink.State();
            sink.Write(out, count);
            assert out[..][..CopyLength(count)] == pending == pending[..CopyLength(count)];
            assert sink.State() == AudioWrite(s0, pending, count);
          }
          count := 0;
        }
      }
    }

    /** process_iq_samples(frame, numSamples): the pairs are the little-endian 16-bit
        words of the frame buffer, I first. */
    method ProcessIq(frame: array<byte>, numSamples: nat)
      requires Valid() && numSamples * BytesPerPair <= frame.Length
      modifies this, out, sink, sink.slots, sink.lengths
      ensures Valid()
      ensures var xs := DecodeSamples(frame[..numSamples * BytesPerPair]);
        && history == old(history) + xs
        && State() == Process(cfg, old(State()), Values(dsp, old(history), xs))
    {
      ghost var xs := DecodeSamples(frame[..numSamples * BytesPerPair]);
      ghost var vals := Values(dsp, old(history), xs);
      for i := 0 to numSamples
        invariant Valid()
        invariant history == old(history) + xs[..i]
        invariant State() == Process(cfg, old(State()), vals[..i])
      {
        var x := IQ(I16At(frame[..], i * 4), I16At(frame[..], i * 4 + 2));
        assert x == xs[i];
        assert xs[..i + 1] == xs[..i] + [x];
        assert vals[i] == dsp(history + [x]) by {
          assert old(history) + xs[..i + 1] == history + [x];
        }
        ghost var before := State();
        PushSample(x);
        assert vals[..i + 1][..i] == vals[..i];
        assert Process(cfg, old(State()), vals[..i + 1]) == Step(cfg, before, vals[i]);
      }
      assert xs[..numSamples] == xs;
      assert vals[..numSamples] == vals;
    }
  }
}
