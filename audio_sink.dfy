/** The speaker output of the Windows build: four waveOut buffers of 4096 samples used
    round-robin. What is modelled is the buffer bookkeeping of audio_write: which slot
    a block goes to, how much of it is copied, the byte length put in the slot's
    header and the advance to the next slot. Waiting for a slot the device still
    holds, the critical section and the device itself are not part of this model;
    a block handed to waveOutWrite is recorded in `played`, in order. */
module AudioSink {
  import opened Wire

  const AudioBuffers: nat := 4
  const AudioBufferSize: nat := 4096

  /** How many samples one audio_write copies: the request, clamped to a slot. */
  function CopyLength(count: nat): (n: nat)
    ensures n <= count && n <= AudioBufferSize
    ensures n == count || n == AudioBufferSize
    ensures count > 0 ==> n > 0
  {
    if count > AudioBufferSize then AudioBufferSize else count
  }

  /** g_audio_running, g_current_buffer and the blocks handed to the device so far. */
  datatype SinkState = SinkState(running: bool, current: int, played: seq<seq<int16>>)

  ghost predicate SinkInvariant(s: SinkState)
  {
    && 0 <= s.current < AudioBuffers
    && forall k :: 0 <= k < |s.played| ==> 0 < |s.played[k]| <= AudioBufferSize
  }

  /** audio_write(samples, count) on the bookkeeping. */
  function AudioWrite(s: SinkState, samples: seq<int16>, count: nat): (r: SinkState)
    requires s.running && count > 0 ==> CopyLength(count) <= |samples|
    ensures r.running == s.running
    ensures |r.played| == |s.played| || |r.played| == |s.played| + 1
    ensures 0 <= s.current < AudioBuffers ==> 0 <= r.current < AudioBuffers
  {
    if !s.running || count == 0 then s
    else SinkState(s.running, (s.current + 1) % AudioBuffers, s.played + [samples[..CopyLength(count)]])
  }

  /** A write that goes through hands over the first min(count, 4096) samples and
      moves to the next slot; with the device stopped or nothing to write, nothing
      changes. The slot index stays in [0, 4) and no block exceeds a slot. */
  lemma AudioWriteEffect(s: SinkState, samples: seq<int16>, count: nat)
    requires SinkInvariant(s)
    requires s.running && count > 0 ==> CopyLength(count) <= |samples|
    ensures var t := AudioWrite(s, samples, count);
      && SinkInvariant(t)
      && t.running == s.running
      && (s.running && count > 0 ==>
            && |t.played| == |s.played| + 1
            && t.played[..|s.played|] == s.played
            && t.played[|s.played|] == samples[..if count > 4096 then 4096 else count]
            && t.current == (s.current + 1) % 4)
      && (!s.running || count == 0 ==> t == s)
  {
    var t := AudioWrite(s, samples, count);
    if s.running && count > 0 {
      assert t.played[..|s.played|] == s.played;
    }
  }

  /** Blocks written one after the other, each with its own length as count. */
  function WriteAll(s: SinkState, blocks: seq<seq<int16>>): SinkState
    decreases |blocks|
  {
    if |blocks| == 0 then s
    else
      var b := blocks[|blocks| - 1];
      AudioWrite(WriteAll(s, blocks[..|blocks| - 1]), b, |b|)
  }

  /** Round robin: k non-empty blocks of at most a slot each are all handed over
      unchanged and in order, and the slot index has moved on by k modulo 4, so
      consecutive blocks never land in the same slot of the four. */
  lemma {:induction false} RoundRobin(s: SinkState, blocks: seq<seq<int16>>)
    requires s.running
    requires forall k :: 0 <= k < |blocks| ==> 0 < |blocks[k]| <= AudioBufferSize
    ensures var t := WriteAll(s, blocks);
      && t.running
      && t.current % AudioBuffers == (s.current + |blocks|) % AudioBuffers
      && t.played == s.played + blocks
    decreases |blocks|
  {
    if |blocks| > 0 {
      var init := blocks[..|blocks| - 1];
      var b := blocks[|blocks| - 1];
      RoundRobin(s, init);
      var m := WriteAll(s, init);
      assert b[..CopyLength(|b|)] == b;
      var t := AudioWrite(m, b, |b|);
      assert t.played == s.played + init + [b];
      assert init + [b] == blocks;
    }
  }

  /** The audio device of the Windows build after audio_init. */
  class AudioOut {
    var running: bool
    var current: int
    /** g_audio_buffers: four slots of 4096 samples. */
    const slots: array2<int16>
    /** dwBufferLength of each slot's header, in bytes. */
    const lengths: array<int>
    var played: seq<seq<int16>>

    function State(): SinkState
      reads this
    {
      SinkState(running, current, played)
    }

    ghost predicate Valid()
      reads this
    {
      && slots.Length0 == AudioBuffers && slots.Length1 == AudioBufferSize
      && lengths.Length == AudioBuffers
      && SinkInvariant(State())
    }

    /** audio_init once the device has opened: zeroed slots, each header covering a
        whole slot, the first slot current and the device running. */
    constructor ()
      ensures Valid() && State() == SinkState(true, 0, [])
      ensures forall i, j :: 0 <= i < AudioBuffers && 0 <= j < AudioBufferSize ==> slots[i, j] == 0
      ensures forall i :: 0 <= i < AudioBuffers ==> lengths[i] == AudioBufferSize * 2
    {
      slots := new int16[AudioBuffers, AudioBufferSize]((i, j) => 0);
      lengths := new int[AudioBuffers](i => AudioBufferSize * 2);
      running, current, played := true, 0, [];
    }

    /** audio_write(samples, count): copy min(count, 4096) samples into the current
        slot, set its header length in bytes, queue it and move to the next slot. */
    method Write(samples: array<int16>, count: nat)
      requires Valid()
      requires running && count > 0 ==> CopyLength(count) <= samples.Length
      modifies this, slots, lengths
      ensures Valid()
      ensures State() == AudioWrite(old(State()), samples[..], count)
      ensures old(running) && count > 0 ==>
        && (forall j :: 0 <= j < CopyLength(count) ==> slots[old(current), j] == samples[j])
        && lengths[old(current)] == CopyLength(count) * 2
      ensures forall i, j :: 0 <= i < AudioBuffers && 0 <= j < AudioBufferSize ==>
        (i == old(current) && j < CopyLength(count) && old(running) && count > 0) || slots[i, j] == old(slots[i, j])
      ensures forall i :: 0 <= i < AudioBuffers && (i != old(current) || !old(running) || count == 0) ==> lengths[i] == old(lengths[i])
    {
      if !running || count == 0 {
        return;
      }
      var toCopy := CopyLength(count);
      var slot := current;
      for j := 0 to toCopy
        modifies slots
        invariant forall k :: 0 <= k < j ==> slots[slot, k] == samples[k]
        invariant forall i, k :: 0 <= i < AudioBuffers && 0 <= k < AudioBufferSize ==>
          (i == slot && k < j) || slots[i, k] == old(slots[i, k])
      {
        slots[slot, j] := samples[j];
      }
      lengths[slot] := toCopy * 2;
      AudioWriteEffect(State(), samples[..], count);
      played := played + [samples[..toCopy]];
      current := (current + 1) % AudioBuffers;
    }
  }
}
