/** The copy loops of redpitaya-ac97.c between a sample buffer and the codec's FIFOs. The hardware moves on
    its own: before every poll of the status register the playback FIFO may have been drained by some words,
    and the capture FIFO may have received some. */
module FifoCopy {
  type Word = bv16

  /** What a run over the play FIFO keeps: words leave it in the order in which they were put in. */
  class PlayFifo {
    const capacity: nat
    var queue: seq<Word>
    /** The words the codec has played. */
    ghost var played: seq<Word>
    /** How many words the codec takes before each of the polls to come; none once this is exhausted. */
    var drains: seq<nat>

    predicate Valid()
      reads this
    {
      0 < capacity && |queue| <= capacity
    }

    /** All words ever pushed, as far as this object remembers. */
    ghost function Pushed(): seq<Word>
      reads this
    {
      played + queue
    }

    constructor (capacity: nat, drains: seq<nat>)
      requires 0 < capacity
      ensures Valid() && this.capacity == capacity && queue == [] && played == [] && this.drains == drains
    {
      this.capacity := capacity;
      this.queue := [];
      this.played := [];
      this.drains := drains;
    }

    /** Reads the PLAYFULL bit. */
    method Full() returns (full: bool)
      requires Valid()
      modifies this
      ensures Valid() && Pushed() == old(Pushed())
      ensures full <==> |queue| == capacity
      ensures |drains| <= |old(drains)| && |queue| <= |old(queue)|
      ensures |queue| < |old(queue)| ==> |drains| < |old(drains)|
    {
      if drains != [] {
        var taken := if drains[0] <= |queue| then drains[0] else |queue|;
        assert queue == queue[..taken] + queue[taken..];
        played := played + queue[..taken];
        queue := queue[taken..];
        drains := drains[1..];
      }
      full := |queue| == capacity;
    }

    /** A write to PLAYFIFO; a word written to a full FIFO is lost. */
    method Push(word: Word)
      requires Valid()
      modifies this`queue
      ensures Valid()
      ensures queue == if |old(queue)| < capacity then old(queue) + [word] else old(queue)
      ensures |old(queue)| < capacity ==> Pushed() == old(Pushed()) + [word]
    {
      if |queue| < capacity {
        queue := queue + [word];
        assert Pushed() == old(Pushed()) + [word];
      }
    }
  }

  class CaptureFifo {
    const capacity: nat
    var queue: seq<Word>
    /** The words received so far, those lost to an overrun left out. */
    ghost var received: seq<Word>
    /** The words that arrive before each of the polls to come; none once this is exhausted. */
    var arrivals: seq<seq<Word>>

    predicate Valid()
      reads this
    {
      |queue| <= capacity
    }

    constructor (capacity: nat, arrivals: seq<seq<Word>>)
      ensures Valid() && this.capacity == capacity && queue == [] && received == [] && this.arrivals == arrivals
    {
      this.capacity := capacity;
      this.queue := [];
      this.received := [];
      this.arrivals := arrivals;
    }

    /** Reads the RECEMPTY bit. */
    method Empty() returns (empty: bool)
      requires Valid()
      modifies this
      ensures Valid()
      ensures old(received) <= received && queue == old(queue) + received[|old(received)|..]
      ensures empty <==> queue == []
      ensures |arrivals| <= |old(arrivals)|
      ensures queue != old(queue) ==> |arrivals| < |old(arrivals)|
    {
      if arrivals != [] {
        var room := capacity - |queue|;
        var accepted := if |arrivals[0]| <= room then arrivals[0] else arrivals[0][..room];
        queue := queue + accepted;
        received := received + accepted;
        arrivals := arrivals[1..];
        assert received[|old(received)|..] == accepted;
      }
      empty := queue == [];
    }

    /** A read of RECFIFO. */
    method Pop() returns (word: Word)
      requires Valid() && queue != []
      modifies this`queue
      ensures Valid() && [word] + queue == old(queue)
    {
      word := queue[0];
      queue := queue[1..];
    }
  }

  /** The fields of snd_pcm_indirect2 that the loops write. */
  class Pcm {
    var hwReady: bool

    /** snd_redpitaya_ac97_playback_ind2_copy: the words pushed are a prefix of the source, at most half as
        many as there are bytes, fewer only if the FIFO was found full. */
    method PlaybackCopy(fifo: PlayFifo, src: array<Word>, bytes: nat) returns (copied: nat)
      requires fifo.Valid() && bytes / 2 <= src.Length
      modifies this, fifo
      ensures fifo.Valid()
      ensures copied % 2 == 0 && copied <= bytes && fifo.Pushed() == old(fifo.Pushed()) + src[..copied / 2]
      ensures copied < bytes / 2 * 2 ==> |fifo.queue| == fifo.capacity
      ensures hwReady <==> |fifo.queue| < fifo.capacity
    {
      var copiedWords, left := 0, bytes;
      var full := fifo.Full();
      while !full && left > 1
        invariant fifo.Valid() && left + 2 * copiedWords == bytes
        invariant fifo.Pushed() == old(fifo.Pushed()) + src[..copiedWords]
        invariant full <==> |fifo.queue| == fifo.capacity
      {
        fifo.Push(src[copiedWords]);
        copiedWords := copiedWords + 1;
        left := left - 2;
        Longer(old(fifo.Pushed()), src[..copiedWords - 1], src[copiedWords - 1], src[..copiedWords]);
        full := fifo.Full();
      }
      hwReady := !full;
      copied := 2 * copiedWords;
    }

    /** snd_redpitaya_ac97_playback_ind2_zero: fills the FIFO up with silence. */
    method PlaybackZero(fifo: PlayFifo) returns (copied: nat)
      requires fifo.Valid()
      modifies this, fifo
      ensures fifo.Valid()
      ensures copied % 2 == 0 && fifo.Pushed() == old(fifo.Pushed()) + Silence(copied / 2)
      ensures |fifo.queue| == fifo.capacity && !hwReady
    {
      var copiedWords := 0;
      var full := fifo.Full();
      while !full
        invariant fifo.Valid()
        invariant fifo.Pushed() == old(fifo.Pushed()) + Silence(copiedWords)
        invariant full <==> |fifo.queue| == fifo.capacity
        decreases |fifo.drains|, fifo.capacity - |fifo.queue|
      {
        fifo.Push(0);
        copiedWords := copiedWords + 1;
        Longer(old(fifo.Pushed()), Silence(copiedWords - 1), 0, Silence(copiedWords));
        full := fifo.Full();
      }
      hwReady := false;
      copied := 2 * copiedWords;
    }

    /** snd_redpitaya_ac97_capture_ind2_copy: the words stored, followed by those still queued, are the words
        queued before and received since; the rest of the destination is untouched. */
    method CaptureCopy(fifo: CaptureFifo, dst: array<Word>, bytes: nat) returns (copied: nat)
      requires fifo.Valid() && bytes / 2 <= dst.Length
      modifies this, fifo, dst
      ensures fifo.Valid() && old(fifo.received) <= fifo.received
      ensures copied % 2 == 0 && copied <= bytes
      ensures dst[..copied / 2] + fifo.queue == old(fifo.queue) + fifo.received[|old(fifo.received)|..]
      ensures dst[copied / 2..] == old(dst[copied / 2..])
      ensures copied < bytes / 2 * 2 ==> fifo.queue == []
      ensures hwReady <==> fifo.queue != []
    {
      var copiedWords, left := 0, bytes;
      ghost var taken: seq<Word> := [];
      var empty := fifo.Empty();
      while !empty && left > 1
        invariant fifo.Valid() && left >= 0 && left + 2 * copiedWords == bytes && |taken| == copiedWords
        invariant old(fifo.received) <= fifo.received
        invariant taken + fifo.queue == old(fifo.queue) + fifo.received[|old(fifo.received)|..]
        invariant forall k :: 0 <= k < dst.Length ==> dst[k] == if k < copiedWords then taken[k] else old(dst[k])
        invariant empty <==> fifo.queue == []
      {
        ghost var queue, received := fifo.queue, fifo.received;
        var word := fifo.Pop();
        dst[copiedWords] := word;
        empty := fifo.Empty();
        Regroup(taken, word, queue, fifo.queue, old(fifo.queue), old(fifo.received), received, fifo.received);
        copiedWords := copiedWords + 1;
        left := left - 2;
        taken := taken + [word];
      }
      assert dst[..copiedWords] == taken;
      hwReady := !empty;
      copied := 2 * copiedWords;
    }

    /** snd_redpitaya_ac97_capture_ind2_null: drops everything queued and received until the FIFO is empty. */
    method CaptureNull(fifo: CaptureFifo) returns (copied: nat)
      requires fifo.Valid()
      modifies this, fifo
      ensures fifo.Valid() && old(fifo.received) <= fifo.received && fifo.queue == [] && hwReady
      ensures copied == 2 * (|old(fifo.queue)| + |fifo.received| - |old(fifo.received)|)
    {
      var copiedWords := 0;
      var empty := fifo.Empty();
      while !empty
        invariant fifo.Valid() && old(fifo.received) <= fifo.received
        invariant copiedWords + |fifo.queue| == |old(fifo.queue)| + |fifo.received| - |old(fifo.received)|
        invariant empty <==> fifo.queue == []
        decreases |fifo.arrivals|, |fifo.queue|
      {
        var _ := fifo.Pop();
        copiedWords := copiedWords + 1;
        empty := fifo.Empty();
      }
      hwReady := true;
      copied := 2 * copiedWords;
    }
  }

  function Silence(n: nat): seq<Word> {
    seq(n, i => 0)
  }

  lemma Longer(before: seq<Word>, words: seq<Word>, word: Word, longer: seq<Word>)
    requires longer == words + [word]
    ensures before + words + [word] == before + longer
  {
  }

  /** One round of the capture loop: `word` was taken from the front of `queue0`, what remained then grew to
      `queue1` by what was received. */
  lemma Regroup(taken: seq<Word>, word: Word, queue0: seq<Word>, queue1: seq<Word>, oldQueue: seq<Word>,
                oldReceived: seq<Word>, received0: seq<Word>, received1: seq<Word>)
    requires oldReceived <= received0 <= received1 && queue0 != [] && word == queue0[0]
    requires taken + queue0 == oldQueue + received0[|oldReceived|..]
    requires queue1 == queue0[1..] + received1[|received0|..]
    ensures taken + [word] + queue1 == oldQueue + received1[|oldReceived|..]
  {
    assert received1[|oldReceived|..] == received0[|oldReceived|..] + received1[|received0|..];
    assert [word] + queue0[1..] == queue0;
    assert taken + [word] + queue1 == taken + queue0 + received1[|received0|..];
  }
}
