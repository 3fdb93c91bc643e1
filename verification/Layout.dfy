/** A frame's memory image: the five words the ring copies. */
module Layout {
  import opened Wire
  import BroadcastRing

  type Words = BroadcastRing.Words

  const WORD_LIMIT: nat := 0x1_0000_0000_0000_0000

  /** The small fields that share word 3. */
  function SmallBytes(f: Frame): (b: seq<byte>)
    ensures |b| == 8
  {
    StoreLe(f.canId, 4) + [f.srcId, f.len, f.flags, f.reserved]
  }

  function FrameWords(f: Frame): Words {
    [f.seqNo, f.tKernel, f.tIngest, LoadLe(SmallBytes(f)), LoadLe(f.data)]
  }

  predicate WordSized(w: Words) { forall i | 0 <= i < 5 :: w[i] < WORD_LIMIT }

  function WordsFrame(w: Words): Frame
    requires WordSized(w)
  {
    var small := StoreLe(w[3], 8);
    StoreLoad(small[0..4]);
    Widths();
    Frame(w[0], w[1], w[2], LoadLe(small[0..4]), small[4], small[5], small[6], small[7], StoreLe(w[4], 8))
  }

  /** Copying a frame into words, stamping word 0 and copying it back gives the
      frame with that sequence number and nothing else changed. */
  lemma {:induction false} StampedImage(f: Frame, pos: u64)
    ensures var w := BroadcastRing.Stamp(FrameWords(f), pos);
            WordSized(w) && WordsFrame(w) == f.(seqNo := pos)
  {
    Widths();
    var small := SmallBytes(f);
    StoreLoad(small);
    StoreLoad(f.data);
    var w := BroadcastRing.Stamp(FrameWords(f), pos);
    assert w[3] == LoadLe(small) && w[4] == LoadLe(f.data);
    assert small[0..4] == StoreLe(f.canId, 4);
    LoadStore(f.canId, 4);
  }
}
