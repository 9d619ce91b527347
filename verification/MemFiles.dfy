/** The file model behind every crash: a live image, and the image of the last
    sync (src/io.rs:196-306). */
module MemFiles {
  import opened Values

  type Image = seq<Byte>

  /** `Vec::resize(len, 0)`. */
  function Resized(live: Image, len: nat): (r: Image)
    ensures |r| == len && forall i :: 0 <= i < len ==> r[i] == if i < |live| then live[i] else 0
  {
    if len <= |live| then live[..len] else live + seq(len - |live|, i => 0)
  }

  /** The live image after writing `buf` at `offset`, zero-filled up to there. */
  ghost predicate Overwrites(after: Image, before: Image, offset: nat, buf: Image) {
    && |after| == (if |before| < offset + |buf| then offset + |buf| else |before|)
    && forall i :: 0 <= i < |after| ==>
         after[i] == if offset <= i < offset + |buf| then buf[i - offset] else if i < |before| then before[i] else 0
  }

  class MemFile {
    var live: Image
    var durable: Image
    var writeSeq: nat
    var syncedSeq: nat

    /** A sync may be skipped only when nothing was written since the last one. */
    ghost predicate Valid()
      reads this
    {
      syncedSeq <= writeSeq && (writeSeq == syncedSeq ==> live == durable)
    }

    constructor ()
      ensures Valid() && live == durable == []
    {
      live, durable, writeSeq, syncedSeq := [], [], 0, 0;
    }

    method Pread(offset: nat, n: nat) returns (buf: Image)
      ensures offset >= |live| ==> buf == []
      ensures offset < |live| ==> |buf| == (if n < |live| - offset then n else |live| - offset) && buf == live[offset..offset + |buf|]
    {
      if offset >= |live| { return []; }
      var m := if n < |live| - offset then n else |live| - offset;
      buf := live[offset..offset + m];
    }

    method Pwrite(offset: nat, buf: Image)
      requires Valid()
      modifies this`live, this`writeSeq
      ensures Valid() && Overwrites(live, old(live), offset, buf)
    {
      var end := offset + |buf|;
      if |live| < end { live := Resized(live, end); }
      live := live[..offset] + buf + live[end..];
      writeSeq := writeSeq + 1;
    }

    /** After a sync exactly the live image would survive a crash, copied or not. */
    method Sync()
      requires Valid()
      modifies this`durable, this`syncedSeq
      ensures Valid() && durable == live
    {
      if writeSeq != syncedSeq {
        durable := live;
        syncedSeq := writeSeq;
      }
    }

    method Truncate(len: nat)
      requires Valid()
      modifies this`live, this`writeSeq
      ensures Valid() && live == Resized(old(live), len)
    {
      live := Resized(live, len);
      writeSeq := writeSeq + 1;
    }

    /** Power loss. */
    method Crash()
      requires Valid()
      modifies this`live
      ensures Valid() && live == durable
    {
      live := durable;
    }
  }
}
