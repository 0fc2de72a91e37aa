/** How a child process hands its result to the parent: through a pipe or a shared-memory slot.

    Source: src/ipc_pipe.c and src/ipc_shm.c. */
module Ipc {
  import opened Words
  import opened Tallies
  import opened Checksums
  import opened Results

  type Byte = n: int | 0 <= n < 256

  const WORD_SIZE := 8
  const RESULT_SIZE := 64

  // ----- The byte image of a record -----

  function WordBytes(w: nat, size: nat): (bytes: seq<Byte>)
    ensures |bytes| == size
  {
    if size == 0 then [] else [w % 256] + WordBytes(w / 256, size - 1)
  }

  function BytesWord(bytes: seq<Byte>): nat {
    if bytes == [] then 0 else bytes[0] + 256 * BytesWord(bytes[1..])
  }

  lemma {:induction false} WordRoundTrip(w: nat, size: nat)
    requires w < Pow2(8 * size)
    ensures BytesWord(WordBytes(w, size)) == w
  {
    if size > 0 {
      assert Pow2(8 * size) == 256 * Pow2(8 * (size - 1)) by {
        Pow2By256(8 * (size - 1));
      }
      WordRoundTrip(w / 256, size - 1);
      assert WordBytes(w, size)[1..] == WordBytes(w / 256, size - 1);
    }
  }

  lemma Pow2By256(k: nat)
    ensures Pow2(k + 8) == 256 * Pow2(k)
  {
    assert Pow2(k + 2) == 4 * Pow2(k);
    assert Pow2(k + 4) == 16 * Pow2(k);
    assert Pow2(k + 6) == 64 * Pow2(k);
  }

  function Image(words: seq<Word64>): (bytes: seq<Byte>)
    ensures |bytes| == WORD_SIZE * |words|
  {
    if words == [] then [] else WordBytes(words[0], WORD_SIZE) + Image(words[1..])
  }

  function WordsOf(bytes: seq<Byte>, count: nat): (words: seq<nat>)
    requires |bytes| == WORD_SIZE * count
    ensures |words| == count
  {
    if count == 0 then [] else [BytesWord(bytes[..WORD_SIZE])] + WordsOf(bytes[WORD_SIZE..], count - 1)
  }

  lemma {:induction false} ImageRoundTrip(words: seq<Word64>)
    ensures WordsOf(Image(words), |words|) == words
  {
    if words != [] {
      var head, rest := WordBytes(words[0], WORD_SIZE), Image(words[1..]);
      assert Image(words)[..WORD_SIZE] == head && Image(words)[WORD_SIZE..] == rest;
      Pow2Of64();
      WordRoundTrip(words[0], WORD_SIZE);
      ImageRoundTrip(words[1..]);
    }
  }

  // A C `long` and the unsigned word with the same bits.
  function LongOfWord(w: int): int { if w <= LONG_MAX then w else w - TWO_64 }

  function RecordWords(r: Record): (words: seq<Word64>)
    ensures |words| == 8
  {
    [ToWord64(r.tally.total), ToWord64(r.tally.collisions),
     ToWord64(r.tally.hist[0]), ToWord64(r.tally.hist[1]), ToWord64(r.tally.hist[2]),
     ToWord64(r.tally.hist[3]), ToWord64(r.tally.hist[4]), r.checksum]
  }

  function Encode(r: Record): (bytes: seq<Byte>)
    ensures |bytes| == RESULT_SIZE
  {
    Image(RecordWords(r))
  }

  function Decode(bytes: seq<Byte>): Record
    requires |bytes| == RESULT_SIZE
  {
    var w := WordsOf(bytes, 8);
    Record(Tally(LongOfWord(w[0]), LongOfWord(w[1]),
                 [LongOfWord(w[2]), LongOfWord(w[3]), LongOfWord(w[4]), LongOfWord(w[5]), LongOfWord(w[6])]),
           w[7] % TWO_64)
  }

  ghost predicate FitsLong(t: Tally) {
    forall c: Counter :: LONG_MIN <= Get(t, c) <= LONG_MAX
  }

  lemma LongRoundTrip(v: int)
    requires LONG_MIN <= v <= LONG_MAX
    ensures LongOfWord(ToWord64(v)) == v
  {
    if v < 0 {
      ModUnique(v, -1, v + TWO_64, TWO_64);
    } else {
      ModUnique(v, 0, v, TWO_64);
    }
  }

  /** The byte image determines the record. */
  lemma RecordRoundTrip(r: Record)
    requires FitsLong(r.tally)
    ensures Decode(Encode(r)) == r
  {
    var w := RecordWords(r);
    ImageRoundTrip(w);
    assert WordsOf(Encode(r), 8) == w;
    forall c: Counter
      ensures LongOfWord(ToWord64(Get(r.tally, c))) == Get(r.tally, c)
    {
      LongRoundTrip(Get(r.tally, c));
    }
    var t := r.tally;
    var total, collisions := Get(t, Total), Get(t, Collisions);
    assert LongOfWord(w[0]) == LongOfWord(ToWord64(total)) == t.total;
    assert LongOfWord(w[1]) == LongOfWord(ToWord64(collisions)) == t.collisions;
    forall i: int | 0 <= i < RISK_BUCKETS
      ensures LongOfWord(w[2 + i]) == t.hist[i]
    {
      assert w[2 + i] == ToWord64(Get(t, Bucket(i)));
    }
  }

  lemma {:induction false} WordsOfAt(bytes: seq<Byte>, count: nat, k: nat)
    requires |bytes| == WORD_SIZE * count && k < count
    ensures WordsOf(bytes, count)[k] == BytesWord(bytes[WORD_SIZE * k..WORD_SIZE * k + WORD_SIZE])
  {
    if k > 0 {
      WordsOfAt(bytes[WORD_SIZE..], count - 1, k - 1);
      assert bytes[WORD_SIZE..][WORD_SIZE * (k - 1)..WORD_SIZE * k] == bytes[WORD_SIZE * k..WORD_SIZE * k + WORD_SIZE];
    }
  }

  /** The image is eight little-endian words of eight bytes: the trial count, the collision count, the five
      buckets and the checksum, in the order of the fields. */
  lemma ImageLayout(r: Record, k: nat)
    requires k < 8
    ensures |Encode(r)| == 64
    ensures BytesWord(Encode(r)[8 * k..8 * k + 8]) ==
      match k
      case 0 => ToWord64(r.tally.total)
      case 1 => ToWord64(r.tally.collisions)
      case 7 => r.checksum
      case _ => ToWord64(r.tally.hist[k - 2])
  {
    ImageRoundTrip(RecordWords(r));
    WordsOfAt(Encode(r), 8, k);
  }

  // ----- Pipes -----

  /** What one read or write call reports: bytes moved (0 at end of file), EINTR, or another error. */
  datatype Io = Moved(n: nat) | Interrupted | Failed

  /** A pipe between one writer and one reader that reads after the writer has closed its end. Calls move
      any number of bytes that is possible; finitely many are interrupted; on a broken pipe a call may
      fail, and a write may also move nothing. */
  class Channel {
    var bytes: seq<Byte>
    var interrupts: nat
    const broken: bool

    constructor (broken: bool, interrupts: nat)
      ensures bytes == [] && this.broken == broken && this.interrupts == interrupts
    {
      this.bytes, this.broken, this.interrupts := [], broken, interrupts;
    }

    method Write(data: seq<Byte>) returns (io: Io)
      requires data != []
      modifies this
      ensures io.Moved? ==> io.n <= |data| && bytes == old(bytes) + data[..io.n] && (io.n == 0 ==> broken)
      ensures io.Interrupted? ==> bytes == old(bytes) && interrupts < old(interrupts)
      ensures io.Failed? ==> bytes == old(bytes) && broken
      ensures interrupts <= old(interrupts)
    {
      var fate: int :| 0 <= fate < 3;
      if fate == 1 && interrupts > 0 {
        interrupts := interrupts - 1;
        return Interrupted;
      }
      if fate == 2 && broken {
        return Failed;
      }
      var n: nat :| n <= |data| && (n == 0 ==> broken);
      bytes := bytes + data[..n];
      return Moved(n);
    }

    method Read(size: nat) returns (io: Io, data: seq<Byte>)
      requires size > 0
      modifies this
      ensures io.Moved? ==>
        && io.n <= size && io.n <= |old(bytes)| && data == old(bytes)[..io.n] && bytes == old(bytes)[io.n..]
        && (io.n == 0 <==> old(bytes) == [])
      ensures io.Interrupted? ==> bytes == old(bytes) && interrupts < old(interrupts)
      ensures io.Failed? ==> bytes == old(bytes) && broken
      ensures interrupts <= old(interrupts)
    {
      data := [];
      var fate: int :| 0 <= fate < 3;
      if fate == 1 && interrupts > 0 {
        interrupts := interrupts - 1;
        return Interrupted, data;
      }
      if fate == 2 && broken {
        return Failed, data;
      }
      if bytes == [] {
        return Moved(0), data;
      }
      var n: nat :| 0 < n <= size && n <= |bytes|;
      data := bytes[..n];
      bytes := bytes[n..];
      return Moved(n), data;
    }
  }

  /** Writes all of `buf` or fails having written a proper prefix. */
  method WriteFull(ch: Channel, buf: seq<Byte>) returns (rc: int)
    modifies ch
    ensures rc == 0 || rc == -1
    ensures rc == 0 ==> ch.bytes == old(ch.bytes) + buf
    ensures rc == -1 ==> ch.broken && exists k: nat :: k < |buf| && ch.bytes == old(ch.bytes) + buf[..k]
  {
    var done := 0;
    while done < |buf|
      invariant done <= |buf| && ch.bytes == old(ch.bytes) + buf[..done]
      decreases |buf| - done, ch.interrupts
    {
      var io := ch.Write(buf[done..]);
      match io
      case Interrupted =>
      case Failed =>
        return -1;
      case Moved(n) =>
        if n == 0 {
          return -1;
        }
        assert buf[..done] + buf[done..][..n] == buf[..done + n];
        done := done + n;
    }
    assert buf[..done] == buf;
    return 0;
  }

  /** Reads exactly `size` bytes or fails; a stream that is too short always fails. */
  method ReadFull(ch: Channel, size: nat) returns (rc: int, buf: seq<Byte>)
    modifies ch
    ensures rc == 0 || rc == -1
    ensures rc == 0 ==> size <= |old(ch.bytes)| && buf == old(ch.bytes)[..size] && ch.bytes == old(ch.bytes)[size..]
    ensures |old(ch.bytes)| < size ==> rc == -1
    ensures rc == -1 ==> ch.broken || |old(ch.bytes)| < size
  {
    buf := [];
    ghost var all := ch.bytes;
    while |buf| < size
      invariant |buf| <= size && |buf| <= |all| && buf == all[..|buf|] && ch.bytes == all[|buf|..]
      decreases size - |buf|, ch.interrupts
    {
      var io, data := ch.Read(size - |buf|);
      match io
      case Interrupted =>
      case Failed =>
        return -1, buf;
      case Moved(n) =>
        if n == 0 {
          return -1, buf;
        }
        assert all[..|buf|] + all[|buf|..][..n] == all[..|buf| + n];
        buf := buf + data;
    }
    return 0, buf;
  }

  method WriteResult(ch: Channel, r: Record) returns (rc: int)
    modifies ch
    ensures rc == 0 || rc == -1
    ensures rc == 0 ==> ch.bytes == old(ch.bytes) + Encode(r)
    ensures rc == -1 ==> ch.broken && exists k: nat :: k < RESULT_SIZE && ch.bytes == old(ch.bytes) + Encode(r)[..k]
  {
    rc := WriteFull(ch, Encode(r));
  }

  /** The stream starts with the image of some record exactly when that record is returned. */
  method ReadResult(ch: Channel) returns (rc: int, r: Record)
    modifies ch
    ensures rc == 0 || rc == -1
    ensures rc == 0 ==> |old(ch.bytes)| >= RESULT_SIZE && r == Decode(old(ch.bytes)[..RESULT_SIZE])
    ensures |old(ch.bytes)| < RESULT_SIZE ==> rc == -1
    ensures rc == -1 ==> ch.broken || |old(ch.bytes)| < RESULT_SIZE
  {
    var buf;
    rc, buf := ReadFull(ch, RESULT_SIZE);
    r := if rc == 0 then Decode(buf) else Record(ZERO, 0);
  }

  /** A write that succeeds followed by a read that succeeds reproduces the record, however the two
      transfers are split and interrupted; on a sound pipe both succeed. */
  method HandOver(ch: Channel, r: Record) returns (written: int, read: int, copy: Record)
    requires ch.bytes == [] && FitsLong(r.tally)
    modifies ch
    ensures written == 0 && read == 0 ==> copy == r
    ensures written != 0 ==> read != 0
    ensures !ch.broken ==> written == 0 && read == 0
  {
    written := WriteResult(ch, r);
    RecordRoundTrip(r);
    assert [] + Encode(r) == Encode(r) && Encode(r)[..RESULT_SIZE] == Encode(r);
    read, copy := ReadResult(ch);
  }

  // ----- Shared memory -----

  class ShmTable {
    const slots: array<Record>
    const done: array<bool>

    ghost predicate Valid() { slots.Length == done.Length }

    constructor (count: nat)
      ensures Valid() && fresh(slots) && fresh(done) && slots.Length == count
      ensures forall i :: 0 <= i < count ==> !done[i]
    {
      slots := new Record[count](_ => Record(ZERO, 0));
      done := new bool[count](_ => false);
    }

    /** A slot out of range is ignored; a slot in range is the only thing that changes. */
    method WriteResult(slot: int, r: Record)
      requires Valid()
      modifies slots, done
      ensures forall i :: 0 <= i < slots.Length ==>
        if i == slot then done[i] && slots[i] == r else done[i] == old(done[i]) && slots[i] == old(slots[i])
    {
      if slot < 0 || slot >= slots.Length {
        return;
      }
      slots[slot] := r;
      done[slot] := true;
    }

    method ReadResult(slot: int) returns (ok: bool, r: Record)
      requires Valid()
      ensures ok <==> 0 <= slot < slots.Length && done[slot]
      ensures ok ==> r == slots[slot]
    {
      if slot < 0 || slot >= slots.Length || !done[slot] {
        return false, Record(ZERO, 0);
      }
      return true, slots[slot];
    }
  }
}
