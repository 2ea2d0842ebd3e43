/** The circular recording buffer shared by the capture loop and the
    recognition loop of `MainActivity`, without the lock around it: a write of
    freshly captured samples, which wraps around the end of the buffer, and a
    read that lays the whole buffer out oldest sample first. */
module RecordingBuffer {
  import opened Wrappers

  /** A signed 16-bit PCM sample (a Java `short`). */
  newtype Sample = x: int | -32768 <= x < 32768

  /** The recording buffer together with the offset of the next write. The app
      sizes it at one second of 16 kHz audio; the model admits any positive
      length. */
  datatype Ring = Ring(buffer: seq<Sample>, offset: int)

  predicate Valid(ring: Ring) {
    |ring.buffer| > 0 && 0 <= ring.offset < |ring.buffer|
  }

  /** The bounds `System.arraycopy` insists on; outside them it throws
      `IndexOutOfBoundsException`. */
  predicate CopyInBounds(srcLength: int, srcPos: int, destLength: int, destPos: int, length: int) {
    && 0 <= srcPos && 0 <= destPos && 0 <= length
    && srcPos + length <= srcLength
    && destPos + length <= destLength
  }

  /** `System.arraycopy` between two distinct arrays, within bounds. */
  function Copy<T>(src: seq<T>, srcPos: int, dest: seq<T>, destPos: int, length: int): (r: seq<T>)
    requires CopyInBounds(|src|, srcPos, |dest|, destPos, length)
    ensures |r| == |dest|
    ensures forall i :: 0 <= i < destPos || destPos + length <= i < |dest| ==> r[i] == dest[i]
    ensures forall i :: destPos <= i < destPos + length ==> r[i] == src[srcPos + i - destPos]
  {
    dest[..destPos] + src[srcPos..srcPos + length] + dest[destPos + length..]
  }

  /** `System.arraycopy` between two distinct arrays; `None` stands for the
      exception it throws when the bounds do not hold. */
  function ArrayCopy<T>(src: seq<T>, srcPos: int, dest: seq<T>, destPos: int, length: int): (r: Option<seq<T>>)
    ensures r.Some? <==> CopyInBounds(|src|, srcPos, |dest|, destPos, length)
    ensures r.Some? ==> r.value == Copy(src, srcPos, dest, destPos, length)
  {
    if CopyInBounds(|src|, srcPos, |dest|, destPos, length) then Some(Copy(src, srcPos, dest, destPos, length))
    else None
  }

  function Max(a: int, b: int): int {
    if a >= b then a else b
  }

  /** The split of a write of `n` samples at `offset` into the part that fits
      before the end of the buffer and the part that wraps to its start. */
  function WriteSplit(offset: int, n: int, maxLength: int): (r: (int, int))
    ensures r.0 + r.1 == n
    ensures 0 <= offset < maxLength && 0 <= n <= maxLength ==>
              && 0 <= r.0 <= n && r.0 <= maxLength - offset
              && (r.0 == n || r.0 == maxLength - offset)
              && 0 <= r.1 <= offset
              && (r.1 == 0 <==> offset + n <= maxLength)
  {
    var secondCopyLength := Max(0, offset + n - maxLength);
    (n - secondCopyLength, secondCopyLength)
  }

  /** How many steps forward from position `from` the position `p` lies, going
      round the end of a buffer of length `m`. */
  function Distance(from: int, p: int, m: int): (d: int)
    requires 0 <= from < m && 0 <= p < m
    ensures 0 <= d < m
    ensures (from + d) % m == p
  {
    if p >= from then ModWrap(p, m); p - from
    else ModWrap(p + m, m); p - from + m
  }

  /** The capture loop's update of the buffer with the first `n` samples of
      `audio`; `None` stands for an exception raised by one of the two copies. */
  function Write(ring: Ring, audio: seq<Sample>, n: int): (r: Option<Ring>)
    requires Valid(ring)
    ensures r.Some? <==> 0 <= n <= |audio| && ring.offset + n <= 2 * |ring.buffer|
    ensures r.Some? ==>
              && Valid(r.value)
              && |r.value.buffer| == |ring.buffer|
              && r.value.offset == (ring.offset + n) % |ring.buffer|
  {
    var maxLength := |ring.buffer|;
    var newRecordingOffset := ring.offset + n;
    var (firstCopyLength, secondCopyLength) := WriteSplit(ring.offset, n, maxLength);
    match ArrayCopy(audio, 0, ring.buffer, ring.offset, firstCopyLength)
    case None => None
    case Some(b1) =>
      match ArrayCopy(audio, firstCopyLength, b1, 0, secondCopyLength)
      case None => None
      // both copies succeeded, so `n >= 0` and Java's `%` agrees with Dafny's
      case Some(b2) => Some(Ring(b2, newRecordingOffset % maxLength))
  }

  /** The contents after a write of at most a buffer's worth of samples: the
      position `d` steps after the old offset holds sample `d` when `d < n`,
      and its old sample otherwise. */
  lemma WriteContents(ring: Ring, audio: seq<Sample>, n: int)
    requires Valid(ring) && 0 <= n <= |audio| && n <= |ring.buffer|
    ensures Write(ring, audio, n).Some?
    ensures forall p :: 0 <= p < |ring.buffer| ==>
              Write(ring, audio, n).value.buffer[p] ==
                (var d := Distance(ring.offset, p, |ring.buffer|);
                 if d < n then audio[d] else ring.buffer[p])
  {
  }

  /** The recognition loop's copy of the buffer into `input` (an array of the
      same length), oldest sample first. */
  function Read(ring: Ring, input: seq<Sample>): (r: seq<Sample>)
    requires Valid(ring) && |input| == |ring.buffer|
    ensures |r| == |ring.buffer|
    ensures forall i :: 0 <= i < |r| ==> r[i] == ring.buffer[(ring.offset + i) % |ring.buffer|]
  {
    var maxLength := |ring.buffer|;
    var firstCopyLength := maxLength - ring.offset;
    var secondCopyLength := ring.offset;
    var b1 := Copy(ring.buffer, ring.offset, input, 0, firstCopyLength);
    var r := Copy(ring.buffer, 0, b1, firstCopyLength, secondCopyLength);
    assert forall i :: 0 <= i < maxLength ==> r[i] == ring.buffer[(ring.offset + i) % maxLength] by {
      forall i | 0 <= i < maxLength ensures r[i] == ring.buffer[(ring.offset + i) % maxLength] {
        ModWrap(ring.offset + i, maxLength);
      }
    }
    r
  }

  /** Reduction modulo `m` of a value below `2 * m`. */
  lemma ModWrap(a: int, m: int)
    requires 0 <= a < 2 * m
    ensures a % m == if a < m then a else a - m
  {
    if a >= m {
      assert a == m + (a - m);
      assert (a - m) % m == a - m;
      assert a / m == 1;
    }
  }

  lemma DistanceOfStep(from: int, k: int, m: int)
    requires 0 <= from < m && 0 <= k < m
    ensures Distance(from, (from + k) % m, m) == k
  {
    ModWrap(from + k, m);
  }

  /** The buffer positions a write of `n` samples at `offset` covers, in the
      order the samples land there. */
  function WrittenPositions(offset: int, n: nat, m: int): (ps: seq<int>)
    requires 0 <= offset < m
    ensures |ps| == n
  {
    seq(n, k => (offset + k) % m)
  }

  /** Sample `k` of `audio` sits `k` positions after `start`, for every `k < n`. */
  predicate StoredFrom(buffer: seq<Sample>, start: int, audio: seq<Sample>, n: int)
    requires |buffer| > 0 && 0 <= n <= |audio|
  {
    forall k :: 0 <= k < n ==> buffer[(start + k) % |buffer|] == audio[k]
  }

  /** After a write of at most a buffer's worth of samples, sample `k` sits `k`
      positions after the old offset. */
  lemma {:induction false} WriteStoresSamples(ring: Ring, audio: seq<Sample>, n: int)
    requires Valid(ring) && 0 <= n <= |audio| && n <= |ring.buffer|
    ensures Write(ring, audio, n).Some?
    ensures StoredFrom(Write(ring, audio, n).value.buffer, ring.offset, audio, n)
  {
    WriteContents(ring, audio, n);
    forall k | 0 <= k < n
      ensures Write(ring, audio, n).value.buffer[(ring.offset + k) % |ring.buffer|] == audio[k]
    {
      DistanceOfStep(ring.offset, k, |ring.buffer|);
    }
  }

  /** ... and every position the write does not cover keeps its sample. */
  lemma {:induction false} WriteKeepsOthers(ring: Ring, audio: seq<Sample>, n: int)
    requires Valid(ring) && 0 <= n <= |audio| && n <= |ring.buffer|
    ensures Write(ring, audio, n).Some?
    ensures forall p :: 0 <= p < |ring.buffer| && p !in WrittenPositions(ring.offset, n, |ring.buffer|) ==>
              Write(ring, audio, n).value.buffer[p] == ring.buffer[p]
  {
    var m := |ring.buffer|;
    WriteContents(ring, audio, n);
    forall p | 0 <= p < m && p !in WrittenPositions(ring.offset, n, m)
      ensures Write(ring, audio, n).value.buffer[p] == ring.buffer[p]
    {
      WrittenIff(ring.offset, n, m, p);
    }
  }

  /** A position is covered by the write exactly when it lies fewer than `n`
      steps after the offset. */
  lemma WrittenIff(offset: int, n: nat, m: int, p: int)
    requires 0 <= offset < m && 0 <= p < m && n <= m
    ensures p in WrittenPositions(offset, n, m) <==> Distance(offset, p, m) < n
  {
    var ws := WrittenPositions(offset, n, m);
    var d := Distance(offset, p, m);
    if d < n {
      assert ws[d] == p;
    }
    if p in ws {
      var k :| 0 <= k < n && ws[k] == p;
      DistanceOfStep(offset, k, m);
    }
  }

  /** Position `m - n + k` of the read after a write of `n` samples is the
      position sample `k` was written to. */
  lemma ReadPositionAfterWrite(offset: int, n: int, m: int, k: int)
    requires 0 <= offset < m && 0 <= k < n <= m
    ensures ((offset + n) % m + (m - n + k)) % m == (offset + k) % m
  {
    ModWrap(offset + n, m);
    ModWrap(offset + k, m);
    if offset + n < m {
      ModWrap(offset + k + m, m);
    }
  }

  /** A buffer that holds `n` samples in the positions before its offset reads
      back ending with them. */
  lemma ReadEndsWith(w: Ring, input: seq<Sample>, audio: seq<Sample>, n: int, start: int)
    requires Valid(w) && |input| == |w.buffer| && 0 <= start < |w.buffer|
    requires 0 <= n <= |audio| && n <= |w.buffer|
    requires w.offset == (start + n) % |w.buffer|
    requires StoredFrom(w.buffer, start, audio, n)
    ensures Read(w, input)[|w.buffer| - n..] == audio[..n]
  {
    var m := |w.buffer|;
    var r := Read(w, input);
    forall k | 0 <= k < n ensures r[m - n + k] == audio[k] {
      ReadPositionAfterWrite(start, n, m, k);
    }
  }

  /** Reading right after a write of at most a buffer's worth of samples ends
      with exactly those samples, in order. */
  lemma {:induction false} WriteThenRead(ring: Ring, audio: seq<Sample>, n: int, input: seq<Sample>)
    requires Valid(ring) && 0 <= n <= |audio| && n <= |ring.buffer| && |input| == |ring.buffer|
    ensures Write(ring, audio, n).Some?
    ensures Read(Write(ring, audio, n).value, input)[|ring.buffer| - n..] == audio[..n]
  {
    WriteStoresSamples(ring, audio, n);
    ReadEndsWith(Write(ring, audio, n).value, input, audio, n, ring.offset);
  }
}
