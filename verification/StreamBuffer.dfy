/** Stream and message buffers: a ring of bytes with one writer and one reader. */
module StreamBuffer {
  import QR = QueueRing

  type Byte = x: nat | x < 256

  /** The number of bytes that hold the length of a message. */
  const HEADER: nat := 4
  const SIZES: nat := 0x1_0000_0000

  function Min(a: nat, b: nat): nat {
    if a < b then a else b
  }

  /** The number of bytes from tail to head in a ring of n. */
  function Distance(tail: nat, head: nat, n: nat): nat
    requires tail < n && head < n
  {
    if head >= tail then head - tail else head + n - tail
  }

  /** The bytes of a ring from tail to head. */
  function Between(ring: seq<Byte>, tail: nat, head: nat): (c: seq<Byte>)
    requires tail < |ring| && head < |ring|
    ensures |c| == Distance(tail, head, |ring|)
  {
    var n := Distance(tail, head, |ring|);
    seq(n, i requires 0 <= i < n => ring[QR.Slot(tail, i, |ring|)])
  }

  /** A size as it lies in memory. */
  function Encode(n: nat): (b: seq<Byte>)
    requires n < SIZES
    ensures |b| == HEADER
  {
    [n % 256, n / 256 % 256, n / 65536 % 256, n / 16777216 % 256]
  }

  function Decode(b: seq<Byte>): nat
    requires |b| == HEADER
  {
    (b[0] as int) + 256 * (b[1] as int) + 65536 * (b[2] as int) + 16777216 * (b[3] as int)
  }

  lemma DecodeEncode(n: nat)
    requires n < SIZES
    ensures Decode(Encode(n)) == n
  {
    assert n == n % 256 + 256 * (n / 256);
    assert n / 65536 == n / 256 / 256 && n / 16777216 == n / 65536 / 256;
    assert n / 256 == n / 256 % 256 + 256 * (n / 65536);
    assert n / 65536 == n / 65536 % 256 + 256 * (n / 16777216);
  }

  lemma Digit(r: nat, x: nat)
    requires r < 256
    ensures (r + 256 * x) % 256 == r && (r + 256 * x) / 256 == x
  {
  }

  lemma DivideTwice(n: nat)
    ensures n / 65536 == n / 256 / 256 && n / 16777216 == n / 256 / 256 / 256
  {
  }

  lemma EncodeDecode(b: seq<Byte>)
    requires |b| == HEADER
    ensures Decode(b) < SIZES && Encode(Decode(b)) == b
  {
    var b0: nat, b1: nat, b2: nat, b3: nat := b[0], b[1], b[2], b[3];
    Digit(b2, b3);
    Digit(b1, b2 + 256 * b3);
    Digit(b0, b1 + 256 * (b2 + 256 * b3));
    DivideTwice(Decode(b));
    assert Decode(b) == b0 + 256 * (b1 + 256 * (b2 + 256 * b3));
  }

  ghost predicate Sendable(m: seq<Byte>) {
    0 < |m| < SIZES
  }

  ghost predicate AllSendable(ms: seq<seq<Byte>>) {
    forall i :: 0 <= i < |ms| ==> Sendable(ms[i])
  }

  /** Messages as they follow each other in the buffer. */
  function Frames(ms: seq<seq<Byte>>): seq<Byte>
    requires AllSendable(ms)
  {
    if ms == [] then [] else Encode(|ms[0]|) + ms[0] + Frames(ms[1..])
  }

  lemma {:induction false} FramesAppend(ms: seq<seq<Byte>>, m: seq<Byte>)
    requires AllSendable(ms) && Sendable(m)
    ensures AllSendable(ms + [m]) && Frames(ms + [m]) == Frames(ms) + Encode(|m|) + m
    decreases |ms|
  {
    if ms == [] {
      assert ms + [m] == [m];
      assert Frames([m]) == Encode(|m|) + m + Frames([]);
    } else {
      FramesAppend(ms[1..], m);
      assert (ms + [m])[1..] == ms[1..] + [m];
    }
  }

  // ----- the ring -----

  /** Writing behind the head leaves the contents alone. */
  lemma {:induction false} WriteOutside(ring: seq<Byte>, tail: nat, head: nat, k: nat, x: Byte)
    requires tail < |ring| && head < |ring| && Distance(tail, head, |ring|) + k < |ring|
    ensures var r := ring[QR.Slot(head, k, |ring|) := x]; Between(r, tail, head) == Between(ring, tail, head)
  {
  }

  /** Moving the head on takes in what was written there. */
  lemma {:induction false} HeadMoves(ring: seq<Byte>, tail: nat, head: nat, chunk: seq<Byte>)
    requires tail < |ring| && head < |ring| && Distance(tail, head, |ring|) + |chunk| < |ring|
    requires forall i :: 0 <= i < |chunk| ==> ring[QR.Slot(head, i, |ring|)] == chunk[i]
    ensures Between(ring, tail, QR.Slot(head, |chunk|, |ring|)) == Between(ring, tail, head) + chunk
  {
    var c, d := Between(ring, tail, head), Between(ring, tail, QR.Slot(head, |chunk|, |ring|));
    assert |d| == |c| + |chunk|;
    forall i | 0 <= i < |d| ensures d[i] == (c + chunk)[i] {
      if i >= |c| {
        assert QR.Slot(tail, i, |ring|) == QR.Slot(head, i - |c|, |ring|);
        assert chunk[i - |c|] == ring[QR.Slot(head, i - |c|, |ring|)];
      }
    }
  }

  /** Moving the tail on drops bytes from the front. */
  lemma {:induction false} TailMoves(ring: seq<Byte>, tail: nat, head: nat, n: nat)
    requires tail < |ring| && head < |ring| && n <= Distance(tail, head, |ring|)
    ensures Between(ring, QR.Slot(tail, n, |ring|), head) == Between(ring, tail, head)[n..]
  {
  }

  /** What lies just before the tail comes back when the tail does. */
  lemma {:induction false} TailBack(ring: seq<Byte>, from: nat, tail: nat, head: nat, chunk: seq<Byte>)
    requires from < |ring| && tail < |ring| && head < |ring| && |chunk| <= |ring|
    requires tail == QR.Slot(from, |chunk|, |ring|)
    requires forall i :: 0 <= i < |chunk| ==> ring[QR.Slot(from, i, |ring|)] == chunk[i]
    requires Distance(tail, head, |ring|) + |chunk| < |ring|
    ensures Between(ring, from, head) == chunk + Between(ring, tail, head)
  {
    var b, c := Between(ring, from, head), Between(ring, tail, head);
    assert |b| == |chunk| + |c|;
    forall i | 0 <= i < |b| ensures b[i] == (chunk + c)[i] {
      if i >= |chunk| { assert QR.Slot(from, i, |ring|) == QR.Slot(tail, i - |chunk|, |ring|); }
    }
  }

  /** One call at a time, with the buffer updated in place. */
  class Buffer {
    const bytes: array<Byte>
    const isMessageBuffer: bool
    var head: nat
    var tail: nat

    ghost predicate Valid()
      reads this
    {
      HEADER < bytes.Length <= SIZES && head < bytes.Length && tail < bytes.Length
    }

    ghost function Contents(): seq<Byte>
      requires Valid()
      reads this, bytes
    {
      Between(bytes[..], tail, head)
    }

    /** prvInitialiseNewStreamBuffer. */
    constructor (size: nat, isMessageBuffer: bool)
      requires HEADER < size <= SIZES
      ensures Valid() && Contents() == [] && fresh(bytes)
      ensures bytes.Length == size && this.isMessageBuffer == isMessageBuffer
    {
      bytes := new Byte[size];
      this.isMessageBuffer := isMessageBuffer;
      head, tail := 0, 0;
    }

    /** prvBytesInBuffer. */
    method BytesInBuffer() returns (count: nat)
      requires Valid()
      ensures count == |Contents()|
    {
      count := bytes.Length + head;
      count := count - tail;
      if count >= bytes.Length {
        count := count - bytes.Length;
      }
    }

    /** xStreamBufferSpacesAvailable: one place is never used. */
    method SpacesAvailable() returns (space: nat)
      requires Valid()
      ensures space == bytes.Length - 1 - |Contents()|
    {
      space := bytes.Length + tail;
      space := space - head;
      var s: int := space - 1;
      if s >= bytes.Length {
        s := s - bytes.Length;
      }
      space := s;
    }

    /** prvWriteBytesToBuffer. */
    method WriteBytes(data: seq<Byte>)
      requires Valid() && 0 < |data| && |Contents()| + |data| < bytes.Length
      modifies this`head, bytes
      ensures Valid() && Contents() == old(Contents()) + data
    {
      var nextHead := head;
      var firstLength := Min(bytes.Length - nextHead, |data|);
      var i := 0;
      while i < firstLength
        invariant 0 <= i <= firstLength && Valid() && Contents() == old(Contents())
        invariant forall k {:trigger data[k]} :: 0 <= k < i ==> bytes[QR.Slot(head, k, bytes.Length)] == data[k]
      {
        WriteOutside(bytes[..], tail, head, i, data[i]);
        ghost var was := bytes[..];
        bytes[nextHead + i] := data[i];
        assert bytes[..] == was[QR.Slot(head, i, bytes.Length) := data[i]];
        i := i + 1;
      }
      while i < |data|
        invariant firstLength <= i <= |data| && Valid() && Contents() == old(Contents())
        invariant forall k {:trigger data[k]} :: 0 <= k < i ==> bytes[QR.Slot(head, k, bytes.Length)] == data[k]
      {
        WriteOutside(bytes[..], tail, head, i, data[i]);
        ghost var was := bytes[..];
        bytes[i - firstLength] := data[i];
        assert bytes[..] == was[QR.Slot(head, i, bytes.Length) := data[i]];
        i := i + 1;
      }
      HeadMoves(bytes[..], tail, head, data);
      nextHead := nextHead + |data|;
      if nextHead >= bytes.Length {
        nextHead := nextHead - bytes.Length;
      }
      head := nextHead;
    }

    /** prvReadBytesFromBuffer. */
    method ReadBytes(maxCount: nat, available: nat) returns (data: seq<Byte>)
      requires Valid() && available <= |Contents()|
      modifies this`tail
      ensures Valid() && data == old(Contents())[..Min(available, maxCount)]
      ensures Contents() == old(Contents())[Min(available, maxCount)..]
    {
      var count := Min(available, maxCount);
      data := [];
      if count > 0 {
        var nextTail := tail;
        var firstLength := Min(bytes.Length - nextTail, count);
        data := bytes[nextTail..nextTail + firstLength];
        if count > firstLength {
          data := data + bytes[..count - firstLength];
        }
        TailMoves(bytes[..], tail, head, count);
        assert data == Contents()[..count];
        nextTail := nextTail + count;
        if nextTail >= bytes.Length {
          nextTail := nextTail - bytes.Length;
        }
        tail := nextTail;
      }
    }

    /** xStreamBufferSend without waiting: a stream takes what fits, a message buffer takes all or nothing. */
    method Send(data: seq<Byte>) returns (accepted: nat)
      requires Valid() && Sendable(data)
      modifies this, bytes
      ensures Valid()
      ensures var space := bytes.Length - 1 - |old(Contents())|;
              accepted == if !isMessageBuffer then Min(|data|, space)
                          else if |data| + HEADER <= space then |data| else 0
      ensures Contents() == old(Contents()) + if isMessageBuffer && accepted > 0 then Encode(|data|) + data
                                              else data[..accepted]
    {
      var required := if isMessageBuffer then |data| + HEADER else |data|;
      var space := SpacesAvailable();
      if space == 0 {
        accepted := 0;
      } else if !isMessageBuffer {
        accepted := Min(|data|, space);
        WriteBytes(data[..accepted]);
      } else if space >= required {
        WriteBytes(Encode(|data|));
        WriteBytes(data);
        accepted := |data|;
      } else {
        accepted := 0;
      }
    }

    /** xStreamBufferReceive without waiting, on a stream. */
    method ReceiveStream(maxCount: nat) returns (data: seq<Byte>)
      requires Valid() && !isMessageBuffer
      modifies this
      ensures Valid() && old(Contents()) == data + Contents() && |data| == Min(maxCount, |old(Contents())|)
    {
      var available := BytesInBuffer();
      data := [];
      if available > 0 {
        data := ReadBytes(maxCount, available);
      }
    }

    /** xStreamBufferReceive without waiting, on a message buffer: the first message, if the receiver has room
        for it; if not, the tail goes back to where it was. */
    method ReceiveMessage(maxCount: nat, ghost ms: seq<seq<Byte>>) returns (data: seq<Byte>)
      requires Valid() && isMessageBuffer && AllSendable(ms) && Contents() == Frames(ms)
      modifies this
      ensures Valid()
      ensures if ms != [] && |ms[0]| <= maxCount then data == ms[0] && Contents() == Frames(ms[1..])
              else data == [] && Contents() == old(Contents())
    {
      var available := BytesInBuffer();
      data := [];
      if available > HEADER {
        assert ms != [] && Contents() == Encode(|ms[0]|) + ms[0] + Frames(ms[1..]);
        DecodeEncode(|ms[0]|);
        var originalTail := tail;
        ghost var was := Contents();
        var header := ReadBytes(HEADER, available);
        assert header == Encode(|ms[0]|);
        var length := Decode(header);
        available := available - HEADER;
        if length > maxCount {
          tail := originalTail;
          assert Contents() == was;
          length := 0;
        }
        assert length > 0 ==> Contents() == ms[0] + Frames(ms[1..]);
        data := ReadBytes(length, available);
      }
    }
  }
}
