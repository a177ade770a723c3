/** One writer and one reader of a stream or message buffer, interleaved at every load, copied byte and store
    of the shared head and tail. */
module StreamInterleaving {
  import opened StreamBuffer
  import QR = QueueRing

  /** The writer: it has loaded the tail and seen so much space, or copies a chunk behind the head. In a message
      buffer the chunk is first the length and then the message. */
  datatype Writer = Resting | Room(space: nat) | Writing(chunk: seq<Byte>, copied: nat, rest: seq<Byte>)

  /** The reader: it has loaded the head and seen so many bytes; or copies n of them, out being what it has;
      or it has the length of a message and decides whether it has room, from being the tail to go back to. */
  datatype Reader =
    | Idle
    | Seen(available: nat)
    | Reading(n: nat, out: seq<Byte>, available: nat, maxCount: nat, header: bool)
    | Judging(from: nat, length: nat, available: nat, maxCount: nat)

  /** sent are the chunks of data stored by the writer, got those handed over by the reader; published and
      consumed are the bytes that head and tail have passed. */
  datatype State = State(message: bool, ring: seq<Byte>, head: nat, tail: nat, writer: Writer, reader: Reader,
                         sent: seq<seq<Byte>>, got: seq<seq<Byte>>, published: seq<Byte>, consumed: seq<Byte>)

  datatype Event =
    | LoadTail
    | StartSend(data: seq<Byte>)
    | CopyIn
    | StoreHead
    | LoadHead
    | StartReceive(maxCount: nat)
    | CopyOut
    | StoreTail
    | Judge

  predicate Shape(s: State) {
    HEADER < |s.ring| <= SIZES && s.head < |s.ring| && s.tail < |s.ring|
  }

  function Contents(s: State): seq<Byte>
    requires Shape(s)
  {
    Between(s.ring, s.tail, s.head)
  }

  function Size(s: State): nat
    requires Shape(s)
  {
    Distance(s.tail, s.head, |s.ring|)
  }

  function Initial(message: bool, ring: seq<Byte>): State {
    State(message, ring, 0, 0, Resting, Idle, [], [], [], [])
  }

  /** prvWriteMessageToBuffer, up to the first byte. */
  function StartedSend(s: State, space: nat, data: seq<Byte>): State {
    if space == 0 || data == [] || |data| >= SIZES then s.(writer := Resting)
    else if !s.message then s.(writer := Writing(data[..Min(|data|, space)], 0, []))
    else if space >= |data| + HEADER then s.(writer := Writing(Encode(|data|), 0, data))
    else s.(writer := Resting)
  }

  /** The end of prvWriteBytesToBuffer. */
  function StoredHead(s: State): State
    requires Shape(s) && s.writer.Writing? && |s.writer.chunk| <= |s.ring|
  {
    var w := s.writer;
    var r := s.(head := QR.Slot(s.head, |w.chunk|, |s.ring|), published := s.published + w.chunk);
    if w.rest != [] then r.(writer := Writing(w.rest, 0, []))
    else r.(writer := Resting, sent := s.sent + [w.chunk])
  }

  function WriterStep(s: State, e: Event): State
    requires Shape(s)
  {
    match e
    case LoadTail => if s.writer.Writing? then s else s.(writer := Room(|s.ring| - 1 - Size(s)))
    case StartSend(data) => if s.writer.Room? then StartedSend(s, s.writer.space, data) else s
    case CopyIn =>
      if s.writer.Writing? && s.writer.copied < |s.writer.chunk| <= |s.ring| then
        var w := s.writer;
        s.(ring := s.ring[QR.Slot(s.head, w.copied, |s.ring|) := w.chunk[w.copied]],
           writer := w.(copied := w.copied + 1))
      else s
    case StoreHead =>
      if s.writer.Writing? && s.writer.copied == |s.writer.chunk| <= |s.ring| then StoredHead(s) else s
    case _ => s
  }

  /** xStreamBufferReceive, up to the first byte. */
  function StartedReceive(s: State, available: nat, maxCount: nat): State {
    if available <= (if s.message then HEADER else 0) then s.(reader := Idle)
    else if s.message then s.(reader := Reading(HEADER, [], available, maxCount, true))
    else if maxCount == 0 then s.(reader := Idle)
    else s.(reader := Reading(Min(available, maxCount), [], available, maxCount, false))
  }

  /** The end of prvReadBytesFromBuffer. */
  function StoredTail(s: State): State
    requires Shape(s) && s.reader.Reading? && s.reader.n == |s.reader.out| <= |s.ring|
  {
    var r := s.reader;
    var moved := s.(tail := QR.Slot(s.tail, r.n, |s.ring|), consumed := s.consumed + r.out);
    if r.header && r.n == HEADER && r.available >= HEADER then
      moved.(reader := Judging(s.tail, Decode(r.out), r.available - HEADER, r.maxCount))
    else moved.(reader := Idle, got := s.got + [r.out])
  }

  /** A message that is too long for the receiver stays: the tail goes back. */
  function Judged(s: State): State
    requires s.reader.Judging?
  {
    var r := s.reader;
    if r.length > r.maxCount then
      s.(tail := r.from, reader := Idle,
         consumed := s.consumed[..if |s.consumed| >= HEADER then |s.consumed| - HEADER else 0])
    else if Min(r.length, r.available) == 0 then s.(reader := Idle)
    else s.(reader := Reading(Min(r.length, r.available), [], r.available, r.maxCount, false))
  }

  function ReaderStep(s: State, e: Event): State
    requires Shape(s)
  {
    match e
    case LoadHead => if s.reader.Idle? || s.reader.Seen? then s.(reader := Seen(Size(s))) else s
    case StartReceive(maxCount) => if s.reader.Seen? then StartedReceive(s, s.reader.available, maxCount) else s
    case CopyOut =>
      if s.reader.Reading? && |s.reader.out| < s.reader.n <= |s.ring| then
        s.(reader := s.reader.(out := s.reader.out + [s.ring[QR.Slot(s.tail, |s.reader.out|, |s.ring|)]]))
      else s
    case StoreTail =>
      if s.reader.Reading? && s.reader.n == |s.reader.out| <= |s.ring| then StoredTail(s) else s
    case Judge => if s.reader.Judging? then Judged(s) else s
    case _ => s
  }

  /** One step; a step that is not possible now changes nothing. */
  function Step(s: State, e: Event): State
    requires Shape(s)
  {
    if e.LoadTail? || e.StartSend? || e.CopyIn? || e.StoreHead? then WriterStep(s, e) else ReaderStep(s, e)
  }

  // ----- invariants -----

  /** All bytes of a number of chunks. */
  function Flat(chunks: seq<seq<Byte>>): seq<Byte> {
    if chunks == [] then [] else Flat(chunks[..|chunks| - 1]) + chunks[|chunks| - 1]
  }

  lemma FlatAppend(chunks: seq<seq<Byte>>, c: seq<Byte>)
    ensures Flat(chunks + [c]) == Flat(chunks) + c
  {
    assert (chunks + [c])[..|chunks|] == chunks;
  }

  /** What the writer relies on: the space it saw is still free. */
  ghost predicate WriterOk(s: State)
    requires Shape(s)
  {
    match s.writer
    case Resting => true
    case Room(space) => Size(s) + space < |s.ring|
    case Writing(chunk, copied, rest) =>
      && 0 < |chunk| && copied <= |chunk| && Size(s) + |chunk| + |rest| < |s.ring|
      && (forall i {:trigger chunk[i]} :: 0 <= i < copied ==> s.ring[QR.Slot(s.head, i, |s.ring|)] == chunk[i])
      && (rest != [] ==> s.message && |rest| < SIZES && chunk == Encode(|rest|))
  }

  /** What the reader relies on: the bytes it saw are still there, and out is the first of them. */
  ghost predicate ReaderOk(s: State)
    requires Shape(s)
  {
    match s.reader
    case Idle => true
    case Seen(available) => available <= Size(s)
    case Reading(n, out, available, _, header) =>
      && n <= available <= Size(s) && |out| <= n && out == Contents(s)[..|out|]
      && (header ==> s.message && n == HEADER)
    case Judging(from, length, available, _) =>
      && available <= Size(s) && s.message && length < SIZES
      && from < |s.ring| && s.tail == QR.Slot(from, HEADER, |s.ring|)
      && |s.consumed| >= HEADER && s.consumed[|s.consumed| - HEADER..] == Encode(length)
      && (Size(s) + Copied(s) + HEADER <= |s.ring| ==> LengthKept(s.ring, from, length))
  }

  /** The bytes that the writer has put behind the head. */
  function Copied(s: State): nat {
    if s.writer.Writing? then s.writer.copied else 0
  }

  /** The length that the reader has taken is still in the ring. */
  ghost predicate LengthKept(ring: seq<Byte>, from: nat, length: nat) {
    && HEADER <= |ring| && from < |ring| && length < SIZES
    && forall i {:trigger Encode(length)[i]} :: 0 <= i < HEADER ==> ring[QR.Slot(from, i, |ring|)] == Encode(length)[i]
  }

  /** Writing so far behind the head does not reach the bytes before the tail. */
  lemma {:induction false} LengthStays(ring: seq<Byte>, from: nat, tail: nat, head: nat, length: nat, k: nat, x: Byte)
    requires LengthKept(ring, from, length) && tail == QR.Slot(from, HEADER, |ring|) && tail < |ring| && head < |ring|
    requires Distance(tail, head, |ring|) + k + HEADER < |ring|
    ensures LengthKept(ring[QR.Slot(head, k, |ring|) := x], from, length)
  {
    forall i | 0 <= i < HEADER ensures QR.Slot(head, k, |ring|) != QR.Slot(from, i, |ring|) { }
  }

  /** A message whose length has been read and whose bytes have not. */
  predicate Middle(s: State) {
    s.message && (s.reader.Judging? || (s.reader.Reading? && !s.reader.header))
  }

  /** A message whose length is stored and whose bytes are not. */
  function Announced(s: State): seq<Byte> {
    if s.message && s.writer.Writing? && s.writer.rest == [] && |s.writer.chunk| < SIZES then Encode(|s.writer.chunk|)
    else []
  }

  /** The messages in the buffer, from the next that the reader will start. */
  function Waiting(s: State): seq<seq<Byte>> {
    var k := |s.got| + if Middle(s) then 1 else 0;
    if k <= |s.sent| then s.sent[k..] else []
  }

  ghost predicate SeenWhole(s: State, available: nat) {
    |s.got| < |s.sent| && available >= HEADER + |s.sent[|s.got|]|
  }

  /** In a message buffer: the contents are whole messages, but for the one being read and the one being written. */
  ghost predicate MessagesOk(s: State)
    requires Shape(s)
  {
    && s.message && AllSendable(s.sent) && |s.got| <= |s.sent| && s.got == s.sent[..|s.got|]
    && (Middle(s) ==> |s.got| < |s.sent|)
    && Contents(s) == (if Middle(s) then s.sent[|s.got|] else []) + Frames(Waiting(s)) + Announced(s)
    && (s.reader.Seen? && s.reader.available > HEADER ==> SeenWhole(s, s.reader.available))
    && (s.reader.Reading? && s.reader.header ==> SeenWhole(s, s.reader.available))
    && (s.reader.Reading? && !s.reader.header ==> s.reader.n == |s.sent[|s.got|]|)
    && (s.reader.Judging? ==> s.reader.length == |s.sent[|s.got|]| <= s.reader.available)
  }

  ghost predicate Inv(s: State) {
    && Shape(s) && WriterOk(s) && ReaderOk(s)
    && s.published == s.consumed + Contents(s)
    && if s.message then MessagesOk(s) else s.published == Flat(s.sent) && s.consumed == Flat(s.got)
  }

  /** The receiver has room for the message that comes next. */
  predicate Roomy(s: State, e: Event) {
    e.Judge? && s.reader.Judging? ==> s.reader.length <= s.reader.maxCount
  }

  // ----- the writer -----

  lemma {:induction false} CopyInBytes(s: State)
    requires Shape(s) && WriterOk(s) && ReaderOk(s)
    ensures var r := WriterStep(s, CopyIn);
            Shape(r) && WriterOk(r) && ReaderOk(r) && Contents(r) == Contents(s)
  {
    var r := WriterStep(s, CopyIn);
    if r != s {
      var w := s.writer;
      WriteOutside(s.ring, s.tail, s.head, w.copied, w.chunk[w.copied]);
      forall i | 0 <= i < r.writer.copied
        ensures r.ring[QR.Slot(s.head, i, |s.ring|)] == w.chunk[i] { }
      if s.reader.Judging? && Size(s) + w.copied + HEADER < |s.ring| {
        LengthStays(s.ring, s.reader.from, s.tail, s.head, s.reader.length, w.copied, w.chunk[w.copied]);
      }
    }
  }

  lemma {:induction false} CopyInKeeps(s: State)
    requires Inv(s)
    ensures Inv(WriterStep(s, CopyIn))
  {
    var r := WriterStep(s, CopyIn);
    CopyInBytes(s);
    if r != s && s.message { assert Announced(r) == Announced(s) && Waiting(r) == Waiting(s); }
  }

  lemma {:induction false} StoreHeadBytes(s: State)
    requires Shape(s) && WriterOk(s) && ReaderOk(s) && s.published == s.consumed + Contents(s)
    ensures var r := WriterStep(s, StoreHead);
            && Shape(r) && WriterOk(r) && ReaderOk(r) && r.published == r.consumed + Contents(r)
            && (r != s ==> s.writer.Writing? && Contents(r) == Contents(s) + s.writer.chunk)
  {
    if s.writer.Writing? && s.writer.copied == |s.writer.chunk| {
      HeadMoves(s.ring, s.tail, s.head, s.writer.chunk);
      assert s.published + s.writer.chunk == s.consumed + (Contents(s) + s.writer.chunk);
    }
  }

  lemma Regroup(a: seq<Byte>, b: seq<Byte>, c: seq<Byte>, d: seq<Byte>)
    ensures a + b + c + d == a + (b + c + d) + []
    ensures a + b + [] + d == a + b + d
  {
  }

  /** The length of a message is stored. */
  lemma {:induction false} MessageAnnounced(s: State)
    requires Inv(s) && s.message && s.writer.Writing? && s.writer.copied == |s.writer.chunk| && s.writer.rest != []
    requires Contents(StoredHead(s)) == Contents(s) + s.writer.chunk
    ensures MessagesOk(StoredHead(s))
  {
    var r, first := StoredHead(s), if Middle(s) then s.sent[|s.got|] else [];
    Regroup(first, Frames(Waiting(s)), [], s.writer.chunk);
    assert Waiting(r) == Waiting(s) && Announced(s) == [] && Announced(r) == s.writer.chunk;
    assert Contents(r) == first + Frames(Waiting(r)) + Announced(r);
  }

  /** The message itself is stored. */
  lemma {:induction false} MessageStored(s: State)
    requires Inv(s) && s.message && s.writer.Writing? && s.writer.copied == |s.writer.chunk| && s.writer.rest == []
    requires Contents(StoredHead(s)) == Contents(s) + s.writer.chunk
    ensures MessagesOk(StoredHead(s))
  {
    var r, m := StoredHead(s), s.writer.chunk;
    var first := if Middle(s) then s.sent[|s.got|] else [];
    assert Sendable(m);
    Regroup(first, Frames(Waiting(s)), Announced(s), m);
    assert Waiting(r) == Waiting(s) + [m];
    FramesAppend(Waiting(s), m);
    assert Announced(s) == Encode(|m|) && Announced(r) == [];
    assert Contents(r) == first + Frames(Waiting(r)) + Announced(r);
  }

  lemma {:induction false} StartSendBytes(s: State, space: nat, data: seq<Byte>)
    requires Shape(s) && WriterOk(s) && ReaderOk(s) && s.writer == Room(space)
    ensures var r := StartedSend(s, space, data);
            Shape(r) && WriterOk(r) && ReaderOk(r) && Contents(r) == Contents(s) && Announced(r) == Announced(s) == []
  {
  }

  lemma {:induction false} StartSendKeeps(s: State, space: nat, data: seq<Byte>)
    requires Inv(s) && s.writer == Room(space)
    ensures Inv(StartedSend(s, space, data))
  {
    var r := StartedSend(s, space, data);
    StartSendBytes(s, space, data);
    if s.message {
      assert Waiting(r) == Waiting(s) && Middle(r) == Middle(s);
      assert MessagesOk(r);
    }
  }

  lemma {:induction false} WriterKeeps(s: State, e: Event)
    requires Inv(s)
    ensures Inv(WriterStep(s, e))
  {
    var r := WriterStep(s, e);
    match e
    case LoadTail =>
      if s.message && r != s {
        assert Waiting(r) == Waiting(s) && Announced(r) == Announced(s);
        assert MessagesOk(r);
      }
    case StartSend(data) => if s.writer.Room? { StartSendKeeps(s, s.writer.space, data); }
    case CopyIn => CopyInKeeps(s);
    case StoreHead =>
      StoreHeadBytes(s);
      if r != s && s.message && s.writer.rest != [] { MessageAnnounced(s); }
      if r != s && s.message && s.writer.rest == [] { MessageStored(s); }
      if r != s && !s.message { FlatAppend(s.sent, s.writer.chunk); }
    case _ =>
  }

  // ----- the reader -----

  /** Whoever sees more than a length sees a whole message. */
  lemma {:induction false} WholeMessage(s: State)
    requires Inv(s) && s.message && !Middle(s) && Size(s) > HEADER
    ensures SeenWhole(s, Size(s))
  {
    var w := Waiting(s);
    assert |Announced(s)| <= HEADER;
    if w != [] { assert |Frames(w)| >= HEADER + |w[0]|; }
  }

  lemma {:induction false} CopyOutKeeps(s: State)
    requires Inv(s)
    ensures Inv(ReaderStep(s, CopyOut))
  {
    var r := ReaderStep(s, CopyOut);
    if r != s {
      assert Contents(r) == Contents(s);
      if s.message { assert Waiting(r) == Waiting(s); }
    }
  }

  lemma {:induction false} LengthTaken(s: State)
    requires Shape(s) && ReaderOk(s) && s.reader.Reading? && s.reader.header && s.reader.n == |s.reader.out|
    ensures var r := StoredTail(s);
            && r.reader.Judging? && r.reader.length < SIZES && r.reader.from == s.tail
            && r.consumed[|r.consumed| - HEADER..] == Encode(r.reader.length)
            && LengthKept(r.ring, s.tail, r.reader.length)
  {
    var out := s.reader.out;
    EncodeDecode(out);
    forall i | 0 <= i < HEADER ensures s.ring[QR.Slot(s.tail, i, |s.ring|)] == out[i] {
      assert Contents(s)[i] == out[i];
    }
  }

  lemma {:induction false} StoreTailBytes(s: State)
    requires Shape(s) && WriterOk(s) && ReaderOk(s) && s.published == s.consumed + Contents(s)
    ensures var r := ReaderStep(s, StoreTail);
            && Shape(r) && WriterOk(r) && ReaderOk(r) && r.published == r.consumed + Contents(r)
            && (r != s ==> s.reader.Reading? && s.reader.n <= Size(s) && s.reader.out == Contents(s)[..s.reader.n]
                           && Contents(r) == Contents(s)[s.reader.n..])
  {
    if s.reader.Reading? && s.reader.n == |s.reader.out| {
      TailMoves(s.ring, s.tail, s.head, s.reader.n);
      if s.reader.header { LengthTaken(s); }
      assert Contents(s) == Contents(s)[..s.reader.n] + Contents(s)[s.reader.n..];
      assert s.published == (s.consumed + s.reader.out) + Contents(s)[s.reader.n..];
    }
  }

  lemma {:induction false} FirstFrame(w: seq<seq<Byte>>, a: seq<Byte>)
    requires AllSendable(w) && w != []
    ensures var c, rest := Frames(w) + a, w[0] + Frames(w[1..]) + a;
            |c| >= HEADER && c[..HEADER] == Encode(|w[0]|) && c[HEADER..] == rest
  {
    assert Frames(w) + a == Encode(|w[0]|) + (w[0] + Frames(w[1..]) + a);
  }

  /** The reader is past the length of the next message. */
  lemma {:induction false} HeaderTaken(s: State)
    requires Inv(s) && s.message && s.reader.Reading? && s.reader.header && s.reader.n == |s.reader.out| <= Size(s)
    requires s.reader.out == Contents(s)[..s.reader.n]
    requires Shape(StoredTail(s)) && Contents(StoredTail(s)) == Contents(s)[s.reader.n..]
    ensures MessagesOk(StoredTail(s))
  {
    var r, m, w := StoredTail(s), s.sent[|s.got|], Waiting(s);
    assert w[0] == m && Waiting(r) == w[1..] && Announced(r) == Announced(s);
    assert Contents(s) == Frames(w) + Announced(s);
    FirstFrame(w, Announced(s));
    assert Contents(r) == m + Frames(Waiting(r)) + Announced(r);
    DecodeEncode(|m|);
    assert Decode(s.reader.out) == |m|;
  }

  lemma SplitOff(c: seq<Byte>, a: seq<Byte>, b: seq<Byte>)
    requires c == a + b
    ensures c[..|a|] == a && c[|a|..] == b
  {
  }

  lemma {:induction false} MessageTaken(s: State)
    requires Inv(s) && s.message && s.reader.Reading? && !s.reader.header && s.reader.n == |s.reader.out| <= Size(s)
    requires s.reader.out == Contents(s)[..s.reader.n]
    requires Shape(StoredTail(s)) && Contents(StoredTail(s)) == Contents(s)[s.reader.n..]
    ensures MessagesOk(StoredTail(s))
  {
    var r, m, w := StoredTail(s), s.sent[|s.got|], Waiting(s);
    assert Waiting(r) == w && Announced(r) == Announced(s);
    var rest := Frames(w) + Announced(s);
    assert m + Frames(w) + Announced(s) == m + rest;
    SplitOff(Contents(s), m, rest);
    assert r.got == s.sent[..|r.got|];
    assert [] + Frames(w) + Announced(s) == rest;
  }

  lemma {:induction false} StartReceiveKeeps(s: State, maxCount: nat)
    requires Inv(s)
    ensures Inv(ReaderStep(s, StartReceive(maxCount)))
  {
    var r := ReaderStep(s, StartReceive(maxCount));
    if r != s {
      assert Contents(r) == Contents(s) && ReaderOk(r) && WriterOk(r);
      if s.message {
        assert !Middle(s) && !Middle(r) && Waiting(r) == Waiting(s) && Announced(r) == Announced(s);
        assert MessagesOk(r);
      }
    }
  }

  lemma {:induction false} JudgeKeeps(s: State)
    requires Inv(s) && Roomy(s, Judge)
    ensures Inv(ReaderStep(s, Judge))
  {
    var r := ReaderStep(s, Judge);
    if r != s {
      assert Contents(r) == Contents(s) && ReaderOk(r) && WriterOk(r);
      assert Middle(s) && Middle(r) && Waiting(r) == Waiting(s) && Announced(r) == Announced(s);
      assert MessagesOk(r);
    }
  }

  lemma {:induction false} LoadHeadKeeps(s: State)
    requires Inv(s)
    ensures Inv(ReaderStep(s, LoadHead))
  {
    var r := ReaderStep(s, LoadHead);
    if r != s {
      assert Contents(r) == Contents(s) && ReaderOk(r) && WriterOk(r);
      if s.message {
        assert Waiting(r) == Waiting(s) && Announced(r) == Announced(s);
        if Size(s) > HEADER { WholeMessage(s); }
        assert MessagesOk(r);
      }
    }
  }

  lemma {:induction false} StoreTailKeeps(s: State)
    requires Inv(s)
    ensures Inv(ReaderStep(s, StoreTail))
  {
    StoreTailBytes(s);
    if ReaderStep(s, StoreTail) != s {
      if !s.message {
        FlatAppend(s.got, s.reader.out);
      } else if s.reader.header {
        HeaderTaken(s);
      } else {
        MessageTaken(s);
      }
    }
  }

  lemma {:induction false} ReaderKeeps(s: State, e: Event)
    requires Inv(s) && Roomy(s, e)
    ensures Inv(ReaderStep(s, e))
  {
    match e
    case LoadHead => LoadHeadKeeps(s);
    case CopyOut => CopyOutKeeps(s);
    case StoreTail => StoreTailKeeps(s);
    case StartReceive(maxCount) => StartReceiveKeeps(s, maxCount);
    case Judge => JudgeKeeps(s);
    case _ =>
  }

  // ----- runs -----

  lemma {:induction false} StepKeeps(s: State, e: Event)
    requires Inv(s) && Roomy(s, e)
    ensures Inv(Step(s, e)) && Step(s, e).message == s.message && |Step(s, e).ring| == |s.ring|
  {
    if e.LoadTail? || e.StartSend? || e.CopyIn? || e.StoreHead? {
      WriterKeeps(s, e);
    } else {
      ReaderKeeps(s, e);
    }
  }

  ghost predicate AllRoomy(s: State, events: seq<Event>)
    requires Shape(s)
    decreases |events|
  {
    events == [] || (Roomy(s, events[0]) && Shape(Step(s, events[0])) && AllRoomy(Step(s, events[0]), events[1..]))
  }

  function Run(s: State, events: seq<Event>): State
    decreases |events|
  {
    if events == [] || !Shape(s) then s else Run(Step(s, events[0]), events[1..])
  }

  lemma {:induction false} RunKeeps(s: State, events: seq<Event>)
    requires Inv(s) && AllRoomy(s, events)
    ensures Inv(Run(s, events)) && Run(s, events).message == s.message && |Run(s, events).ring| == |s.ring|
    decreases |events|
  {
    if events != [] {
      StepKeeps(s, events[0]);
      RunKeeps(Step(s, events[0]), events[1..]);
    }
  }

  lemma {:induction false} InitialInv(message: bool, ring: seq<Byte>)
    requires HEADER < |ring| <= SIZES
    ensures Inv(Initial(message, ring))
  {
  }

  /** The tail of a stream never goes back, as its reader has no length to judge. */
  lemma {:induction false} StreamRoomy(s: State, events: seq<Event>)
    requires Inv(s) && !s.message
    ensures AllRoomy(s, events)
    decreases |events|
  {
    if events != [] {
      StepKeeps(s, events[0]);
      StreamRoomy(Step(s, events[0]), events[1..]);
    }
  }

  /** However the two are interleaved, what the reader has taken is a prefix of what the writer has stored, and
      never more than the ring holds is under way. */
  lemma {:induction false} DeliveredIsPrefix(ring: seq<Byte>, message: bool, events: seq<Event>)
    requires HEADER < |ring| <= SIZES && (message ==> AllRoomy(Initial(message, ring), events))
    ensures var s := Run(Initial(message, ring), events);
            && |s.consumed| <= |s.published| < |s.consumed| + |ring|
            && s.consumed == s.published[..|s.consumed|]
            && (!message ==> s.consumed == Flat(s.got) && s.published == Flat(s.sent))
  {
    InitialInv(message, ring);
    if !message { StreamRoomy(Initial(message, ring), events); }
    RunKeeps(Initial(message, ring), events);
  }

  /** However the two are interleaved, each receive from a message buffer hands over one whole message, in the
      order in which they were sent. */
  lemma {:induction false} MessagesInOrder(ring: seq<Byte>, events: seq<Event>)
    requires HEADER < |ring| <= SIZES && AllRoomy(Initial(true, ring), events)
    ensures var s := Run(Initial(true, ring), events);
            |s.got| <= |s.sent| && s.got == s.sent[..|s.got|]
  {
    InitialInv(true, ring);
    RunKeeps(Initial(true, ring), events);
  }

  // ----- a receiver without room -----

  /** The bytes that the writer believes to be free, or is filling. */
  function Claimed(s: State): nat {
    match s.writer
    case Resting => 0
    case Room(space) => space
    case Writing(chunk, _, rest) => |chunk| + |rest|
  }

  /** When the tail goes back and the writer has not counted on the bytes before it, the length lies in front of
      its message again, and nothing is lost. */
  lemma {:induction false} GoingBackRestores(s: State)
    requires Inv(s) && s.reader.Judging? && s.reader.length > s.reader.maxCount
    requires Claimed(s) + Size(s) + HEADER < |s.ring|
    ensures Inv(Judged(s))
    ensures Contents(Judged(s)) == Encode(s.reader.length) + Contents(s)
  {
    var r, length := Judged(s), s.reader.length;
    assert LengthKept(s.ring, s.reader.from, length);
    forall i | 0 <= i < HEADER ensures s.ring[QR.Slot(s.reader.from, i, |s.ring|)] == Encode(length)[i] { }
    TailBack(s.ring, s.reader.from, s.tail, s.head, Encode(length));
    assert s.consumed == r.consumed + Encode(length);
    assert r.published == r.consumed + (Encode(length) + Contents(s));
    GoneBackMessages(s);
  }

  lemma {:induction false} GoneBackMessages(s: State)
    requires Inv(s) && s.reader.Judging? && s.reader.length > s.reader.maxCount
    requires Shape(Judged(s)) && Contents(Judged(s)) == Encode(s.reader.length) + Contents(s)
    ensures MessagesOk(Judged(s))
  {
    var r, m, w := Judged(s), s.sent[|s.got|], Waiting(s);
    assert !Middle(r) && Middle(s) && Announced(r) == Announced(s);
    assert Waiting(r) == [m] + w && ([m] + w)[0] == m && ([m] + w)[1..] == w;
    FirstAgain(m, w, Announced(s));
    assert Contents(s) == m + Frames(w) + Announced(s);
  }

  lemma {:induction false} FirstAgain(m: seq<Byte>, w: seq<seq<Byte>>, a: seq<Byte>)
    requires Sendable(m) && AllSendable(w)
    ensures AllSendable([m] + w) && Encode(|m|) + (m + Frames(w) + a) == [] + Frames([m] + w) + a
  {
    assert ([m] + w)[1..] == w;
    assert Frames([m] + w) == Encode(|m|) + m + Frames(w);
  }

  /** The tail may go back exactly when the writer has not counted on the bytes before it. If it has, either bytes
      that are published and not consumed are gone from the buffer at once, or the writer takes some of them for
      free space. */
  lemma {:induction false} GoingBackExact(s: State)
    requires Inv(s) && s.reader.Judging? && s.reader.length > s.reader.maxCount
    ensures Inv(Judged(s)) <==> Claimed(s) + Size(s) + HEADER < |s.ring|
    ensures var r := Judged(s);
            && Shape(r)
            && (Claimed(s) + Size(s) + HEADER >= |s.ring| ==>
                  || |Contents(r)| < |r.published| - |r.consumed|
                  || |Contents(r)| + Claimed(r) >= |r.ring|)
  {
    var r := Judged(s);
    if Claimed(s) + Size(s) + HEADER < |s.ring| {
      GoingBackRestores(s);
    } else {
      assert |r.published| - |r.consumed| == Size(s) + HEADER;
      assert Size(s) + HEADER < |s.ring| ==> Size(r) == Size(s) + HEADER;
      assert Size(s) + HEADER >= |s.ring| ==> Size(r) == Size(s) + HEADER - |s.ring|;
    }
  }

  function Repeat(e: Event, n: nat): seq<Event> {
    if n == 0 then [] else [e] + Repeat(e, n - 1)
  }

  lemma {:induction false} RunAppend(s: State, a: seq<Event>, b: seq<Event>)
    ensures Run(s, a + b) == Run(Run(s, a), b)
    decreases |a|
  {
    if a == [] {
      assert a + b == b;
    } else if Shape(s) {
      assert (a + b)[1..] == a[1..] + b;
      RunAppend(Step(s, a[0]), a[1..], b);
    }
  }

  lemma {:induction false} RunOne(s: State, e: Event)
    requires Shape(s)
    ensures Run(s, [e]) == Step(s, e)
  {
    assert [e][1..] == [];
  }

  /** The writer copies what is left of its chunk. */
  lemma {:induction false} CopiesIn(s: State, n: nat)
    requires Shape(s) && s.writer.Writing? && s.writer.copied + n == |s.writer.chunk| <= |s.ring|
    ensures var r := Run(s, Repeat(CopyIn, n));
            && |r.ring| == |s.ring|
            && r == s.(ring := r.ring, writer := s.writer.(copied := |s.writer.chunk|))
    decreases n
  {
    if n > 0 {
      var next := Step(s, CopyIn);
      CopiesIn(next, n - 1);
      assert Repeat(CopyIn, n)[1..] == Repeat(CopyIn, n - 1);
    }
  }

  lemma {:induction false} CopiesOut(s: State, n: nat)
    requires Shape(s) && s.reader.Reading? && |s.reader.out| + n == s.reader.n <= |s.ring|
    ensures var r := Run(s, Repeat(CopyOut, n));
            && r.reader.Reading? && |r.reader.out| == s.reader.n
            && r == s.(reader := s.reader.(out := r.reader.out))
    decreases n
  {
    if n > 0 {
      var next := Step(s, CopyOut);
      CopiesOut(next, n - 1);
      assert Repeat(CopyOut, n)[1..] == Repeat(CopyOut, n - 1);
    }
  }

  /** The writer stores its chunk. */
  function Stores(n: nat): seq<Event> {
    Repeat(CopyIn, n) + [StoreHead]
  }

  lemma {:induction false} StoresLeadTo(s: State, n: nat)
    requires Shape(s) && s.writer.Writing? && s.writer.copied == 0 && n == |s.writer.chunk| <= |s.ring|
    ensures var r := Run(s, Stores(n));
            && |r.ring| == |s.ring| && Shape(r)
            && r == StoredHead(s.(ring := r.ring))
  {
    CopiesIn(s, n);
    RunAppend(s, Repeat(CopyIn, n), [StoreHead]);
    RunOne(Run(s, Repeat(CopyIn, n)), StoreHead);
  }

  /** A message is sent. */
  function Sends(m: seq<Byte>): seq<Event> {
    [LoadTail, StartSend(m)] + Stores(HEADER) + Stores(|m|)
  }

  lemma {:induction false} StartsSend(s: State, m: seq<Byte>)
    requires Shape(s) && s.message && s.writer.Resting? && Sendable(m) && Size(s) + HEADER + |m| < |s.ring|
    ensures Run(s, [LoadTail, StartSend(m)]) == s.(writer := Writing(Encode(|m|), 0, m))
  {
    var s1 := Step(s, LoadTail);
    assert [LoadTail, StartSend(m)][1..] == [StartSend(m)];
    RunOne(s1, StartSend(m));
  }

  lemma {:induction false} StoresBoth(s: State, m: seq<Byte>)
    requires Shape(s) && Sendable(m) && HEADER + |m| < |s.ring| && s.writer == Writing(Encode(|m|), 0, m)
    ensures var r := Run(s, Stores(HEADER) + Stores(|m|));
            && Shape(r) && |r.ring| == |s.ring| && r.head == QR.Slot(s.head, HEADER + |m|, |s.ring|)
            && r.tail == s.tail && r.writer == Resting && r.sent == s.sent + [m]
            && r.message == s.message && r.reader == s.reader && r.got == s.got
  {
    StoresLeadTo(s, HEADER);
    var s1 := Run(s, Stores(HEADER));
    StoresLeadTo(s1, |m|);
    RunAppend(s, Stores(HEADER), Stores(|m|));
  }

  /** The reader takes the length of a message. */
  function TakesLength(maxCount: nat): seq<Event> {
    [LoadHead, StartReceive(maxCount)] + (Repeat(CopyOut, HEADER) + [StoreTail])
  }

  lemma {:induction false} TakesLengthLeadsTo(s: State, maxCount: nat)
    requires Shape(s) && s.message && s.reader.Idle? && Size(s) > HEADER
    ensures var r := Run(s, TakesLength(maxCount));
            && Shape(r) && r.reader.Judging? && r.reader.from == s.tail && r.reader.maxCount == maxCount
            && r.tail == QR.Slot(s.tail, HEADER, |s.ring|)
            && r.head == s.head && r.ring == s.ring && r.writer == s.writer && r.sent == s.sent && r.got == s.got
            && r.message
  {
    var s1 := Step(s, LoadHead);
    var s2 := Step(s1, StartReceive(maxCount));
    assert [LoadHead, StartReceive(maxCount)][1..] == [StartReceive(maxCount)];
    RunOne(s1, StartReceive(maxCount));
    CopiesOut(s2, HEADER);
    var s3 := Run(s2, Repeat(CopyOut, HEADER));
    RunAppend(s2, Repeat(CopyOut, HEADER), [StoreTail]);
    RunOne(s3, StoreTail);
    RunAppend(s, [LoadHead, StartReceive(maxCount)], Repeat(CopyOut, HEADER) + [StoreTail]);
  }

  /** The message m is sent; a receiver without room takes its length, the writer loads the tail, the tail goes
      back, and the writer sends n into the space that it saw. */
  function RaceRun(m: seq<Byte>, n: seq<Byte>, maxCount: nat): seq<Event> {
    (Sends(m) + TakesLength(maxCount)) + RaceTurn(n)
  }

  function RaceTurn(n: seq<Byte>): seq<Event> {
    ([LoadTail, Judge] + [StartSend(n)]) + (Stores(HEADER) + Stores(|n|))
  }

  lemma {:induction false} RepeatOnly(e: Event, n: nat)
    ensures forall x :: x in Repeat(e, n) ==> x == e
    decreases n
  {
    if n > 0 { RepeatOnly(e, n - 1); }
  }

  lemma {:induction false} NoJudge(s: State, events: seq<Event>)
    requires Inv(s) && Judge !in events
    ensures AllRoomy(s, events)
    decreases |events|
  {
    if events != [] {
      StepKeeps(s, events[0]);
      NoJudge(Step(s, events[0]), events[1..]);
    }
  }

  lemma {:induction false} SendsLeadTo(s: State, m: seq<Byte>)
    requires Shape(s) && s.message && s.writer.Resting? && Sendable(m) && Size(s) + HEADER + |m| < |s.ring|
    ensures var r := Run(s, Sends(m));
            && Shape(r) && |r.ring| == |s.ring| && r.head == QR.Slot(s.head, HEADER + |m|, |s.ring|)
            && r.tail == s.tail && r.writer == Resting && r.sent == s.sent + [m]
            && r.message == s.message && r.reader == s.reader && r.got == s.got
  {
    var start := [LoadTail, StartSend(m)];
    StartsSend(s, m);
    StoresBoth(Run(s, start), m);
    assert Sends(m) == start + (Stores(HEADER) + Stores(|m|));
    RunAppend(s, start, Stores(HEADER) + Stores(|m|));
  }

  lemma {:induction false} NoneJudges(m: seq<Byte>, maxCount: nat)
    ensures Judge !in Sends(m) && Judge !in TakesLength(maxCount)
  {
    RepeatOnly(CopyIn, HEADER);
    RepeatOnly(CopyIn, |m|);
    RepeatOnly(CopyOut, HEADER);
  }

  // ----- undisturbed calls deliver -----

  /** The reader takes n bytes. */
  function Takes(n: nat): seq<Event> {
    Repeat(CopyOut, n) + [StoreTail]
  }

  lemma {:induction false} TakesLeadTo(s: State, n: nat)
    requires Inv(s) && s.reader.Reading? && s.reader.out == [] && s.reader.n == n
    ensures var r := Run(s, Takes(n));
            && Shape(r) && r == StoredTail(s.(reader := s.reader.(out := Contents(s)[..n])))
  {
    CopiesOut(s, n);
    var s1 := Run(s, Repeat(CopyOut, n));
    RepeatOnly(CopyOut, n);
    NoJudge(s, Repeat(CopyOut, n));
    RunKeeps(s, Repeat(CopyOut, n));
    RunAppend(s, Repeat(CopyOut, n), [StoreTail]);
    RunOne(s1, StoreTail);
  }

  /** An undisturbed send to a stream with space stores as many of the bytes as fit. */
  lemma {:induction false} StreamSends(s: State, data: seq<Byte>, n: nat)
    requires Inv(s) && !s.message && s.writer.Resting? && |data| < SIZES
    requires n == Min(|data|, |s.ring| - 1 - Size(s)) > 0
    ensures var r := Run(s, [LoadTail, StartSend(data)] + Stores(n));
            && Inv(r) && r.writer.Resting? && r.sent == s.sent + [data[..n]]
            && r.published == s.published + data[..n] && Contents(r) == Contents(s) + data[..n]
            && r.reader == s.reader && r.got == s.got && r.consumed == s.consumed
  {
    hide MessagesOk, ReaderOk, WriterOk;
    var s1, start := Step(s, LoadTail), [LoadTail, StartSend(data)];
    assert start[1..] == [StartSend(data)];
    RunOne(s1, StartSend(data));
    var s2 := Run(s, start);
    assert s2 == s.(writer := Writing(data[..n], 0, []));
    StoresLeadTo(s2, n);
    RunAppend(s, start, Stores(n));
    RepeatOnly(CopyIn, n);
    NoJudge(s, start + Stores(n));
    RunKeeps(s, start + Stores(n));
    ContentsGrown(s, Run(s, start + Stores(n)), data[..n]);
  }

  lemma {:induction false} ContentsGrown(s: State, r: State, c: seq<Byte>)
    requires Inv(s) && Inv(r) && r.consumed == s.consumed && r.published == s.published + c
    ensures Contents(r) == Contents(s) + c
  {
    assert r.published == s.consumed + (Contents(s) + c);
    assert Contents(r) == r.published[|s.consumed|..];
  }

  /** An undisturbed receive from a stream that is not empty takes the next bytes, as many as there are and fit. */
  lemma {:induction false} StreamReceives(s: State, maxCount: nat, n: nat)
    requires Inv(s) && !s.message && s.reader.Idle? && n == Min(Size(s), maxCount) > 0
    ensures var r := Run(s, [LoadHead, StartReceive(maxCount)] + Takes(n));
            && Shape(r) && r.reader.Idle? && r.got == s.got + [Contents(s)[..n]]
            && r.consumed == s.consumed + Contents(s)[..n] && r.writer == s.writer && r.sent == s.sent
  {
    var s1, start := Step(s, LoadHead), [LoadHead, StartReceive(maxCount)];
    assert start[1..] == [StartReceive(maxCount)];
    RunOne(s1, StartReceive(maxCount));
    StepKeeps(s, LoadHead);
    StepKeeps(s1, StartReceive(maxCount));
    TakesLeadTo(Run(s, start), n);
    RunAppend(s, start, Takes(n));
  }

  /** The receiver has room for the message whose length it has. */
  lemma {:induction false} JudgesAndTakes(s: State, m: seq<Byte>)
    requires Inv(s) && s.message && s.reader.Judging? && |s.got| < |s.sent| && m == s.sent[|s.got|]
    requires s.reader.length <= s.reader.maxCount
    ensures var r := Run(s, [Judge] + Takes(|m|));
            && Inv(r) && r.reader.Idle? && r.got == s.got + [m] && r.writer == s.writer && r.sent == s.sent
  {
    StepKeeps(s, Judge);
    var s1 := Step(s, Judge);
    TakesLeadTo(s1, |m|);
    RunOne(s, Judge);
    RunAppend(s, [Judge], Takes(|m|));
    RepeatOnly(CopyOut, |m|);
    NoJudge(s1, Takes(|m|));
    RunKeeps(s1, Takes(|m|));
  }

  /** An undisturbed receive from a message buffer that holds a message, by a receiver with room for it, hands over
      that message. */
  lemma {:induction false} MessageReceives(s: State, maxCount: nat, m: seq<Byte>)
    requires Inv(s) && s.message && s.reader.Idle? && Size(s) > HEADER
    requires |s.got| < |s.sent| && m == s.sent[|s.got|] && |m| <= maxCount
    ensures var r := Run(s, TakesLength(maxCount) + ([Judge] + Takes(|m|)));
            && Inv(r) && r.reader.Idle? && r.got == s.got + [m] && r.writer == s.writer && r.sent == s.sent
  {
    TakesLengthLeadsTo(s, maxCount);
    RepeatOnly(CopyOut, HEADER);
    NoJudge(s, TakesLength(maxCount));
    RunKeeps(s, TakesLength(maxCount));
    JudgesAndTakes(Run(s, TakesLength(maxCount)), m);
    RunAppend(s, TakesLength(maxCount), [Judge] + Takes(|m|));
  }

  /** The reader is about to find that it has no room for m. */
  lemma {:induction false} RaceBegins(s0: State, m: seq<Byte>, maxCount: nat)
    requires Inv(s0) && s0.message && s0.writer == Resting && s0.reader.Idle? && s0.head == s0.tail == 0
    requires s0.sent == [] && s0.got == [] && Sendable(m) && HEADER + |m| < |s0.ring|
    ensures var s := Run(s0, Sends(m) + TakesLength(maxCount));
            && Inv(s) && s.reader.Judging? && s.reader.from == 0 && s.reader.maxCount == maxCount
            && s.reader.length == |m| && |s.ring| == |s0.ring| && s.tail == HEADER && s.head == HEADER + |m|
            && s.writer == Resting && s.message && s.sent == [m] && s.got == []
  {
    SendsLeadTo(s0, m);
    TakesLengthLeadsTo(Run(s0, Sends(m)), maxCount);
    RunAppend(s0, Sends(m), TakesLength(maxCount));
    NoneJudges(m, maxCount);
    NoJudge(s0, Sends(m) + TakesLength(maxCount));
    RunKeeps(s0, Sends(m) + TakesLength(maxCount));
  }

  /** The tail goes back after the writer has loaded it, and the writer starts to send n. */
  lemma {:induction false} RaceTurns(s: State, n: seq<Byte>)
    requires Inv(s) && s.reader.Judging? && s.reader.maxCount < s.reader.length && s.writer == Resting
    requires Sendable(n) && HEADER + |n| + Size(s) < |s.ring|
    ensures var r := Run(s, [LoadTail, Judge] + [StartSend(n)]);
            r == Judged(s).(writer := Writing(Encode(|n|), 0, n))
  {
    var s1 := Step(s, LoadTail);
    var s2 := Step(s1, Judge);
    assert [LoadTail, Judge][1..] == [Judge];
    RunOne(s1, Judge);
    RunAppend(s, [LoadTail, Judge], [StartSend(n)]);
    RunOne(s2, StartSend(n));
  }

  /** The writer fills the space that it saw, across the place to which the tail went back. */
  lemma {:induction false} RaceEnds(s1: State, n: seq<Byte>)
    requires Inv(s1) && s1.reader.Judging? && s1.reader.maxCount < s1.reader.length && s1.reader.from == 0
    requires s1.writer == Resting && s1.message && |s1.sent| == 1 && s1.got == [] && s1.head < |s1.ring|
    requires Sendable(n) && HEADER + |n| + Size(s1) < |s1.ring| <= s1.head + HEADER + |n|
    ensures var s := Run(s1, RaceTurn(n));
            && s.sent == s1.sent + [n] && s.got == [] && s.reader.Idle? && s.writer.Resting? && Shape(s)
            && |Contents(s)| == s1.head + HEADER + |n| - |s1.ring|
  {
    var turn := [LoadTail, Judge] + [StartSend(n)];
    RaceTurns(s1, n);
    StoresBoth(Run(s1, turn), n);
    RunAppend(s1, turn, Stores(HEADER) + Stores(|n|));
  }

  /** Both messages count as sent, none is received, and the buffer is short of a whole ring of bytes. */
  lemma {:induction false} RaceLosesMessages(ring: seq<Byte>, m: seq<Byte>, n: seq<Byte>, maxCount: nat)
    requires HEADER < |ring| <= SIZES && Sendable(m) && Sendable(n) && maxCount < |m|
    requires HEADER + |m| < |ring| && HEADER + |n| + |m| < |ring| <= HEADER + |m| + HEADER + |n|
    ensures var s := Run(Initial(true, ring), RaceRun(m, n, maxCount));
            && s.sent == [m, n] && s.got == [] && s.reader.Idle? && s.writer.Resting? && Shape(s)
            && |Contents(s)| == HEADER + |m| + HEADER + |n| - |ring|
  {
    var s0 := Initial(true, ring);
    InitialInv(true, ring);
    RaceBegins(s0, m, maxCount);
    var first := Sends(m) + TakesLength(maxCount);
    RaceEnds(Run(s0, first), n);
    RunAppend(s0, first, RaceTurn(n));
  }
}
