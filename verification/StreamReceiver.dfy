// The incoming side of a gRPC stream: chunks of DATA frames gather in a buffer, and at the end of
// every frame the whole messages are cut off its front and reported.
//
// The parser of the code does not step over the data of a message it has found, so it reads that
// data as the next header. `skips` chooses between that (false) and stepping over it (true), which
// is a departure from the code.

module StreamReceiver {
  import opened Wire

  // ---- What the parser cuts off, and what it delivers ----

  function Advance(d: Bytes, skips: bool): (n: nat)
    requires HasFrame(d)
    ensures HEADER <= n <= |d|
  {
    HEADER + if skips then LengthAt(d) else 0
  }

  function Cut(d: Bytes, skips: bool): (n: nat)
    ensures n <= |d|
    decreases |d|
  {
    if HasFrame(d) then Advance(d, skips) + Cut(d[Advance(d, skips)..], skips) else 0
  }

  function Delivered(d: Bytes, skips: bool): seq<Message>
    decreases |d|
  {
    if HasFrame(d) then [FirstMessage(d)] + Delivered(d[Advance(d, skips)..], skips) else []
  }

  // Stepping over the data, the parser delivers the whole messages and leaves the residue.
  lemma {:induction false} SkippingIsWalking(d: Bytes)
    ensures Delivered(d, true) == Messages(d)
    ensures Cut(d, true) == |d| - |Residue(d)| && d[Cut(d, true)..] == Residue(d)
    decreases |d|
  {
    if HasFrame(d) {
      var rest := d[Advance(d, true)..];
      assert rest == AfterFirst(d);
      SkippingIsWalking(rest);
      assert d[Cut(d, true)..] == rest[Cut(rest, true)..];
    }
  }

  // The bytes of the delivered messages account for what walking cuts off; as written every message
  // accounts for its header alone.
  function Weight(ms: seq<Message>): nat {
    if ms == [] then 0 else HEADER + |ms[0].data| + Weight(ms[1..])
  }

  predicate AllEmpty(ms: seq<Message>) {
    forall i | 0 <= i < |ms| :: ms[i].data == []
  }

  lemma {:induction false} WeightOfEmpty(ms: seq<Message>)
    ensures Weight(ms) >= HEADER * |ms|
    ensures Weight(ms) == HEADER * |ms| <==> AllEmpty(ms)
  {
    if ms != [] {
      WeightOfEmpty(ms[1..]);
      assert AllEmpty(ms) <==> ms[0].data == [] && AllEmpty(ms[1..]) by {
        assert forall i | 0 < i < |ms| :: ms[i] == ms[1..][i - 1];
      }
    }
  }

  lemma {:induction false} CutWeighs(d: Bytes)
    ensures Cut(d, true) == Weight(Delivered(d, true))
    ensures Cut(d, false) == HEADER * |Delivered(d, false)|
    decreases |d|
  {
    if HasFrame(d) {
      CutWeighsFirst(d, true);
      CutWeighsFirst(d, false);
      CutWeighs(d[Advance(d, true)..]);
      CutWeighs(d[Advance(d, false)..]);
    }
  }

  lemma CutWeighsFirst(d: Bytes, skips: bool)
    requires HasFrame(d)
    ensures Weight(Delivered(d, skips))
            == HEADER + LengthAt(d) + Weight(Delivered(d[Advance(d, skips)..], skips))
    ensures |Delivered(d, skips)| == 1 + |Delivered(d[Advance(d, skips)..], skips)|
  {
    var ms := Delivered(d, skips);
    assert ms[1..] == Delivered(d[Advance(d, skips)..], skips);
    assert |FirstMessage(d).data| == LengthAt(d);
  }

  lemma {:induction false} EmptyFramesParseAlike(d: Bytes)
    requires AllEmpty(Messages(d))
    ensures Delivered(d, false) == Delivered(d, true) && Cut(d, false) == Cut(d, true)
    decreases |d|
  {
    if HasFrame(d) {
      assert Messages(d)[0] == FirstMessage(d) && |FirstMessage(d).data| == LengthAt(d);
      assert Messages(AfterFirst(d)) == Messages(d)[1..];
      assert d[Advance(d, false)..] == d[Advance(d, true)..] == AfterFirst(d);
      EmptyFramesParseAlike(AfterFirst(d));
    }
  }

  // The parser as written does what it is meant to do exactly when every whole message in the
  // buffer is empty.
  lemma AsWrittenIsRightExactly(d: Bytes)
    ensures Delivered(d, false) == Messages(d) && Cut(d, false) == |d| - |Residue(d)|
            <==> AllEmpty(Messages(d))
  {
    SkippingIsWalking(d);
    CutWeighs(d);
    WeightOfEmpty(Messages(d));
    if AllEmpty(Messages(d)) {
      EmptyFramesParseAlike(d);
    }
  }

  // One message of three bytes, all there: as written its data is left in the buffer.
  lemma AsWrittenGoesWrong()
    ensures
      var d: Bytes := [0, 0, 0, 0, 3, 7, 8, 9];
      && Messages(d) == [Message(0, [7, 8, 9])] && Residue(d) == []
      && Delivered(d, false) == [Message(0, [7, 8, 9])] && Cut(d, false) == 5
  {
    var d: Bytes := [0, 0, 0, 0, 3, 7, 8, 9];
    assert d[1..HEADER] == [0, 0, 0, 3];
    assert d[HEADER..HEADER + 3] == [7, 8, 9];
    assert AfterFirst(d) == [];
    assert d[Advance(d, false)..] == [7, 8, 9];
    assert Delivered([7, 8, 9], false) == [] && Cut([7, 8, 9], false) == 0;
    assert Messages([]) == [] && Residue([]) == [];
  }

  // ---- The parser ----

  // parse_grpc_message. `created` says whether the quick check at its start made a message list.
  method Parse(data: array<Byte>, len: nat, skips: bool) returns (lseek: nat, ms: seq<Message>, created: bool)
    requires len <= data.Length
    ensures lseek == Cut(data[..len], skips) && ms == Delivered(data[..len], skips)
    ensures ms != [] ==> created
    ensures lseek <= len && (lseek == 0 <==> ms == [])
  {
    hide LengthAt, Cut, Delivered, FirstMessage, FromBe32, Messages, Advance;
    lseek, ms, created := 0, [], false;
    ghost var d := data[..len];
    if len < 4 {
      NothingCut(d, skips);
      return;
    }
    // The sum wraps at 32 bits. (With a length of 4 the code reads one byte more here, and then
    // delivers nothing either way.)
    if len >= HEADER {
      assert d[1..HEADER] == data[1..HEADER];
      created := len >= (FromBe32(data[1..HEADER]) + HEADER) % U32;
      LengthIs(d);
      if HasFrame(d) {
        FirstFrameCreates(d);
      }
    }
    var seek: nat := 0;
    assert d[0..] == d;
    while seek < len
      invariant seek == lseek <= len
      invariant seek == 0 <==> ms == []
      invariant Cut(d, skips) == lseek + Cut(d[seek..], skips)
      invariant Delivered(d, skips) == ms + Delivered(d[seek..], skips)
      invariant seek == 0 ==> (HasFrame(d) ==> created)
      invariant seek > 0 ==> created
      decreases len - seek
    {
      ghost var rest := d[seek..];
      if seek + 5 > len {
        NothingCut(rest, skips);
        return;
      }
      var cflag := data[seek];
      SubSlice(data[..], len, seek, 1, HEADER);
      var msgLen := FromBe32(data[seek + 1..seek + 5]);
      LengthIs(rest);
      if seek + 5 + msgLen > len {
        NothingCut(rest, skips);
        return;
      }
      var msg := Message(cflag, data[seek + 5..seek + 5 + msgLen]);
      SubSlice(data[..], len, seek, HEADER, HEADER + msgLen);
      FirstCut(ms, rest, skips, msg);
      seek := seek + 5 + if skips then msgLen else 0;
      assert rest[seek - lseek..] == d[seek..];
      lseek := seek;
      ms := ms + [msg];
    }
    NothingCut(d[seek..], skips);
  }

  lemma SubSlice(s: Bytes, len: nat, seek: nat, i: nat, j: nat)
    requires i <= j && seek + j <= len <= |s|
    ensures s[..len][seek..][i..j] == s[seek + i..seek + j]
  {
    assert s[..len][seek..] == s[seek..len];
    var a, b := s[seek..len][i..j], s[seek + i..seek + j];
    assert |a| == |b|;
    forall k | 0 <= k < |a|
      ensures a[k] == b[k]
    {
      assert a[k] == s[seek..len][i + k];
    }
  }

  lemma LengthIs(d: Bytes)
    requires |d| >= HEADER
    ensures LengthAt(d) == FromBe32(d[1..HEADER])
  {
  }

  lemma FirstFrameCreates(d: Bytes)
    requires HasFrame(d)
    ensures (FromBe32(d[1..HEADER]) + HEADER) % U32 <= |d|
  {
  }

  lemma NothingCut(d: Bytes, skips: bool)
    requires !HasFrame(d)
    ensures Cut(d, skips) == 0 && Delivered(d, skips) == []
  {
  }

  // Delivering the first message after those before it.
  lemma FirstCut(before: seq<Message>, d: Bytes, skips: bool, first: Message)
    requires HasFrame(d) && first == Message(d[0], d[HEADER..HEADER + LengthAt(d)])
    ensures
      var n := HEADER + if skips then LengthAt(d) else 0;
      && Cut(d, skips) == n + Cut(d[n..], skips)
      && before + Delivered(d, skips) == before + [first] + Delivered(d[n..], skips)
  {
    hide LengthAt;
    assert first == FirstMessage(d);
  }

  // ---- The stream ----

  datatype Event = MessageEvent(messages: seq<Message>, endStream: bool) | DataLoss

  // An event after which the stream reports nothing more.
  predicate Terminal(e: Event) {
    e.DataLoss? || e.endStream
  }

  function AllMessages(events: seq<Event>): seq<Message> {
    if events == [] then []
    else AllMessages(events[..|events| - 1]) + MessagesIn(events[|events| - 1])
  }

  function MessagesIn(e: Event): seq<Message> {
    if e.MessageEvent? then e.messages else []
  }

  lemma AllMessagesSnoc(events: seq<Event>, e: Event)
    ensures AllMessages(events + [e]) == AllMessages(events) + MessagesIn(e)
  {
    assert (events + [e])[..|events|] == events;
  }

  // No event but the last is terminal.
  predicate TerminalLast(events: seq<Event>) {
    forall i | 0 <= i < |events| - 1 :: !Terminal(events[i])
  }

  predicate EndsIn(events: seq<Event>) {
    events != [] && Terminal(events[|events| - 1])
  }

  // No message event is empty but one that ends the stream.
  predicate NoEmptyNews(events: seq<Event>) {
    forall i | 0 <= i < |events| :: events[i].MessageEvent? && !events[i].endStream ==> events[i].messages != []
  }

  // What a frame makes known: its messages, if it completes any, and the end of the stream, which is
  // part of that event if no byte is left, and otherwise an event of its own.
  function News(messages: seq<Message>, left: Bytes, endStream: bool): (events: seq<Event>)
    ensures messages == [] && !endStream ==> events == []
    ensures messages != [] ==> events != [] && events[0] == MessageEvent(messages, endStream && left == [])
    ensures endStream && left != [] ==> events != [] && events[|events| - 1] == DataLoss
    ensures |events| == (if messages != [] then 1 else 0) + if endStream && (left != [] || messages == []) then 1 else 0
  {
    (if messages != [] then [MessageEvent(messages, endStream && left == [])] else [])
    + if !endStream then [] else if left != [] then [DataLoss]
      else if messages == [] then [MessageEvent([], true)] else []
  }

  class Receiver {
    const skips: bool
    const window: nat
    const recvData: array<Byte>
    var recvLen: nat

    // History: the bytes accepted, those cut off again, the messages delivered, the events
    // written, and whether a frame has carried END_STREAM.
    ghost var received: Bytes
    ghost var cut: Bytes
    ghost var delivered: seq<Message>
    ghost var log: seq<Event>
    ghost var ended: bool

    ghost function Buffer(): Bytes
      requires recvLen <= recvData.Length
      reads this, recvData
    {
      recvData[..recvLen]
    }

    ghost predicate Valid()
      reads this, recvData
    {
      && recvData.Length == window && recvLen <= window
      && cut + Buffer() == received
      && (skips || AllEmpty(Messages(received)) ==> delivered + Messages(Buffer()) == Messages(received))
      && (skips || AllEmpty(Messages(received)) ==> Residue(Buffer()) == Residue(received))
      && (!skips ==> |cut| == HEADER * |delivered|)
      && delivered == AllMessages(log)
      && TerminalLast(log) && (EndsIn(log) ==> ended) && NoEmptyNews(log)
    }

    // on_begin_headers_callback
    constructor (window: nat, skips: bool)
      ensures Valid() && this.window == window && this.skips == skips && fresh(recvData)
      ensures received == [] && cut == [] && delivered == [] && log == [] && !ended
    {
      this.window, this.skips := window, skips;
      recvData := new Byte[window](_ => 0);
      recvLen, received, cut, delivered, log, ended := 0, [], [], [], [], false;
    }

    // on_data_chunk_recv_callback: false where the code resets the stream.
    method Chunk(data: Bytes) returns (accepted: bool)
      requires Valid()
      modifies this`recvLen, this`received, recvData
      ensures Valid()
      ensures accepted <==> old(recvLen) + |data| <= window
      ensures received == if accepted then old(received) + data else old(received)
      ensures accepted ==> Buffer() == old(Buffer()) + data
      ensures !accepted ==> Buffer() == old(Buffer())
    {
      hide Messages, Residue, AllEmpty;
      if recvLen + |data| > window {
        return false;
      }
      ghost var before := Buffer();
      CopyInto(recvData, recvLen, data);
      recvLen := recvLen + |data|;
      assert Buffer() == before + data;
      MessagesConcat(cut + before, data);
      EmptyPrefix(Messages(received), Messages(Residue(received) + data));
      received := received + data;
      MessagesConcat(before, data);
      assert cut + before + data == cut + (before + data);
      accepted := true;
    }

    // The part of on_frame_recv_data that cuts the whole messages off the front.
    method CutOff() returns (messages: seq<Message>, any: bool)
      requires Valid()
      modifies this`recvLen, this`cut, this`delivered, recvData
      ensures recvLen <= window && cut + Buffer() == received
      ensures !skips ==> |cut| == HEADER * |delivered|
      ensures skips || AllEmpty(Messages(received)) ==>
                && delivered + Messages(Buffer()) == Messages(received)
                && Residue(Buffer()) == Residue(received)
      ensures messages == Delivered(old(Buffer()), skips) && (any <==> messages != [])
      ensures !any ==> recvLen == old(recvLen)
      ensures delivered == old(delivered) + messages
      ensures cut == old(cut) + old(Buffer())[..Cut(old(Buffer()), skips)]
      ensures Buffer() == old(Buffer())[Cut(old(Buffer()), skips)..]
      ensures delivered == Messages(received) && Buffer() == Residue(received)
              <==> skips || AllEmpty(Messages(received))
    {
      hide Messages, Residue, Delivered, Cut, AllEmpty;
      CutLaw(received, cut, delivered, Buffer(), skips);
      cut := cut + Buffer()[..Cut(Buffer(), skips)];
      delivered := delivered + Delivered(Buffer(), skips);
      var lseek, ms, created := Parse(recvData, recvLen, skips);
      messages, any := ms, lseek > 0;
      if any {
        assert lseek <= recvLen;
      }
      Drop(lseek);
    }

    // ezgrpc2_events_write
    method Report(e: Event)
      requires !EndsIn(log)
      modifies this`log
      ensures log == old(log) + [e] && AllMessages(log) == AllMessages(old(log)) + MessagesIn(e)
      ensures old(TerminalLast(log)) ==> TerminalLast(log)
      ensures old(NoEmptyNews(log)) && (e.MessageEvent? && !e.endStream ==> e.messages != []) ==> NoEmptyNews(log)
    {
      AllMessagesSnoc(log, e);
      log := log + [e];
    }

    // on_frame_recv_data for a stream that has been found. No frame follows one with END_STREAM.
    method Frame(endStream: bool, registered: bool)
      requires Valid() && !ended
      modifies this`recvLen, this`cut, this`delivered, this`log, this`ended, recvData
      ensures Valid() && ended == endStream && old(log) <= log
      ensures !registered ==> log == old(log) && Buffer() == old(Buffer())
      ensures registered ==> AllMessages(log) == AllMessages(old(log)) + Delivered(old(Buffer()), skips)
      ensures registered ==> Buffer() == old(Buffer())[Cut(old(Buffer()), skips)..]
      ensures EndsIn(log) <==> registered && endStream
      ensures EndsIn(log) ==> (log[|log| - 1].DataLoss? <==> Buffer() != [])
      ensures EndsIn(log) ==> |log| > |old(log)|
      ensures registered && Delivered(old(Buffer()), skips) == [] && !endStream ==> log == old(log)
      ensures registered && Delivered(old(Buffer()), skips) != [] ==>
                && |log| > |old(log)|
                && log[|old(log)|] == MessageEvent(Delivered(old(Buffer()), skips), endStream && Buffer() == [])
      ensures registered ==> log == old(log) + News(Delivered(old(Buffer()), skips), Buffer(), endStream)
      ensures registered ==> (delivered == Messages(received) && Buffer() == Residue(received)
                              <==> skips || AllEmpty(Messages(received)))
    {
      hide Messages, Residue, Delivered, Cut, AllMessages, AllEmpty, NoEmptyNews, TerminalLast;
      ended := endStream;
      if !registered {
        return;
      }
      if endStream && recvLen == 0 {
        NothingCut(Buffer(), skips);
        NothingWalked();
        RightMeansEmpty(received, cut, delivered, Buffer(), skips);
        Report(MessageEvent([], true));
        return;
      }
      var messages, any := CutOff();
      Publish(messages, any, endStream);
    }

    // The events of a frame that has been cut
    method Publish(messages: seq<Message>, any: bool, endStream: bool)
      requires recvLen <= recvData.Length && (any <==> messages != [])
      requires !EndsIn(log) && TerminalLast(log) && NoEmptyNews(log)
      requires endStream && recvLen == 0 ==> any
      modifies this`log
      ensures log == old(log) + News(messages, Buffer(), endStream)
      ensures AllMessages(log) == AllMessages(old(log)) + messages
      ensures TerminalLast(log) && NoEmptyNews(log) && (EndsIn(log) <==> endStream)
      ensures endStream ==> log != [] && (log[|log| - 1].DataLoss? <==> Buffer() != [])
    {
      hide AllMessages, NoEmptyNews;
      if any {
        Report(MessageEvent(messages, endStream && recvLen == 0));
      }
      if endStream && recvLen > 0 {
        Report(DataLoss);
      }
    }

    method Drop(lseek: nat)
      requires lseek <= recvLen <= recvData.Length
      modifies this`recvLen, recvData
      ensures recvLen == old(recvLen) - lseek && Buffer() == old(Buffer())[lseek..]
    {
      if lseek > 0 {
        Shift(recvData, lseek, recvLen);
        recvLen := recvLen - lseek;
      }
    }
  }

  lemma NothingWalked()
    ensures Messages([]) == [] && Residue([]) == []
  {
  }

  lemma EmptyPrefix(a: seq<Message>, b: seq<Message>)
    ensures AllEmpty(a + b) <==> AllEmpty(a) && AllEmpty(b)
  {
    assert forall i | 0 <= i < |a| :: a[i] == (a + b)[i];
    assert forall i | 0 <= i < |b| :: b[i] == (a + b)[|a| + i];
  }

  // As written the parser can only have got a stream right if every message of it is empty.
  lemma RightMeansEmpty(received: Bytes, cut: Bytes, delivered: seq<Message>, rest: Bytes, skips: bool)
    requires cut + rest == received
    requires !skips ==> |cut| == HEADER * |delivered|
    ensures delivered == Messages(received) && rest == Residue(received) ==> skips || AllEmpty(Messages(received))
  {
    hide Messages, Residue, Delivered, Cut, AllEmpty;
    SkippingIsWalking(received);
    CutWeighs(received);
    WeightOfEmpty(Messages(received));
  }

  // Cutting keeps every byte. When the data is stepped over, or there is none, it delivers what
  // was received whole.
  lemma CutLaw(received: Bytes, cut: Bytes, delivered: seq<Message>, d: Bytes, skips: bool)
    requires cut + d == received
    requires skips || AllEmpty(Messages(received)) ==>
               delivered + Messages(d) == Messages(received) && Residue(d) == Residue(received)
    requires !skips ==> |cut| == HEADER * |delivered|
    ensures
      var k := Cut(d, skips);
      var after := delivered + Delivered(d, skips);
      && cut + d[..k] + d[k..] == received
      && (!skips ==> |cut + d[..k]| == HEADER * |after|)
      && (skips || AllEmpty(Messages(received)) ==>
            && d[k..] == Residue(received) == Residue(d[k..])
            && after == Messages(received) == after + Messages(d[k..]))
      && (after == Messages(received) && d[k..] == Residue(received) <==> skips || AllEmpty(Messages(received)))
  {
    hide Messages, Residue, Delivered, Cut, AllEmpty;
    var k := Cut(d, skips);
    assert d == d[..k] + d[k..];
    SkippingIsWalking(d);
    EncodeDecode(d);
    CutWeighs(d);
    if !skips && AllEmpty(Messages(received)) {
      EmptyPrefix(delivered, Messages(d));
      EmptyFramesParseAlike(d);
    }
    RightMeansEmpty(received, cut + d[..k], delivered + Delivered(d, skips), d[k..], skips);
    assert Messages(received) + [] == Messages(received);
  }

  // The move of the rest of the buffer to its front, which overlaps.
  method Shift(data: array<Byte>, from: nat, len: nat)
    requires from <= len <= data.Length
    modifies data
    ensures data[..len - from] == old(data[from..len])
  {
    for i := 0 to len - from
      invariant forall j | 0 <= j < i :: data[j] == old(data[from + j])
      invariant forall j | i <= j < data.Length :: data[j] == old(data[j])
    {
      data[i] := data[from + i];
    }
  }

  // ---- A whole stream ----

  function Joined(chunks: seq<Bytes>): Bytes {
    if chunks == [] then [] else chunks[0] + Joined(chunks[1..])
  }

  // What the peer sends: frames, each delivered in chunks; the last one ends the stream.
  function AllBytes(frames: seq<seq<Bytes>>): Bytes {
    if frames == [] then [] else Joined(frames[0]) + AllBytes(frames[1..])
  }

  // What is left in the buffer after the frames, and what they deliver, starting from d.
  function Kept(d: Bytes, frames: seq<seq<Bytes>>, skips: bool): Bytes
    decreases |frames|
  {
    if frames == [] then d
    else
      var e := d + Joined(frames[0]);
      Kept(e[Cut(e, skips)..], frames[1..], skips)
  }

  function Told(d: Bytes, frames: seq<seq<Bytes>>, skips: bool): seq<Message>
    decreases |frames|
  {
    if frames == [] then []
    else
      var e := d + Joined(frames[0]);
      Delivered(e, skips) + Told(e[Cut(e, skips)..], frames[1..], skips)
  }

  // What a stream makes known, frame by frame, starting from d; the last frame ends it.
  function AllNews(d: Bytes, frames: seq<seq<Bytes>>, skips: bool): seq<Event>
    decreases |frames|
  {
    if frames == [] then []
    else
      var e := d + Joined(frames[0]);
      var rest := e[Cut(e, skips)..];
      News(Delivered(e, skips), rest, |frames| == 1) + AllNews(rest, frames[1..], skips)
  }

  // No frame comes to more than the window beside what is left of those before it.
  predicate Fits(d: Bytes, frames: seq<seq<Bytes>>, window: nat, skips: bool)
    decreases |frames|
  {
    if frames == [] then true
    else
      var e := d + Joined(frames[0]);
      |e| <= window && Fits(e[Cut(e, skips)..], frames[1..], window, skips)
  }

  // A stream that fits into the window as a whole is never refused, however it is parsed.
  lemma {:induction false} ShortStreamFits(d: Bytes, frames: seq<seq<Bytes>>, window: nat, skips: bool)
    requires |d| + |AllBytes(frames)| <= window
    ensures Fits(d, frames, window, skips)
    decreases |frames|
  {
    hide Cut, Joined;
    if frames != [] {
      var e := d + Joined(frames[0]);
      ShortStreamFits(e[Cut(e, skips)..], frames[1..], window, skips);
    }
  }

  // Frame i fits beside the residue of all bytes before it.
  predicate FrameFits(before: Bytes, frames: seq<seq<Bytes>>, i: nat, window: nat)
    requires i < |frames|
  {
    |Residue(before + AllBytes(frames[..i]))| + |Joined(frames[i])| <= window
  }

  lemma LaterFrame(before: Bytes, frames: seq<seq<Bytes>>, i: nat, window: nat)
    requires 0 < i < |frames|
    ensures FrameFits(before, frames, i, window) <==> FrameFits(before + Joined(frames[0]), frames[1..], i - 1, window)
  {
    hide Residue, Joined;
    assert frames[..i][1..] == frames[1..][..i - 1];
    assert before + AllBytes(frames[..i]) == before + Joined(frames[0]) + AllBytes(frames[1..][..i - 1]);
  }

  // Stepping over the data, a stream is refused exactly when a frame does not fit beside the
  // residue of what came before it.
  lemma {:induction false} SkippingFitsExactly(before: Bytes, frames: seq<seq<Bytes>>, window: nat)
    ensures Fits(Residue(before), frames, window, true)
            <==> forall i | 0 <= i < |frames| :: FrameFits(before, frames, i, window)
    decreases |frames|
  {
    hide Cut, Joined, Messages, Residue, FrameFits;
    if frames != [] {
      var e := Residue(before) + Joined(frames[0]);
      SkippingIsWalking(e);
      MessagesConcat(before, Joined(frames[0]));
      SkippingFitsExactly(before + Joined(frames[0]), frames[1..], window);
      FirstFits(before, frames, window);
      forall i | 0 < i < |frames|
        ensures FrameFits(before, frames, i, window) <==> FrameFits(before + Joined(frames[0]), frames[1..], i - 1, window)
      {
        LaterFrame(before, frames, i, window);
      }
      assert forall j | 0 <= j < |frames[1..]| ::
          FrameFits(before + Joined(frames[0]), frames[1..], j, window) <==> FrameFits(before, frames, j + 1, window);
    }
  }

  lemma FirstFits(before: Bytes, frames: seq<seq<Bytes>>, window: nat)
    requires frames != []
    ensures FrameFits(before, frames, 0, window) <==> |Residue(before) + Joined(frames[0])| <= window
  {
    assert before + AllBytes(frames[..0]) == before;
  }

  lemma NextChunk(before: Bytes, chunks: seq<Bytes>, i: nat)
    requires i < |chunks|
    ensures before + Joined(chunks[i..]) == before + chunks[i] + Joined(chunks[i + 1..])
  {
    assert chunks[i..][1..] == chunks[i + 1..];
  }

  lemma NoMoreChunks(before: Bytes)
    ensures before + Joined([]) == before
  {
  }

  method TakeChunks(r: Receiver, chunks: seq<Bytes>) returns (accepted: bool)
    requires r.Valid()
    modifies r`recvLen, r`received, r.recvData
    ensures r.Valid()
    ensures accepted <==> old(r.recvLen) + |Joined(chunks)| <= r.window
    ensures accepted ==> r.received == old(r.received) + Joined(chunks)
    ensures accepted ==> r.Buffer() == old(r.Buffer()) + Joined(chunks)
  {
    hide Messages, Residue, AllMessages, AllEmpty, Joined, TerminalLast, EndsIn;
    assert chunks[0..] == chunks;
    for i := 0 to |chunks|
      invariant r.Valid()
      invariant old(r.received) + Joined(chunks) == r.received + Joined(chunks[i..])
      invariant old(r.Buffer()) + Joined(chunks) == r.Buffer() + Joined(chunks[i..])
    {
      NextChunk(r.received, chunks, i);
      NextChunk(r.Buffer(), chunks, i);
      accepted := r.Chunk(chunks[i]);
      if !accepted {
        return;
      }
    }
    assert chunks[|chunks|..] == [];
    NoMoreChunks(r.received);
    NoMoreChunks(r.Buffer());
    accepted := true;
  }

  // The stream has ended in a terminal event that tells whether bytes are left, and what has been
  // delivered is right exactly when it can be.
  predicate Concluded(log: seq<Event>, delivered: seq<Message>, buffer: Bytes, received: Bytes, skips: bool) {
    && EndsIn(log) && (log[|log| - 1].DataLoss? <==> buffer != [])
    && (delivered == Messages(received) && buffer == Residue(received) <==> skips || AllEmpty(Messages(received)))
  }

  lemma ConcludedMeans(log: seq<Event>, delivered: seq<Message>, buffer: Bytes, received: Bytes, skips: bool)
    requires Concluded(log, delivered, buffer, received, skips)
    ensures EndsIn(log) && log != [] && (log[|log| - 1] == DataLoss <==> buffer != [])
    ensures delivered == Messages(received) && buffer == Residue(received) <==> skips || AllEmpty(Messages(received))
  {
    hide Messages, Residue, AllEmpty;
  }

  method TakeFrame(r: Receiver, chunks: seq<Bytes>, last: bool) returns (accepted: bool)
    requires r.Valid() && !r.ended
    modifies r, r.recvData
    ensures r.Valid()
    ensures accepted <==> |old(r.Buffer()) + Joined(chunks)| <= r.window
    ensures
      var e := old(r.Buffer()) + Joined(chunks);
      accepted ==>
        && r.received == old(r.received) + Joined(chunks)
        && r.Buffer() == e[Cut(e, r.skips)..]
        && AllMessages(r.log) == AllMessages(old(r.log)) + Delivered(e, r.skips)
        && r.log == old(r.log) + News(Delivered(e, r.skips), r.Buffer(), last)
        && (r.delivered == Messages(r.received) && r.Buffer() == Residue(r.received)
            <==> r.skips || AllEmpty(Messages(r.received)))
    ensures accepted ==> r.ended == last && (EndsIn(r.log) <==> last)
    ensures accepted && last ==> Concluded(r.log, r.delivered, r.Buffer(), r.received, r.skips)
    ensures !accepted ==> !EndsIn(r.log)
  {
    hide Messages, Residue, AllMessages, Delivered, Cut, Joined, AllEmpty, News, NoEmptyNews;
    accepted := TakeChunks(r, chunks);
    if accepted {
      r.Frame(last, true);
    }
  }

  lemma NothingReported()
    ensures AllMessages([]) == []
  {
  }

  lemma NoMoreFrames(d: Bytes, window: nat, skips: bool)
    ensures Fits(d, [], window, skips) && Kept(d, [], skips) == d && Told(d, [], skips) == [] && AllBytes([]) == []
    ensures AllNews(d, [], skips) == []
  {
  }

  lemma NextNews(log: seq<Event>, d: Bytes, frames: seq<seq<Bytes>>, i: nat, skips: bool)
    requires i < |frames|
    ensures
      var e := d + Joined(frames[i]);
      var rest := e[Cut(e, skips)..];
      log + AllNews(d, frames[i..], skips)
      == log + News(Delivered(e, skips), rest, i == |frames| - 1) + AllNews(rest, frames[i + 1..], skips)
  {
    hide Cut, Delivered, Joined, News;
    assert frames[i..][1..] == frames[i + 1..];
  }

  lemma NextFrame(before: Bytes, told: seq<Message>, d: Bytes, frames: seq<seq<Bytes>>, i: nat, window: nat, skips: bool)
    requires i < |frames|
    ensures
      var e := d + Joined(frames[i]);
      var rest := e[Cut(e, skips)..];
      && (Fits(d, frames[i..], window, skips) <==> |e| <= window && Fits(rest, frames[i + 1..], window, skips))
      && Kept(d, frames[i..], skips) == Kept(rest, frames[i + 1..], skips)
      && told + Told(d, frames[i..], skips) == told + Delivered(e, skips) + Told(rest, frames[i + 1..], skips)
      && before + AllBytes(frames[i..]) == before + Joined(frames[i]) + AllBytes(frames[i + 1..])
  {
    hide Cut, Delivered, Joined;
    assert frames[i..][1..] == frames[i + 1..];
  }

  // The data frames of a whole stream, the last of which ends it. It is refused exactly when a
  // chunk comes to more than the window. Otherwise what is reported are the whole messages of all
  // its bytes, however they are split, and the last event, which is the only terminal one, says
  // whether a message was cut short: when the parser steps over the data, and as written exactly
  // when all messages are empty.
  method Run(frames: seq<seq<Bytes>>, window: nat, skips: bool) returns (r: Receiver, accepted: bool)
    requires frames != []
    ensures r.Valid() && r.skips == skips && r.window == window
    ensures accepted <==> Fits([], frames, window, skips)
    ensures |AllBytes(frames)| <= window ==> accepted
    ensures accepted ==> AllMessages(r.log) == Told([], frames, skips) && r.Buffer() == Kept([], frames, skips)
    ensures accepted ==> r.log == AllNews([], frames, skips)
    ensures NoEmptyNews(r.log) && TerminalLast(r.log) && (accepted ==> EndsIn(r.log))
    ensures accepted ==> (r.log[|r.log| - 1] == DataLoss <==> Kept([], frames, skips) != [])
    ensures accepted ==>
              (AllMessages(r.log) == Messages(AllBytes(frames)) && r.Buffer() == Residue(AllBytes(frames))
               <==> skips || AllEmpty(Messages(AllBytes(frames))))
    ensures !accepted ==> !EndsIn(r.log)
  {
    hide Messages, Residue, AllMessages, Delivered, Cut, Joined, AllEmpty, Fits, Kept, Told, AllBytes, TerminalLast,
      EndsIn, Concluded, AllNews, News, NoEmptyNews;
    r := new Receiver(window, skips);
    if |AllBytes(frames)| <= window {
      ShortStreamFits([], frames, window, skips);
    }
    NothingReported();
    assert frames[0..] == frames;
    for i := 0 to |frames|
      invariant r.Valid() && fresh(r) && fresh(r.recvData) && r.skips == skips && r.window == window
      invariant AllBytes(frames) == r.received + AllBytes(frames[i..])
      invariant Fits([], frames, window, skips) <==> Fits(r.Buffer(), frames[i..], window, skips)
      invariant Kept([], frames, skips) == Kept(r.Buffer(), frames[i..], skips)
      invariant Told([], frames, skips) == AllMessages(r.log) + Told(r.Buffer(), frames[i..], skips)
      invariant AllNews([], frames, skips) == r.log + AllNews(r.Buffer(), frames[i..], skips)
      invariant r.ended <==> i == |frames|
      invariant i == |frames| ==> Concluded(r.log, r.delivered, r.Buffer(), r.received, skips)
    {
      NextFrame(r.received, AllMessages(r.log), r.Buffer(), frames, i, window, skips);
      NextNews(r.log, r.Buffer(), frames, i, skips);
      accepted := TakeFrame(r, frames[i], i == |frames| - 1);
      if !accepted {
        return;
      }
    }
    assert frames[|frames|..] == [] && r.received + [] == r.received;
    NoMoreFrames(r.Buffer(), window, skips);
    ConcludedMeans(r.log, r.delivered, r.Buffer(), r.received, skips);
    accepted := true;
  }
}
