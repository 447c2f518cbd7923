// The outgoing side of a gRPC stream: messages wait in a queue, and every call of nghttp2 for data
// fills one buffer with as much of their wire form as fits. An encoding that stops inside a message
// resumes there in the next buffer.

module StreamEncoder {
  import opened Basics
  import opened MessageReader
  import opened Wire
  import L = LinkedList

  // The HTTP/2 error code of that name, which the code returns for a buffer below 5 bytes.
  const NGHTTP2_INTERNAL_ERROR: int := 2

  // ---- What is still to be sent ----

  // The bytes owed for a queue whose first message is being sent from seek on, its header gone.
  function Owed(q: seq<Message>, isTrunc: bool, seek: nat): Bytes
    requires isTrunc ==> q != [] && seek <= |q[0].data|
  {
    if isTrunc then q[0].data[seek..] + EncodeAll(q[1..]) else EncodeAll(q)
  }

  predicate HasEmpty(q: seq<Message>) {
    exists i | 0 <= i < |q| :: q[i].data == []
  }

  // Whether a call with this much room runs into the assertion on the message length: it reaches
  // an empty message, writes its header or finds it written, and has a byte of room left.
  predicate Stuck(q: seq<Message>, isTrunc: bool, seek: nat, room: nat)
    decreases |q|, !isTrunc
  {
    if q == [] then false
    else if isTrunc then
      var left := |q[0].data| - seek;
      room > 0 && (left <= 0 || (left <= room && Stuck(q[1..], false, 0, room - left)))
    else room >= HEADER && Stuck(q, true, 0, room - HEADER)
  }

  lemma {:induction false} StuckNeedsEmpty(q: seq<Message>, isTrunc: bool, seek: nat, room: nat)
    requires Stuck(q, isTrunc, seek, room)
    requires isTrunc && q != [] ==> seek <= |q[0].data| && (q[0].data != [] ==> seek < |q[0].data|)
    ensures HasEmpty(q)
    decreases |q|, !isTrunc
  {
    if !isTrunc {
      StuckNeedsEmpty(q, true, 0, room - HEADER);
    } else if q[0].data != [] {
      StuckNeedsEmpty(q[1..], false, 0, room - (|q[0].data| - seek));
      var i :| 0 <= i < |q[1..]| && q[1..][i].data == [];
      assert q[i + 1].data == [];
    }
  }

  // How far the encoder is: the queue, and where it is inside the first message.
  datatype Place = Place(q: seq<Message>, isTrunc: bool, seek: nat)

  // Where a call with this much room leaves the encoder, unless it is stuck.
  function Resumed(q: seq<Message>, isTrunc: bool, seek: nat, room: nat): Place
    decreases |q|, !isTrunc
  {
    if q == [] then Place(q, isTrunc, seek)
    else if isTrunc then
      var left := |q[0].data| - seek;
      if left <= 0 || room == 0 then Place(q, true, seek)
      else if left <= room then Resumed(q[1..], false, 0, room - left)
      else Place(q, true, seek + room)
    else if room >= HEADER then Resumed(q, true, 0, room - HEADER)
    else Place(q, false, seek)
  }

  // One turn of the encoder's loop
  lemma Turn(q: seq<Message>, isTrunc: bool, seek: nat, room: nat)
    ensures q == [] ==> !Stuck(q, isTrunc, seek, room) && Resumed(q, isTrunc, seek, room) == Place(q, isTrunc, seek)
    ensures q != [] && !isTrunc && room < HEADER ==>
              !Stuck(q, false, seek, room) && Resumed(q, false, seek, room) == Place(q, false, seek)
    ensures q != [] && !isTrunc && room >= HEADER ==>
              && (Stuck(q, false, seek, room) <==> Stuck(q, true, 0, room - HEADER))
              && Resumed(q, false, seek, room) == Resumed(q, true, 0, room - HEADER)
    ensures q != [] && isTrunc && room == 0 ==>
              !Stuck(q, true, seek, room) && Resumed(q, true, seek, room) == Place(q, true, seek)
    ensures q != [] && isTrunc && room > 0 && seek >= |q[0].data| ==> Stuck(q, true, seek, room)
    ensures q != [] && isTrunc && seek < |q[0].data| && room < |q[0].data| - seek ==>
              !Stuck(q, true, seek, room) && Resumed(q, true, seek, room) == Place(q, true, seek + room)
    ensures q != [] && isTrunc && seek < |q[0].data| && room >= |q[0].data| - seek ==>
              var rest := room - (|q[0].data| - seek);
              && (Stuck(q, true, seek, room) <==> Stuck(q[1..], false, 0, rest))
              && Resumed(q, true, seek, room) == Resumed(q[1..], false, 0, rest)
  {
  }

  // Whether one of the calls, before nghttp2 fails (None), is stuck.
  predicate SticksIn(at: Place, calls: seq<Option<nat>>)
    decreases |calls|
  {
    if calls == [] || calls[0].None? then false
    else
      || Stuck(at.q, at.isTrunc, at.seek, calls[0].value)
      || SticksIn(Resumed(at.q, at.isTrunc, at.seek, calls[0].value), calls[1..])
  }

  // The input that fails, alone in the queue: with room beyond its header at once, and with room
  // for the header only in the next call.
  lemma EmptyMessageSticks(m: Message, room: nat)
    requires m.data == []
    ensures Stuck([m], false, 0, room) <==> room > HEADER
    ensures Stuck([m], true, 0, room) <==> room > 0
  {
  }

  lemma HasEmptyTail(q: seq<Message>)
    requires q != [] && q[0].data != []
    ensures HasEmpty(q) <==> HasEmpty(q[1..])
  {
    if HasEmpty(q) {
      var i :| 0 <= i < |q| && q[i].data == [];
      assert q[1..][i - 1].data == [];
    }
    if HasEmpty(q[1..]) {
      var i :| 0 <= i < |q[1..]| && q[1..][i].data == [];
      assert q[i + 1].data == [];
    }
  }

  lemma OwedHeader(q: seq<Message>)
    requires q != []
    ensures Owed(q, false, 0) == Header(q[0]) + Owed(q, true, 0)
  {
    assert q[0].data[0..] == q[0].data;
  }

  lemma OwedPart(q: seq<Message>, seek: nat, k: nat)
    requires q != [] && seek + k <= |q[0].data|
    ensures Owed(q, true, seek) == q[0].data[seek..seek + k] + Owed(q, true, seek + k)
    ensures seek + k == |q[0].data| ==> Owed(q, true, seek + k) == Owed(q[1..], false, 0)
  {
  }

  lemma OwedMore(q: seq<Message>, isTrunc: bool, seek: nat, more: seq<Message>)
    requires isTrunc ==> q != [] && seek <= |q[0].data|
    ensures Owed(q + more, isTrunc, seek) == Owed(q, isTrunc, seek) + EncodeAll(more)
  {
    EncodeAllConcat(q, more);
    if isTrunc {
      EncodeAllConcat(q[1..], more);
      assert (q + more)[1..] == q[1..] + more;
    }
  }

  lemma HeaderLayout(m: Message)
    ensures
      var b := Header(m);
      && b[0] == m.cflag
      && PlaceValue(b[1], b[2], b[3], b[4]) == |m.data|
  {
    EncodeLayout(m);
    assert forall i | 0 <= i < HEADER :: Encode(m)[i] == Header(m)[i];
  }

  lemma Regroup(a: Bytes, b: Bytes, c: Bytes)
    ensures (a + b) + c == a + (b + c)
  {
  }

  // What a call for data comes to. Aborted: the assertion on the message length has failed.
  datatype Outcome = Wrote(n: nat, eof: bool) | Refused(code: int) | Aborted

  class Stream {
    const queue: L.List<Message>
    var isTrunc: bool
    var truncSeek: nat

    // History: every message handed over for sending, and every byte put into a buffer.
    ghost var sent: seq<Message>
    ghost var emitted: Bytes

    ghost predicate Shaped()
      reads this, queue, queue.nodes
    {
      && queue.Valid()
      && (!isTrunc ==> truncSeek == 0)
      && (isTrunc ==> queue.Contents() != [] && truncSeek <= |queue.Contents()[0].data|)
      && (isTrunc && queue.Contents()[0].data != [] ==> truncSeek < |queue.Contents()[0].data|)
    }

    // What has been emitted, followed by what is owed, is the wire form of all that was sent.
    ghost predicate Valid()
      reads this, queue, queue.nodes
    {
      && Shaped()
      && emitted + Owed(queue.Contents(), isTrunc, truncSeek) == EncodeAll(sent)
    }

    constructor ()
      ensures Valid() && sent == [] && emitted == []
      ensures fresh(queue) && queue.Contents() == [] && queue.all == {} && queue.nodes == []
      ensures !isTrunc && truncSeek == 0
    {
      queue := new L.List<Message>();
      isTrunc, truncSeek := false, 0;
      sent, emitted := [], [];
    }

    ghost function Q(): seq<Message>
      reads queue
    {
      queue.Contents()
    }

    // ezgrpc2_server_session_stream_send: the stream takes over the messages of the list.
    method Send(messages: L.List<Message>)
      requires Valid() && messages.Valid() && messages != queue
      requires forall i, j | 0 <= i < |queue.nodes| && 0 <= j < |messages.nodes| :: queue.nodes[i] != messages.nodes[j]
      modifies this`sent, queue, queue.all, messages, messages.all
      ensures Valid() && sent == old(sent) + old(messages.Contents()) && emitted == old(emitted)
      ensures messages.Valid() && messages.Contents() == []
      ensures Q() == old(Q()) + old(messages.Contents()) && queue.all == old(queue.all) + old(messages.all)
    {
      hide EncodeAll, Owed, L.DataOf;
      ghost var q, more := Q(), messages.Contents();
      OwedMore(q, isTrunc, truncSeek, more);
      EncodeAllConcat(sent, more);
      queue.ConcatAndEmpty(messages);
      sent := sent + more;
    }

    // The header of the first message goes into the buffer.
    method PutHeader(buf: array<Byte>, at: nat) returns (end: nat)
      requires Valid() && !isTrunc && Q() != [] && at + HEADER <= buf.Length
      modifies buf, this`isTrunc, this`truncSeek, this`emitted
      ensures Valid() && isTrunc && truncSeek == 0 && end == at + HEADER
      ensures buf[..at] == old(buf[..at]) && emitted == old(emitted) + buf[at..end]
      ensures buf[at] == old(Q())[0].cflag
      ensures PlaceValue(buf[at + 1], buf[at + 2], buf[at + 3], buf[at + 4])
              == |old(Q())[0].data|
    {
      hide EncodeAll, Owed, L.DataOf, Be32;
      OwedHeader(Q());
      var first := queue.PeekFront();
      var m := first.value;
      HeaderLayout(m);
      CopyInto(buf, at, [m.cflag] + Be32(|m.data|));
      end := at + HEADER;
      Regroup(emitted, Header(m), Owed(Q(), true, 0));
      assert buf[at..end] == Header(m);
      assert emitted + Owed(Q(), isTrunc, truncSeek) == (emitted + Header(m)) + Owed(Q(), true, 0);
      isTrunc, truncSeek := true, 0;
      emitted := emitted + buf[at..end];
    }

    // As much of the first message's data as fits, and the message is done with if all of it does.
    method PutData(buf: array<Byte>, at: nat) returns (end: nat)
      requires Valid() && isTrunc && at < buf.Length && truncSeek < |Q()[0].data|
      modifies buf, this`isTrunc, this`truncSeek, this`emitted, queue, queue.all
      ensures Valid()
      ensures buf[..at] == old(buf[..at]) && at < end <= buf.Length && emitted == old(emitted) + buf[at..end]
      ensures
        var left := |old(Q())[0].data| - old(truncSeek);
        if left <= buf.Length - at then end == at + left && !isTrunc && Q() == old(Q())[1..]
        else end == buf.Length && isTrunc && truncSeek == old(truncSeek) + (buf.Length - at) && Q() == old(Q())
      ensures queue.all == old(queue.all)
    {
      hide EncodeAll, Owed, L.DataOf;
      var first := queue.PeekFront();
      var data := first.value.data;
      var rem := buf.Length - at;
      var fits := |data| - truncSeek <= rem;
      var toWrite := if fits then |data| - truncSeek else rem;
      OwedPart(Q(), truncSeek, toWrite);
      CopyInto(buf, at, data[truncSeek..truncSeek + toWrite]);
      end := at + toWrite;
      Regroup(emitted, buf[at..end], Owed(Q(), true, truncSeek + toWrite));
      emitted := emitted + buf[at..end];
      if fits {
        FinishFirst();
      } else {
        truncSeek := truncSeek + rem;
      }
    }

    method FinishFirst()
      requires Shaped() && isTrunc
      modifies this`isTrunc, this`truncSeek, queue, queue.all
      ensures Shaped() && !isTrunc && Q() == old(Q())[1..]
      ensures queue.all == old(queue.all)
    {
      hide L.DataOf;
      ghost var q := Q();
      var popped := queue.PopFront();
      assert q == [popped.value] + Q();
      isTrunc, truncSeek := false, 0;
    }

    // A turn of the loop in the middle of a message that has data left
    method Continue(buf: array<Byte>, at: nat) returns (end: nat)
      requires Valid() && isTrunc && at < buf.Length && truncSeek < |Q()[0].data|
      modifies buf, this`isTrunc, this`truncSeek, this`emitted, queue, queue.all
      ensures Valid() && queue.all == old(queue.all)
      ensures buf[..at] == old(buf[..at]) && at < end <= buf.Length && emitted == old(emitted) + buf[at..end]
      ensures if isTrunc then end == buf.Length && Q() == old(Q()) else |Q()| < |old(Q())|
      ensures Stuck(Q(), isTrunc, truncSeek, buf.Length - end)
              <==> old(Stuck(Q(), isTrunc, truncSeek, buf.Length - at))
      ensures Resumed(Q(), isTrunc, truncSeek, buf.Length - end)
              == old(Resumed(Q(), isTrunc, truncSeek, buf.Length - at))
      ensures isTrunc ==>
                && !old(Stuck(Q(), isTrunc, truncSeek, buf.Length - at))
                && Place(Q(), isTrunc, truncSeek) == old(Resumed(Q(), isTrunc, truncSeek, buf.Length - at))
      ensures HasEmpty(Q()) <==> HasEmpty(old(Q()))
    {
      hide EncodeAll, Owed, L.DataOf, Stuck, Resumed, HasEmpty;
      Turn(Q(), isTrunc, truncSeek, buf.Length - at);
      HasEmptyTail(Q());
      end := PutData(buf, at);
      if isTrunc {
        Turn(Q(), isTrunc, truncSeek, 0);
      }
    }

    // data_source_read_callback2
    method Read(buf: array<Byte>) returns (outcome: Outcome)
      requires Valid()
      modifies buf, this`isTrunc, this`truncSeek, this`emitted, queue, queue.all
      ensures outcome.Refused? <==> buf.Length < HEADER
      ensures outcome.Refused? ==> outcome.code == NGHTTP2_INTERNAL_ERROR && Valid() && emitted == old(emitted)
      ensures outcome.Aborted? <==> buf.Length >= HEADER && Stuck(old(Q()), old(isTrunc), old(truncSeek), buf.Length)
      ensures outcome.Wrote? ==>
                && Valid() && outcome.n <= buf.Length && emitted == old(emitted) + buf[..outcome.n]
                && (outcome.eof <==> Q() == [])
                && (!outcome.eof ==> buf.Length - outcome.n < HEADER)
                && (old(Q()) != [] ==> outcome.n > 0)
                && |Q()| <= |old(Q())|
                && (HasEmpty(Q()) <==> HasEmpty(old(Q())))
                && Place(Q(), isTrunc, truncSeek) == Resumed(old(Q()), old(isTrunc), old(truncSeek), buf.Length)
      ensures outcome.Aborted? ==> HasEmpty(old(Q()))
      ensures queue.all == old(queue.all)
    {
      hide EncodeAll, Owed, L.DataOf, Stuck, Resumed, HasEmpty, PlaceValue;
      if buf.Length < HEADER {
        return Refused(NGHTTP2_INTERNAL_ERROR);
      }
      var at: nat := 0;
      while true
        invariant at <= buf.Length
        invariant Valid()
        invariant emitted == old(emitted) + buf[..at]
        invariant Stuck(Q(), isTrunc, truncSeek, buf.Length - at)
                  <==> Stuck(old(Q()), old(isTrunc), old(truncSeek), buf.Length)
        invariant Resumed(Q(), isTrunc, truncSeek, buf.Length - at)
                  == Resumed(old(Q()), old(isTrunc), old(truncSeek), buf.Length)
        invariant |Q()| <= |old(Q())| && (at == 0 ==> Q() == old(Q()))
        invariant HasEmpty(Q()) <==> HasEmpty(old(Q()))
        invariant queue.all == old(queue.all)
        decreases |Q()|, !isTrunc
      {
        Turn(Q(), isTrunc, truncSeek, buf.Length - at);
        var first := queue.PeekFront();
        if first.None? {
          return Wrote(at, true);
        }
        var msg := first.value;
        if isTrunc {
          var rem := buf.Length - at;
          if rem == 0 {
            return Wrote(at, false);
          }
          if |msg.data| <= truncSeek {
            StuckNeedsEmpty(Q(), isTrunc, truncSeek, rem);
            return Aborted;
          }
          at := Continue(buf, at);
          if isTrunc {
            return Wrote(at, false);
          }
        } else if at + HEADER <= buf.Length {
          at := PutHeader(buf, at);
        } else {
          return Wrote(at, false);
        }
      }
    }
  }

  // ---- A whole drain ----

  // nghttp2 asks again and again, with buffers of any sizes it likes, until the flags say EOF. The
  // calls come to an end, and it is the queued messages alone that decide which: they are all
  // drained unless one is empty, and then the assertion fails.
  method Drain(stream: Stream, sizes: nat -> nat) returns (aborted: bool, out: Bytes)
    requires stream.Valid() && forall i: nat :: sizes(i) >= HEADER
    modifies stream`isTrunc, stream`truncSeek, stream`emitted, stream.queue, stream.queue.all
    ensures aborted <==> HasEmpty(old(stream.Q()))
    ensures !aborted ==>
              && stream.Valid() && stream.Q() == []
              && out == old(Owed(stream.Q(), stream.isTrunc, stream.truncSeek))
              && stream.emitted == old(stream.emitted) + out == EncodeAll(stream.sent)
  {
    hide EncodeAll, Owed, L.DataOf, Resumed, Stuck;
    out := [];
    ghost var whole := EncodeAll(stream.sent);
    var i := 0;
    while true
      invariant stream.Valid() && stream.queue.all == old(stream.queue.all)
      invariant stream.emitted == old(stream.emitted) + out
      invariant HasEmpty(stream.Q()) <==> HasEmpty(old(stream.Q()))
      decreases |whole| - |out|, |stream.Q()|
    {
      var buf := new Byte[sizes(i)];
      var outcome := stream.Read(buf);
      if outcome.Aborted? {
        return true, out;
      }
      out := out + buf[..outcome.n];
      if outcome.eof {
        NothingOwed();
        SamePrefix(old(stream.emitted), out, old(Owed(stream.Q(), stream.isTrunc, stream.truncSeek)));
        return false, out;
      }
      i := i + 1;
    }
  }

  lemma SamePrefix(a: Bytes, b: Bytes, c: Bytes)
    requires a + b == a + c
    ensures b == c
  {
    assert b == (a + b)[|a|..];
    assert c == (a + c)[|a|..];
  }

  lemma NothingOwed()
    ensures Owed([], false, 0) == []
  {
  }

  // ---- The call of the user ----

  // ezgrpc2_server_session_stream_send, with the session and the stream as they are found, and
  // what nghttp2 then does while it wants to write: ask for data with some room, or fail (None).
  // No result means that the assertion on the message length has failed.
  method SessionSend(sessionFound: bool, stream: Stream?, messages: L.List<Message>, calls: seq<Option<nat>>)
    returns (code: Option<int>)
    requires messages.Valid() && forall c | c in calls && c.Some? :: c.value >= HEADER
    requires stream != null ==> stream.Valid() && messages != stream.queue
    requires stream != null ==> forall i, j | 0 <= i < |stream.queue.nodes| && 0 <= j < |messages.nodes| ::
                                  stream.queue.nodes[i] != messages.nodes[j]
    modifies stream, messages, messages.all, if stream != null then {stream.queue} else {},
      if stream != null then stream.queue.all else {}
    ensures !sessionFound <==> code == Some(1)
    ensures sessionFound && stream == null <==> code == Some(2)
    ensures code == Some(1) || code == Some(2) ==>
              messages.Valid() && messages.Contents() == old(messages.Contents())
              && (stream != null ==> stream.sent == old(stream.sent) && stream.emitted == old(stream.emitted))
    ensures code == Some(0) || code == Some(3) ==>
              && stream != null && stream.Valid() && messages.Contents() == []
              && stream.sent == old(stream.sent) + old(messages.Contents())
              && old(stream.emitted) <= stream.emitted
              && (code == Some(3) <==> None in calls)
    ensures code == None <==>
              && sessionFound && stream != null
              && SticksIn(Place(old(stream.Q()) + old(messages.Contents()), old(stream.isTrunc), old(stream.truncSeek)), calls)
    ensures code == None ==> HasEmpty(old(stream.Q()) + old(messages.Contents()))
    ensures code.Some? ==> code.value in {0, 1, 2, 3}
  {
    hide EncodeAll, Owed, L.DataOf, Resumed, Stuck;
    if !sessionFound {
      return Some(1);
    }
    if stream == null {
      return Some(2);
    }
    stream.Send(messages);
    ghost var all := stream.queue.all;
    ghost var start := Place(stream.Q(), stream.isTrunc, stream.truncSeek);
    for i := 0 to |calls|
      invariant stream.Valid() && stream.queue.all == all && messages.Contents() == []
      invariant stream.sent == old(stream.sent) + old(messages.Contents()) && old(stream.emitted) <= stream.emitted
      invariant HasEmpty(stream.Q()) <==> HasEmpty(old(stream.Q()) + old(messages.Contents()))
      invariant None !in calls[..i]
      invariant SticksIn(start, calls) <==> SticksIn(Place(stream.Q(), stream.isTrunc, stream.truncSeek), calls[i..])
    {
      assert calls[i..][1..] == calls[i + 1..];
      if calls[i].None? {
        return Some(3);
      }
      assert calls[i] in calls;
      var buf := new Byte[calls[i].value];
      var outcome := stream.Read(buf);
      if outcome.Aborted? {
        return None;
      }
    }
    code := Some(0);
  }

  // ---- There and back ----

  // Messages sent on a fresh stream, drained through buffers of any sizes and read with the reader
  // come back as they were, unless one of them is empty.
  method RoundTrip(messages: L.List<Message>, sizes: nat -> nat) returns (aborted: bool, back: seq<Message>)
    requires messages.Valid() && forall i: nat :: sizes(i) >= HEADER
    modifies messages, messages.all
    ensures aborted <==> HasEmpty(old(messages.Contents()))
    ensures !aborted ==> back == old(messages.Contents())
  {
    hide EncodeAll, Messages, Residue, Owed, L.DataOf;
    ghost var ms := messages.Contents();
    var stream := new Stream();
    NothingOwed();
    stream.Send(messages);
    FreshStreamOwes(ms);
    var out: Bytes;
    aborted, out := Drain(stream, sizes);
    if aborted {
      return true, [];
    }
    DecodeEncode(ms, []);
    NoMessage([]);
    assert EncodeAll(ms) + [] == EncodeAll(ms) && ms + [] == ms;
    var data := new Byte[|out|](i requires 0 <= i < |out| => out[i]);
    assert data[..] == out;
    var reader := NewReader(data);
    if reader == null {
      assert out == [];
      NoMessage(out);
      return false, [];
    }
    back := ReadAll(reader);
  }

  lemma FreshStreamOwes(ms: seq<Message>)
    ensures Owed(ms, false, 0) == EncodeAll(ms) && EncodeAll([]) == [] && [] + ms == ms
  {
  }
}
