// The reader of ezgrpc2 for a buffer of length-prefixed messages: a scan that validates and counts,
// and a cursor that hands out one message at a time.

module MessageReader {
  import opened Basics
  import opened Wire

  // ntohl(uread_u32(data + at))
  method ReadLength(data: array<Byte>, at: nat) returns (n: nat)
    requires at + 4 <= data.Length
    ensures n == FromBe32(data[at..at + 4]) < U32
  {
    n := FromBe32(data[at..at + 4]);
  }

  // is_valid_length_prefixed_messages: the end of the data if it is whole messages and nothing
  // else, and 0 if it is empty or has a residue. The count is of the whole messages in any case.
  method Validate(data: array<Byte>) returns (end: nat, count: nat)
    ensures count == |Messages(data[..])|
    ensures end == if Residue(data[..]) == [] then data.Length else 0
  {
    hide Messages, Residue;
    end, count := 0, 0;
    if data.Length == 0 {
      NoMessage(data[..]);
      return;
    }
    var seek := 0;
    while seek < data.Length
      invariant seek <= data.Length
      invariant |Messages(data[..])| == count + |Messages(data[seek..])|
      invariant Residue(data[..]) == Residue(data[seek..])
      decreases data.Length - seek
    {
      ghost var rest := data[seek..];
      if seek + 1 > data.Length {
        return;
      }
      seek := seek + 1;
      if seek + 4 > data.Length {
        NoMessage(rest);
        return;
      }
      assert rest[1..HEADER] == data[seek..seek + 4];
      var length := ReadLength(data, seek);
      seek := seek + 4;
      if seek + length > data.Length {
        NoMessage(rest);
        return;
      }
      seek := seek + length;
      assert data[seek..] == AfterFirst(rest);
      OneMessage(rest);
      count := count + 1;
    }
    assert data[seek..] == [];
    NoMessage(data[seek..]);
    end := seek;
  }

  lemma NoMessage(d: Bytes)
    requires !HasFrame(d)
    ensures Messages(d) == [] && Residue(d) == d
  {
  }

  lemma OneMessage(d: Bytes)
    requires HasFrame(d)
    ensures Messages(d) == [FirstMessage(d)] + Messages(AfterFirst(d)) && Residue(d) == Residue(AfterFirst(d))
    ensures |Messages(d)| == 1 + |Messages(AfterFirst(d))|
  {
  }

  class Reader {
    const data: array<Byte>
    const count: nat
    var seek: nat

    // The messages not handed out yet.
    ghost function Ahead(): seq<Message>
      reads this, data
      requires seek <= data.Length
    {
      Messages(data[seek..])
    }

    ghost predicate Valid()
      reads this, data
    {
      && seek <= data.Length
      && count == |Messages(data[..])|
      && Residue(data[..]) == Residue(data[seek..]) == []
    }

    // The part of ezgrpc2_messages_new that runs once the data has been found valid.
    constructor (data: array<Byte>, count: nat)
      requires Residue(data[..]) == [] && count == |Messages(data[..])|
      ensures Valid() && this.data == data && this.count == count && Ahead() == Messages(data[..])
    {
      this.data, this.count, seek := data, count, 0;
      assert data[0..] == data[..];
    }

    // ezgrpc2_messages_next: the next message, or an empty result at the end.
    method Next() returns (m: Option<Message>)
      requires Valid()
      modifies this
      ensures Valid()
      ensures m == None <==> old(Ahead()) == []
      ensures m == None ==> seek == old(seek) == data.Length
      ensures m.Some? ==> old(Ahead()) == [m.value] + Ahead()
    {
      if seek == data.Length {
        NoMessage(data[seek..]);
        return None;
      }
      ghost var rest := data[seek..];
      NonEmptyHasFrame(rest);
      OneMessage(rest);
      var cflag := data[seek];
      assert rest[1..HEADER] == data[seek + 1..seek + 5];
      var length := ReadLength(data, seek + 1);
      var from := seek + 5;
      m := Some(Message(cflag, data[from..from + length]));
      assert FirstMessage(rest) == m.value;
      assert data[from + length..] == AfterFirst(rest);
      seek := from + length;
    }

    // ezgrpc2_messages_rewind
    method Rewind()
      requires Valid()
      modifies this
      ensures Valid() && Ahead() == Messages(data[..])
    {
      seek := 0;
      assert data[0..] == data[..];
    }
  }

  lemma NonEmptyHasFrame(d: Bytes)
    requires Residue(d) == [] && d != []
    ensures HasFrame(d)
  {
  }

  // ezgrpc2_messages_new
  method NewReader(data: array<Byte>) returns (r: Reader?)
    ensures r == null <==> data.Length == 0 || Residue(data[..]) != []
    ensures r != null ==> fresh(r) && r.Valid() && r.data == data && r.Ahead() == Messages(data[..])
  {
    var end, count := Validate(data);
    if end == 0 {
      assert data.Length == 0 || Residue(data[..]) != [];
      return null;
    }
    r := new Reader(data, count);
  }

  // Reading a buffer to its end gives back exactly the messages in it, and only then is the
  // cursor at the end.
  method ReadAll(r: Reader) returns (ms: seq<Message>)
    requires r.Valid()
    modifies r
    ensures ms == old(r.Ahead()) && r.Valid() && r.seek == r.data.Length
  {
    ms := [];
    while true
      invariant r.Valid() && old(r.Ahead()) == ms + r.Ahead()
      decreases |r.Ahead()|
    {
      var m := r.Next();
      if m == None {
        return;
      }
      ms := ms + [m.value];
    }
  }
}
