// What the user hears of the sessions of the ezgrpc2 server: the log of every event written so far,
// and when it is in order.

module SessionLog {

  type Uuid = nat   // a 128-bit uuid, as a number

  const NIL_UUID: Uuid := 0

  // ezgrpc2_session_uuid
  datatype Handle = Handle(index: nat, uuid: Uuid)

  // What calloc and memset leave in a slot.
  const ZEROED: Handle := Handle(0, NIL_UUID)

  datatype Kind = Connect | Disconnect | Message | DataLoss

  datatype Event = Event(kind: Kind, h: Handle)

  // ---- The log ----

  function After(connected: set<Handle>, e: Event): set<Handle> {
    match e.kind
    case Connect => connected + {e.h}
    case Disconnect => connected - {e.h}
    case _ => connected
  }

  // The sessions that have connected and not disconnected.
  ghost function Connected(log: seq<Event>): set<Handle> {
    if log == [] then {}
    else
      After(Connected(log[..|log| - 1]), log[|log| - 1])
  }

  ghost function Used(log: seq<Event>): set<Uuid> {
    set i | 0 <= i < |log| :: log[i].h.uuid
  }

  // Each session connects once, under a uuid never used before, and everything else about it lies
  // between that and its one disconnect.
  ghost predicate Ordered(log: seq<Event>) {
    forall i | 0 <= i < |log| ::
      if log[i].kind == Connect then log[i].h.uuid !in Used(log[..i])
      else log[i].h in Connected(log[..i])
  }

  lemma ConnectedSnoc(log: seq<Event>, e: Event)
    ensures Connected(log + [e]) == After(Connected(log), e)
  {
    assert (log + [e])[..|log|] == log;
  }

  lemma UsedSnoc(log: seq<Event>, e: Event)
    ensures Used(log + [e]) == Used(log) + {e.h.uuid}
  {
    var all := log + [e];
    assert all[|log|] == e;
    assert forall i | 0 <= i < |log| :: all[i] == log[i];
    forall u | u in Used(log)
      ensures u in Used(all)
    {
      var i :| 0 <= i < |log| && log[i].h.uuid == u;
      assert all[i].h.uuid == u;
    }
  }

  lemma OrderedSnoc(log: seq<Event>, e: Event)
    requires Ordered(log)
    requires if e.kind == Connect then e.h.uuid !in Used(log) else e.h in Connected(log)
    ensures Ordered(log + [e])
  {
    var all := log + [e];
    forall i | 0 <= i < |all|
      ensures if all[i].kind == Connect then all[i].h.uuid !in Used(all[..i]) else all[i].h in Connected(all[..i])
    {
      if i < |log| {
        assert all[..i] == log[..i];
      } else {
        assert all[..i] == log;
      }
    }
  }

  lemma {:induction false} ConnectedIsUsed(log: seq<Event>, h: Handle)
    requires h in Connected(log)
    ensures exists i :: 0 <= i < |log| && log[i] == Event(Connect, h)
    ensures h.uuid in Used(log)
  {
    var n := |log| - 1;
    if log[n] == Event(Connect, h) {
      assert log[n].h.uuid == h.uuid;
    } else {
      ConnectedIsUsed(log[..n], h);
      var i :| 0 <= i < n && log[..n][i] == Event(Connect, h);
      assert log[i] == Event(Connect, h) && log[i].h.uuid == h.uuid;
    }
  }

  // What Ordered comes to for one session: any event about it, other than its connect, has the
  // connect before it and no disconnect between.
  lemma {:induction false} BetweenConnectAndDisconnect(log: seq<Event>, h: Handle)
    requires h in Connected(log)
    ensures exists c :: 0 <= c < |log| && log[c] == Event(Connect, h)
              && forall j | c < j < |log| :: log[j] != Event(Disconnect, h)
  {
    var n := |log| - 1;
    if log[n] != Event(Connect, h) {
      BetweenConnectAndDisconnect(log[..n], h);
      var c :| 0 <= c < n && log[..n][c] == Event(Connect, h) && forall j | c < j < n :: log[..n][j] != Event(Disconnect, h);
      assert log[c] == Event(Connect, h);
      forall j | c < j < |log|
        ensures log[j] != Event(Disconnect, h)
      {
        assert j < n ==> log[j] == log[..n][j];
      }
    }
  }

  // Every event of a session but its connect comes after the connect and before any disconnect.
  lemma EventsFollowConnect(log: seq<Event>, i: nat)
    requires Ordered(log) && i < |log| && log[i].kind != Connect
    ensures exists c :: 0 <= c < i && log[c] == Event(Connect, log[i].h)
              && forall j | c < j < i :: log[j] != Event(Disconnect, log[i].h)
  {
    var h := log[i].h;
    BetweenConnectAndDisconnect(log[..i], h);
    var c :| 0 <= c < i && log[..i][c] == Event(Connect, h)
      && forall j | c < j < i :: log[..i][j] != Event(Disconnect, h);
    assert log[c] == Event(Connect, h);
    forall j | c < j < i
      ensures log[j] != Event(Disconnect, h)
    {
      assert log[j] == log[..i][j];
    }
  }

  lemma UsedAt(log: seq<Event>, i: nat)
    requires i < |log|
    ensures log[i].h.uuid in Used(log)
  {
  }

  lemma OrderedPrefix(log: seq<Event>, n: nat)
    requires Ordered(log) && n <= |log|
    ensures Ordered(log[..n])
  {
    assert forall i | 0 <= i < n :: log[..n][..i] == log[..i];
  }

  lemma StaysSilent(before: seq<Event>, e: Event, h: Handle)
    requires Ordered(before + [e]) && h !in Connected(before) && h.uuid in Used(before)
    ensures e.h != h && h !in Connected(before + [e])
  {
    hide Connected, Used;
    var log := before + [e];
    ConnectedSnoc(before, e);
    assert log[|before|] == e && log[..|before|] == before;
  }

  // After its disconnect a session is never heard of again.
  lemma {:induction false} SilentAfterDisconnect(log: seq<Event>, d: nat)
    requires Ordered(log) && d < |log| && log[d].kind == Disconnect
    ensures log[d].h !in Connected(log)
    ensures forall j | d < j < |log| :: log[j].h != log[d].h
  {
    hide Connected, Used;
    var n := |log| - 1;
    var before := log[..n];
    assert log == before + [log[n]];
    if d < n {
      OrderedPrefix(log, n);
      SilentAfterDisconnect(before, d);
      UsedAt(before, d);
      StaysSilent(before, log[n], log[d].h);
      assert forall j | d < j < n :: log[j] == before[j];
    } else {
      ConnectedSnoc(before, log[n]);
    }
  }
}
