// The event masks of wepoll and their translation to and from the AFD poll masks of Windows. A mask
// is the set of its bit positions: `&` is intersection, `|` is union, `& ~` is difference.

module EpollEvents {

  type Mask = set<nat>

  const EPOLLIN: nat := 0
  const EPOLLPRI: nat := 1
  const EPOLLOUT: nat := 2
  const EPOLLERR: nat := 3
  const EPOLLHUP: nat := 4
  const EPOLLRDNORM: nat := 6
  const EPOLLRDBAND: nat := 7
  const EPOLLWRNORM: nat := 8
  const EPOLLWRBAND: nat := 9
  const EPOLLMSG: nat := 10
  const EPOLLRDHUP: nat := 13
  const EPOLLONESHOT: nat := 31

  const KNOWN_EPOLL_EVENTS: Mask :=
    {EPOLLIN, EPOLLPRI, EPOLLOUT, EPOLLERR, EPOLLHUP, EPOLLRDNORM, EPOLLRDBAND, EPOLLWRNORM, EPOLLWRBAND,
     EPOLLMSG, EPOLLRDHUP}

  const AFD_POLL_RECEIVE: nat := 0
  const AFD_POLL_RECEIVE_EXPEDITED: nat := 1
  const AFD_POLL_SEND: nat := 2
  const AFD_POLL_DISCONNECT: nat := 3
  const AFD_POLL_ABORT: nat := 4
  const AFD_POLL_LOCAL_CLOSE: nat := 5
  const AFD_POLL_ACCEPT: nat := 7
  const AFD_POLL_CONNECT_FAIL: nat := 8

  function When(flag: bool, mask: Mask): Mask {
    if flag then mask else {}
  }

  predicate Meets(a: Mask, b: Mask) {
    a * b != {}
  }

  // The kernel events to watch for a set of epoll events; the local close is always watched.
  function ToAfd(events: Mask): Mask {
    {AFD_POLL_LOCAL_CLOSE}
    + When(Meets(events, {EPOLLIN, EPOLLRDNORM}), {AFD_POLL_RECEIVE, AFD_POLL_ACCEPT})
    + When(Meets(events, {EPOLLPRI, EPOLLRDBAND}), {AFD_POLL_RECEIVE_EXPEDITED})
    + When(Meets(events, {EPOLLOUT, EPOLLWRNORM, EPOLLWRBAND}), {AFD_POLL_SEND})
    + When(Meets(events, {EPOLLIN, EPOLLRDNORM, EPOLLRDHUP}), {AFD_POLL_DISCONNECT})
    + When(EPOLLHUP in events, {AFD_POLL_ABORT})
    + When(EPOLLERR in events, {AFD_POLL_CONNECT_FAIL})
  }

  function FromAfd(afd: Mask): Mask {
    When(Meets(afd, {AFD_POLL_RECEIVE, AFD_POLL_ACCEPT}), {EPOLLIN, EPOLLRDNORM})
    + When(AFD_POLL_RECEIVE_EXPEDITED in afd, {EPOLLPRI, EPOLLRDBAND})
    + When(AFD_POLL_SEND in afd, {EPOLLOUT, EPOLLWRNORM, EPOLLWRBAND})
    + When(AFD_POLL_DISCONNECT in afd, {EPOLLIN, EPOLLRDNORM, EPOLLRDHUP})
    + When(AFD_POLL_ABORT in afd, {EPOLLHUP})
    + When(AFD_POLL_CONNECT_FAIL in afd,
           {EPOLLIN, EPOLLOUT, EPOLLERR, EPOLLRDNORM, EPOLLWRNORM, EPOLLRDHUP})
  }

  // The known events that the user wants and a pending request does not watch.
  function Unwatched(userEvents: Mask, pendingEvents: Mask): Mask {
    userEvents * KNOWN_EPOLL_EVENTS - pendingEvents
  }

  predicate Missing(userEvents: Mask, pendingEvents: Mask) {
    Unwatched(userEvents, pendingEvents) != {}
  }

  // The known events are the bits up to EPOLLRDHUP but three that have no meaning; the flags above
  // them, such as EPOLLONESHOT, are not events.
  lemma KnownEvents(e: nat)
    ensures e in KNOWN_EPOLL_EVENTS <==> e <= EPOLLRDHUP && e !in {5, 11, 12}
    ensures EPOLLRDHUP == 13 && EPOLLONESHOT == 31
  {
  }

  // EPOLLERR and EPOLLHUP are wanted whether the user asks or not.
  function Wanted(events: Mask): Mask {
    events + {EPOLLERR, EPOLLHUP}
  }

  lemma NothingMissingIsPending(userEvents: Mask, pendingEvents: Mask)
    requires !Missing(userEvents, pendingEvents)
    ensures userEvents * KNOWN_EPOLL_EVENTS <= pendingEvents
  {
    forall e | e in userEvents * KNOWN_EPOLL_EVENTS
      ensures e in pendingEvents
    {
      assert e !in Unwatched(userEvents, pendingEvents);
    }
  }

  // The test the code makes on epoll masks decides that the kernel already watches enough.
  lemma NothingMissingIsWatched(userEvents: Mask, pendingEvents: Mask)
    requires !Missing(userEvents, pendingEvents)
    ensures ToAfd(userEvents) <= ToAfd(pendingEvents)
  {
    NothingMissingIsPending(userEvents, pendingEvents);
    KeepsMeeting(userEvents, pendingEvents, {EPOLLIN, EPOLLRDNORM});
    KeepsMeeting(userEvents, pendingEvents, {EPOLLPRI, EPOLLRDBAND});
    KeepsMeeting(userEvents, pendingEvents, {EPOLLOUT, EPOLLWRNORM, EPOLLWRBAND});
    KeepsMeeting(userEvents, pendingEvents, {EPOLLIN, EPOLLRDNORM, EPOLLRDHUP});
  }

  lemma KeepsMeeting(a: Mask, b: Mask, c: Mask)
    requires a * KNOWN_EPOLL_EVENTS <= b
    requires c <= KNOWN_EPOLL_EVENTS
    ensures Meets(a, c) ==> Meets(b, c)
  {
    if Meets(a, c) {
      var e :| e in a * c;
      assert e in a * KNOWN_EPOLL_EVENTS && e in b * c;
    }
  }

  // Watching for the translated mask and translating back covers what was asked for, except
  // EPOLLMSG, which no kernel event ever yields.
  lemma EveryEventButMsgIsReported(wanted: Mask)
    requires wanted <= KNOWN_EPOLL_EVENTS
    ensures FromAfd(ToAfd(wanted)) * wanted == wanted - {EPOLLMSG}
    ensures forall afd :: EPOLLMSG !in FromAfd(afd)
  {
    hide ToAfd, FromAfd;
    forall afd
      ensures EPOLLMSG !in FromAfd(afd)
    {
      MsgIsNotReported(afd);
    }
    forall e | e in wanted && e != EPOLLMSG
      ensures e in FromAfd(ToAfd(wanted))
    {
      EventIsReported(wanted, e);
    }
  }

  lemma MsgIsNotReported(afd: Mask)
    ensures EPOLLMSG !in FromAfd(afd)
  {
  }

  lemma EventIsReported(wanted: Mask, e: nat)
    requires e in wanted && e in KNOWN_EPOLL_EVENTS && e != EPOLLMSG
    ensures e in FromAfd(ToAfd(wanted))
  {
    var afd := ToAfd(wanted);
    if e == EPOLLIN || e == EPOLLRDNORM {
      assert e in wanted * {EPOLLIN, EPOLLRDNORM};
      assert AFD_POLL_RECEIVE in afd * {AFD_POLL_RECEIVE, AFD_POLL_ACCEPT};
    } else if e == EPOLLPRI || e == EPOLLRDBAND {
      assert e in wanted * {EPOLLPRI, EPOLLRDBAND};
    } else if e == EPOLLOUT || e == EPOLLWRNORM || e == EPOLLWRBAND {
      assert e in wanted * {EPOLLOUT, EPOLLWRNORM, EPOLLWRBAND};
    } else if e == EPOLLRDHUP {
      assert e in wanted * {EPOLLIN, EPOLLRDNORM, EPOLLRDHUP};
    }
  }

  // ---- What a kernel event may be reported as ----

  // What each kernel event is reported as.
  lemma EachKernelEvent()
    ensures FromAfd({AFD_POLL_RECEIVE}) == {EPOLLIN, EPOLLRDNORM} == FromAfd({AFD_POLL_ACCEPT})
    ensures FromAfd({AFD_POLL_RECEIVE_EXPEDITED}) == {EPOLLPRI, EPOLLRDBAND}
    ensures FromAfd({AFD_POLL_SEND}) == {EPOLLOUT, EPOLLWRNORM, EPOLLWRBAND}
    ensures FromAfd({AFD_POLL_DISCONNECT}) == {EPOLLIN, EPOLLRDNORM, EPOLLRDHUP}
    ensures FromAfd({AFD_POLL_ABORT}) == {EPOLLHUP}
    ensures FromAfd({AFD_POLL_CONNECT_FAIL})
            == {EPOLLIN, EPOLLOUT, EPOLLERR, EPOLLRDNORM, EPOLLWRNORM, EPOLLRDHUP}
    ensures FromAfd({AFD_POLL_LOCAL_CLOSE}) == {} == FromAfd({})
  {
    MeetsOne(AFD_POLL_RECEIVE, {AFD_POLL_RECEIVE, AFD_POLL_ACCEPT});
    MeetsOne(AFD_POLL_ACCEPT, {AFD_POLL_RECEIVE, AFD_POLL_ACCEPT});
  }

  lemma MeetsOne(e: nat, m: Mask)
    ensures Meets({e}, m) <==> e in m
  {
    if e in m {
      assert e in {e} * m;
    }
  }

  lemma MeetsUnion(a: Mask, b: Mask, m: Mask)
    ensures Meets(a + b, m) <==> Meets(a, m) || Meets(b, m)
  {
    assert (a + b) * m == a * m + b * m;
  }

  // Events that come together are reported together.
  lemma FromAfdUnion(a: Mask, b: Mask)
    ensures FromAfd(a + b) == FromAfd(a) + FromAfd(b)
  {
    hide FromAfd;
    forall e
      ensures e in FromAfd(a + b) <==> e in FromAfd(a) || e in FromAfd(b)
    {
      ReportedOfEither(a, b, e);
    }
  }

  lemma ReportedOfEither(a: Mask, b: Mask, e: nat)
    ensures e in FromAfd(a + b) <==> e in FromAfd(a) || e in FromAfd(b)
  {
    hide Meets;
    MeetsUnion(a, b, {AFD_POLL_RECEIVE, AFD_POLL_ACCEPT});
  }

  // The two tables agree: a kernel event is watched for a mask exactly if it is reported as one of
  // its events. The local close is always watched and never reported, and a failed connect is
  // watched for EPOLLERR alone, though it is reported as more.
  lemma TablesAgree(m: Mask, a: nat)
    ensures a != AFD_POLL_LOCAL_CLOSE && a != AFD_POLL_CONNECT_FAIL ==> (a in ToAfd(m) <==> Meets(FromAfd({a}), m))
    ensures AFD_POLL_LOCAL_CLOSE in ToAfd(m)
    ensures AFD_POLL_CONNECT_FAIL in ToAfd(m) <==> EPOLLERR in m
  {
    hide FromAfd, Meets;
    EachKernelEvent();
    NoOtherKernelEvent(a);
    MeetsTurned(m, {EPOLLIN, EPOLLRDNORM});
    MeetsTurned(m, {EPOLLPRI, EPOLLRDBAND});
    MeetsTurned(m, {EPOLLOUT, EPOLLWRNORM, EPOLLWRBAND});
    MeetsTurned(m, {EPOLLIN, EPOLLRDNORM, EPOLLRDHUP});
    MeetsOne(EPOLLHUP, m);
    MeetsNothing(m);
  }

  lemma NoOtherKernelEvent(a: nat)
    ensures a > AFD_POLL_CONNECT_FAIL || a == 6 ==> FromAfd({a}) == {}
  {
    hide Meets;
    MeetsOne(a, {AFD_POLL_RECEIVE, AFD_POLL_ACCEPT});
  }

  lemma MeetsNothing(m: Mask)
    ensures !Meets({}, m)
  {
  }

  lemma MeetsTurned(a: Mask, b: Mask)
    ensures Meets(a, b) <==> Meets(b, a)
  {
    assert a * b == b * a;
  }

  // A kernel event brings an epoll event: it is watched for it, or it is a failed connect, which is
  // as good as reading, writing and the end of the peer as well as an error.
  predicate Brings(a: nat, e: nat) {
    || (a != AFD_POLL_LOCAL_CLOSE && a in ToAfd({e}))
    || (a == AFD_POLL_CONNECT_FAIL && e in {EPOLLIN, EPOLLOUT, EPOLLERR, EPOLLRDNORM, EPOLLWRNORM, EPOLLRDHUP})
  }

  lemma ReportedAlone(a: nat, e: nat)
    ensures e in FromAfd({a}) <==> Brings(a, e)
  {
    hide ToAfd, FromAfd, Meets;
    EachKernelEvent();
    TablesAgree({e}, a);
    MeetsTurned(FromAfd({a}), {e});
    MeetsOne(e, FromAfd({a}));
  }

  lemma {:induction false} ReportedAmong(afd: Mask, e: nat)
    ensures e in FromAfd(afd) <==> exists a :: a in afd && e in FromAfd({a})
    decreases |afd|
  {
    hide FromAfd;
    if afd == {} {
      EachKernelEvent();
    } else {
      var a :| a in afd;
      FromAfdUnion({a}, afd - {a});
      assert afd == {a} + (afd - {a});
      ReportedAmong(afd - {a}, e);
    }
  }

  // An epoll event is reported exactly if one of the kernel events brings it.
  lemma ReportedExactly(afd: Mask, e: nat)
    ensures e in FromAfd(afd) <==> exists a :: a in afd && Brings(a, e)
  {
    hide FromAfd, Brings;
    ReportedAmong(afd, e);
    forall a
      ensures e in FromAfd({a}) <==> Brings(a, e)
    {
      ReportedAlone(a, e);
    }
  }

  // A request that completes for one of its own events, other than the close, has news that the
  // user asked for; so the filter in sock_feed_event does not drop it.
  lemma CompletionIsNews(userEvents: Mask, afd: Mask)
    requires afd != {} && afd <= ToAfd(userEvents) && AFD_POLL_LOCAL_CLOSE !in afd
    ensures FromAfd(afd) * userEvents != {}
  {
    var a :| a in afd;
    var e := WantedBehind(userEvents, a);
    assert e in FromAfd({a});
    if a == AFD_POLL_RECEIVE || a == AFD_POLL_ACCEPT {
      assert a in afd * {AFD_POLL_RECEIVE, AFD_POLL_ACCEPT};
    }
    assert e in FromAfd(afd) * userEvents;
  }

  // The wanted event for which a kernel event is watched.
  lemma WantedBehind(userEvents: Mask, a: nat) returns (e: nat)
    requires a in ToAfd(userEvents) && a != AFD_POLL_LOCAL_CLOSE
    ensures e in userEvents && e in FromAfd({a})
  {
    if a == AFD_POLL_RECEIVE || a == AFD_POLL_ACCEPT {
      assert a in {a} * {AFD_POLL_RECEIVE, AFD_POLL_ACCEPT};
      e :| e in userEvents * {EPOLLIN, EPOLLRDNORM};
    } else if a == AFD_POLL_RECEIVE_EXPEDITED {
      e :| e in userEvents * {EPOLLPRI, EPOLLRDBAND};
    } else if a == AFD_POLL_SEND {
      e :| e in userEvents * {EPOLLOUT, EPOLLWRNORM, EPOLLWRBAND};
    } else if a == AFD_POLL_DISCONNECT {
      e :| e in userEvents * {EPOLLIN, EPOLLRDNORM, EPOLLRDHUP};
    } else if a == AFD_POLL_ABORT {
      e := EPOLLHUP;
    } else {
      e := EPOLLERR;
    }
  }
}
