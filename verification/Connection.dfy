/** Connection buffers and the event loop (internal/server/handle.go, server.go). Kernel
    calls are replaced by scripts of results, one per socket: every finite run is a script. */
module Connection {
  import opened Numbers
  import opened Bytes
  import opened Http
  import opened Traffic

  class Conn {
    var rb: bytes
    var wb: bytes
    var wn: nat
    /** EPOLLOUT is part of the registered interest. */
    var armed: bool
    /** What the kernel will answer to the next reads and writes; past the end, EAGAIN. */
    var inbox: seq<ReadResult>
    var outbox: seq<WriteResult>
    ghost var received: bytes
    ghost var sent: bytes

    constructor (inbox: seq<ReadResult>, outbox: seq<WriteResult>, ghost h: Handler)
      requires Fits(Incoming(inbox))
      ensures Inv(h) && Settled() && received == [] && sent == []
      ensures this.inbox == inbox && this.outbox == outbox
    {
      rb, wb, wn, armed := [], [], 0, false;
      this.inbox, this.outbox := inbox, outbox;
      received, sent := [], [];
      new;
      assert [] + Incoming(inbox) == Incoming(inbox);
      NoRequest();
    }

    /** Bytes sent, then bytes still pending, are the ordered responses to the requests
        completed by what was received; the read buffer holds exactly the rest. */
    ghost predicate Inv(h: Handler)
      reads this`rb, this`wb, this`wn, this`inbox, this`received, this`sent
    {
      && Fits(received + Incoming(inbox))
      && wn <= |wb|
      && sent + wb[wn..] == Consume(h, received).responses
      && rb == Consume(h, received).leftover
    }

    /** Output is pending exactly when EPOLLOUT is armed. */
    ghost predicate Settled()
      reads this`wb, this`wn, this`armed
    {
      armed <==> wn < |wb|
    }

    /** What the connection has done, and what its socket will answer. */
    ghost function Now(): (s: State)
      reads this
    {
      State(received, sent, inbox, outbox)
    }

    lemma PendingNone()
      requires wn <= |wb|
      ensures wb[wn..] == [] <==> wn == |wb|
    {
    }

    /** The bytes in the write buffer are those that are due. */
    lemma PendingIsDue(h: Handler)
      requires Inv(h)
      ensures wn <= |wb| && wb[wn..] == Now().Due(h) && sent <= Consume(h, received).responses
      ensures SentOf(h, Now(), 0)
    {
      hide Consume, Fits;
      var all := Consume(h, received).responses;
      assert all[|sent|..] == wb[wn..] && all[..|sent|] == sent;
    }

    /** What was sent is a prefix of the responses to the whole stream, whatever part of it
        has arrived. */
    lemma SentIsPrefix(h: Handler)
      requires Inv(h)
      ensures sent <= Consume(h, received).responses
      ensures sent <= Consume(h, received + Incoming(inbox)).responses
    {
      hide Consume, Fits;
      ConsumeSplit(h, received, Incoming(inbox));
    }

    /** handle: answers the requests in rb and drops them from the front; lost when the code
        goes astray. */
    method Handle(h: Handler) returns (lost: bool)
      modifies this`rb, this`wb
      ensures lost == HandleFrom(h, old(rb), 0).Lost?
      ensures !lost ==>
        var o := HandleFrom(h, old(rb), 0).outcome;
        wb == old(wb) + o.responses && rb == o.leftover
    {
      hide CutAt;
      var off := 0;
      ghost var all := HandleFrom(h, rb, 0);
      while true
        invariant 0 <= off <= |rb| && rb == old(rb)
        invariant HandleFrom(h, rb, off).Lost? == all.Lost?
        invariant !all.Lost? ==>
          var o := HandleFrom(h, rb, off).outcome;
          wb + o.responses == old(wb) + all.outcome.responses && o.leftover == all.outcome.leftover
        decreases |rb| - off
      {
        var c := CutOff(off);
        match c
        case Stop => break;
        case Astray => return true;
        case Take(line, body, next) =>
          TakeStep(h, rb, off);
          wb := wb + h.Respond(line, body);
          off := next;
      }
      if off > 0 {
        rb := rb[off..];
      }
      return false;
    }

    /** The framing half of one turn of handle's loop. */
    method CutOff(off: nat) returns (c: Cut)
      requires off <= |rb|
      ensures c == CutAt(rb, off)
    {
      hide IndexFrom, ContentLen, ParseReqLine;
      var he := IndexFrom(rb[off..], 0, CRLF2);
      if he.None? {
        return Stop;
      }
      var headEnd := off + he.value;
      var head := rb[off..headEnd];
      var line := ParseReqLine(head);
      var bodyLen := 0;
      if line.post {
        bodyLen := ContentLength(head);
      }
      var total := Wrap64(headEnd + 4 + bodyLen);
      if |rb| < total {
        return Stop;
      }
      if total < headEnd + 4 {
        return Astray;
      }
      return Take(line, rb[headEnd + 4..total], total);
    }

    /** flush: writes until everything is out, the kernel says EAGAIN, or it fails; ws are
        the results it took. */
    method Flush(ghost h: Handler) returns (ok: bool, ghost ws: seq<WriteResult>)
      requires Inv(h)
      modifies this`wb, this`wn, this`armed, this`outbox, this`sent
      ensures Inv(h)
      ensures ok ==> Settled()
      ensures Flushes(h, old(Now()), ws) && |ws| <= |old(outbox)| && Now() == Sent(h, old(Now()), ws)
      ensures ok <==> WriteFailed !in ws
    {
      hide Consume, Fits, Incoming, Flushes, Writing, Total, State.Due, Inv, SentOf, Sent, Settled;
      ghost var s := Now();
      ghost var due := |s.Due(h)|;
      PendingIsDue(h);
      ws := [];
      NothingWritten(h, s);
      while wn < |wb|
        invariant Writing(h, s, ws) && |ws| <= |s.outbox| && outbox == s.outbox[|ws|..] && WriteFailed !in ws
        invariant SentOf(h, s, Min(Total(ws), due))
        decreases |outbox|
      {
        StillDue(h, s, Total(ws));
        if outbox == [] {
          Arm();
          WritingEnds(h, s, ws);
          NowSent(h, s, ws);
          return true, ws;
        }
        var w := outbox[0];
        outbox := outbox[1..];
        if w.Wrote? {
          WritingMore(h, s, ws);
          Wrote(h, s, Total(ws), w.n);
          ws := ws + [w];
        } else {
          WritingStops(h, s, ws);
          ws := ws + [w];
          NowSent(h, s, ws);
          if w.WriteAgain? {
            Arm();
          }
          return w.WriteAgain?, ws;
        }
      }
      AllOut(h, s, Total(ws));
      WritingEnds(h, s, ws);
      Clear(h, s, due);
      NowSent(h, s, ws);
      return true, ws;
    }

    method Arm()
      requires wn < |wb|
      modifies this`armed
      ensures Settled()
    {
      armed := true;
    }

    /** Everything is out: the write buffer starts over. */
    method Clear(ghost h: Handler, ghost s: State, ghost n: nat)
      requires SentOf(h, s, n) && n == |s.Due(h)|
      modifies this`wb, this`wn, this`armed
      ensures SentOf(h, s, n) && Settled()
    {
      hide Consume, Fits, Incoming, State.Due;
      wb, wn := [], 0;
      armed := false;
    }

    lemma AllOut(h: Handler, s: State, total: nat)
      requires SentOf(h, s, Min(total, |s.Due(h)|)) && wn >= |wb|
      ensures total >= |s.Due(h)|
    {
      hide Consume, Fits, Incoming, State.Due;
      assert |wb[wn..]| == 0;
    }

    lemma StillDue(h: Handler, s: State, total: nat)
      requires SentOf(h, s, Min(total, |s.Due(h)|)) && wn < |wb|
      ensures total < |s.Due(h)|
    {
      hide Consume, Fits, Incoming, State.Due;
      assert |wb[wn..]| > 0;
    }

    /** A write of which the socket took at most k bytes. */
    method Wrote(ghost h: Handler, ghost s: State, ghost total: nat, k: nat)
      requires SentOf(h, s, Min(total, |s.Due(h)|)) && total < |s.Due(h)| && wn < |wb|
      modifies this`wn, this`sent
      ensures SentOf(h, s, Min(total + k, |s.Due(h)|))
    {
      hide Consume, Fits, Incoming, State.Due;
      var n := Min(k, |wb| - wn);
      SendMore(s.sent, sent, wb, wn, s.Due(h), total, k);
      sent := sent + wb[wn..wn + n];
      wn := wn + n;
    }

    /** Of what was due in s the first n bytes are sent, the others in the write buffer. */
    ghost predicate SentOf(h: Handler, s: State, n: nat)
      reads this`rb, this`wb, this`wn, this`inbox, this`received, this`sent
    {
      && n <= |s.Due(h)| && wn <= |wb|
      && wb[wn..] == s.Due(h)[n..] && sent == s.sent + s.Due(h)[..n]
      && received == s.received && inbox == s.inbox && Fits(received + Incoming(inbox))
      && rb == Consume(h, received).leftover && s.sent + s.Due(h) == Consume(h, received).responses
    }

    lemma NowSent(h: Handler, s: State, ws: seq<WriteResult>)
      requires |ws| <= |s.outbox| && SentOf(h, s, Min(Total(ws), |s.Due(h)|)) && outbox == s.outbox[|ws|..]
      ensures Inv(h) && Now() == Sent(h, s, ws)
    {
      hide Consume, Fits, Incoming, State.Due, Total;
      var n := Min(Total(ws), |s.Due(h)|);
      assert s.Due(h)[..n] + s.Due(h)[n..] == s.Due(h);
    }

    /** readDrain: reads until EAGAIN, answering and flushing after every read; it fails when
        the peer has closed, whatever output is pending, or a read or write failed. turns are
        the reads, each with the results of its flush. */
    method ReadDrain(h: Handler) returns (ok: bool, ghost turns: seq<Turn>)
      requires Inv(h) && Settled()
      modifies this
      ensures Inv(h)
      ensures ok ==> Settled()
      ensures Drains(h, old(Now()), turns) && Now() == After(h, old(Now()), turns)
      ensures ok <==> Open(turns)
    {
      hide Inv, Settled, Incoming, Consume, Fits, Turned, TurnOK;
      turns := [];
      ghost var s := Now();
      while true
        invariant Inv(h) && Settled()
        invariant Going(h, s, turns) && Now() == After(h, s, turns)
        decreases |inbox|
      {
        if inbox == [] {
          OpenGoing(h, s, turns);
          return true, turns;
        }
        var r := inbox[0];
        if !Delivers(r) {
          DropRead(h);
          AfterMore(h, s, turns, Turn(r, []));
          return r.ReadAgain?, turns + [Turn(r, [])];
        }
        ghost var ws;
        ok, ws := Serve(h);
        AfterMore(h, s, turns, Turn(r, ws));
        turns := turns + [Turn(r, ws)];
        if !ok {
          return false, turns;
        }
      }
    }

    /** A read that delivers bytes, the requests it completes, and the flush after it. */
    method Serve(h: Handler) returns (ok: bool, ghost ws: seq<WriteResult>)
      requires Inv(h) && Settled() && inbox != [] && Delivers(inbox[0])
      modifies this
      ensures Inv(h)
      ensures ok ==> Settled()
      ensures var t := Turn(old(inbox[0]), ws);
              TurnOK(h, old(Now()), t) && Now() == Turned(h, old(Now()), t) && inbox == old(inbox[1..])
      ensures ok <==> WriteFailed !in ws
    {
      hide Consume, Fits, Incoming, Flushes;
      ws := [];
      Receive(h);
      assert Now() == Arrived(old(Now()));
      if |wb| > wn {
        ok, ws := Flush(h);
        return ok, ws;
      }
      PendingIsDue(h);
      NothingDue(h, Now());
      return true, ws;
    }

    /** A read that delivers nothing. */
    method DropRead(ghost h: Handler)
      requires Inv(h) && inbox != [] && !Delivers(inbox[0])
      modifies this`inbox
      ensures Inv(h) && (old(Settled()) ==> Settled())
      ensures var t := Turn(old(inbox[0]), []);
              TurnOK(h, old(Now()), t) && Now() == Turned(h, old(Now()), t) && inbox == old(inbox[1..])
    {
      hide Consume, Fits;
      assert Incoming(inbox) == Incoming(inbox[1..]);
      NothingSent(h, Arrived(Now()));
      assert received + [] == received;
      inbox := inbox[1..];
    }

    /** A read that delivers bytes, and handle, which never goes astray on a stream that
        fits. */
    method Receive(h: Handler)
      requires Inv(h) && inbox != [] && inbox[0].Data?
      modifies this`inbox, this`rb, this`wb, this`received
      ensures Inv(h) && inbox == old(inbox[1..])
      ensures received == old(received) + old(inbox[0]).d
      ensures |wb| >= |old(wb)|
    {
      hide Consume, Fits, HandleFrom;
      ghost var d, more := inbox[0].d, Incoming(inbox[1..]);
      assert received + Incoming(inbox) == (received + d) + more;
      BufferHandled(h, received, d, more);
      rb := rb + inbox[0].d;
      inbox := inbox[1..];
      var lost := Handle(h);
      received := received + d;
      assert sent + wb[wn..] == sent + old(wb)[wn..] + Consume(h, old(rb) + d).responses;
    }
  }

  /** What is left of the stream so far, with the next bytes, is handled as it should be. */
  lemma BufferHandled(h: Handler, received: bytes, d: bytes, more: bytes)
    requires Fits((received + d) + more)
    ensures var rb := Consume(h, received).leftover + d;
            && HandleFrom(h, rb, 0) == Done(Consume(h, rb))
            && Consume(h, received + d) ==
               Outcome(Consume(h, received).responses + Consume(h, rb).responses, Consume(h, rb).leftover)
  {
    hide Consume, HandleFrom, EndFits, Reach;
    FitsSplit(received + d, more);
    FitsSplit(received, d);
    ReachIsLeftover(h, received);
    HandleIff(h, Consume(h, received).leftover + d);
    ConsumeSplit(h, received, d);
  }

  lemma TakeStep(h: Handler, s: bytes, off: nat)
    requires off <= |s| && CutAt(s, off).Take?
    ensures var c := CutAt(s, off);
            var rest := HandleFrom(h, s, c.next);
            && HandleFrom(h, s, off).Lost? == rest.Lost?
            && (rest.Done? ==>
                  var more := rest.outcome;
                  HandleFrom(h, s, off) == Done(Outcome(h.Respond(c.line, c.body) + more.responses, more.leftover)))
  {
    hide CutAt;
  }

  /** One more write, of at most k bytes. */
  lemma SendMore(base: bytes, sent: bytes, wb: bytes, wn: nat, due: bytes, total: nat, k: nat)
    requires wn < |wb| && total <= |due| && wb[wn..] == due[total..] && sent == base + due[..total]
    ensures var n := Min(k, |wb| - wn);
            var m := Min(total + k, |due|);
            wb[wn + n..] == due[m..] && sent + wb[wn..wn + n] == base + due[..m]
  {
    var n := Min(k, |wb| - wn);
    assert wb[wn..][n..] == due[total..][n..];
    assert wb[wn..wn + n] == wb[wn..][..n] == due[total..][..n];
    assert due[..total] + due[total..][..n] == due[..total + n];
  }

  // ---- The event loop ------------------------------------------------------------------------

  /** What the loop is woken for: an accepted descriptor, whose registration may fail, or
      readiness of a known one. */
  datatype Event =
    | Accepted(fd: int, registered: bool, inbox: seq<ReadResult>, outbox: seq<WriteResult>)
    | Ready(fd: int, flags: Flags)

  /** All there is to see of a server: its connections by descriptor, and the state of every
      connection there has been. */
  datatype World = World(conns: map<int, Conn>, states: map<Conn, State>)

  /** What an event makes of it. A registered descriptor gets a new connection; readiness serves
      the connection of its descriptor, and keeps or drops it; nothing else changes. */
  ghost predicate Step(h: Handler, e: Event, a: World, b: World) {
    match e
    case Accepted(fd, registered, inbox, outbox) =>
      if !registered then b == a
      else
        fd in b.conns &&
        var c := b.conns[fd];
        c !in a.states && b == World(a.conns[fd := c], a.states[c := State([], [], inbox, outbox)])
    case Ready(fd, flags) =>
      if fd !in a.conns then b == a
      else
        var c := a.conns[fd];
        c in a.states && exists log: Log ::
          && Serves(h, flags, a.states[c], log)
          && b == World(if Keeps(h, flags, a.states[c], log) then a.conns else a.conns - {fd},
                        a.states[c := Served(h, a.states[c], log)])
  }

  /** A history of worlds in which every event does what it should. */
  ghost predicate Steps(h: Handler, events: seq<Event>, history: seq<World>) {
    |history| == |events| + 1 &&
    forall i :: 0 <= i < |events| ==> Step(h, events[i], history[i], history[i + 1])
  }

  class Server {
    var conns: map<int, Conn>
    const h: Handler

    constructor (h: Handler)
      ensures this.h == h && conns == map[] && Valid()
    {
      this.h, conns := h, map[];
    }

    /** Every live connection keeps its invariant, has EPOLLOUT armed exactly when it has
        output pending, and belongs to one descriptor. */
    ghost predicate Valid()
      reads this, conns.Values
    {
      && (forall c :: c in conns.Values ==> c.Inv(h) && c.Settled())
      && (forall a, b :: a in conns && b in conns && a != b ==> conns[a] != conns[b])
    }

    /** A new connection replaces whatever the map held for its descriptor. */
    method Add(fd: int, registered: bool, inbox: seq<ReadResult>, outbox: seq<WriteResult>)
      requires Valid() && Fits(Incoming(inbox))
      modifies this`conns
      ensures Valid()
      ensures !registered ==> conns == old(conns)
      ensures registered ==>
        && fd in conns && fresh(conns[fd]) && conns == old(conns)[fd := conns[fd]]
        && conns[fd].received == conns[fd].sent == [] && conns[fd].inbox == inbox && conns[fd].outbox == outbox
    {
      hide Fits, Incoming, Conn.Inv, Conn.Settled;
      if !registered {
        return;
      }
      var c := new Conn(inbox, outbox, h);
      conns := conns[fd := c];
    }

    method Drop(fd: int)
      requires Valid()
      modifies this`conns
      ensures Valid() && conns == old(conns) - {fd}
    {
      conns := conns - {fd};
    }

    /** One event of the loop: only the connection of its descriptor changes, and it is served
        as log says: with EPOLLOUT what is due is written, with EPOLLIN all there is is read and
        answered, and the connection stays or goes accordingly. */
    method OnEvent(fd: int, e: Flags) returns (ghost log: Log)
      requires Valid()
      modifies this`conns, conns.Values
      ensures Valid()
      ensures fd !in old(conns) ==> conns == old(conns)
      ensures forall c :: c in old(conns.Values) ==> c.Inv(h) && old(c.sent) <= c.sent
      ensures forall c :: c in old(conns.Values) && !(fd in old(conns) && c == old(conns[fd])) ==> unchanged(c)
      ensures fd in old(conns) ==>
        var c := old(conns[fd]);
        && Serves(h, e, old(c.Now()), log) && c.Now() == Served(h, old(c.Now()), log)
        && conns == if Keeps(h, e, old(c.Now()), log) then old(conns) else old(conns) - {fd}
    {
      hide Consume, Fits, Incoming, Conn.Inv, Conn.Settled, Flushes, Drains, After, Open, State.Due;
      log := Log([], []);
      if fd !in conns {
        return;
      }
      var c := conns[fd];
      ghost var s := c.Now();
      c.SentIsPrefix(h);
      NothingSent(h, s);
      NoTurns(h, s);
      if e.hupOrErr {
        Drop(fd);
        return;
      }
      if e.out {
        var ok;
        ghost var ws;
        ok, ws := c.Flush(h);
        log := Log(ws, []);
        NoTurns(h, Sent(h, s, ws));
        ServedGrows(h, s, log);
        if !ok {
          DropLater(fd);
          return;
        }
      }
      if e.inp {
        var ok;
        ghost var turns;
        ok, turns := c.ReadDrain(h);
        log := Log(log.ws, turns);
        ServedGrows(h, s, log);
        if !ok {
          DropLater(fd);
          return;
        }
      }
      c.PendingIsDue(h);
      c.PendingNone();
      if e.rdhup && c.wn == |c.wb| {
        Drop(fd);
      }
    }

    /** What a half-closed peer loses: its last requests were read and answered, the socket took
        nothing, and the end of the stream comes with the same event. The connection is dropped
        with the responses unsent. */
    method CloseLoses(fd: int, stream: bytes, rdhup: bool) returns (ghost c: Conn)
      requires Valid() && Fits(stream) && stream != [] && Consume(h, stream).responses != []
      modifies this`conns, conns.Values
      ensures Valid() && fd !in conns
      ensures c.received == stream && c.sent == []
      ensures c.sent != Consume(h, c.received).responses
    {
      hide Consume, Fits, Conn.Inv, Conn.Settled, Incoming, Serves, Served, Keeps;
      TwoReads(stream);
      Add(fd, true, [Data(stream), Data([])], [WriteAgain]);
      c := conns[fd];
      var e := Flags(false, false, true, rdhup);
      ghost var log := OnEvent(fd, e);
      ClosedUnsent(h, e, State([], [], [Data(stream), Data([])], [WriteAgain]), log, stream);
    }

    /** Dropping a connection that failed: it need not be settled any more. */
    method DropLater(fd: int)
      requires forall f :: f in conns && f != fd ==> conns[f].Inv(h) && conns[f].Settled()
      requires forall a, b :: a in conns && b in conns && a != b ==> conns[a] != conns[b]
      modifies this`conns
      ensures Valid() && conns == old(conns) - {fd}
    {
      conns := conns - {fd};
    }

    ghost function Seen(ever: set<Conn>): World
      reads this, ever
    {
      World(conns, map c | c in ever :: c.Now())
    }

    /** Every run of events, accepting and serving in any order, is a history in which every
        event does what it should; every connection there ever was keeps its invariant, and
        nothing that was sent on it is taken back. */
    method Run(events: seq<Event>) returns (ghost ever: set<Conn>, ghost history: seq<World>)
      requires Valid()
      requires forall e :: e in events && e.Accepted? ==> Fits(Incoming(e.inbox))
      modifies this`conns, conns.Values
      ensures Valid() && conns.Values <= ever && old(conns.Values) <= ever && fresh(ever - old(conns.Values))
      ensures forall c :: c in ever ==> c.Inv(h)
      ensures Steps(h, events, history)
      ensures history[0] == old(Seen(conns.Values)) && history[|events|] == Seen(ever)
      ensures Growing(history)
    {
      hide Consume, Fits, Incoming, Conn.Inv, Conn.Settled, Serves, Served, Keeps, Step, Growing;
      ever := conns.Values;
      history := [Seen(ever)];
      GrowsFrom(Seen(ever));
      for i := 0 to |events|
        invariant Valid() && conns.Values <= ever && old(conns.Values) <= ever && fresh(ever - old(conns.Values))
        invariant forall c :: c in ever ==> c.Inv(h)
        invariant |history| == i + 1 && history[i] == Seen(ever) && history[0] == old(Seen(conns.Values))
        invariant forall j :: 0 <= j < i ==> Step(h, events[j], history[j], history[j + 1])
        invariant Growing(history)
      {
        ghost var a := Seen(ever);
        match events[i] {
          case Accepted(fd, registered, inbox, outbox) =>
            assert events[i] in events;
            ever := Accept(fd, registered, inbox, outbox, ever);
          case Ready(fd, flags) =>
            Wake(fd, flags, ever);
        }
        GrowsOn(history, Seen(ever));
        history := history + [Seen(ever)];
      }
    }

    /** The two kinds of event, as steps. */
    method Accept(fd: int, registered: bool, inbox: seq<ReadResult>, outbox: seq<WriteResult>, ghost ever: set<Conn>)
      returns (ghost ever': set<Conn>)
      requires Valid() && conns.Values <= ever && Fits(Incoming(inbox)) && forall c :: c in ever ==> c.Inv(h)
      modifies this`conns
      ensures Valid() && conns.Values <= ever' && ever <= ever' && fresh(ever' - ever)
      ensures forall c :: c in ever' ==> c.Inv(h)
      ensures Step(h, Accepted(fd, registered, inbox, outbox), old(Seen(ever)), Seen(ever'))
      ensures Later(old(Seen(ever)), Seen(ever'))
    {
      hide Consume, Fits, Incoming, Conn.Inv, Conn.Settled;
      Add(fd, registered, inbox, outbox);
      ever' := ever;
      if registered {
        ghost var c := conns[fd];
        ever' := ever + {c};
        ghost var a := old(Seen(ever));
        assert c.Now() == State([], [], inbox, outbox);
        assert Seen(ever').states == a.states[c := State([], [], inbox, outbox)];
      }
    }

    method Wake(fd: int, e: Flags, ghost ever: set<Conn>)
      requires Valid() && conns.Values <= ever && forall c :: c in ever ==> c.Inv(h)
      modifies this`conns, conns.Values
      ensures Valid() && conns.Values <= ever && conns.Values <= old(conns.Values)
      ensures forall c :: c in ever ==> c.Inv(h)
      ensures Step(h, Ready(fd, e), old(Seen(ever)), Seen(ever))
      ensures Later(old(Seen(ever)), Seen(ever))
    {
      hide Consume, Fits, Incoming, Conn.Inv, Conn.Settled, Serves, Served, Keeps;
      ghost var a := Seen(ever);
      ghost var log := OnEvent(fd, e);
      if fd in a.conns {
        ghost var c := a.conns[fd];
        assert forall o :: o in ever && o != c ==> o.Now() == a.states[o];
        assert Seen(ever).states == a.states[c := Served(h, a.states[c], log)];
      } else {
        assert forall o :: o in ever ==> o.Now() == a.states[o];
        assert Seen(ever).states == a.states;
      }
    }
  }

  /** Every connection stays in sight, with what was sent on it a prefix of what is sent later. */
  ghost predicate Later(a: World, b: World) {
    forall c :: c in a.states ==> c in b.states && a.states[c].sent <= b.states[c].sent
  }

  ghost predicate Growing(history: seq<World>) {
    forall i, j :: 0 <= i <= j < |history| ==> Later(history[i], history[j])
  }

  lemma GrowsFrom(w: World)
    ensures Growing([w])
  {
  }

  lemma GrowsOn(history: seq<World>, w: World)
    requires history != [] && Growing(history) && Later(history[|history| - 1], w)
    ensures Growing(history + [w])
  {
    var n := |history|;
    forall i, j | 0 <= i <= j < n + 1
      ensures Later((history + [w])[i], (history + [w])[j])
    {
      if j == n && i < n {
        LaterStill(history[i], history[n - 1], w);
      }
    }
  }

  lemma LaterStill(a: World, b: World, c: World)
    requires Later(a, b) && Later(b, c)
    ensures Later(a, c)
  {
  }

  // ---- What a run comes to -----------------------------------------------------------------

  /** A descriptor is accepted, its socket delivers a stream in any pieces and takes all bytes,
      and the loop is told once that there is something to read: then all of it is read, and
      exactly the responses to its requests are sent. */
  lemma RunAnswers(h: Handler, fd: int, inbox: seq<ReadResult>, outbox: seq<WriteResult>, e: Flags,
                   history: seq<World>)
    requires Steps(h, [Accepted(fd, true, inbox, outbox), Ready(fd, e)], history)
    requires e.inp && !e.hupOrErr && |inbox| <= |outbox| && forall r :: r in inbox ==> Delivers(r)
    requires TakesAll(outbox, |Consume(h, Incoming(inbox)).responses|)
    ensures fd in history[1].conns
    ensures var c := history[1].conns[fd];
            && c !in history[0].states && c in history[2].states
            && history[2].states[c].received == Incoming(inbox)
            && history[2].states[c].sent == Consume(h, Incoming(inbox)).responses
            && (fd in history[2].conns <==> !e.rdhup)
  {
    hide Consume, Serves, Served, Keeps;
    var events := [Accepted(fd, true, inbox, outbox), Ready(fd, e)];
    assert Step(h, events[0], history[0], history[1]) && Step(h, events[1], history[1], history[2]);
    var s := State([], [], inbox, outbox);
    var c := history[1].conns[fd];
    var log: Log :|
      && Serves(h, e, s, log)
      && history[2] == World(if Keeps(h, e, s, log) then history[1].conns else history[1].conns - {fd},
                             history[1].states[c := Served(h, s, log)]);
    NoResponses(h);
    assert [] + Incoming(inbox) == Incoming(inbox);
    ServesAll(h, e, s, log, |Consume(h, Incoming(inbox)).responses|);
  }

  lemma NoResponses(h: Handler)
    ensures Consume(h, []).responses == []
  {
    NoRequest();
  }
}
