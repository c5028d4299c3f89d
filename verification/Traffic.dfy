/** What a connection does with what its socket answers (internal/server/server.go), told from
    outside: bytes received and sent, and the results taken from the scripts of the socket. */
module Traffic {
  import opened Numbers
  import opened Bytes
  import opened Http

  datatype ReadResult = Data(d: bytes) | ReadAgain | ReadFailed
  datatype WriteResult = Wrote(n: nat) | WriteAgain | WriteFailed

  datatype Flags = Flags(hupOrErr: bool, out: bool, inp: bool, rdhup: bool)

  /** All bytes that the reads of a script still deliver. */
  function Incoming(inbox: seq<ReadResult>): bytes {
    if inbox == [] then []
    else (if inbox[0].Data? then inbox[0].d else []) + Incoming(inbox[1..])
  }

  /** What was received and sent, and what the socket will answer; past the end of a script,
      EAGAIN. */
  datatype State = State(received: bytes, sent: bytes, inbox: seq<ReadResult>, outbox: seq<WriteResult>) {
    /** Responses to complete requests that are not sent yet. */
    function Due(h: Handler): bytes {
      var all := Consume(h, received).responses;
      if |sent| <= |all| then all[|sent|..] else []
    }
  }

  // ---- A flush -----------------------------------------------------------------------------

  /** How much a socket takes in these writes if enough is offered. */
  function Total(ws: seq<WriteResult>): nat {
    if ws == [] then 0
    else
      var last := ws[|ws| - 1];
      Total(ws[..|ws| - 1]) + if last.Wrote? then last.n else 0
  }

  /** ws are the results that a flush takes: it writes as long as something is due and the
      socket takes it, until all is out, the socket takes no more or fails. */
  predicate Flushes(h: Handler, s: State, ws: seq<WriteResult>) {
    var due := |s.Due(h)|;
    && |ws| <= |s.outbox| && ws == s.outbox[..|ws|]
    && (forall i :: 0 <= i < |ws| ==> Total(ws[..i]) < due)
    && (forall i :: 0 <= i < |ws| - 1 ==> ws[i].Wrote?)
    && (Total(ws) >= due || |ws| == |s.outbox| || (ws != [] && !ws[|ws| - 1].Wrote?))
  }

  /** The state after it: what the socket took is sent, and no more than was due. */
  function Sent(h: Handler, s: State, ws: seq<WriteResult>): State
    requires |ws| <= |s.outbox|
  {
    s.(sent := s.sent + s.Due(h)[..Min(Total(ws), |s.Due(h)|)], outbox := s.outbox[|ws|..])
  }

  // ---- The reads of an event ------------------------------------------------------------------

  predicate Delivers(r: ReadResult) {
    r.Data? && r.d != []
  }

  /** A read that ends the connection: the peer closed it, or it failed. */
  predicate Ends(r: ReadResult) {
    r.ReadFailed? || r == Data([])
  }

  /** One read and the flush after it. */
  datatype Turn = Turn(r: ReadResult, ws: seq<WriteResult>)

  function Arrived(s: State): State
    requires s.inbox != []
  {
    s.(received := s.received + (if s.inbox[0].Data? then s.inbox[0].d else []), inbox := s.inbox[1..])
  }

  predicate TurnOK(h: Handler, s: State, t: Turn) {
    && s.inbox != [] && t.r == s.inbox[0]
    && if Delivers(t.r) then Flushes(h, Arrived(s), t.ws) else t.ws == []
  }

  function Turned(h: Handler, s: State, t: Turn): State {
    if s.inbox != [] && |t.ws| <= |s.outbox| then Sent(h, Arrived(s), t.ws) else s
  }

  /** The state after some turns. */
  function After(h: Handler, s: State, turns: seq<Turn>): State {
    if turns == [] then s
    else Turned(h, After(h, s, turns[..|turns| - 1]), turns[|turns| - 1])
  }

  predicate GoesOn(t: Turn) {
    Delivers(t.r) && WriteFailed !in t.ws
  }

  /** Turns that go on: each read delivered, and no write failed. */
  predicate Going(h: Handler, s: State, turns: seq<Turn>) {
    turns == [] ||
      var init, last := turns[..|turns| - 1], turns[|turns| - 1];
      Going(h, s, init) && TurnOK(h, After(h, s, init), last) && GoesOn(last)
  }

  /** All turns of a drain: they go on to the end of what there is to read, or up to one that
      does not go on. */
  predicate Drains(h: Handler, s: State, turns: seq<Turn>) {
    || (Going(h, s, turns) && After(h, s, turns).inbox == [])
    || (turns != [] &&
        var init, last := turns[..|turns| - 1], turns[|turns| - 1];
        Going(h, s, init) && TurnOK(h, After(h, s, init), last) && !GoesOn(last))
  }

  /** No turn ended the connection. */
  predicate Open(turns: seq<Turn>) {
    turns == [] || GoesOn(turns[|turns| - 1]) || turns[|turns| - 1].r.ReadAgain?
  }

  // ---- An event --------------------------------------------------------------------------------

  /** What an event takes: the results of its flush, and the turns of its drain. */
  datatype Log = Log(ws: seq<WriteResult>, turns: seq<Turn>)

  predicate Serves(h: Handler, e: Flags, s: State, log: Log) {
    if e.hupOrErr then log == Log([], [])
    else
      && (if e.out then Flushes(h, s, log.ws) else log.ws == [])
      && (if e.inp && WriteFailed !in log.ws then |log.ws| <= |s.outbox| && Drains(h, Sent(h, s, log.ws), log.turns)
          else log.turns == [])
  }

  function Served(h: Handler, s: State, log: Log): State {
    if |log.ws| <= |s.outbox| then After(h, Sent(h, s, log.ws), log.turns) else s
  }

  /** The connection stays exactly when there was no hang-up, no write failed, no read ended it,
      and the peer is not half-closed with nothing due. */
  predicate Keeps(h: Handler, e: Flags, s: State, log: Log) {
    && !e.hupOrErr && WriteFailed !in log.ws && Open(log.turns)
    && !(e.rdhup && Served(h, s, log).Due(h) == [])
  }

  // ---- Step by step ------------------------------------------------------------------------

  /** The results of a flush that is still writing. */
  predicate Writing(h: Handler, s: State, ws: seq<WriteResult>) {
    && |ws| <= |s.outbox| && ws == s.outbox[..|ws|]
    && (forall i :: 0 <= i < |ws| ==> Total(ws[..i]) < |s.Due(h)| && ws[i].Wrote?)
  }

  lemma PrefixSame(ws: seq<WriteResult>, w: WriteResult)
    ensures forall i :: 0 <= i <= |ws| ==> (ws + [w])[..i] == ws[..i]
  {
  }

  lemma WritingMore(h: Handler, s: State, ws: seq<WriteResult>)
    requires Writing(h, s, ws) && Total(ws) < |s.Due(h)| && |ws| < |s.outbox| && s.outbox[|ws|].Wrote?
    ensures var w := s.outbox[|ws|];
            Total(ws + [w]) == Total(ws) + w.n && Writing(h, s, ws + [w])
  {
    hide State.Due, Total;
    var w := s.outbox[|ws|];
    TotalMore(ws, w);
    PrefixSame(ws, w);
    assert ws[..|ws|] == ws && ws + [w] == s.outbox[..|ws| + 1];
  }

  lemma WritingStops(h: Handler, s: State, ws: seq<WriteResult>)
    requires Writing(h, s, ws) && Total(ws) < |s.Due(h)| && |ws| < |s.outbox| && !s.outbox[|ws|].Wrote?
    ensures var w := s.outbox[|ws|];
            Total(ws + [w]) == Total(ws) && Flushes(h, s, ws + [w]) && (WriteFailed in ws + [w] <==> w.WriteFailed?)
  {
    hide State.Due, Total;
    var w := s.outbox[|ws|];
    TotalMore(ws, w);
    PrefixSame(ws, w);
    assert ws[..|ws|] == ws && ws + [w] == s.outbox[..|ws| + 1];
  }

  lemma WritingEnds(h: Handler, s: State, ws: seq<WriteResult>)
    requires Writing(h, s, ws) && (Total(ws) >= |s.Due(h)| || |ws| == |s.outbox|)
    ensures Flushes(h, s, ws) && WriteFailed !in ws
  {
  }

  lemma NothingWritten(h: Handler, s: State)
    ensures Writing(h, s, []) && Total([]) == 0 && Sent(h, s, []) == s
  {
  }

  lemma NothingDue(h: Handler, s: State)
    requires s.Due(h) == []
    ensures Flushes(h, s, []) && Sent(h, s, []) == s
  {
  }

  lemma NoTurns(h: Handler, s: State)
    ensures After(h, s, []) == s && Open([])
  {
  }

  lemma OpenGoing(h: Handler, s: State, turns: seq<Turn>)
    requires Going(h, s, turns)
    ensures Open(turns)
  {
  }

  // ---- What this comes to ------------------------------------------------------------------

  lemma TotalMore(ws: seq<WriteResult>, w: WriteResult)
    ensures Total(ws + [w]) == Total(ws) + if w.Wrote? then w.n else 0
  {
    assert (ws + [w])[..|ws|] == ws;
  }

  lemma AfterMore(h: Handler, s: State, turns: seq<Turn>, t: Turn)
    ensures After(h, s, turns + [t]) == Turned(h, After(h, s, turns), t)
    ensures Going(h, s, turns) && TurnOK(h, After(h, s, turns), t) ==>
      if GoesOn(t) then Going(h, s, turns + [t]) else Drains(h, s, turns + [t])
  {
    assert (turns + [t])[..|turns|] == turns;
  }

  /** Responses never shrink as more arrives. */
  lemma ResponsesGrow(h: Handler, received: bytes, d: bytes)
    ensures Consume(h, received).responses <= Consume(h, received + d).responses
  {
    hide Consume;
    ConsumeSplit(h, received, d);
  }

  /** A flush leaves due what the socket did not take. */
  lemma SentDue(h: Handler, s: State, ws: seq<WriteResult>)
    requires |ws| <= |s.outbox| && s.sent <= Consume(h, s.received).responses
    ensures var s' := Sent(h, s, ws);
            && s'.sent <= Consume(h, s.received).responses
            && s'.Due(h) == s.Due(h)[Min(Total(ws), |s.Due(h)|)..]
            && s.sent <= s'.sent
  {
    hide Consume;
    var all := Consume(h, s.received).responses;
    var n := Min(Total(ws), |s.Due(h)|);
    assert s.sent == all[..|s.sent|];
    CutTwice(all, |s.sent|, n);
  }

  lemma CutTwice(all: bytes, k: nat, n: nat)
    requires k + n <= |all|
    ensures all[..k] + all[k..][..n] == all[..k + n] && all[k..][n..] == all[k + n..]
  {
  }

  /** A socket that takes at least n bytes in each of its writes. */
  predicate TakesAll(outbox: seq<WriteResult>, n: nat) {
    forall i :: 0 <= i < |outbox| ==> outbox[i].Wrote? && outbox[i].n >= n
  }

  /** One write is enough then. */
  lemma FlushesAll(h: Handler, s: State, ws: seq<WriteResult>, n: nat)
    requires Flushes(h, s, ws) && TakesAll(s.outbox, n) && |s.Due(h)| <= n
    requires s.outbox != [] && s.sent <= Consume(h, s.received).responses
    ensures |ws| <= 1 && WriteFailed !in ws
    ensures Sent(h, s, ws).sent == Consume(h, s.received).responses && Sent(h, s, ws).Due(h) == []
  {
    hide Consume, State.Due;
    OneWrite(ws, |s.Due(h)|);
    SentDue(h, s, ws);
    DueIsRest(h, s);
    DueIsRest(h, Sent(h, s, ws));
  }

  lemma OneWrite(ws: seq<WriteResult>, due: nat)
    requires forall i :: 0 <= i < |ws| ==> Total(ws[..i]) < due
    requires ws != [] ==> ws[0].Wrote? && ws[0].n >= due
    ensures |ws| <= 1 && (ws != [] ==> Total(ws) >= due)
  {
    if ws != [] {
      assert ws[..1] == [] + [ws[0]];
      TotalMore([], ws[0]);
      assert |ws| == 1 ==> ws == ws[..1];
    }
  }

  lemma DueIsRest(h: Handler, s: State)
    requires s.sent <= Consume(h, s.received).responses
    ensures s.sent + s.Due(h) == Consume(h, s.received).responses
  {
    hide Consume;
  }

  /** Where reads deliver and the socket takes all, every turn leaves nothing due. */
  ghost predicate Flowing(h: Handler, s: State, n: nat) {
    && (forall i :: 0 <= i < |s.inbox| ==> Delivers(s.inbox[i]))
    && TakesAll(s.outbox, n) && |s.inbox| <= |s.outbox|
    && |Consume(h, s.received + Incoming(s.inbox)).responses| <= n
    && s.sent == Consume(h, s.received).responses
  }

  lemma TurnFlows(h: Handler, s: State, t: Turn, n: nat)
    requires Flowing(h, s, n) && TurnOK(h, s, t)
    ensures GoesOn(t) && Flowing(h, Turned(h, s, t), n)
    ensures var s' := Turned(h, s, t);
            s'.inbox == s.inbox[1..] && s'.received + Incoming(s'.inbox) == s.received + Incoming(s.inbox)
  {
    hide Consume, Flushes, State.Due;
    var m := Arrived(s);
    ArrivedSame(s);
    ResponsesGrow(h, s.received, s.inbox[0].d);
    ResponsesGrow(h, m.received, Incoming(m.inbox));
    DueIsRest(h, m);
    FlushesAll(h, m, t.ws, n);
    assert Turned(h, s, t) == Sent(h, m, t.ws);
  }

  lemma ArrivedSame(s: State)
    requires s.inbox != []
    ensures Arrived(s).received + Incoming(Arrived(s).inbox) == s.received + Incoming(s.inbox)
  {
    var d := if s.inbox[0].Data? then s.inbox[0].d else [];
    assert (s.received + d) + Incoming(s.inbox[1..]) == s.received + (d + Incoming(s.inbox[1..]));
  }

  lemma {:induction false} TurnsFlow(h: Handler, s: State, turns: seq<Turn>, n: nat)
    requires Flowing(h, s, n) && Going(h, s, turns)
    ensures Flowing(h, After(h, s, turns), n)
    ensures var s' := After(h, s, turns);
            s'.received + Incoming(s'.inbox) == s.received + Incoming(s.inbox)
  {
    hide Flowing, TurnOK, Turned, GoesOn;
    if turns != [] {
      TurnsFlow(h, s, turns[..|turns| - 1], n);
      TurnFlows(h, After(h, s, turns[..|turns| - 1]), turns[|turns| - 1], n);
    }
  }

  /** A drain of a socket that delivers and takes all: everything is read and every response to
      it is sent. */
  lemma DrainsAll(h: Handler, s: State, turns: seq<Turn>, n: nat)
    requires Flowing(h, s, n) && Drains(h, s, turns)
    ensures var s' := After(h, s, turns);
            && Open(turns) && s'.inbox == [] && s'.received == s.received + Incoming(s.inbox)
            && s'.sent == Consume(h, s.received + Incoming(s.inbox)).responses
            && s'.Due(h) == []
  {
    hide Consume, TurnOK, Turned;
    if Going(h, s, turns) {
      TurnsFlow(h, s, turns, n);
    } else {
      var init, last := turns[..|turns| - 1], turns[|turns| - 1];
      TurnsFlow(h, s, init, n);
      TurnFlows(h, After(h, s, init), last, n);
    }
    NothingLeft(After(h, s, turns));
  }

  lemma NothingLeft(s: State)
    ensures s.inbox == [] ==> s.received + Incoming(s.inbox) == s.received
  {
  }

  /** And so after an event that says there is something to read. */
  lemma ServesAll(h: Handler, e: Flags, s: State, log: Log, n: nat)
    requires Serves(h, e, s, log) && e.inp && !e.hupOrErr && Flowing(h, s, n)
    ensures var s' := Served(h, s, log);
            && s'.received == s.received + Incoming(s.inbox)
            && s'.sent == Consume(h, s.received + Incoming(s.inbox)).responses
            && (Keeps(h, e, s, log) <==> !e.rdhup)
  {
    hide Consume, Drains, After;
    assert s.Due(h) == [];
    assert log.ws == [];
    NothingSent(h, s);
    DrainsAll(h, s, log.turns, n);
  }

  lemma NothingSent(h: Handler, s: State)
    ensures Sent(h, s, []) == s
  {
  }

  /** A flush on EPOLLOUT of a socket that takes all sends what was due. */
  lemma ResumesAll(h: Handler, e: Flags, s: State, log: Log, n: nat)
    requires Serves(h, e, s, log) && e.out && !e.inp && !e.hupOrErr
    requires s.sent <= Consume(h, s.received).responses && |s.Due(h)| <= n && TakesAll(s.outbox, n) && s.outbox != []
    ensures Served(h, s, log).sent == Consume(h, s.received).responses
  {
    FlushesAll(h, s, log.ws, n);
  }

  /** Over any event, nothing sent is taken back, and it stays a prefix of the responses. */
  lemma {:induction false} AfterGrows(h: Handler, s: State, turns: seq<Turn>)
    requires s.sent <= Consume(h, s.received).responses
    ensures var s' := After(h, s, turns);
            s.sent <= s'.sent <= Consume(h, s'.received).responses && s.received <= s'.received
  {
    hide Consume;
    if turns != [] {
      AfterGrows(h, s, turns[..|turns| - 1]);
      var m, t := After(h, s, turns[..|turns| - 1]), turns[|turns| - 1];
      if m.inbox != [] && |t.ws| <= |m.outbox| {
        ResponsesGrow(h, m.received, if m.inbox[0].Data? then m.inbox[0].d else []);
        SentDue(h, Arrived(m), t.ws);
      }
    }
  }

  lemma ServedGrows(h: Handler, s: State, log: Log)
    requires s.sent <= Consume(h, s.received).responses
    ensures var s' := Served(h, s, log);
            s.sent <= s'.sent <= Consume(h, s'.received).responses && s.received <= s'.received
  {
    hide Consume, After;
    if |log.ws| <= |s.outbox| {
      SentDue(h, s, log.ws);
      AfterGrows(h, Sent(h, s, log.ws), log.turns);
    }
  }

  lemma TwoReads(stream: bytes)
    ensures Incoming([Data(stream), Data([])]) == stream
  {
    assert Incoming([Data([])]) == [] + Incoming([]);
    assert [Data(stream), Data([])][1..] == [Data([])];
  }

  /** The end of the stream in one event with its last requests, while the socket takes nothing. */
  lemma ClosedUnsent(h: Handler, e: Flags, s: State, log: Log, stream: bytes)
    requires s == State([], [], [Data(stream), Data([])], [WriteAgain]) && stream != []
    requires e.inp && !e.hupOrErr && !e.out && Serves(h, e, s, log) && Consume(h, stream).responses != []
    ensures !Keeps(h, e, s, log) && Served(h, s, log).received == stream && Served(h, s, log).sent == []
  {
    hide Consume, State.Due;
    NothingSent(h, s);
    var turns := log.turns;
    TwoTurns(h, s, turns, stream);
  }

  lemma FirstTurn(h: Handler, s: State, t: Turn, stream: bytes)
    requires s == State([], [], [Data(stream), Data([])], [WriteAgain]) && stream != []
    requires TurnOK(h, s, t) && Consume(h, stream).responses != []
    ensures GoesOn(t) && Turned(h, s, t) == State(stream, [], [Data([])], [])
  {
    hide Consume;
    var m := Arrived(s);
    assert m == State(stream, [], [Data([])], [WriteAgain]);
    assert m.Due(h) == Consume(h, stream).responses;
    assert Total([]) == 0;
    assert t.ws == [WriteAgain];
    TotalMore([], WriteAgain);
    assert [] + [WriteAgain] == [WriteAgain];
  }

  lemma SecondTurn(h: Handler, stream: bytes, t: Turn)
    requires TurnOK(h, State(stream, [], [Data([])], []), t)
    ensures !GoesOn(t) && !t.r.ReadAgain?
    ensures Turned(h, State(stream, [], [Data([])], []), t) == State(stream, [], [], [])
  {
    hide Consume, State.Due;
    assert stream + [] == stream;
  }

  lemma {:induction false} NotThree(h: Handler, s: State, turns: seq<Turn>, stream: bytes)
    requires s == State([], [], [Data(stream), Data([])], [WriteAgain]) && stream != []
    requires |turns| >= 2 && Consume(h, stream).responses != []
    ensures !Going(h, s, turns)
  {
    hide Consume, TurnOK, Turned, GoesOn;
    var init, last := turns[..|turns| - 1], turns[|turns| - 1];
    if |turns| > 2 {
      NotThree(h, s, init, stream);
    } else if Going(h, s, turns) {
      OneTurn(h, s, init, stream);
      SecondTurn(h, stream, last);
    }
  }

  lemma OneTurn(h: Handler, s: State, turns: seq<Turn>, stream: bytes)
    requires s == State([], [], [Data(stream), Data([])], [WriteAgain]) && stream != []
    requires |turns| == 1 && Going(h, s, turns) && Consume(h, stream).responses != []
    ensures After(h, s, turns) == State(stream, [], [Data([])], [])
  {
    hide Consume, TurnOK, Turned, GoesOn;
    assert turns[..0] == [];
    FirstTurn(h, s, turns[0], stream);
  }

  lemma TwoTurns(h: Handler, s: State, turns: seq<Turn>, stream: bytes)
    requires s == State([], [], [Data(stream), Data([])], [WriteAgain]) && stream != []
    requires Drains(h, s, turns) && Consume(h, stream).responses != []
    ensures !Open(turns) && After(h, s, turns).received == stream && After(h, s, turns).sent == []
  {
    hide Consume, TurnOK, Turned, GoesOn;
    if |turns| >= 2 {
      NotThree(h, s, turns, stream);
      var init, last := turns[..|turns| - 1], turns[|turns| - 1];
      if |init| >= 2 {
        NotThree(h, s, init, stream);
      } else {
        OneTurn(h, s, init, stream);
        SecondTurn(h, stream, last);
      }
    } else if |turns| == 1 {
      assert turns[..0] == [];
      if Going(h, s, turns) {
        OneTurn(h, s, turns, stream);
      } else {
        FirstTurn(h, s, turns[0], stream);
      }
    }
  }
}
