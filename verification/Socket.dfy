/**
 Device memory over a socket: any number of client calls share one connection, each sending a
 request record and then receiving one record in place of it, with no matching of the two other
 than the address. The server answers records in the order of their arrival.
 */
module Socket {
  import opened Bytes

  const CMD_R := 1
  const CMD_W := 2
  const RESP_OK := 1
  const BAD_VALUE := 0xdeadbeef

  datatype Rec = Rec(cmd: nat, addr: nat, value: nat, resp: nat)

  const ZERO := Rec(0, 0, 0, 0)

  predicate IsCommand(r: Rec) {
    r.cmd == CMD_R || r.cmd == CMD_W
  }

  /** The shipped server answers reads and writes alike: with the address as value. */
  function Answer(r: Rec): Rec {
    r.(value := r.addr, resp := RESP_OK)
  }

  function Answers(rs: seq<Rec>): (a: seq<Rec>)
    ensures |a| == |rs| && forall i :: 0 <= i < |rs| ==> a[i] == Answer(rs[i])
  {
    seq(|rs|, i requires 0 <= i < |rs| => Answer(rs[i]))
  }

  // ---------------------------------------------------------------------------
  // The server's loop
  // ---------------------------------------------------------------------------

  /** The requests among what the server receives; None is a failed receive. */
  function Requests(stream: seq<Option<Rec>>): seq<Rec> {
    if stream == [] then []
    else
      var r := stream[|stream| - 1];
      Requests(stream[..|stream| - 1]) + (if r.Some? && IsCommand(r.value) then [r.value] else [])
  }

  /** A failed first receive leaves the uninitialised record, which may look like a request. */
  function Phantom(garbage: Rec, stream: seq<Option<Rec>>): seq<Rec> {
    if stream != [] && stream[0].None? && IsCommand(garbage) then [garbage] else []
  }

  /** What the server sends over a whole stream of receives. */
  function Served(garbage: Rec, stream: seq<Option<Rec>>): seq<Rec> {
    Answers(Phantom(garbage, stream) + Requests(stream))
  }

  /** The loop answers exactly the requests received, in order; a failed receive is answered only
      if it is the very first and the uninitialised record happens to hold a command. */
  method Serve(garbage: Rec, stream: seq<Option<Rec>>) returns (out: seq<Rec>)
    ensures out == Served(garbage, stream)
  {
    out := [];
    var req, i := garbage, 0;
    while i < |stream|
      invariant 0 <= i <= |stream|
      invariant req == if i == 0 then garbage else ZERO
      invariant out == Served(garbage, stream[..i])
    {
      if stream[i].Some? {
        req := stream[i].value;
      }
      ghost var now := if IsCommand(req) then [req] else [];
      if req.cmd == CMD_R {
        req := req.(value := req.addr, resp := RESP_OK);
        out := out + [req];
      } else if req.cmd == CMD_W {
        req := req.(value := req.addr, resp := RESP_OK);
        out := out + [req];
      }
      req := ZERO;
      assert stream[..i + 1][..i] == stream[..i];
      assert Phantom(garbage, stream[..i + 1]) + Requests(stream[..i + 1])
          == Phantom(garbage, stream[..i]) + Requests(stream[..i]) + now;
      i := i + 1;
    }
    assert stream[..|stream|] == stream;
  }

  // ---------------------------------------------------------------------------
  // Calls on one connection
  // ---------------------------------------------------------------------------

  type Cid = nat

  datatype Pc = Out | Sending | Receiving(index: nat)

  /** `rc` and `value` are the result of the last call: `value` is what it stored, if anything. */
  datatype Call = Call(pc: Pc, req: Rec, addr: nat, rc: int, value: Option<nat>)

  /** `garbage` is the server's uninitialised record. `sent`, `received` and `stream` are history: all
      requests sent, all records received by calls, and what the server's receives gave. A call
      waiting to receive remembers, as history too, the number of its request. */
  datatype Sys = Sys(calls: map<Cid, Call>, toServer: seq<Rec>, inHand: seq<Rec>, toClient: seq<Rec>,
                     garbage: Rec, sent: seq<Rec>, received: seq<Rec>, stream: seq<Option<Rec>>)

  datatype Label =
    | Begin(c: Cid, req: Rec)
    | Send(c: Cid) | SendFail(c: Cid)
    | Recv(c: Cid) | RecvFail(c: Cid)
    | ServerRecv | ServerRecvFail | ServerSend

  predicate Enabled(s: Sys, l: Label) {
    match l
    // the value and the response of a read request are not initialised
    case Begin(c, req) => c in s.calls && s.calls[c].pc == Out && IsCommand(req)
    case Send(c) => c in s.calls && s.calls[c].pc == Sending
    case SendFail(c) => c in s.calls && s.calls[c].pc == Sending
    case Recv(c) => c in s.calls && s.calls[c].pc.Receiving? && s.toClient != []
    case RecvFail(c) => c in s.calls && s.calls[c].pc.Receiving?
    case ServerRecv => s.inHand == [] && s.toServer != []
    case ServerRecvFail => s.inHand == []
    case ServerSend => s.inHand != []
  }

  /** What a call makes of the record it received. */
  function Conclude(call: Call, r: Rec): Call {
    if r.addr != call.addr || r.resp != RESP_OK then
      Call(Out, r, call.addr, -1, if call.req.cmd == CMD_R then Some(BAD_VALUE) else None)
    else Call(Out, r, call.addr, 0, if call.req.cmd == CMD_R then Some(r.value) else None)
  }

  function Fail(call: Call): Call {
    call.(pc := Out, rc := -1, value := None)
  }

  function Apply(s: Sys, l: Label): Sys
    requires Enabled(s, l)
  {
    match l
    case Begin(c, req) => s.(calls := s.calls[c := Call(Sending, req, req.addr, 0, None)])
    case Send(c) =>
      s.(calls := s.calls[c := s.calls[c].(pc := Receiving(|s.sent|))],
         toServer := s.toServer + [s.calls[c].req], sent := s.sent + [s.calls[c].req])
    case SendFail(c) => s.(calls := s.calls[c := Fail(s.calls[c])])
    case Recv(c) =>
      s.(calls := s.calls[c := Conclude(s.calls[c], s.toClient[0])],
         toClient := s.toClient[1..], received := s.received + [s.toClient[0]])
    case RecvFail(c) => s.(calls := s.calls[c := Fail(s.calls[c])])
    case ServerRecv =>
      s.(inHand := [s.toServer[0]], toServer := s.toServer[1..], stream := s.stream + [Some(s.toServer[0])])
    // the record in hand is then the zeroed one, or before any receive the uninitialised one
    case ServerRecvFail =>
      s.(inHand := if s.stream == [] && IsCommand(s.garbage) then [s.garbage] else [], stream := s.stream + [None])
    case ServerSend =>
      s.(inHand := [], toClient := s.toClient + if IsCommand(s.inHand[0]) then [Answer(s.inHand[0])] else [])
  }

  predicate Legal(s: Sys, ls: seq<Label>)
    decreases |ls|
  {
    ls == [] || (Enabled(s, ls[0]) && Legal(Apply(s, ls[0]), ls[1..]))
  }

  function Run(s: Sys, ls: seq<Label>): Sys
    requires Legal(s, ls)
    decreases |ls|
  {
    if ls == [] then s else Run(Apply(s, ls[0]), ls[1..])
  }

  predicate Init(s: Sys) {
    && (forall c :: c in s.calls ==> s.calls[c].pc == Out)
    && s.toServer == s.inHand == s.toClient == s.sent == s.received == [] && s.stream == []
  }

  /** A call whose send or receive fails returns -1 and stores no value; nothing else changes, so what
      it had sent stays on its way. */
  lemma FailuresReported(s: Sys, l: Label)
    requires Enabled(s, l) && (l.SendFail? || l.RecvFail?)
    ensures var s' := Apply(s, l);
            && l.c in s'.calls && s'.calls[l.c].pc == Out && s'.calls[l.c].rc == -1 && s'.calls[l.c].value == None
            && s' == s.(calls := s'.calls) && s'.calls.Keys == s.calls.Keys
            && forall c :: c in s.calls && c != l.c ==> s'.calls[c] == s.calls[c]
  {
  }

  // ---------------------------------------------------------------------------
  // First in, first out
  // ---------------------------------------------------------------------------

  /** The uninitialised record, if the server took it for a request. */
  function PhantomOf(s: Sys): seq<Rec> {
    Phantom(s.garbage, s.stream)
  }

  predicate Commands(rs: seq<Rec>) {
    forall i :: 0 <= i < |rs| ==> IsCommand(rs[i])
  }

  predicate Inv(s: Sys) {
    // what the server has sent, or is about to, is what its loop makes of the records received
    && s.received + s.toClient + Answers(s.inHand) == Served(s.garbage, s.stream)
    && Requests(s.stream) + s.toServer == s.sent
    && |s.inHand| <= 1 && Commands(s.inHand) && Commands(s.toServer)
    && (forall c :: c in s.calls && s.calls[c].pc == Sending ==>
          IsCommand(s.calls[c].req) && s.calls[c].req.addr == s.calls[c].addr)
    && (forall c :: c in s.calls && s.calls[c].pc.Receiving? ==>
          && s.calls[c].pc.index < |s.sent| && s.sent[s.calls[c].pc.index] == s.calls[c].req
          && s.calls[c].req.addr == s.calls[c].addr)
  }

  lemma RequestsSnoc(stream: seq<Option<Rec>>, r: Option<Rec>)
    ensures Requests(stream + [r]) == Requests(stream) + if r.Some? && IsCommand(r.value) then [r.value] else []
  {
    assert (stream + [r])[..|stream|] == stream;
  }

  lemma AnswersConcat(a: seq<Rec>, b: seq<Rec>)
    ensures Answers(a + b) == Answers(a) + Answers(b)
  {
  }

  /** What one more receive adds to what the server sends. */
  lemma ServedSnoc(garbage: Rec, stream: seq<Option<Rec>>, r: Option<Rec>)
    ensures Served(garbage, stream + [r])
         == Served(garbage, stream) + Answers(if r.Some? && IsCommand(r.value) then [r.value]
                                              else if stream == [] && r.None? && IsCommand(garbage) then [garbage]
                                              else [])
  {
    RequestsSnoc(stream, r);
    var p, rs := Phantom(garbage, stream), Requests(stream);
    var p', rs' := Phantom(garbage, stream + [r]), Requests(stream + [r]);
    if stream == [] {
      assert p + rs == [];
    } else {
      assert p' + rs' == (p + rs) + rs'[|rs|..];
      AnswersConcat(p + rs, rs'[|rs|..]);
    }
  }

  lemma ServerRecvInv(s: Sys)
    requires Inv(s) && Enabled(s, ServerRecv)
    ensures Inv(Apply(s, ServerRecv))
  {
    ServedSnoc(s.garbage, s.stream, Some(s.toServer[0]));
    RequestsSnoc(s.stream, Some(s.toServer[0]));
    assert s.toServer == [s.toServer[0]] + s.toServer[1..];
  }

  lemma ServerRecvFailInv(s: Sys)
    requires Inv(s) && Enabled(s, ServerRecvFail)
    ensures Inv(Apply(s, ServerRecvFail))
  {
    ServedSnoc(s.garbage, s.stream, None);
    RequestsSnoc(s.stream, None);
  }

  lemma ServerSendInv(s: Sys)
    requires Inv(s) && Enabled(s, ServerSend)
    ensures Inv(Apply(s, ServerSend))
  {
    assert Answers(s.inHand) == [Answer(s.inHand[0])];
  }

  lemma RecvInv(s: Sys, c: Cid)
    requires Inv(s) && Enabled(s, Recv(c))
    ensures Inv(Apply(s, Recv(c)))
  {
    var s' := Apply(s, Recv(c));
    assert s'.received + s'.toClient == s.received + s.toClient;
  }

  lemma StepInv(s: Sys, l: Label)
    requires Inv(s) && Enabled(s, l)
    ensures Inv(Apply(s, l))
  {
    match l
    case Begin(_, _) =>
    case Send(_) =>
    case SendFail(_) =>
    case Recv(c) => RecvInv(s, c);
    case RecvFail(_) =>
    case ServerRecv => ServerRecvInv(s);
    case ServerRecvFail => ServerRecvFailInv(s);
    case ServerSend => ServerSendInv(s);
  }

  lemma {:induction false} RunInv(s: Sys, ls: seq<Label>)
    requires Inv(s) && Legal(s, ls)
    ensures Inv(Run(s, ls))
    decreases |ls|
  {
    if ls != [] {
      StepInv(s, ls[0]);
      RunInv(Apply(s, ls[0]), ls[1..]);
    }
  }

  lemma ReachableInv(s0: Sys, ls: seq<Label>)
    requires Init(s0) && Legal(s0, ls)
    ensures Inv(Run(s0, ls))
  {
    RunInv(s0, ls);
  }

  /** In every run the records sent to the calls, and the one about to be, are those that the server's
      loop sends for the receives it made, good and failed. */
  lemma ServerIsLoop(s0: Sys, ls: seq<Label>)
    requires Init(s0) && Legal(s0, ls)
    ensures var s := Run(s0, ls); s.received + s.toClient + Answers(s.inHand) == Served(s.garbage, s.stream)
  {
    ReachableInv(s0, ls);
  }

  /** The first receive of the server that `ls` holds is one that fails. */
  predicate FirstReceiveFails(ls: seq<Label>) {
    ls != [] && (ls[0].ServerRecvFail? || (!ls[0].ServerRecv? && FirstReceiveFails(ls[1..])))
  }

  /** In this run the server takes its uninitialised record for a request. */
  predicate Haunted(s0: Sys, ls: seq<Label>) {
    FirstReceiveFails(ls) && IsCommand(s0.garbage)
  }

  lemma {:induction false} PhantomRun(s: Sys, ls: seq<Label>)
    requires Legal(s, ls)
    ensures Run(s, ls).garbage == s.garbage
    ensures PhantomOf(Run(s, ls))
         == if s.stream != [] then PhantomOf(s) else if Haunted(s, ls) then [s.garbage] else []
    decreases |ls|
  {
    if ls != [] {
      PhantomRun(Apply(s, ls[0]), ls[1..]);
    }
  }

  /** What the calls receive answers: the requests in the order they were sent, behind the
      uninitialised record if the run is haunted. */
  function Asked(s0: Sys, ls: seq<Label>): seq<Rec>
    requires Legal(s0, ls)
  {
    (if Haunted(s0, ls) then [s0.garbage] else []) + Run(s0, ls).sent
  }

  /** In every interleaving, receives failing on both sides: the n-th record received is the answer
      to the n-th record asked, and those asked are received or on their way. */
  lemma FirstInFirstOut(s0: Sys, ls: seq<Label>)
    requires Init(s0) && Legal(s0, ls)
    ensures var s, asked := Run(s0, ls), Asked(s0, ls);
            && s.received + s.toClient + Answers(s.inHand + s.toServer) == Answers(asked)
            && s.received <= Answers(asked)
            && |asked| - |s.received| == |s.toServer| + |s.inHand| + |s.toClient|
  {
    ReachableInv(s0, ls);
    PhantomRun(s0, ls);
    var s := Run(s0, ls);
    QueueJoins(s.received + s.toClient, s.inHand, s.toServer, PhantomOf(s), Requests(s.stream));
    OnTheirWay(s.received, s.toClient, Answers(s.inHand + s.toServer), Answers(Asked(s0, ls)));
  }

  /** The requests that the server has yet to receive join both sides of the correspondence. */
  lemma QueueJoins(served: seq<Rec>, inHand: seq<Rec>, queue: seq<Rec>, phantom: seq<Rec>, requests: seq<Rec>)
    requires served + Answers(inHand) == Answers(phantom + requests)
    ensures served + Answers(inHand + queue) == Answers(phantom + (requests + queue))
  {
    AnswersConcat(inHand, queue);
    AnswersConcat(phantom + requests, queue);
    assert phantom + (requests + queue) == (phantom + requests) + queue;
    assert served + (Answers(inHand) + Answers(queue)) == (served + Answers(inHand)) + Answers(queue);
  }

  lemma OnTheirWay(received: seq<Rec>, there: seq<Rec>, coming: seq<Rec>, all: seq<Rec>)
    requires received + there + coming == all
    ensures received <= all && |all| - |received| == |there| + |coming|
  {
  }

  /** Every run keeps to the order of the requests sent. */
  ghost predicate OnlyAnswersRequests(s0: Sys) {
    forall ls :: Legal(s0, ls) ==> Run(s0, ls).received <= Answers(Run(s0, ls).sent)
  }

  /** The server's failed first receive answered to the first call. */
  function HauntedRun(c: Cid, req: Rec): seq<Label> {
    [ServerRecvFail] + ([ServerSend] + ([Begin(c, req)] + ([Send(c)] + ([Recv(c)] + []))))
  }

  lemma RunCons(s: Sys, l: Label, rest: seq<Label>)
    requires Enabled(s, l) && Legal(Apply(s, l), rest)
    ensures Legal(s, [l] + rest) && Run(s, [l] + rest) == Run(Apply(s, l), rest)
  {
  }

  /** Then the call fails, or a read returns what nobody wrote for it. */
  lemma PhantomAnswered(s0: Sys, c: Cid, req: Rec)
    requires Init(s0) && IsCommand(s0.garbage) && c in s0.calls && IsCommand(req)
    ensures Legal(s0, HauntedRun(c, req))
    ensures var s := Run(s0, HauntedRun(c, req));
            && s.received == [Answer(s0.garbage)] && s.sent == [req]
            && c in s.calls && (s.calls[c].rc == 0 <==> s0.garbage.addr == req.addr)
  {
    var s1 := Apply(s0, ServerRecvFail);
    var s2 := Apply(s1, ServerSend);
    var s3 := Apply(s2, Begin(c, req));
    var s4 := Apply(s3, Send(c));
    RunCons(s4, Recv(c), []);
    RunCons(s3, Send(c), [Recv(c)] + []);
    RunCons(s2, Begin(c, req), [Send(c)] + ([Recv(c)] + []));
    RunCons(s1, ServerSend, [Begin(c, req)] + ([Send(c)] + ([Recv(c)] + [])));
    RunCons(s0, ServerRecvFail, [ServerSend] + ([Begin(c, req)] + ([Send(c)] + ([Recv(c)] + []))));
  }

  /** The records received answer the requests sent, in order and in every run, if and only if the
      server's uninitialised record does not happen to hold a command. */
  lemma FirstInFirstOutIff(s0: Sys, c: Cid)
    requires Init(s0) && c in s0.calls
    ensures OnlyAnswersRequests(s0) <==> !IsCommand(s0.garbage)
  {
    if IsCommand(s0.garbage) {
      var req := s0.garbage.(addr := s0.garbage.addr + 1);
      PhantomAnswered(s0, c, req);
      assert Answers([req])[0] != Answer(s0.garbage);
    } else {
      forall ls | Legal(s0, ls)
        ensures Run(s0, ls).received <= Answers(Run(s0, ls).sent)
      {
        FirstInFirstOut(s0, ls);
        assert Asked(s0, ls) == Run(s0, ls).sent;
      }
    }
  }

  /** In every interleaving a call receives the answer to the next record asked. It succeeds if and
      only if that record was for its address; a read then returns that address, which is what the
      server sends for it; and the answer is its own if its request is that record. */
  lemma ReceivesInTurn(s0: Sys, ls: seq<Label>, c: Cid)
    requires Init(s0) && Legal(s0, ls) && Enabled(Run(s0, ls), Recv(c))
    ensures var s, asked := Run(s0, ls), Asked(s0, ls);
            var call, done, n := s.calls[c], Apply(s, Recv(c)).calls[c], |s.received|;
            && n < |asked| && done.req == Answer(asked[n]) == Rec(asked[n].cmd, asked[n].addr, asked[n].addr, 1)
            && (done.rc == 0 <==> asked[n].addr == call.addr)
            && (done.rc == 0 && call.req.cmd == CMD_R ==> done.value == Some(call.addr))
            && (done.rc != 0 && call.req.cmd == CMD_R ==> done.value == Some(0xdeadbeef))
            && (call.req.cmd == CMD_W ==> done.value == None)
            && (call.pc.index + |asked| - |s.sent| == n ==> done.rc == 0 && done.req == Answer(call.req))
  {
    FirstInFirstOut(s0, ls);
    ReachableInv(s0, ls);
    var s, asked := Run(s0, ls), Asked(s0, ls);
    assert s.toClient[0] == Answers(asked)[|s.received|];
  }

  // ---------------------------------------------------------------------------
  // Failed receives
  // ---------------------------------------------------------------------------

  function Receivers(s: Sys): set<Cid> {
    set c | c in s.calls && s.calls[c].pc.Receiving?
  }

  function RecvFails(ls: seq<Label>): nat {
    if ls == [] then 0 else (if ls[0].RecvFail? then 1 else 0) + RecvFails(ls[1..])
  }

  /** Requests sent whose answer no call that waits will take. */
  function Backlog(s: Sys): int {
    |s.sent| - |s.received| - |Receivers(s)|
  }

  function Waiting(call: Call): nat {
    if call.pc.Receiving? then 1 else 0
  }

  lemma ReceiversUpdate(s: Sys, s': Sys, c: Cid, call: Call)
    requires c in s.calls && s'.calls == s.calls[c := call]
    ensures |Receivers(s')| == |Receivers(s)| - Waiting(s.calls[c]) + Waiting(call)
  {
    if call.pc.Receiving? {
      assert Receivers(s') == Receivers(s) + {c};
    } else {
      assert Receivers(s') == Receivers(s) - {c};
    }
  }

  lemma BacklogStep(s: Sys, l: Label)
    requires Enabled(s, l)
    ensures Backlog(Apply(s, l)) == Backlog(s) + (if l.RecvFail? then 1 else 0)
  {
    var s' := Apply(s, l);
    match l
    case Begin(c, _) => ReceiversUpdate(s, s', c, s'.calls[c]);
    case Send(c) => ReceiversUpdate(s, s', c, s'.calls[c]);
    case SendFail(c) => ReceiversUpdate(s, s', c, s'.calls[c]);
    case Recv(c) => ReceiversUpdate(s, s', c, s'.calls[c]);
    case RecvFail(c) => ReceiversUpdate(s, s', c, s'.calls[c]);
    case _ => assert s'.calls == s.calls;
  }

  lemma {:induction false} BacklogRun(s: Sys, ls: seq<Label>)
    requires Legal(s, ls)
    ensures Backlog(Run(s, ls)) == Backlog(s) + RecvFails(ls)
    decreases |ls|
  {
    if ls != [] {
      BacklogStep(s, ls[0]);
      BacklogRun(Apply(s, ls[0]), ls[1..]);
    }
  }

  /** In every interleaving the requests sent are the records received, the calls that wait and one
      more for every receive that failed: what a failed receive leaves is never made good. */
  lemma RequestsConserved(s0: Sys, ls: seq<Label>)
    requires Init(s0) && Legal(s0, ls)
    ensures var s := Run(s0, ls); |s.sent| == |s.received| + |Receivers(s)| + RecvFails(ls)
  {
    assert Receivers(s0) == {};
    BacklogRun(s0, ls);
  }

  /** A call that waits is never left without an answer to receive: one is there, or the server can
      take a step towards it. */
  lemma NeverStarved(s0: Sys, ls: seq<Label>, c: Cid)
    requires Init(s0) && Legal(s0, ls)
    requires c in Run(s0, ls).calls && Run(s0, ls).calls[c].pc.Receiving?
    ensures var s := Run(s0, ls);
            Enabled(s, Recv(c)) || Enabled(s, ServerRecv) || Enabled(s, ServerSend)
  {
    assert c in Receivers(Run(s0, ls));
    FirstInFirstOut(s0, ls);
    RequestsConserved(s0, ls);
  }

  /** No call but `c` waits, and none has sent since it did. */
  predicate Alone(s: Sys, c: Cid) {
    Receivers(s) == {c} && c in s.calls && s.calls[c].pc.Receiving? && s.calls[c].pc.index + 1 == |s.sent|
  }

  /** How many answers too early the calls of a run are. */
  function Lag(s0: Sys, ls: seq<Label>): nat {
    RecvFails(ls) + if Haunted(s0, ls) then 1 else 0
  }

  /** The request of `c` was the last record asked, and `c` is about to receive the answer to the one
      asked so many places before it as the run lags. */
  predicate OffByFailures(s0: Sys, ls: seq<Label>, c: Cid)
    requires Legal(s0, ls) && Enabled(Run(s0, ls), Recv(c))
  {
    var s, asked, k := Run(s0, ls), Asked(s0, ls), Lag(s0, ls);
    var call, done, own := s.calls[c], Apply(s, Recv(c)).calls[c], |asked| - 1;
    && own >= k && asked[own] == call.req && done.req == Answer(asked[own - k])
    && (done.rc == 0 <==> asked[own - k].addr == call.addr)
    && (k == 0 ==> done.rc == 0 && done.req == Answer(call.req))
    && ((forall j :: 0 <= j < own ==> asked[j].addr != call.addr) ==> (done.rc == 0 <==> k == 0))
  }

  /** After any run, a call that waits alone receives the answer to the record asked as many places
      before its own as receives have failed, with one place more in a haunted run. So where nobody
      else asked for its address it succeeds if and only if no receive ever failed and the run is
      not haunted; and then the answer is its own. */
  lemma AloneGetsOwnIff(s0: Sys, ls: seq<Label>, c: Cid)
    requires Init(s0) && Legal(s0, ls) && Enabled(Run(s0, ls), Recv(c)) && Alone(Run(s0, ls), c)
    ensures OffByFailures(s0, ls, c)
  {
    AlonePosition(s0, ls, c);
    ReceivesInTurn(s0, ls, c);
  }

  lemma AlonePosition(s0: Sys, ls: seq<Label>, c: Cid)
    requires Init(s0) && Legal(s0, ls) && Alone(Run(s0, ls), c)
    ensures var s, asked, k := Run(s0, ls), Asked(s0, ls), Lag(s0, ls);
            |s.received| == |asked| - 1 - k && asked[|asked| - 1] == s.calls[c].req
  {
    ReachableInv(s0, ls);
    RequestsConserved(s0, ls);
  }

  // ---------------------------------------------------------------------------
  // One call at a time
  // ---------------------------------------------------------------------------

  /** No call sends while another waits. */
  predicate InTurn(s: Sys, ls: seq<Label>)
    decreases |ls|
  {
    ls == [] || (Enabled(s, ls[0]) && (ls[0].Send? ==> Receivers(s) == {}) && InTurn(Apply(s, ls[0]), ls[1..]))
  }

  predicate AtMostOne(s: Sys) {
    forall c :: c in Receivers(s) ==> Alone(s, c)
  }

  lemma AtMostOneStep(s: Sys, l: Label)
    requires AtMostOne(s) && Enabled(s, l) && (l.Send? ==> Receivers(s) == {})
    ensures AtMostOne(Apply(s, l))
  {
    var s' := Apply(s, l);
    forall c | c in Receivers(s')
      ensures Alone(s', c)
    {
      if l.Send? {
        assert Receivers(s') == {l.c};
      } else {
        assert Receivers(s') <= Receivers(s);
        assert Alone(s, c) && s'.calls[c] == s.calls[c];
      }
    }
  }

  lemma {:induction false} AtMostOneRun(s: Sys, ls: seq<Label>)
    requires AtMostOne(s) && InTurn(s, ls)
    ensures Legal(s, ls) && AtMostOne(Run(s, ls))
    decreases |ls|
  {
    if ls != [] {
      AtMostOneStep(s, ls[0]);
      AtMostOneRun(Apply(s, ls[0]), ls[1..]);
    }
  }

  /** With calls one at a time every receive is a call's that waits alone, so every call is off by the
      failures so far, for good, and where nobody asked for its address before, it succeeds if and
      only if there were none. */
  lemma OneAtATime(s0: Sys, ls: seq<Label>, c: Cid)
    requires Init(s0) && InTurn(s0, ls)
    ensures Legal(s0, ls)
    ensures Enabled(Run(s0, ls), Recv(c)) ==> OffByFailures(s0, ls, c)
  {
    AtMostOneRun(s0, ls);
    if Enabled(Run(s0, ls), Recv(c)) {
      assert c in Receivers(Run(s0, ls));
      AloneGetsOwnIff(s0, ls, c);
    }
  }

  /** A call whose receive fails, and then another. */
  function FailedThenCall(c: Cid, first: Rec, second: Rec): seq<Label> {
    [Begin(c, first)] + ([Send(c)] + ([RecvFail(c)] + ([ServerRecv] + ([ServerSend] + SecondCall(c, second)))))
  }

  function SecondCall(c: Cid, req: Rec): seq<Label> {
    [Begin(c, req)] + ([Send(c)] + ([Recv(c)] + []))
  }

  lemma SecondCallRuns(s: Sys, c: Cid, req: Rec)
    requires c in s.calls && s.calls[c].pc == Out && IsCommand(req) && s.toClient != []
    ensures Legal(s, SecondCall(c, req))
    ensures var s' := Run(s, SecondCall(c, req));
            && s'.received == s.received + [s.toClient[0]] && s'.sent == s.sent + [req]
            && c in s'.calls
            && s'.calls[c] == Conclude(Call(Receiving(|s.sent|), req, req.addr, 0, None), s.toClient[0])
  {
    var s1 := Apply(s, Begin(c, req));
    var s2 := Apply(s1, Send(c));
    RunCons(s2, Recv(c), []);
    RunCons(s1, Send(c), [Recv(c)] + []);
    RunCons(s, Begin(c, req), [Send(c)] + ([Recv(c)] + []));
  }

  lemma ServedThenCall(s: Sys, c: Cid, first: Rec, req: Rec)
    requires c in s.calls && s.calls[c].pc == Out && IsCommand(first) && IsCommand(req)
    requires s.toServer == [first] && s.inHand == s.toClient == []
    ensures var ls := [ServerRecv] + ([ServerSend] + SecondCall(c, req));
            && Legal(s, ls)
            && var s' := Run(s, ls);
               && s'.received == s.received + [Answer(first)] && s'.sent == s.sent + [req]
               && c in s'.calls && s'.calls[c].rc == if first.addr == req.addr then 0 else -1
  {
    var s1 := Apply(s, ServerRecv);
    var s2 := Apply(s1, ServerSend);
    SecondCallRuns(s2, c, req);
    RunCons(s1, ServerSend, SecondCall(c, req));
    RunCons(s, ServerRecv, [ServerSend] + SecondCall(c, req));
  }

  /** From every initial state: after one failed receive the next call, alone on the connection and
      without failures of its own, gets the answer to the request before it. It succeeds only if
      both were for one address. */
  lemma FailedReceiveShifts(s0: Sys, c: Cid, first: Rec, second: Rec)
    requires Init(s0) && c in s0.calls && IsCommand(first) && IsCommand(second)
    ensures Legal(s0, FailedThenCall(c, first, second))
    ensures var s := Run(s0, FailedThenCall(c, first, second));
            && s.received == [Answer(first)] && s.sent == [first, second]
            && c in s.calls && s.calls[c].rc == if first.addr == second.addr then 0 else -1
  {
    var s1 := Apply(s0, Begin(c, first));
    var s2 := Apply(s1, Send(c));
    var s3 := Apply(s2, RecvFail(c));
    assert c in s3.calls && s3.calls[c].pc == Out && s3.toServer == [first] && s3.inHand == s3.toClient == [];
    var rest := SecondCall(c, second);
    ServedThenCall(s3, c, first, second);
    RunCons(s2, RecvFail(c), [ServerRecv] + ([ServerSend] + rest));
    RunCons(s1, Send(c), [RecvFail(c)] + ([ServerRecv] + ([ServerSend] + rest)));
    RunCons(s0, Begin(c, first), [Send(c)] + ([RecvFail(c)] + ([ServerRecv] + ([ServerSend] + rest))));
  }
}
