/**
 The Genesys AudioHook session (flowcat-telephony/src/genesys.rs): handshake replies and the audio
 gate, as functions of the messages received.
 */
module AudioHook {
  import opened Text
  import opened Latch

  /** A JSON message; `seqNo` and `kind` are its `seq` and `type` fields. */
  datatype Message = Message(seqNo: Option<nat>, kind: Option<string>, id: Option<string>,
                             conversationId: Option<string>)

  /** `Malformed` is text that is not JSON. */
  datatype WsIn = Binary(bytes: seq<bv8>) | Closed | Malformed | Json(message: Message)

  datatype SerIn =
    | StreamStart(callId: string, streamId: Option<string>)
    | Audio(bytes: seq<bv8>, rate: nat)
    | Ignore
    | Stop

  datatype Kind = Opened | Pong | Hangup

  datatype Reply = Reply(kind: Kind, seqNo: nat, clientSeq: nat, id: string)

  predicate Is(m: WsIn, kind: string) {
    m.Json? && m.message.kind == Some(kind)
  }

  predicate SetsOpen(before: seq<WsIn>, m: WsIn) {
    Is(m, "open")
  }

  predicate ClearsOpen(m: WsIn) {
    Is(m, "close")
  }

  predicate SetsPause(before: seq<WsIn>, m: WsIn) {
    Is(m, "pause")
  }

  predicate ClearsPause(m: WsIn) {
    Is(m, "resume")
  }

  /** The latest of `open` and `close` is an `open`. */
  ghost predicate IsOpen(h: seq<WsIn>) {
    Latched(h, SetsOpen, ClearsOpen)
  }

  /** The latest of `pause` and `resume` is a `pause`. */
  ghost predicate IsPaused(h: seq<WsIn>) {
    Latched(h, SetsPause, ClearsPause)
  }

  lemma {:induction false} GateStep(h: seq<WsIn>, m: WsIn)
    ensures IsOpen(h + [m]) <==> Is(m, "open") || (IsOpen(h) && !Is(m, "close"))
    ensures IsPaused(h + [m]) <==> Is(m, "pause") || (IsPaused(h) && !Is(m, "resume"))
  {
    LatchedStep(h, m, SetsOpen, ClearsOpen);
    LatchedStep(h, m, SetsPause, ClearsPause);
  }

  /** The last sequence number the client sent. */
  function ClientSeq(h: seq<WsIn>): nat {
    if h == [] then 0
    else
      var m := h[|h| - 1];
      if m.Json? && m.message.seqNo.Some? then m.message.seqNo.value else ClientSeq(h[..|h| - 1])
  }

  /** The id of the latest `open`. */
  function SessionId(h: seq<WsIn>): Option<string> {
    if h == [] then None
    else if Is(h[|h| - 1], "open") then h[|h| - 1].message.id
    else SessionId(h[..|h| - 1])
  }

  function OrEmpty(s: Option<string>): string {
    if s.Some? then s.value else ""
  }

  function ReplyKind(m: WsIn): Option<Kind> {
    if Is(m, "open") then Some(Opened)
    else if Is(m, "ping") then Some(Pong)
    else if Is(m, "close") then Some(Hangup)
    else None
  }

  /** What each kind of reply answers: an open, a ping, a close. */
  lemma {:induction false} ReplyKindIs(m: WsIn)
    ensures ReplyKind(m) == Some(Opened) <==> Is(m, "open")
    ensures ReplyKind(m) == Some(Pong) <==> Is(m, "ping")
    ensures ReplyKind(m) == Some(Hangup) <==> Is(m, "close")
  {
    KindsDiffer();
  }

  lemma {:induction false} KindsDiffer()
    ensures "open" != "ping" && "open" != "close" && "ping" != "close"
  {
    assert "open"[0] != "ping"[0] && "open"[0] != "close"[0] && "ping"[0] != "close"[0];
  }

  /** One reply to every `open`, `ping` and `close`, numbered from 1, with the client's number and
      the session's id as they stand after the message replied to. */
  function Replies(h: seq<WsIn>): seq<Reply> {
    if h == [] then []
    else
      var before, kind := Replies(h[..|h| - 1]), ReplyKind(h[|h| - 1]);
      if kind.None? then before
      else before + [Reply(kind.value, |before| + 1, ClientSeq(h), OrEmpty(SessionId(h)))]
  }

  /** What one more message does to the records of the history. */
  lemma {:induction false} RecordStep(h: seq<WsIn>, m: WsIn)
    ensures ClientSeq(h + [m]) == if m.Json? && m.message.seqNo.Some? then m.message.seqNo.value else ClientSeq(h)
    ensures SessionId(h + [m]) == if Is(m, "open") then m.message.id else SessionId(h)
    ensures Replies(h + [m]) == Replies(h)
              + (if ReplyKind(m).None? then []
                 else [Reply(ReplyKind(m).value, |Replies(h)| + 1, ClientSeq(h + [m]), OrEmpty(SessionId(h + [m])))])
  {
    assert (h + [m])[..|h|] == h;
  }

  lemma {:induction false} RepliesAreNumbered(h: seq<WsIn>, i: nat)
    requires i < |Replies(h)|
    ensures Replies(h)[i].seqNo == i + 1
    ensures exists n ::
              && 0 <= n < |h| && ReplyKind(h[n]) == Some(Replies(h)[i].kind)
              && Replies(h)[i].clientSeq == ClientSeq(h[..n + 1])
              && Replies(h)[i].id == OrEmpty(SessionId(h[..n + 1]))
  {
    var front := h[..|h| - 1];
    if i < |Replies(front)| {
      RepliesAreNumbered(front, i);
      var n :| 0 <= n < |front| && ReplyKind(front[n]) == Some(Replies(front)[i].kind)
               && Replies(front)[i].clientSeq == ClientSeq(front[..n + 1])
               && Replies(front)[i].id == OrEmpty(SessionId(front[..n + 1]));
      assert h[..n + 1] == front[..n + 1] && h[n] == front[n];
    } else {
      assert h[..|h| - 1 + 1] == h;
    }
  }

  /** Every `open`, `ping` and `close` has its reply, at the number of replies before it. */
  lemma {:induction false} EveryRequestIsAnswered(h: seq<WsIn>, n: nat)
    requires n < |h| && (Is(h[n], "open") || Is(h[n], "ping") || Is(h[n], "close"))
    ensures var i := |Replies(h[..n])|;
            && i < |Replies(h)| && Replies(h)[i].clientSeq == ClientSeq(h[..n + 1])
            && Replies(h)[i].kind == if Is(h[n], "open") then Opened else if Is(h[n], "ping") then Pong else Hangup
  {
    ReplyKindIs(h[n]);
    if n == |h| - 1 {
      assert h[..n + 1] == h;
    } else {
      var front := h[..|h| - 1];
      EveryRequestIsAnswered(front, n);
      assert front[..n] == h[..n] && front[..n + 1] == h[..n + 1];
    }
  }

  /** Every `opened` reply announces `startPaused: false`; audio flows after an `open` exactly when no
      pause is left over from before it. */
  lemma {:induction false} OpenedFlowsIff(h: seq<WsIn>, open: WsIn)
    requires Is(open, "open")
    ensures IsOpen(h + [open]) && !IsPaused(h + [open]) <==> !IsPaused(h)
  {
    GateStep(h, open);
  }

  /** A pause does survive a close and a new open. */
  lemma {:induction false} PauseSurvivesReopening(open: WsIn, pause: WsIn, close: WsIn)
    requires Is(open, "open") && Is(pause, "pause") && Is(close, "close")
    ensures IsOpen([open, pause, close, open]) && IsPaused([open, pause, close, open])
  {
    GateStep([open], pause);
    GateStep([open, pause], close);
    GateStep([open, pause, close], open);
    assert [open] + [pause] == [open, pause] && [open, pause] + [close] == [open, pause, close];
    assert [open, pause, close] + [open] == [open, pause, close, open];
  }

  class GenesysSerializer {
    const rate: nat
    var sessionId: Option<string>
    var isOpen: bool
    var isPaused: bool
    var serverSeq: nat
    var clientSeq: nat
    var pending: seq<Reply>
    ghost var heard: seq<WsIn>
    ghost var drained: seq<Reply>

    /** The fields are functions of the messages heard, and no reply is lost between two drains. */
    ghost predicate Valid()
      reads this
    {
      && isOpen == IsOpen(heard)
      && isPaused == IsPaused(heard)
      && clientSeq == ClientSeq(heard)
      && sessionId == SessionId(heard)
      && drained + pending == Replies(heard)
      && serverSeq == |Replies(heard)|
    }

    constructor (rate: nat)
      ensures Valid() && this.rate == rate && heard == [] && drained == []
    {
      this.rate := rate;
      sessionId, isOpen, isPaused, serverSeq, clientSeq, pending := None, false, false, 0, 0, [];
      heard, drained := [], [];
    }

    /** `take_responses` */
    method TakeResponses() returns (out: seq<Reply>)
      requires Valid()
      modifies this`pending, this`drained
      ensures Valid() && pending == [] && drained == old(drained) + out
      ensures drained == Replies(heard)
    {
      out := pending;
      pending, drained := [], drained + pending;
      assert drained + [] == drained;
    }

    /** `message` and the push after it. */
    method Queue(kind: Kind)
      modifies this`serverSeq, this`pending
      ensures serverSeq == old(serverSeq) + 1
      ensures pending == old(pending) + [Reply(kind, serverSeq, clientSeq, OrEmpty(sessionId))]
    {
      serverSeq := serverSeq + 1;
      pending := pending + [Reply(kind, serverSeq, clientSeq, OrEmpty(sessionId))];
    }

    /** The replies and their numbers after one more message. */
    lemma QueuedIs(msg: WsIn, answer: seq<Reply>)
      requires Valid()
      requires answer == if ReplyKind(msg).None? then []
                         else [Reply(ReplyKind(msg).value, serverSeq + 1, ClientSeq(heard + [msg]),
                                     OrEmpty(SessionId(heard + [msg])))]
      ensures drained + (pending + answer) == Replies(heard + [msg]) && serverSeq + |answer| == |Replies(heard + [msg])|
      ensures answer == [] ==> pending + answer == pending
    {
      RecordStep(heard, msg);
      Associates(drained, pending, answer);
    }

    /** `on_message` */
    method OnMessage(msg: WsIn) returns (r: SerIn)
      requires Valid()
      modifies this`sessionId, this`isOpen, this`isPaused, this`serverSeq, this`clientSeq, this`pending, this`heard
      ensures Valid() && heard == old(heard) + [msg]
      ensures clientSeq == if msg.Json? && msg.message.seqNo.Some? then msg.message.seqNo.value else old(clientSeq)
      ensures sessionId == if Is(msg, "open") then msg.message.id else old(sessionId)
      ensures var kinds := if Is(msg, "open") then [Opened] else if Is(msg, "ping") then [Pong]
                           else if Is(msg, "close") then [Hangup] else [];
              && serverSeq == old(serverSeq) + |kinds|
              && pending == old(pending) + if kinds == [] then []
                                           else [Reply(kinds[0], serverSeq, clientSeq,
                                                       if sessionId.Some? then sessionId.value else "")]
      ensures r.Audio? <==> msg.Binary? && IsOpen(heard) && !IsPaused(heard)
      ensures r.Audio? ==> r == Audio(msg.bytes, rate)
      ensures r.Stop? <==> msg.Closed? || Is(msg, "close")
      ensures r.StreamStart? <==> Is(msg, "open")
      ensures r.StreamStart? ==>
                var named := msg.message.conversationId;
                r == StreamStart(OrEmpty(if named.Some? then named else SessionId(heard)), SessionId(heard))
    {
      hide Latched;
      hide ClientSeq;
      hide SessionId;
      hide Replies;
      GateStep(heard, msg);
      RecordStep(heard, msg);
      ghost var more := heard + [msg];
      ghost var answer := if ReplyKind(msg).None? then []
                          else [Reply(ReplyKind(msg).value, serverSeq + 1, ClientSeq(more), OrEmpty(SessionId(more)))];
      QueuedIs(msg, answer);
      match msg {
        case Binary(bytes) =>
          r := if !isOpen || isPaused then Ignore else Audio(bytes, rate);
        case Closed =>
          r := Stop;
        case Malformed =>
          r := Ignore;
        case Json(m) =>
          r := OnText(m);
      }
      assert pending == old(pending) + answer;
      heard := more;
    }

    /** The part of `on_message` for a JSON text. */
    method OnText(m: Message) returns (r: SerIn)
      modifies this`sessionId, this`isOpen, this`isPaused, this`serverSeq, this`clientSeq, this`pending
      ensures clientSeq == if m.seqNo.Some? then m.seqNo.value else old(clientSeq)
      ensures sessionId == if m.kind == Some("open") then m.id else old(sessionId)
      ensures isOpen == (m.kind == Some("open") || (old(isOpen) && m.kind != Some("close")))
      ensures isPaused == (m.kind == Some("pause") || (old(isPaused) && m.kind != Some("resume")))
      ensures var kind := ReplyKind(Json(m));
              && serverSeq == old(serverSeq) + (if kind.None? then 0 else 1)
              && pending == old(pending)
                   + (if kind.None? then [] else [Reply(kind.value, serverSeq, clientSeq, OrEmpty(sessionId))])
      ensures r == if m.kind == Some("open")
                   then StreamStart(OrEmpty(if m.conversationId.Some? then m.conversationId else m.id), m.id)
                   else if m.kind == Some("close") then Stop
                   else Ignore
    {
      if m.seqNo.Some? {
        clientSeq := m.seqNo.value;
      }
      if m.kind == Some("open") {
        sessionId := m.id;
        isOpen := true;
        Queue(Opened);
        return StreamStart(OrEmpty(if m.conversationId.Some? then m.conversationId else m.id), m.id);
      } else if m.kind == Some("ping") {
        Queue(Pong);
        return Ignore;
      } else if m.kind == Some("close") {
        isOpen := false;
        Queue(Hangup);
        return Stop;
      } else if m.kind == Some("pause") {
        isPaused := true;
      } else if m.kind == Some("resume") {
        isPaused := false;
      }
      return Ignore;
    }
  }
}
