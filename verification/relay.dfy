/** The socket.io relay of server.js as a functional state machine: the
    handshake admits a socket under the identity in its token, `register` and
    `logout` join and leave rooms, `sendMessage` persists and then fans out, and
    the five call-signalling events are forwarded to a room minus the sender. */
module Relay {
  import opened Common

  type SocketId = string

  /** Rooms are named by whatever string a client passes to `register`. */
  type RoomId = string

  /** Opaque call-setup data (SDP offers and answers, ICE candidates, caller
      names) that the server forwards without looking inside. */
  type Blob = string

  /** A stored chat message. `id` is its position in the log; `timestamp` is the
      clock reading when it was saved. */
  datatype Message = Message(id: nat, sender: UserId, receiver: RoomId, content: string, timestamp: int)

  /** `identity` holds `socket.userId` of every admitted socket, `rooms` the
      socket.io room table, and `log` the message collection in insertion order. */
  datatype State = State(identity: map<SocketId, UserId>, rooms: map<RoomId, set<SocketId>>, log: seq<Message>)

  const Initial := State(map[], map[], [])

  /** The sockets currently in a room; an unknown room is empty. */
  function Members(st: State, room: RoomId): set<SocketId>
  {
    if room in st.rooms then st.rooms[room] else {}
  }

  /** Rooms hold only admitted sockets and are never empty, and every message's
      id is its position in the log. */
  predicate WellFormed(st: State)
  {
    && (forall room :: room in st.rooms ==> st.rooms[room] != {} && st.rooms[room] <= st.identity.Keys)
    && (forall i :: 0 <= i < |st.log| ==> st.log[i].id == i)
  }

  /** Messages were saved with non-decreasing timestamps. */
  predicate TimeOrdered(log: seq<Message>)
  {
    forall i, j :: 0 <= i < j < |log| ==> log[i].timestamp <= log[j].timestamp
  }

  // ---------------------------------------------------------------- handshake

  datatype AuthFailure = NoToken | InvalidToken

  datatype Admission = Admitted(next: State) | Refused(reason: AuthFailure)

  /** The `io.use` middleware: a missing or empty token and a token the
      verifier rejects are refused before any handler exists; otherwise the
      socket is admitted with `socket.userId` set to the id in the token. */
  function Handshake(st: State, sid: SocketId, token: Option<Token>, verify: Verifier): (r: Admission)
    ensures r.Admitted? <==> Truthy(token) && verify(token.value).Some?
    ensures !Truthy(token) ==> r == Refused(NoToken)
    ensures Truthy(token) && verify(token.value).None? ==> r == Refused(InvalidToken)
    ensures r.Admitted? ==> && r.next.identity.Keys == st.identity.Keys + {sid}
                            && r.next.identity[sid] == verify(token.value).value
                            && (forall s :: s in st.identity && s != sid ==> r.next.identity[s] == st.identity[s])
                            && r.next.rooms == st.rooms && r.next.log == st.log
  {
    if !Truthy(token) then Refused(NoToken)
    else
      match verify(token.value)
      case None => Refused(InvalidToken)
      case Some(id) => Admitted(st.(identity := st.identity[sid := id]))
  }

  // ------------------------------------------------------------ room handlers

  /** `register(userId)`: the socket joins the room of that name. Nothing
      compares the name with the socket's own identity. */
  function Register(st: State, sid: SocketId, room: RoomId): (r: State)
    requires sid in st.identity
    ensures Members(r, room) == Members(st, room) + {sid}
    ensures forall q :: q != room ==> Members(r, q) == Members(st, q)
    ensures r.identity == st.identity && r.log == st.log
    ensures WellFormed(st) ==> WellFormed(r)
  {
    st.(rooms := st.rooms[room := Members(st, room) + {sid}])
  }

  /** `logout({userId})`: the socket leaves that room; a room left empty is
      dropped from the table. */
  function Logout(st: State, sid: SocketId, room: RoomId): (r: State)
    requires sid in st.identity
    ensures Members(r, room) == Members(st, room) - {sid}
    ensures forall q :: q != room ==> Members(r, q) == Members(st, q)
    ensures r.identity == st.identity && r.log == st.log
    ensures WellFormed(st) ==> WellFormed(r)
  {
    var left := Members(st, room) - {sid};
    if left == {} then st.(rooms := st.rooms - {room})
    else st.(rooms := st.rooms[room := left])
  }

  /** Leaving a room the socket never joined changes nothing. */
  lemma LogoutOfUnjoinedRoomIsNoop(st: State, sid: SocketId, room: RoomId)
    requires WellFormed(st) && sid in st.identity
    requires sid !in Members(st, room)
    ensures Logout(st, sid, room) == st
  {
    if room in st.rooms {
      assert Members(st, room) - {sid} == st.rooms[room];
      assert st.rooms[room := st.rooms[room]] == st.rooms;
    } else {
      assert st.rooms - {room} == st.rooms;
    }
  }

  /** `register` followed by `logout` of the same room restores the state,
      provided the socket was not already in that room. */
  lemma LogoutUndoesRegister(st: State, sid: SocketId, room: RoomId)
    requires WellFormed(st) && sid in st.identity
    requires sid !in Members(st, room)
    ensures Logout(Register(st, sid, room), sid, room) == st
  {
    var mid := Register(st, sid, room);
    assert Members(mid, room) - {sid} == Members(st, room);
    if room in st.rooms {
      assert mid.rooms[room := st.rooms[room]] == st.rooms;
    } else {
      assert mid.rooms - {room} == st.rooms;
    }
  }

  // ------------------------------------------------------------------ chat

  /** Outbound events and the data they carry. */
  datatype Outbound =
    | MessageEvent(msg: Message)
    | OfferEvent(offer: Blob, to: RoomId)
    | AnswerEvent(answer: Blob)
    | IceCandidateEvent(candidate: Blob)
    | IncomingCallEvent(from: Blob, to: RoomId)
    | CallEndedEvent

  /** One `emit` to a set of sockets. */
  datatype Emission = Emission(targets: set<SocketId>, event: Outbound)

  /** A handler's effect: the next state and the emits in the order made. */
  datatype Step = Step(next: State, emitted: seq<Emission>)

  /** The `sendMessage` payload. Only `receiver` and `content` are read; a
      `sender` the client may include is ignored. */
  datatype ChatPayload = ChatPayload(receiver: RoomId, content: string, claimedSender: Option<UserId>)

  /** How many emits reach socket `s`. */
  function Deliveries(emitted: seq<Emission>, s: SocketId): (n: nat)
    ensures n <= |emitted|
    ensures n == 0 <==> forall k :: 0 <= k < |emitted| ==> s !in emitted[k].targets
  {
    if emitted == [] then 0
    else (if s in emitted[0].targets then 1 else 0) + Deliveries(emitted[1..], s)
  }

  /** `sendMessage`: destructuring an absent payload throws, and a failed
      `save` throws; either is caught and nothing is stored or emitted. After a
      successful save the stored message goes to room `receiver` and then to
      room `sender`, where `sender` is the socket's handshake identity. */
  function SendMessage(st: State, sid: SocketId, payload: Option<ChatPayload>, saved: bool, now: int): (r: Step)
    requires sid in st.identity
    ensures r.next.identity == st.identity && r.next.rooms == st.rooms
    ensures st.log <= r.next.log
    ensures r.emitted != [] <==> payload.Some? && saved
    ensures r.emitted == [] ==> r.next.log == st.log
    ensures r.emitted != [] ==>
      && |r.next.log| == |st.log| + 1
      && var m := r.next.log[|st.log|];
      && m == Message(|st.log|, st.identity[sid], payload.value.receiver, payload.value.content, now)
      && forall k :: 0 <= k < |r.emitted| ==> r.emitted[k].event == MessageEvent(m)
    ensures WellFormed(st) ==> WellFormed(r.next)
  {
    match payload
    case None => Step(st, [])
    case Some(p) =>
      if !saved then Step(st, [])
      else
        var sender := st.identity[sid];
        var m := Message(|st.log|, sender, p.receiver, p.content, now);
        Step(st.(log := st.log + [m]),
             [Emission(Members(st, p.receiver), MessageEvent(m)),
              Emission(Members(st, sender), MessageEvent(m))])
  }

  /** A saved message reaches exactly the sockets in the receiver's room and
      in the sender's own room, once per room that holds them. */
  lemma SendMessageReachesBothRooms(st: State, sid: SocketId, p: ChatPayload, now: int, s: SocketId)
    requires sid in st.identity
    ensures var r := SendMessage(st, sid, Some(p), true, now);
            && (Deliveries(r.emitted, s) > 0 <==> s in Members(st, p.receiver) + Members(st, st.identity[sid]))
            && (Deliveries(r.emitted, s) == 2 <==> s in Members(st, p.receiver) * Members(st, st.identity[sid]))
  {
    var r := SendMessage(st, sid, Some(p), true, now);
    assert r.emitted[1..][1..] == [];
  }

  /** The stored sender is the handshake identity whatever the payload claims. */
  lemma SenderIsHandshakeIdentity(st: State, sid: SocketId, p: ChatPayload, q: ChatPayload, saved: bool, now: int)
    requires sid in st.identity
    requires p.receiver == q.receiver && p.content == q.content
    ensures SendMessage(st, sid, Some(p), saved, now) == SendMessage(st, sid, Some(q), saved, now)
  {
  }

  /** `register` does not check the room name against the socket's identity,
      so a socket can join another user's room and then receive every message
      sent to that user. */
  lemma RegisterLetsAnySocketListen(st: State, sid: SocketId, other: SocketId, p: ChatPayload, now: int)
    requires sid in st.identity && other in st.identity
    requires st.identity[sid] != p.receiver
    ensures sid in Members(Register(st, sid, p.receiver), p.receiver)
    ensures Deliveries(SendMessage(Register(st, sid, p.receiver), other, Some(p), true, now).emitted, sid) > 0
  {
    SendMessageReachesBothRooms(Register(st, sid, p.receiver), other, p, now, sid);
  }

  // -------------------------------------------------------------- signalling

  /** The five call-signalling events, each addressed to a room `to`. */
  datatype Signal =
    | Offer(to: RoomId, offer: Blob)
    | Answer(to: RoomId, answer: Blob)
    | IceCandidate(to: RoomId, candidate: Blob)
    | IncomingCall(from: Blob, to: RoomId)
    | CallEnded(to: RoomId)

  /** The event name each handler listens on; it re-emits under the same name. */
  function SignalName(sig: Signal): string
  {
    match sig
    case Offer(_, _) => "offer"
    case Answer(_, _) => "answer"
    case IceCandidate(_, _) => "iceCandidate"
    case IncomingCall(_, _) => "incomingCall"
    case CallEnded(_) => "callEnded"
  }

  /** The name an outbound event is emitted under. */
  function EventName(o: Outbound): string
  {
    match o
    case MessageEvent(_) => "message"
    case OfferEvent(_, _) => "offer"
    case AnswerEvent(_) => "answer"
    case IceCandidateEvent(_) => "iceCandidate"
    case IncomingCallEvent(_, _) => "incomingCall"
    case CallEndedEvent => "callEnded"
  }

  /** What each signalling handler forwards: `offer` keeps `to`, `answer` and
      `iceCandidate` forward only their data, `incomingCall` forwards the
      client-supplied `from` unchecked, `callEnded` forwards nothing. */
  function Forwarded(sig: Signal): (r: Outbound)
    ensures EventName(r) == SignalName(sig)
    ensures sig.Offer? ==> r.offer == sig.offer && r.to == sig.to
    ensures sig.Answer? ==> r.answer == sig.answer
    ensures sig.IceCandidate? ==> r.candidate == sig.candidate
    ensures sig.IncomingCall? ==> r.from == sig.from && r.to == sig.to
  {
    match sig
    case Offer(to, offer) => OfferEvent(offer, to)
    case Answer(_, answer) => AnswerEvent(answer)
    case IceCandidate(_, candidate) => IceCandidateEvent(candidate)
    case IncomingCall(from, to) => IncomingCallEvent(from, to)
    case CallEnded(_) => CallEndedEvent
  }

  /** `socket.to(to).emit(...)`: one emit to room `to` without the emitting
      socket; nothing is stored and no room changes. */
  function Signalling(st: State, sid: SocketId, sig: Signal): (r: Step)
    requires sid in st.identity
    ensures r.next == st
    ensures forall s :: Deliveries(r.emitted, s) == (if s in Members(st, sig.to) && s != sid then 1 else 0)
    ensures forall k :: 0 <= k < |r.emitted| ==> r.emitted[k].event == Forwarded(sig)
  {
    Step(st, [Emission(Members(st, sig.to) - {sid}, Forwarded(sig))])
  }

  /** A signal to a room nobody is in reaches no socket and raises nothing. */
  lemma SignalToEmptyRoomReachesNobody(st: State, sid: SocketId, sig: Signal, s: SocketId)
    requires sid in st.identity && Members(st, sig.to) == {}
    ensures Deliveries(Signalling(st, sid, sig).emitted, s) == 0
    ensures Signalling(st, sid, sig).next == st
  {
  }

  // ------------------------------------------------------------ dispatching

  /** The events a connected socket can send. The argument of a signalling
      event or of `logout` may be missing (`undefined` or `null`). */
  datatype Inbound =
    | RegisterEvent(userId: RoomId)
    | SendMessageEvent(payload: Option<ChatPayload>)
    | SignalEvent(data: Option<Signal>)
    | LogoutEvent(arg: Option<RoomId>)

  /** What the environment decides for one event: whether `save` succeeds and
      what the clock reads. */
  datatype Env = Env(saved: bool, now: int)

  /** A handler either runs to completion or throws out of the handler. */
  datatype Dispatch = Handled(step: Step) | Threw

  /** The `connection` handler's dispatch of one event from an admitted socket.
      The signalling handlers read `data.to` (or destructure their argument)
      and `logout` destructures `{ userId }`, all outside any `try`, so a
      missing argument throws a TypeError before any room is touched.
      `sendMessage` catches its own errors. */
  function Handle(st: State, sid: SocketId, ev: Inbound, env: Env): (r: Dispatch)
    requires sid in st.identity
    ensures r.Threw? <==> (ev.SignalEvent? && ev.data.None?) || (ev.LogoutEvent? && ev.arg.None?)
    ensures r.Handled? ==> r.step.next.identity == st.identity
    ensures r.Handled? ==> st.log <= r.step.next.log
    ensures r.Handled? && !ev.SendMessageEvent? ==> r.step.next.log == st.log
    ensures r.Handled? && WellFormed(st) ==> WellFormed(r.step.next)
  {
    match ev
    case RegisterEvent(room) => Handled(Step(Register(st, sid, room), []))
    case SendMessageEvent(payload) => Handled(SendMessage(st, sid, payload, env.saved, env.now))
    case SignalEvent(data) =>
      (match data
       case None => Threw
       case Some(sig) => Handled(Signalling(st, sid, sig)))
    case LogoutEvent(data) =>
      (match data
       case None => Threw
       case Some(room) => Handled(Step(Logout(st, sid, room), [])))
  }

  /** One thing that can happen on the server: a connection attempt with a
      handshake token, or an event on a socket. */
  datatype Action =
    | Connect(sid: SocketId, token: Option<Token>)
    | Event(sid: SocketId, ev: Inbound, env: Env)

  /** One action's effect on the state. socket.io gives every connection a
      fresh socket id, so a connection reusing an admitted id cannot happen
      and is dropped. A refused connection leaves no trace; events only
      arrive on admitted sockets, so an event naming any other socket is
      dropped; a handler that throws leaves the state as it was. */
  function Apply(st: State, a: Action, verify: Verifier): (r: State)
    ensures st.log <= r.log
    ensures !(a.Event? && a.ev.SendMessageEvent?) ==> r.log == st.log
    ensures WellFormed(st) ==> WellFormed(r)
    ensures a.Connect? && a.sid in st.identity ==> r == st
    ensures a.Connect? && a.sid !in st.identity ==>
              r == (if Handshake(st, a.sid, a.token, verify).Admitted?
                    then Handshake(st, a.sid, a.token, verify).next else st)
    ensures a.Event? && a.sid !in st.identity ==> r == st
    ensures a.Event? && a.sid in st.identity ==>
              r == (if Handle(st, a.sid, a.ev, a.env).Handled?
                    then Handle(st, a.sid, a.ev, a.env).step.next else st)
  {
    match a
    case Connect(sid, token) =>
      if sid in st.identity then st
      else
        (match Handshake(st, sid, token, verify)
         case Admitted(s) => s
         case Refused(_) => st)
    case Event(sid, ev, env) =>
      if sid !in st.identity then st
      else
        match Handle(st, sid, ev, env)
        case Handled(step) => step.next
        case Threw => st
  }

  /** The state after a sequence of actions. */
  function Run(st: State, actions: seq<Action>, verify: Verifier): State
    decreases |actions|
  {
    if actions == [] then st else Run(Apply(st, actions[0], verify), actions[1..], verify)
  }

  /** Every reachable state is well formed, and its log only grows. */
  lemma {:induction false} RunPreservesWellFormed(st: State, actions: seq<Action>, verify: Verifier)
    requires WellFormed(st)
    ensures WellFormed(Run(st, actions, verify))
    ensures st.log <= Run(st, actions, verify).log
    decreases |actions|
  {
    if actions != [] {
      RunPreservesWellFormed(Apply(st, actions[0], verify), actions[1..], verify);
    }
  }

  /** The server starts with no sockets, no rooms and no messages, which is
      well formed, so every state reachable from start is well formed. */
  lemma ReachableStatesWellFormed(actions: seq<Action>, verify: Verifier)
    ensures WellFormed(Run(Initial, actions, verify))
  {
    RunPreservesWellFormed(Initial, actions, verify);
  }

  /** Only chat messages reach the log: a run of connections and non-chat
      events stores nothing. */
  lemma {:induction false} SignallingIsNeverStored(st: State, actions: seq<Action>, verify: Verifier)
    requires forall k :: 0 <= k < |actions| ==> !(actions[k].Event? && actions[k].ev.SendMessageEvent?)
    ensures Run(st, actions, verify).log == st.log
    decreases |actions|
  {
    if actions != [] {
      SignallingIsNeverStored(Apply(st, actions[0], verify), actions[1..], verify);
    }
  }

  /** With a clock that never runs backwards, the log stays in timestamp order. */
  lemma SendMessageKeepsTimeOrder(st: State, sid: SocketId, payload: Option<ChatPayload>, saved: bool, now: int)
    requires sid in st.identity && TimeOrdered(st.log)
    requires forall i :: 0 <= i < |st.log| ==> st.log[i].timestamp <= now
    ensures TimeOrdered(SendMessage(st, sid, payload, saved, now).next.log)
  {
  }
}
