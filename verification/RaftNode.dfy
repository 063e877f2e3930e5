/** One Raft server: the state it keeps and what each input does to it.  The functions
    take the whole node value; `RaftNode` is the object that updates its fields in place
    and is proved against them.  Election timeouts are drawn from a generator, so every
    operation that draws one takes it as a parameter. */
module RaftServer {
  import opened Codec
  import opened Rpc

  type NodeId = nat

  datatype Role = Follower | Candidate | Leader

  datatype Node = Node(self: NodeId, peers: seq<NodeId>, role: Role, term: nat,
                       votedFor: Option<NodeId>, votes: set<NodeId>,
                       electionTicks: nat, heartbeatTicks: nat)

  const HEARTBEAT_INTERVAL: nat := 3

  /** The method names, as the ASCII bytes the server's handler table is keyed by. */
  const REQUEST_VOTE: Bytes := [82, 101, 113, 117, 101, 115, 116, 86, 111, 116, 101]
  const HEARTBEAT: Bytes := [72, 101, 97, 114, 116, 98, 101, 97, 116]
  const MALFORMED: Bytes :=
    [77, 97, 108, 102, 111, 114, 109, 101, 100, 32, 114, 101, 113, 117, 101, 115, 116]
  const UNKNOWN_METHOD: Bytes :=
    [85, 110, 107, 110, 111, 119, 110, 32, 109, 101, 116, 104, 111, 100, 58, 32]

  // ---- payloads ----

  /** A vote request and a heartbeat carry the same two fields. */
  function EncodeTermAndId(term: nat, id: NodeId): Bytes
  {
    BigEndian(8, term) + BigEndian(4, id)
  }

  function DecodeTermAndId(s: Bytes): Option<(nat, NodeId)>
  {
    match TakeNat(8, s)
    case Fail => None
    case Got(term, s1) =>
      match TakeNat(4, s1)
      case Fail => None
      case Got(id, s2) => if s2 == [] then Some((term, id)) else None
  }

  /** A vote response and a heartbeat acknowledgement carry the same two fields. */
  function EncodeAnswer(term: nat, yes: bool): Bytes
  {
    BigEndian(8, term) + BigEndian(1, if yes then 1 else 0)
  }

  function DecodeAnswer(s: Bytes): Option<(nat, bool)>
  {
    match TakeNat(8, s)
    case Fail => None
    case Got(term, s1) =>
      match TakeNat(1, s1)
      case Fail => None
      case Got(g, s2) => if s2 == [] then Some((term, g != 0)) else None
  }

  lemma TermAndIdRoundTrip(term: nat, id: NodeId)
    requires term < U64 && id < U32
    ensures DecodeTermAndId(EncodeTermAndId(term, id)) == Some((term, id))
  {
    Widths();
    NatRoundTrip(8, term, BigEndian(4, id));
    NatRoundTrip(4, id, []);
    assert BigEndian(4, id) + [] == BigEndian(4, id);
  }

  lemma AnswerRoundTrip(term: nat, yes: bool)
    requires term < U64
    ensures DecodeAnswer(EncodeAnswer(term, yes)) == Some((term, yes))
  {
    var g := if yes then 1 else 0;
    Widths();
    NatRoundTrip(8, term, BigEndian(1, g));
    NatRoundTrip(1, g, []);
    assert BigEndian(1, g) + [] == BigEndian(1, g);
  }

  // ---- what a node does ----

  function BecomeFollower(n: Node, term: nat): Node
  {
    n.(term := term, role := Follower, votedFor := None, votes := {})
  }

  function OnVoteRequest(n: Node, term: nat, candidate: NodeId, timeout: nat): (Node, bool)
  {
    var n1 := if term > n.term then BecomeFollower(n, term) else n;
    if term == n1.term && (n1.votedFor.None? || n1.votedFor.value == candidate) then
      (n1.(votedFor := Some(candidate), electionTicks := timeout), true)
    else
      (n1, false)
  }

  function OnHeartbeat(n: Node, term: nat, timeout: nat): (Node, bool)
  {
    if term < n.term then
      (n, false)
    else
      var n1 := if term > n.term || n.role != Follower then BecomeFollower(n, term) else n;
      (n1.(electionTicks := timeout), true)
  }

  function HandleRequestVote(n: Node, payload: Bytes, timeout: nat): (Node, Bytes)
  {
    match DecodeTermAndId(payload)
    case None => (n, EncodeAnswer(n.term, false))
    case Some((term, candidate)) =>
      var (n1, granted) := OnVoteRequest(n, term, candidate, timeout);
      (n1, EncodeAnswer(n1.term, granted))
  }

  function HandleHeartbeat(n: Node, payload: Bytes, timeout: nat): (Node, Bytes)
  {
    match DecodeTermAndId(payload)
    case None => (n, EncodeAnswer(n.term, false))
    case Some((term, _)) =>
      var (n1, accepted) := OnHeartbeat(n, term, timeout);
      (n1, EncodeAnswer(n1.term, accepted))
  }

  /** The RPC server of a node: parse, dispatch on the method name, answer. */
  function HandleRequest(n: Node, request: Bytes, timeout: nat): (Node, Bytes)
  {
    match ParseRequest(request)
    case None => (n, SerializeResponse(Response(0, false, [], MALFORMED)))
    case Some(r) =>
      if r.name == REQUEST_VOTE then
        var (n1, payload) := HandleRequestVote(n, r.payload, timeout);
        (n1, SerializeResponse(Response(r.id, true, payload, [])))
      else if r.name == HEARTBEAT then
        var (n1, payload) := HandleHeartbeat(n, r.payload, timeout);
        (n1, SerializeResponse(Response(r.id, true, payload, [])))
      else
        (n, SerializeResponse(Response(r.id, false, [], UNKNOWN_METHOD + r.name)))
  }

  function RequestId(term: nat, self: NodeId): nat
  {
    (term * 1000000 + self) % U64
  }

  function VoteRequestBytes(n: Node): Bytes
  {
    SerializeRequest(Request(RequestId(n.term, n.self), REQUEST_VOTE, EncodeTermAndId(n.term, n.self)))
  }

  function HeartbeatBytes(n: Node): Bytes
  {
    SerializeRequest(Request(RequestId(n.term, n.self), HEARTBEAT, EncodeTermAndId(n.term, n.self)))
  }

  function Broadcast(n: Node, bytes: Bytes): set<Packet>
  {
    set peer | peer in n.peers :: Packet(n.self, peer, bytes)
  }

  function BecomeLeader(n: Node): (Node, set<Packet>)
  {
    var n1 := n.(role := Leader, heartbeatTicks := HEARTBEAT_INTERVAL);
    (n1, Broadcast(n1, HeartbeatBytes(n1)))
  }

  /** The term is a 64-bit counter, so it wraps. */
  function StartElection(n: Node, timeout: nat): (Node, set<Packet>)
  {
    var n1 := n.(term := (n.term + 1) % U64, role := Candidate, votedFor := Some(n.self),
                 votes := {n.self}, electionTicks := timeout);
    var requests := Broadcast(n1, VoteRequestBytes(n1));
    if n1.peers == [] then
      var (n2, beats) := BecomeLeader(n1);
      (n2, requests + beats)
    else
      (n1, requests)
  }

  function Majority(n: Node): nat
  {
    (|n.peers| + 1) / 2 + 1
  }

  function OnAnswer(n: Node, from: NodeId, term: nat, yes: bool): (Node, set<Packet>)
  {
    if term > n.term then
      (BecomeFollower(n, term), {})
    else if n.role == Candidate && term == n.term && yes then
      var n1 := n.(votes := n.votes + {from});
      if |n1.votes| >= Majority(n1) then BecomeLeader(n1) else (n1, {})
    else
      (n, {})
  }

  /** One message taken from the node's response port. */
  function OnResponse(n: Node, from: NodeId, bytes: Bytes): (Node, set<Packet>)
  {
    match ParseResponse(bytes)
    case None => (n, {})
    case Some(r) =>
      if !r.ok then (n, {})
      else
        match DecodeAnswer(r.payload)
        case None => (n, {})
        case Some((term, yes)) => OnAnswer(n, from, term, yes)
  }

  function Decrement(ticks: nat): nat
  {
    if ticks > 0 then ticks - 1 else 0
  }

  function OnTick(n: Node, timeout: nat): (Node, set<Packet>)
  {
    if n.role == Leader then
      var n1 := n.(heartbeatTicks := Decrement(n.heartbeatTicks));
      if n1.heartbeatTicks == 0 then
        (n1.(heartbeatTicks := HEARTBEAT_INTERVAL), Broadcast(n1, HeartbeatBytes(n1)))
      else
        (n1, {})
    else
      var n1 := n.(electionTicks := Decrement(n.electionTicks));
      if n1.electionTicks == 0 then StartElection(n1, timeout) else (n1, {})
  }

  // ---- the object ----

  /** The server object.  Everything it sends is collected in `outbox`. */
  class RaftNode {
    const self: NodeId
    const peers: seq<NodeId>
    var currentRole: Role
    var currentTerm: nat
    var votedForThisTerm: Option<NodeId>
    var votesReceived: set<NodeId>
    var ticksUntilElectionTimeout: nat
    var ticksUntilNextHeartbeat: nat
    var outbox: set<Packet>

    ghost function View(): Node
      reads this
    {
      Node(self, peers, currentRole, currentTerm, votedForThisTerm, votesReceived,
           ticksUntilElectionTimeout, ticksUntilNextHeartbeat)
    }

    constructor (self: NodeId, peers: seq<NodeId>, timeout: nat)
      ensures View() == Node(self, peers, Follower, 0, None, {}, timeout, HEARTBEAT_INTERVAL)
      ensures outbox == {}
    {
      this.self, this.peers := self, peers;
      currentRole, currentTerm, votedForThisTerm, votesReceived := Follower, 0, None, {};
      ticksUntilElectionTimeout, ticksUntilNextHeartbeat := timeout, HEARTBEAT_INTERVAL;
      outbox := {};
    }

    method StepDown(observedTerm: nat)
      modifies this
      ensures View() == BecomeFollower(old(View()), observedTerm) && outbox == old(outbox)
    {
      currentTerm := observedTerm;
      currentRole := Follower;
      votedForThisTerm := None;
      votesReceived := {};
    }

    method AnswerVoteRequest(payload: Bytes, timeout: nat) returns (answer: Bytes)
      modifies this
      ensures (View(), answer) == HandleRequestVote(old(View()), payload, timeout) && outbox == old(outbox)
    {
      var decoded := DecodeTermAndId(payload);
      if decoded.None? {
        return EncodeAnswer(currentTerm, false);
      }
      var requestTerm, candidateId := decoded.value.0, decoded.value.1;
      if requestTerm > currentTerm {
        StepDown(requestTerm);
      }
      var granted := false;
      if requestTerm == currentTerm && (votedForThisTerm.None? || votedForThisTerm.value == candidateId) {
        votedForThisTerm := Some(candidateId);
        granted := true;
        ticksUntilElectionTimeout := timeout;
      }
      answer := EncodeAnswer(currentTerm, granted);
    }

    method AnswerHeartbeat(payload: Bytes, timeout: nat) returns (answer: Bytes)
      modifies this
      ensures (View(), answer) == HandleHeartbeat(old(View()), payload, timeout) && outbox == old(outbox)
    {
      var decoded := DecodeTermAndId(payload);
      if decoded.None? {
        return EncodeAnswer(currentTerm, false);
      }
      var requestTerm := decoded.value.0;
      if requestTerm < currentTerm {
        return EncodeAnswer(currentTerm, false);
      }
      if requestTerm > currentTerm || currentRole != Follower {
        StepDown(requestTerm);
      }
      ticksUntilElectionTimeout := timeout;
      answer := EncodeAnswer(currentTerm, true);
    }

    method SendToPeers(bytes: Bytes)
      modifies this`outbox
      ensures outbox == old(outbox) + Broadcast(View(), bytes)
    {
      var i := 0;
      while i < |peers|
        invariant 0 <= i <= |peers|
        invariant outbox == old(outbox) + set peer | peer in peers[..i] :: Packet(self, peer, bytes)
      {
        assert peers[..i + 1] == peers[..i] + [peers[i]];
        outbox := outbox + {Packet(self, peers[i], bytes)};
        i := i + 1;
      }
      assert peers[..i] == peers;
    }

    method TakeLeadership()
      modifies this
      ensures View() == BecomeLeader(old(View())).0
      ensures outbox == old(outbox) + BecomeLeader(old(View())).1
    {
      currentRole := Leader;
      ticksUntilNextHeartbeat := 0;
      ghost var v := View();
      SendToPeers(SerializeRequest(Request(RequestId(currentTerm, self), HEARTBEAT, EncodeTermAndId(currentTerm, self))));
      ticksUntilNextHeartbeat := HEARTBEAT_INTERVAL;
      assert Broadcast(v, HeartbeatBytes(v)) == Broadcast(View(), HeartbeatBytes(View()));
    }

    method Campaign(timeout: nat)
      modifies this
      ensures View() == StartElection(old(View()), timeout).0
      ensures outbox == old(outbox) + StartElection(old(View()), timeout).1
    {
      hide BigEndian, LengthPrefixed, SerializeRequest;
      currentTerm := (currentTerm + 1) % U64;
      currentRole := Candidate;
      votedForThisTerm := Some(self);
      votesReceived := {};
      votesReceived := votesReceived + {self};
      ticksUntilElectionTimeout := timeout;
      SendToPeers(SerializeRequest(Request(RequestId(currentTerm, self), REQUEST_VOTE, EncodeTermAndId(currentTerm, self))));
      if peers == [] {
        TakeLeadership();
      }
    }

    method ReceiveResponse(from: NodeId, bytes: Bytes)
      modifies this
      ensures View() == OnResponse(old(View()), from, bytes).0
      ensures outbox == old(outbox) + OnResponse(old(View()), from, bytes).1
    {
      var response := ParseResponse(bytes);
      if response.None? || !response.value.ok {
        return;
      }
      var answer := DecodeAnswer(response.value.payload);
      if answer.None? {
        return;
      }
      var responderTerm, granted := answer.value.0, answer.value.1;
      if responderTerm > currentTerm {
        StepDown(responderTerm);
        return;
      }
      if currentRole == Candidate && responderTerm == currentTerm && granted {
        votesReceived := votesReceived + {from};
        var majority := (|peers| + 1) / 2 + 1;
        if |votesReceived| >= majority {
          TakeLeadership();
        }
      }
    }

    method Tick(timeout: nat)
      modifies this
      ensures View() == OnTick(old(View()), timeout).0
      ensures outbox == old(outbox) + OnTick(old(View()), timeout).1
    {
      if currentRole == Leader {
        if ticksUntilNextHeartbeat > 0 {
          ticksUntilNextHeartbeat := ticksUntilNextHeartbeat - 1;
        }
        if ticksUntilNextHeartbeat == 0 {
          SendToPeers(SerializeRequest(Request(RequestId(currentTerm, self), HEARTBEAT, EncodeTermAndId(currentTerm, self))));
          ticksUntilNextHeartbeat := HEARTBEAT_INTERVAL;
        }
        return;
      }
      if ticksUntilElectionTimeout > 0 {
        ticksUntilElectionTimeout := ticksUntilElectionTimeout - 1;
      }
      if ticksUntilElectionTimeout == 0 {
        Campaign(timeout);
      }
    }
  }
}
