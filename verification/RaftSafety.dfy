/** Leader election over a faulty network, as a state machine.  The network is the set of
    every packet ever sent and any of them may be delivered at any time and any number of
    times, so loss, delay, duplication and reordering are all runs of this machine.

    Two details of the server break the usual argument that a node votes once per term:
    a heartbeat of the current term makes a candidate forget its vote, and an accepted
    heartbeat acknowledgement has the same bytes as a granted vote. */
module RaftSafety {
  import opened Codec
  import opened Rpc
  import opened RaftServer

  datatype State = State(nodes: seq<Node>, net: set<Packet>)

  datatype Event =
    | Tick(node: NodeId, timeout: nat)
    | ServeRequest(packet: Packet, timeout: nat)
    | TakeAnswer(packet: Packet, node: NodeId)

  /** Every other node below `count`, in increasing order. */
  function Peers(i: NodeId, count: nat): (peers: seq<NodeId>)
    ensures |peers| == if i < count then count - 1 else count
    ensures forall p: nat :: p in peers <==> p < count && p != i
  {
    if count == 0 then []
    else if count - 1 != i then Peers(i, count - 1) + [count - 1]
    else Peers(i, count - 1)
  }

  ghost predicate Init(count: nat, s: State)
  {
    |s.nodes| == count && s.net == {} &&
    forall i: nat | i < count ::
      s.nodes[i] == Node(i, Peers(i, count), Follower, 0, None, {}, s.nodes[i].electionTicks, HEARTBEAT_INTERVAL)
  }

  predicate Enabled(s: State, e: Event)
  {
    match e
    case Tick(i, _) => i < |s.nodes|
    case ServeRequest(p, _) => p in s.net && p.to < |s.nodes|
    case TakeAnswer(p, i) => p in s.net && i < |s.nodes| && p.to == ResponsePort(i)
  }

  function Next(s: State, e: Event): State
    requires Enabled(s, e)
  {
    match e
    case Tick(i, timeout) =>
      var (n, out) := OnTick(s.nodes[i], timeout);
      State(s.nodes[i := n], s.net + out)
    case ServeRequest(p, timeout) =>
      var (n, answer) := HandleRequest(s.nodes[p.to], p.bytes, timeout);
      State(s.nodes[p.to := n], s.net + {Packet(p.to, ResponsePort(p.from), answer)})
    case TakeAnswer(p, i) =>
      var (n, out) := OnResponse(s.nodes[i], p.from, p.bytes);
      State(s.nodes[i := n], s.net + out)
  }

  ghost predicate IsRun(count: nat, states: seq<State>, events: seq<Event>)
  {
    |states| == |events| + 1 && Init(count, states[0]) &&
    forall k | 0 <= k < |events| :: Enabled(states[k], events[k]) && states[k + 1] == Next(states[k], events[k])
  }

  // ---- what the packets mean ----

  datatype Msg =
    | VoteRequest(src: NodeId, dst: NodeId, term: nat)
    | Beat(src: NodeId, dst: NodeId, term: nat)
    | Vote(src: NodeId, dst: NodeId, term: nat, granted: bool)
    | BeatAck(src: NodeId, dst: NodeId, term: nat, accepted: bool)

  ghost predicate IsRequest(p: Packet, name: Bytes, m: Msg)
  {
    p.to == m.dst &&
    var r := ParseRequest(p.bytes);
    r.Some? && r.value.id < U64 && r.value.name == name && r.value.payload == EncodeTermAndId(m.term, m.src)
  }

  ghost predicate IsAnswer(p: Packet, m: Msg, yes: bool)
  {
    p.to == ResponsePort(m.dst) &&
    var r := ParseResponse(p.bytes);
    r.Some? && r.value.ok && r.value.payload == EncodeAnswer(m.term, yes)
  }

  ghost predicate Carries(p: Packet, m: Msg)
  {
    p.from == m.src &&
    match m
    case VoteRequest(_, _, _) => IsRequest(p, REQUEST_VOTE, m)
    case Beat(_, _, _) => IsRequest(p, HEARTBEAT, m)
    case Vote(_, _, _, yes) => IsAnswer(p, m, yes)
    case BeatAck(_, _, _, yes) => IsAnswer(p, m, yes)
  }

  /** The bytes cannot tell an acknowledgement from a vote: whatever carries the one
      carries the other. */
  lemma AckLooksLikeVote(p: Packet, src: NodeId, dst: NodeId, term: nat, yes: bool)
    ensures Carries(p, BeatAck(src, dst, term, yes)) <==> Carries(p, Vote(src, dst, term, yes))
  {
  }

  // ---- the inductive invariant ----

  /** What happened so far: the messages sent and the elections won. */
  datatype History = History(log: set<Msg>, won: set<(NodeId, nat)>)

  ghost function Granters(log: set<Msg>, c: NodeId, term: nat): set<NodeId>
  {
    set m | m in log && m.Vote? && m.granted && m.dst == c && m.term == term :: m.src
  }

  ghost predicate Granted(log: set<Msg>, v: NodeId, c: NodeId, term: nat)
  {
    Vote(v, c, term, true) in log
  }

  ghost predicate NodeOk(n: Node, i: NodeId, count: nat, h: History, steps: nat)
  {
    n.self == i && n.peers == Peers(i, count) && n.term <= steps &&
    (n.role != Follower ==>
       n.votedFor == Some(i) && i in n.votes && n.votes <= Granters(h.log, i, n.term) + {i}) &&
    (n.role == Leader ==> (i, n.term) in h.won)
  }

  /** A message in the log is between two distinct nodes of the cluster, its sender has
      reached its term, and what it says about its sender still binds the sender. */
  ghost predicate MsgOk(m: Msg, nodes: seq<Node>, h: History)
  {
    m.src < |nodes| && m.dst < |nodes| && m.src != m.dst && m.term <= nodes[m.src].term &&
    match m
    case VoteRequest(_, _, _) => true
    case Beat(c, _, t) => (c, t) in h.won
    case Vote(v, c, t, granted) =>
      granted && t == nodes[v].term ==> nodes[v].role == Follower && nodes[v].votedFor == Some(c)
    case BeatAck(_, c, t, accepted) => accepted ==> (c, t) in h.won
  }

  ghost predicate OneVoteEach(log: set<Msg>)
  {
    forall v, c, d, t :: Granted(log, v, c, t) && Granted(log, v, d, t) ==> c == d
  }

  /** An election on record: the winner has reached that term, still leads if it is in it,
      a majority voted for it, and it voted for nobody else. */
  ghost predicate WonOk(c: NodeId, t: nat, nodes: seq<Node>, log: set<Msg>)
  {
    c < |nodes| && t <= nodes[c].term && (t == nodes[c].term ==> nodes[c].role == Leader) &&
    |Granters(log, c, t) + {c}| >= |nodes| / 2 + 1 &&
    forall d :: !Granted(log, c, d, t)
  }

  ghost predicate NetOk(net: set<Packet>, log: set<Msg>)
  {
    forall p | p in net :: exists m :: m in log && Carries(p, m)
  }

  ghost predicate NodesOk(nodes: seq<Node>, h: History, steps: nat)
  {
    forall i: nat | i < |nodes| :: NodeOk(nodes[i], i, |nodes|, h, steps)
  }

  ghost predicate MsgsOk(msgs: set<Msg>, nodes: seq<Node>, h: History)
  {
    forall m | m in msgs :: MsgOk(m, nodes, h)
  }

  ghost predicate AllWonOk(won: set<(NodeId, nat)>, nodes: seq<Node>, log: set<Msg>)
  {
    forall c, t | (c, t) in won :: WonOk(c, t, nodes, log)
  }

  ghost predicate Inv(s: State, h: History, count: nat, steps: nat)
  {
    |s.nodes| == count &&
    NodesOk(s.nodes, h, steps) &&
    MsgsOk(h.log, s.nodes, h) &&
    OneVoteEach(h.log) &&
    AllWonOk(h.won, s.nodes, h.log) &&
    NetOk(s.net, h.log)
  }

  // ---- quorums ----

  lemma {:induction false} BoundedCardinality(s: set<nat>, count: nat)
    requires forall x | x in s :: x < count
    ensures |s| <= count
  {
    if count > 0 {
      BoundedCardinality(s - {count - 1}, count - 1);
    } else {
      assert s == {};
    }
  }

  lemma QuorumsMeet(a: set<nat>, b: set<nat>, count: nat) returns (v: nat)
    requires forall x | x in a + b :: x < count
    requires |a| >= count / 2 + 1 && |b| >= count / 2 + 1
    ensures v in a && v in b
  {
    BoundedCardinality(a + b, count);
    assert |a + b| + |a * b| == |a| + |b|;
    assert a * b != {};
    v :| v in a * b;
  }

  lemma CardinalityMonotone(a: set<nat>, b: set<nat>)
    requires a <= b
    ensures |a| <= |b|
  {
    assert b == a + (b - a);
  }

  lemma GrantersInCluster(s: State, h: History, count: nat, steps: nat, c: NodeId, t: nat)
    requires Inv(s, h, count, steps)
    ensures forall v | v in Granters(h.log, c, t) :: v < count && Granted(h.log, v, c, t)
  {
    forall v | v in Granters(h.log, c, t)
      ensures v < count && Granted(h.log, v, c, t)
    {
      assert MsgOk(Vote(v, c, t, true), s.nodes, h);
    }
  }

  /** The heart of election safety: two elections of one term have one winner. */
  lemma OneWinner(s: State, h: History, count: nat, steps: nat, a: NodeId, b: NodeId, t: nat)
    requires Inv(s, h, count, steps)
    requires (a, t) in h.won && (b, t) in h.won
    ensures a == b
  {
    assert WonOk(a, t, s.nodes, h.log) && WonOk(b, t, s.nodes, h.log);
    GrantersInCluster(s, h, count, steps, a, t);
    GrantersInCluster(s, h, count, steps, b, t);
    var v := QuorumsMeet(Granters(h.log, a, t) + {a}, Granters(h.log, b, t) + {b}, count);
    assert v != a ==> Granted(h.log, v, a, t);
    assert v != b ==> Granted(h.log, v, b, t);
  }

  // ---- one step, seen from the node that takes it ----

  /** Within a term a node keeps what others may rely on: a follower keeps a vote it has
      given, and a leader goes on leading. */
  ghost predicate Keeps(n: Node, n': Node)
  {
    n.term <= n'.term &&
    (n'.term == n.term && n.role == Follower && n.votedFor.Some? ==>
       n'.role == Follower && n'.votedFor == n.votedFor) &&
    (n'.term == n.term && n.role == Leader ==> n'.role == Leader)
  }

  ghost predicate Sends(msgs: set<Msg>, i: NodeId, term: nat)
  {
    forall m | m in msgs :: m.src == i && m.term == term
  }

  /** A step of node `i` that keeps its promises, speaks only for itself and in its own
      term, and wins only by majority, preserves the invariant. */
  lemma StepPreserves(s: State, h: History, count: nat, steps: nat, i: NodeId, n': Node, nodes': seq<Node>,
                      out: set<Packet>, msgs: set<Msg>, won: set<(NodeId, nat)>, h': History)
    requires Inv(s, h, count, steps) && i < count
    requires nodes' == s.nodes[i := n'] && h' == History(h.log + msgs, h.won + won)
    requires Keeps(s.nodes[i], n')
    requires NodeOk(n', i, count, h', steps + 1)
    requires Sends(msgs, i, n'.term) && MsgsOk(msgs, nodes', h')
    requires Wins(won, i, n', h'.log, count)
    requires NetOk(out, h'.log)
    ensures Inv(State(nodes', s.net + out), h', count, steps + 1)
  {
    MsgsStill(s, h, count, steps, i, n', nodes', h');
    OneVoteStill(s, h, count, steps, i, n', nodes', msgs, h');
    WonStill(s, h, count, steps, i, n', nodes', msgs, won, h');
    NodesStill(s, h, count, steps, i, n', nodes', h');
    NetStill(s.net, out, h.log, msgs);
    assert MsgsOk(h'.log, nodes', h');
  }

  ghost predicate Wins(won: set<(NodeId, nat)>, i: NodeId, n': Node, log: set<Msg>, count: nat)
  {
    won <= {(i, n'.term)} &&
    (won != {} ==> n'.role == Leader && |Granters(log, i, n'.term) + {i}| >= count / 2 + 1)
  }

  lemma MsgsStill(s: State, h: History, count: nat, steps: nat, i: NodeId, n': Node, nodes': seq<Node>, h': History)
    requires Inv(s, h, count, steps) && i < count && nodes' == s.nodes[i := n']
    requires Keeps(s.nodes[i], n') && h.won <= h'.won
    ensures MsgsOk(h.log, nodes', h')
  {
    forall m | m in h.log
      ensures MsgOk(m, nodes', h')
    {
      assert MsgOk(m, s.nodes, h);
    }
  }

  lemma NodesStill(s: State, h: History, count: nat, steps: nat, i: NodeId, n': Node, nodes': seq<Node>, h': History)
    requires Inv(s, h, count, steps) && i < count && nodes' == s.nodes[i := n']
    requires h.log <= h'.log && h.won <= h'.won
    requires NodeOk(n', i, count, h', steps + 1)
    ensures NodesOk(nodes', h', steps + 1)
  {
    forall j: nat | j < count
      ensures NodeOk(nodes'[j], j, count, h', steps + 1)
    {
      if j != i {
        assert NodeOk(s.nodes[j], j, count, h, steps);
        assert Granters(h.log, j, s.nodes[j].term) <= Granters(h'.log, j, s.nodes[j].term);
      }
    }
  }

  lemma NetStill(net: set<Packet>, out: set<Packet>, log: set<Msg>, msgs: set<Msg>)
    requires NetOk(net, log) && NetOk(out, log + msgs)
    ensures NetOk(net + out, log + msgs)
  {
    forall p | p in net + out
      ensures exists m :: m in log + msgs && Carries(p, m)
    {
      if p in net {
        var m :| m in log && Carries(p, m);
        assert m in log + msgs;
      }
    }
  }

  lemma OneVoteStill(s: State, h: History, count: nat, steps: nat, i: NodeId, n': Node, nodes': seq<Node>,
                     msgs: set<Msg>, h': History)
    requires Inv(s, h, count, steps) && i < count && nodes' == s.nodes[i := n']
    requires Keeps(s.nodes[i], n') && Sends(msgs, i, n'.term) && MsgsOk(msgs, nodes', h')
    ensures OneVoteEach(h.log + msgs)
  {
    forall v, c, d, t | Granted(h.log + msgs, v, c, t) && Granted(h.log + msgs, v, d, t)
      ensures c == d
    {
      var first, second := Vote(v, c, t, true), Vote(v, d, t, true);
      assert if first in h.log then MsgOk(first, s.nodes, h) else MsgOk(first, nodes', h');
      assert if second in h.log then MsgOk(second, s.nodes, h) else MsgOk(second, nodes', h');
      assert first in h.log && second in h.log ==> Granted(h.log, v, c, t) && Granted(h.log, v, d, t);
    }
  }

  lemma WonStill(s: State, h: History, count: nat, steps: nat, i: NodeId, n': Node, nodes': seq<Node>,
                 msgs: set<Msg>, won: set<(NodeId, nat)>, h': History)
    requires Inv(s, h, count, steps) && i < count && nodes' == s.nodes[i := n']
    requires Keeps(s.nodes[i], n') && Sends(msgs, i, n'.term) && MsgsOk(msgs, nodes', h')
    requires Wins(won, i, n', h.log + msgs, count)
    ensures AllWonOk(h.won + won, nodes', h.log + msgs)
  {
    forall c, t | (c, t) in h.won + won
      ensures WonOk(c, t, nodes', h.log + msgs)
    {
      assert (c, t) in h.won ==> WonOk(c, t, s.nodes, h.log);
      CardinalityMonotone(Granters(h.log, c, t) + {c}, Granters(h.log + msgs, c, t) + {c});
      forall d
        ensures !Granted(h.log + msgs, c, d, t)
      {
        var vote := Vote(c, d, t, true);
        assert vote in h.log ==> MsgOk(vote, s.nodes, h) && Granted(h.log, c, d, t);
        assert vote in msgs ==> MsgOk(vote, nodes', h');
      }
    }
  }

  // ---- every event preserves the invariant ----

  /** The history grows, and what it gains was said by a node in the term it is now in. */
  ghost predicate Extends(h: History, h': History, nodes': seq<Node>)
  {
    h.log <= h'.log && h.won <= h'.won &&
    forall m | m in h'.log - h.log :: m.src < |nodes'| && m.term == nodes'[m.src].term
  }

  lemma ServedVote(n: Node, p: Packet, m: Msg, timeout: nat)
    requires m.VoteRequest? && Carries(p, m) && m.term < U64 && m.src < U32
    requires n.term < U64
    ensures var (n', granted) := OnVoteRequest(n, m.term, m.src, timeout);
            HandleRequest(n, p.bytes, timeout).0 == n' &&
            Carries(Packet(m.dst, ResponsePort(p.from), HandleRequest(n, p.bytes, timeout).1),
                    Vote(m.dst, m.src, n'.term, granted))
  {
    TermAndIdRoundTrip(m.term, m.src);
    var (n', granted) := OnVoteRequest(n, m.term, m.src, timeout);
    ResponseRoundTrip(Response(ParseRequest(p.bytes).value.id, true, EncodeAnswer(n'.term, granted), []));
  }

  lemma ServedBeat(n: Node, p: Packet, m: Msg, timeout: nat)
    requires m.Beat? && Carries(p, m) && m.term < U64 && m.src < U32
    requires n.term < U64
    ensures var (n', accepted) := OnHeartbeat(n, m.term, timeout);
            HandleRequest(n, p.bytes, timeout).0 == n' &&
            Carries(Packet(m.dst, ResponsePort(p.from), HandleRequest(n, p.bytes, timeout).1),
                    BeatAck(m.dst, m.src, n'.term, accepted))
  {
    TermAndIdRoundTrip(m.term, m.src);
    var (n', accepted) := OnHeartbeat(n, m.term, timeout);
    assert |REQUEST_VOTE| != |HEARTBEAT|;
    ResponseRoundTrip(Response(ParseRequest(p.bytes).value.id, true, EncodeAnswer(n'.term, accepted), []));
  }

  lemma OnePacket(p: Packet, m: Msg, log: set<Msg>)
    requires Carries(p, m) && m in log
    ensures NetOk({p}, log)
  {
  }

  lemma NodeOkGrows(n: Node, i: NodeId, count: nat, h: History, h': History, steps: nat)
    requires NodeOk(n, i, count, h, steps) && h.log <= h'.log && h.won <= h'.won
    ensures NodeOk(n, i, count, h', steps)
  {
    assert Granters(h.log, i, n.term) <= Granters(h'.log, i, n.term);
  }

  /** A step that answers one request. */
  lemma AnswerSent(s: State, h: History, count: nat, steps: nat, i: NodeId, n': Node, out: Packet, m: Msg)
    returns (h': History)
    requires Inv(s, h, count, steps) && i < count
    requires Keeps(s.nodes[i], n') && NodeOk(n', i, count, h, steps + 1)
    requires m.src == i && m.term == n'.term && MsgOk(m, s.nodes[i := n'], h) && Carries(out, m)
    ensures Inv(State(s.nodes[i := n'], s.net + {out}), h', count, steps + 1)
    ensures Extends(h, h', s.nodes[i := n'])
  {
    assert |s.nodes| == count;
    hide Inv, NodeOk, Keeps, Carries, Granters;
    h' := History(h.log + {m}, h.won + {});
    OnePacket(out, m, h'.log);
    NodeOkGrows(n', i, count, h, h', steps + 1);
    assert MsgsOk({m}, s.nodes[i := n'], h') && Sends({m}, i, n'.term) && Wins({}, i, n', h'.log, count);
    hide MsgOk;
    StepPreserves(s, h, count, steps, i, n', s.nodes[i := n'], {out}, {m}, {}, h');
  }

  lemma Addressed(s: State, h: History, count: nat, steps: nat, p: Packet, m: Msg)
    requires Inv(s, h, count, steps) && Carries(p, m)
    ensures |s.nodes| == count && p.from == m.src && p.to == Destination(m)
  {
  }

  lemma VoteRequestStep(s: State, h: History, count: nat, steps: nat, m: Msg, p: Packet, timeout: nat)
    returns (h': History)
    requires Inv(s, h, count, steps) && steps + 1 < U64 && count <= PORT_BASE
    requires m in h.log && m.VoteRequest? && p in s.net && Carries(p, m)
    ensures Enabled(s, ServeRequest(p, timeout))
    ensures Inv(Next(s, ServeRequest(p, timeout)), h', count, steps + 1)
    ensures Extends(h, h', Next(s, ServeRequest(p, timeout)).nodes)
  {
    hide HandleRequest, Carries, OnVoteRequest, NodeOk, Keeps, Inv, Extends, MsgOk;
    Addressed(s, h, count, steps, p, m);
    var i := m.dst;
    VoteEffect(s, h, count, steps, m, timeout);
    ServedVote(s.nodes[i], p, m, timeout);
    var (n', granted) := OnVoteRequest(s.nodes[i], m.term, m.src, timeout);
    var out := Packet(i, ResponsePort(p.from), HandleRequest(s.nodes[i], p.bytes, timeout).1);
    h' := AnswerSent(s, h, count, steps, i, n', out, Vote(i, m.src, n'.term, granted));
  }

  lemma VoteEffect(s: State, h: History, count: nat, steps: nat, m: Msg, timeout: nat)
    requires Inv(s, h, count, steps) && steps + 1 < U64 && count <= PORT_BASE && m in h.log && m.VoteRequest?
    ensures m.src < count && m.dst < count && m.term <= steps && s.nodes[m.dst].term <= steps
    ensures var (n', granted) := OnVoteRequest(s.nodes[m.dst], m.term, m.src, timeout);
            Keeps(s.nodes[m.dst], n') && NodeOk(n', m.dst, count, h, steps + 1) &&
            MsgOk(Vote(m.dst, m.src, n'.term, granted), s.nodes[m.dst := n'], h)
  {
    assert MsgOk(m, s.nodes, h) && NodeOk(s.nodes[m.dst], m.dst, count, h, steps);
    assert NodeOk(s.nodes[m.src], m.src, count, h, steps);
  }

  lemma BeatStep(s: State, h: History, count: nat, steps: nat, m: Msg, p: Packet, timeout: nat)
    returns (h': History)
    requires Inv(s, h, count, steps) && steps + 1 < U64 && count <= PORT_BASE
    requires m in h.log && m.Beat? && p in s.net && Carries(p, m)
    ensures Enabled(s, ServeRequest(p, timeout))
    ensures Inv(Next(s, ServeRequest(p, timeout)), h', count, steps + 1)
    ensures Extends(h, h', Next(s, ServeRequest(p, timeout)).nodes)
  {
    hide HandleRequest, Carries, OnHeartbeat, NodeOk, Keeps, Inv, Extends, MsgOk;
    Addressed(s, h, count, steps, p, m);
    var i := m.dst;
    BeatEffect(s, h, count, steps, m, timeout);
    ServedBeat(s.nodes[i], p, m, timeout);
    var (n', accepted) := OnHeartbeat(s.nodes[i], m.term, timeout);
    var out := Packet(i, ResponsePort(p.from), HandleRequest(s.nodes[i], p.bytes, timeout).1);
    h' := AnswerSent(s, h, count, steps, i, n', out, BeatAck(i, m.src, n'.term, accepted));
  }

  lemma BeatEffect(s: State, h: History, count: nat, steps: nat, m: Msg, timeout: nat)
    requires Inv(s, h, count, steps) && steps + 1 < U64 && count <= PORT_BASE && m in h.log && m.Beat?
    ensures m.src < count && m.dst < count && m.term <= steps && s.nodes[m.dst].term <= steps
    ensures var (n', accepted) := OnHeartbeat(s.nodes[m.dst], m.term, timeout);
            Keeps(s.nodes[m.dst], n') && NodeOk(n', m.dst, count, h, steps + 1) &&
            MsgOk(BeatAck(m.dst, m.src, n'.term, accepted), s.nodes[m.dst := n'], h)
  {
    assert MsgOk(m, s.nodes, h) && NodeOk(s.nodes[m.dst], m.dst, count, h, steps);
    assert NodeOk(s.nodes[m.src], m.src, count, h, steps);
    NoRivalLeader(s, h, count, steps, m);
  }

  /** A heartbeat never reaches another leader of its own term, so the reset of a node's
      vote within a term only ever hits a candidate. */
  lemma NoRivalLeader(s: State, h: History, count: nat, steps: nat, m: Msg)
    requires Inv(s, h, count, steps) && m in h.log && m.Beat?
    ensures m.dst < count && (s.nodes[m.dst].term == m.term ==> s.nodes[m.dst].role != Leader)
  {
    var i := m.dst;
    assert MsgOk(m, s.nodes, h) && NodeOk(s.nodes[i], i, count, h, steps);
    if (i, m.term) in h.won {
      OneWinner(s, h, count, steps, m.src, i, m.term);
    }
  }

  /** An acknowledgement never reaches a candidate of its own term: its term was won by
      the node it is addressed to. */
  lemma AckNeverCounted(s: State, h: History, count: nat, steps: nat, m: Msg)
    requires Inv(s, h, count, steps) && m in h.log && m.BeatAck? && m.accepted
    ensures m.dst < count && (s.nodes[m.dst].term == m.term ==> s.nodes[m.dst].role == Leader)
  {
    assert MsgOk(m, s.nodes, h) && WonOk(m.dst, m.term, s.nodes, h.log);
  }

  lemma BroadcastCarried(n: Node, i: NodeId, count: nat, bytes: Bytes, msgs: set<Msg>, beat: bool)
    requires n.self == i && n.peers == Peers(i, count) && i < count <= PORT_BASE && n.term < U64
    requires bytes == if beat then HeartbeatBytes(n) else VoteRequestBytes(n)
    requires msgs == set j | j in n.peers :: if beat then Beat(i, j, n.term) else VoteRequest(i, j, n.term)
    ensures NetOk(Broadcast(n, bytes), msgs)
  {
    var name := if beat then HEARTBEAT else REQUEST_VOTE;
    RequestRoundTrip(Request(RequestId(n.term, i), name, EncodeTermAndId(n.term, i)));
    forall p | p in Broadcast(n, bytes)
      ensures exists m :: m in msgs && Carries(p, m)
    {
      var m := if beat then Beat(i, p.to, n.term) else VoteRequest(i, p.to, n.term);
      assert m in msgs && Carries(p, m);
    }
  }

  ghost function BeatsOf(n: Node): set<Msg>
  {
    set j | j in n.peers :: Beat(n.self, j, n.term)
  }

  /** A node that has a majority of votes takes office. */
  lemma LeadershipStep(s: State, h: History, count: nat, steps: nat, i: NodeId, n: Node, out: set<Packet>)
    returns (h': History)
    requires Inv(s, h, count, steps) && i < count <= PORT_BASE && steps + 1 < U64
    requires n.role == Candidate && Keeps(s.nodes[i], n) && n.term <= steps + 1
    requires NodeOk(n, i, count, h, steps + 1)
    requires |n.votes| >= count / 2 + 1
    requires s.nodes[i].term == n.term ==> s.nodes[i].role == Candidate
    ensures var (n', beats) := BecomeLeader(n);
            Inv(State(s.nodes[i := n'], s.net + beats), h', count, steps + 1) &&
            Extends(h, h', s.nodes[i := n'])
  {
    var (n', beats) := BecomeLeader(n);
    var msgs := BeatsOf(n');
    h' := History(h.log + msgs, h.won + {(i, n'.term)});
    assert Granters(h.log, i, n.term) <= Granters(h'.log, i, n.term);
    CardinalityMonotone(n.votes, Granters(h'.log, i, n.term) + {i});
    BroadcastCarried(n', i, count, HeartbeatBytes(n'), msgs, true);
    NetStill({}, beats, h.log, msgs);
    assert {} + beats == beats;
    StepPreserves(s, h, count, steps, i, n', s.nodes[i := n'], beats, msgs, {(i, n'.term)}, h');
  }

  lemma AnswerStep(s: State, h: History, count: nat, steps: nat, m: Msg, p: Packet)
    returns (h': History)
    requires Inv(s, h, count, steps) && steps + 1 < U64 && count <= PORT_BASE
    requires m in h.log && (m.Vote? || m.BeatAck?) && p in s.net && Carries(p, m)
    ensures Enabled(s, TakeAnswer(p, m.dst))
    ensures Inv(Next(s, TakeAnswer(p, m.dst)), h', count, steps + 1)
    ensures Extends(h, h', Next(s, TakeAnswer(p, m.dst)).nodes)
  {
    hide HeartbeatBytes, ParseResponse, DecodeAnswer;
    var i := m.dst;
    var yes := if m.Vote? then m.granted else m.accepted;
    assert MsgOk(m, s.nodes, h) && NodeOk(s.nodes[i], i, count, h, steps);
    assert NodeOk(s.nodes[m.src], m.src, count, h, steps);
    AnswerRoundTrip(m.term, yes);
    var n := s.nodes[i];
    var (n', out) := OnAnswer(n, m.src, m.term, yes);
    assert OnResponse(n, p.from, p.bytes) == (n', out);
    if m.BeatAck? && yes {
      AckNeverCounted(s, h, count, steps, m);
    }
    if n.role == Candidate && m.term == n.term && yes {
      var n1 := n.(votes := n.votes + {m.src});
      assert Vote(m.src, i, n.term, true) in h.log;
      assert m.src in Granters(h.log, i, n.term);
      if |n1.votes| >= Majority(n1) {
        h' := LeadershipStep(s, h, count, steps, i, n1, out);
      } else {
        h' := Quiet(s, h, count, steps, i, n1);
      }
    } else {
      h' := Quiet(s, h, count, steps, i, n');
    }
  }

  /** A step that sends nothing. */
  lemma Quiet(s: State, h: History, count: nat, steps: nat, i: NodeId, n': Node)
    returns (h': History)
    requires Inv(s, h, count, steps) && i < count
    requires Keeps(s.nodes[i], n') && NodeOk(n', i, count, h, steps + 1)
    ensures Inv(State(s.nodes[i := n'], s.net + {}), h', count, steps + 1)
    ensures Extends(h, h', s.nodes[i := n'])
  {
    h' := History(h.log + {}, h.won + {});
    assert h' == h;
    StepPreserves(s, h, count, steps, i, n', s.nodes[i := n'], {}, {}, {}, h');
  }

  lemma TickStep(s: State, h: History, count: nat, steps: nat, i: NodeId, timeout: nat)
    returns (h': History)
    requires Inv(s, h, count, steps) && steps + 1 < U64 && i < count <= PORT_BASE
    ensures Inv(Next(s, Tick(i, timeout)), h', count, steps + 1)
    ensures Extends(h, h', Next(s, Tick(i, timeout)).nodes)
  {
    hide VoteRequestBytes, HeartbeatBytes, StartElection;
    var n := s.nodes[i];
    assert NodeOk(n, i, count, h, steps);
    var (n', out) := OnTick(n, timeout);
    if n.role == Leader {
      if Decrement(n.heartbeatTicks) == 0 {
        var n1 := n.(heartbeatTicks := 0);
        h' := History(h.log + BeatsOf(n), h.won + {});
        BroadcastCarried(n1, i, count, HeartbeatBytes(n1), BeatsOf(n), true);
        NetStill({}, out, h.log, BeatsOf(n));
        assert {} + out == out;
        assert Granters(h.log, i, n.term) <= Granters(h'.log, i, n.term);
        StepPreserves(s, h, count, steps, i, n', s.nodes[i := n'], out, BeatsOf(n), {}, h');
      } else {
        h' := Quiet(s, h, count, steps, i, n');
      }
    } else if Decrement(n.electionTicks) == 0 {
      h' := ElectionStep(s, h, count, steps, i, n.(electionTicks := 0), timeout);
    } else {
      h' := Quiet(s, h, count, steps, i, n');
    }
  }

  lemma ElectionStep(s: State, h: History, count: nat, steps: nat, i: NodeId, n: Node, timeout: nat)
    returns (h': History)
    requires Inv(s, h, count, steps) && steps + 1 < U64 && i < count <= PORT_BASE
    requires n == s.nodes[i].(electionTicks := 0)
    ensures var (n', out) := StartElection(n, timeout);
            Inv(State(s.nodes[i := n'], s.net + out), h', count, steps + 1) &&
            Extends(h, h', s.nodes[i := n'])
  {
    hide VoteRequestBytes, HeartbeatBytes, Peers, MsgsOk, AllWonOk, NetOk, OneVoteEach, Extends;
    assert NodeOk(s.nodes[i], i, count, h, steps);
    var n1 := n.(term := (n.term + 1) % U64, role := Candidate, votedFor := Some(n.self), votes := {n.self},
                 electionTicks := timeout);
    assert n1.term == n.term + 1;
    var requests := Broadcast(n1, VoteRequestBytes(n1));
    if |n1.peers| == 0 {
      assert requests == {};
      h' := LeadershipStep(s, h, count, steps, i, n1, {});
      assert requests + BecomeLeader(n1).1 == BecomeLeader(n1).1;
    } else {
      h' := CandidacyStep(s, h, count, steps, i, n1, requests);
    }
  }

  lemma CandidacyStep(s: State, h: History, count: nat, steps: nat, i: NodeId, n: Node, requests: set<Packet>)
    returns (h': History)
    requires Inv(s, h, count, steps) && steps + 1 < U64 && i < count <= PORT_BASE
    requires n.self == i && n.peers == Peers(i, count) && n.term == s.nodes[i].term + 1 <= steps + 1
    requires n.role == Candidate && n.votedFor == Some(i) && n.votes == {i}
    requires requests == Broadcast(n, VoteRequestBytes(n))
    ensures Inv(State(s.nodes[i := n], s.net + requests), h', count, steps + 1)
    ensures Extends(h, h', s.nodes[i := n])
  {
    var msgs := set j | j in n.peers :: VoteRequest(i, j, n.term);
    h' := History(h.log + msgs, h.won + {});
    BroadcastCarried(n, i, count, VoteRequestBytes(n), msgs, false);
    NetStill({}, requests, h.log, msgs);
    assert {} + requests == requests;
    StepPreserves(s, h, count, steps, i, n, s.nodes[i := n], requests, msgs, {}, h');
  }

  lemma PortOf(i: NodeId)
    requires i < PORT_BASE
    ensures ResponsePort(i) == i + PORT_BASE
  {
  }

  ghost function Destination(m: Msg): nat
  {
    if m.VoteRequest? || m.Beat? then m.dst else ResponsePort(m.dst)
  }

  /** Node ids and response ports do not overlap, so an address tells what a packet is. */
  lemma AddressTellsKind(count: nat, m: Msg, to: nat, i: NodeId)
    requires count <= PORT_BASE && m.dst < count && i < count && to == Destination(m)
    ensures to < count ==> m.VoteRequest? || m.Beat?
    ensures to == ResponsePort(i) ==> (m.Vote? || m.BeatAck?) && i == m.dst
  {
    PortOf(i);
    PortOf(m.dst);
  }

  lemma EventStep(s: State, h: History, count: nat, steps: nat, e: Event)
    returns (h': History)
    requires Inv(s, h, count, steps) && steps + 1 < U64 && count <= PORT_BASE && Enabled(s, e)
    ensures Inv(Next(s, e), h', count, steps + 1)
    ensures Extends(h, h', Next(s, e).nodes)
  {
    if e.Tick? {
      h' := TickStep(s, h, count, steps, e.node, e.timeout);
    } else {
      var m := Meaning(s, h, count, steps, e.packet);
      AddressTellsKind(count, m, e.packet.to, if e.TakeAnswer? then e.node else 0);
      if e.TakeAnswer? {
        h' := AnswerStep(s, h, count, steps, m, e.packet);
      } else if m.VoteRequest? {
        h' := VoteRequestStep(s, h, count, steps, m, e.packet, e.timeout);
      } else {
        h' := BeatStep(s, h, count, steps, m, e.packet, e.timeout);
      }
    }
  }

  lemma Meaning(s: State, h: History, count: nat, steps: nat, p: Packet) returns (m: Msg)
    requires Inv(s, h, count, steps) && p in s.net
    ensures m in h.log && Carries(p, m) && m.src < count && m.dst < count && p.to == Destination(m)
  {
    m :| m in h.log && Carries(p, m);
    assert MsgOk(m, s.nodes, h);
  }

  // ---- whole runs ----

  lemma InitHolds(count: nat, s: State)
    requires Init(count, s)
    ensures Inv(s, History({}, {}), count, 0)
  {
  }

  /** The histories of a run, one per state. */
  ghost predicate HistoriesOf(count: nat, states: seq<State>, hs: seq<History>)
  {
    |hs| == |states| && |hs| > 0 && hs[0] == History({}, {}) &&
    (forall k | 0 <= k < |hs| :: Inv(states[k], hs[k], count, k)) &&
    (forall k | 0 <= k < |hs| - 1 :: Extends(hs[k], hs[k + 1], states[k + 1].nodes))
  }

  lemma {:induction false} RunHistories(count: nat, states: seq<State>, events: seq<Event>)
    returns (hs: seq<History>)
    requires IsRun(count, states, events) && |events| < U64 && count <= PORT_BASE
    ensures HistoriesOf(count, states, hs)
    decreases |events|
  {
    if events == [] {
      InitHolds(count, states[0]);
      hs := [History({}, {})];
    } else {
      var k := |events| - 1;
      RunPrefix(count, states, events);
      var before := RunHistories(count, states[..k + 1], events[..k]);
      assert Inv(states[..k + 1][k], before[k], count, k);
      var h' := EventStep(states[k], before[k], count, k, events[k]);
      hs := before + [h'];
      HistoriesExtend(count, states, before, h');
    }
  }

  lemma RunPrefix(count: nat, states: seq<State>, events: seq<Event>)
    requires IsRun(count, states, events) && events != []
    ensures IsRun(count, states[..|events|], events[..|events| - 1])
    ensures var k := |events| - 1; Enabled(states[k], events[k]) && states[|events|] == Next(states[k], events[k])
  {
    var k := |events| - 1;
    assert Enabled(states[k], events[k]) && states[k + 1] == Next(states[k], events[k]);
  }

  lemma HistoriesExtend(count: nat, states: seq<State>, before: seq<History>, h': History)
    requires |states| == |before| + 1 && HistoriesOf(count, states[..|before|], before)
    requires Inv(states[|before|], h', count, |before|)
    requires Extends(before[|before| - 1], h', states[|before|].nodes)
    ensures HistoriesOf(count, states, before + [h'])
  {
    var hs, prefix := before + [h'], states[..|before|];
    forall k | 0 <= k < |hs|
      ensures Inv(states[k], hs[k], count, k)
    {
      if k < |before| {
        assert Inv(prefix[k], before[k], count, k);
      }
    }
    forall k | 0 <= k < |hs| - 1
      ensures Extends(hs[k], hs[k + 1], states[k + 1].nodes)
    {
      if k < |before| - 1 {
        assert Extends(before[k], before[k + 1], prefix[k + 1].nodes);
      }
    }
  }

  lemma {:induction false} HistoryGrows(count: nat, states: seq<State>, hs: seq<History>, j: nat, k: nat)
    requires HistoriesOf(count, states, hs) && j <= k < |hs|
    ensures hs[j].log <= hs[k].log && hs[j].won <= hs[k].won
    decreases k
  {
    if j < k {
      HistoryGrows(count, states, hs, j, k - 1);
      assert Extends(hs[k - 1], hs[k - 1 + 1], states[k - 1 + 1].nodes);
    }
  }

  /** Election Safety: over a whole run, at most one node is ever leader in a given term. */
  lemma ElectionSafety(count: nat, states: seq<State>, events: seq<Event>, j: nat, k: nat, a: NodeId, b: NodeId)
    requires IsRun(count, states, events) && |events| < U64 && count <= PORT_BASE
    requires j < |states| && k < |states|
    requires a < |states[j].nodes| && states[j].nodes[a].role == Leader
    requires b < |states[k].nodes| && states[k].nodes[b].role == Leader
    requires states[j].nodes[a].term == states[k].nodes[b].term
    ensures a == b
  {
    var hs := RunHistories(count, states, events);
    var last := |states| - 1;
    HistoryGrows(count, states, hs, j, last);
    HistoryGrows(count, states, hs, k, last);
    assert Inv(states[j], hs[j], count, j) && Inv(states[k], hs[k], count, k);
    assert NodeOk(states[j].nodes[a], a, count, hs[j], j) && NodeOk(states[k].nodes[b], b, count, hs[k], k);
    OneWinner(states[last], hs[last], count, last, a, b, states[j].nodes[a].term);
  }

  /** Node `v` had its vote recorded for `c` in term `t` at some moment up to state `k`. */
  ghost predicate VotedFor(states: seq<State>, k: nat, v: NodeId, c: NodeId, t: nat)
    requires k < |states|
  {
    exists j: nat :: j <= k && v < |states[j].nodes| &&
      states[j].nodes[v].term == t && states[j].nodes[v].votedFor == Some(c)
  }

  lemma {:induction false} GrantsWereCast(count: nat, states: seq<State>, hs: seq<History>, k: nat,
                                          v: NodeId, c: NodeId, t: nat)
    requires HistoriesOf(count, states, hs) && k < |hs| && Granted(hs[k].log, v, c, t)
    ensures VotedFor(states, k, v, c, t)
    decreases k
  {
    assert k > 0;
    if Granted(hs[k - 1].log, v, c, t) {
      GrantsWereCast(count, states, hs, k - 1, v, c, t);
      var j: nat :| j <= k - 1 && v < |states[j].nodes| &&
        states[j].nodes[v].term == t && states[j].nodes[v].votedFor == Some(c);
      assert j <= k;
    } else {
      assert Extends(hs[k - 1], hs[k - 1 + 1], states[k - 1 + 1].nodes);
      assert Inv(states[k], hs[k], count, k);
      assert Vote(v, c, t, true) in hs[k].log - hs[k - 1].log;
      assert MsgOk(Vote(v, c, t, true), states[k].nodes, hs[k]);
    }
  }

  /** Every vote a candidate or leader holds was really cast for it in that term: an
      acknowledgement is never counted as a vote. */
  lemma VotesAreGenuine(count: nat, states: seq<State>, events: seq<Event>, k: nat, c: NodeId, v: NodeId)
    requires IsRun(count, states, events) && |events| < U64 && count <= PORT_BASE
    requires k < |states| && c < |states[k].nodes|
    requires states[k].nodes[c].role != Follower && v in states[k].nodes[c].votes
    ensures VotedFor(states, k, v, c, states[k].nodes[c].term)
  {
    var hs := RunHistories(count, states, events);
    var n := states[k].nodes[c];
    assert Inv(states[k], hs[k], count, k);
    assert NodeOk(n, c, count, hs[k], k);
    if v == c {
      assert states[k].nodes[v].term == n.term && states[k].nodes[v].votedFor == Some(c);
    } else {
      assert Granted(hs[k].log, v, c, n.term);
      GrantsWereCast(count, states, hs, k, v, c, n.term);
    }
  }

  /** Terms only grow along a run, whatever is delivered. */
  lemma {:induction false} TermsNeverDecrease(count: nat, states: seq<State>, events: seq<Event>, j: nat, k: nat, v: NodeId)
    requires IsRun(count, states, events) && |events| < U64 && count <= PORT_BASE
    requires j <= k < |states| && v < count
    ensures |states[j].nodes| == count == |states[k].nodes|
    ensures states[j].nodes[v].term <= states[k].nodes[v].term
  {
    var hs := RunHistories(count, states, events);
    forall i | 0 <= i < |states|
      ensures |states[i].nodes| == count && states[i].nodes[v].term <= i
    {
      assert Inv(states[i], hs[i], count, i) && NodeOk(states[i].nodes[v], v, count, hs[i], i);
    }
    TermsGrow(count, states, events, j, k, v);
  }

  lemma {:induction false} TermsGrow(count: nat, states: seq<State>, events: seq<Event>, j: nat, k: nat, v: NodeId)
    requires IsRun(count, states, events) && |events| < U64 && j <= k < |states|
    requires forall i | 0 <= i < |states| :: v < |states[i].nodes| && states[i].nodes[v].term <= i
    ensures states[j].nodes[v].term <= states[k].nodes[v].term
    decreases k
  {
    hide Next, Enabled, IsRun;
    RunLength(count, states, events);
    if j < k {
      TermsGrow(count, states, events, j, k - 1, v);
      RunStep(count, states, events, k - 1);
      TermStep(states[k - 1], events[k - 1], v);
    }
  }

  lemma RunLength(count: nat, states: seq<State>, events: seq<Event>)
    requires IsRun(count, states, events)
    ensures |states| == |events| + 1
  {
  }

  lemma RunStep(count: nat, states: seq<State>, events: seq<Event>, k: nat)
    requires IsRun(count, states, events) && k < |events|
    ensures Enabled(states[k], events[k]) && states[k + 1] == Next(states[k], events[k])
  {
  }

  lemma TermStep(s: State, e: Event, v: NodeId)
    requires Enabled(s, e) && v < |s.nodes| && s.nodes[v].term + 1 < U64
    ensures s.nodes[v].term <= Next(s, e).nodes[v].term
  {
    hide OnTick, HandleRequest, OnResponse;
    var n := s.nodes[v];
    match e
    case Tick(i, timeout) =>
      TickTerm(n, timeout);
    case ServeRequest(p, timeout) =>
      ServeTerm(n, p.bytes, timeout);
    case TakeAnswer(p, i) =>
      ResponseTerm(n, p.from, p.bytes);
  }

  lemma TickTerm(n: Node, timeout: nat)
    requires n.term + 1 < U64
    ensures n.term <= OnTick(n, timeout).0.term
  {
    assert (n.term + 1) % U64 == n.term + 1;
  }

  lemma ServeTerm(n: Node, bytes: Bytes, timeout: nat)
    ensures n.term <= HandleRequest(n, bytes, timeout).0.term
  {
  }

  lemma ResponseTerm(n: Node, from: NodeId, bytes: Bytes)
    ensures n.term <= OnResponse(n, from, bytes).0.term
  {
  }

  // ---- the textbook invariant fails ----

  predicate IsBeatOfTerm(n: Node, bytes: Bytes)
  {
    n.role != Follower &&
    var r := ParseRequest(bytes);
    r.Some? && r.value.name == HEARTBEAT &&
    var d := DecodeTermAndId(r.value.payload);
    d.Some? && d.value.0 == n.term
  }

  /** The event that makes node `v` forget a vote: it is a candidate (or a leader) and is
      served a heartbeat of the term it is in. */
  predicate ForgetsVote(s: State, e: Event, v: NodeId)
    requires v < |s.nodes|
  {
    e.ServeRequest? && e.packet.to == v && IsBeatOfTerm(s.nodes[v], e.packet.bytes)
  }

  /** Within a term a recorded vote changes in exactly one way. */
  lemma VoteForgottenExactly(s: State, e: Event, v: NodeId)
    requires Enabled(s, e) && v < |s.nodes| && s.nodes[v].votedFor.Some?
    requires Next(s, e).nodes[v].term == s.nodes[v].term
    ensures Next(s, e).nodes[v].votedFor != s.nodes[v].votedFor <==> ForgetsVote(s, e, v)
  {
    hide OnTick, HandleRequest, OnResponse, IsBeatOfTerm;
    match e
    case Tick(i, timeout) =>
      TickKeepsVote(s.nodes[v], timeout);
    case ServeRequest(p, timeout) =>
      if p.to == v {
        ServeForgets(s.nodes[v], p.bytes, timeout);
      }
    case TakeAnswer(p, i) =>
      AnswerKeepsVote(s.nodes[v], p.from, p.bytes);
  }

  lemma TickKeepsVote(n: Node, timeout: nat)
    ensures var n' := OnTick(n, timeout).0; n'.term == n.term ==> n'.votedFor == n.votedFor
  {
  }

  lemma AnswerKeepsVote(n: Node, from: NodeId, bytes: Bytes)
    ensures var n' := OnResponse(n, from, bytes).0; n'.term == n.term ==> n'.votedFor == n.votedFor
  {
  }

  lemma ServeForgets(n: Node, bytes: Bytes, timeout: nat)
    requires n.votedFor.Some? && HandleRequest(n, bytes, timeout).0.term == n.term
    ensures HandleRequest(n, bytes, timeout).0.votedFor != n.votedFor <==> IsBeatOfTerm(n, bytes)
  {
    assert |REQUEST_VOTE| != |HEARTBEAT|;
  }

  /** A run of three nodes in which node 1 votes for itself and then, in the same term,
      for node 0: it was a candidate, a heartbeat of the elected leader made it forget its
      vote, and a vote request that had been delayed reached it afterwards. */
  lemma TwoVotesInOneTerm() returns (states: seq<State>, events: seq<Event>)
    ensures IsRun(3, states, events) && |states| == 7
    ensures |states[2].nodes| == |states[6].nodes| == 3
    ensures states[2].nodes[1].term == states[6].nodes[1].term
    ensures states[2].nodes[1].votedFor == Some(1) && states[6].nodes[1].votedFor == Some(0)
  {
    states, events := FirstState();
    hide Carries, Ask, Peers, IsRun;
    states, events := Campaigns(states, events, 0);
    states, events := Campaigns(states, events, 1);
    var grant, beat, answer;
    states, events, grant := Grants(states, events, 2);
    states, events, beat := Elected(states, events, grant);
    states, events := Forgets(states, events, beat);
    states, events, answer := Grants(states, events, 1);
  }

  lemma FirstState() returns (states: seq<State>, events: seq<Event>)
    ensures RunOf3(states, events) && |states| == 1 && Last(states) == State([Fresh(0), Fresh(1), Fresh(2)], {})
  {
    hide Peers;
    states, events := [State([Fresh(0), Fresh(1), Fresh(2)], {})], [];
  }

  ghost function Fresh(i: NodeId): Node
  {
    Node(i, Peers(i, 3), Follower, 0, None, {}, 1, HEARTBEAT_INTERVAL)
  }

  ghost function Campaigner(i: NodeId): Node
  {
    Node(i, Peers(i, 3), Candidate, 1, Some(i), {i}, 9, HEARTBEAT_INTERVAL)
  }

  ghost function Ask(i: NodeId, j: NodeId): Packet
  {
    Packet(i, j, VoteRequestBytes(Campaigner(i)))
  }

  ghost predicate RunOf3(states: seq<State>, events: seq<Event>)
  {
    IsRun(3, states, events) && |states[|states| - 1].nodes| == 3
  }

  ghost function Last(states: seq<State>): State
    requires states != []
  {
    states[|states| - 1]
  }

  lemma ExtendRun(count: nat, states: seq<State>, events: seq<Event>, e: Event)
    requires IsRun(count, states, events) && Enabled(Last(states), e)
    ensures IsRun(count, states + [Next(Last(states), e)], events + [e])
  {
    hide Next, Enabled;
    var states', events' := states + [Next(Last(states), e)], events + [e];
    forall k | 0 <= k < |events'|
      ensures Enabled(states'[k], events'[k]) && states'[k + 1] == Next(states'[k], events'[k])
    {
      if k < |events| {
        RunStep(count, states, events, k);
      }
    }
  }

  lemma Campaigns(states: seq<State>, events: seq<Event>, i: NodeId)
    returns (states': seq<State>, events': seq<Event>)
    requires RunOf3(states, events) && i < 2 && Last(states).nodes[i] == Fresh(i)
    ensures RunOf3(states', events') && states' == states + [Last(states')]
    ensures Last(states').nodes == Last(states).nodes[i := Campaigner(i)] && Last(states).net <= Last(states').net
    ensures forall j: nat :: j < 3 && j != i ==> Ask(i, j) in Last(states').net
  {
    var e := Tick(i, 9);
    CampaignStep(Last(states), i);
    ExtendRun(3, states, events, e);
    hide Next, Enabled, Ask, Peers, IsRun;
    states', events' := states + [Next(Last(states), e)], events + [e];
  }

  lemma CampaignStep(s: State, i: NodeId)
    requires |s.nodes| == 3 && i < 2 && s.nodes[i] == Fresh(i)
    ensures var s' := Next(s, Tick(i, 9));
            s'.nodes == s.nodes[i := Campaigner(i)] && s.net <= s'.net &&
            forall j: nat :: j < 3 && j != i ==> Ask(i, j) in s'.net
  {
    hide VoteRequestBytes, HeartbeatBytes, Peers;
    assert |Peers(i, 3)| == 2;
  }

  lemma AskCarried(v: NodeId)
    ensures Carries(Ask(0, v), VoteRequest(0, v, 1))
  {
    hide BigEndian, LengthPrefixed, ParseRequest;
    RequestRoundTrip(Request(RequestId(1, 0), REQUEST_VOTE, EncodeTermAndId(1, 0)));
  }

  ghost function AnswerTo(s: State, v: NodeId): Packet
    requires v < |s.nodes|
  {
    Packet(v, ResponsePort(0), HandleRequest(s.nodes[v], Ask(0, v).bytes, 9).1)
  }

  lemma GrantStep(s: State, v: NodeId)
    requires |s.nodes| == 3 && 0 < v < 3 && Ask(0, v) in s.net
    requires s.nodes[v].votedFor.None? && s.nodes[v].term <= 1
    ensures var s' := Next(s, ServeRequest(Ask(0, v), 9));
            |s'.nodes| == 3 && s'.nodes[v].term == 1 && s'.nodes[v].votedFor == Some(0) &&
            (forall j: nat :: j < 3 && j != v ==> s'.nodes[j] == s.nodes[j]) &&
            s.net <= s'.net && AnswerTo(s, v) in s'.net && Carries(AnswerTo(s, v), Vote(v, 0, 1, true))
  {
    AskCarried(v);
    hide VoteRequestBytes, HandleRequest, Carries;
    ServedVote(s.nodes[v], Ask(0, v), VoteRequest(0, v, 1), 9);
  }

  lemma Grants(states: seq<State>, events: seq<Event>, v: NodeId)
    returns (states': seq<State>, events': seq<Event>, answer: Packet)
    requires RunOf3(states, events) && 0 < v < 3 && Ask(0, v) in Last(states).net
    requires Last(states).nodes[v].votedFor.None? && Last(states).nodes[v].term <= 1
    ensures RunOf3(states', events') && states' == states + [Last(states')]
    ensures Last(states').nodes[v].term == 1 && Last(states').nodes[v].votedFor == Some(0)
    ensures forall j: nat :: j < 3 && j != v ==> Last(states').nodes[j] == Last(states).nodes[j]
    ensures Last(states).net <= Last(states').net && answer in Last(states').net
    ensures Carries(answer, Vote(v, 0, 1, true))
  {
    var e := ServeRequest(Ask(0, v), 9);
    assert Ask(0, v).to == v && Enabled(Last(states), e);
    hide Next, Ask, AnswerTo, Carries;
    GrantStep(Last(states), v);
    ExtendRun(3, states, events, e);
    states', events' := states + [Next(Last(states), e)], events + [e];
    answer := AnswerTo(Last(states), v);
    hide IsRun;
  }

  lemma ElectedStep(s: State, grant: Packet) returns (beat: Packet)
    requires |s.nodes| == 3 && s.nodes[0] == Campaigner(0)
    requires grant in s.net && Carries(grant, Vote(2, 0, 1, true))
    ensures var s' := Next(s, TakeAnswer(grant, 0));
            |s'.nodes| == 3 && s'.nodes[1] == s.nodes[1] && s.net <= s'.net &&
            beat in s'.net && Carries(beat, Beat(0, 1, 1))
  {
    hide BigEndian, LengthPrefixed, ParseRequest, Value, Peers;
    var a := Campaigner(0);
    AnswerRoundTrip(1, true);
    assert OnResponse(a, 2, grant.bytes) == OnAnswer(a, 2, 1, true);
    assert a.votes + {2} == {0, 2} && |Peers(0, 3)| == 2;
    var leader := a.(votes := {0, 2}, role := Leader);
    assert OnAnswer(a, 2, 1, true) == (leader, Broadcast(leader, HeartbeatBytes(leader)));
    beat := Packet(0, 1, HeartbeatBytes(leader));
    assert 1 in leader.peers;
    RequestRoundTrip(Request(RequestId(1, 0), HEARTBEAT, EncodeTermAndId(1, 0)));
  }

  lemma Elected(states: seq<State>, events: seq<Event>, grant: Packet)
    returns (states': seq<State>, events': seq<Event>, beat: Packet)
    requires RunOf3(states, events) && Last(states).nodes[0] == Campaigner(0)
    requires grant in Last(states).net && Carries(grant, Vote(2, 0, 1, true))
    ensures RunOf3(states', events') && states' == states + [Last(states')]
    ensures Last(states').nodes[1] == Last(states).nodes[1] && Last(states).net <= Last(states').net
    ensures beat in Last(states').net && Carries(beat, Beat(0, 1, 1))
  {
    var e := TakeAnswer(grant, 0);
    assert Enabled(Last(states), e);
    hide Next, Carries, Peers;
    beat := ElectedStep(Last(states), grant);
    ExtendRun(3, states, events, e);
    states', events' := states + [Next(Last(states), e)], events + [e];
    hide IsRun;
  }

  lemma Forgets(states: seq<State>, events: seq<Event>, beat: Packet)
    returns (states': seq<State>, events': seq<Event>)
    requires RunOf3(states, events) && Last(states).nodes[1] == Campaigner(1)
    requires beat in Last(states).net && Carries(beat, Beat(0, 1, 1))
    ensures RunOf3(states', events') && states' == states + [Last(states')]
    ensures Last(states').nodes[1].votedFor == None && Last(states').nodes[1].term == 1
    ensures Last(states).net <= Last(states').net
  {
    var s, e := Last(states), ServeRequest(beat, 9);
    ServedBeat(s.nodes[1], beat, Beat(0, 1, 1), 9);
    ExtendRun(3, states, events, e);
    states', events' := states + [Next(s, e)], events + [e];
  }
}
