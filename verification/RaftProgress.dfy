/** What a Raft server does, as well as what it does not: the laws of one step, the timers,
    and that an election can always be won.  Safety alone would hold of servers that never
    vote, count or campaign. */
module RaftProgress {
  import opened Codec
  import opened Rpc
  import opened RaftServer
  import opened RaftSafety

  // ---- one request ----

  /** A vote is given if and only if the request is newer, or of the same term and nobody else
      has this node's vote.  Otherwise nothing changes. */
  lemma VoteGrantedExactly(n: Node, term: nat, candidate: NodeId, timeout: nat)
    ensures var (n', granted) := OnVoteRequest(n, term, candidate, timeout);
            (granted <==> term > n.term || (term == n.term && forall c | n.votedFor == Some(c) :: c == candidate)) &&
            (granted ==> n'.term == term && n'.votedFor == Some(candidate) && n'.electionTicks == timeout) &&
            (granted && term == n.term ==> n'.role == n.role && n'.votes == n.votes) &&
            (granted && term > n.term ==> n'.role == Follower && n'.votes == {}) &&
            (!granted ==> n' == n) &&
            n'.self == n.self && n'.peers == n.peers && n'.heartbeatTicks == n.heartbeatTicks
  {
  }

  /** A duplicate of a vote request gets the same answer and changes nothing but the timer,
      which a granted vote restarts again. */
  lemma AskedAgain(n: Node, term: nat, candidate: NodeId, first: nat, second: nat)
    ensures var (n1, granted) := OnVoteRequest(n, term, candidate, first);
            OnVoteRequest(n1, term, candidate, second) == (if granted then n1.(electionTicks := second) else n1, granted)
  {
  }

  /** A heartbeat is accepted if and only if it is not stale; then the node follows, in the
      beat's term, with its election timer restarted, and a follower of that term keeps its
      vote.  Otherwise nothing changes. */
  lemma BeatAcceptedExactly(n: Node, term: nat, timeout: nat)
    ensures var (n', accepted) := OnHeartbeat(n, term, timeout);
            (accepted <==> term >= n.term) && (!accepted ==> n' == n) &&
            (accepted ==> n'.term == term && n'.role == Follower && n'.electionTicks == timeout) &&
            (accepted && term == n.term && n.role == Follower ==> n'.votedFor == n.votedFor && n'.votes == n.votes) &&
            (accepted && !(term == n.term && n.role == Follower) ==> n'.votedFor == None && n'.votes == {}) &&
            n'.self == n.self && n'.peers == n.peers && n'.heartbeatTicks == n.heartbeatTicks
  {
  }

  /** A request for a method nobody registered, or one that does not parse, changes nothing
      and is answered with a failure. */
  lemma UnknownRefused(n: Node, request: Bytes, timeout: nat)
    requires var r := ParseRequest(request); r.None? || (r.value.name != REQUEST_VOTE && r.value.name != HEARTBEAT)
    requires |request| < U32 - |UNKNOWN_METHOD|
    ensures HandleRequest(n, request, timeout).0 == n
    ensures var a := ParseResponse(HandleRequest(n, request, timeout).1);
            a.Some? && !a.value.ok && a.value.payload == [] &&
            a.value.id == (if ParseRequest(request).Some? then ParseRequest(request).value.id else 0)
  {
    hide ParseResponse, SerializeResponse;
    var r := ParseRequest(request);
    if r.Some? {
      ParsedId(request);
      ResponseRoundTrip(Response(r.value.id, false, [], UNKNOWN_METHOD + r.value.name));
    } else {
      ResponseRoundTrip(Response(0, false, [], MALFORMED));
    }
  }

  lemma ParsedId(request: Bytes)
    requires ParseRequest(request).Some?
    ensures ParseRequest(request).value.id < U64 && |ParseRequest(request).value.name| <= |request|
  {
    hide Value;
    Widths();
    ValueBound(request[..8]);
  }

  /** Request ids tell term and sender apart as long as node ids stay below a million and the
      product fits 64 bits; from a million on they do not. */
  lemma RequestIdTells(t: nat, i: NodeId, u: nat, j: NodeId)
    requires i < 1000000 && j < 1000000 && (t + 1) * 1000000 < U64 && (u + 1) * 1000000 < U64
    ensures RequestId(t, i) == RequestId(u, j) ==> t == u && i == j
    ensures RequestId(1, 0) == RequestId(0, 1000000)
  {
    assert t * 1000000 + i < U64 && u * 1000000 + j < U64;
  }

  // ---- one answer ----

  ghost predicate BeatsAll(n: Node, out: set<Packet>)
  {
    out == set peer | peer in n.peers :: Packet(n.self, peer, HeartbeatBytes(n))
  }

  /** An answer of a newer term deposes.  A yes of the candidate's term counts, once for each
      sender, and makes it leader, with a beat to every peer, if and only if more than half of
      the cluster has now said yes.  Nothing else changes anything. */
  lemma AnswerCountsExactly(n: Node, from: NodeId, term: nat, yes: bool)
    ensures var (n', out) := OnAnswer(n, from, term, yes);
            var counts := n.role == Candidate && term == n.term && yes;
            (term > n.term ==> n' == n.(term := term, role := Follower, votedFor := None, votes := {}) && out == {}) &&
            (term <= n.term && !counts ==> n' == n && out == {}) &&
            (counts ==> n'.votes == n.votes + {from} && n'.term == n.term && n'.votedFor == n.votedFor &&
                        (n'.role == Leader <==> 2 * |n.votes + {from}| > |n.peers| + 1) &&
                        (n'.role == Leader ==> BeatsAll(n', out) && n'.heartbeatTicks == HEARTBEAT_INTERVAL) &&
                        (n'.role != Leader ==> n'.role == Candidate && out == {})) &&
            n'.self == n.self && n'.peers == n.peers && n'.electionTicks == n.electionTicks
  {
    hide HeartbeatBytes;
  }

  // ---- timers ----

  /** The node after one tick for each timeout drawn. */
  function Ticked(n: Node, timeouts: seq<nat>): Node
  {
    if timeouts == [] then n
    else OnTick(Ticked(n, timeouts[..|timeouts| - 1]), timeouts[|timeouts| - 1]).0
  }

  /** What the last of these ticks sends. */
  function SentLast(n: Node, timeouts: seq<nat>): set<Packet>
    requires timeouts != []
  {
    OnTick(Ticked(n, timeouts[..|timeouts| - 1]), timeouts[|timeouts| - 1]).1
  }

  /** A node that is not leader waits its timer out, however the timeouts are drawn: until then
      it only counts down and sends nothing. */
  lemma {:induction false} WaitsForTimeout(n: Node, timeouts: seq<nat>)
    requires n.role != Leader && |timeouts| < n.electionTicks
    ensures Ticked(n, timeouts) == n.(electionTicks := n.electionTicks - |timeouts|)
    ensures timeouts != [] ==> SentLast(n, timeouts) == {}
  {
    if timeouts != [] {
      WaitsForTimeout(n, timeouts[..|timeouts| - 1]);
    }
  }

  /** And at the tick that brings the timer to zero it campaigns: the next term, its own vote
      only, a fresh timer, a request to every peer. */
  lemma CampaignsAtTimeout(n: Node, timeouts: seq<nat>)
    requires n.role != Leader && n.term + 1 < U64 && n.peers != [] && timeouts != []
    requires |timeouts| == n.electionTicks || (n.electionTicks == 0 && |timeouts| == 1)
    ensures var n', timeout := Ticked(n, timeouts), timeouts[|timeouts| - 1];
            n' == n.(term := n.term + 1, role := Candidate, votedFor := Some(n.self), votes := {n.self},
                     electionTicks := timeout) &&
            SentLast(n, timeouts) == set peer | peer in n.peers :: Packet(n.self, peer, VoteRequestBytes(n'))
  {
    hide VoteRequestBytes, HeartbeatBytes;
    if n.electionTicks > 0 {
      WaitsForTimeout(n, timeouts[..|timeouts| - 1]);
    } else {
      assert timeouts[..0] == [];
    }
  }

  /** A leader that took office beats at every third tick and at no other, for as long as it
      is only ticked. */
  lemma {:induction false} BeatsEveryThird(n: Node, timeouts: seq<nat>)
    requires n.role == Leader && n.heartbeatTicks == HEARTBEAT_INTERVAL
    ensures Ticked(n, timeouts) == n.(heartbeatTicks := 3 - |timeouts| % 3)
    ensures timeouts != [] ==> if |timeouts| % 3 == 0 then BeatsAll(n, SentLast(n, timeouts)) else SentLast(n, timeouts) == {}
  {
    hide OnTick, BeatsAll;
    if timeouts != [] {
      var before := timeouts[..|timeouts| - 1];
      BeatsEveryThird(n, before);
      LeaderTick(n, 3 - |before| % 3, timeouts[|before|]);
    }
  }

  lemma LeaderTick(n: Node, ticks: nat, timeout: nat)
    requires n.role == Leader && 1 <= ticks <= 3
    ensures var (n', out) := OnTick(n.(heartbeatTicks := ticks), timeout);
            n' == n.(heartbeatTicks := if ticks == 1 then HEARTBEAT_INTERVAL else ticks - 1) &&
            if ticks == 1 then BeatsAll(n, out) else out == {}
  {
    SameBytes(n);
    hide HeartbeatBytes;
  }

  lemma SameBytes(n: Node)
    ensures forall t: nat :: HeartbeatBytes(n.(heartbeatTicks := t)) == HeartbeatBytes(n)
  {
  }

  /** So a beat accepted every few ticks suppresses elections: within the timeout drawn at a
      beat, the follower neither changes its term nor sends anything. */
  lemma BeatSuppressesElection(n: Node, term: nat, timeout: nat, timeouts: seq<nat>)
    requires term >= n.term && |timeouts| < timeout
    ensures var n' := Ticked(OnHeartbeat(n, term, timeout).0, timeouts);
            n'.role == Follower && n'.term == term && n'.electionTicks == timeout - |timeouts|
  {
    WaitsForTimeout(OnHeartbeat(n, term, timeout).0, timeouts);
  }

  // ---- an election ----

  /** States and the events between them. */
  ghost predicate Steps(states: seq<State>, events: seq<Event>)
  {
    |states| == |events| + 1 &&
    forall k | 0 <= k < |events| :: Enabled(states[k], events[k]) && states[k + 1] == Next(states[k], events[k])
  }

  ghost predicate Distinct(voters: seq<NodeId>)
  {
    forall j, k | 0 <= j < k < |voters| :: voters[j] != voters[k]
  }

  ghost function First(voters: seq<NodeId>, k: nat): set<NodeId>
    requires k <= |voters|
  {
    set j | 0 <= j < k :: voters[j]
  }

  lemma {:induction false} FirstSize(voters: seq<NodeId>, k: nat, i: NodeId)
    requires k <= |voters| && Distinct(voters) && i !in voters
    ensures |First(voters, k) + {i}| == k + 1
  {
    if k == 0 {
      assert First(voters, 0) + {i} == {i};
    } else {
      FirstSize(voters, k - 1, i);
      FirstGrows(voters, k - 1);
      NotYet(voters, k - 1);
      hide First, Distinct;
      assert First(voters, k) + {i} == First(voters, k - 1) + {i} + {voters[k - 1]};
    }
  }

  lemma NotYet(voters: seq<NodeId>, k: nat)
    requires k < |voters| && Distinct(voters)
    ensures voters[k] !in First(voters, k)
  {
  }

  /** The cluster is wired up, and node `i` is in a term no other node is ahead of. */
  ghost predicate Foremost(s: State, i: NodeId)
  {
    i < |s.nodes| <= PORT_BASE && s.nodes[i].term + 1 < U64 &&
    forall j: nat | j < |s.nodes| ::
      s.nodes[j].self == j && s.nodes[j].peers == Peers(j, |s.nodes|) && s.nodes[j].term <= s.nodes[i].term
  }

  ghost function Asking(i: NodeId, to: NodeId, term: nat): Packet
  {
    Packet(i, to, SerializeRequest(Request(RequestId(term, i), REQUEST_VOTE, EncodeTermAndId(term, i))))
  }

  /** Node `i` campaigns in term `t` and has heard from the first `k` of `voters`. */
  ghost predicate Collecting(s: State, count: nat, i: NodeId, t: nat, voters: seq<NodeId>, k: nat)
    requires k <= |voters|
  {
    |s.nodes| == count && i < count && s.nodes[i].self == i && s.nodes[i].peers == Peers(i, count) &&
    s.nodes[i].term == t && s.nodes[i].votes == First(voters, k) + {i} && s.nodes[i].role == Candidate &&
    (forall j | k <= j < |voters| ::
       voters[j] < count && voters[j] != i && s.nodes[voters[j]].term < t && Asking(i, voters[j], t) in s.net)
  }

  lemma AskingCarries(i: NodeId, to: NodeId, t: nat)
    requires t < U64 && i < PORT_BASE
    ensures Carries(Asking(i, to, t), VoteRequest(i, to, t))
  {
    hide BigEndian, LengthPrefixed, ParseRequest;
    RequestRoundTrip(Request(RequestId(t, i), REQUEST_VOTE, EncodeTermAndId(t, i)));
  }

  /** The next voter is asked and says yes. */
  lemma VoterAgrees(s: State, count: nat, i: NodeId, t: nat, voters: seq<NodeId>, k: nat) returns (s1: State, grant: Packet)
    requires k < |voters| && Collecting(s, count, i, t, voters, k) && Distinct(voters) && t < U64 && count <= PORT_BASE
    ensures var e := ServeRequest(Asking(i, voters[k], t), 9); Enabled(s, e) && s1 == Next(s, e)
    ensures |s1.nodes| == count && (forall j: nat | j < count && j != voters[k] :: s1.nodes[j] == s.nodes[j])
    ensures s.net <= s1.net && grant in s1.net && Carries(grant, Vote(voters[k], i, t, true))
    ensures s1.nodes[voters[k]].term == t && s1.nodes[voters[k]].votedFor == Some(i)
  {
    var v := voters[k];
    AskingCarries(i, v, t);
    VoteGrantedExactly(s.nodes[v], t, i, 9);
    hide Carries, HandleRequest, Asking, OnVoteRequest, First;
    var p := Asking(i, v, t);
    AskingPlaces(i, v, t);
    ServedVote(s.nodes[v], p, VoteRequest(i, v, t), 9);
    s1 := Next(s, ServeRequest(p, 9));
    grant := Packet(v, ResponsePort(i), HandleRequest(s.nodes[v], p.bytes, 9).1);
  }

  lemma AskingPlaces(i: NodeId, to: NodeId, t: nat)
    ensures Asking(i, to, t).from == i && Asking(i, to, t).to == to
  {
  }

  /** Its yes reaches the candidate. */
  lemma VoteArrives(s: State, count: nat, i: NodeId, t: nat, v: NodeId, votes: set<NodeId>, grant: Packet) returns (s1: State)
    requires |s.nodes| == count && i < count <= PORT_BASE && t < U64 && s.nodes[i].role == Candidate && s.nodes[i].term == t
    requires s.nodes[i].votes == votes && s.nodes[i].peers == Peers(i, count) && s.nodes[i].self == i
    requires grant in s.net && Carries(grant, Vote(v, i, t, true))
    ensures Enabled(s, TakeAnswer(grant, i)) && s1 == Next(s, TakeAnswer(grant, i))
    ensures |s1.nodes| == count && (forall j: nat | j < count && j != i :: s1.nodes[j] == s.nodes[j]) && s.net <= s1.net
    ensures var n := s1.nodes[i];
            n.self == i && n.peers == Peers(i, count) && n.term == t && n.votes == votes + {v} &&
            (n.role == Leader <==> 2 * |votes + {v}| > count) && (n.role != Leader ==> n.role == Candidate) &&
            (n.role == Leader ==> forall j | j in Peers(i, count) :: Packet(i, j, HeartbeatBytes(n)) in s1.net)
  {
    hide HeartbeatBytes, ParseResponse, DecodeAnswer, Peers, BecomeLeader;
    AnswerRoundTrip(t, true);
    assert OnResponse(s.nodes[i], grant.from, grant.bytes) == OnAnswer(s.nodes[i], v, t, true);
    hide OnAnswer;
    AnswerCountsExactly(s.nodes[i], v, t, true);
    s1 := Next(s, TakeAnswer(grant, i));
  }

  lemma FirstGrows(voters: seq<NodeId>, k: nat)
    requires k < |voters|
    ensures First(voters, k) + {voters[k]} == First(voters, k + 1)
  {
  }

  /** One voter after the other: the candidate stays one until more than half have voted for
      it, itself included, and is leader then. */
  lemma {:induction false} Gather(s: State, count: nat, i: NodeId, t: nat, voters: seq<NodeId>, k: nat)
    returns (states: seq<State>, events: seq<Event>)
    requires k < |voters| == count / 2 && Collecting(s, count, i, t, voters, k) && Distinct(voters) && i !in voters
    requires t < U64 && count <= PORT_BASE
    ensures Steps(states, events) && states[0] == s && |events| == 2 * (count / 2 - k)
    ensures forall m | 0 <= m < |events| :: |states[m].nodes| == count && states[m].nodes[i].role == Candidate
    ensures Won(Last(states), count, i, t)
    decreases |voters| - k
  {
    hide Carries, Next, Enabled, Asking, First, Peers, HeartbeatBytes;
    var s1, grant := VoterAgrees(s, count, i, t, voters, k);
    var e1, e2 := ServeRequest(Asking(i, voters[k], t), 9), TakeAnswer(grant, i);
    var s2 := VoteArrives(s1, count, i, t, voters[k], First(voters, k) + {i}, grant);
    FirstGrows(voters, k);
    FirstSize(voters, k + 1, i);
    assert First(voters, k) + {i} + {voters[k]} == First(voters, k + 1) + {i};
    if k + 1 == |voters| {
      states, events := [s, s1, s2], [e1, e2];
      assert Last(states) == s2;
    } else {
      assert Collecting(s2, count, i, t, voters, k + 1);
      var later, rest := Gather(s2, count, i, t, voters, k + 1);
      states, events := [s, s1] + later, [e1, e2] + rest;
      StepsBefore(s, s1, e1, e2, later, rest);
      assert Last(states) == Last(later);
    }
  }

  lemma StepsBefore(s: State, s1: State, e1: Event, e2: Event, later: seq<State>, rest: seq<Event>)
    requires Steps(later, rest) && Enabled(s, e1) && s1 == Next(s, e1) && Enabled(s1, e2) && later[0] == Next(s1, e2)
    ensures Steps([s, s1] + later, [e1, e2] + rest)
  {
    hide Next, Enabled;
    var states, events := [s, s1] + later, [e1, e2] + rest;
    forall k | 0 <= k < |events|
      ensures Enabled(states[k], events[k]) && states[k + 1] == Next(states[k], events[k])
    {
      if k >= 2 {
        assert states[k] == later[k - 2] && events[k] == rest[k - 2] && states[k + 1] == later[k - 1];
      }
    }
  }

  /** Node `i` leads term `t` and has told every other node. */
  ghost predicate Won(s: State, count: nat, i: NodeId, t: nat)
  {
    |s.nodes| == count && i < count && s.nodes[i].role == Leader && s.nodes[i].term == t &&
    forall j | j in Peers(i, count) :: Packet(i, j, HeartbeatBytes(s.nodes[i])) in s.net
  }

  /** The campaign itself. */
  lemma CampaignStarts(s: State, i: NodeId, voters: seq<NodeId>) returns (s1: State)
    requires Foremost(s, i) && s.nodes[i].role != Leader && s.nodes[i].electionTicks <= 1
    requires forall j | 0 <= j < |voters| :: voters[j] < |s.nodes| && voters[j] != i
    requires |s.nodes| > 1
    ensures Enabled(s, Tick(i, 9)) && s1 == Next(s, Tick(i, 9))
    ensures Collecting(s1, |s.nodes|, i, s.nodes[i].term + 1, voters, 0)
  {
    hide Peers, HeartbeatBytes;
    s1 := Next(s, Tick(i, 9));
    var n := s.nodes[i];
    assert n.peers != [];
    CampaignsAtTimeout(n, [9]);
    assert [9][..0] == [];
    assert Ticked(n, [9]) == OnTick(n, 9).0 && SentLast(n, [9]) == OnTick(n, 9).1;
    hide OnTick, Ticked, SentLast;
    assert First(voters, 0) + {i} == {i};
    forall j | 0 <= j < |voters|
      ensures Asking(i, voters[j], n.term + 1) in s1.net
    {
      assert voters[j] in n.peers;
    }
  }

  /** Elections can be won.  A node in a term nobody is ahead of, whose timer runs out, is
      elected by any half of the other nodes (rounded up to make a majority with itself), after
      exactly one tick and one request and answer for each, and not before; it then tells every
      other node. */
  lemma ElectionCompletes(s: State, i: NodeId, voters: seq<NodeId>) returns (states: seq<State>, events: seq<Event>)
    requires Foremost(s, i) && s.nodes[i].role != Leader && s.nodes[i].electionTicks <= 1
    requires |voters| == |s.nodes| / 2 && Distinct(voters)
    requires forall j | 0 <= j < |voters| :: voters[j] < |s.nodes| && voters[j] != i
    ensures Steps(states, events) && states[0] == s && |events| == 1 + 2 * |voters|
    ensures forall m | 0 <= m < |events| :: |states[m].nodes| == |s.nodes| && states[m].nodes[i].role != Leader
    ensures Won(Last(states), |s.nodes|, i, s.nodes[i].term + 1)
  {
    var count, t := |s.nodes|, s.nodes[i].term + 1;
    if count == 1 {
      var s1 := LoneNodeWins(s, i);
      states, events := [s, s1], [Tick(i, 9)];
      assert Last(states) == s1;
    } else {
      var s1 := CampaignStarts(s, i, voters);
      hide Next, Enabled, Collecting, Won;
      var later, rest := Gather(s1, count, i, t, voters, 0);
      states, events := [s] + later, [Tick(i, 9)] + rest;
      assert Last(states) == Last(later);
      OneBefore(s, Tick(i, 9), later, rest);
    }
  }

  lemma OneBefore(s: State, e: Event, later: seq<State>, rest: seq<Event>)
    requires Steps(later, rest) && Enabled(s, e) && later[0] == Next(s, e)
    ensures Steps([s] + later, [e] + rest)
  {
    hide Next, Enabled;
    var states, events := [s] + later, [e] + rest;
    forall k | 0 <= k < |events|
      ensures Enabled(states[k], events[k]) && states[k + 1] == Next(states[k], events[k])
    {
      if k >= 1 {
        assert states[k] == later[k - 1] && events[k] == rest[k - 1] && states[k + 1] == later[k];
      }
    }
  }

  /** A cluster of one elects itself. */
  lemma LoneNodeWins(s: State, i: NodeId) returns (s1: State)
    requires Foremost(s, i) && |s.nodes| == 1 && s.nodes[i].role != Leader && s.nodes[i].electionTicks <= 1
    ensures Enabled(s, Tick(i, 9)) && s1 == Next(s, Tick(i, 9)) && Won(s1, 1, i, s.nodes[i].term + 1)
  {
    hide HeartbeatBytes, VoteRequestBytes;
    assert s.nodes[i].peers == [];
    s1 := Next(s, Tick(i, 9));
  }
}
