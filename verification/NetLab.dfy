/** Layer-2 delivery over hosts, switches and routers.  Switches learn which neighbour leads to
    a source address; learning must not change who receives a frame. */
module NetLab {
  import opened Codec

  type NodeId = nat
  type Mac = nat

  const BROADCAST: Mac := 0xFFFF_FFFF_FFFF

  datatype Interface = Interface(neighbor: NodeId, mac: Mac)

  datatype Node = Host(mac: Mac) | Switch | Router(interfaces: seq<Interface>)

  datatype Net = Net(nodes: map<NodeId, Node>, adjacency: map<NodeId, seq<NodeId>>)

  datatype Frame = Frame(source: Mac, destination: Mac)

  /** For each switch, the neighbour each learned address was last seen from. */
  type Tables = map<NodeId, map<Mac, NodeId>>

  ghost predicate Adjacent(net: Net, x: NodeId, y: NodeId)
  {
    x in net.adjacency && y in net.adjacency[x]
  }

  /** Links join known nodes and run both ways. */
  ghost predicate WellFormed(net: Net)
  {
    net.adjacency.Keys == net.nodes.Keys &&
    forall x, y | Adjacent(net, x, y) :: y in net.nodes && Adjacent(net, y, x)
  }

  /** A node that forwards: neither a host nor a router. */
  predicate IsSwitch(net: Net, x: NodeId): (b: bool)
    ensures b ==> x in net.nodes && !net.nodes[x].Host? && !net.nodes[x].Router?
  {
    x in net.nodes && net.nodes[x].Switch?
  }

  // ---- walks ----

  /** A walk along links that never turns straight back. */
  ghost predicate Walk(net: Net, w: seq<NodeId>)
  {
    w != [] &&
    (forall i | 0 < i < |w| :: Adjacent(net, w[i - 1], w[i])) &&
    (forall i | 1 < i < |w| :: w[i - 2] != w[i])
  }

  ghost predicate ThroughSwitches(net: Net, w: seq<NodeId>)
  {
    forall i | 0 < i < |w| - 1 :: IsSwitch(net, w[i])
  }

  /** Between two nodes there is at most one such walk through switches.  Hosts and routers end
      a layer-2 network, so loops through them are allowed. */
  ghost predicate LoopFree(net: Net)
  {
    forall v, w | Walk(net, v) && ThroughSwitches(net, v) && Walk(net, w) && ThroughSwitches(net, w) &&
                  v[0] == w[0] && v[|v| - 1] == w[|w| - 1] :: v == w
  }

  function Reverse(w: seq<NodeId>): (r: seq<NodeId>)
    ensures |r| == |w| && forall i | 0 <= i < |w| :: r[i] == w[|w| - 1 - i]
  {
    seq(|w|, i requires 0 <= i < |w| => w[|w| - 1 - i])
  }

  lemma {:induction false} ReverseWalk(net: Net, w: seq<NodeId>)
    requires WellFormed(net) && Walk(net, w)
    ensures Walk(net, Reverse(w)) && (ThroughSwitches(net, w) ==> ThroughSwitches(net, Reverse(w)))
  {
    var r, n := Reverse(w), |w|;
    forall i | 0 < i < n
      ensures Adjacent(net, r[i - 1], r[i])
    {
      assert Adjacent(net, w[n - 1 - i], w[n - i]);
    }
    forall i | 1 < i < n
      ensures r[i - 2] != r[i]
    {
      assert w[n - 1 - i] != w[n + 1 - i];
    }
  }

  lemma {:induction false} WalkSuffix(net: Net, w: seq<NodeId>, i: nat)
    requires Walk(net, w) && i < |w|
    ensures Walk(net, w[i..]) && (ThroughSwitches(net, w) ==> ThroughSwitches(net, w[i..]))
  {
    var s := w[i..];
    forall k | 0 < k < |s|
      ensures Adjacent(net, s[k - 1], s[k])
    {
      assert Adjacent(net, w[i + k - 1], w[i + k]);
    }
  }

  lemma {:induction false} WalkPrefix(net: Net, w: seq<NodeId>, i: nat)
    requires Walk(net, w) && 0 < i <= |w|
    ensures Walk(net, w[..i])
  {
  }

  lemma {:induction false} WalkSnoc(net: Net, w: seq<NodeId>, t: NodeId)
    requires Walk(net, w) && Adjacent(net, w[|w| - 1], t) && (|w| > 1 ==> w[|w| - 2] != t)
    ensures Walk(net, w + [t])
  {
    var r := w + [t];
    forall k | 0 < k < |r|
      ensures Adjacent(net, r[k - 1], r[k])
    {
      if k < |w| {
        assert Adjacent(net, w[k - 1], w[k]);
      }
    }
  }

  // ---- forwarding ----

  function TableOf(tables: Tables, s: NodeId): map<Mac, NodeId>
  {
    if s in tables then tables[s] else map[]
  }

  /** `t` is a target of a switch that floods. */
  ghost predicate Floods(net: Net, s: NodeId, from: NodeId, t: NodeId)
  {
    Adjacent(net, s, t) && t != from
  }

  /** The port a switch that knows the destination uses. */
  function Known(tables: Tables, s: NodeId, from: NodeId, frame: Frame): Option<NodeId>
  {
    var table := TableOf(tables, s)[frame.source := from];
    if frame.destination != BROADCAST && frame.destination in table && table[frame.destination] != from
    then Some(table[frame.destination]) else None
  }

  /** `t` is a target of a switch with these tables. */
  ghost predicate Forwards(net: Net, tables: Tables, s: NodeId, from: NodeId, frame: Frame, t: NodeId)
  {
    match Known(tables, s, from, frame)
    case Some(n) => t == n
    case None => Floods(net, s, from, t)
  }

  /** Flooding carries a frame along this walk. */
  ghost predicate Flooded(net: Net, start: seq<NodeId>, w: seq<NodeId>)
  {
    |w| >= 2 && Walk(net, w) && w[1] in start && ThroughSwitches(net, w)
  }

  /** The switches, with their tables, carry the frame along this walk. */
  ghost predicate Carried(net: Net, tables: Tables, start: seq<NodeId>, frame: Frame, w: seq<NodeId>)
  {
    Flooded(net, start, w) && forall i | 0 < i < |w| - 1 :: Forwards(net, tables, w[i], w[i - 1], frame, w[i + 1])
  }

  // ---- addresses ----

  ghost predicate Owns(net: Net, x: NodeId, m: Mac)
  {
    x in net.nodes &&
    match net.nodes[x]
    case Host(mac) => mac == m
    case Switch => false
    case Router(interfaces) => exists i :: 0 <= i < |interfaces| && interfaces[i].mac == m
  }

  ghost predicate UniqueMacs(net: Net)
  {
    forall x, y, m | Owns(net, x, m) && Owns(net, y, m) :: x == y
  }

  /** Interface `i` of a router is the first that faces this neighbour. */
  ghost predicate Faces(interfaces: seq<Interface>, from: NodeId, i: int)
  {
    0 <= i < |interfaces| && interfaces[i].neighbor == from && forall j | 0 <= j < i :: interfaces[j].neighbor != from
  }

  predicate IsFor(frame: Frame, mac: Mac)
  {
    frame.destination == BROADCAST || frame.destination == mac
  }

  /** Whether a node takes a frame that arrives from a neighbour. */
  ghost predicate Accepts(net: Net, x: NodeId, from: NodeId, frame: Frame)
  {
    x in net.nodes &&
    match net.nodes[x]
    case Host(mac) => IsFor(frame, mac)
    case Switch => false
    case Router(interfaces) => exists i :: Faces(interfaces, from, i) && IsFor(frame, interfaces[i].mac)
  }

  lemma {:induction false} AcceptsOwn(net: Net, x: NodeId, from: NodeId, frame: Frame)
    requires Accepts(net, x, from, frame) && frame.destination != BROADCAST
    ensures Owns(net, x, frame.destination)
  {
  }

  // ---- learning is only an optimisation ----

  /** Every table entry points toward the owner of its address: a walk through switches leads
      from the owner to the switch and enters it from that neighbour. */
  ghost predicate PointsHome(net: Net, s: NodeId, m: Mac, n: NodeId)
  {
    exists w :: |w| >= 2 && Walk(net, w) && ThroughSwitches(net, w) && Owns(net, w[0], m) && w[|w| - 1] == s && w[|w| - 2] == n
  }

  ghost predicate GoodTables(net: Net, tables: Tables)
  {
    forall s, m | s in tables && m in tables[s] :: PointsHome(net, s, m, tables[s][m])
  }

  lemma {:induction false} CarriedIsFlooded(net: Net, tables: Tables, start: seq<NodeId>, frame: Frame, w: seq<NodeId>)
    requires Carried(net, tables, start, frame, w)
    ensures Flooded(net, start, w)
  {
  }

  /** The way home from a switch, if it is the way on. */
  lemma {:induction false} OnlyWayBack(net: Net, w: seq<NodeId>, i: nat, v: seq<NodeId>)
    requires WellFormed(net) && LoopFree(net) && Walk(net, w) && ThroughSwitches(net, w) && i + 1 < |w|
    requires |v| >= 2 && Walk(net, v) && ThroughSwitches(net, v) && v[0] == w[|w| - 1] && v[|v| - 1] == w[i]
    ensures v[|v| - 2] == w[i + 1]
  {
    hide Walk, WellFormed, ThroughSwitches;
    WalkSuffix(net, w, i);
    ReverseWalk(net, w[i..]);
    var back := Reverse(w[i..]);
    assert back[0] == v[0] && back[|back| - 1] == w[i];
    assert back == v;
  }

  /** A known port on the way to the owner is the way. */
  lemma {:induction false} KnownIsNext(net: Net, tables: Tables, start: seq<NodeId>, frame: Frame, w: seq<NodeId>, i: nat)
    requires WellFormed(net) && LoopFree(net) && UniqueMacs(net) && GoodTables(net, tables)
    requires Flooded(net, start, w) && 0 < i < |w| - 1 && Owns(net, w[|w| - 1], frame.destination)
    ensures Forwards(net, tables, w[i], w[i - 1], frame, w[i + 1])
  {
    var known := Known(tables, w[i], w[i - 1], frame);
    assert Adjacent(net, w[i], w[i + 1]) && w[i - 1] != w[i + 1];
    if known.Some? {
      assert PointsHome(net, w[i], frame.destination, known.value);
      HomeIsNext(net, w, i, frame.destination, known.value);
    }
  }

  lemma {:induction false} HomeIsNext(net: Net, w: seq<NodeId>, i: nat, m: Mac, n: NodeId)
    requires WellFormed(net) && LoopFree(net) && UniqueMacs(net) && Walk(net, w) && ThroughSwitches(net, w) && i + 1 < |w|
    requires PointsHome(net, w[i], m, n) && Owns(net, w[|w| - 1], m)
    ensures n == w[i + 1]
  {
    hide LoopFree, WellFormed, Walk, ThroughSwitches, Owns;
    var v :| |v| >= 2 && Walk(net, v) && ThroughSwitches(net, v) && Owns(net, v[0], m) && v[|v| - 1] == w[i] && v[|v| - 2] == n;
    assert v[0] == w[|w| - 1];
    OnlyWayBack(net, w, i, v);
  }

  /** On a loop-free network with unique addresses, whoever flooding would let accept a frame
      accepts it with any good tables, and nobody else does. */
  lemma {:induction false} LearningChangesNothing(net: Net, tables: Tables, start: seq<NodeId>, frame: Frame, w: seq<NodeId>)
    requires WellFormed(net) && LoopFree(net) && UniqueMacs(net) && GoodTables(net, tables)
    requires |w| >= 2 && Accepts(net, w[|w| - 1], w[|w| - 2], frame)
    ensures Carried(net, tables, start, frame, w) <==> Flooded(net, start, w)
  {
    if Flooded(net, start, w) {
      forall i | 0 < i < |w| - 1
        ensures Forwards(net, tables, w[i], w[i - 1], frame, w[i + 1])
      {
        if frame.destination == BROADCAST {
          assert Adjacent(net, w[i], w[i + 1]) && w[i - 1] != w[i + 1];
        } else {
          AcceptsOwn(net, w[|w| - 1], w[|w| - 2], frame);
          KnownIsNext(net, tables, start, frame, w, i);
        }
      }
    }
  }

  // ---- the delivery loop ----

  /** The frame gets to `x` from `y`. */
  ghost predicate Arrives(net: Net, tables: Tables, origin: NodeId, start: seq<NodeId>, frame: Frame, y: NodeId, x: NodeId)
  {
    exists w :: Carried(net, tables, start, frame, w) && w[0] == origin && w[|w| - 2] == y && w[|w| - 1] == x
  }

  lemma {:induction false} StandingStill(net: Net, x: NodeId)
    ensures Walk(net, [x]) && ThroughSwitches(net, [x])
  {
  }

  /** A node is reached in one way only, and the origin not at all. */
  lemma {:induction false} ArrivesOnce(net: Net, tables: Tables, origin: NodeId, start: seq<NodeId>, frame: Frame,
                                       y: NodeId, y': NodeId, x: NodeId)
    requires LoopFree(net) && Arrives(net, tables, origin, start, frame, y, x)
    ensures x != origin
    ensures Arrives(net, tables, origin, start, frame, y', x) ==> y == y'
  {
    hide ThroughSwitches, Forwards;
    var w :| Carried(net, tables, start, frame, w) && w[0] == origin && w[|w| - 2] == y && w[|w| - 1] == x;
    StandingStill(net, origin);
    assert [origin] != w;
    if Arrives(net, tables, origin, start, frame, y', x) {
      var v :| Carried(net, tables, start, frame, v) && v[0] == origin && v[|v| - 2] == y' && v[|v| - 1] == x;
      assert v == w;
    }
  }

  lemma {:induction false} ArrivesFirst(net: Net, tables: Tables, origin: NodeId, start: seq<NodeId>, frame: Frame, n: NodeId)
    requires Adjacent(net, origin, n) && n in start
    ensures Arrives(net, tables, origin, start, frame, origin, n)
  {
    var w := [origin, n];
    assert Walk(net, w) && ThroughSwitches(net, w);
    assert Carried(net, tables, start, frame, w);
  }

  lemma {:induction false} ArrivesNext(net: Net, tables: Tables, origin: NodeId, start: seq<NodeId>, frame: Frame,
                                       y: NodeId, x: NodeId, t: NodeId)
    requires Arrives(net, tables, origin, start, frame, y, x) && IsSwitch(net, x)
    requires Forwards(net, tables, x, y, frame, t) && Adjacent(net, x, t) && t != y
    ensures Arrives(net, tables, origin, start, frame, x, t)
  {
    hide Forwards, Adjacent;
    var w :| Carried(net, tables, start, frame, w) && w[0] == origin && w[|w| - 2] == y && w[|w| - 1] == x;
    var r := w + [t];
    WalkSnoc(net, w, t);
    forall i | 0 < i < |r| - 1
      ensures IsSwitch(net, r[i]) && Forwards(net, tables, r[i], r[i - 1], frame, r[i + 1])
    {
      if i < |w| - 1 {
        assert IsSwitch(net, w[i]) && Forwards(net, tables, w[i], w[i - 1], frame, w[i + 1]);
      }
    }
    assert Carried(net, tables, start, frame, r);
  }

  /** What a switch forwards to are neighbours other than the one the frame came from. */
  lemma {:induction false} ForwardsOn(net: Net, tables: Tables, s: NodeId, from: NodeId, frame: Frame, t: NodeId)
    requires WellFormed(net) && GoodTables(net, tables) && Forwards(net, tables, s, from, frame, t)
    ensures Adjacent(net, s, t) && t != from
  {
    var known := Known(tables, s, from, frame);
    if known.Some? {
      assert PointsHome(net, s, frame.destination, t);
      var w :| |w| >= 2 && Walk(net, w) && ThroughSwitches(net, w) && Owns(net, w[0], frame.destination) && w[|w| - 1] == s && w[|w| - 2] == t;
      assert Adjacent(net, w[|w| - 2], w[|w| - 1]);
    }
  }

  /** An honest frame's arrival is a way home for its source. */
  lemma {:induction false} ArrivalPointsHome(net: Net, tables: Tables, origin: NodeId, start: seq<NodeId>, frame: Frame, y: NodeId, x: NodeId)
    requires Arrives(net, tables, origin, start, frame, y, x) && Owns(net, origin, frame.source)
    ensures PointsHome(net, x, frame.source, y)
  {
    hide Walk, ThroughSwitches, Owns;
    var w :| Carried(net, tables, start, frame, w) && w[0] == origin && w[|w| - 2] == y && w[|w| - 1] == x;
  }

  /** The search so far: `arrived` says from where each node was entered; everything it leads
      to is entered too or waits in the queue. */
  ghost predicate Spreading(net: Net, tables: Tables, origin: NodeId, start: seq<NodeId>, frame: Frame,
                            arrived: map<NodeId, NodeId>, queue: seq<(NodeId, NodeId)>)
  {
    (forall x | x in arrived :: Arrives(net, tables, origin, start, frame, arrived[x], x)) &&
    (forall k | 0 <= k < |queue| :: Arrives(net, tables, origin, start, frame, queue[k].0, queue[k].1))
  }

  ghost predicate Covered(origin: NodeId, arrived: map<NodeId, NodeId>, queue: seq<(NodeId, NodeId)>, y: NodeId, t: NodeId)
  {
    t == origin || t in arrived || (y, t) in queue
  }

  ghost predicate Closed(net: Net, tables: Tables, origin: NodeId, start: seq<NodeId>, frame: Frame,
                         arrived: map<NodeId, NodeId>, queue: seq<(NodeId, NodeId)>)
  {
    (forall n | n in start :: Covered(origin, arrived, queue, origin, n)) &&
    (forall x, t | x in arrived && IsSwitch(net, x) && Forwards(net, tables, x, arrived[x], frame, t) ::
       Covered(origin, arrived, queue, x, t))
  }

  /** When the queue is empty everything that arrives has been entered. */
  lemma {:induction false} SpreadComplete(net: Net, tables: Tables, origin: NodeId, start: seq<NodeId>, frame: Frame,
                                          arrived: map<NodeId, NodeId>, w: seq<NodeId>, i: nat)
    requires LoopFree(net) && Spreading(net, tables, origin, start, frame, arrived, []) && Closed(net, tables, origin, start, frame, arrived, [])
    requires Carried(net, tables, start, frame, w) && w[0] == origin && 0 < i < |w|
    ensures w[i] in arrived && arrived[w[i]] == w[i - 1]
    decreases i
  {
    hide LoopFree, Arrives, Forwards;
    CarriedPrefix(net, tables, origin, start, frame, w, i);
    if i > 1 {
      SpreadComplete(net, tables, origin, start, frame, arrived, w, i - 1);
      assert IsSwitch(net, w[i - 1]) && Forwards(net, tables, w[i - 1], w[i - 2], frame, w[i]);
      assert Covered(origin, arrived, [], w[i - 1], w[i]);
    } else {
      assert Covered(origin, arrived, [], origin, w[1]);
    }
    ArrivesOnce(net, tables, origin, start, frame, w[i - 1], w[i - 1], w[i]);
    ArrivesOnce(net, tables, origin, start, frame, w[i - 1], arrived[w[i]], w[i]);
  }

  lemma {:induction false} CarriedPrefix(net: Net, tables: Tables, origin: NodeId, start: seq<NodeId>, frame: Frame, w: seq<NodeId>, i: nat)
    requires Carried(net, tables, start, frame, w) && w[0] == origin && 0 < i < |w|
    ensures Arrives(net, tables, origin, start, frame, w[i - 1], w[i])
  {
    hide Forwards, Adjacent;
    var v := w[..i + 1];
    WalkPrefix(net, w, i + 1);
    assert Carried(net, tables, start, frame, v);
  }

  /** A queued arrival at a node already entered is dropped. */
  lemma {:induction false} SkipKeeps(net: Net, tables: Tables, origin: NodeId, start: seq<NodeId>, frame: Frame,
                                     arrived: map<NodeId, NodeId>, queue: seq<(NodeId, NodeId)>)
    requires queue != [] && (queue[0].1 == origin || queue[0].1 in arrived)
    requires Spreading(net, tables, origin, start, frame, arrived, queue) && Closed(net, tables, origin, start, frame, arrived, queue)
    ensures Spreading(net, tables, origin, start, frame, arrived, queue[1..])
    ensures Closed(net, tables, origin, start, frame, arrived, queue[1..])
  {
    hide Arrives, Forwards;
    assert queue == [queue[0]] + queue[1..];
    assert forall y, t | Covered(origin, arrived, queue, y, t) :: Covered(origin, arrived, queue[1..], y, t);
  }

  /** Entering a node and queueing what it forwards to. */
  lemma {:induction false} EnterKeeps(net: Net, tables: Tables, origin: NodeId, start: seq<NodeId>, frame: Frame,
                                      arrived: map<NodeId, NodeId>, queue: seq<(NodeId, NodeId)>, more: seq<(NodeId, NodeId)>)
    requires WellFormed(net) && GoodTables(net, tables)
    requires queue != [] && queue[0].1 != origin && queue[0].1 !in arrived
    requires Spreading(net, tables, origin, start, frame, arrived, queue) && Closed(net, tables, origin, start, frame, arrived, queue)
    requires var y, x := queue[0].0, queue[0].1;
             (forall k | 0 <= k < |more| :: more[k].0 == x && IsSwitch(net, x) && Forwards(net, tables, x, y, frame, more[k].1)) &&
             (forall t | IsSwitch(net, x) && Forwards(net, tables, x, y, frame, t) :: t == origin || t == x || t in arrived || (x, t) in more)
    ensures var y, x := queue[0].0, queue[0].1;
            Spreading(net, tables, origin, start, frame, arrived[x := y], queue[1..] + more) &&
            Closed(net, tables, origin, start, frame, arrived[x := y], queue[1..] + more)
  {
    hide Arrives, Forwards, GoodTables, WellFormed;
    var y, x := queue[0].0, queue[0].1;
    var arrived', queue' := arrived[x := y], queue[1..] + more;
    assert queue == [queue[0]] + queue[1..];
    forall k | 0 <= k < |more|
      ensures Arrives(net, tables, origin, start, frame, more[k].0, more[k].1)
    {
      ForwardsOn(net, tables, x, y, frame, more[k].1);
      ArrivesNext(net, tables, origin, start, frame, y, x, more[k].1);
    }
    assert forall a, t | Covered(origin, arrived, queue, a, t) :: Covered(origin, arrived', queue', a, t);
    assert forall t | t == origin || t == x || t in arrived || (x, t) in more :: Covered(origin, arrived', queue', x, t);
  }

  // ---- what the switches learn ----

  ghost function LearnedAt(net: Net, before: Tables, arrived: map<NodeId, NodeId>, frame: Frame, s: NodeId): map<Mac, NodeId>
  {
    if s in arrived && IsSwitch(net, s) then TableOf(before, s)[frame.source := arrived[s]] else TableOf(before, s)
  }

  /** The tables are those before the frame with its source learned at each switch entered. */
  ghost predicate Learned(net: Net, before: Tables, arrived: map<NodeId, NodeId>, frame: Frame, tables: Tables)
  {
    forall s :: TableOf(tables, s) == LearnedAt(net, before, arrived, frame, s)
  }

  lemma {:induction false} LearnedGood(net: Net, before: Tables, origin: NodeId, start: seq<NodeId>, frame: Frame,
                                       arrived: map<NodeId, NodeId>, tables: Tables)
    requires GoodTables(net, before) && Learned(net, before, arrived, frame, tables) && Owns(net, origin, frame.source)
    requires forall x | x in arrived :: Arrives(net, before, origin, start, frame, arrived[x], x)
    ensures GoodTables(net, tables)
  {
    hide Arrives, Owns, PointsHome;
    forall s, m | s in tables && m in tables[s]
      ensures PointsHome(net, s, m, tables[s][m])
    {
      assert TableOf(tables, s) == LearnedAt(net, before, arrived, frame, s);
      if s in arrived && IsSwitch(net, s) && m == frame.source {
        ArrivalPointsHome(net, before, origin, start, frame, arrived[s], s);
      } else {
        assert m in TableOf(before, s);
      }
    }
  }

  lemma {:induction false} LearnOne(net: Net, before: Tables, arrived: map<NodeId, NodeId>, frame: Frame, tables: Tables, x: NodeId, y: NodeId)
    requires Learned(net, before, arrived, frame, tables) && x !in arrived
    ensures IsSwitch(net, x) ==>
              Learned(net, before, arrived[x := y], frame, tables[x := TableOf(tables, x)[frame.source := y]])
    ensures !IsSwitch(net, x) ==> Learned(net, before, arrived[x := y], frame, tables)
    ensures TableOf(tables, x) == TableOf(before, x)
  {
    assert TableOf(tables, x) == LearnedAt(net, before, arrived, frame, x);
    var tables' := if IsSwitch(net, x) then tables[x := TableOf(tables, x)[frame.source := y]] else tables;
    forall s
      ensures TableOf(tables', s) == LearnedAt(net, before, arrived[x := y], frame, s)
    {
      assert TableOf(tables, s) == LearnedAt(net, before, arrived, frame, s);
    }
  }

  // ---- who receives ----

  ghost predicate FloodReaches(net: Net, origin: NodeId, start: seq<NodeId>, y: NodeId, x: NodeId)
  {
    exists w :: Flooded(net, start, w) && w[0] == origin && w[|w| - 2] == y && w[|w| - 1] == x
  }

  /** Plain flooding would deliver the frame to this host: it reaches it and bears its address
      or the broadcast address. */
  ghost predicate HostByFlooding(net: Net, origin: NodeId, start: seq<NodeId>, frame: Frame, x: NodeId)
  {
    x in net.nodes && net.nodes[x].Host? && (frame.destination == BROADCAST || frame.destination == net.nodes[x].mac) &&
    exists y :: FloodReaches(net, origin, start, y, x)
  }

  /** Plain flooding would deliver the frame to interface `i` of this router: the first that
      faces the neighbour it comes from, and it bears that interface's address or the broadcast
      address. */
  ghost predicate RouterByFlooding(net: Net, origin: NodeId, start: seq<NodeId>, frame: Frame, x: NodeId, i: nat)
  {
    x in net.nodes && net.nodes[x].Router? && i < |net.nodes[x].interfaces| &&
    var interfaces := net.nodes[x].interfaces;
    FloodReaches(net, origin, start, interfaces[i].neighbor, x) &&
    (forall j | 0 <= j < i :: interfaces[j].neighbor != interfaces[i].neighbor) &&
    (frame.destination == BROADCAST || frame.destination == interfaces[i].mac)
  }

  /** Where a node takes the frame, it arrives exactly as flooding would bring it. */
  lemma {:induction false} ArrivesAsFlooded(net: Net, tables: Tables, origin: NodeId, start: seq<NodeId>, frame: Frame, y: NodeId, x: NodeId)
    requires WellFormed(net) && LoopFree(net) && UniqueMacs(net) && GoodTables(net, tables) && Accepts(net, x, y, frame)
    ensures Arrives(net, tables, origin, start, frame, y, x) <==> FloodReaches(net, origin, start, y, x)
  {
    hide Accepts, Walk, ThroughSwitches, Forwards, WellFormed, LoopFree, UniqueMacs, GoodTables;
    if Arrives(net, tables, origin, start, frame, y, x) {
      var w :| Carried(net, tables, start, frame, w) && w[0] == origin && w[|w| - 2] == y && w[|w| - 1] == x;
      CarriedIsFlooded(net, tables, start, frame, w);
    }
    if FloodReaches(net, origin, start, y, x) {
      var w :| Flooded(net, start, w) && w[0] == origin && w[|w| - 2] == y && w[|w| - 1] == x;
      LearningChangesNothing(net, tables, start, frame, w);
    }
  }

  /** After the search, arriving means having been entered. */
  lemma {:induction false} EnteredAll(net: Net, tables: Tables, origin: NodeId, start: seq<NodeId>, frame: Frame,
                                      arrived: map<NodeId, NodeId>, y: NodeId, x: NodeId)
    requires LoopFree(net) && Spreading(net, tables, origin, start, frame, arrived, []) && Closed(net, tables, origin, start, frame, arrived, [])
    ensures Arrives(net, tables, origin, start, frame, y, x) <==> x in arrived && arrived[x] == y
  {
    hide Closed, LoopFree, Walk, ThroughSwitches, Forwards;
    if Arrives(net, tables, origin, start, frame, y, x) {
      var w :| Carried(net, tables, start, frame, w) && w[0] == origin && w[|w| - 2] == y && w[|w| - 1] == x;
      SpreadComplete(net, tables, origin, start, frame, arrived, w, |w| - 1);
    }
  }

  // ---- the topology ----

  datatype Delivery = Delivery(hosts: set<NodeId>, interfaces: set<(NodeId, nat)>)

  /** The delivery is the one plain flooding would make. */
  ghost predicate AsFlooded(net: Net, origin: NodeId, start: seq<NodeId>, frame: Frame, d: Delivery)
  {
    (forall x :: x in d.hosts <==> HostByFlooding(net, origin, start, frame, x)) &&
    (forall x: NodeId, i: nat :: (x, i) in d.interfaces <==> RouterByFlooding(net, origin, start, frame, x, i))
  }

  /** What the search has delivered so far. */
  ghost predicate Delivered(net: Net, arrived: map<NodeId, NodeId>, frame: Frame, d: Delivery)
  {
    (forall x :: x in d.hosts <==> x in arrived && x in net.nodes && net.nodes[x].Host? && IsFor(frame, net.nodes[x].mac)) &&
    (forall x: NodeId, i: nat :: (x, i) in d.interfaces <==>
       x in arrived && x in net.nodes && net.nodes[x].Router? && Faces(net.nodes[x].interfaces, arrived[x], i) &&
       IsFor(frame, net.nodes[x].interfaces[i].mac))
  }

  ghost predicate Entered(net: Net, tables: Tables, origin: NodeId, start: seq<NodeId>, frame: Frame, x: NodeId)
  {
    exists y :: Arrives(net, tables, origin, start, frame, y, x)
  }

  /** Every switch the frame came to has learned where it came from, and nothing else was
      learned or forgotten. */
  ghost predicate LearnsOnly(net: Net, before: Tables, origin: NodeId, start: seq<NodeId>, frame: Frame, tables: Tables)
  {
    (forall x, y | IsSwitch(net, x) && Arrives(net, before, origin, start, frame, y, x) ::
       TableOf(tables, x) == TableOf(before, x)[frame.source := y]) &&
    (forall x | !IsSwitch(net, x) || !Entered(net, before, origin, start, frame, x) :: TableOf(tables, x) == TableOf(before, x))
  }

  ghost predicate ForwardsOnly(net: Net, tables: Tables, s: NodeId, from: NodeId, frame: Frame, to: NodeId)
  {
    forall t :: Forwards(net, tables, s, from, frame, t) <==> t == to
  }

  /** Learning pays: at every switch on the way a frame took, a reply to its source goes back the
      way the frame came and nowhere else. */
  lemma {:induction false} ReplyRetraces(net: Net, before: Tables, tables: Tables, origin: NodeId, start: seq<NodeId>,
                                         frame: Frame, reply: Frame, w: seq<NodeId>, i: nat)
    requires LearnsOnly(net, before, origin, start, frame, tables) && Carried(net, before, start, frame, w) && w[0] == origin
    requires reply.destination == frame.source != BROADCAST && reply.source != frame.source && 0 < i < |w| - 1
    ensures ForwardsOnly(net, tables, w[i], w[i + 1], reply, w[i - 1])
  {
    hide Arrives, LearnsOnly;
    CarriedPrefix(net, before, origin, start, frame, w, i);
    assert IsSwitch(net, w[i]) && w[i - 1] != w[i + 1];
    LearnedOnTheWay(net, before, tables, origin, start, frame, w[i - 1], w[i]);
  }

  lemma LearnedOnTheWay(net: Net, before: Tables, tables: Tables, origin: NodeId, start: seq<NodeId>, frame: Frame,
                        y: NodeId, x: NodeId)
    requires LearnsOnly(net, before, origin, start, frame, tables) && IsSwitch(net, x)
    requires Arrives(net, before, origin, start, frame, y, x)
    ensures TableOf(tables, x) == TableOf(before, x)[frame.source := y]
  {
  }

  class Topology {
    const net: Net
    var tables: Tables

    /** Every learned address points toward its owner. */
    ghost predicate Valid()
      reads this
    {
      WellFormed(net) && GoodTables(net, tables)
    }

    constructor (net: Net)
      requires WellFormed(net)
      ensures Valid() && this.net == net
    {
      this.net := net;
      tables := map[];
    }

    /** The targets of a switch, its table already updated. */
    method Targets(s: NodeId, from: NodeId, frame: Frame, ghost before: Tables) returns (targets: seq<NodeId>)
      requires s in net.adjacency && TableOf(tables, s) == TableOf(before, s)[frame.source := from]
      ensures forall t :: t in targets <==> Forwards(net, before, s, from, frame, t)
    {
      var table := TableOf(tables, s);
      if frame.destination != BROADCAST && frame.destination in table && table[frame.destination] != from {
        return [table[frame.destination]];
      }
      targets := [];
      var i := 0;
      while i < |net.adjacency[s]|
        invariant 0 <= i <= |net.adjacency[s]|
        invariant forall t :: t in targets <==> t in net.adjacency[s][..i] && t != from
      {
        assert net.adjacency[s][..i + 1] == net.adjacency[s][..i] + [net.adjacency[s][i]];
        if net.adjacency[s][i] != from {
          targets := targets + [net.adjacency[s][i]];
        }
        i := i + 1;
      }
      assert net.adjacency[s][..i] == net.adjacency[s];
    }

    /** The queue entries for targets not visited yet. */
    static method Fresh(x: NodeId, targets: seq<NodeId>, visited: set<NodeId>) returns (more: seq<(NodeId, NodeId)>)
      ensures forall k | 0 <= k < |more| :: more[k].0 == x && more[k].1 in targets
      ensures forall t | t in targets :: t in visited || (x, t) in more
    {
      more := [];
      var i := 0;
      while i < |targets|
        invariant 0 <= i <= |targets|
        invariant forall k | 0 <= k < |more| :: more[k].0 == x && more[k].1 in targets
        invariant forall j | 0 <= j < i :: targets[j] in visited || (x, targets[j]) in more
      {
        if targets[i] !in visited {
          more := more + [(x, targets[i])];
        }
        i := i + 1;
      }
    }

    /** Enters a switch: learns the source and says where the frame goes next. */
    method EnterSwitch(x: NodeId, y: NodeId, frame: Frame, visited: set<NodeId>, ghost before: Tables) returns (more: seq<(NodeId, NodeId)>)
      requires x in net.adjacency && TableOf(tables, x) == TableOf(before, x)
      modifies this
      ensures tables == old(tables)[x := TableOf(old(tables), x)[frame.source := y]]
      ensures forall k | 0 <= k < |more| :: more[k].0 == x && Forwards(net, before, x, y, frame, more[k].1)
      ensures forall t | Forwards(net, before, x, y, frame, t) :: t in visited || (x, t) in more
    {
      hide Forwards;
      tables := tables[x := TableOf(tables, x)[frame.source := y]];
      var targets := Targets(x, y, frame, before);
      more := Fresh(x, targets, visited);
    }

    /** Hands the frame to a node that is not a switch. */
    method Hand(x: NodeId, y: NodeId, frame: Frame, d: Delivery, ghost arrived: map<NodeId, NodeId>) returns (d': Delivery)
      requires x in net.nodes && x !in arrived && Delivered(net, arrived, frame, d)
      ensures Delivered(net, arrived[x := y], frame, d')
    {
      d' := d;
      match net.nodes[x] {
        case Host(mac) =>
          if frame.destination == BROADCAST || mac == frame.destination {
            d' := d.(hosts := d.hosts + {x});
          }
        case Router(interfaces) =>
          var i := 0;
          while i < |interfaces|
            invariant 0 <= i <= |interfaces| && d' == d
            invariant forall j | 0 <= j < i :: interfaces[j].neighbor != y
          {
            if interfaces[i].neighbor == y {
              if frame.destination == BROADCAST || interfaces[i].mac == frame.destination {
                d' := d.(interfaces := d.interfaces + {(x, i)});
              }
              break;
            }
            i := i + 1;
          }
        case Switch =>
      }
    }

    /** The state of the search. */
    ghost predicate Running(before: Tables, origin: NodeId, start: seq<NodeId>, frame: Frame,
                            arrived: map<NodeId, NodeId>, queue: seq<(NodeId, NodeId)>, d: Delivery)
      reads this
    {
      Spreading(net, before, origin, start, frame, arrived, queue) && Closed(net, before, origin, start, frame, arrived, queue) &&
      Learned(net, before, arrived, frame, tables) && Delivered(net, arrived, frame, d)
    }

    /** Carries a frame from its origin, learning on the way.  However the switches have learned
        before, exactly those receive it whom plain flooding would reach. */
    method DeliverFrom(origin: NodeId, start: seq<NodeId>, frame: Frame) returns (d: Delivery)
      requires Valid() && LoopFree(net) && UniqueMacs(net) && Owns(net, origin, frame.source)
      requires forall n | n in start :: Adjacent(net, origin, n)
      modifies this
      ensures Valid()
      ensures AsFlooded(net, origin, start, frame, d)
      ensures LearnsOnly(net, old(tables), origin, start, frame, tables)
    {
      hide LoopFree, UniqueMacs, GoodTables, Owns, WellFormed, Running, AsFlooded, Adjacent, LearnsOnly;
      ghost var before := tables;
      var visited := {origin};
      ghost var arrived: map<NodeId, NodeId> := map[];
      d := Delivery({}, {});
      var queue := seq(|start|, i requires 0 <= i < |start| => (origin, start[i]));
      RunningStarts(origin, start, frame, queue);
      while queue != []
        invariant visited == arrived.Keys + {origin}
        invariant Running(before, origin, start, frame, arrived, queue, d)
        decreases |net.nodes.Keys - visited|, |queue|
      {
        var y, x := queue[0].0, queue[0].1;
        if x in visited {
          RunningSkips(before, origin, start, frame, arrived, queue, d);
          queue := queue[1..];
        } else {
          RunningKnown(before, origin, start, frame, arrived, queue, d);
          FewerLeft(net.nodes.Keys, visited, x);
          visited := visited + {x};
          d, queue := Enter(before, origin, start, frame, arrived, queue, d, visited);
          arrived := arrived[x := y];
        }
      }
      RunningEnds(before, origin, start, frame, arrived, d);
    }

    /** One turn of the search at a node not visited before. */
    method Enter(ghost before: Tables, ghost origin: NodeId, ghost start: seq<NodeId>, frame: Frame,
                 ghost arrived: map<NodeId, NodeId>, queue: seq<(NodeId, NodeId)>, d: Delivery, visited: set<NodeId>)
      returns (d': Delivery, queue': seq<(NodeId, NodeId)>)
      requires WellFormed(net) && GoodTables(net, before) && Running(before, origin, start, frame, arrived, queue, d)
      requires queue != [] && queue[0].1 in net.nodes && queue[0].1 in net.adjacency
      requires queue[0].1 != origin && queue[0].1 !in arrived && visited == arrived.Keys + {origin, queue[0].1}
      modifies this
      ensures Running(before, origin, start, frame, arrived[queue[0].1 := queue[0].0], queue', d')
    {
      hide Accepts, Forwards, GoodTables, WellFormed, Spreading, Closed, Learned, Delivered, TableOf;
      var y, x := queue[0].0, queue[0].1;
      var more := [];
      LearnOne(net, before, arrived, frame, tables, x, y);
      d' := Hand(x, y, frame, d, arrived);
      if net.nodes[x].Switch? {
        more := EnterSwitch(x, y, frame, visited, before);
      }
      EnterKeeps(net, before, origin, start, frame, arrived, queue, more);
      queue' := queue[1..] + more;
    }

    lemma RunningStarts(origin: NodeId, start: seq<NodeId>, frame: Frame, queue: seq<(NodeId, NodeId)>)
      requires forall n | n in start :: Adjacent(net, origin, n)
      requires |queue| == |start| && forall i | 0 <= i < |start| :: queue[i] == (origin, start[i])
      ensures Running(tables, origin, start, frame, map[], queue, Delivery({}, {}))
    {
      hide Spreading, Closed, Learned, Delivered, Adjacent;
      SearchStarts(net, tables, origin, start, frame, queue);
      NothingDelivered(frame);
    }

    lemma RunningSkips(before: Tables, origin: NodeId, start: seq<NodeId>, frame: Frame,
                       arrived: map<NodeId, NodeId>, queue: seq<(NodeId, NodeId)>, d: Delivery)
      requires Running(before, origin, start, frame, arrived, queue, d) && queue != [] && (queue[0].1 == origin || queue[0].1 in arrived)
      ensures Running(before, origin, start, frame, arrived, queue[1..], d)
    {
      hide Spreading, Closed, Learned, Delivered;
      SkipKeeps(net, before, origin, start, frame, arrived, queue);
    }

    lemma RunningKnown(before: Tables, origin: NodeId, start: seq<NodeId>, frame: Frame,
                       arrived: map<NodeId, NodeId>, queue: seq<(NodeId, NodeId)>, d: Delivery)
      requires WellFormed(net) && Running(before, origin, start, frame, arrived, queue, d) && queue != []
      ensures queue[0].1 in net.nodes && queue[0].1 in net.adjacency
    {
      hide Spreading, Closed, Learned, Delivered, WellFormed;
      QueuedKnown(net, before, origin, start, frame, arrived, queue);
    }

    lemma RunningEnds(before: Tables, origin: NodeId, start: seq<NodeId>, frame: Frame, arrived: map<NodeId, NodeId>, d: Delivery)
      requires WellFormed(net) && LoopFree(net) && UniqueMacs(net) && GoodTables(net, before) && Owns(net, origin, frame.source)
      requires Running(before, origin, start, frame, arrived, [], d)
      ensures GoodTables(net, tables) && AsFlooded(net, origin, start, frame, d)
      ensures LearnsOnly(net, before, origin, start, frame, tables)
    {
      hide Spreading, Closed, Learned, Delivered, WellFormed, LoopFree, UniqueMacs, GoodTables, Owns, AsFlooded, LearnsOnly;
      LearnedOnly(before, origin, start, frame, arrived);
      Received(before, origin, start, frame, arrived, d);
      SpreadArrives(net, before, origin, start, frame, arrived);
      LearnedGood(net, before, origin, start, frame, arrived, tables);
    }

    lemma LearnedOnly(before: Tables, origin: NodeId, start: seq<NodeId>, frame: Frame, arrived: map<NodeId, NodeId>)
      requires LoopFree(net) && Spreading(net, before, origin, start, frame, arrived, [])
      requires Closed(net, before, origin, start, frame, arrived, []) && Learned(net, before, arrived, frame, tables)
      ensures LearnsOnly(net, before, origin, start, frame, tables)
    {
      hide Spreading, Closed, LoopFree, Arrives, TableOf;
      forall x, y
        ensures Arrives(net, before, origin, start, frame, y, x) <==> x in arrived && arrived[x] == y
      {
        EnteredAll(net, before, origin, start, frame, arrived, y, x);
      }
      forall x | !IsSwitch(net, x) || !Entered(net, before, origin, start, frame, x)
        ensures TableOf(tables, x) == TableOf(before, x)
      {
        if x in arrived && IsSwitch(net, x) {
          assert Arrives(net, before, origin, start, frame, arrived[x], x);
        }
      }
    }

    lemma NothingDelivered(frame: Frame)
      ensures Delivered(net, map[], frame, Delivery({}, {}))
      ensures Learned(net, tables, map[], frame, tables)
    {
    }

    /** At the end of the search the delivery is the one flooding makes. */
    lemma Received(before: Tables, origin: NodeId, start: seq<NodeId>, frame: Frame, arrived: map<NodeId, NodeId>, d: Delivery)
      requires WellFormed(net) && LoopFree(net) && UniqueMacs(net) && GoodTables(net, before)
      requires Spreading(net, before, origin, start, frame, arrived, []) && Closed(net, before, origin, start, frame, arrived, [])
      requires Delivered(net, arrived, frame, d)
      ensures AsFlooded(net, origin, start, frame, d)
    {
      hide Accepts, LoopFree, UniqueMacs, GoodTables, WellFormed, Arrives, Spreading, Closed, FloodReaches;
      forall x, y | Accepts(net, x, y, frame)
        ensures FloodReaches(net, origin, start, y, x) <==> x in arrived && arrived[x] == y
      {
        ArrivesAsFlooded(net, before, origin, start, frame, y, x);
        EnteredAll(net, before, origin, start, frame, arrived, y, x);
      }
      forall x
        ensures x in d.hosts <==> HostByFlooding(net, origin, start, frame, x)
      {
        HostAccepts(x, frame);
        if x in arrived && x in net.nodes && net.nodes[x].Host? && IsFor(frame, net.nodes[x].mac) {
          assert Accepts(net, x, arrived[x], frame);
          assert FloodReaches(net, origin, start, arrived[x], x);
        }
      }
      forall x: NodeId, i: nat
        ensures (x, i) in d.interfaces <==> RouterByFlooding(net, origin, start, frame, x, i)
      {
        RouterAccepts(x, i, frame);
      }
    }

    lemma HostAccepts(x: NodeId, frame: Frame)
      ensures x in net.nodes && net.nodes[x].Host? && IsFor(frame, net.nodes[x].mac) ==> forall y :: Accepts(net, x, y, frame)
    {
    }

    lemma RouterAccepts(x: NodeId, i: nat, frame: Frame)
      ensures x in net.nodes && net.nodes[x].Router? && i < |net.nodes[x].interfaces| &&
              Faces(net.nodes[x].interfaces, net.nodes[x].interfaces[i].neighbor, i) &&
              IsFor(frame, net.nodes[x].interfaces[i].mac) ==>
              Accepts(net, x, net.nodes[x].interfaces[i].neighbor, frame)
    {
    }

    /** A host or a router sends on all its links; anything else sends nothing. */
    method SendFrame(origin: NodeId, frame: Frame) returns (d: Delivery)
      requires Valid() && LoopFree(net) && UniqueMacs(net)
      requires origin in net.nodes && !net.nodes[origin].Switch? ==> Owns(net, origin, frame.source)
      modifies this
      ensures Valid()
      ensures if origin in net.nodes && !net.nodes[origin].Switch? then
                origin in net.adjacency && AsFlooded(net, origin, net.adjacency[origin], frame, d) &&
                LearnsOnly(net, old(tables), origin, net.adjacency[origin], frame, tables)
              else d == Delivery({}, {}) && tables == old(tables)
    {
      hide LoopFree, UniqueMacs, GoodTables, Owns, AsFlooded, LearnsOnly;
      if origin !in net.nodes || net.nodes[origin].Switch? {
        return Delivery({}, {});
      }
      d := DeliverFrom(origin, net.adjacency[origin], frame);
    }

    /** A router sends on one link. */
    method SendFrameFromInterface(origin: NodeId, egress: NodeId, frame: Frame) returns (d: Delivery)
      requires Valid() && LoopFree(net) && UniqueMacs(net)
      requires origin in net.nodes && net.nodes[origin].Router? ==> Owns(net, origin, frame.source)
      modifies this
      ensures Valid()
      ensures if origin in net.nodes && net.nodes[origin].Router? && Adjacent(net, origin, egress) then
                AsFlooded(net, origin, [egress], frame, d) && LearnsOnly(net, old(tables), origin, [egress], frame, tables)
              else d == Delivery({}, {}) && tables == old(tables)
    {
      hide LoopFree, UniqueMacs, GoodTables, Owns, AsFlooded, LearnsOnly;
      if origin !in net.nodes || !net.nodes[origin].Router? {
        return Delivery({}, {});
      }
      if egress !in net.adjacency[origin] {
        return Delivery({}, {});
      }
      d := DeliverFrom(origin, [egress], frame);
    }
  }

  lemma {:induction false} FewerLeft(all: set<NodeId>, visited: set<NodeId>, x: NodeId)
    requires x in all && x !in visited
    ensures |all - (visited + {x})| < |all - visited|
  {
    assert all - visited == (all - (visited + {x})) + {x};
  }

  lemma {:induction false} SearchStarts(net: Net, tables: Tables, origin: NodeId, start: seq<NodeId>, frame: Frame, queue: seq<(NodeId, NodeId)>)
    requires forall n | n in start :: Adjacent(net, origin, n)
    requires |queue| == |start| && forall i | 0 <= i < |start| :: queue[i] == (origin, start[i])
    ensures Spreading(net, tables, origin, start, frame, map[], queue) && Closed(net, tables, origin, start, frame, map[], queue)
  {
    hide Arrives, Adjacent;
    forall k | 0 <= k < |queue|
      ensures Arrives(net, tables, origin, start, frame, queue[k].0, queue[k].1)
    {
      ArrivesFirst(net, tables, origin, start, frame, start[k]);
    }
    forall n | n in start
      ensures Covered(origin, map[], queue, origin, n)
    {
      var i :| 0 <= i < |start| && start[i] == n;
      assert queue[i] == (origin, n);
    }
  }

  lemma {:induction false} QueuedKnown(net: Net, tables: Tables, origin: NodeId, start: seq<NodeId>, frame: Frame,
                                       arrived: map<NodeId, NodeId>, queue: seq<(NodeId, NodeId)>)
    requires WellFormed(net) && queue != [] && Spreading(net, tables, origin, start, frame, arrived, queue)
    ensures queue[0].1 in net.nodes && queue[0].1 in net.adjacency
  {
    hide ThroughSwitches, Forwards;
    var y, x := queue[0].0, queue[0].1;
    assert Arrives(net, tables, origin, start, frame, y, x);
    var w :| Carried(net, tables, start, frame, w) && w[0] == origin && w[|w| - 2] == y && w[|w| - 1] == x;
    assert Adjacent(net, w[|w| - 2], w[|w| - 1]);
  }

  lemma {:induction false} SpreadArrives(net: Net, tables: Tables, origin: NodeId, start: seq<NodeId>, frame: Frame, arrived: map<NodeId, NodeId>)
    requires Spreading(net, tables, origin, start, frame, arrived, [])
    ensures forall x | x in arrived :: Arrives(net, tables, origin, start, frame, arrived[x], x)
  {
    hide Arrives;
  }
}
