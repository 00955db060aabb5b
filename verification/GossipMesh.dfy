/**
 A mesh of gossiping replicas as an interleaving of small steps (aegis/consensus/gossip.py and
 aegis/consensus/transport.py), and its safety over every interleaving.

 A contact of client `c` with the peer under its cursor goes through: fetch the root, compare,
 encode, (server) encode, (server) merge, (client) merge. Any link may fail at any point, bodies
 may be damaged in flight, and a server may still process a request whose client has given up.
 A step that is not enabled leaves the mesh as it is.
 */
module GossipMesh {
  import opened Common
  import opened Gossip

  datatype Mesh = Mesh(codec: Codec, peers: seq<seq<nat>>, ceilings: seq<nat>)

  ghost predicate WellFormed(m: Mesh) {
    && |m.ceilings| == |m.peers|
    && Lawful(m.codec)
    && forall c, k :: 0 <= c < |m.peers| && 0 <= k < |m.peers[c]| ==> m.peers[c][k] < |m.peers|
  }

  datatype Phase =
    | Ready
    | RootSeen(seen: set<Leaf>)             // the reply was the root of these leaves
    | Differs
    | Posted(ours: bytes)
    | Served(request: bytes, answer: bytes) // the answer was encoded before the merge
    | Replied(reply: bytes)

  datatype Client = Client(cursor: nat, phase: Phase, health: seq<Health>)

  /** `abandoned` holds requests whose client gave up; the server may still merge them. */
  datatype Net = Net(leaves: seq<set<Leaf>>, clients: seq<Client>, abandoned: set<(nat, bytes)>)

  datatype Step =
    | SkipPeer(c: nat) | FetchRoot(c: nat) | FetchMalformed(c: nat) | CompareRoots(c: nat)
    | EncodeState(c: nat) | Serve(c: nat) | Absorb(c: nat) | Learn(c: nat)
    | Fail(c: nat) | Damage(c: nat, junk: bytes) | AbsorbAbandoned(server: nat, body: bytes)
    | NextRound(c: nat)

  predicate ShapedClient(m: Mesh, net: Net, c: nat)
    requires c < |m.peers| == |net.clients|
  {
    var cl := net.clients[c];
    && |cl.health| == |m.peers[c]|
    && cl.cursor <= |m.peers[c]|
    && (cl.phase != Ready ==> cl.cursor < |m.peers[c]|)
  }

  ghost predicate Shaped(m: Mesh, net: Net) {
    && |net.leaves| == |net.clients| == |m.peers|
    && (forall c :: 0 <= c < |m.peers| ==> ShapedClient(m, net, c))
    && (forall a :: a in net.abandoned ==> a.0 < |m.peers|)
  }

  predicate InContact(m: Mesh, net: Net, c: nat) {
    c < |m.peers| && c < |net.clients| && net.clients[c].cursor < |m.peers[c]|
  }

  function PeerOf(m: Mesh, net: Net, c: nat): nat
    requires InContact(m, net, c)
  {
    m.peers[c][net.clients[c].cursor]
  }

  function HealthOf(m: Mesh, net: Net, c: nat): Health
    requires InContact(m, net, c) && |m.peers| == |net.clients| && ShapedClient(m, net, c)
  {
    net.clients[c].health[net.clients[c].cursor]
  }

  function SetPhase(net: Net, c: nat, p: Phase): Net
    requires c < |net.clients|
  {
    net.(clients := net.clients[c := net.clients[c].(phase := p)])
  }

  /** Finish with the current peer, leaving health `h` for it. */
  function Advance(net: Net, c: nat, h: Health): Net
    requires c < |net.clients| && net.clients[c].cursor < |net.clients[c].health|
  {
    var cl := net.clients[c];
    net.(clients := net.clients[c := Client(cl.cursor + 1, Ready, cl.health[cl.cursor := h])])
  }

  function SetLeaves(net: Net, r: nat, leaves: set<Leaf>): Net
    requires r < |net.leaves|
  {
    net.(leaves := net.leaves[r := leaves])
  }

  ghost predicate Enabled(m: Mesh, net: Net, s: Step)
    requires WellFormed(m) && Shaped(m, net)
  {
    match s
    case SkipPeer(c) => InContact(m, net, c) && net.clients[c].phase.Ready? && HealthOf(m, net, c).ShouldSkip()
    case FetchRoot(c) => InContact(m, net, c) && net.clients[c].phase.Ready? && !HealthOf(m, net, c).ShouldSkip()
    case FetchMalformed(c) => InContact(m, net, c) && net.clients[c].phase.Ready? && !HealthOf(m, net, c).ShouldSkip()
    case CompareRoots(c) => InContact(m, net, c) && net.clients[c].phase.RootSeen?
    case EncodeState(c) => InContact(m, net, c) && net.clients[c].phase.Differs?
    case Serve(c) => InContact(m, net, c) && net.clients[c].phase.Posted?
    case Absorb(c) => InContact(m, net, c) && net.clients[c].phase.Served?
    case Learn(c) => InContact(m, net, c) && net.clients[c].phase.Replied?
    case Fail(c) => InContact(m, net, c) && (net.clients[c].phase.Ready? ==> !HealthOf(m, net, c).ShouldSkip())
    case Damage(c, junk) =>
      && InContact(m, net, c) && m.codec.decode(junk).None?
      && (net.clients[c].phase.Posted? || net.clients[c].phase.Replied?)
    case AbsorbAbandoned(server, body) => (server, body) in net.abandoned
    case NextRound(c) => c < |m.peers| && net.clients[c].cursor == |m.peers[c]|
  }

  ghost function Apply(m: Mesh, net: Net, s: Step): Net
    requires WellFormed(m) && Shaped(m, net)
  {
    if !Enabled(m, net, s) then net
    else match s
      case SkipPeer(c) => Advance(net, c, HealthOf(m, net, c).Skipped())
      case FetchRoot(c) => SetPhase(net, c, RootSeen(net.leaves[PeerOf(m, net, c)]))
      case FetchMalformed(c) => SetPhase(net, c, Differs)
      case CompareRoots(c) =>
        var text := m.codec.rootOf(net.clients[c].phase.seen);
        if IsRoot(text) && text == m.codec.rootOf(net.leaves[c])
        then Advance(net, c, HealthOf(m, net, c).Succeeded())
        else SetPhase(net, c, Differs)
      case EncodeState(c) => SetPhase(net, c, Posted(m.codec.encode(net.leaves[c])))
      case Serve(c) =>
        SetPhase(net, c, Served(net.clients[c].phase.ours, m.codec.encode(net.leaves[PeerOf(m, net, c)])))
      case Absorb(c) =>
        var p, ph := PeerOf(m, net, c), net.clients[c].phase;
        (match Join(m.codec, m.ceilings[p], net.leaves[p], ph.request)
         case None => Advance(net, c, HealthOf(m, net, c).Failed())
         case Some(merged) => SetPhase(SetLeaves(net, p, merged), c, Replied(ph.answer)))
      case Learn(c) =>
        (match Join(m.codec, m.ceilings[c], net.leaves[c], net.clients[c].phase.reply)
         case None => Advance(net, c, HealthOf(m, net, c))
         case Some(merged) => Advance(SetLeaves(net, c, merged), c, HealthOf(m, net, c).Succeeded()))
      case Fail(c) =>
        var ph := net.clients[c].phase;
        var lost := match ph
          case Posted(ours) => {(PeerOf(m, net, c), ours)}
          case Served(request, _) => {(PeerOf(m, net, c), request)}
          case _ => {};
        Advance(net.(abandoned := net.abandoned + lost), c, HealthOf(m, net, c).Failed())
      case Damage(c, junk) =>
        SetPhase(net, c, if net.clients[c].phase.Posted? then Posted(junk) else Replied(junk))
      case AbsorbAbandoned(server, body) =>
        (match Join(m.codec, m.ceilings[server], net.leaves[server], body)
         case None => net
         case Some(merged) => SetLeaves(net, server, merged))
      case NextRound(c) => net.(clients := net.clients[c := net.clients[c].(cursor := 0)])
  }

  lemma ApplyShaped(m: Mesh, net: Net, s: Step)
    requires WellFormed(m) && Shaped(m, net)
    ensures Shaped(m, Apply(m, net, s))
  {
    var after := Apply(m, net, s);
    forall c | 0 <= c < |m.peers| ensures ShapedClient(m, after, c) {
      assert ShapedClient(m, net, c);
    }
  }

  ghost function Exec(m: Mesh, net: Net, steps: seq<Step>): (after: Net)
    requires WellFormed(m) && Shaped(m, net)
    ensures Shaped(m, after)
    decreases |steps|
  {
    if steps == [] then net
    else
      ApplyShaped(m, net, steps[0]);
      Exec(m, Apply(m, net, steps[0]), steps[1..])
  }

  ghost function Init(m: Mesh, leaves: seq<set<Leaf>>): (net: Net)
    requires WellFormed(m) && |leaves| == |m.peers|
    ensures Shaped(m, net)
  {
    Net(leaves, seq(|m.peers|, c requires 0 <= c < |m.peers| => Client(0, Ready, seq(|m.peers[c]|, _ => Health(0, 0)))), {})
  }

  function Union(leaves: seq<set<Leaf>>): set<Leaf> {
    set r, x | 0 <= r < |leaves| && x in leaves[r] :: x
  }

  // ------------------------------------------------------------------ safety

  /** A body carries no leaf from outside `universe`. */
  ghost predicate Carries(m: Mesh, universe: set<Leaf>, body: bytes) {
    m.codec.decode(body).Some? ==> m.codec.decode(body).value <= universe
  }

  ghost predicate PhaseWithin(m: Mesh, universe: set<Leaf>, p: Phase) {
    match p
    case Ready => true
    case RootSeen(seen) => seen <= universe
    case Differs => true
    case Posted(ours) => Carries(m, universe, ours)
    case Served(request, answer) => Carries(m, universe, request) && Carries(m, universe, answer)
    case Replied(reply) => Carries(m, universe, reply)
  }

  /** Nothing held or in flight lies outside `universe`. */
  ghost predicate Within(m: Mesh, universe: set<Leaf>, net: Net) {
    && (forall r :: 0 <= r < |net.leaves| ==> net.leaves[r] <= universe)
    && (forall c :: 0 <= c < |net.clients| ==> PhaseWithin(m, universe, net.clients[c].phase))
    && (forall a :: a in net.abandoned ==> Carries(m, universe, a.1))
  }

  ghost predicate Grows(before: Net, after: Net) {
    && |before.leaves| == |after.leaves|
    && forall r :: 0 <= r < |before.leaves| ==> before.leaves[r] <= after.leaves[r]
  }

  /** The bodies a step hands to `merge_state`, with the replica that receives them. */
  ghost function Delivery(m: Mesh, net: Net, s: Step): Option<(nat, bytes)>
    requires WellFormed(m) && Shaped(m, net)
  {
    if !Enabled(m, net, s) then None
    else match s
      case Absorb(c) => Some((PeerOf(m, net, c), net.clients[c].phase.request))
      case Learn(c) => Some((c, net.clients[c].phase.reply))
      case AbsorbAbandoned(server, body) => Some((server, body))
      case _ => None
  }

  /**
   A step changes leaves only by a delivery that is accepted, and then only at its receiver; a
   refused body leaves every accumulator exactly as it was.
   */
  lemma OnlyAcceptedBodiesMoveLeaves(m: Mesh, net: Net, s: Step)
    requires WellFormed(m) && Shaped(m, net)
    ensures match Delivery(m, net, s)
            case None => Apply(m, net, s).leaves == net.leaves
            case Some((r, body)) =>
              && r < |net.leaves|
              && match Join(m.codec, m.ceilings[r], net.leaves[r], body)
                 case None => Apply(m, net, s).leaves == net.leaves
                 case Some(merged) => Apply(m, net, s).leaves == net.leaves[r := merged]
  {
  }

  lemma StepLeavesSafe(m: Mesh, universe: set<Leaf>, net: Net, s: Step)
    requires WellFormed(m) && Shaped(m, net) && Within(m, universe, net)
    ensures var after := Apply(m, net, s);
            Grows(net, after) && forall r :: 0 <= r < |after.leaves| ==> after.leaves[r] <= universe
  {
  }

  /** Bodies are encoded from leaves within the universe, and abandoned ones were in flight. */
  lemma StepBodiesSafe(m: Mesh, universe: set<Leaf>, net: Net, s: Step)
    requires WellFormed(m) && Shaped(m, net) && Within(m, universe, net)
    ensures var after := Apply(m, net, s);
            && (forall c :: 0 <= c < |after.clients| ==> PhaseWithin(m, universe, after.clients[c].phase))
            && (forall a :: a in after.abandoned ==> Carries(m, universe, a.1))
  {
  }

  /** Every step keeps leaves, bodies in flight and stragglers within the universe, and loses no leaf. */
  lemma StepSafe(m: Mesh, universe: set<Leaf>, net: Net, s: Step)
    requires WellFormed(m) && Shaped(m, net) && Within(m, universe, net)
    ensures Within(m, universe, Apply(m, net, s)) && Grows(net, Apply(m, net, s))
  {
    StepLeavesSafe(m, universe, net, s);
    StepBodiesSafe(m, universe, net, s);
  }

  lemma {:induction false} ExecSafe(m: Mesh, universe: set<Leaf>, net: Net, steps: seq<Step>)
    requires WellFormed(m) && Shaped(m, net) && Within(m, universe, net)
    ensures Within(m, universe, Exec(m, net, steps)) && Grows(net, Exec(m, net, steps))
    decreases |steps|
  {
    if steps != [] {
      StepSafe(m, universe, net, steps[0]);
      ApplyShaped(m, net, steps[0]);
      ExecSafe(m, universe, Apply(m, net, steps[0]), steps[1..]);
    }
  }

  lemma {:induction false} ExecAppend(m: Mesh, net: Net, a: seq<Step>, b: seq<Step>)
    requires WellFormed(m) && Shaped(m, net)
    ensures Exec(m, net, a + b) == Exec(m, Exec(m, net, a), b)
    decreases |a|
  {
    if a == [] {
      assert a + b == b;
    } else {
      assert (a + b)[0] == a[0] && (a + b)[1..] == a[1..] + b;
      ApplyShaped(m, net, a[0]);
      ExecAppend(m, Apply(m, net, a[0]), a[1..], b);
    }
  }

  /**
   Safety over every interleaving, with failures, damage, refusals and stragglers: leaf sets
   only grow, keep what they started with, and hold nothing that no replica started with; so
   the mesh as a whole neither loses nor invents a leaf.
   */
  lemma GossipSafety(m: Mesh, leaves: seq<set<Leaf>>, past: seq<Step>, future: seq<Step>)
    requires WellFormed(m) && |leaves| == |m.peers|
    ensures var mid, end := Exec(m, Init(m, leaves), past), Exec(m, Init(m, leaves), past + future);
            && Grows(mid, end)
            && (forall r :: 0 <= r < |leaves| ==> leaves[r] <= end.leaves[r] <= Union(leaves))
            && Union(end.leaves) == Union(leaves)
  {
    var start := Init(m, leaves);
    var universe := Union(leaves);
    ExecSafe(m, universe, start, past);
    ExecAppend(m, start, past, future);
    var mid := Exec(m, start, past);
    ExecSafe(m, universe, mid, future);
    var end := Exec(m, start, past + future);
    forall x | x in universe ensures x in Union(end.leaves) {
      var r :| 0 <= r < |leaves| && x in leaves[r];
      assert x in mid.leaves[r] && x in end.leaves[r];
    }
    forall x | x in Union(end.leaves) ensures x in universe {
      var r :| 0 <= r < |end.leaves| && x in end.leaves[r];
    }
  }

  // ----------------------------------------------------------------- backoff

  ghost predicate ClientBackoff(cl: Client, bound: nat) {
    forall k :: 0 <= k < |cl.health| ==> cl.health[k].skip <= bound
  }

  ghost predicate BackoffBounded(net: Net, bound: nat) {
    forall c :: 0 <= c < |net.clients| ==> ClientBackoff(net.clients[c], bound)
  }

  lemma StepBackoff(m: Mesh, net: Net, s: Step)
    requires WellFormed(m) && Shaped(m, net) && BackoffBounded(net, MAX_SKIP)
    ensures BackoffBounded(Apply(m, net, s), MAX_SKIP)
  {
    if Enabled(m, net, s) && !s.AbsorbAbandoned? {
      assert ShapedClient(m, net, s.c) && ClientBackoff(net.clients[s.c], MAX_SKIP);
      match s {
        case Fail(c) => BackoffBounds(HealthOf(m, net, c));
        case Absorb(c) => BackoffBounds(HealthOf(m, net, c));
        case _ =>
      }
    }
  }

  /** In every reachable state no peer is skipped for more than 64 rounds. */
  lemma {:induction false} ExecBackoff(m: Mesh, net: Net, steps: seq<Step>)
    requires WellFormed(m) && Shaped(m, net) && BackoffBounded(net, MAX_SKIP)
    ensures BackoffBounded(Exec(m, net, steps), MAX_SKIP)
    decreases |steps|
  {
    if steps != [] {
      StepBackoff(m, net, steps[0]);
      ApplyShaped(m, net, steps[0]);
      ExecBackoff(m, Apply(m, net, steps[0]), steps[1..]);
    }
  }
}
