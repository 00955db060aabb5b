/**
 Convergence of the mesh: once links work and states fit the ceiling, `64 + D` lockstep rounds
 bring every replica of a mesh of diameter `D` to the union of all leaf sets, whatever the
 interleaving inside each round.
 */
module GossipConvergence {
  import opened Common
  import opened Gossip
  import opened GossipMesh

  // ------------------------------------------------- one round, any interleaving

  /** Every state drawn from `universe` is within every replica's ceiling. */
  ghost predicate Fits(m: Mesh, universe: set<Leaf>) {
    forall leaves: set<Leaf>, r :: leaves <= universe && 0 <= r < |m.ceilings| ==>
      |m.codec.encode(leaves)| <= m.ceilings[r]
  }

  predicate LinksWork(s: Step) { !s.Fail? && !s.Damage? && !s.NextRound? }

  predicate AllLinksWork(steps: seq<Step>) { forall i :: 0 <= i < |steps| ==> LinksWork(steps[i]) }

  ghost predicate AtStart(m: Mesh, net: Net) {
    forall c :: 0 <= c < |net.clients| ==> net.clients[c].cursor == 0 && net.clients[c].phase.Ready?
  }

  ghost predicate AtEnd(m: Mesh, net: Net)
    requires |net.clients| == |m.peers|
  {
    forall c :: 0 <= c < |net.clients| ==> net.clients[c].cursor == |m.peers[c]|
  }

  /** Each side now holds what the other held when the round began. */
  ghost predicate Informed(start: Net, cur: Net, c: nat, p: nat)
    requires c < |start.leaves| && p < |start.leaves| == |cur.leaves|
  {
    start.leaves[c] <= cur.leaves[p] && start.leaves[p] <= cur.leaves[c]
  }

  /** An honest encoding of something between `lower` and `universe`. */
  ghost predicate Snapshot(m: Mesh, universe: set<Leaf>, lower: set<Leaf>, body: bytes) {
    var d := m.codec.decode(body);
    d.Some? && lower <= d.value <= universe && body == m.codec.encode(d.value)
  }

  function Dec(n: nat): nat { if n == 0 then 0 else n - 1 }

  /** What the contact in progress guarantees. */
  ghost predicate PhaseProgress(m: Mesh, universe: set<Leaf>, start: Net, cur: Net, c: nat)
    requires WellFormed(m) && Shaped(m, start) && Shaped(m, cur)
    requires InContact(m, cur, c)
  {
    var p := PeerOf(m, cur, c);
    match cur.clients[c].phase
    case Ready => true
    case RootSeen(seen) => start.leaves[p] <= seen <= cur.leaves[p]
    case Differs => true
    case Posted(ours) => Snapshot(m, universe, start.leaves[c], ours)
    case Served(request, answer) =>
      Snapshot(m, universe, start.leaves[c], request) && Snapshot(m, universe, start.leaves[p], answer)
    case Replied(reply) => Snapshot(m, universe, start.leaves[p], reply) && start.leaves[c] <= cur.leaves[p]
  }

  /** Contacted peers are informed and every counter passed by the cursor has ticked once. */
  ghost predicate PeersDone(m: Mesh, start: Net, cur: Net, c: nat)
    requires WellFormed(m) && Shaped(m, start) && Shaped(m, cur) && c < |m.peers|
  {
    assert ShapedClient(m, start, c) && ShapedClient(m, cur, c);
    forall k :: 0 <= k < |m.peers[c]| ==>
      var before, now := start.clients[c].health[k].skip, cur.clients[c].health[k].skip;
      if k < cur.clients[c].cursor
      then now == Dec(before) && (before == 0 ==> Informed(start, cur, c, m.peers[c][k]))
      else now == before
  }

  ghost predicate ClientRound(m: Mesh, universe: set<Leaf>, start: Net, cur: Net, c: nat)
    requires WellFormed(m) && Shaped(m, start) && Shaped(m, cur) && c < |m.peers|
  {
    && PeersDone(m, start, cur, c)
    && (!cur.clients[c].phase.Ready? ==>
          && InContact(m, cur, c) && ShapedClient(m, cur, c)
          && HealthOf(m, cur, c).skip == 0
          && PhaseProgress(m, universe, start, cur, c))
  }

  ghost predicate RoundInv(m: Mesh, universe: set<Leaf>, start: Net, cur: Net)
    requires WellFormed(m) && Shaped(m, start)
  {
    && Shaped(m, cur) && Within(m, universe, cur) && Grows(start, cur)
    && forall c :: 0 <= c < |m.peers| ==> ClientRound(m, universe, start, cur, c)
  }

  /** A client that does not move keeps its guarantees while leaf sets grow. */
  lemma FrameClient(m: Mesh, universe: set<Leaf>, start: Net, cur: Net, next: Net, c: nat)
    requires WellFormed(m) && Shaped(m, start) && Shaped(m, cur) && Shaped(m, next) && c < |m.peers|
    requires ClientRound(m, universe, start, cur, c)
    requires Grows(cur, next) && next.clients[c] == cur.clients[c]
    ensures ClientRound(m, universe, start, next, c)
  {
  }

  /** Finishing the contact under the cursor. */
  lemma FinishPeer(m: Mesh, universe: set<Leaf>, start: Net, cur: Net, next: Net, c: nat)
    requires WellFormed(m) && Shaped(m, start) && Shaped(m, cur) && Shaped(m, next)
    requires InContact(m, cur, c) && ShapedClient(m, cur, c)
    requires ClientRound(m, universe, start, cur, c)
    requires Grows(cur, next)
    requires next.clients[c].cursor == cur.clients[c].cursor + 1 && next.clients[c].phase.Ready?
    requires |next.clients[c].health| == |cur.clients[c].health|
    requires forall k :: 0 <= k < |cur.clients[c].health| && k != cur.clients[c].cursor ==>
               next.clients[c].health[k] == cur.clients[c].health[k]
    requires next.clients[c].health[cur.clients[c].cursor].skip == Dec(HealthOf(m, cur, c).skip)
    requires HealthOf(m, cur, c).skip == 0 ==> Informed(start, next, c, PeerOf(m, cur, c))
    ensures ClientRound(m, universe, start, next, c)
  {
  }

  /** Moving to another phase of the same contact. */
  lemma ChangePhase(m: Mesh, universe: set<Leaf>, start: Net, cur: Net, next: Net, c: nat)
    requires WellFormed(m) && Shaped(m, start) && Shaped(m, cur) && Shaped(m, next)
    requires InContact(m, cur, c) && ShapedClient(m, cur, c)
    requires ClientRound(m, universe, start, cur, c)
    requires Grows(cur, next)
    requires next.clients[c].cursor == cur.clients[c].cursor && next.clients[c].health == cur.clients[c].health
    requires HealthOf(m, cur, c).skip == 0
    requires PhaseProgress(m, universe, start, next, c)
    ensures ClientRound(m, universe, start, next, c)
  {
  }

  lemma SnapshotAccepted(m: Mesh, universe: set<Leaf>, lower: set<Leaf>, body: bytes, r: nat, leaves: set<Leaf>)
    requires WellFormed(m) && Fits(m, universe) && r < |m.ceilings| && Snapshot(m, universe, lower, body)
    ensures var j := Join(m.codec, m.ceilings[r], leaves, body);
            j.Some? && lower <= j.value && leaves <= j.value
  {
  }

  lemma ActingClient(m: Mesh, universe: set<Leaf>, start: Net, cur: Net, s: Step, c: nat)
    requires WellFormed(m) && Shaped(m, start) && RoundInv(m, universe, start, cur)
    requires Fits(m, universe) && CollisionFree(m.codec, universe)
    requires Shaped(m, Apply(m, cur, s)) && Grows(cur, Apply(m, cur, s))
    requires LinksWork(s) && Enabled(m, cur, s) && !s.AbsorbAbandoned? && s.c == c
    ensures ClientRound(m, universe, start, Apply(m, cur, s), c)
  {
    var next := Apply(m, cur, s);
    assert ShapedClient(m, cur, c) && ClientRound(m, universe, start, cur, c);
    var p := PeerOf(m, cur, c);
    assert p < |m.peers|;
    assert start.leaves[c] <= cur.leaves[c] && start.leaves[p] <= cur.leaves[p];
    match s {
      case SkipPeer(_) => FinishPeer(m, universe, start, cur, next, c);
      case FetchRoot(_) => ChangePhase(m, universe, start, cur, next, c);
      case FetchMalformed(_) => ChangePhase(m, universe, start, cur, next, c);
      case CompareRoots(_) =>
        if next.clients[c].phase.Ready? {
          assert cur.leaves[p] <= universe && cur.leaves[c] <= universe;
          assert cur.clients[c].phase.seen == cur.leaves[c];
          FinishPeer(m, universe, start, cur, next, c);
        } else {
          ChangePhase(m, universe, start, cur, next, c);
        }
      case EncodeState(_) =>
        assert cur.leaves[c] <= universe;
        ChangePhase(m, universe, start, cur, next, c);
      case Serve(_) =>
        assert cur.leaves[p] <= universe;
        ChangePhase(m, universe, start, cur, next, c);
      case Absorb(_) =>
        SnapshotAccepted(m, universe, start.leaves[c], cur.clients[c].phase.request, p, cur.leaves[p]);
        ChangePhase(m, universe, start, cur, next, c);
      case Learn(_) =>
        SnapshotAccepted(m, universe, start.leaves[p], cur.clients[c].phase.reply, c, cur.leaves[c]);
        FinishPeer(m, universe, start, cur, next, c);
    }
  }

  lemma RoundStep(m: Mesh, universe: set<Leaf>, start: Net, cur: Net, s: Step)
    requires WellFormed(m) && Shaped(m, start) && RoundInv(m, universe, start, cur)
    requires Fits(m, universe) && CollisionFree(m.codec, universe) && LinksWork(s)
    ensures RoundInv(m, universe, start, Apply(m, cur, s))
  {
    var next := Apply(m, cur, s);
    ApplyShaped(m, cur, s);
    StepSafe(m, universe, cur, s);
    forall c | 0 <= c < |m.peers| ensures ClientRound(m, universe, start, next, c) {
      assert ClientRound(m, universe, start, cur, c);
      if Enabled(m, cur, s) && !s.AbsorbAbandoned? && s.c == c {
        ActingClient(m, universe, start, cur, s, c);
      } else {
        FrameClient(m, universe, start, cur, next, c);
      }
    }
  }

  lemma {:induction false} RoundExec(m: Mesh, universe: set<Leaf>, start: Net, cur: Net, steps: seq<Step>)
    requires WellFormed(m) && Shaped(m, start) && RoundInv(m, universe, start, cur)
    requires Fits(m, universe) && CollisionFree(m.codec, universe) && AllLinksWork(steps)
    ensures RoundInv(m, universe, start, Exec(m, cur, steps))
    decreases |steps|
  {
    if steps != [] {
      RoundStep(m, universe, start, cur, steps[0]);
      RoundExec(m, universe, start, Apply(m, cur, steps[0]), steps[1..]);
    }
  }

  /** After a round the counter for peer `k` of `c` has ticked, and if it was zero both ends are informed. */
  ghost predicate PeerDone(m: Mesh, start: Net, end: Net, c: nat, k: nat)
    requires WellFormed(m) && Shaped(m, start) && Shaped(m, end)
    requires c < |m.peers| && k < |m.peers[c]|
  {
    assert ShapedClient(m, start, c) && ShapedClient(m, end, c);
    && end.clients[c].health[k].skip == Dec(start.clients[c].health[k].skip)
    && (start.clients[c].health[k].skip == 0 ==> Informed(start, end, c, m.peers[c][k]))
  }

  /**
   One lockstep round under any interleaving: an exchange or a root match informs both ends,
   although the server answers with the state it held before merging.
   */
  lemma RoundInformsBothEnds(m: Mesh, universe: set<Leaf>, start: Net, steps: seq<Step>)
    requires WellFormed(m) && Shaped(m, start) && Within(m, universe, start) && AtStart(m, start)
    requires Fits(m, universe) && CollisionFree(m.codec, universe) && AllLinksWork(steps)
    requires AtEnd(m, Exec(m, start, steps))
    ensures var end := Exec(m, start, steps);
            && Within(m, universe, end) && Grows(start, end)
            && forall c: nat, k: nat :: c < |m.peers| && k < |m.peers[c]| ==> PeerDone(m, start, end, c, k)
  {
    forall c | 0 <= c < |m.peers| ensures ClientRound(m, universe, start, start, c) {
      assert ShapedClient(m, start, c) && start.clients[c].cursor == 0;
    }
    RoundExec(m, universe, start, start, steps);
    var end := Exec(m, start, steps);
    forall c: nat, k: nat | c < |m.peers| && k < |m.peers[c]| ensures PeerDone(m, start, end, c, k) {
      assert ShapedClient(m, start, c) && ShapedClient(m, end, c);
      assert ClientRound(m, universe, start, end, c) && PeersDone(m, start, end, c);
      assert end.clients[c].cursor == |m.peers[c]|;
    }
  }

  // ------------------------------------------------------------- many rounds

  ghost function Rewind(m: Mesh, net: Net): (after: Net)
    requires WellFormed(m) && Shaped(m, net) && AtEnd(m, net)
    ensures Shaped(m, after) && AtStart(m, after) && after.leaves == net.leaves
  {
    var clients := seq(|net.clients|, c requires 0 <= c < |net.clients| => net.clients[c].(cursor := 0));
    var after := net.(clients := clients);
    assert forall c :: 0 <= c < |m.peers| ==> ShapedClient(m, after, c) && after.clients[c].phase.Ready? by {
      forall c | 0 <= c < |m.peers| ensures ShapedClient(m, after, c) && after.clients[c].phase.Ready? {
        assert ShapedClient(m, net, c) && net.clients[c].cursor == |m.peers[c]|;
      }
    }
    after
  }

  /** Each element of `rounds` is one lockstep round: all replicas start it together and all finish it. */
  ghost predicate Lockstep(m: Mesh, net: Net, rounds: seq<seq<Step>>)
    requires WellFormed(m) && Shaped(m, net)
    decreases |rounds|
  {
    rounds == [] ||
    (&& AllLinksWork(rounds[0])
     && AtEnd(m, Exec(m, net, rounds[0]))
     && Lockstep(m, Rewind(m, Exec(m, net, rounds[0])), rounds[1..]))
  }

  ghost function AfterRounds(m: Mesh, net: Net, rounds: seq<seq<Step>>): (after: Net)
    requires WellFormed(m) && Shaped(m, net) && Lockstep(m, net, rounds)
    ensures Shaped(m, after)
    decreases |rounds|
  {
    if rounds == [] then net
    else AfterRounds(m, Rewind(m, Exec(m, net, rounds[0])), rounds[1..])
  }

  ghost predicate Linked(m: Mesh, a: nat, b: nat) {
    && a < |m.peers| && b < |m.peers|
    && (b in m.peers[a] || a in m.peers[b])
  }

  /** `path` goes from `a` to `b` along "lists or is listed by". */
  ghost predicate Path(m: Mesh, path: seq<nat>, a: nat, b: nat) {
    && path != [] && path[0] == a && path[|path| - 1] == b
    && (forall i :: 0 <= i < |path| ==> path[i] < |m.peers|)
    && (forall i :: 0 <= i < |path| - 1 ==> Linked(m, path[i], path[i + 1]))
  }

  ghost predicate WithinHops(m: Mesh, a: nat, b: nat, d: nat) {
    exists path :: Path(m, path, a, b) && |path| - 1 <= d
  }

  ghost predicate DiameterAtMost(m: Mesh, d: nat) {
    forall a: nat, b: nat :: a < |m.peers| && b < |m.peers| ==> WithinHops(m, a, b, d)
  }

  ghost predicate Settled(m: Mesh, universe: set<Leaf>, net: Net, bound: nat) {
    WellFormed(m) && Shaped(m, net) && Within(m, universe, net) && AtStart(m, net) && BackoffBounded(net, bound)
  }

  lemma OneRound(m: Mesh, universe: set<Leaf>, net: Net, bound: nat, steps: seq<Step>)
    requires Settled(m, universe, net, bound)
    requires Fits(m, universe) && CollisionFree(m.codec, universe) && AllLinksWork(steps)
    requires AtEnd(m, Exec(m, net, steps))
    ensures var after := Rewind(m, Exec(m, net, steps));
            && Settled(m, universe, after, Dec(bound)) && Grows(net, after)
            && (bound == 0 ==> forall a: nat, b: nat :: Linked(m, a, b) ==> net.leaves[a] <= after.leaves[b])
  {
    RoundInformsBothEnds(m, universe, net, steps);
    var end := Exec(m, net, steps);
    var after := Rewind(m, end);
    forall c | 0 <= c < |after.clients| ensures ClientBackoff(after.clients[c], Dec(bound)) {
      assert ShapedClient(m, net, c) && ShapedClient(m, end, c) && ClientBackoff(net.clients[c], bound);
      forall k | 0 <= k < |after.clients[c].health| ensures after.clients[c].health[k].skip <= Dec(bound) {
        assert PeerDone(m, net, end, c, k);
      }
    }
    if bound == 0 {
      forall a: nat, b: nat | Linked(m, a, b) ensures net.leaves[a] <= after.leaves[b] {
        if b in m.peers[a] {
          var k :| 0 <= k < |m.peers[a]| && m.peers[a][k] == b;
          assert ShapedClient(m, net, a) && ClientBackoff(net.clients[a], 0) && PeerDone(m, net, end, a, k);
        } else {
          var k :| 0 <= k < |m.peers[b]| && m.peers[b][k] == a;
          assert ShapedClient(m, net, b) && ClientBackoff(net.clients[b], 0) && PeerDone(m, net, end, b, k);
        }
      }
    }
  }

  /** Backoff left over from failures before the links recovered is gone after `bound` rounds. */
  lemma {:induction false} BackoffDrains(m: Mesh, universe: set<Leaf>, net: Net, bound: nat, rounds: seq<seq<Step>>)
    requires Settled(m, universe, net, bound)
    requires Fits(m, universe) && CollisionFree(m.codec, universe)
    requires Lockstep(m, net, rounds)
    ensures var after := AfterRounds(m, net, rounds);
            Grows(net, after) && Settled(m, universe, after, if |rounds| <= bound then bound - |rounds| else 0)
    decreases |rounds|
  {
    if rounds != [] {
      OneRound(m, universe, net, bound, rounds[0]);
      BackoffDrains(m, universe, Rewind(m, Exec(m, net, rounds[0])), Dec(bound), rounds[1..]);
    }
  }

  /** With no backoff, leaves travel one edge per round. */
  lemma {:induction false} LeavesTravel(m: Mesh, universe: set<Leaf>, net: Net, rounds: seq<seq<Step>>, path: seq<nat>, a: nat, b: nat)
    requires Settled(m, universe, net, 0)
    requires Fits(m, universe) && CollisionFree(m.codec, universe)
    requires Lockstep(m, net, rounds)
    requires Path(m, path, a, b) && |path| - 1 <= |rounds|
    ensures net.leaves[a] <= AfterRounds(m, net, rounds).leaves[b]
    decreases |rounds|
  {
    if rounds != [] {
      OneRound(m, universe, net, 0, rounds[0]);
      var after := Rewind(m, Exec(m, net, rounds[0]));
      if |path| == 1 {
        LeavesTravel(m, universe, after, rounds[1..], path, a, b);
      } else {
        assert Linked(m, path[0], path[1]);
        assert Path(m, path[1..], path[1], b) by {
          forall i | 0 <= i < |path[1..]| - 1 ensures Linked(m, path[1..][i], path[1..][i + 1]) {
            assert Linked(m, path[i + 1], path[i + 2]);
          }
        }
        LeavesTravel(m, universe, after, rounds[1..], path[1..], path[1], b);
      }
    }
  }

  lemma {:induction false} RoundsSplit(m: Mesh, net: Net, rounds: seq<seq<Step>>, n: nat)
    requires WellFormed(m) && Shaped(m, net) && Lockstep(m, net, rounds) && n <= |rounds|
    ensures Lockstep(m, net, rounds[..n])
    ensures Lockstep(m, AfterRounds(m, net, rounds[..n]), rounds[n..])
    ensures AfterRounds(m, net, rounds) == AfterRounds(m, AfterRounds(m, net, rounds[..n]), rounds[n..])
    decreases n
  {
    if n == 0 {
      assert rounds[..0] == [] && rounds[0..] == rounds;
    } else {
      var after := Rewind(m, Exec(m, net, rounds[0]));
      RoundsSplit(m, after, rounds[1..], n - 1);
      assert rounds[..n][0] == rounds[0] && rounds[..n][1..] == rounds[1..][..n - 1];
      assert rounds[1..][n - 1..] == rounds[n..];
    }
  }

  lemma LeafArrives(m: Mesh, universe: set<Leaf>, net: Net, rounds: seq<seq<Step>>, d: nat, a: nat, b: nat)
    requires Settled(m, universe, net, 0)
    requires Fits(m, universe) && CollisionFree(m.codec, universe)
    requires Lockstep(m, net, rounds) && DiameterAtMost(m, d) && |rounds| >= d
    requires a < |m.peers| && b < |m.peers|
    ensures net.leaves[a] <= AfterRounds(m, net, rounds).leaves[b]
  {
    assert WithinHops(m, a, b, d);
    var path :| Path(m, path, a, b) && |path| - 1 <= d;
    LeavesTravel(m, universe, net, rounds, path, a, b);
  }

  /** From any settled state, `64 + d` rounds give every replica every leaf. */
  lemma ConvergenceBound(m: Mesh, universe: set<Leaf>, net: Net, rounds: seq<seq<Step>>, d: nat)
    requires Settled(m, universe, net, MAX_SKIP) && universe == Union(net.leaves)
    requires Fits(m, universe) && CollisionFree(m.codec, universe)
    requires Lockstep(m, net, rounds) && DiameterAtMost(m, d) && |rounds| >= MAX_SKIP + d
    ensures forall r :: 0 <= r < |m.peers| ==> AfterRounds(m, net, rounds).leaves[r] == universe
  {
    RoundsSplit(m, net, rounds, MAX_SKIP);
    BackoffDrains(m, universe, net, MAX_SKIP, rounds[..MAX_SKIP]);
    var mid := AfterRounds(m, net, rounds[..MAX_SKIP]);
    var rest := rounds[MAX_SKIP..];
    BackoffDrains(m, universe, mid, 0, rest);
    var end := AfterRounds(m, net, rounds);
    forall r, x | 0 <= r < |m.peers| && x in universe ensures x in end.leaves[r] {
      var a :| 0 <= a < |net.leaves| && x in net.leaves[a];
      LeafArrives(m, universe, mid, rest, d, a, r);
    }
  }

  /**
   The convergence bound. After any past - failures, damage, refusals, stragglers - that ends at
   the start of a round, as soon as the links work and states fit, `64 + d` lockstep rounds leave every replica with exactly
   the leaves the replicas started with between them, hence with one root; unless two leaf sets
   drawn from those leaves share a root.
   */
  lemma EventualAgreement(m: Mesh, leaves: seq<set<Leaf>>, past: seq<Step>, rounds: seq<seq<Step>>, d: nat)
    requires WellFormed(m) && |leaves| == |m.peers|
    requires Fits(m, Union(leaves)) && DiameterAtMost(m, d)
    requires var net := Exec(m, Init(m, leaves), past);
             AtStart(m, net) && Lockstep(m, net, rounds) && |rounds| >= MAX_SKIP + d
    ensures var end := AfterRounds(m, Exec(m, Init(m, leaves), past), rounds);
            || !CollisionFree(m.codec, Union(leaves))
            || forall r :: 0 <= r < |m.peers| ==>
                 && end.leaves[r] == Union(leaves)
                 && m.codec.rootOf(end.leaves[r]) == m.codec.rootOf(Union(leaves))
  {
    var start := Init(m, leaves);
    var net := Exec(m, start, past);
    GossipSafety(m, leaves, past, []);
    assert past + [] == past;
    ExecSafe(m, Union(leaves), start, past);
    ExecBackoff(m, start, past);
    if CollisionFree(m.codec, Union(leaves)) {
      ConvergenceBound(m, Union(leaves), net, rounds, d);
    }
  }

  /** The same after any past at all: contacts under way are first brought to an end in a partial round. */
  lemma AgreementFromAnywhere(m: Mesh, leaves: seq<set<Leaf>>, past: seq<Step>, rounds: seq<seq<Step>>, d: nat)
    requires WellFormed(m) && |leaves| == |m.peers|
    requires Fits(m, Union(leaves)) && DiameterAtMost(m, d)
    requires Lockstep(m, Exec(m, Init(m, leaves), past), rounds) && |rounds| >= 1 + MAX_SKIP + d
    ensures var end := AfterRounds(m, Exec(m, Init(m, leaves), past), rounds);
            || !CollisionFree(m.codec, Union(leaves))
            || forall r :: 0 <= r < |m.peers| ==>
                 && end.leaves[r] == Union(leaves)
                 && m.codec.rootOf(end.leaves[r]) == m.codec.rootOf(Union(leaves))
  {
    var start := Init(m, leaves);
    ExecAppend(m, start, past, rounds[0]);
    GossipSafety(m, leaves, past + rounds[0], []);
    assert past + rounds[0] + [] == past + rounds[0];
    ExecSafe(m, Union(leaves), start, past + rounds[0]);
    ExecBackoff(m, start, past + rounds[0]);
    var net := Rewind(m, Exec(m, Exec(m, start, past), rounds[0]));
    if CollisionFree(m.codec, Union(leaves)) {
      assert forall c :: 0 <= c < |net.clients| ==> net.clients[c].phase.Ready?;
      ConvergenceBound(m, Union(leaves), net, rounds[1..], d);
    }
  }

  // -------------------------------------------- rounds can always be completed

  /** `after` differs from `before` only in leaves, stragglers and client `c`. */
  ghost predicate OnlyClient(before: Net, after: Net, c: nat) {
    && |before.clients| == |after.clients|
    && forall i :: 0 <= i < |before.clients| && i != c ==> after.clients[i] == before.clients[i]
  }

  /** Contact phases in the order a working link takes them. */
  function Rank(p: Phase): nat {
    match p
    case Ready => 5
    case RootSeen(_) => 4
    case Differs => 3
    case Posted(_) => 2
    case Served(_, _) => 1
    case Replied(_) => 0
  }

  function NextStep(m: Mesh, net: Net, c: nat): Step
    requires |m.peers| == |net.clients| && InContact(m, net, c) && ShapedClient(m, net, c)
  {
    match net.clients[c].phase
    case Ready => if HealthOf(m, net, c).ShouldSkip() then SkipPeer(c) else FetchRoot(c)
    case RootSeen(_) => CompareRoots(c)
    case Differs => EncodeState(c)
    case Posted(_) => Serve(c)
    case Served(_, _) => Absorb(c)
    case Replied(_) => Learn(c)
  }

  lemma NextStepProgress(m: Mesh, net: Net, c: nat)
    requires WellFormed(m) && Shaped(m, net) && InContact(m, net, c) && ShapedClient(m, net, c)
    ensures var s := NextStep(m, net, c);
            var after := Apply(m, net, s);
            && LinksWork(s) && OnlyClient(net, after, c)
            && (|| (after.clients[c].cursor == net.clients[c].cursor + 1 && after.clients[c].phase.Ready?)
                || (after.clients[c].cursor == net.clients[c].cursor && Rank(after.clients[c].phase) < Rank(net.clients[c].phase)))
  {
  }

  /** Client `c` can finish its pass while the others stand still. */
  lemma {:induction false} ClientCanFinish(m: Mesh, net: Net, c: nat) returns (steps: seq<Step>)
    requires WellFormed(m) && Shaped(m, net) && c < |m.peers|
    ensures AllLinksWork(steps)
    ensures OnlyClient(net, Exec(m, net, steps), c) && Exec(m, net, steps).clients[c].cursor == |m.peers[c]|
    decreases |m.peers[c]| - net.clients[c].cursor, Rank(net.clients[c].phase)
  {
    assert ShapedClient(m, net, c);
    if net.clients[c].cursor == |m.peers[c]| {
      steps := [];
    } else {
      var s := NextStep(m, net, c);
      NextStepProgress(m, net, c);
      ApplyShaped(m, net, s);
      assert ShapedClient(m, Apply(m, net, s), c);
      var rest := ClientCanFinish(m, Apply(m, net, s), c);
      steps := [s] + rest;
      assert steps[0] == s && steps[1..] == rest;
    }
  }

  lemma {:induction false} ClientsCanFinish(m: Mesh, net: Net, n: nat) returns (steps: seq<Step>)
    requires WellFormed(m) && Shaped(m, net) && n <= |m.peers|
    ensures AllLinksWork(steps)
    ensures forall c :: 0 <= c < n ==> Exec(m, net, steps).clients[c].cursor == |m.peers[c]|
    decreases n
  {
    if n == 0 {
      steps := [];
    } else {
      var first := ClientsCanFinish(m, net, n - 1);
      var last := ClientCanFinish(m, Exec(m, net, first), n - 1);
      steps := first + last;
      ExecAppend(m, net, first, last);
      assert forall i :: 0 <= i < |steps| ==> steps[i] == if i < |first| then first[i] else last[i - |first|];
    }
  }

  /** The bound is not vacuous: from every state, any number of lockstep rounds can be run. */
  lemma {:induction false} RoundsCanRun(m: Mesh, net: Net, n: nat) returns (rounds: seq<seq<Step>>)
    requires WellFormed(m) && Shaped(m, net)
    ensures |rounds| == n && Lockstep(m, net, rounds)
    decreases n
  {
    if n == 0 {
      rounds := [];
    } else {
      var steps := ClientsCanFinish(m, net, |m.peers|);
      var rest := RoundsCanRun(m, Rewind(m, Exec(m, net, steps)), n - 1);
      rounds := [steps] + rest;
      assert rounds[0] == steps && rounds[1..] == rest;
    }
  }
}
