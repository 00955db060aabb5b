/**
 What the counters of `GossipStats` mean, over every history of rounds and inbound merges, and
 when the documented reading of `rounds_converged` is right.
 */
module GossipCounters {
  import opened Common
  import opened Gossip

  // ------------------------------------------------- conservation of leaves

  /** How often the published root changed. */
  function RootChanges(c: Codec, published: seq<set<Leaf>>): nat {
    var n := |published|;
    if n < 2 then 0
    else
      var changed := if c.rootOf(published[n - 1]) != c.rootOf(published[n - 2]) then 1 else 0;
      RootChanges(c, published[..n - 1]) + changed
  }

  /** Leaves gained in the publications that changed the root. */
  function VisibleGrowth(c: Codec, published: seq<set<Leaf>>): int {
    var n := |published|;
    if n < 2 then 0
    else
      var gained :=
        if c.rootOf(published[n - 1]) != c.rootOf(published[n - 2])
        then |published[n - 1]| - |published[n - 2]| else 0;
      VisibleGrowth(c, published[..n - 1]) + gained
  }

  /** The invariant of every replica state: each accumulator contains the one before it, and the counters are exact. */
  ghost predicate Counted(c: Codec, r: Replica) {
    && r.published != [] && r.published[|r.published| - 1] == r.leaves
    && (forall i, j :: 0 <= i < j < |r.published| ==> r.published[i] <= r.published[j])
    && r.stats.statesMerged == RootChanges(c, r.published)
    && r.stats.leavesLearned == VisibleGrowth(c, r.published)
  }

  lemma MergeCounted(c: Codec, ceiling: nat, r: Replica, state: bytes)
    requires Counted(c, r)
    ensures Counted(c, Merge(c, ceiling, r, state))
    ensures r.published <= Merge(c, ceiling, r, state).published
  {
    var merged := Join(c, ceiling, r.leaves, state);
    if merged.Some? {
      SubsetCardinality(r.leaves, merged.value);
      var after := Merge(c, ceiling, r, state);
      assert after.published[..|r.published|] == r.published;
    }
  }

  lemma {:induction false} MergeAllCounted(c: Codec, ceiling: nat, r: Replica, states: seq<bytes>)
    requires Counted(c, r)
    ensures Counted(c, MergeAll(c, ceiling, r, states))
    ensures r.published <= MergeAll(c, ceiling, r, states).published
    decreases |states|
  {
    if states != [] {
      MergeCounted(c, ceiling, r, states[0]);
      MergeAllCounted(c, ceiling, Merge(c, ceiling, r, states[0]), states[1..]);
    }
  }

  /** A contact is a run of merges, with at most a failure counted at its end. */
  lemma ContactShape(c: Codec, ceiling: nat, r: Replica, h: Health, k: Contact)
    ensures var after := ContactPeer(c, ceiling, r, h, k);
            var a, b := AtCompare(c, ceiling, r, k), BeforeMerge(c, ceiling, r, k);
            match after.outcome
            case Skipped => after.replica == r
            case RootFailed => after.replica == CountFailure(a)
            case RootMatched => after.replica == a
            case ExchangeFailed => after.replica == CountFailure(b)
            case StateRefused => after.replica == b || (k.exchange.ExchangeBody? && after.replica == Merge(c, ceiling, b, k.exchange.body))
            case Exchanged => k.exchange.ExchangeBody? && after.replica == Merge(c, ceiling, b, k.exchange.body)
  {
  }

  ghost predicate Extends(c: Codec, r: Replica, after: Replica) {
    Counted(c, after) && r.published <= after.published
  }

  lemma BeforeMergeCounted(c: Codec, ceiling: nat, r: Replica, k: Contact)
    requires Counted(c, r)
    ensures Extends(c, r, AtCompare(c, ceiling, r, k))
    ensures Extends(c, r, BeforeMerge(c, ceiling, r, k))
  {
    var a := AtCompare(c, ceiling, r, k);
    MergeAllCounted(c, ceiling, r, k.duringFetch);
    var e := MergeAll(c, ceiling, a, k.duringEncode);
    MergeAllCounted(c, ceiling, a, k.duringEncode);
    MergeAllCounted(c, ceiling, e, k.duringExchange);
  }

  lemma FailureCounted(c: Codec, r: Replica)
    requires Counted(c, r)
    ensures Counted(c, CountFailure(r)) && CountFailure(r).published == r.published
  {
  }

  lemma ContactCounted(c: Codec, ceiling: nat, r: Replica, h: Health, k: Contact)
    requires Counted(c, r)
    ensures Counted(c, ContactPeer(c, ceiling, r, h, k).replica)
    ensures r.published <= ContactPeer(c, ceiling, r, h, k).replica.published
  {
    hide ContactPeer, Merge, AtCompare, BeforeMerge, Counted, CountFailure;
    ContactShape(c, ceiling, r, h, k);
    BeforeMergeCounted(c, ceiling, r, k);
    FailureCounted(c, AtCompare(c, ceiling, r, k));
    FailureCounted(c, BeforeMerge(c, ceiling, r, k));
    if k.exchange.ExchangeBody? {
      MergeCounted(c, ceiling, BeforeMerge(c, ceiling, r, k), k.exchange.body);
    }
  }

  lemma {:induction false} PassCounted(c: Codec, ceiling: nat, r: Replica, health: seq<Health>, script: seq<Contact>, n: nat)
    requires Counted(c, r) && n <= |health| == |script|
    ensures Counted(c, Pass(c, ceiling, r, health, script, n).replica)
    ensures r.published <= Pass(c, ceiling, r, health, script, n).replica.published
    decreases n
  {
    if n > 0 {
      PassCounted(c, ceiling, r, health, script, n - 1);
      var p := Pass(c, ceiling, r, health, script, n - 1);
      ContactCounted(c, ceiling, p.replica, p.health[n - 1], script[n - 1]);
    }
  }

  datatype Event = InboundState(state: bytes) | GossipRound(script: seq<Contact>)
  datatype Daemon = Daemon(replica: Replica, health: seq<Health>)

  predicate WellScripted(peers: nat, events: seq<Event>) {
    forall i :: 0 <= i < |events| && events[i].GossipRound? ==> |events[i].script| == peers
  }

  /** Any history of a daemon: rounds and inbound merges in any order. */
  function History(c: Codec, ceiling: nat, d: Daemon, events: seq<Event>): Daemon
    requires WellScripted(|d.health|, events)
    decreases |events|
  {
    if events == [] then d
    else
      var next := match events[0]
        case InboundState(s) => Daemon(Merge(c, ceiling, d.replica, s), d.health)
        case GossipRound(script) =>
          Daemon(Round(c, ceiling, d.replica, d.health, script),
                 RoundPass(c, ceiling, d.replica, d.health, script).health);
      History(c, ceiling, next, events[1..])
  }

  lemma {:induction false} HistoryCounted(c: Codec, ceiling: nat, d: Daemon, events: seq<Event>)
    requires Counted(c, d.replica) && WellScripted(|d.health|, events)
    ensures Counted(c, History(c, ceiling, d, events).replica)
    ensures d.replica.published <= History(c, ceiling, d, events).replica.published
    decreases |events|
  {
    if events != [] {
      match events[0] {
        case InboundState(s) =>
          MergeCounted(c, ceiling, d.replica, s);
          HistoryCounted(c, ceiling, Daemon(Merge(c, ceiling, d.replica, s), d.health), events[1..]);
        case GossipRound(script) =>
          PassCounted(c, ceiling, StartRound(d.replica), d.health, script, |script|);
          HistoryCounted(c, ceiling,
            Daemon(Round(c, ceiling, d.replica, d.health, script),
                   RoundPass(c, ceiling, d.replica, d.health, script).health), events[1..]);
      }
    }
  }

  lemma {:induction false} GrowthTelescopes(c: Codec, published: seq<set<Leaf>>, universe: set<Leaf>)
    requires published != []
    requires forall i, j :: 0 <= i < j < |published| ==> published[i] <= published[j]
    requires published[|published| - 1] <= universe
    requires CollisionFree(c, universe)
    ensures VisibleGrowth(c, published) == |published[|published| - 1]| - |published[0]|
    decreases |published|
  {
    var n := |published|;
    if n >= 2 {
      GrowthTelescopes(c, published[..n - 1], universe);
    }
  }

  /**
   Over every history from a fresh daemon: `states_merged` is the number of root changes, and,
   unless two leaf sets it held share a root, the leaf count is the initial count plus
   `leaves_learned`.
   */
  lemma CountersConserveLeaves(c: Codec, ceiling: nat, leaves: set<Leaf>, health: seq<Health>, events: seq<Event>)
    requires WellScripted(|health|, events)
    ensures var r := History(c, ceiling, Daemon(Fresh(leaves), health), events).replica;
            && leaves <= r.leaves
            && [leaves] <= r.published
            && r.stats.statesMerged == RootChanges(c, r.published)
            && (CollisionFree(c, r.leaves) ==> |r.leaves| == |leaves| + r.stats.leavesLearned)
  {
    var d := Daemon(Fresh(leaves), health);
    var r := History(c, ceiling, d, events).replica;
    assert Counted(c, d.replica);
    HistoryCounted(c, ceiling, d, events);
    assert r.published[0] == leaves;
    if |r.published| > 1 { assert r.published[0] <= r.published[|r.published| - 1]; }
    if CollisionFree(c, r.leaves) { GrowthTelescopes(c, r.published, r.leaves); }
  }

  // -------------------------------------------------- converged rounds

  /** The state in which peer `i` of a round is contacted. */
  function Before(c: Codec, ceiling: nat, r: Replica, health: seq<Health>, script: seq<Contact>, i: nat): Replica
    requires i < |health| == |script|
  {
    Pass(c, ceiling, StartRound(r), health, script, i).replica
  }

  lemma {:induction false} PassShape(c: Codec, ceiling: nat, r: Replica, health: seq<Health>, script: seq<Contact>, n: nat, i: nat)
    requires n <= |health| == |script|
    requires i < |health|
    ensures var p := Pass(c, ceiling, r, health, script, n);
            && (i >= n ==> p.health[i] == health[i])
            && (i < n ==>
                  var at := Pass(c, ceiling, r, health, script, i).replica;
                  p.outcomes[i] == ContactPeer(c, ceiling, at, health[i], script[i]).outcome)
    decreases n
  {
    if n > 0 {
      PassShape(c, ceiling, r, health, script, n - 1, i);
    }
  }

  lemma {:induction false} MergeAllKeepsRoundCounters(c: Codec, ceiling: nat, r: Replica, states: seq<bytes>)
    ensures var s := MergeAll(c, ceiling, r, states).stats;
            s.roundsConverged == r.stats.roundsConverged && s.peerFailures == r.stats.peerFailures
    decreases |states|
  {
    if states != [] { MergeAllKeepsRoundCounters(c, ceiling, Merge(c, ceiling, r, states[0]), states[1..]); }
  }

  predicate Failure(o: Outcome) { o.RootFailed? || o.ExchangeFailed? }

  function Failures(outcomes: seq<Outcome>): nat {
    if outcomes == [] then 0
    else Failures(outcomes[..|outcomes| - 1]) + if Failure(outcomes[|outcomes| - 1]) then 1 else 0
  }

  ghost predicate SameRoundCounters(r: Replica, after: Replica, failed: nat) {
    && after.stats.roundsConverged == r.stats.roundsConverged
    && after.stats.peerFailures == r.stats.peerFailures + failed
  }

  lemma ContactFailures(c: Codec, ceiling: nat, r: Replica, h: Health, k: Contact)
    ensures var res := ContactPeer(c, ceiling, r, h, k);
            SameRoundCounters(r, res.replica, if Failure(res.outcome) then 1 else 0)
  {
    var a := AtCompare(c, ceiling, r, k);
    MergeAllKeepsRoundCounters(c, ceiling, r, k.duringFetch);
    MergeAllKeepsRoundCounters(c, ceiling, a, k.duringEncode);
    MergeAllKeepsRoundCounters(c, ceiling, MergeAll(c, ceiling, a, k.duringEncode), k.duringExchange);
    ContactShape(c, ceiling, r, h, k);
  }

  lemma {:induction false} PassFailures(c: Codec, ceiling: nat, r: Replica, health: seq<Health>, script: seq<Contact>, n: nat)
    requires n <= |health| == |script|
    ensures var p := Pass(c, ceiling, r, health, script, n);
            SameRoundCounters(r, p.replica, Failures(p.outcomes))
    decreases n
  {
    if n > 0 {
      PassFailures(c, ceiling, r, health, script, n - 1);
      var p := Pass(c, ceiling, r, health, script, n - 1);
      ContactFailures(c, ceiling, p.replica, p.health[n - 1], script[n - 1]);
      assert Pass(c, ceiling, r, health, script, n).outcomes[..n - 1] == p.outcomes;
    }
  }

  lemma {:induction false} FailuresZero(outcomes: seq<Outcome>)
    ensures Failures(outcomes) == 0 <==> forall i :: 0 <= i < |outcomes| ==> !Failure(outcomes[i])
  {
    if outcomes != [] {
      var n := |outcomes|;
      FailuresZero(outcomes[..n - 1]);
      assert outcomes == outcomes[..n - 1] + [outcomes[n - 1]];
    }
  }

  /** A peer was left alone, could not be asked for its root, or returned the root held when it was compared. */
  predicate PeerQuiet(c: Codec, ceiling: nat, r: Replica, h: Health, k: Contact) {
    h.ShouldSkip() || k.root.RootError? || RootAgrees(c, ceiling, r, k)
  }

  ghost predicate AllPeersQuiet(c: Codec, ceiling: nat, r: Replica, health: seq<Health>, script: seq<Contact>)
    requires |health| == |script|
  {
    forall i :: 0 <= i < |script| ==>
      PeerQuiet(c, ceiling, Before(c, ceiling, r, health, script, i), health[i], script[i])
  }

  /** Every peer was asked and answered with the root this replica held at that moment. */
  ghost predicate AllPeersAgree(c: Codec, ceiling: nat, r: Replica, health: seq<Health>, script: seq<Contact>)
    requires |health| == |script|
  {
    forall i :: 0 <= i < |script| ==>
      !health[i].ShouldSkip() && RootAgrees(c, ceiling, Before(c, ceiling, r, health, script, i), script[i])
  }

  /** `rounds_converged` rises exactly when there are peers and each of them was quiet. */
  lemma ConvergedIff(c: Codec, ceiling: nat, r: Replica, health: seq<Health>, script: seq<Contact>)
    requires |health| == |script|
    ensures var after := Round(c, ceiling, r, health, script);
            && (after.stats.roundsConverged == r.stats.roundsConverged + 1
                <==> script != [] && AllPeersQuiet(c, ceiling, r, health, script))
            && (after.stats.roundsConverged == r.stats.roundsConverged
                <==> !(script != [] && AllPeersQuiet(c, ceiling, r, health, script)))
  {
    var n := |script|;
    var p := RoundPass(c, ceiling, r, health, script);
    PassFailures(c, ceiling, StartRound(r), health, script, n);
    forall i | 0 <= i < n
      ensures Quiet(p.outcomes[i]) <==>
              PeerQuiet(c, ceiling, Before(c, ceiling, r, health, script, i), health[i], script[i])
    {
      PassShape(c, ceiling, StartRound(r), health, script, n, i);
    }
  }

  /** The documented sign of agreement: `rounds_converged` rises while `peer_failures` stays flat. */
  predicate LooksConverged(before: Replica, after: Replica) {
    && after.stats.roundsConverged == before.stats.roundsConverged + 1
    && after.stats.peerFailures == before.stats.peerFailures
  }

  ghost predicate NoneBackedOff(health: seq<Health>) {
    forall i :: 0 <= i < |health| ==> !health[i].ShouldSkip()
  }

  lemma RootErrorFails(c: Codec, ceiling: nat, r: Replica, h: Health, k: Contact)
    ensures !h.ShouldSkip() && k.root.RootError? ==> Failure(ContactPeer(c, ceiling, r, h, k).outcome)
  {
  }

  /**
   The documented reading is right exactly in the rounds that start with no peer backed off.
   The condition is on the health table before the round.
   */
  lemma ReadingIsRightIffNoneBackedOff(c: Codec, ceiling: nat, r: Replica, health: seq<Health>, script: seq<Contact>)
    requires |health| == |script|
    requires LooksConverged(r, Round(c, ceiling, r, health, script))
    ensures AllPeersAgree(c, ceiling, r, health, script) <==> NoneBackedOff(health)
  {
    hide ContactPeer, Pass, RootAgrees;
    var n := |script|;
    ConvergedIff(c, ceiling, r, health, script);
    PassFailures(c, ceiling, StartRound(r), health, script, n);
    var p := RoundPass(c, ceiling, r, health, script);
    FailuresZero(p.outcomes);
    forall i | 0 <= i < n
      ensures !health[i].ShouldSkip() ==>
                RootAgrees(c, ceiling, Before(c, ceiling, r, health, script, i), script[i])
    {
      PassShape(c, ceiling, StartRound(r), health, script, n, i);
      RootErrorFails(c, ceiling, Before(c, ceiling, r, health, script, i), health[i], script[i]);
      assert !Failure(p.outcomes[i]);
    }
  }

  /** A mesh whose only peer is unreachable and backed off looks converged while nobody agrees. */
  lemma BackedOffPeerLooksConverged(c: Codec, ceiling: nat, leaves: set<Leaf>)
    ensures var health := [Health(0, 0).Failed()];
            var script := [Contact([], RootError, [], [], ExchangeError)];
            && LooksConverged(Fresh(leaves), Round(c, ceiling, Fresh(leaves), health, script))
            && !AllPeersAgree(c, ceiling, Fresh(leaves), health, script)
  {
  }
}
