/**
 The anti-entropy daemon of one replica (aegis/consensus/gossip.py).

 The accumulator is the slice the daemon uses: a finite set of leaves whose join is union, a
 root text, and a wire form. The three functions are a parameter of the model; nothing is
 assumed of the root, so a statement that needs distinct roots says which leaf sets must not
 collide.
 */
module Gossip {
  import opened Common

  type Leaf = string

  datatype Codec = Codec(
    rootOf: set<Leaf> -> string,
    encode: set<Leaf> -> bytes,
    decode: bytes -> Option<set<Leaf>>)

  /** The wire form loses nothing. */
  ghost predicate Lawful(c: Codec) {
    forall leaves: set<Leaf> {:trigger c.encode(leaves)} :: c.decode(c.encode(leaves)) == Some(leaves)
  }

  /** No two different leaf sets drawn from `universe` share a root. */
  ghost predicate CollisionFree(c: Codec, universe: set<Leaf>) {
    forall a: set<Leaf>, b: set<Leaf> {:trigger c.rootOf(a), c.rootOf(b)} ::
      a <= universe && b <= universe && c.rootOf(a) == c.rootOf(b) ==> a == b
  }

  const ROOT_HEX_LENGTH := 64

  predicate IsRoot(text: string) {
    |text| == ROOT_HEX_LENGTH && forall i :: 0 <= i < |text| ==> text[i] in "0123456789abcdef"
  }

  // ---------------------------------------------------------------- backoff

  const BACKOFF_CAP := 6
  const MAX_SKIP := 64

  lemma {:induction false} Pow2Monotone(a: nat, b: nat)
    requires a <= b
    ensures Pow2(a) <= Pow2(b)
  {
    if a < b { Pow2Monotone(a, b - 1); }
  }

  function Min(a: nat, b: nat): nat { if a <= b then a else b }

  datatype Health = Health(failures: nat, skip: nat) {
    function Succeeded(): Health { Health(0, 0) }

    function Failed(): Health {
      Health(failures + 1, Min(Pow2(failures + 1), Pow2(BACKOFF_CAP)))
    }

    predicate ShouldSkip() { skip > 0 }

    function Skipped(): Health
      requires ShouldSkip()
    {
      this.(skip := skip - 1)
    }
  }

  /** One failure schedules between 2 and 64 skipped rounds, doubling until the cap is reached. */
  lemma BackoffBounds(h: Health)
    ensures 2 <= h.Failed().skip <= MAX_SKIP
    ensures h.failures < BACKOFF_CAP ==> h.Failed().skip == Pow2(h.failures + 1)
    ensures h.failures >= BACKOFF_CAP - 1 ==> h.Failed().skip == MAX_SKIP
    ensures h.Failed().skip <= h.Failed().Failed().skip
  {
    assert Pow2(BACKOFF_CAP) == MAX_SKIP by {
      assert Pow2(1) == 2; assert Pow2(2) == 4; assert Pow2(3) == 8;
      assert Pow2(4) == 16; assert Pow2(5) == 32; assert Pow2(6) == 64;
    }
    Pow2Monotone(1, h.failures + 1);
    Pow2Monotone(h.failures + 1, h.failures + 2);
    if h.failures < BACKOFF_CAP { Pow2Monotone(h.failures + 1, BACKOFF_CAP); }
    if h.failures >= BACKOFF_CAP - 1 { Pow2Monotone(BACKOFF_CAP, h.failures + 1); }
  }

  // ---------------------------------------------------------------- merging

  datatype Stats = Stats(
    roundsStarted: nat, roundsConverged: nat, statesMerged: nat,
    peerFailures: nat, statesRejected: nat, leavesLearned: nat)

  const ZERO_STATS := Stats(0, 0, 0, 0, 0, 0)

  /**
   What a replica publishes: the current leaves, the counters, and every accumulator value it
   has published so far, oldest first (the last one is the current one).
   */
  datatype Replica = Replica(leaves: set<Leaf>, stats: Stats, published: seq<set<Leaf>>)

  function Fresh(leaves: set<Leaf>): Replica { Replica(leaves, ZERO_STATS, [leaves]) }

  lemma SubsetCardinality(a: set<Leaf>, b: set<Leaf>)
    requires a <= b
    ensures |a| <= |b|
    ensures |a| == |b| ==> a == b
  {
    assert b == a + (b - a) && a * (b - a) == {};
  }

  /** The join with an encoded peer state, or None when the state is refused. */
  function Join(c: Codec, ceiling: nat, leaves: set<Leaf>, state: bytes): Option<set<Leaf>> {
    if |state| > ceiling then None
    else match c.decode(state)
      case None => None
      case Some(theirs) => Some(leaves + theirs)
  }

  /** The replica after `merge_state`; a refused state only moves the rejection counter. */
  function Merge(c: Codec, ceiling: nat, r: Replica, state: bytes): Replica {
    match Join(c, ceiling, r.leaves, state)
    case None => r.(stats := r.stats.(statesRejected := r.stats.statesRejected + 1))
    case Some(merged) =>
      var learned := if |merged| >= |r.leaves| then |merged| - |r.leaves| else 0;
      Replica(
        merged,
        if c.rootOf(merged) == c.rootOf(r.leaves) then r.stats
        else r.stats.(statesMerged := r.stats.statesMerged + 1,
                      leavesLearned := r.stats.leavesLearned + learned),
        r.published + [merged])
  }

  function MergeAll(c: Codec, ceiling: nat, r: Replica, states: seq<bytes>): Replica
    decreases |states|
  {
    if states == [] then r else MergeAll(c, ceiling, Merge(c, ceiling, r, states[0]), states[1..])
  }

  // ------------------------------------------------------------- one contact

  datatype RootReply = RootError | RootText(text: string)
  datatype ExchangeReply = ExchangeError | ExchangeRefused | ExchangeBody(body: bytes)

  /**
   What the environment does while one peer is contacted: the two replies, and the inbound
   states that other tasks merge at each point where the round is suspended.
   */
  datatype Contact = Contact(
    duringFetch: seq<bytes>, root: RootReply,
    duringEncode: seq<bytes>, duringExchange: seq<bytes>, exchange: ExchangeReply)

  datatype Outcome = Skipped | RootFailed | RootMatched | ExchangeFailed | StateRefused | Exchanged

  predicate Quiet(o: Outcome) { o.Skipped? || o.RootFailed? || o.RootMatched? }

  datatype ContactResult = ContactResult(replica: Replica, health: Health, outcome: Outcome)

  function CountFailure(r: Replica): Replica {
    r.(stats := r.stats.(peerFailures := r.stats.peerFailures + 1))
  }

  function AtCompare(c: Codec, ceiling: nat, r: Replica, k: Contact): Replica {
    MergeAll(c, ceiling, r, k.duringFetch)
  }

  function BeforeMerge(c: Codec, ceiling: nat, r: Replica, k: Contact): Replica {
    MergeAll(c, ceiling, MergeAll(c, ceiling, AtCompare(c, ceiling, r, k), k.duringEncode), k.duringExchange)
  }

  predicate RootAgrees(c: Codec, ceiling: nat, r: Replica, k: Contact) {
    k.root.RootText? && IsRoot(k.root.text) && k.root.text == c.rootOf(AtCompare(c, ceiling, r, k).leaves)
  }

  function ContactPeer(c: Codec, ceiling: nat, r: Replica, h: Health, k: Contact): ContactResult {
    if h.ShouldSkip() then ContactResult(r, h.Skipped(), Skipped)
    else if k.root.RootError? then
      ContactResult(CountFailure(AtCompare(c, ceiling, r, k)), h.Failed(), RootFailed)
    else if RootAgrees(c, ceiling, r, k) then
      ContactResult(AtCompare(c, ceiling, r, k), h.Succeeded(), RootMatched)
    else
      var before := BeforeMerge(c, ceiling, r, k);
      match k.exchange
      case ExchangeError => ContactResult(CountFailure(before), h.Failed(), ExchangeFailed)
      case ExchangeRefused => ContactResult(before, h, StateRefused)
      case ExchangeBody(body) =>
        if Join(c, ceiling, before.leaves, body).None?
        then ContactResult(Merge(c, ceiling, before, body), h, StateRefused)
        else ContactResult(Merge(c, ceiling, before, body), h.Succeeded(), Exchanged)
  }

  // --------------------------------------------------------------- one round

  datatype Progress = Progress(replica: Replica, health: seq<Health>, outcomes: seq<Outcome>)

  /** The pass over the first `n` peers of a round. */
  function Pass(c: Codec, ceiling: nat, r: Replica, health: seq<Health>, script: seq<Contact>, n: nat): (p: Progress)
    requires n <= |health| == |script|
    ensures |p.health| == |health| && |p.outcomes| == n
    decreases n
  {
    if n == 0 then Progress(r, health, [])
    else
      var p := Pass(c, ceiling, r, health, script, n - 1);
      var res := ContactPeer(c, ceiling, p.replica, p.health[n - 1], script[n - 1]);
      Progress(res.replica, p.health[n - 1 := res.health], p.outcomes + [res.outcome])
  }

  predicate AllQuiet(outcomes: seq<Outcome>) {
    forall i :: 0 <= i < |outcomes| ==> Quiet(outcomes[i])
  }

  lemma AllQuietAppend(outcomes: seq<Outcome>, o: Outcome)
    ensures AllQuiet(outcomes + [o]) <==> AllQuiet(outcomes) && Quiet(o)
  {
    var all := outcomes + [o];
    assert all[..|outcomes|] == outcomes && all[|outcomes|] == o;
    if AllQuiet(all) {
      forall i | 0 <= i < |outcomes| ensures Quiet(outcomes[i]) { assert all[i] == outcomes[i]; }
    }
  }

  function StartRound(r: Replica): Replica {
    r.(stats := r.stats.(roundsStarted := r.stats.roundsStarted + 1))
  }

  function CloseRound(r: Replica, outcomes: seq<Outcome>): Replica {
    if AllQuiet(outcomes) && outcomes != []
    then r.(stats := r.stats.(roundsConverged := r.stats.roundsConverged + 1))
    else r
  }

  function RoundPass(c: Codec, ceiling: nat, r: Replica, health: seq<Health>, script: seq<Contact>): Progress
    requires |health| == |script|
  {
    Pass(c, ceiling, StartRound(r), health, script, |script|)
  }

  function Round(c: Codec, ceiling: nat, r: Replica, health: seq<Health>, script: seq<Contact>): Replica
    requires |health| == |script|
  {
    var p := RoundPass(c, ceiling, r, health, script);
    CloseRound(p.replica, p.outcomes)
  }

  // ---------------------------------------------------------------- the class

  class GossipDaemon {
    const codec: Codec
    const ceiling: nat
    const peers: seq<string>
    var leaves: set<Leaf>
    var stats: Stats
    var health: seq<Health>
    ghost var published: seq<set<Leaf>>

    ghost predicate Valid()
      reads this
    {
      |health| == |peers|
    }

    ghost function View(): Replica
      reads this
    {
      Replica(leaves, stats, published)
    }

    constructor (codec: Codec, ceiling: nat, peers: seq<string>, leaves: set<Leaf>)
      ensures Valid() && this.codec == codec && this.ceiling == ceiling && this.peers == peers
      ensures View() == Fresh(leaves) && this.leaves == leaves && stats == Stats(0, 0, 0, 0, 0, 0)
      ensures health == seq(|peers|, _ => Health(0, 0))
    {
      this.codec := codec;
      this.ceiling := ceiling;
      this.peers := peers;
      this.leaves := leaves;
      this.stats := ZERO_STATS;
      this.health := seq(|peers|, _ => Health(0, 0));
      this.published := [leaves];
    }

    /** `merge_state`: None is `PeerStateRejectedError`, otherwise whether the root changed. */
    method MergeState(state: bytes) returns (changed: Option<bool>)
      requires Valid()
      modifies `leaves, `stats, `published
      ensures Valid() && View() == Merge(codec, ceiling, old(View()), state)
      ensures changed.None? <==> |state| > ceiling || codec.decode(state).None?
      ensures changed.None? ==>
                && leaves == old(leaves) && published == old(published)
                && stats == old(stats).(statesRejected := old(stats).statesRejected + 1)
      ensures changed.Some? ==>
                && leaves == old(leaves) + codec.decode(state).value
                && (changed.value <==> codec.rootOf(leaves) != codec.rootOf(old(leaves)))
                && |leaves| >= |old(leaves)|
                && stats == (if !changed.value then old(stats)
                             else old(stats).(statesMerged := old(stats).statesMerged + 1,
                                              leavesLearned := old(stats).leavesLearned + |leaves| - |old(leaves)|))
    {
      if |state| > ceiling {
        stats := stats.(statesRejected := stats.statesRejected + 1);
        return None;
      }
      var beforeRoot, beforeLeaves := codec.rootOf(leaves), |leaves|;
      var decoded := codec.decode(state);
      if decoded.None? {
        stats := stats.(statesRejected := stats.statesRejected + 1);
        return None;
      }
      SubsetCardinality(leaves, leaves + decoded.value);
      leaves := leaves + decoded.value;
      published := published + [leaves];
      var learned := |leaves| - beforeLeaves;
      var moved := codec.rootOf(leaves) != beforeRoot;
      if moved {
        stats := stats.(statesMerged := stats.statesMerged + 1,
                        leavesLearned := stats.leavesLearned + if learned >= 0 then learned else 0);
      }
      return Some(moved);
    }

    /** Inbound states merged by other tasks while the round is suspended. */
    method AbsorbInbound(states: seq<bytes>)
      requires Valid()
      modifies `leaves, `stats, `published
      ensures Valid() && View() == MergeAll(codec, ceiling, old(View()), states)
    {
      var i := 0;
      while i < |states|
        invariant 0 <= i <= |states| && Valid()
        invariant MergeAll(codec, ceiling, View(), states[i..]) == MergeAll(codec, ceiling, old(View()), states)
      {
        assert states[i..][0] == states[i] && states[i..][1..] == states[i + 1..];
        var _ := MergeState(states[i]);
        i := i + 1;
      }
    }

    /** The inbound handler: answers with the state held before the merge, or refuses. */
    method Exchange(declared: Option<nat>, chunks: seq<bytes>) returns (status: nat, reply: bytes)
      requires Valid()
      modifies `leaves, `stats, `published
      ensures Valid()
      ensures status in {200, 413, 422}
      ensures status == 200 ==>
                reply == codec.encode(old(leaves)) && codec.decode(Concat(chunks)).Some? &&
                leaves == old(leaves) + codec.decode(Concat(chunks)).value
      ensures status == 413 <==> (declared.Some? && declared.value > ceiling) || |Concat(chunks)| > ceiling
      ensures status == 413 ==> View() == old(View())
      ensures status != 413 ==> View() == Merge(codec, ceiling, old(View()), Concat(chunks))
      ensures status == 422 <==> status != 413 && codec.decode(Concat(chunks)).None?
      ensures status == 422 ==> leaves == old(leaves)
    {
      reply := [];
      if declared.Some? && declared.value > ceiling {
        return 413, [];
      }
      var body: bytes := [];
      var i := 0;
      while i < |chunks|
        invariant 0 <= i <= |chunks|
        invariant body + Concat(chunks[i..]) == Concat(chunks)
        invariant |body| <= ceiling
      {
        assert chunks[i..][0] == chunks[i] && chunks[i..][1..] == chunks[i + 1..];
        if |body| + |chunks[i]| > ceiling {
          return 413, [];
        }
        body := body + chunks[i];
        i := i + 1;
      }
      assert body == Concat(chunks);
      var ours := codec.encode(leaves);
      var changed := MergeState(body);
      if changed.None? {
        return 422, [];
      }
      return 200, ours;
    }

    /** One iteration of the round: the peer at position `n`. */
    method ContactOne(n: nat, contact: Contact) returns (outcome: Outcome)
      requires Valid() && n < |peers|
      modifies this
      ensures Valid()
      ensures ContactResult(View(), health[n], outcome) ==
              ContactPeer(codec, ceiling, old(View()), old(health[n]), contact)
      ensures health == old(health)[n := health[n]]
    {
      var h := health[n];
      if h.ShouldSkip() {
        health := health[n := h.Skipped()];
        return Skipped;
      }
      AbsorbInbound(contact.duringFetch);
      if contact.root.RootError? {
        health := health[n := h.Failed()];
        stats := stats.(peerFailures := stats.peerFailures + 1);
        return RootFailed;
      }
      if IsRoot(contact.root.text) && contact.root.text == codec.rootOf(leaves) {
        health := health[n := h.Succeeded()];
        return RootMatched;
      }
      AbsorbInbound(contact.duringEncode);
      AbsorbInbound(contact.duringExchange);
      match contact.exchange {
        case ExchangeError =>
          health := health[n := h.Failed()];
          stats := stats.(peerFailures := stats.peerFailures + 1);
          return ExchangeFailed;
        case ExchangeRefused =>
          return StateRefused;
        case ExchangeBody(body) =>
          var changed := MergeState(body);
          if changed.None? {
            return StateRefused;
          }
          health := health[n := h.Succeeded()];
          return Exchanged;
      }
    }

    method RunRound(script: seq<Contact>) returns (result: Stats)
      requires Valid() && |script| == |peers|
      modifies this
      ensures Valid()
      ensures View() == Round(codec, ceiling, old(View()), old(health), script)
      ensures health == RoundPass(codec, ceiling, old(View()), old(health), script).health
      ensures result == stats
    {
      stats := stats.(roundsStarted := stats.roundsStarted + 1);
      var converged := true;
      ghost var start, health0 := View(), health;
      ghost var outcomes: seq<Outcome> := [];
      var n := 0;
      while n < |peers|
        invariant 0 <= n <= |peers| && Valid()
        invariant Progress(View(), health, outcomes) == Pass(codec, ceiling, start, health0, script, n)
        invariant converged <==> AllQuiet(outcomes)
      {
        var outcome := ContactOne(n, script[n]);
        converged := converged && Quiet(outcome);
        AllQuietAppend(outcomes, outcome);
        outcomes := outcomes + [outcome];
        n := n + 1;
      }
      if converged && peers != [] {
        stats := stats.(roundsConverged := stats.roundsConverged + 1);
      }
      return stats;
    }
  }
}
