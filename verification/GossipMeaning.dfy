/**
 What a contact and a round of the gossip daemon do, said in terms of the bodies delivered, the
 digests compared and the number of failures, not of the daemon's own functions.
 */
module GossipMeaning {
  import opened Common
  import opened Hex
  import opened Gossip
  import opened GossipCounters

  // ------------------------------------------------------------------------- roots

  /** The hexadecimal text of a SHA-256 digest. */
  ghost predicate IsDigestText(text: string) { exists d: bytes :: |d| == 32 && ToHex(d) == text }

  lemma RootTextIff(d: bytes)
    ensures IsRoot(ToHex(d)) <==> |d| == 32
  {
    HexRoundTrip(d);
    var s := ToHex(d);
    forall i | 0 <= i < |s| ensures s[i] in "0123456789abcdef" {
      assert IsHex(s[i]);
      InHexDigits(s[i]);
    }
  }

  lemma InHexDigits(c: char)
    ensures IsHex(c) <==> c in "0123456789abcdef"
  {
    var digits := "0123456789abcdef";
    if '0' <= c <= '9' { assert digits[c as int - '0' as int] == c; }
    if 'a' <= c <= 'f' { assert digits[c as int - 'a' as int + 10] == c; }
  }

  /** What passes for a root is exactly the text of some 32-byte digest. */
  lemma IsRootIff(text: string)
    ensures IsRoot(text) <==> IsDigestText(text)
  {
    if IsRoot(text) {
      forall i | 0 <= i < |text| ensures IsHex(text[i]) { InHexDigits(text[i]); }
      HexTextRoundTrip(text);
      assert |FromHex(text)| == 32;
    }
    if IsDigestText(text) {
      var d :| |d| == 32 && ToHex(d) == text;
      RootTextIff(d);
    }
  }

  // ----------------------------------------------------------------------- backoff

  /** The health after `k` of its skipped rounds. */
  function SkipTimes(h: Health, k: nat): Health
    requires k <= h.skip
    decreases h.skip
  {
    if k == 0 then h else SkipTimes(h.Skipped(), k - 1)
  }

  /** `n` failures, each after the skipped rounds of the one before. */
  function FailTimes(h: Health, n: nat): Health {
    if n == 0 then h
    else
      var before := FailTimes(h, n - 1);
      SkipTimes(before, before.skip).Failed()
  }

  lemma {:induction false} SkippingDrains(h: Health, k: nat)
    requires k <= h.skip
    ensures SkipTimes(h, k) == Health(h.failures, h.skip - k)
    decreases h.skip
  {
    if k > 0 { SkippingDrains(h.Skipped(), k - 1); }
  }

  /** The n-th failure in a row after a success is followed by exactly min(2^n, 64) skipped rounds. */
  lemma {:induction false} BackoffSchedule(h: Health, n: nat)
    requires n > 0
    ensures FailTimes(h.Succeeded(), n) == Health(n, if n < 6 then Pow2(n) else 64)
    ensures !h.Succeeded().ShouldSkip()
  {
    hide Pow2;
    var before := FailTimes(h.Succeeded(), n - 1);
    if n > 1 { BackoffSchedule(h, n - 1); }
    SkippingDrains(before, before.skip);
    BackoffBounds(Health(n - 1, 0));
    assert SkipTimes(before, before.skip) == Health(n - 1, 0);
  }

  // ----------------------------------------------------------------------- merging

  predicate Acceptable(c: Codec, ceiling: nat, state: bytes) { |state| <= ceiling && c.decode(state).Some? }

  /** The leaves of the acceptable states. */
  function Learned(c: Codec, ceiling: nat, states: seq<bytes>): set<Leaf> {
    set s, x | s in states && Acceptable(c, ceiling, s) && x in c.decode(s).value :: x
  }

  function Rejections(c: Codec, ceiling: nat, states: seq<bytes>): nat {
    if states == [] then 0
    else (if Acceptable(c, ceiling, states[0]) then 0 else 1) + Rejections(c, ceiling, states[1..])
  }

  /** States merged one after the other add the leaves of the acceptable ones and count the others. */
  lemma {:induction false} MergeAllMeaning(c: Codec, ceiling: nat, r: Replica, states: seq<bytes>)
    ensures var after := MergeAll(c, ceiling, r, states);
            && after.leaves == r.leaves + Learned(c, ceiling, states)
            && after.stats.statesRejected == r.stats.statesRejected + Rejections(c, ceiling, states)
            && after.stats.roundsStarted == r.stats.roundsStarted
    decreases |states|
  {
    if states != [] {
      assert states == [states[0]] + states[1..];
      var next := Merge(c, ceiling, r, states[0]);
      MergeAllMeaning(c, ceiling, next, states[1..]);
      LearnedStep(c, ceiling, states);
    }
  }

  lemma LearnedStep(c: Codec, ceiling: nat, states: seq<bytes>)
    requires states != []
    ensures Learned(c, ceiling, states) ==
            (if Acceptable(c, ceiling, states[0]) then c.decode(states[0]).value else {}) + Learned(c, ceiling, states[1..])
  {
    assert states == [states[0]] + states[1..];
  }

  lemma LearnedAppend(c: Codec, ceiling: nat, a: seq<bytes>, b: seq<bytes>)
    ensures Learned(c, ceiling, a + b) == Learned(c, ceiling, a) + Learned(c, ceiling, b)
  {
  }

  lemma {:induction false} RejectionsAppend(c: Codec, ceiling: nat, a: seq<bytes>, b: seq<bytes>)
    ensures Rejections(c, ceiling, a + b) == Rejections(c, ceiling, a) + Rejections(c, ceiling, b)
  {
    if a == [] {
      assert a + b == b;
    } else {
      assert (a + b)[0] == a[0] && (a + b)[1..] == a[1..] + b;
      RejectionsAppend(c, ceiling, a[1..], b);
    }
  }

  // ------------------------------------------------------------------- one contact

  /** The reply is the digest text of exactly the leaves held when it arrives. */
  ghost predicate Matched(c: Codec, ceiling: nat, r: Replica, k: Contact) {
    && k.root.RootText? && IsDigestText(k.root.text)
    && k.root.text == c.rootOf(r.leaves + Learned(c, ceiling, k.duringFetch))
  }

  /** The bodies handed to `merge_state` during a contact, in order. */
  ghost function Deliveries(c: Codec, ceiling: nat, r: Replica, h: Health, k: Contact): seq<bytes> {
    if h.skip > 0 then []
    else if k.root.RootError? || Matched(c, ceiling, r, k) then k.duringFetch
    else k.duringFetch + (k.duringEncode + (k.duringExchange + if k.exchange.ExchangeBody? then [k.exchange.body] else []))
  }

  ghost function OutcomeOf(c: Codec, ceiling: nat, r: Replica, h: Health, k: Contact): Outcome {
    if h.skip > 0 then Skipped
    else if k.root.RootError? then RootFailed
    else if Matched(c, ceiling, r, k) then RootMatched
    else match k.exchange
      case ExchangeError => ExchangeFailed
      case ExchangeRefused => StateRefused
      case ExchangeBody(body) => if Acceptable(c, ceiling, body) then Exchanged else StateRefused
  }

  /** Backed off after a failure, reset after a success, one round less after a skip, untouched after a refusal. */
  function HealthAfter(h: Health, o: Outcome): Health {
    match o
    case Skipped => Health(h.failures, if h.skip > 0 then h.skip - 1 else 0)
    case RootMatched => Health(0, 0)
    case Exchanged => Health(0, 0)
    case StateRefused => h
    case _ => Health(h.failures + 1, if h.failures < 5 then Pow2(h.failures + 1) else 64)
  }

  lemma ExchangeLeaves(c: Codec, ceiling: nat, r: Replica, k: Contact)
    ensures var before := BeforeMerge(c, ceiling, r, k);
            var bodies := k.duringFetch + (k.duringEncode + k.duringExchange);
            && before.leaves == r.leaves + Learned(c, ceiling, bodies)
            && before.stats.statesRejected == r.stats.statesRejected + Rejections(c, ceiling, bodies)
            && before.stats.roundsStarted == r.stats.roundsStarted
  {
    hide MergeAll, Learned, Rejections;
    var a := AtCompare(c, ceiling, r, k);
    var e := MergeAll(c, ceiling, a, k.duringEncode);
    MergeAllMeaning(c, ceiling, r, k.duringFetch);
    MergeAllMeaning(c, ceiling, a, k.duringEncode);
    MergeAllMeaning(c, ceiling, e, k.duringExchange);
    LearnedAppend(c, ceiling, k.duringEncode, k.duringExchange);
    LearnedAppend(c, ceiling, k.duringFetch, k.duringEncode + k.duringExchange);
    RejectionsAppend(c, ceiling, k.duringEncode, k.duringExchange);
    RejectionsAppend(c, ceiling, k.duringFetch, k.duringEncode + k.duringExchange);
  }

  lemma MatchedIff(c: Codec, ceiling: nat, r: Replica, k: Contact)
    ensures RootAgrees(c, ceiling, r, k) <==> Matched(c, ceiling, r, k)
    ensures var at := AtCompare(c, ceiling, r, k);
            && at.leaves == r.leaves + Learned(c, ceiling, k.duringFetch)
            && at.stats.statesRejected == r.stats.statesRejected + Rejections(c, ceiling, k.duringFetch)
            && at.stats.roundsStarted == r.stats.roundsStarted
  {
    hide IsRoot, IsDigestText, Learned, Rejections;
    MergeAllMeaning(c, ceiling, r, k.duringFetch);
    if k.root.RootText? { IsRootIff(k.root.text); }
  }

  /**
   One contact: its outcome, the peer's health and the leaves held after it, from the replies and
   the bodies delivered alone.
   */
  lemma ContactMeaning(c: Codec, ceiling: nat, r: Replica, h: Health, k: Contact)
    ensures var res := ContactPeer(c, ceiling, r, h, k);
            var bodies := Deliveries(c, ceiling, r, h, k);
            && res.outcome == OutcomeOf(c, ceiling, r, h, k)
            && res.health == HealthAfter(h, res.outcome)
            && res.replica.leaves == r.leaves + Learned(c, ceiling, bodies)
            && res.replica.stats.statesRejected == r.stats.statesRejected + Rejections(c, ceiling, bodies)
            && res.replica.stats.roundsStarted == r.stats.roundsStarted
  {
    hide IsRoot, IsDigestText, Learned, Rejections, RootAgrees, Matched, AtCompare, BeforeMerge, MergeAll;
    MatchedIff(c, ceiling, r, k);
    ExchangeLeaves(c, ceiling, r, k);
    BackoffBounds(h);
    NothingLearned(c, ceiling);
    var before := k.duringFetch + (k.duringEncode + k.duringExchange);
    if k.exchange.ExchangeBody? {
      var body := k.exchange.body;
      assert k.duringFetch + (k.duringEncode + (k.duringExchange + [body])) == before + [body];
      LearnedAppend(c, ceiling, before, [body]);
      RejectionsAppend(c, ceiling, before, [body]);
      OneBody(c, ceiling, body);
    } else {
      assert k.duringFetch + (k.duringEncode + (k.duringExchange + [])) == before;
    }
  }

  lemma NothingLearned(c: Codec, ceiling: nat)
    ensures Learned(c, ceiling, []) == {} && Rejections(c, ceiling, []) == 0
  {
  }

  lemma OneBody(c: Codec, ceiling: nat, body: bytes)
    ensures Learned(c, ceiling, [body]) == if Acceptable(c, ceiling, body) then c.decode(body).value else {}
    ensures Rejections(c, ceiling, [body]) == if Acceptable(c, ceiling, body) then 0 else 1
  {
    LearnedStep(c, ceiling, [body]);
    assert [body][1..] == [];
  }

  // --------------------------------------------------------------------- one round

  lemma {:induction false} PassHealth(c: Codec, ceiling: nat, r: Replica, health: seq<Health>, script: seq<Contact>, n: nat, i: nat)
    requires i < n <= |health| == |script|
    ensures var at := Pass(c, ceiling, r, health, script, i).replica;
            var p := Pass(c, ceiling, r, health, script, n);
            && p.health[i] == ContactPeer(c, ceiling, at, health[i], script[i]).health
            && p.outcomes[i] == ContactPeer(c, ceiling, at, health[i], script[i]).outcome
    decreases n
  {
    PassShape(c, ceiling, r, health, script, n, i);
    if i < n - 1 {
      PassHealth(c, ceiling, r, health, script, n - 1, i);
    } else {
      PassShape(c, ceiling, r, health, script, n - 1, i);
    }
  }

  lemma {:induction false} PassStarts(c: Codec, ceiling: nat, r: Replica, health: seq<Health>, script: seq<Contact>, n: nat)
    requires n <= |health| == |script|
    ensures Pass(c, ceiling, r, health, script, n).replica.stats.roundsStarted == r.stats.roundsStarted
    decreases n
  {
    if n > 0 {
      PassStarts(c, ceiling, r, health, script, n - 1);
      var p := Pass(c, ceiling, r, health, script, n - 1);
      ContactMeaning(c, ceiling, p.replica, p.health[n - 1], script[n - 1]);
    }
  }

  /**
   A round contacts the peers in order, each with the health it had at the start; it is counted as
   started, and as converged exactly when there are peers and each was skipped, failed to give
   its root, or gave the digest of what was held.
   */
  lemma RoundMeaning(c: Codec, ceiling: nat, r: Replica, health: seq<Health>, script: seq<Contact>)
    requires |health| == |script|
    ensures var after := Round(c, ceiling, r, health, script);
            var p := RoundPass(c, ceiling, r, health, script);
            && after.leaves == p.replica.leaves
            && after.stats.roundsStarted == r.stats.roundsStarted + 1
            && after.stats.roundsConverged == r.stats.roundsConverged +
                 (if script != [] && forall i :: 0 <= i < |script| ==> QuietAt(c, ceiling, r, health, script, i) then 1 else 0)
            && (forall i :: 0 <= i < |script| ==>
                  p.health[i] == HealthAfter(health[i], OutcomeOf(c, ceiling, Before(c, ceiling, r, health, script, i), health[i], script[i])))
  {
    hide ContactPeer, OutcomeOf, HealthAfter, Pass, QuietAt;
    var p := RoundPass(c, ceiling, r, health, script);
    PassStarts(c, ceiling, StartRound(r), health, script, |script|);
    ConvergedIff(c, ceiling, r, health, script);
    forall i | 0 <= i < |script|
      ensures p.health[i] == HealthAfter(health[i], OutcomeOf(c, ceiling, Before(c, ceiling, r, health, script, i), health[i], script[i]))
      ensures PeerQuiet(c, ceiling, Before(c, ceiling, r, health, script, i), health[i], script[i]) <==>
              QuietAt(c, ceiling, r, health, script, i)
    {
      PassHealth(c, ceiling, StartRound(r), health, script, |script|, i);
      ContactMeaning(c, ceiling, Before(c, ceiling, r, health, script, i), health[i], script[i]);
      QuietIff(c, ceiling, r, health, script, i);
    }
  }

  ghost predicate QuietAt(c: Codec, ceiling: nat, r: Replica, health: seq<Health>, script: seq<Contact>, i: nat)
    requires i < |health| == |script|
  {
    health[i].skip > 0 || script[i].root.RootError? || Matched(c, ceiling, Before(c, ceiling, r, health, script, i), script[i])
  }

  lemma QuietIff(c: Codec, ceiling: nat, r: Replica, health: seq<Health>, script: seq<Contact>, i: nat)
    requires i < |health| == |script|
    ensures PeerQuiet(c, ceiling, Before(c, ceiling, r, health, script, i), health[i], script[i]) <==>
            QuietAt(c, ceiling, r, health, script, i)
  {
    MatchedIff(c, ceiling, Before(c, ceiling, r, health, script, i), script[i]);
  }

  /** A healthy peer that answers with the digest text of what we hold matches, whatever else was received meanwhile. */
  lemma DigestMatches(c: Codec, ceiling: nat, r: Replica, h: Health, k: Contact, d: bytes)
    requires h.skip == 0 && |d| == 32 && k.root == RootText(ToHex(d))
    requires c.rootOf(r.leaves + Learned(c, ceiling, k.duringFetch)) == ToHex(d)
    ensures var res := ContactPeer(c, ceiling, r, h, k);
            res.outcome == RootMatched && res.health == Health(0, 0) &&
            res.replica.leaves == r.leaves + Learned(c, ceiling, k.duringFetch)
  {
    hide Learned, Rejections, ToHex;
    ContactMeaning(c, ceiling, r, h, k);
    assert IsDigestText(k.root.text);
  }

  /** In an agreeing mesh a round changes no leaf, marks every peer healthy, and counts as converged. */
  lemma AgreeingRound(c: Codec, ceiling: nat, r: Replica, health: seq<Health>, script: seq<Contact>, d: bytes)
    requires |health| == |script| > 0 && |d| == 32 && c.rootOf(r.leaves) == ToHex(d)
    requires forall i :: 0 <= i < |script| ==> health[i].skip == 0 && script[i].root == RootText(ToHex(d)) && script[i].duringFetch == []
    ensures var after := Round(c, ceiling, r, health, script);
            && after.leaves == r.leaves
            && after.stats == r.stats.(roundsStarted := r.stats.roundsStarted + 1, roundsConverged := r.stats.roundsConverged + 1)
            && RoundPass(c, ceiling, r, health, script).health == seq(|health|, _ => Health(0, 0))
  {
    AgreeingPass(c, ceiling, StartRound(r), health, script, d, |script|);
  }

  lemma {:induction false} AgreeingPass(c: Codec, ceiling: nat, r: Replica, health: seq<Health>, script: seq<Contact>, d: bytes, n: nat)
    requires n <= |health| == |script| && |d| == 32 && c.rootOf(r.leaves) == ToHex(d)
    requires forall i :: 0 <= i < |script| ==> health[i].skip == 0 && script[i].root == RootText(ToHex(d)) && script[i].duringFetch == []
    ensures var p := Pass(c, ceiling, r, health, script, n);
            && p.replica == r
            && (forall i :: 0 <= i < n ==> p.health[i] == Health(0, 0) && p.outcomes[i] == RootMatched)
            && (forall i :: n <= i < |health| ==> p.health[i] == health[i])
    decreases n
  {
    if n > 0 {
      hide ToHex, IsRoot;
      AgreeingPass(c, ceiling, r, health, script, d, n - 1);
      RootTextIff(d);
      assert script[n - 1].duringFetch == [] && script[n - 1].root == RootText(ToHex(d));
    }
  }

  // ------------------------------------------------------------------- every history

  ghost function RoundDeliveries(c: Codec, ceiling: nat, r: Replica, health: seq<Health>, script: seq<Contact>, n: nat): seq<bytes>
    requires n <= |health| == |script|
  {
    if n == 0 then []
    else
      var at := Pass(c, ceiling, r, health, script, n - 1).replica;
      RoundDeliveries(c, ceiling, r, health, script, n - 1) + Deliveries(c, ceiling, at, health[n - 1], script[n - 1])
  }

  lemma {:induction false} PassDelivers(c: Codec, ceiling: nat, r: Replica, health: seq<Health>, script: seq<Contact>, n: nat)
    requires n <= |health| == |script|
    ensures var after := Pass(c, ceiling, r, health, script, n).replica;
            var bodies := RoundDeliveries(c, ceiling, r, health, script, n);
            && after.leaves == r.leaves + Learned(c, ceiling, bodies)
            && after.stats.statesRejected == r.stats.statesRejected + Rejections(c, ceiling, bodies)
            && after.stats.roundsStarted == r.stats.roundsStarted
    decreases n
  {
    hide Learned, Rejections, Deliveries, ContactPeer;
    NothingLearned(c, ceiling);
    if n > 0 {
      PassDelivers(c, ceiling, r, health, script, n - 1);
      PassShape(c, ceiling, r, health, script, n - 1, n - 1);
      var at := Pass(c, ceiling, r, health, script, n - 1).replica;
      var more := Deliveries(c, ceiling, at, health[n - 1], script[n - 1]);
      ContactMeaning(c, ceiling, at, health[n - 1], script[n - 1]);
      LearnedAppend(c, ceiling, RoundDeliveries(c, ceiling, r, health, script, n - 1), more);
      RejectionsAppend(c, ceiling, RoundDeliveries(c, ceiling, r, health, script, n - 1), more);
    }
  }

  /** Every body handed to `merge_state` in a history, in order. */
  ghost function AllDeliveries(c: Codec, ceiling: nat, d: Daemon, events: seq<Event>): seq<bytes>
    requires WellScripted(|d.health|, events)
    decreases |events|
  {
    if events == [] then []
    else match events[0]
      case InboundState(s) => [s] + AllDeliveries(c, ceiling, Daemon(Merge(c, ceiling, d.replica, s), d.health), events[1..])
      case GossipRound(script) =>
        RoundDeliveries(c, ceiling, StartRound(d.replica), d.health, script, |script|) +
        AllDeliveries(c, ceiling, Daemon(Round(c, ceiling, d.replica, d.health, script),
                                         RoundPass(c, ceiling, d.replica, d.health, script).health), events[1..])
  }

  function RoundsIn(events: seq<Event>): nat {
    if events == [] then 0 else (if events[0].GossipRound? then 1 else 0) + RoundsIn(events[1..])
  }

  /**
   Over every history a replica holds exactly what it held before and the leaves of the acceptable
   bodies it was handed; `states_rejected` counts the other bodies and `rounds_started` the rounds.
   */
  lemma {:induction false} HistoryMeaning(c: Codec, ceiling: nat, d: Daemon, events: seq<Event>)
    requires WellScripted(|d.health|, events)
    ensures var after := History(c, ceiling, d, events).replica;
            var bodies := AllDeliveries(c, ceiling, d, events);
            && after.leaves == d.replica.leaves + Learned(c, ceiling, bodies)
            && after.stats.statesRejected == d.replica.stats.statesRejected + Rejections(c, ceiling, bodies)
            && after.stats.roundsStarted == d.replica.stats.roundsStarted + RoundsIn(events)
    decreases |events|
  {
    hide Learned, Rejections, RoundDeliveries, Pass, Merge;
    NothingLearned(c, ceiling);
    if events != [] {
      match events[0] {
        case InboundState(s) =>
          var next := Daemon(Merge(c, ceiling, d.replica, s), d.health);
          HistoryMeaning(c, ceiling, next, events[1..]);
          MergeMeaning(c, ceiling, d.replica, s);
          LearnedAppend(c, ceiling, [s], AllDeliveries(c, ceiling, next, events[1..]));
          RejectionsAppend(c, ceiling, [s], AllDeliveries(c, ceiling, next, events[1..]));
        case GossipRound(script) =>
          var next := Daemon(Round(c, ceiling, d.replica, d.health, script),
                             RoundPass(c, ceiling, d.replica, d.health, script).health);
          HistoryMeaning(c, ceiling, next, events[1..]);
          PassDelivers(c, ceiling, StartRound(d.replica), d.health, script, |script|);
          var bodies := RoundDeliveries(c, ceiling, StartRound(d.replica), d.health, script, |script|);
          LearnedAppend(c, ceiling, bodies, AllDeliveries(c, ceiling, next, events[1..]));
          RejectionsAppend(c, ceiling, bodies, AllDeliveries(c, ceiling, next, events[1..]));
      }
    }
  }

  lemma MergeMeaning(c: Codec, ceiling: nat, r: Replica, state: bytes)
    ensures var after := Merge(c, ceiling, r, state);
            && after.leaves == r.leaves + Learned(c, ceiling, [state])
            && after.stats.statesRejected == r.stats.statesRejected + Rejections(c, ceiling, [state])
            && after.stats.roundsStarted == r.stats.roundsStarted
  {
    hide Learned, Rejections;
    OneBody(c, ceiling, state);
  }
}
