/**
 The two accounts of a contact agree: run without interference, the small steps of the mesh do to
 the client, its health table and the server what the daemon's own contact does.
 */
module GossipRefinement {
  import opened Common
  import opened Gossip
  import opened GossipMesh

  /** The steps of one contact; those that no longer apply change nothing. */
  function ContactSteps(skip: bool, c: nat): seq<Step> {
    if skip then [SkipPeer(c)]
    else [FetchRoot(c), CompareRoots(c)] + ([EncodeState(c), Serve(c)] + [Absorb(c), Learn(c)])
  }

  /** What the client meets when the links work: the server's root, and its state unless it refuses ours. */
  ghost function Undisturbed(m: Mesh, net: Net, c: nat): Contact
    requires WellFormed(m) && Shaped(m, net) && InContact(m, net, c)
  {
    var p := PeerOf(m, net, c);
    Contact([], RootText(m.codec.rootOf(net.leaves[p])), [], [],
      if Join(m.codec, m.ceilings[p], net.leaves[p], m.codec.encode(net.leaves[c])).None? then ExchangeError
      else ExchangeBody(m.codec.encode(net.leaves[p])))
  }

  /** The mesh after client `c` is done with its current peer. */
  function Done(net: Net, c: nat, leaves: seq<set<Leaf>>, h: Health): Net
    requires c < |net.clients| && net.clients[c].cursor < |net.clients[c].health|
  {
    Advance(net, c, h).(leaves := leaves)
  }

  ghost predicate AtPeer(m: Mesh, net: Net, c: nat) {
    WellFormed(m) && Shaped(m, net) && InContact(m, net, c) && ShapedClient(m, net, c) && PeerOf(m, net, c) != c
  }

  ghost function Next(m: Mesh, net: Net, s: Step): (after: Net)
    requires WellFormed(m) && Shaped(m, net)
    ensures Shaped(m, after)
  {
    ApplyShaped(m, net, s);
    Apply(m, net, s)
  }

  lemma ExecPair(m: Mesh, net: Net, a: Step, b: Step)
    requires WellFormed(m) && Shaped(m, net)
    ensures Exec(m, net, [a, b]) == Next(m, Next(m, net, a), b)
  {
    hide Apply;
    assert [a, b][1..] == [b] && [b][1..] == [];
    assert Exec(m, net, [a, b]) == Exec(m, Next(m, net, a), [b]);
  }

  lemma ExecSix(m: Mesh, net: Net, a: Step, b: Step, d: Step, e: Step, f: Step, g: Step)
    requires WellFormed(m) && Shaped(m, net)
    ensures Exec(m, net, [a, b] + ([d, e] + [f, g])) ==
            Next(m, Next(m, Next(m, Next(m, Next(m, Next(m, net, a), b), d), e), f), g)
  {
    hide Next, Exec, Shaped, WellFormed;
    var mid := Next(m, Next(m, net, a), b);
    ExecAppend(m, net, [a, b], [d, e] + [f, g]);
    ExecPair(m, net, a, b);
    ExecAppend(m, mid, [d, e], [f, g]);
    ExecPair(m, mid, d, e);
    ExecPair(m, Next(m, Next(m, mid, d), e), f, g);
  }

  /** Fetch and compare: the contact is over, or the roots differ. */
  lemma CompareSteps(m: Mesh, net: Net, c: nat)
    requires AtPeer(m, net, c) && net.clients[c].phase.Ready? && !HealthOf(m, net, c).ShouldSkip()
    ensures Next(m, Next(m, net, FetchRoot(c)), CompareRoots(c)) ==
              if RootsMatch(m, net, c, PeerOf(m, net, c))
              then Done(net, c, net.leaves, HealthOf(m, net, c).Succeeded())
              else SetPhase(net, c, Differs)
  {
  }

  /** Exchange from `Differs`: encode, serve, absorb, learn. */
  lemma ExchangeSteps(m: Mesh, net: Net, c: nat)
    requires AtPeer(m, net, c) && net.clients[c].phase.Differs?
    ensures var p, h := PeerOf(m, net, c), HealthOf(m, net, c);
            var ours, theirs := m.codec.encode(net.leaves[c]), m.codec.encode(net.leaves[p]);
            var absorbed := Next(m, Next(m, Next(m, net, EncodeState(c)), Serve(c)), Absorb(c));
            match Join(m.codec, m.ceilings[p], net.leaves[p], ours)
            case None => absorbed == Done(net, c, net.leaves, h.Failed())
            case Some(merged) =>
              Next(m, absorbed, Learn(c)) ==
              match Join(m.codec, m.ceilings[c], net.leaves[c], theirs)
              case None => Done(net, c, net.leaves[p := merged], h)
              case Some(learned) => Done(net, c, net.leaves[p := merged][c := learned], h.Succeeded())
  {
    hide Join;
    var posted := Next(m, net, EncodeState(c));
    var served := Next(m, posted, Serve(c));
    assert served.clients[c].phase == Served(m.codec.encode(net.leaves[c]), m.codec.encode(net.leaves[PeerOf(m, net, c)]));
  }

  lemma NothingLeft(m: Mesh, net: Net, c: nat)
    requires WellFormed(m) && Shaped(m, net) && c < |net.clients| && net.clients[c].phase.Ready?
    ensures forall s :: s in {EncodeState(c), Serve(c), Absorb(c), Learn(c)} ==> Next(m, net, s) == net
  {
  }

  /** `after` is `net` with the daemon's contact done at the client and the posted state merged at the server. */
  ghost predicate Contacted(m: Mesh, net: Net, c: nat, r: Replica, after: Net)
    requires AtPeer(m, net, c)
  {
    var p, h := PeerOf(m, net, c), HealthOf(m, net, c);
    var res := ContactPeer(m.codec, m.ceilings[c], r, h, Undisturbed(m, net, c));
    var posted := Join(m.codec, m.ceilings[p], net.leaves[p], m.codec.encode(net.leaves[c]));
    var server := if Quiet(res.outcome) || posted.None? then net.leaves[p] else posted.value;
    after == Done(net, c, net.leaves[p := server][c := res.replica.leaves], res.health)
  }

  predicate RootsMatch(m: Mesh, net: Net, a: nat, b: nat)
    requires a < |net.leaves| && b < |net.leaves|
  {
    IsRoot(m.codec.rootOf(net.leaves[b])) && m.codec.rootOf(net.leaves[b]) == m.codec.rootOf(net.leaves[a])
  }

  lemma QuietContact(m: Mesh, net: Net, c: nat, r: Replica)
    requires AtPeer(m, net, c) && r.leaves == net.leaves[c]
    ensures var h := HealthOf(m, net, c);
            && (h.ShouldSkip() ==> Contacted(m, net, c, r, Done(net, c, net.leaves, h.Skipped())))
            && (!h.ShouldSkip() && RootsMatch(m, net, c, PeerOf(m, net, c)) ==>
                  Contacted(m, net, c, r, Done(net, c, net.leaves, h.Succeeded())))
  {
    hide Join, IsRoot;
    assert net.leaves[PeerOf(m, net, c) := net.leaves[PeerOf(m, net, c)]][c := net.leaves[c]] == net.leaves;
  }

  lemma ExchangeContact(m: Mesh, net: Net, c: nat, r: Replica)
    requires AtPeer(m, net, c) && r.leaves == net.leaves[c]
    requires !HealthOf(m, net, c).ShouldSkip() && !RootsMatch(m, net, c, PeerOf(m, net, c))
    ensures var p, h := PeerOf(m, net, c), HealthOf(m, net, c);
            match Join(m.codec, m.ceilings[p], net.leaves[p], m.codec.encode(net.leaves[c]))
            case None => Contacted(m, net, c, r, Done(net, c, net.leaves, h.Failed()))
            case Some(merged) =>
              match Join(m.codec, m.ceilings[c], net.leaves[c], m.codec.encode(net.leaves[p]))
              case None => Contacted(m, net, c, r, Done(net, c, net.leaves[p := merged], h))
              case Some(learned) => Contacted(m, net, c, r, Done(net, c, net.leaves[p := merged][c := learned], h.Succeeded()))
  {
    hide Join, IsRoot;
    var p := PeerOf(m, net, c);
    assert net.leaves[p := net.leaves[p]][c := net.leaves[c]] == net.leaves;
    var posted := Join(m.codec, m.ceilings[p], net.leaves[p], m.codec.encode(net.leaves[c]));
    if posted.Some? {
      assert net.leaves[p := posted.value][c := net.leaves[c]] == net.leaves[p := posted.value];
    }
  }

  /**
   An undisturbed contact in the mesh is the daemon's contact: the client's leaves and health
   change as `ContactPeer` says, the server has merged what was posted to it if an exchange took
   place, and nothing else in the mesh changes.
   */
  lemma ContactIsMeshSteps(m: Mesh, net: Net, c: nat, r: Replica)
    requires AtPeer(m, net, c) && net.clients[c].phase.Ready? && r.leaves == net.leaves[c]
    ensures Contacted(m, net, c, r, Exec(m, net, ContactSteps(HealthOf(m, net, c).ShouldSkip(), c)))
  {
    hide Exec, Join, Next, IsRoot, Contacted;
    var p, h := PeerOf(m, net, c), HealthOf(m, net, c);
    QuietContact(m, net, c, r);
    if h.ShouldSkip() {
      ExecOne(m, net, SkipPeer(c));
      SkipStep(m, net, c);
    } else {
      ExecSix(m, net, FetchRoot(c), CompareRoots(c), EncodeState(c), Serve(c), Absorb(c), Learn(c));
      CompareSteps(m, net, c);
      var compared := Next(m, Next(m, net, FetchRoot(c)), CompareRoots(c));
      if RootsMatch(m, net, c, p) {
        NothingLeft(m, compared, c);
      } else {
        ExchangeContact(m, net, c, r);
        assert AtPeer(m, compared, c);
        ExchangeSteps(m, compared, c);
        PhaseForgotten(net, c, Differs);
        var absorbed := Next(m, Next(m, Next(m, compared, EncodeState(c)), Serve(c)), Absorb(c));
        if Join(m.codec, m.ceilings[p], net.leaves[p], m.codec.encode(net.leaves[c])).None? {
          NothingLeft(m, absorbed, c);
        }
      }
    }
  }

  lemma PhaseForgotten(net: Net, c: nat, ph: Phase)
    requires c < |net.clients| && net.clients[c].cursor < |net.clients[c].health|
    ensures forall leaves, h :: Done(SetPhase(net, c, ph), c, leaves, h) == Done(net, c, leaves, h)
  {
  }

  lemma ExecOne(m: Mesh, net: Net, s: Step)
    requires WellFormed(m) && Shaped(m, net)
    ensures Exec(m, net, [s]) == Next(m, net, s)
  {
    assert [s][1..] == [];
  }

  lemma SkipStep(m: Mesh, net: Net, c: nat)
    requires AtPeer(m, net, c) && net.clients[c].phase.Ready? && HealthOf(m, net, c).ShouldSkip()
    ensures Next(m, net, SkipPeer(c)) == Done(net, c, net.leaves, HealthOf(m, net, c).Skipped())
  {
  }

  // ------------------------------------------------------------------ failing links

  /** What may go wrong with the link during a contact. */
  datatype Link =
    | NoRoot                          // the root cannot be fetched
    | RequestLost                     // the posted state does not arrive in time
    | AnswerLate                      // the client gives up while the server is about to merge
    | ReplyLost                       // the server merged, its answer is lost
    | RequestDamaged(junk: bytes)
    | AnswerDamaged(junk: bytes)

  function BrokenSteps(link: Link, c: nat): seq<Step> {
    match link
    case NoRoot => [Fail(c)]
    case RequestLost => [EncodeState(c), Fail(c)]
    case AnswerLate => [EncodeState(c), Serve(c)] + [Fail(c)]
    case ReplyLost => [EncodeState(c), Serve(c)] + [Absorb(c), Fail(c)]
    case RequestDamaged(junk) => [EncodeState(c), Damage(c, junk)] + [Serve(c), Absorb(c)]
    case AnswerDamaged(junk) => [EncodeState(c), Serve(c)] + ([Absorb(c), Damage(c, junk)] + [Learn(c)])
  }

  /** The same link as the daemon of the client meets it. */
  ghost function Met(m: Mesh, net: Net, c: nat, link: Link): Contact
    requires WellFormed(m) && Shaped(m, net) && InContact(m, net, c)
  {
    var root := m.codec.rootOf(net.leaves[PeerOf(m, net, c)]);
    match link
    case NoRoot => Contact([], RootError, [], [], ExchangeError)
    case AnswerDamaged(junk) => Contact([], RootText(root), [], [], ExchangeBody(junk))
    case _ => Contact([], RootText(root), [], [], ExchangeError)
  }

  /** What the server holds afterwards: it has merged the state if that arrived whole. */
  ghost function ServerHolds(m: Mesh, net: Net, c: nat, link: Link): set<Leaf>
    requires WellFormed(m) && Shaped(m, net) && InContact(m, net, c)
  {
    var p := PeerOf(m, net, c);
    if link.ReplyLost? || link.AnswerDamaged? then net.leaves[p] + net.leaves[c] else net.leaves[p]
  }

  /** A request that did not arrive in time may still be merged later; nothing else lingers. */
  ghost function Lingering(m: Mesh, net: Net, c: nat, link: Link): set<(nat, bytes)>
    requires WellFormed(m) && Shaped(m, net) && InContact(m, net, c)
  {
    if link.RequestLost? || link.AnswerLate? then {(PeerOf(m, net, c), m.codec.encode(net.leaves[c]))} else {}
  }

  ghost predicate Breakable(m: Mesh, net: Net, c: nat, link: Link)
    requires AtPeer(m, net, c)
  {
    && (if link.NoRoot? then net.clients[c].phase.Ready? && !HealthOf(m, net, c).ShouldSkip() else net.clients[c].phase.Differs?)
    && (link.RequestDamaged? || link.AnswerDamaged? ==> m.codec.decode(link.junk).None?)
    && (link.ReplyLost? || link.AnswerDamaged? ==> |m.codec.encode(net.leaves[c])| <= m.ceilings[PeerOf(m, net, c)])
  }

  lemma NoRootSteps(m: Mesh, net: Net, c: nat)
    requires AtPeer(m, net, c) && Breakable(m, net, c, NoRoot)
    ensures Exec(m, net, [Fail(c)]) == Done(net, c, net.leaves, HealthOf(m, net, c).Failed())
  {
    ExecOne(m, net, Fail(c));
  }

  lemma RequestLostSteps(m: Mesh, net: Net, c: nat)
    requires AtPeer(m, net, c) && Breakable(m, net, c, RequestLost)
    ensures Exec(m, net, BrokenSteps(RequestLost, c)) ==
            Done(net, c, net.leaves, HealthOf(m, net, c).Failed()).(abandoned := net.abandoned + Lingering(m, net, c, RequestLost))
  {
    hide Exec;
    ExecPair(m, net, EncodeState(c), Fail(c));
  }

  lemma AnswerLateSteps(m: Mesh, net: Net, c: nat)
    requires AtPeer(m, net, c) && Breakable(m, net, c, AnswerLate)
    ensures Exec(m, net, BrokenSteps(AnswerLate, c)) ==
            Done(net, c, net.leaves, HealthOf(m, net, c).Failed()).(abandoned := net.abandoned + Lingering(m, net, c, AnswerLate))
  {
    hide Exec;
    ExecAppend(m, net, [EncodeState(c), Serve(c)], [Fail(c)]);
    ExecPair(m, net, EncodeState(c), Serve(c));
    ExecOne(m, Next(m, Next(m, net, EncodeState(c)), Serve(c)), Fail(c));
  }

  lemma ReplyLostSteps(m: Mesh, net: Net, c: nat)
    requires AtPeer(m, net, c) && Breakable(m, net, c, ReplyLost)
    ensures var p := PeerOf(m, net, c);
            Exec(m, net, BrokenSteps(ReplyLost, c)) ==
            Done(net, c, net.leaves[p := net.leaves[p] + net.leaves[c]], HealthOf(m, net, c).Failed())
  {
    hide Exec;
    ExecAppend(m, net, [EncodeState(c), Serve(c)], [Absorb(c), Fail(c)]);
    ExecPair(m, net, EncodeState(c), Serve(c));
    var served := Next(m, Next(m, net, EncodeState(c)), Serve(c));
    ExecPair(m, served, Absorb(c), Fail(c));
    assert Join(m.codec, m.ceilings[PeerOf(m, net, c)], net.leaves[PeerOf(m, net, c)], m.codec.encode(net.leaves[c]))
        == Some(net.leaves[PeerOf(m, net, c)] + net.leaves[c]);
  }

  lemma RequestDamagedSteps(m: Mesh, net: Net, c: nat, junk: bytes)
    requires AtPeer(m, net, c) && Breakable(m, net, c, RequestDamaged(junk))
    ensures Exec(m, net, BrokenSteps(RequestDamaged(junk), c)) == Done(net, c, net.leaves, HealthOf(m, net, c).Failed())
  {
    hide Exec;
    ExecAppend(m, net, [EncodeState(c), Damage(c, junk)], [Serve(c), Absorb(c)]);
    ExecPair(m, net, EncodeState(c), Damage(c, junk));
    var damaged := Next(m, Next(m, net, EncodeState(c)), Damage(c, junk));
    assert damaged == SetPhase(net, c, Posted(junk));
    ExecPair(m, damaged, Serve(c), Absorb(c));
  }

  lemma AnswerDamagedSteps(m: Mesh, net: Net, c: nat, junk: bytes)
    requires AtPeer(m, net, c) && Breakable(m, net, c, AnswerDamaged(junk))
    ensures var p := PeerOf(m, net, c);
            Exec(m, net, BrokenSteps(AnswerDamaged(junk), c)) ==
            Done(net, c, net.leaves[p := net.leaves[p] + net.leaves[c]], HealthOf(m, net, c))
  {
    hide Exec;
    var p := PeerOf(m, net, c);
    ExecAppend(m, net, [EncodeState(c), Serve(c)], [Absorb(c), Damage(c, junk)] + [Learn(c)]);
    ExecPair(m, net, EncodeState(c), Serve(c));
    var served := Next(m, Next(m, net, EncodeState(c)), Serve(c));
    ExecAppend(m, served, [Absorb(c), Damage(c, junk)], [Learn(c)]);
    ExecPair(m, served, Absorb(c), Damage(c, junk));
    assert Join(m.codec, m.ceilings[p], net.leaves[p], m.codec.encode(net.leaves[c])) == Some(net.leaves[p] + net.leaves[c]);
    var replied := Next(m, Next(m, served, Absorb(c)), Damage(c, junk));
    assert replied == SetPhase(SetLeaves(net, p, net.leaves[p] + net.leaves[c]), c, Replied(junk));
    ExecOne(m, replied, Learn(c));
  }

  /**
   A contact over a failing link, too, is the daemon's contact: its health and leaves change as
   `ContactPeer` says for what the daemon meets, the server has merged exactly what arrived whole,
   and only a request lost on the way can still take effect.
   */
  lemma BrokenContactIsMeshSteps(m: Mesh, net: Net, c: nat, r: Replica, link: Link)
    requires AtPeer(m, net, c) && Breakable(m, net, c, link) && r.leaves == net.leaves[c]
    requires !HealthOf(m, net, c).ShouldSkip() && !RootsMatch(m, net, c, PeerOf(m, net, c))
    ensures var p := PeerOf(m, net, c);
            var res := ContactPeer(m.codec, m.ceilings[c], r, HealthOf(m, net, c), Met(m, net, c, link));
            Exec(m, net, BrokenSteps(link, c)) ==
            Done(net, c, net.leaves[p := ServerHolds(m, net, c, link)][c := res.replica.leaves], res.health)
              .(abandoned := net.abandoned + Lingering(m, net, c, link))
  {
    hide Exec, BrokenSteps, IsRoot;
    var p := PeerOf(m, net, c);
    assert net.leaves[p := net.leaves[p]][c := net.leaves[c]] == net.leaves;
    assert net.leaves[p := ServerHolds(m, net, c, link)][c := net.leaves[c]] == net.leaves[p := ServerHolds(m, net, c, link)];
    assert net.abandoned + {} == net.abandoned;
    match link
    case NoRoot => NoRootSteps(m, net, c); OnlyFail(c);
    case RequestLost => RequestLostSteps(m, net, c);
    case AnswerLate => AnswerLateSteps(m, net, c);
    case ReplyLost => ReplyLostSteps(m, net, c);
    case RequestDamaged(junk) => RequestDamagedSteps(m, net, c, junk);
    case AnswerDamaged(junk) => AnswerDamagedSteps(m, net, c, junk);
  }

  lemma OnlyFail(c: nat)
    ensures BrokenSteps(NoRoot, c) == [Fail(c)]
  {
  }

  /** The remaining steps: a malformed root leads to an exchange, a straggler is merged by its server alone, a new round starts over. */
  lemma OtherSteps(m: Mesh, net: Net, c: nat, server: nat, body: bytes)
    requires WellFormed(m) && Shaped(m, net)
    ensures InContact(m, net, c) && ShapedClient(m, net, c) && net.clients[c].phase.Ready? && !HealthOf(m, net, c).ShouldSkip() ==>
              Apply(m, net, FetchMalformed(c)) == SetPhase(net, c, Differs)
    ensures (server, body) in net.abandoned && server < |net.leaves| && |body| <= m.ceilings[server] && m.codec.decode(body).Some? ==>
              Apply(m, net, AbsorbAbandoned(server, body)) ==
              net.(leaves := net.leaves[server := net.leaves[server] + m.codec.decode(body).value])
    ensures c < |m.peers| && net.clients[c].cursor == |m.peers[c]| ==>
              Apply(m, net, NextRound(c)) == net.(clients := net.clients[c := net.clients[c].(cursor := 0)])
  {
  }
}
