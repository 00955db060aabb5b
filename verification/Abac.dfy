/**
 Attribute-based mediation in the manner of Bell and LaPadula (aegis/auth/abac.py).

 The engine is stateless, so what it is for shows only over runs: subjects read and write objects,
 data flows between objects, and every move is mediated. A run keeps, for each subject and object,
 the set of objects whose original content may have reached it.
 */
module Abac {
  datatype Level = Unclassified | Cui | Confidential | Secret | TopSecret

  function Rank(l: Level): nat {
    match l
    case Unclassified => 0
    case Cui => 1
    case Confidential => 2
    case Secret => 3
    case TopSecret => 4
  }

  /** The tiers in order of sensitivity, and the order they are in. */
  const TIERS: seq<Level> := [Unclassified, Cui, Confidential, Secret, TopSecret]

  ghost predicate Below(a: Level, b: Level) {
    exists i, j :: 0 <= i < j < |TIERS| && TIERS[i] == a && TIERS[j] == b
  }

  lemma RankIsTier(l: Level)
    ensures Rank(l) < |TIERS| && TIERS[Rank(l)] == l
    ensures forall i :: 0 <= i < |TIERS| && TIERS[i] == l ==> i == Rank(l)
  {
  }

  lemma RankOrders(a: Level, b: Level)
    ensures Rank(a) < Rank(b) <==> Below(a, b)
  {
    RankIsTier(a);
    RankIsTier(b);
  }

  datatype Label = Label(classification: Level, compartments: set<string>, releasableTo: set<string>)

  datatype Subject = Subject(clearance: Level, compartments: set<string>, affiliations: set<string>)

  datatype Decision =
    | Allowed
    | ReadUp
    | MissingCompartments(missing: set<string>)
    | NotReleasable
    | WriteDown
    | SinkTooLow

  predicate Dominates(a: Label, b: Label) {
    Rank(a.classification) >= Rank(b.classification) && a.compartments >= b.compartments
  }

  const NOFORN := "NOFORN"

  predicate Releasable(home: string, s: Subject, l: Label) {
    if NOFORN in l.releasableTo then home in s.affiliations
    else if l.releasableTo == {} then home in s.affiliations
    else s.affiliations * l.releasableTo != {}
  }

  function CanRead(home: string, s: Subject, l: Label): Decision {
    if Rank(s.clearance) < Rank(l.classification) then ReadUp
    else if l.compartments - s.compartments != {} then MissingCompartments(l.compartments - s.compartments)
    else if !Releasable(home, s, l) then NotReleasable
    else Allowed
  }

  function CanWrite(s: Subject, sink: Label): Decision {
    if Rank(sink.classification) < Rank(s.clearance) then WriteDown else Allowed
  }

  function CanFlow(source: Label, sink: Label): Decision {
    if Dominates(sink, source) then Allowed else SinkTooLow
  }

  /** The label's markings let someone of these affiliations see it. */
  ghost predicate Released(home: string, affiliations: set<string>, rel: set<string>) {
    if "NOFORN" in rel || rel == {} then home in affiliations else exists a :: a in affiliations && a in rel
  }

  /** What a read is answered, in this order: no read up, every compartment, a release marking. */
  lemma ReadDecision(home: string, s: Subject, l: Label)
    ensures CanRead(home, s, l) ==
              if Below(s.clearance, l.classification) then ReadUp
              else if !(l.compartments <= s.compartments) then MissingCompartments(l.compartments - s.compartments)
              else if !Released(home, s.affiliations, l.releasableTo) then NotReleasable
              else Allowed
  {
    RankOrders(s.clearance, l.classification);
    assert l.compartments - s.compartments == {} <==> l.compartments <= s.compartments by {
      if l.compartments - s.compartments == {} {
        forall c | c in l.compartments ensures c in s.compartments {
          assert c !in l.compartments - s.compartments;
        }
      }
    }
    if a :| a in s.affiliations && a in l.releasableTo { assert a in s.affiliations * l.releasableTo; }
  }

  /** Reading takes clearance, every compartment and a release marking, all three. */
  lemma ReadAllowedIff(home: string, s: Subject, l: Label)
    ensures CanRead(home, s, l).Allowed? <==>
              && !Below(s.clearance, l.classification) && l.compartments <= s.compartments
              && Released(home, s.affiliations, l.releasableTo)
    ensures CanRead(home, s, l).Allowed? ==> Rank(l.classification) <= Rank(s.clearance) && Releasable(home, s, l)
  {
    ReadDecision(home, s, l);
    RankOrders(s.clearance, l.classification);
  }

  /** A write is permitted exactly when the sink is not below the subject's clearance. */
  lemma WriteAllowedIff(s: Subject, sink: Label)
    ensures CanWrite(s, sink) == if Below(sink.classification, s.clearance) then WriteDown else Allowed
  {
    RankOrders(sink.classification, s.clearance);
  }

  /** A flow is permitted exactly when the sink is not below the source and has all its compartments. */
  lemma FlowAllowedIff(source: Label, sink: Label)
    ensures CanFlow(source, sink) ==
              if !Below(sink.classification, source.classification) && source.compartments <= sink.compartments then Allowed else SinkTooLow
  {
    RankOrders(sink.classification, source.classification);
  }

  // ------------------------------------------------------------------------- runs

  datatype World = World(home: string, subjects: seq<Subject>, objects: seq<Label>)

  datatype Op = Read(subject: nat, from: nat) | Write(subject: nat, into: nat) | Flow(from: nat, into: nat)

  /** Whose content each subject has seen and each object holds. */
  datatype State = State(seen: seq<set<nat>>, held: seq<set<nat>>)

  predicate Shaped(w: World, st: State) { |st.seen| == |w.subjects| && |st.held| == |w.objects| }

  predicate Permitted(w: World, op: Op) {
    match op
    case Read(s, o) => s < |w.subjects| && o < |w.objects| && CanRead(w.home, w.subjects[s], w.objects[o]).Allowed?
    case Write(s, o) => s < |w.subjects| && o < |w.objects| && CanWrite(w.subjects[s], w.objects[o]).Allowed?
    case Flow(a, b) => a < |w.objects| && b < |w.objects| && CanFlow(w.objects[a], w.objects[b]).Allowed?
  }

  /** One mediated move: a refused one changes nothing. */
  function Step(w: World, st: State, op: Op): (next: State)
    requires Shaped(w, st)
    ensures Shaped(w, next)
  {
    if !Permitted(w, op) then st
    else match op
      case Read(s, o) => st.(seen := st.seen[s := st.seen[s] + st.held[o]])
      case Write(s, o) => st.(held := st.held[o := st.held[o] + st.seen[s]])
      case Flow(a, b) => st.(held := st.held[b := st.held[b] + st.held[a]])
  }

  function Start(w: World): State {
    State(seq(|w.subjects|, _ => {}), seq(|w.objects|, o requires 0 <= o < |w.objects| => {o}))
  }

  function Run(w: World, ops: seq<Op>): (st: State)
    ensures Shaped(w, st)
  {
    if ops == [] then Start(w) else Step(w, Run(w, ops[..|ops| - 1]), ops[|ops| - 1])
  }

  /** A bound on where content may be: `sees(s, x)` and `holds(o, x)` admit object x's content. */
  datatype Bound = Bound(sees: (nat, nat) -> bool, holds: (nat, nat) -> bool)

  ghost predicate Within(st: State, bd: Bound) {
    && (forall s: nat, x :: s < |st.seen| && x in st.seen[s] ==> bd.sees(s, x))
    && (forall o: nat, x :: o < |st.held| && x in st.held[o] ==> bd.holds(o, x))
  }

  /** Permitted moves carry content the bound admits only to where the bound admits it. */
  ghost predicate Carries(w: World, op: Op, bd: Bound) {
    Permitted(w, op) ==>
      match op
      case Read(s, o) => forall x :: bd.holds(o, x) ==> bd.sees(s, x)
      case Write(s, o) => forall x :: bd.sees(s, x) ==> bd.holds(o, x)
      case Flow(a, b) => forall x :: bd.holds(a, x) ==> bd.holds(b, x)
  }

  lemma StepWithin(w: World, st: State, op: Op, bd: Bound)
    requires Shaped(w, st) && Within(st, bd) && Carries(w, op, bd)
    ensures Within(Step(w, st, op), bd)
  {
  }

  lemma {:induction false} RunWithin(w: World, ops: seq<Op>, bd: Bound)
    requires forall o: nat :: o < |w.objects| ==> bd.holds(o, o)
    requires forall i :: 0 <= i < |ops| ==> Carries(w, ops[i], bd)
    ensures Within(Run(w, ops), bd)
  {
    if ops != [] {
      RunWithin(w, ops[..|ops| - 1], bd);
      StepWithin(w, Run(w, ops[..|ops| - 1]), ops[|ops| - 1], bd);
    }
  }

  // --------------------------------------------------------- no downward flow

  /** No object or subject has anything of a classification above its own. */
  ghost predicate NotAbove(w: World, st: State) {
    && (forall o: nat, x :: o < |st.held| && o < |w.objects| && x in st.held[o] ==>
          x < |w.objects| && !Below(w.objects[o].classification, w.objects[x].classification))
    && (forall s: nat, x :: s < |st.seen| && s < |w.subjects| && x in st.seen[s] ==>
          x < |w.objects| && !Below(w.subjects[s].clearance, w.objects[x].classification))
  }

  /** In every run of mediated reads, writes and flows, nothing moves below its classification. */
  lemma NoDownwardFlow(w: World, ops: seq<Op>)
    ensures NotAbove(w, Run(w, ops))
  {
    var bd := Bound(
      (s: nat, x: nat) => x < |w.objects| && s < |w.subjects| &&
        Rank(w.objects[x].classification) <= Rank(w.subjects[s].clearance),
      (o: nat, x: nat) => x < |w.objects| && o < |w.objects| &&
        Rank(w.objects[x].classification) <= Rank(w.objects[o].classification));
    RunWithin(w, ops, bd);
    var st := Run(w, ops);
    assert forall o: nat, x :: o < |st.held| && x in st.held[o] ==> bd.holds(o, x);
    assert forall s: nat, x :: s < |st.seen| && x in st.seen[s] ==> bd.sees(s, x);
    forall a, b ensures Rank(a) < Rank(b) <==> Below(a, b) { RankOrders(a, b); }
  }

  // ----------------------------------------------------- compartments as well

  /** Every object dominates, in classification and compartments, whatever it holds. */
  ghost predicate Dominated(w: World, st: State) {
    forall o: nat, x :: o < |st.held| && o < |w.objects| && x in st.held[o] ==>
      x < |w.objects| && Dominates(w.objects[o], w.objects[x])
  }

  predicate OnlyFlows(ops: seq<Op>) { forall i :: 0 <= i < |ops| ==> ops[i].Flow? }

  /** Chains of permitted flows never lose a compartment either. */
  lemma FlowsKeepDominance(w: World, ops: seq<Op>)
    requires OnlyFlows(ops)
    ensures Dominated(w, Run(w, ops))
  {
    var bd := Bound((s: nat, x: nat) => true,
      (o: nat, x: nat) => x < |w.objects| && o < |w.objects| && Dominates(w.objects[o], w.objects[x]));
    RunWithin(w, ops, bd);
    var st := Run(w, ops);
    assert forall o: nat, x :: o < |st.held| && x in st.held[o] ==> bd.holds(o, x);
  }

  /** Mutual dominance is equality of classification and compartments. */
  lemma DominanceIsPartialOrder(a: Label, b: Label, c: Label)
    ensures Dominates(a, a)
    ensures Dominates(a, b) && Dominates(b, c) ==> Dominates(a, c)
    ensures Dominates(a, b) && Dominates(b, a) <==>
              a.classification == b.classification && a.compartments == b.compartments
  {
  }

  /** Subject s may carry content from object a into object b. */
  predicate Bridges(w: World, s: nat, a: nat, b: nat) {
    && s < |w.subjects| && a < |w.objects| && b < |w.objects|
    && Permitted(w, Read(s, a)) && Permitted(w, Write(s, b))
  }

  /** No subject of the world can carry content to an object that lacks one of its compartments. */
  ghost predicate Confined(w: World) {
    forall s: nat, a: nat, b: nat :: Bridges(w, s, a, b) ==>
      w.objects[a].compartments <= w.objects[b].compartments
  }

  /** Some object that s may read dominates x. */
  ghost predicate ReadableAbove(w: World, s: nat, x: nat) {
    exists a: nat :: a < |w.objects| && Permitted(w, Read(s, a)) && x < |w.objects| && Dominates(w.objects[a], w.objects[x])
  }

  lemma ConfinedRuns(w: World, ops: seq<Op>)
    requires Confined(w)
    ensures Dominated(w, Run(w, ops))
  {
    ghost var bd := Bound((s: nat, x: nat) => ReadableAbove(w, s, x),
      (o: nat, x: nat) => x < |w.objects| && o < |w.objects| && Dominates(w.objects[o], w.objects[x]));
    forall i | 0 <= i < |ops| ensures Carries(w, ops[i], bd) {
      if Permitted(w, ops[i]) && ops[i].Write? {
        var s, b := ops[i].subject, ops[i].into;
        forall x: nat | ReadableAbove(w, s, x) ensures bd.holds(b, x) {
          var a: nat :| a < |w.objects| && Permitted(w, Read(s, a)) && Dominates(w.objects[a], w.objects[x]);
          assert Bridges(w, s, a, b);
        }
      }
    }
    RunWithin(w, ops, bd);
    var st := Run(w, ops);
    assert forall o: nat, x :: o < |st.held| && x in st.held[o] ==> bd.holds(o, x);
  }

  lemma TwoStepLeak(w: World, s: nat, a: nat, b: nat)
    requires Bridges(w, s, a, b)
    ensures a in Run(w, [Read(s, a), Write(s, b)]).held[b]
  {
    assert [Read(s, a), Write(s, b)][..1] == [Read(s, a)];
    assert [Read(s, a)][..0] == [];
    assert Run(w, [Read(s, a)]) == Step(w, Start(w), Read(s, a));
    assert a in Start(w).held[a];
    assert a in Run(w, [Read(s, a)]).seen[s];
  }

  ghost predicate NeverLeaks(w: World) { forall ops :: Dominated(w, Run(w, ops)) }

  /**
   The write rule looks at classification alone. All runs of a world respect compartments too if
   and only if no subject of that world may read one object and write another that lacks one of
   its compartments.
   */
  lemma NoLeakIffConfined(w: World)
    ensures NeverLeaks(w) <==> Confined(w)
  {
    if Confined(w) {
      forall ops ensures Dominated(w, Run(w, ops)) { ConfinedRuns(w, ops); }
    }
    if NeverLeaks(w) {
      forall s: nat, a: nat, b: nat | Bridges(w, s, a, b)
        ensures w.objects[a].compartments <= w.objects[b].compartments
      {
        TwoStepLeak(w, s, a, b);
        assert Dominated(w, Run(w, [Read(s, a), Write(s, b)]));
      }
    }
  }

  /** The subject can read something at all: its affiliations open some release marking. */
  predicate Affiliated(home: string, s: Subject) { home in s.affiliations || s.affiliations - {NOFORN} != {} }

  lemma AffiliatedIff(home: string, s: Subject)
    ensures Affiliated(home, s) <==> exists l :: CanRead(home, s, l).Allowed?
    ensures Affiliated(home, s) ==>
              exists rel :: CanRead(home, s, Label(s.clearance, s.compartments, rel)).Allowed?
  {
    if Affiliated(home, s) {
      var rel := if home in s.affiliations then {} else s.affiliations - {NOFORN};
      if rel != {} {
        assert s.affiliations * rel == rel;
      }
      assert CanRead(home, s, Label(s.clearance, s.compartments, rel)).Allowed?;
    }
  }

  /**
   A permitted write can carry only what its sink dominates if and only if the sink has every
   compartment the subject is read into (or the subject can read nothing).
   */
  lemma WriteIsSafeIff(home: string, s: Subject, sink: Label)
    requires CanWrite(s, sink).Allowed?
    ensures (forall source :: CanRead(home, s, source).Allowed? ==> Dominates(sink, source)) <==>
              (s.compartments <= sink.compartments || !Affiliated(home, s))
  {
    AffiliatedIff(home, s);
    if Affiliated(home, s) && !(s.compartments <= sink.compartments) {
      var rel :| CanRead(home, s, Label(s.clearance, s.compartments, rel)).Allowed?;
      assert !Dominates(sink, Label(s.clearance, s.compartments, rel));
    }
    if s.compartments <= sink.compartments {
      forall source | CanRead(home, s, source).Allowed? ensures Dominates(sink, source) {
        ReadAllowedIff(home, s, source);
      }
    }
  }

  /** A concrete run: a compartmented object read and written into an uncompartmented one. */
  lemma WriteDropsCompartment()
    ensures var w := World("USA", [Subject(Secret, {"CRYPTO"}, {"USA"})],
                           [Label(Secret, {"CRYPTO"}, {}), Label(Secret, {}, {})]);
            !Dominated(w, Run(w, [Read(0, 0), Write(0, 1)]))
  {
  }

  // ------------------------------------------------------------- dissemination

  /** The affiliations a marking opens the label to. */
  function Audience(home: string, l: Label): set<string> {
    if NOFORN in l.releasableTo || l.releasableTo == {} then {home} else l.releasableTo
  }

  /** Dominance leaves release markings out: a flow keeps the readers within the source's exactly then. */
  lemma FlowKeepsReadersIff(home: string, source: Label, sink: Label)
    requires CanFlow(source, sink).Allowed?
    ensures (forall s :: CanRead(home, s, sink).Allowed? ==> CanRead(home, s, source).Allowed?) <==>
              Audience(home, sink) <= Audience(home, source)
  {
    if Audience(home, sink) <= Audience(home, source) {
      forall s | CanRead(home, s, sink).Allowed? ensures CanRead(home, s, source).Allowed? {
        ReleasableIff(home, s, sink);
        ReleasableIff(home, s, source);
        ReadAllowedIff(home, s, sink);
        ReadAllowedIff(home, s, source);
      }
    } else {
      var x :| x in Audience(home, sink) && x !in Audience(home, source);
      var s := Subject(sink.classification, sink.compartments, {x});
      ReleasableIff(home, s, sink);
      ReleasableIff(home, s, source);
      assert x in s.affiliations * Audience(home, sink);
      assert CanRead(home, s, sink).Allowed? && !CanRead(home, s, source).Allowed?;
    }
  }

  /** A permitted flow that gains a reader: NOFORN data flows into a sink of the same label released to "FVEY". */
  lemma FlowGainsReader()
    ensures var source, sink := Label(Secret, {}, {NOFORN}), Label(Secret, {}, {"FVEY"});
            var s := Subject(Secret, {}, {"FVEY"});
            CanFlow(source, sink).Allowed? && CanRead("USA", s, sink).Allowed? && CanRead("USA", s, source) == NotReleasable
  {
    var source, sink := Label(Secret, {}, {NOFORN}), Label(Secret, {}, {"FVEY"});
    var s := Subject(Secret, {}, {"FVEY"});
    ReadAllowedIff("USA", s, sink);
    assert "FVEY" in s.affiliations * sink.releasableTo;
    assert NOFORN[0] != "FVEY"[0] && "USA"[0] != "FVEY"[0];
    assert source.compartments - s.compartments == {};
  }

  lemma ReleasableIff(home: string, s: Subject, l: Label)
    ensures Releasable(home, s, l) <==> s.affiliations * Audience(home, l) != {}
  {
    if home in s.affiliations { assert home in s.affiliations * {home}; }
  }

  /** What a permitted move carries: all its origin has, to its destination alone; a refused one carries nothing. */
  lemma StepMeaning(w: World, st: State, op: Op)
    requires Shaped(w, st)
    ensures var next := Step(w, st, op);
            if !Permitted(w, op) then next == st
            else match op
              case Read(s, o) => next.held == st.held && next.seen == st.seen[s := st.seen[s] + st.held[o]]
              case Write(s, o) => next.seen == st.seen && next.held == st.held[o := st.held[o] + st.seen[s]]
              case Flow(a, b) => next.seen == st.seen && next.held == st.held[b := st.held[b] + st.held[a]]
  {
  }
}
