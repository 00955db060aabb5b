/**
 What backs a durable response: over every run of the audit chain, a node id stands for one
 signature and one pair of request and response hashes, unless two hashed inputs collide.
 */
module ChainEvidence {
  import opened Common
  import opened Chain

  // ------------------------------------------------------------------ what a node id stands for

  const WIDTH := 64

  /** Hexadecimal SHA-256 digests, for hashes and for MMR roots. */
  ghost predicate WideDigests(c: Crypto) {
    && (forall x {:trigger c.hash(x)} :: |c.hash(x)| == WIDTH)
    && (forall l {:trigger c.mmrRoot(l)} :: |c.mmrRoot(l)| == WIDTH)
  }

  /** As the code makes them: two digests, the second absent for an empty response, and a short timestamp. */
  predicate JobFits(j: Job) {
    |j.requestHash| == WIDTH && (|j.responseHash| == WIDTH || j.responseHash == "") && |j.timestamp| < WIDTH
  }

  /** A signer that answers at all answers with some text. */
  predicate SignerFits(signature: Option<string>) { signature.Some? ==> signature.value != "" }

  ghost predicate StepFits(step: Step) {
    (step.Begin? ==> JobFits(step.job)) && (step.Sign? ==> SignerFits(step.signature))
  }

  /** The text whose hash is the node's id. */
  function IdText(n: Node): string { n.root + SignatureText(n.signature) }

  /** Id, root and leaf of a node belong together. */
  ghost predicate Sound(c: Crypto, n: Node) {
    && n.id == c.hash(IdText(n)) && |n.root| == WIDTH && SignerFits(n.signature)
    && n.leaf == n.requestHash + n.responseHash + n.timestamp && |n.timestamp| < WIDTH
    && |n.requestHash| == WIDTH && (|n.responseHash| == WIDTH || n.responseHash == "")
    && (if n.rooted then n.leaves != [] && n.leaves[|n.leaves| - 1] == n.leaf && n.root == c.mmrRoot(n.leaves)
        else n.root == c.hash(n.leaf))
  }

  /** The two nodes exhibit a collision: two different inputs, hashed for them, with one digest. */
  ghost predicate Clash(c: Crypto, m: Node, n: Node) {
    || (IdText(m) != IdText(n) && c.hash(IdText(m)) == c.hash(IdText(n)))
    || (m.rooted && n.rooted && m.leaves != n.leaves && c.mmrRoot(m.leaves) == c.mmrRoot(n.leaves))
    || (!m.rooted && !n.rooted && m.leaf != n.leaf && c.hash(m.leaf) == c.hash(n.leaf))
    || (m.rooted && !n.rooted && m.leaf != n.leaf && c.mmrRoot(m.leaves) == c.hash(n.leaf))
    || (!m.rooted && n.rooted && m.leaf != n.leaf && c.hash(m.leaf) == c.mmrRoot(n.leaves))
  }

  predicate SameEvidence(m: Node, n: Node) {
    && m.signature == n.signature && m.root == n.root && m.leaf == n.leaf
    && m.requestHash == n.requestHash && m.responseHash == n.responseHash && m.timestamp == n.timestamp
  }

  /** The two hashes and the timestamp can be read back from their concatenation. */
  lemma PartsFixed(a: string, b: string, t: string, x: string, y: string, u: string)
    requires |a| == |x| == WIDTH && (|b| == WIDTH || b == "") && (|y| == WIDTH || y == "") && |t| < WIDTH && |u| < WIDTH
    requires a + b + t == x + y + u
    ensures a == x && b == y && t == u
  {
    var leaf := a + b + t;
    assert leaf == x + y + u;
    assert a == leaf[..WIDTH] && x == leaf[..WIDTH];
    var k := |a + b|;
    assert k == |x + y|;
    assert b == leaf[WIDTH..k] && y == leaf[WIDTH..k];
    assert t == leaf[k..] && u == leaf[k..];
  }

  /** Jobs with one leaf text are the same request, response and instant. */
  lemma LeafFixesJob(j: Job, k: Job)
    requires JobFits(j) && JobFits(k) && LeafData(j) == LeafData(k)
    ensures j.requestHash == k.requestHash && j.responseHash == k.responseHash && j.timestamp == k.timestamp
  {
    PartsFixed(j.requestHash, j.responseHash, j.timestamp, k.requestHash, k.responseHash, k.timestamp);
  }

  /** One id means one signature, one root and one leaf, hence the same request and response, or a collision. */
  lemma IdFixesEvidence(c: Crypto, m: Node, n: Node)
    requires Sound(c, m) && Sound(c, n) && m.id == n.id && !Clash(c, m, n)
    ensures SameEvidence(m, n)
  {
    assert IdText(m) == IdText(n);
    assert m.root == IdText(m)[..WIDTH] == n.root;
    assert SignatureText(m.signature) == IdText(m)[WIDTH..] == SignatureText(n.signature);
    assert m.leaf == n.leaf;
    PartsFixed(m.requestHash, m.responseHash, m.timestamp, n.requestHash, n.responseHash, n.timestamp);
  }

  // ------------------------------------------------------------------ durable exits

  /** The exit's own node, or the one the store already had under its id, is in the chain. */
  ghost predicate ExitBacked(c: Crypto, chain: seq<Node>, e: Exit) {
    match e.how
    case SignFailed => true
    case Wrote(write) =>
      && e.tried.Some? && Sound(c, e.tried.value)
      && e.tried.value.requestHash == e.job.requestHash && e.tried.value.responseHash == e.job.responseHash
      && e.tried.value.timestamp == e.job.timestamp
      && (e.job.requireDurable ==> e.tried.value.signature.Some?)
      && (write.Appended? ==> e.tried.value in chain)
      && (write.Ignored? ==> HasId(chain, e.tried.value.id))
  }

  /** Past the MMR step a process holds a root of its own leaf, and a signature where one is required. */
  ghost predicate PhaseSound(c: Crypto, pr: Process) {
    match pr.phase
    case Idle => true
    case Locked => JobFits(pr.job)
    case TipRead(_) => JobFits(pr.job)
    case Rooted(_, root, added) => JobFits(pr.job) && RootSound(c, pr, root, added)
    case Signed(_, root, added, signature) =>
      JobFits(pr.job) && RootSound(c, pr, root, added) && SignerFits(signature) &&
      (pr.job.requireDurable ==> signature.Some?)
  }

  ghost predicate RootSound(c: Crypto, pr: Process, root: string, added: bool) {
    && root == RootFor(c, pr.mmr, LeafData(pr.job), added)
    && (added ==> pr.mmr != [] && pr.mmr[|pr.mmr| - 1] == LeafData(pr.job))
  }

  ghost predicate EvidenceInv(c: Crypto, s: System) {
    && (forall n :: n in s.chain ==> Sound(c, n))
    && (forall p :: 0 <= p < |s.procs| ==> PhaseSound(c, s.procs[p]))
    && (forall p, e :: 0 <= p < |s.procs| && e in s.procs[p].exits ==> ExitBacked(c, s.chain, e))
  }

  lemma PendingSound(c: Crypto, p: nat, pr: Process)
    requires WideDigests(c) && PhaseSound(c, pr) && pr.phase.Signed?
    ensures Sound(c, PendingNode(c, p, pr))
  {
  }

  lemma BackedGrowth(c: Crypto, chain: seq<Node>, longer: seq<Node>, e: Exit)
    requires ExitBacked(c, chain, e) && chain <= longer
    ensures ExitBacked(c, longer, e)
  {
    hide Sound;
    if e.how.Wrote? && HasId(chain, e.tried.value.id) {
      var i :| 0 <= i < |chain| && chain[i].id == e.tried.value.id;
      assert longer[i] == chain[i];
    }
  }

  lemma StepPhase(c: Crypto, s: System, step: Step)
    requires Enabled(s, step) && PhaseSound(c, s.procs[step.p]) && StepFits(step)
    ensures PhaseSound(c, Apply(c, s, step).procs[step.p])
  {
  }

  /** A step adds at most one node and one exit, the node sound and the exit backed. */
  lemma StepExit(c: Crypto, s: System, step: Step)
    requires WideDigests(c) && Enabled(s, step) && PhaseSound(c, s.procs[step.p])
    ensures var after := Apply(c, s, step);
            var exits := s.procs[step.p].exits;
            && (after.chain == s.chain || exists n :: after.chain == s.chain + [n] && Sound(c, n))
            && (after.procs[step.p].exits == exits ||
                exists e :: after.procs[step.p].exits == exits + [e] && ExitBacked(c, after.chain, e))
  {
    hide Sound;
    var pr, after := s.procs[step.p], Apply(c, s, step);
    if step.Append? {
      PendingSound(c, step.p, pr);
      var node, write := PendingNode(c, step.p, pr), WriteOutcome(c, s, step.p, step.ok);
      var e := Exit(pr.job, Wrote(write), pr.phase.added, Some(node));
      assert after.procs[step.p].exits == pr.exits + [e];
      assert ExitBacked(c, after.chain, e);
    } else if step.Sign? && step.signature.None? && pr.job.requireDurable {
      var e := Exit(pr.job, SignFailed, pr.phase.added, None);
      assert after.procs[step.p].exits == pr.exits + [e] && ExitBacked(c, after.chain, e);
    }
  }

  lemma StepEvidence(c: Crypto, s: System, step: Step)
    requires WideDigests(c) && EvidenceInv(c, s) && StepFits(step)
    ensures EvidenceInv(c, Apply(c, s, step))
  {
    hide Sound, PhaseSound, ExitBacked, Apply;
    var after := Apply(c, s, step);
    ApplyFrame(c, s, step);
    if Enabled(s, step) {
      StepPhase(c, s, step);
      StepExit(c, s, step);
      forall p, e | 0 <= p < |after.procs| && e in after.procs[p].exits ensures ExitBacked(c, after.chain, e) {
        if e in s.procs[p].exits { BackedGrowth(c, s.chain, after.chain, e); }
      }
    }
  }

  lemma ApplyFrame(c: Crypto, s: System, step: Step)
    ensures var after := Apply(c, s, step);
            && |after.procs| == |s.procs|
            && (forall p :: 0 <= p < |s.procs| && (!Enabled(s, step) || p != step.p) ==> after.procs[p] == s.procs[p])
            && (!Enabled(s, step) ==> after == s)
  {
  }

  lemma {:induction false} ExecEvidence(c: Crypto, s: System, steps: seq<Step>)
    requires WideDigests(c) && EvidenceInv(c, s) && forall i :: 0 <= i < |steps| ==> StepFits(steps[i])
    ensures EvidenceInv(c, Exec(c, s, steps))
    decreases |steps|
  {
    if steps != [] {
      StepEvidence(c, s, steps[0]);
      ExecEvidence(c, Apply(c, s, steps[0]), steps[1..]);
    }
  }

  /** The chain holds a signed node with this exit's id for exactly its request, response and instant. */
  ghost predicate HoldsEvidence(chain: seq<Node>, e: Exit) {
    e.tried.Some? && exists n :: n in chain && n.id == e.tried.value.id && n.signature.Some? &&
                                 n.requestHash == e.job.requestHash && n.responseHash == e.job.responseHash &&
                                 n.timestamp == e.job.timestamp
  }

  /** The chain holds a node that clashes with the one this exit tried to write. */
  ghost predicate Clashes(c: Crypto, chain: seq<Node>, e: Exit) {
    e.tried.Some? && exists n :: n in chain && n.id == e.tried.value.id && Clash(c, n, e.tried.value)
  }

  /**
   Every exit that demanded durability and is marked durable has a signed node in the chain for
   exactly its request and response hashes, or the chain and the exit show two colliding inputs;
   every failed commit exits as 503 "unavailable".
   */
  lemma DurableExitsAreBacked(c: Crypto, n: nat, steps: seq<Step>, p: nat, e: Exit, status: nat)
    requires WideDigests(c) && forall i :: 0 <= i < |steps| ==> StepFits(steps[i])
    requires p < |Exec(c, Start(n), steps).procs| && e in Exec(c, Start(n), steps).procs[p].exits
    requires e.job.requireDurable
    ensures var chain := Exec(c, Start(n), steps).chain;
            if Response(e, status).1 == "durable"
            then Response(e, status).0 == status && (HoldsEvidence(chain, e) || Clashes(c, chain, e))
            else Response(e, status) == (503, "unavailable")
  {
    ExecEvidence(c, Start(n), steps);
    var chain := Exec(c, Start(n), steps).chain;
    assert ExitBacked(c, chain, e);
    if Succeeded(e) {
      var tried := e.tried.value;
      assert HasId(chain, tried.id);
      var i :| 0 <= i < |chain| && chain[i].id == tried.id;
      assert chain[i] in chain;
      if !Clash(c, chain[i], tried) { IdFixesEvidence(c, chain[i], tried); }
    }
  }

  /**
   Without a collision the store ignores a node whose tip is current exactly when it already has a
   node with the same root and the same signature.
   */
  lemma IgnoredIff(c: Crypto, s: System, p: nat)
    requires WideDigests(c) && EvidenceInv(c, s) && p < |s.procs| && s.procs[p].phase.Signed?
    requires !WriteOutcome(c, s, p, true).Refused?
    requires forall n :: n in s.chain ==> !Clash(c, n, PendingNode(c, p, s.procs[p]))
    ensures var node := PendingNode(c, p, s.procs[p]);
            WriteOutcome(c, s, p, true).Ignored? <==>
              exists n :: n in s.chain && n.root == node.root && n.signature == node.signature
  {
    PendingSound(c, p, s.procs[p]);
    var node := PendingNode(c, p, s.procs[p]);
    if HasId(s.chain, node.id) {
      var i :| 0 <= i < |s.chain| && s.chain[i].id == node.id;
      assert s.chain[i] in s.chain;
      IdFixesEvidence(c, s.chain[i], node);
    }
    if n :| n in s.chain && n.root == node.root && n.signature == node.signature {
      assert IdText(n) == IdText(node) && Sound(c, n);
    }
  }

  /**
   An ignored node is one for the same request, response and instant that is already stored, or a
   collision: commits at different instants, with or without the MMR, are never ignored against
   each other.
   */
  lemma IgnoredIsSameInstant(c: Crypto, s: System, p: nat)
    requires WideDigests(c) && EvidenceInv(c, s) && p < |s.procs| && s.procs[p].phase.Signed?
    requires WriteOutcome(c, s, p, true).Ignored?
    ensures var job, node := s.procs[p].job, PendingNode(c, p, s.procs[p]);
            exists n :: n in s.chain && n.id == node.id &&
              (Clash(c, n, node) ||
               (n.requestHash == job.requestHash && n.responseHash == job.responseHash && n.timestamp == job.timestamp))
  {
    PendingSound(c, p, s.procs[p]);
    var node := PendingNode(c, p, s.procs[p]);
    var i :| 0 <= i < |s.chain| && s.chain[i].id == node.id;
    assert s.chain[i] in s.chain;
    if !Clash(c, s.chain[i], node) { IdFixesEvidence(c, s.chain[i], node); }
  }
}
