/**
 The shared audit chain of the enterprise server (aegis_server/main.py): many processes, each with
 its own lock and its own MMR, append to one store. The critical section - read the tip, add the
 leaf, sign, compare-and-append - is four steps after the lock is taken, and any of them may fail.

 The store is the compare-and-append of aegis_server/storage: it refuses when the tip is not the
 expected one, and ignores a node whose id is already stored while reporting success
 (`INSERT OR IGNORE` over a unique index). A write that fails stores nothing.
 */
module Chain {
  import opened Common

  /** SHA-256 of text, the MMR root over its leaves, and the genesis hash. */
  datatype Crypto = Crypto(hash: string -> string, mmrRoot: seq<string> -> string, genesis: string)

  datatype Job = Job(requestHash: string, responseHash: string, timestamp: string, requireDurable: bool)

  function LeafData(j: Job): string { j.requestHash + j.responseHash + j.timestamp }

  /**
   A node. `owner`, `leaf`, `rooted` and `leaves` say which process made it, for which leaf data,
   and whether and over which MMR leaves its root is an MMR root.
   */
  datatype Node = Node(
    id: string, prev: string, requestHash: string, responseHash: string, timestamp: string, root: string,
    signature: Option<string>, owner: nat, leaf: string, rooted: bool, leaves: seq<string>)

  // ------------------------------------------------------------------- the store

  function Tip(c: Crypto, chain: seq<Node>): string {
    if chain == [] then c.genesis else chain[|chain| - 1].id
  }

  predicate HasId(chain: seq<Node>, id: string) { exists i :: 0 <= i < |chain| && chain[i].id == id }

  datatype Write = Appended | Ignored | Refused | WriteFailed

  function CompareAndAppend(c: Crypto, chain: seq<Node>, node: Node, expected: string): Write {
    if Tip(c, chain) != expected then Refused
    else if HasId(chain, node.id) then Ignored
    else Appended
  }

  // ---------------------------------------------------------- the critical section

  /** What `get_latest_node` leads to: a failed read falls back to the genesis hash. */
  function PrevHash(c: Crypto, chain: seq<Node>, readOk: bool): string {
    if readOk then Tip(c, chain) else c.genesis
  }

  function RootFor(c: Crypto, mmr: seq<string>, leaf: string, added: bool): string {
    if added then c.mmrRoot(mmr) else c.hash(leaf)
  }

  function SignatureText(s: Option<string>): string { if s.Some? then s.value else "" }

  function NodeFor(c: Crypto, p: nat, mmr: seq<string>, j: Job, prev: string, root: string, signature: Option<string>, added: bool): Node {
    Node(c.hash(root + SignatureText(signature)), prev, j.requestHash, j.responseHash, j.timestamp, root, signature, p, LeafData(j), added, mmr)
  }

  datatype Phase =
    | Idle
    | Locked
    | TipRead(prev: string)
    | Rooted(prev: string, root: string, added: bool)
    | Signed(prev: string, root: string, added: bool, signature: Option<string>)

  datatype How = SignFailed | Wrote(write: Write)

  /** One return of `_run_forensic_analytics`, with the node it tried to write. */
  datatype Exit = Exit(job: Job, how: How, added: bool, tried: Option<Node>)

  predicate Succeeded(e: Exit) { e.how.Wrote? && (e.how.write.Appended? || e.how.write.Ignored?) }

  /** The HTTP response of the proxy: its status and the evidence header. */
  function Response(e: Exit, status: nat): (nat, string) {
    if Succeeded(e) then (status, "durable") else (503, "unavailable")
  }

  /** `seenLength` and `readOk` remember, for the statements below, when the tip was read and whether it could be. */
  datatype Process = Process(mmr: seq<string>, job: Job, phase: Phase, seenLength: nat, readOk: bool, exits: seq<Exit>)

  datatype System = System(chain: seq<Node>, procs: seq<Process>)

  datatype Step =
    | Begin(p: nat, job: Job)
    | ReadTip(p: nat, ok: bool)
    | AddLeaf(p: nat, ok: bool)
    | Sign(p: nat, signature: Option<string>)
    | Append(p: nat, ok: bool)

  predicate Enabled(s: System, step: Step) {
    && step.p < |s.procs|
    && match step
       case Begin(p, _) => s.procs[p].phase.Idle?
       case ReadTip(p, _) => s.procs[p].phase.Locked?
       case AddLeaf(p, _) => s.procs[p].phase.TipRead?
       case Sign(p, _) => s.procs[p].phase.Rooted?
       case Append(p, _) => s.procs[p].phase.Signed?
  }

  function Leave(pr: Process, e: Exit): Process { pr.(phase := Idle, exits := pr.exits + [e]) }

  function PendingNode(c: Crypto, p: nat, pr: Process): Node
    requires pr.phase.Signed?
  {
    NodeFor(c, p, pr.mmr, pr.job, pr.phase.prev, pr.phase.root, pr.phase.signature, pr.phase.added)
  }

  function WriteOutcome(c: Crypto, s: System, p: nat, ok: bool): Write
    requires p < |s.procs| && s.procs[p].phase.Signed?
  {
    if !ok then WriteFailed
    else CompareAndAppend(c, s.chain, PendingNode(c, p, s.procs[p]), s.procs[p].phase.prev)
  }

  /** One step of one process; a step that is not enabled changes nothing. */
  function Apply(c: Crypto, s: System, step: Step): System {
    if !Enabled(s, step) then s
    else
      var p := step.p;
      var pr := s.procs[p];
      match step
      case Begin(_, job) => s.(procs := s.procs[p := pr.(job := job, phase := Locked)])
      case ReadTip(_, ok) =>
        s.(procs := s.procs[p := pr.(phase := TipRead(PrevHash(c, s.chain, ok)), seenLength := |s.chain|, readOk := ok)])
      case AddLeaf(_, ok) =>
        var leaf := LeafData(pr.job);
        var mmr := if ok then pr.mmr + [leaf] else pr.mmr;
        s.(procs := s.procs[p := pr.(mmr := mmr, phase := Rooted(pr.phase.prev, RootFor(c, mmr, leaf, ok), ok))])
      case Sign(_, signature) =>
        var ph := pr.phase;
        if signature.None? && pr.job.requireDurable
        then s.(procs := s.procs[p := Leave(pr, Exit(pr.job, SignFailed, ph.added, None))])
        else s.(procs := s.procs[p := pr.(phase := Signed(ph.prev, ph.root, ph.added, signature))])
      case Append(_, ok) =>
        var node := PendingNode(c, p, pr);
        var write := WriteOutcome(c, s, p, ok);
        System(
          if write.Appended? then s.chain + [node] else s.chain,
          s.procs[p := Leave(pr, Exit(pr.job, Wrote(write), pr.phase.added, Some(node)))])
  }

  function Exec(c: Crypto, s: System, steps: seq<Step>): System
    decreases |steps|
  {
    if steps == [] then s else Exec(c, Apply(c, s, steps[0]), steps[1..])
  }

  function Start(n: nat): System { System([], seq(n, _ => Process([], Job("", "", "", false), Idle, 0, true, []))) }

  // ---------------------------------------------------------------- the chain links

  /** Every node links to the node just before it, the first to the genesis hash. */
  ghost predicate Linked(c: Crypto, chain: seq<Node>) {
    && (chain != [] ==> chain[0].prev == c.genesis)
    && forall i :: 0 < i < |chain| ==> chain[i].prev == chain[i - 1].id
  }

  ghost predicate UniqueIds(chain: seq<Node>) {
    forall i, j :: 0 <= i < j < |chain| ==> chain[i].id != chain[j].id
  }

  /** While a process holds its lock past the tip read, what it remembers is still true of the chain. */
  ghost predicate Remembers(c: Crypto, chain: seq<Node>, p: nat, pr: Process) {
    pr.phase.Idle? || pr.phase.Locked? ||
    (&& pr.seenLength <= |chain|
     && pr.phase.prev == PrevHash(c, chain[..pr.seenLength], pr.readOk)
     && forall i :: pr.seenLength <= i < |chain| ==> chain[i].owner != p)
  }

  ghost predicate ChainInv(c: Crypto, s: System) {
    && Linked(c, s.chain) && UniqueIds(s.chain)
    && forall p :: 0 <= p < |s.procs| ==> Remembers(c, s.chain, p, s.procs[p])
  }

  lemma AppendLinked(c: Crypto, chain: seq<Node>, node: Node)
    requires Linked(c, chain) && UniqueIds(chain) && CompareAndAppend(c, chain, node, node.prev).Appended?
    ensures Linked(c, chain + [node]) && UniqueIds(chain + [node])
  {
    var longer := chain + [node];
    forall i | 0 < i < |longer| ensures longer[i].prev == longer[i - 1].id {
      if i < |chain| { assert longer[i] == chain[i] && longer[i - 1] == chain[i - 1]; }
    }
  }

  lemma RemembersGrowth(c: Crypto, chain: seq<Node>, node: Node, p: nat, pr: Process)
    requires Remembers(c, chain, p, pr) && node.owner != p
    ensures Remembers(c, chain + [node], p, pr)
  {
  }

  lemma StepChain(c: Crypto, s: System, step: Step)
    requires ChainInv(c, s)
    ensures ChainInv(c, Apply(c, s, step)) && s.chain <= Apply(c, s, step).chain
  {
    var after := Apply(c, s, step);
    if Enabled(s, step) && step.Append? && WriteOutcome(c, s, step.p, step.ok).Appended? {
      var node := PendingNode(c, step.p, s.procs[step.p]);
      AppendLinked(c, s.chain, node);
      forall p | 0 <= p < |s.procs| ensures Remembers(c, after.chain, p, after.procs[p]) {
        if p != step.p { RemembersGrowth(c, s.chain, node, p, s.procs[p]); }
      }
    } else if Enabled(s, step) && step.ReadTip? {
      assert s.chain[..|s.chain|] == s.chain;
    }
  }

  lemma {:induction false} ExecChain(c: Crypto, s: System, steps: seq<Step>)
    requires ChainInv(c, s)
    ensures ChainInv(c, Exec(c, s, steps)) && s.chain <= Exec(c, s, steps).chain
    decreases |steps|
  {
    if steps != [] {
      StepChain(c, s, steps[0]);
      ExecChain(c, Apply(c, s, steps[0]), steps[1..]);
    }
  }

  /**
   The chain never forks: over every interleaving of any number of processes with any failures,
   each node names its predecessor and, unless a hash equals the genesis constant, no two nodes
   name the same one. Stored nodes are never changed.
   */
  lemma ChainNeverForks(c: Crypto, n: nat, past: seq<Step>, future: seq<Step>)
    ensures var mid := Exec(c, Start(n), past);
            var end := Exec(c, mid, future);
            && Linked(c, end.chain) && UniqueIds(end.chain) && mid.chain <= end.chain
            && (!HasId(end.chain, c.genesis) ==>
                  forall i, j :: 0 <= i < j < |end.chain| ==> end.chain[i].prev != end.chain[j].prev)
  {
    ExecChain(c, Start(n), past);
    var mid := Exec(c, Start(n), past);
    ExecChain(c, mid, future);
    var chain := Exec(c, mid, future).chain;
    if !HasId(chain, c.genesis) { PrevsDiffer(c, chain); }
  }

  lemma PrevsDiffer(c: Crypto, chain: seq<Node>)
    requires Linked(c, chain) && UniqueIds(chain) && !HasId(chain, c.genesis)
    ensures forall i, j :: 0 <= i < j < |chain| ==> chain[i].prev != chain[j].prev
  {
    forall i, j | 0 <= i < j < |chain| ensures chain[i].prev != chain[j].prev {
      assert chain[j].prev == chain[j - 1].id;
      if i == 0 { assert chain[i].prev == c.genesis; } else { assert chain[i].prev == chain[i - 1].id; }
    }
  }

  // ----------------------------------------------------------------- refused appends

  /** Nodes appended by other processes since `p` read the tip. */
  function AppendedSince(s: System, p: nat): int
    requires p < |s.procs|
  {
    |s.chain| - s.procs[p].seenLength
  }

  /**
   Exactly when an append is refused: the tip could be read and another process has appended since,
   or it could not be read and the chain is not empty.
   */
  lemma RefusedIff(c: Crypto, s: System, p: nat)
    requires ChainInv(c, s) && p < |s.procs| && s.procs[p].phase.Signed?
    requires !HasId(s.chain, c.genesis)
    ensures WriteOutcome(c, s, p, true).Refused? <==>
            if s.procs[p].readOk then AppendedSince(s, p) > 0 else s.chain != []
    ensures forall i :: s.procs[p].seenLength <= i < |s.chain| ==> s.chain[i].owner != p
  {
  }

  ghost predicate ReadsSucceed(steps: seq<Step>) {
    forall i :: 0 <= i < |steps| && steps[i].ReadTip? ==> steps[i].ok
  }

  ghost predicate NoneRefused(pr: Process) {
    forall i :: 0 <= i < |pr.exits| ==> pr.exits[i].how != Wrote(Refused)
  }

  ghost predicate Alone(c: Crypto, s: System) {
    && |s.procs| == 1 && ChainInv(c, s) && NoneRefused(s.procs[0])
    && (forall i :: 0 <= i < |s.chain| ==> s.chain[i].owner == 0)
    && (s.procs[0].phase.Idle? || s.procs[0].phase.Locked? || s.procs[0].readOk)
  }

  /** Nobody else appends, so the tip is still the one that was read. */
  lemma AloneNotRefused(c: Crypto, s: System, ok: bool)
    requires Alone(c, s) && s.procs[0].phase.Signed?
    ensures !WriteOutcome(c, s, 0, ok).Refused?
  {
  }

  lemma StepAlone(c: Crypto, s: System, step: Step)
    requires Alone(c, s) && (step.ReadTip? ==> step.ok)
    ensures Alone(c, Apply(c, s, step))
  {
    hide Linked, UniqueIds, Remembers;
    StepChain(c, s, step);
    if Enabled(s, step) && step.Append? { AloneNotRefused(c, s, step.ok); }
  }

  /** In a single process whose tip reads succeed, no append is ever refused. */
  lemma {:induction false} NeverRefusedAlone(c: Crypto, s: System, steps: seq<Step>)
    requires Alone(c, s) && ReadsSucceed(steps)
    ensures Alone(c, Exec(c, s, steps)) && NoneRefused(Exec(c, s, steps).procs[0])
    decreases |steps|
  {
    if steps != [] {
      assert steps[0].ReadTip? ==> steps[0].ok;
      StepAlone(c, s, steps[0]);
      forall i | 0 <= i < |steps[1..]| && steps[1..][i].ReadTip? ensures steps[1..][i].ok {
        assert steps[1..][i] == steps[i + 1];
      }
      NeverRefusedAlone(c, Apply(c, s, steps[0]), steps[1..]);
    }
  }

  // ------------------------------------------------------- conservation of evidence

  /** `a` is a subsequence of `b`. */
  predicate Subsequence(a: seq<string>, b: seq<string>) {
    a == [] ||
    (b != [] &&
     (|| (a[|a| - 1] == b[|b| - 1] && Subsequence(a[..|a| - 1], b[..|b| - 1]))
      || Subsequence(a, b[..|b| - 1])))
  }

  /** The leaves of the MMR-rooted nodes that process `p` has in the chain. */
  function StoredLeaves(chain: seq<Node>, p: nat): seq<string> {
    if chain == [] then []
    else
      var last := chain[|chain| - 1];
      var rest := StoredLeaves(chain[..|chain| - 1], p);
      if last.owner == p && last.rooted then rest + [last.leaf] else rest
  }

  /** Exits after a successful `add_leaf` whose node did not enter the chain. */
  function LostLeaves(exits: seq<Exit>): nat {
    if exits == [] then 0
    else
      var e := exits[|exits| - 1];
      LostLeaves(exits[..|exits| - 1]) + if e.added && e.how != Wrote(Appended) then 1 else 0
  }

  predicate LeafPending(pr: Process) { (pr.phase.Rooted? || pr.phase.Signed?) && pr.phase.added }

  ghost predicate Conserves(chain: seq<Node>, p: nat, pr: Process) {
    var stored := StoredLeaves(chain, p);
    if LeafPending(pr) then
      && pr.mmr != [] && pr.mmr[|pr.mmr| - 1] == LeafData(pr.job)
      && Subsequence(stored, pr.mmr[..|pr.mmr| - 1])
      && |pr.mmr| == |stored| + LostLeaves(pr.exits) + 1
    else
      && Subsequence(stored, pr.mmr)
      && |pr.mmr| == |stored| + LostLeaves(pr.exits)
  }

  ghost predicate AllConserve(s: System) {
    forall p :: 0 <= p < |s.procs| ==> Conserves(s.chain, p, s.procs[p])
  }

  lemma StoredStep(chain: seq<Node>, node: Node, p: nat)
    ensures StoredLeaves(chain + [node], p) ==
            if node.owner == p && node.rooted then StoredLeaves(chain, p) + [node.leaf] else StoredLeaves(chain, p)
  {
  }

  /** Process `p` leaves the critical section with exit `e`, having stored `node` or nothing. */
  lemma ConservesLeave(chain: seq<Node>, p: nat, pr: Process, e: Exit, node: Node)
    requires Conserves(chain, p, pr) && (pr.phase.Rooted? || pr.phase.Signed?)
    requires e.added == pr.phase.added && node.owner == p && node.rooted == pr.phase.added && node.leaf == LeafData(pr.job)
    ensures Conserves(if e.how == Wrote(Appended) then chain + [node] else chain, p, Leave(pr, e))
  {
  }

  lemma ConservesAdd(chain: seq<Node>, p: nat, pr: Process, after: Process)
    requires Conserves(chain, p, pr) && pr.phase.TipRead? && after.phase.Rooted?
    requires after.exits == pr.exits && after.job == pr.job
    requires after.mmr == if after.phase.added then pr.mmr + [LeafData(pr.job)] else pr.mmr
    ensures Conserves(chain, p, after)
  {
  }

  lemma ConservesSelf(c: Crypto, s: System, step: Step)
    requires Enabled(s, step) && Conserves(s.chain, step.p, s.procs[step.p])
    ensures var after := Apply(c, s, step); Conserves(after.chain, step.p, after.procs[step.p])
  {
    var p, pr, after := step.p, s.procs[step.p], Apply(c, s, step);
    match step {
      case AddLeaf(_, ok) => ConservesAdd(s.chain, p, pr, after.procs[p]);
      case Sign(_, signature) =>
        if signature.None? && pr.job.requireDurable {
          var e := Exit(pr.job, SignFailed, pr.phase.added, None);
          ConservesLeave(s.chain, p, pr, e, NodeFor(c, p, pr.mmr, pr.job, "", "", None, pr.phase.added));
        }
      case Append(_, ok) =>
        var node := PendingNode(c, p, pr);
        var write := WriteOutcome(c, s, p, ok);
        ConservesLeave(s.chain, p, pr, Exit(pr.job, Wrote(write), pr.phase.added, Some(node)), node);
      case _ =>
    }
  }

  /** What a pending leaf becomes when its task leaves: part of the sequence, stored or lost. */
  lemma Requeue(chain: seq<Node>, p: nat, pr: Process)
    requires Conserves(chain, p, pr)
    ensures LeafPending(pr) ==>
              && Subsequence(StoredLeaves(chain, p), pr.mmr)
              && Subsequence(StoredLeaves(chain, p) + [LeafData(pr.job)], pr.mmr)
  {
  }

  lemma StepConserves(c: Crypto, s: System, step: Step)
    requires AllConserve(s)
    ensures AllConserve(Apply(c, s, step))
  {
    var after := Apply(c, s, step);
    forall p | 0 <= p < |after.procs| ensures Conserves(after.chain, p, after.procs[p]) {
      assert Conserves(s.chain, p, s.procs[p]);
      if Enabled(s, step) {
        if p == step.p {
          ConservesSelf(c, s, step);
        } else if step.Append? {
          StoredStep(s.chain, PendingNode(c, step.p, s.procs[step.p]), p);
        }
      }
    }
  }

  lemma {:induction false} ExecConserves(c: Crypto, s: System, steps: seq<Step>)
    requires AllConserve(s)
    ensures AllConserve(Exec(c, s, steps))
    decreases |steps|
  {
    if steps != [] {
      StepConserves(c, s, steps[0]);
      ExecConserves(c, Apply(c, s, steps[0]), steps[1..]);
    }
  }

  /** Exits reported as failed after a successful `add_leaf`. */
  function FailedLeaves(exits: seq<Exit>): nat {
    if exits == [] then 0
    else
      var e := exits[|exits| - 1];
      FailedLeaves(exits[..|exits| - 1]) + if e.added && !Succeeded(e) then 1 else 0
  }

  /** Exits reported as successful after `add_leaf` although the store ignored their node. */
  function IgnoredLeaves(exits: seq<Exit>): nat {
    if exits == [] then 0
    else
      var e := exits[|exits| - 1];
      IgnoredLeaves(exits[..|exits| - 1]) + if e.added && e.how == Wrote(Ignored) then 1 else 0
  }

  lemma {:induction false} LostIsFailedOrIgnored(exits: seq<Exit>)
    ensures LostLeaves(exits) == FailedLeaves(exits) + IgnoredLeaves(exits)
    ensures IgnoredLeaves(exits) == 0 <==> forall e :: e in exits && e.added ==> e.how != Wrote(Ignored)
  {
    if exits != [] {
      var front, last := exits[..|exits| - 1], exits[|exits| - 1];
      LostIsFailedOrIgnored(front);
      assert exits == front + [last];
    }
  }

  /**
   Conservation, over every interleaving: the leaves of a process's rooted nodes are a subsequence
   of its MMR leaves. The gap is the exits after `add_leaf` that were reported as failed, those
   whose node the store ignored, and the leaf in progress; so it is the failures alone exactly
   when no rooted node was ignored.
   */
  lemma EvidenceConservation(c: Crypto, n: nat, steps: seq<Step>, p: nat)
    requires p < |Exec(c, Start(n), steps).procs|
    ensures var s := Exec(c, Start(n), steps);
            var pr := s.procs[p];
            var stored := StoredLeaves(s.chain, p);
            var pending := if LeafPending(pr) then 1 else 0;
            && Subsequence(stored, pr.mmr)
            && |pr.mmr| - |stored| == FailedLeaves(pr.exits) + IgnoredLeaves(pr.exits) + pending
            && (|pr.mmr| - |stored| == FailedLeaves(pr.exits) + pending <==>
                  forall e :: e in pr.exits && e.added ==> e.how != Wrote(Ignored))
  {
    ExecConserves(c, Start(n), steps);
    var s := Exec(c, Start(n), steps);
    assert Conserves(s.chain, p, s.procs[p]);
    Requeue(s.chain, p, s.procs[p]);
    LostIsFailedOrIgnored(s.procs[p].exits);
  }
}
