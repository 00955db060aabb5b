/**
 The critical section of `_run_forensic_analytics` (aegis_server/main.py) as the code runs it, with
 its early returns, against a store object. Run without interference it takes exactly the five
 steps of `Chain` in order.
 */
module ChainWorker {
  import opened Common
  import opened Chain

  /** Which of the four operations succeed; None is a signer that raises. */
  datatype Faults = Faults(readOk: bool, leafOk: bool, signature: Option<string>, writeOk: bool)

  class AuditStore {
    const crypto: Crypto
    var chain: seq<Node>

    constructor (crypto: Crypto)
      ensures this.crypto == crypto && chain == []
    {
      this.crypto := crypto;
      chain := [];
    }

    /** Compare-and-append in one indivisible step. */
    method WriteNodeAtomic(node: Node, expected: string) returns (write: Write)
      modifies this
      ensures write == CompareAndAppend(crypto, old(chain), node, expected)
      ensures write.Refused? <==> expected != if old(chain) == [] then crypto.genesis else old(chain)[|old(chain)| - 1].id
      ensures write.Ignored? <==> !write.Refused? && exists i :: 0 <= i < |old(chain)| && old(chain)[i].id == node.id
      ensures !write.WriteFailed?
      ensures chain == if write.Appended? then old(chain) + [node] else old(chain)
    {
      var tip := if chain == [] then crypto.genesis else chain[|chain| - 1].id;
      if tip != expected {
        return Refused;
      }
      var i := 0;
      while i < |chain|
        invariant 0 <= i <= |chain| && chain == old(chain)
        invariant forall k :: 0 <= k < i ==> chain[k].id != node.id
      {
        if chain[i].id == node.id {
          return Ignored;
        }
        i := i + 1;
      }
      chain := chain + [node];
      return Appended;
    }
  }

  function Section(p: nat, job: Job, f: Faults): seq<Step> {
    [Begin(p, job), ReadTip(p, f.readOk), AddLeaf(p, f.leafOk), Sign(p, f.signature), Append(p, f.writeOk)]
  }

  /** The store, the MMR and the exit after one critical section of process `p`. */
  datatype Outcome = Outcome(chain: seq<Node>, mmr: seq<string>, exit: Exit)

  function RunSection(c: Crypto, p: nat, chain: seq<Node>, mmr: seq<string>, job: Job, f: Faults): Outcome {
    var prev := PrevHash(c, chain, f.readOk);
    var grown := if f.leafOk then mmr + [LeafData(job)] else mmr;
    var root := RootFor(c, grown, LeafData(job), f.leafOk);
    if f.signature.None? && job.requireDurable
    then Outcome(chain, grown, Exit(job, SignFailed, f.leafOk, None))
    else
      var node := NodeFor(c, p, grown, job, prev, root, f.signature, f.leafOk);
      var write := if f.writeOk then CompareAndAppend(c, chain, node, prev) else WriteFailed;
      Outcome(if write.Appended? then chain + [node] else chain, grown,
              Exit(job, Wrote(write), f.leafOk, Some(node)))
  }

  /**
   What the section does, said of the request: which leaf is added, when the commit succeeds, and
   the node it stores.
   */
  lemma SectionMeaning(c: Crypto, p: nat, chain: seq<Node>, mmr: seq<string>, job: Job, f: Faults)
    ensures var r := RunSection(c, p, chain, mmr, job, f);
            var leaf := job.requestHash + job.responseHash + job.timestamp;
            var tip := if chain == [] then c.genesis else chain[|chain| - 1].id;
            var root := if f.leafOk then c.mmrRoot(mmr + [leaf]) else c.hash(leaf);
            var id := c.hash(root + if f.signature.Some? then f.signature.value else "");
            && r.mmr == (if f.leafOk then mmr + [leaf] else mmr)
            && (Succeeded(r.exit) <==>
                  && (f.signature.Some? || !job.requireDurable) && f.writeOk && (f.readOk || tip == c.genesis))
            && (if Succeeded(r.exit) && !HasId(chain, id)
                then r.chain == chain + [Node(id, tip, job.requestHash, job.responseHash, job.timestamp, root, f.signature, p, leaf, f.leafOk, r.mmr)]
                else r.chain == chain)
  {
  }

  /** Every successful commit answers with the upstream status as durable, every other with 503 as unavailable. */
  lemma ResponseMeaning(e: Exit, status: nat)
    ensures e.how == Wrote(Appended) || e.how == Wrote(Ignored) ==> Response(e, status) == (status, "durable")
    ensures e.how == SignFailed || e.how == Wrote(Refused) || e.how == Wrote(WriteFailed) ==> Response(e, status) == (503, "unavailable")
  {
  }

  lemma {:induction false} ExecFive(c: Crypto, s: System, a: Step, b: Step, d: Step, e: Step, g: Step)
    ensures Exec(c, s, [a, b, d, e, g]) == Apply(c, Apply(c, Apply(c, Apply(c, Apply(c, s, a), b), d), e), g)
  {
    hide Apply;
    assert [a, b, d, e, g][1..] == [b, d, e, g] && [b, d, e, g][1..] == [d, e, g];
    assert [d, e, g][1..] == [e, g] && [e, g][1..] == [g] && [g][1..] == [];
    var s1, s2 := Apply(c, s, a), Apply(c, Apply(c, s, a), b);
    assert Exec(c, s, [a, b, d, e, g]) == Exec(c, s1, [b, d, e, g]) == Exec(c, s2, [d, e, g]);
    var s3 := Apply(c, s2, d);
    assert Exec(c, s2, [d, e, g]) == Exec(c, s3, [e, g]) == Exec(c, Apply(c, s3, e), [g]);
  }

  /** Undisturbed, the critical section is five steps of the protocol, in any system in which `p` is idle. */
  lemma SectionIsFiveSteps(c: Crypto, s: System, p: nat, job: Job, f: Faults)
    requires p < |s.procs| && s.procs[p].phase.Idle?
    ensures var after := Exec(c, s, Section(p, job, f));
            var r := RunSection(c, p, s.chain, s.procs[p].mmr, job, f);
            && after.chain == r.chain && |after.procs| == |s.procs|
            && after.procs[p].mmr == r.mmr && after.procs[p].exits == s.procs[p].exits + [r.exit]
            && after.procs[p].phase.Idle?
            && forall q :: 0 <= q < |s.procs| && q != p ==> after.procs[q] == s.procs[q]
  {
    ExecFive(c, s, Begin(p, job), ReadTip(p, f.readOk), AddLeaf(p, f.leafOk), Sign(p, f.signature), Append(p, f.writeOk));
    var s1 := Apply(c, s, Begin(p, job));
    var s2 := Apply(c, s1, ReadTip(p, f.readOk));
    assert s2.procs[p].phase == TipRead(PrevHash(c, s.chain, f.readOk));
    var s3 := Apply(c, s2, AddLeaf(p, f.leafOk));
    assert s3.procs[p].phase.Rooted? && s3.procs[p].job == job;
    var s4 := Apply(c, s3, Sign(p, f.signature));
    var s5 := Apply(c, s4, Append(p, f.writeOk));
    assert Exec(c, s, Section(p, job, f)) == s5;
  }

  /**
   Two processes commit the same request and response at the same instant with one deterministic
   signer: the second node has the first one's id, the store ignores it, and both exits are
   durable over one node. The second process's MMR leaf is stored nowhere although nothing failed.
   */
  lemma SameRequestSharesNode(c: Crypto, job: Job, signature: string)
    requires job.requireDurable
    ensures var f := Faults(true, true, Some(signature), true);
            var first := Exec(c, Start(2), Section(0, job, f));
            var s := Exec(c, first, Section(1, job, f));
            && |s.chain| == 1 && |s.procs| == 2 && |s.procs[0].exits| == |s.procs[1].exits| == 1
            && s.procs[0].exits[0].how == Wrote(Appended) && s.procs[1].exits[0].how == Wrote(Ignored)
            && Response(s.procs[0].exits[0], 200) == Response(s.procs[1].exits[0], 200) == (200, "durable")
            && s.procs[1].mmr == [LeafData(job)] && StoredLeaves(s.chain, 1) == [] && FailedLeaves(s.procs[1].exits) == 0
  {
    hide Exec, Section;
    var f := Faults(true, true, Some(signature), true);
    var first := Exec(c, Start(2), Section(0, job, f));
    SectionIsFiveSteps(c, Start(2), 0, job, f);
    assert |first.chain| == 1;
    assert first.procs[1] == Start(2).procs[1];
    SectionIsFiveSteps(c, first, 1, job, f);
    var s := Exec(c, first, Section(1, job, f));
    assert s.procs[0] == first.procs[0];
    assert s.chain == first.chain && s.chain[..0] == [];
    assert s.procs[1].exits[..0] == [];
  }

  class Worker {
    const crypto: Crypto
    const p: nat
    var mmr: seq<string>

    constructor (crypto: Crypto, p: nat)
      ensures this.crypto == crypto && this.p == p && mmr == []
    {
      this.crypto := crypto;
      this.p := p;
      mmr := [];
    }

    /** Returns what the caller is told, and how it came about. */
    method RunForensicAnalytics(store: AuditStore, job: Job, f: Faults) returns (committed: bool, ghost exit: Exit)
      requires store.crypto == crypto
      modifies this, store
      ensures Outcome(store.chain, mmr, exit) == RunSection(crypto, p, old(store.chain), old(mmr), job, f)
      ensures committed <==> Succeeded(exit)
    {
      var prev := crypto.genesis;
      if f.readOk && store.chain != [] {
        prev := store.chain[|store.chain| - 1].id;
      }
      var leaf := job.requestHash + job.responseHash + job.timestamp;
      var root: string;
      if f.leafOk {
        mmr := mmr + [leaf];
        root := crypto.mmrRoot(mmr);
      } else {
        root := crypto.hash(leaf);
      }
      var signature := "";
      if f.signature.Some? {
        signature := f.signature.value;
      } else if job.requireDurable {
        return false, Exit(job, SignFailed, f.leafOk, None);
      }
      var node := Node(crypto.hash(root + signature), prev, job.requestHash, job.responseHash, job.timestamp, root, f.signature, p, leaf, f.leafOk, mmr);
      var write := WriteFailed;
      if f.writeOk {
        write := store.WriteNodeAtomic(node, prev);
      }
      return write.Appended? || write.Ignored?, Exit(job, Wrote(write), f.leafOk, Some(node));
    }
  }
}
