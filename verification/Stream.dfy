/**
 The streaming wrapper of the embedded mode (aegis/embedded.py): a holdback buffer, a redactor
 that releases text late, three ways to end, and one terminal commit ordered against delivery.

 The redactor is any deterministic feed/flush object, given by what it answers after each history
 of texts fed to it; None stands for an exception. The hash is over the bytes in `body`.
 */
module Stream {
  import opened Common
  import opened Utf8

  // ------------------------------------------------------------------------ chunks

  /** `content` is `choices[0].delta.content` and `text` is `delta.text`, where they are strings. */
  datatype Chunk = Chunk(content: Option<string>, text: Option<string>, writable: bool, payload: string)

  function ChunkText(c: Chunk): string {
    if c.content.Some? then c.content.value else if c.text.Some? then c.text.value else ""
  }

  /** The rewritten chunk, or None when the rewrite does not take effect. */
  function SetChunkText(c: Chunk, t: string): Option<Chunk> {
    if !c.writable then None
    else if c.content.Some? then Some(c.(content := Some(t)))
    else if c.text.Some? then Some(c.(text := Some(t)))
    else None
  }

  predicate Rewritable(c: Chunk) { c.writable && (c.content.Some? || c.text.Some?) }

  /** A rewrite that takes effect changes what is read and nothing else, and can be repeated. */
  lemma SetThenRead(c: Chunk, t: string)
    ensures var d := SetChunkText(c, t);
            d.Some? ==>
              && ChunkText(d.value) == t
              && SetChunkText(d.value, ChunkText(c)) == Some(c)
              && Rewritable(d.value)
  {
  }

  function TextOf(chunks: seq<Chunk>): string {
    if chunks == [] then "" else ChunkText(chunks[0]) + TextOf(chunks[1..])
  }

  lemma {:induction false} TextOfAppend(a: seq<Chunk>, b: seq<Chunk>)
    ensures TextOf(a + b) == TextOf(a) + TextOf(b)
    decreases |a|
  {
    if a == [] {
      assert a + b == b;
    } else {
      assert (a + b)[0] == a[0] && (a + b)[1..] == a[1..] + b;
      TextOfAppend(a[1..], b);
    }
  }

  // ---------------------------------------------------------------------- recorder

  datatype Redactor =
    | Off
    | On(feed: (seq<string>, string) -> Option<string>, flush: seq<string> -> Option<string>)

  const PREVIEW_LIMIT := 4096

  /** What the terminal commit is asked to record; `body` is what `response_hash` is computed from. */
  datatype Summary = Summary(body: bytes, size: nat, preview: bytes, tokens: nat)

  datatype Seen = NoText | HasText | Raised

  lemma {:induction false} ConcatAppend(parts: seq<bytes>, last: bytes)
    ensures Concat(parts + [last]) == Concat(parts) + last
  {
    if parts != [] {
      assert (parts + [last])[0] == parts[0] && (parts + [last])[1..] == parts[1..] + [last];
      ConcatAppend(parts[1..], last);
    } else {
      assert parts + [last] == [last] && [last][1..] == [];
    }
  }

  function Clip(b: bytes): bytes { if |b| <= PREVIEW_LIMIT then b else b[..PREVIEW_LIMIT] }

  /** Filling the room left in a clipped prefix clips the whole. */
  lemma ClipAppend(a: bytes, b: bytes)
    ensures var room := PREVIEW_LIMIT - |Clip(a)|;
            room >= 0 && Clip(a + b) == if room == 0 then Clip(a) else Clip(a) + if |b| <= room then b else b[..room]
  {
    var room := PREVIEW_LIMIT - |Clip(a)|;
    if room == 0 {
      assert (a + b)[..PREVIEW_LIMIT] == a[..PREVIEW_LIMIT];
    } else if |b| > room {
      assert (a + b)[..PREVIEW_LIMIT] == a + b[..room];
    }
  }

  class StreamRecorder {
    const redactor: Redactor
    var parts: seq<bytes>
    var size: nat
    var tokens: nat
    var preview: bytes
    var fed: seq<string>
    ghost var recorded: string

    ghost predicate Valid()
      reads this
    {
      && Concat(parts) == Encode(recorded)
      && size == |Encode(recorded)|
      && preview == Clip(Encode(recorded))
    }

    constructor (redactor: Redactor)
      ensures Valid() && this.redactor == redactor && recorded == "" && fed == [] && tokens == 0
    {
      this.redactor := redactor;
      parts, size, tokens, preview, fed, recorded := [], 0, 0, [], [], "";
    }

    method Record(text: string)
      requires Valid()
      modifies `parts, `size, `preview, `recorded
      ensures Valid() && recorded == old(recorded) + text
    {
      hide Concat, Encode, Clip;
      var encoded := Encode(text);
      EncodeAppend(recorded, text);
      ClipAppend(Encode(recorded), encoded);
      ConcatAppend(parts, encoded);
      parts := parts + [encoded];
      size := size + |encoded|;
      if |preview| < PREVIEW_LIMIT {
        var room := PREVIEW_LIMIT - |preview|;
        preview := preview + (if |encoded| <= room then encoded else encoded[..room]);
      }
      recorded := recorded + text;
    }

    /** Account for one chunk; the returned chunk carries the text that will be delivered. */
    method Observe(chunk: Chunk) returns (seen: Seen, out: Chunk)
      requires Valid()
      modifies this
      ensures Valid()
      ensures seen.NoText? <==> ChunkText(chunk) == ""
      ensures seen.NoText? ==> out == chunk && recorded == old(recorded) && fed == old(fed) && tokens == old(tokens)
      ensures seen.HasText? ==> recorded == old(recorded) + ChunkText(out) && tokens == old(tokens) + 1
      ensures seen.HasText? && redactor.Off? ==> out == chunk
      ensures seen.HasText? && redactor.On? ==>
                && redactor.feed(old(fed), ChunkText(chunk)) == Some(ChunkText(out))
                && SetChunkText(chunk, ChunkText(out)) == Some(out) && Rewritable(out)
      ensures seen.Raised? ==> redactor.On? && recorded == old(recorded) && tokens == old(tokens) + 1
      ensures seen.Raised? ==>
                || redactor.feed(old(fed), ChunkText(chunk)).None?
                || SetChunkText(chunk, redactor.feed(old(fed), ChunkText(chunk)).value).None?
      ensures fed == if seen.NoText? || redactor.Off? then old(fed) else old(fed) + [ChunkText(chunk)]
    {
      var text := ChunkText(chunk);
      out := chunk;
      if text == "" {
        return NoText, chunk;
      }
      tokens := tokens + 1;
      if redactor.Off? {
        Record(text);
        return HasText, chunk;
      }
      var settled := redactor.feed(fed, text);
      fed := fed + [text];
      if settled.None? {
        return Raised, chunk;
      }
      var rewritten := SetChunkText(chunk, settled.value);
      if rewritten.None? {
        return Raised, chunk;
      }
      SetThenRead(chunk, settled.value);
      Record(settled.value);
      return HasText, rewritten.value;
    }

    /** Drain the holdback; None when the redactor's flush raises. */
    method Finalize() returns (result: Option<(Summary, string)>)
      requires Valid()
      modifies this
      ensures Valid() && fed == old(fed) && tokens == old(tokens)
      ensures result.None? <==> redactor.On? && redactor.flush(fed).None?
      ensures result.Some? ==>
                var (summary, tail) := result.value;
                && tail == (if redactor.Off? then "" else redactor.flush(fed).value)
                && recorded == old(recorded) + tail
                && summary == Summary(Encode(recorded), |Encode(recorded)|, Clip(Encode(recorded)), tokens)
    {
      var tail := "";
      if redactor.On? {
        var flushed := redactor.flush(fed);
        if flushed.None? {
          return None;
        }
        tail := flushed.value;
      }
      if tail != "" {
        Record(tail);
      }
      return Some((Summary(Concat(parts), size, preview, tokens), tail));
    }
  }

  // ----------------------------------------------------------------------- wrapper

  datatype Outcome = Complete | ClientDisconnect | UpstreamError

  /** One call of the ledger's terminal commit. */
  datatype Commit = Commit(outcome: Outcome, summary: Summary)

  /**
   One run of the generator. `before` and `after` are the chunks the consumer received before and
   after the terminal commit was called; `held` are the chunks consumed from the source but not
   delivered by then, as they stand after the commit call; `consumed` are the chunks accepted from
   the source, carrying the text the recorder settled for them, and `taken` counts the chunks
   pulled from it. `commits` are the ledger commits attempted, and `recorded` is the text that
   was hashed.
   */
  datatype Run = Run(
    before: seq<Chunk>, held: seq<Chunk>, after: seq<Chunk>, consumed: seq<Chunk>,
    taken: nat, outcome: Outcome, commits: seq<Commit>, recorded: string)

  /** The environment: the source's chunks, whether it then raises, and when the consumer closes. */
  datatype World = World(stream: seq<Chunk>, raises: bool, closesAfter: Option<nat>, ledgerFails: bool)

  predicate ClosesAt(w: World, received: nat) { w.closesAfter == Some(received) }

  /** The consumer has not closed after the first `received` chunks. */
  predicate StillOpen(w: World, received: nat) { w.closesAfter.Some? ==> received < w.closesAfter.value }

  /** `yield from pending`: how many chunks were received, and whether the consumer closed on the last. */
  method YieldAll(w: World, received: nat, pending: seq<Chunk>) returns (sent: nat, closed: bool)
    requires StillOpen(w, received)
    ensures sent <= |pending|
    ensures if closed then sent > 0 && ClosesAt(w, received + sent) else sent == |pending| && StillOpen(w, received + sent)
  {
    sent := 0;
    while sent < |pending|
      invariant 0 <= sent <= |pending| && StillOpen(w, received + sent)
    {
      sent := sent + 1;
      if ClosesAt(w, received + sent) {
        return sent, true;
      }
    }
    return sent, false;
  }

  predicate Bears(c: Chunk) { ChunkText(c) != "" }

  /** The position of the last text-bearing chunk among the first `n`, -1 when there is none. */
  function LastText(stream: seq<Chunk>, n: nat): int
    requires n <= |stream|
  {
    if n == 0 then -1 else if Bears(stream[n - 1]) then n - 1 else LastText(stream, n - 1)
  }

  lemma {:induction false} LastTextIsLast(stream: seq<Chunk>, n: nat)
    requires n <= |stream|
    ensures -1 <= LastText(stream, n) < n
    ensures LastText(stream, n) >= 0 ==> Bears(stream[LastText(stream, n)])
    ensures forall i :: 0 <= i < n && i > LastText(stream, n) ==> !Bears(stream[i])
  {
    if n > 0 && !Bears(stream[n - 1]) { LastTextIsLast(stream, n - 1); }
  }

  /** The texts handed to the redactor by the first `n` chunks. */
  function Texts(stream: seq<Chunk>, n: nat): seq<string>
    requires n <= |stream|
  {
    if n == 0 then []
    else if Bears(stream[n - 1]) then Texts(stream, n - 1) + [ChunkText(stream[n - 1])]
    else Texts(stream, n - 1)
  }

  /** The chunk the source gave, carrying the text the redactor settled for it; one without text is left alone. */
  predicate SettledAt(r: Redactor, stream: seq<Chunk>, i: nat, out: Chunk)
    requires i < |stream|
  {
    if r.Off? || !Bears(stream[i]) then out == stream[i]
    else
      var text := r.feed(Texts(stream, i), ChunkText(stream[i]));
      text.Some? && SetChunkText(stream[i], text.value) == Some(out)
  }

  /** The redactor raised on chunk `i`, or its text could not be put into the chunk. */
  predicate Breaks(r: Redactor, stream: seq<Chunk>, i: nat)
    requires i < |stream|
  {
    && r.On? && Bears(stream[i])
    && var text := r.feed(Texts(stream, i), ChunkText(stream[i]));
       text.None? || SetChunkText(stream[i], text.value).None?
  }

  /** `consumed` are the first chunks of the source, each with its settled text. */
  ghost predicate Settled(r: Redactor, stream: seq<Chunk>, consumed: seq<Chunk>) {
    |consumed| <= |stream| && forall i :: 0 <= i < |consumed| ==> SettledAt(r, stream, i, consumed[i])
  }

  lemma SettledStep(r: Redactor, stream: seq<Chunk>, consumed: seq<Chunk>, out: Chunk)
    requires Settled(r, stream, consumed) && |consumed| < |stream| && SettledAt(r, stream, |consumed|, out)
    ensures Settled(r, stream, consumed + [out])
  {
    hide SettledAt;
  }

  /** The last text-bearing chunk of the first `n`, if there is one, is not among the first `delivered`. */
  predicate HoldsLastText(stream: seq<Chunk>, n: nat, delivered: nat)
    requires n <= |stream|
  {
    LastText(stream, n) == -1 || delivered <= LastText(stream, n)
  }

  /** The state at the head of the generator's loop, after `n` chunks of the source were taken. */
  ghost predicate LoopInv(r: Redactor, stream: seq<Chunk>, n: nat, delivered: seq<Chunk>, buffer: seq<Chunk>, recorded: string, fed: seq<string>) {
    && |delivered| + |buffer| == n <= |stream|
    && Settled(r, stream, delivered + buffer)
    && TextOf(delivered) + TextOf(buffer) == recorded
    && LastText(stream, n) == (if buffer == [] then -1 else |delivered|)
    && (buffer != [] ==> TextOf(buffer) == ChunkText(buffer[0]))
    && (buffer == [] ==> fed == [])
    && (buffer != [] && r.On? ==> Rewritable(buffer[0]))
  }

  lemma TextStep(consumed: seq<Chunk>, out: Chunk)
    ensures TextOf(consumed + [out]) == TextOf(consumed) + ChunkText(out)
  {
    TextOfAppend(consumed, [out]);
    assert TextOf([out]) == ChunkText(out) + TextOf([]);
    assert [] + [out] == [out];
  }

  /** A text-bearing chunk supersedes the buffer. */
  lemma StepText(r: Redactor, stream: seq<Chunk>, n: nat, delivered: seq<Chunk>, buffer: seq<Chunk>, recorded: string, fed: seq<string>,
                 out: Chunk, fed': seq<string>)
    requires n < |stream| && LoopInv(r, stream, n, delivered, buffer, recorded, fed)
    requires Bears(stream[n]) && SettledAt(r, stream, n, out)
    ensures LoopInv(r, stream, n + 1, delivered + buffer, [out], recorded + ChunkText(out), fed')
  {
    hide Settled, SettledAt, TextOf, ChunkText, SetChunkText, Rewritable;
    SettledStep(r, stream, delivered + buffer, out);
    TextOfAppend(delivered, buffer);
    TextStep([], out);
    NoText();
    assert [] + [out] == [out] && TextOf([out]) == ChunkText(out);
    SettledRewritable(r, stream, n, out);
  }

  lemma NoText()
    ensures TextOf([]) == ""
  {
  }

  lemma SettledRewritable(r: Redactor, stream: seq<Chunk>, n: nat, out: Chunk)
    requires n < |stream| && Bears(stream[n]) && SettledAt(r, stream, n, out)
    ensures r.On? ==> Rewritable(out)
  {
    if r.On? { SetThenRead(stream[n], r.feed(Texts(stream, n), ChunkText(stream[n])).value); }
  }

  /** Any other chunk waits behind a non-empty buffer ... */
  lemma StepWait(r: Redactor, stream: seq<Chunk>, n: nat, delivered: seq<Chunk>, buffer: seq<Chunk>, recorded: string, fed: seq<string>)
    requires n < |stream| && LoopInv(r, stream, n, delivered, buffer, recorded, fed)
    requires !Bears(stream[n]) && buffer != []
    ensures LoopInv(r, stream, n + 1, delivered, buffer + [stream[n]], recorded, fed)
  {
    hide Settled, TextOf;
    TextStep(buffer, stream[n]);
    SettledStep(r, stream, delivered + buffer, stream[n]);
    assert (buffer + [stream[n]])[0] == buffer[0];
    assert delivered + (buffer + [stream[n]]) == delivered + buffer + [stream[n]];
  }

  /** ... and passes when there is none. */
  lemma StepPass(r: Redactor, stream: seq<Chunk>, n: nat, delivered: seq<Chunk>, recorded: string, fed: seq<string>)
    requires n < |stream| && LoopInv(r, stream, n, delivered, [], recorded, fed)
    requires !Bears(stream[n])
    ensures LoopInv(r, stream, n + 1, delivered + [stream[n]], [], recorded, fed)
  {
    hide Settled, TextOf;
    TextStep(delivered, stream[n]);
    assert delivered + [] == delivered;
    SettledStep(r, stream, delivered, stream[n]);
    assert delivered + [stream[n]] + [] == delivered + [stream[n]];
  }

  /** Delivered chunks are a prefix of the consumed ones, so their text is a prefix of the recorded text. */
  lemma DeliveredPrefix(consumed: seq<Chunk>, n: nat)
    requires n <= |consumed|
    ensures TextOf(consumed[..n]) <= TextOf(consumed)
  {
    assert consumed == consumed[..n] + consumed[n..];
    TextOfAppend(consumed[..n], consumed[n..]);
  }

  /** Exactly the chunks before the last text-bearing one have been delivered. */
  predicate Withholds(stream: seq<Chunk>, consumed: nat, delivered: nat)
    requires consumed <= |stream|
  {
    delivered == if LastText(stream, consumed) == -1 then consumed else LastText(stream, consumed)
  }

  /** The consumer closed on a chunk passed at once, or while a text-bearing chunk was releasing the buffer. */
  predicate ClosedOn(stream: seq<Chunk>, taken: nat, delivered: nat)
    requires taken <= |stream|
  {
    || (delivered == taken > 0 && LastText(stream, taken) == -1)
    || (0 < delivered < taken && Bears(stream[taken - 1]) && 0 <= LastText(stream, taken - 1) < delivered)
  }

  /** How the run ended; `delivered` counts the chunks received before the commit. */
  predicate Ended(r: Redactor, w: World, outcome: Outcome, taken: nat, consumed: nat, delivered: nat) {
    && consumed <= taken <= |w.stream|
    && (if outcome.ClientDisconnect? then ClosesAt(w, delivered) else StillOpen(w, delivered) && Withholds(w.stream, consumed, delivered))
    && match outcome
       case Complete => !w.raises && taken == |w.stream| == consumed
       case ClientDisconnect => consumed == taken && ClosedOn(w.stream, taken, delivered)
       case UpstreamError =>
         (w.raises && taken == |w.stream| == consumed) || (consumed + 1 == taken && Breaks(r, w.stream, consumed))
  }

  /** The text the redactor still holds after the first `taken` chunks. */
  function TailOf(r: Redactor, stream: seq<Chunk>, taken: nat): string
    requires taken <= |stream|
  {
    if r.Off? || r.flush(Texts(stream, taken)).None? then "" else r.flush(Texts(stream, taken)).value
  }

  /** The chunk with the tail appended to its text, and nothing else changed. */
  predicate TailAdded(c: Chunk, tail: string, out: Chunk) {
    if tail == "" then out == c else SetChunkText(c, ChunkText(c) + tail) == Some(out)
  }

  predicate TailAttached(buffer: seq<Chunk>, tail: string, held: seq<Chunk>) {
    && |held| == |buffer|
    && (forall i :: 0 < i < |held| ==> held[i] == buffer[i])
    && (held != [] ==> TailAdded(buffer[0], tail, held[0]))
  }

  /** Delivered and held chunks are the consumed ones in order; a completed run adds the tail to the first held chunk. */
  ghost predicate InOrder(r: Redactor, w: World, run: Run) {
    && |run.before| <= |run.consumed| && run.taken <= |w.stream|
    && run.before == run.consumed[..|run.before|]
    && TailAttached(run.consumed[|run.before|..],
         if run.outcome.Complete? && run.commits != [] then TailOf(r, w.stream, run.taken) else "", run.held)
    && run.after <= run.held
  }

  /**
   The recorded text is that of the consumed chunks and the tail. Exactly one terminal commit is
   attempted, for the outcome of the run and exactly that text, with a preview of its first 4096
   bytes; none when the redactor cannot be flushed.
   */
  ghost predicate Describes(r: Redactor, w: World, run: Run) {
    && run.taken <= |w.stream|
    && run.recorded == TextOf(run.consumed) + TailOf(r, w.stream, run.taken)
    && var body := Encode(run.recorded);
       run.commits ==
       if r.On? && r.flush(Texts(w.stream, run.taken)).None? then []
       else [Commit(run.outcome, Summary(body, |body|, Clip(body), |Texts(w.stream, run.taken)|))]
  }

  /** State of the generator when its loop is over, before the terminal commit. */
  datatype Drained = Drained(delivered: seq<Chunk>, buffer: seq<Chunk>, consumed: seq<Chunk>, taken: nat, outcome: Outcome)

  ghost predicate DrainedWell(r: Redactor, w: World, d: Drained, recorded: string, fed: seq<string>) {
    && Ended(r, w, d.outcome, d.taken, |d.consumed|, |d.delivered|)
    && |d.delivered| <= |d.consumed| && d.consumed[..|d.delivered|] == d.delivered
    && Settled(r, w.stream, d.consumed) && TextOf(d.consumed) == recorded
    && HoldsLastText(w.stream, |d.consumed|, |d.delivered|)
    && (d.outcome.Complete? ==>
          && d.delivered + d.buffer == d.consumed
          && LoopInv(r, w.stream, |w.stream|, d.delivered, d.buffer, recorded, fed))
  }

  lemma ExitRaised(r: Redactor, w: World, n: nat, delivered: seq<Chunk>, buffer: seq<Chunk>, recorded: string, fed: seq<string>, fed': seq<string>)
    requires n < |w.stream| && LoopInv(r, w.stream, n, delivered, buffer, recorded, fed)
    requires Breaks(r, w.stream, n) && StillOpen(w, |delivered|)
    ensures DrainedWell(r, w, Drained(delivered, buffer, delivered + buffer, n + 1, UpstreamError), recorded, fed')
  {
    hide TextOf, ChunkText, Rewritable, LastText, Breaks, SettledAt;
    TextOfAppend(delivered, buffer);
    assert (delivered + buffer)[..|delivered|] == delivered;
  }

  lemma ExitClosedReleasing(r: Redactor, w: World, n: nat, delivered: seq<Chunk>, buffer: seq<Chunk>, recorded: string, fed: seq<string>,
                            sent: nat, out: Chunk, fed': seq<string>)
    requires n < |w.stream| && LoopInv(r, w.stream, n, delivered, buffer, recorded, fed)
    requires Bears(w.stream[n]) && SettledAt(r, w.stream, n, out)
    requires 0 < sent <= |buffer| && ClosesAt(w, |delivered| + sent)
    ensures DrainedWell(r, w,
              Drained(delivered + buffer[..sent], buffer[sent..] + [out], delivered + buffer + [out], n + 1, ClientDisconnect),
              recorded + ChunkText(out), fed')
  {
    hide TextOf, ChunkText, Rewritable, SettledAt;
    TextOfAppend(delivered, buffer);
    TextStep(delivered + buffer, out);
    assert (delivered + buffer + [out])[..|delivered| + sent] == delivered + buffer[..sent];
    assert LastText(w.stream, n + 1) == n;
  }

  lemma ExitClosedPassing(r: Redactor, w: World, n: nat, delivered: seq<Chunk>, recorded: string, fed: seq<string>)
    requires n <= |w.stream| && LoopInv(r, w.stream, n, delivered, [], recorded, fed)
    requires delivered != [] && ClosesAt(w, |delivered|)
    ensures DrainedWell(r, w, Drained(delivered, [], delivered, n, ClientDisconnect), recorded, fed)
  {
    assert delivered + [] == delivered;
  }

  lemma ExitExhausted(r: Redactor, w: World, delivered: seq<Chunk>, buffer: seq<Chunk>, recorded: string, fed: seq<string>)
    requires LoopInv(r, w.stream, |w.stream|, delivered, buffer, recorded, fed) && StillOpen(w, |delivered|)
    ensures DrainedWell(r, w,
              Drained(delivered, buffer, delivered + buffer, |w.stream|, if w.raises then UpstreamError else Complete), recorded, fed)
  {
    TextOfAppend(delivered, buffer);
  }

  ghost predicate RecorderAt(r: Redactor, w: World, n: nat, recorder: StreamRecorder)
    reads recorder
  {
    && n <= |w.stream| && recorder.Valid() && recorder.redactor == r
    && recorder.tokens == |Texts(w.stream, n)|
    && recorder.fed == if r.Off? then [] else Texts(w.stream, n)
  }

  /** Pull one chunk from the source and account for it. */
  method Pull(r: Redactor, w: World, n: nat, recorder: StreamRecorder) returns (seen: Seen, out: Chunk)
    requires n < |w.stream| && RecorderAt(r, w, n, recorder)
    modifies recorder
    ensures RecorderAt(r, w, n + 1, recorder)
    ensures seen.NoText? <==> !Bears(w.stream[n])
    ensures seen.NoText? ==> recorder.fed == old(recorder.fed)
    ensures if seen.Raised? then Breaks(r, w.stream, n) else SettledAt(r, w.stream, n, out)
    ensures recorder.recorded == if seen.HasText? then old(recorder.recorded) + ChunkText(out) else old(recorder.recorded)
  {
    seen, out := recorder.Observe(w.stream[n]);
  }

  /** Where the loop stands after `n` chunks: still going, or stopped by the last of them. */
  ghost predicate LoopState(r: Redactor, w: World, n: nat, stop: Option<Drained>, delivered: seq<Chunk>, buffer: seq<Chunk>, recorded: string, fed: seq<string>) {
    match stop
    case None => LoopInv(r, w.stream, n, delivered, buffer, recorded, fed) && StillOpen(w, |delivered|)
    case Some(d) => d.taken == n && DrainedWell(r, w, d, recorded, fed)
  }

  /** A text-bearing chunk was recorded: release the buffer, then hold the chunk. */
  method OnText(r: Redactor, w: World, n: nat, delivered: seq<Chunk>, buffer: seq<Chunk>, out: Chunk,
                ghost recorded: string, ghost fed: seq<string>, ghost fed': seq<string>)
    returns (stop: Option<Drained>, delivered': seq<Chunk>, buffer': seq<Chunk>)
    requires n < |w.stream| && LoopInv(r, w.stream, n, delivered, buffer, recorded, fed)
    requires Bears(w.stream[n]) && SettledAt(r, w.stream, n, out) && StillOpen(w, |delivered|)
    ensures LoopState(r, w, n + 1, stop, delivered', buffer', recorded + ChunkText(out), fed')
  {
    var sent, closed := YieldAll(w, |delivered|, buffer);
    if closed {
      ExitClosedReleasing(r, w, n, delivered, buffer, recorded, fed, sent, out, fed');
      return Some(Drained(delivered + buffer[..sent], buffer[sent..] + [out], delivered + buffer + [out], n + 1, ClientDisconnect)), delivered, buffer;
    }
    StepText(r, w.stream, n, delivered, buffer, recorded, fed, out, fed');
    return None, delivered + buffer, [out];
  }

  /** A chunk without text waits behind the buffer, or is delivered at once. */
  method OnNoText(r: Redactor, w: World, n: nat, delivered: seq<Chunk>, buffer: seq<Chunk>, ghost recorded: string, ghost fed: seq<string>)
    returns (stop: Option<Drained>, delivered': seq<Chunk>, buffer': seq<Chunk>)
    requires n < |w.stream| && LoopInv(r, w.stream, n, delivered, buffer, recorded, fed)
    requires !Bears(w.stream[n]) && StillOpen(w, |delivered|)
    ensures LoopState(r, w, n + 1, stop, delivered', buffer', recorded, fed)
  {
    var next := w.stream[n];
    if buffer != [] {
      StepWait(r, w.stream, n, delivered, buffer, recorded, fed);
      return None, delivered, buffer + [next];
    }
    StepPass(r, w.stream, n, delivered, recorded, fed);
    if ClosesAt(w, |delivered + [next]|) {
      ExitClosedPassing(r, w, n + 1, delivered + [next], recorded, fed);
      return Some(Drained(delivered + [next], [], delivered + [next], n + 1, ClientDisconnect)), delivered, buffer;
    }
    return None, delivered + [next], [];
  }

  /** One iteration of the generator's loop: either the run is over or the loop goes on. */
  method Iterate(r: Redactor, w: World, n: nat, recorder: StreamRecorder, delivered: seq<Chunk>, buffer: seq<Chunk>)
    returns (stop: Option<Drained>, delivered': seq<Chunk>, buffer': seq<Chunk>)
    requires n < |w.stream| && RecorderAt(r, w, n, recorder)
    requires LoopState(r, w, n, None, delivered, buffer, recorder.recorded, recorder.fed)
    modifies recorder
    ensures RecorderAt(r, w, n + 1, recorder)
    ensures LoopState(r, w, n + 1, stop, delivered', buffer', recorder.recorded, recorder.fed)
  {
    ghost var recorded, fed := recorder.recorded, recorder.fed;
    var seen, out := Pull(r, w, n, recorder);
    if seen.Raised? {
      ExitRaised(r, w, n, delivered, buffer, recorded, fed, recorder.fed);
      return Some(Drained(delivered, buffer, delivered + buffer, n + 1, UpstreamError)), delivered, buffer;
    }
    if seen.HasText? {
      stop, delivered', buffer' := OnText(r, w, n, delivered, buffer, out, recorded, fed, recorder.fed);
    } else {
      stop, delivered', buffer' := OnNoText(r, w, n, delivered, buffer, recorded, fed);
    }
  }

  /** The source is exhausted or raises, unless the loop was stopped before. */
  method EndOfLoop(r: Redactor, w: World, n: nat, stop: Option<Drained>, delivered: seq<Chunk>, buffer: seq<Chunk>, ghost recorded: string, ghost fed: seq<string>)
    returns (d: Drained)
    requires stop.None? ==> n == |w.stream|
    requires LoopState(r, w, n, stop, delivered, buffer, recorded, fed)
    ensures d.taken == n && DrainedWell(r, w, d, recorded, fed)
  {
    if stop.Some? {
      return stop.value;
    }
    ExitExhausted(r, w, delivered, buffer, recorded, fed);
    return Drained(delivered, buffer, delivered + buffer, |w.stream|, if w.raises then UpstreamError else Complete);
  }

  lemma LoopStarts(r: Redactor, w: World)
    requires w.closesAfter != Some(0)
    ensures LoopState(r, w, 0, None, [], [], "", [])
  {
  }

  /** The loop of the generator: deliver superseded chunks, hold the rest. */
  method Drain(r: Redactor, w: World, recorder: StreamRecorder) returns (d: Drained)
    requires RecorderAt(r, w, 0, recorder) && recorder.recorded == "" && recorder.fed == [] && w.closesAfter != Some(0)
    modifies recorder
    ensures RecorderAt(r, w, d.taken, recorder)
    ensures DrainedWell(r, w, d, recorder.recorded, recorder.fed)
  {
    hide *;
    LoopStarts(r, w);
    var delivered, buffer: seq<Chunk> := [], [];
    var n := 0;
    var stop: Option<Drained> := None;
    while n < |w.stream| && stop.None?
      invariant 0 <= n <= |w.stream| && RecorderAt(r, w, n, recorder)
      invariant LoopState(r, w, n, stop, delivered, buffer, recorder.recorded, recorder.fed)
    {
      stop, delivered, buffer := Iterate(r, w, n, recorder, delivered, buffer);
      n := n + 1;
    }
    d := EndOfLoop(r, w, n, stop, delivered, buffer, recorder.recorded, recorder.fed);
  }

  /** The run ended as its outcome says, in order, without releasing the last text-bearing chunk before the commit. */
  ghost predicate Placed(r: Redactor, w: World, run: Run) {
    && Ended(r, w, run.outcome, run.taken, |run.consumed|, |run.before|)
    && InOrder(r, w, run)
    && Settled(r, w.stream, run.consumed)
    && HoldsLastText(w.stream, |run.consumed|, |run.before|)
  }

  /**
   What was delivered before the commit is a prefix of the recorded text. On a completed run the
   delivered and held text together are the recorded text, exactly when there was a chunk to
   carry the tail or the redactor's unfed flush is empty.
   */
  ghost predicate Faithful(r: Redactor, run: Run) {
    && TextOf(run.before) <= run.recorded
    && (run.outcome.Complete? && run.commits != [] ==>
          (TextOf(run.before) + TextOf(run.held) == run.recorded
           <==> run.held != [] || r.Off? || r.flush([]) == Some("")))
  }

  /** Held chunks are released only after a successful terminal commit, and then all of them unless the consumer closes. */
  ghost predicate Released(w: World, run: Run) {
    && (run.after != [] ==> run.outcome.Complete? && run.commits != [] && !w.ledgerFails)
    && (run.outcome.Complete? && run.commits != [] && !w.ledgerFails ==>
          YieldedAll(w, |run.before|, run.held, run.after))
  }

  ghost predicate RunPromise(r: Redactor, w: World, run: Run) {
    Placed(r, w, run) && Describes(r, w, run) && Faithful(r, run) && Released(w, run)
  }

  /** Everything but a completed, committed run: nothing is delivered after the commit call. */
  lemma PromiseCut(r: Redactor, w: World, d: Drained, recorded: string, fed: seq<string>, tail: string, commits: seq<Commit>)
    requires DrainedWell(r, w, d, recorded, fed)
    requires !d.outcome.Complete? || commits == []
    requires Describes(r, w, CutRun(d, recorded + tail, commits))
    ensures RunPromise(r, w, CutRun(d, recorded + tail, commits))
  {
    DeliveredPrefix(d.consumed, |d.delivered|);
    assert d.consumed[..|d.delivered|] == d.delivered;
    assert TextOf(d.delivered) <= recorded && recorded <= recorded + tail;
    if d.outcome.Complete? {
      assert d.consumed[|d.delivered|..] == d.buffer;
    }
  }

  function CutRun(d: Drained, recorded: string, commits: seq<Commit>): Run
    requires |d.delivered| <= |d.consumed|
  {
    Run(d.delivered, d.consumed[|d.delivered|..], [], d.consumed, d.taken, d.outcome, commits, recorded)
  }

  /** Append the tail to the first held chunk, which a redacted run has already rewritten once. */
  method AttachTail(buffer: seq<Chunk>, tail: string) returns (held: seq<Chunk>)
    requires tail != "" && buffer != [] ==> Rewritable(buffer[0])
    ensures TailAttached(buffer, tail, held)
  {
    held := buffer;
    if tail != "" && buffer != [] {
      held := buffer[0 := SetChunkText(buffer[0], ChunkText(buffer[0]) + tail).value];
    }
  }

  lemma HeldText(buffer: seq<Chunk>, tail: string, held: seq<Chunk>)
    requires buffer != [] && TailAttached(buffer, tail, held) && TextOf(buffer) == ChunkText(buffer[0])
    ensures TextOf(held) == TextOf(buffer) + tail
  {
    if tail == "" {
      assert TextOf(buffer) + tail == TextOf(buffer);
    } else {
      SetThenRead(buffer[0], ChunkText(buffer[0]) + tail);
    }
    assert |TextOf(buffer)| == |ChunkText(buffer[0])| + |TextOf(buffer[1..])|;
    assert held[1..] == buffer[1..];
  }

  /** Delivered plus held text is the recorded text, unless a tail had no chunk to go to. */
  lemma CompleteText(r: Redactor, stream: seq<Chunk>, n: nat, delivered: seq<Chunk>, buffer: seq<Chunk>, recorded: string, fed: seq<string>,
                     tail: string, held: seq<Chunk>)
    requires LoopInv(r, stream, n, delivered, buffer, recorded, fed) && TailAttached(buffer, tail, held)
    ensures TextOf(delivered) + TextOf(held) == recorded + tail <==> buffer != [] || tail == ""
  {
    if buffer == [] {
      assert |TextOf(delivered) + TextOf(held)| == |recorded|;
    } else {
      HeldText(buffer, tail, held);
      assert TextOf(delivered) + (TextOf(buffer) + tail) == (TextOf(delivered) + TextOf(buffer)) + tail;
    }
  }

  lemma CompletePlaced(r: Redactor, w: World, d: Drained, recorded: string, fed: seq<string>, tail: string, run: Run)
    requires DrainedWell(r, w, d, recorded, fed) && d.outcome.Complete?
    requires d.taken <= |w.stream| && tail == TailOf(r, w.stream, d.taken)
    requires TailAttached(d.buffer, tail, run.held) && run.commits != [] && run.after <= run.held
    requires run.before == d.delivered && run.consumed == d.consumed && run.taken == d.taken && run.outcome == Complete
    ensures Placed(r, w, run)
  {
    hide Settled, SettledAt, TextOf, TailOf, TailAdded;
    assert d.consumed[|d.delivered|..] == d.buffer;
  }

  lemma CompleteFaithful(r: Redactor, w: World, d: Drained, recorded: string, fed: seq<string>, tail: string, run: Run)
    requires DrainedWell(r, w, d, recorded, fed) && d.outcome.Complete?
    requires if r.Off? then tail == "" else r.flush(fed) == Some(tail)
    requires TailAttached(d.buffer, tail, run.held) && run.before == d.delivered && run.recorded == recorded + tail
    ensures Faithful(r, run)
  {
    CompleteText(r, w.stream, |w.stream|, d.delivered, d.buffer, recorded, fed, tail, run.held);
    assert TextOf(d.delivered) <= TextOf(d.delivered) + TextOf(d.buffer) <= recorded + tail;
  }

  /** All of `held` was received, or what the consumer closed on. */
  predicate YieldedAll(w: World, received: nat, held: seq<Chunk>, after: seq<Chunk>) {
    if after == held then held == [] || StillOpen(w, received + |after| - 1)
    else after < held && ClosesAt(w, received + |after|)
  }

  /** `yield from` after the commit, unless the commit raised. */
  method YieldHeld(w: World, received: nat, held: seq<Chunk>) returns (after: seq<Chunk>)
    requires StillOpen(w, received)
    ensures after <= held && (w.ledgerFails ==> after == [])
    ensures !w.ledgerFails ==> YieldedAll(w, received, held, after)
  {
    if w.ledgerFails {
      return [];
    }
    var sent, closed := YieldAll(w, received, held);
    return held[..sent];
  }

  function CompleteRun(d: Drained, recorded: string, summary: Summary, held: seq<Chunk>, after: seq<Chunk>): Run {
    Run(d.delivered, held, after, d.consumed, d.taken, d.outcome, [Commit(Complete, summary)], recorded)
  }

  lemma CompletePromise(r: Redactor, w: World, d: Drained, recorded: string, fed: seq<string>, tail: string,
                        summary: Summary, held: seq<Chunk>, after: seq<Chunk>)
    requires DrainedWell(r, w, d, recorded, fed) && d.outcome.Complete?
    requires if r.Off? then tail == "" else r.flush(fed) == Some(tail)
    requires d.taken <= |w.stream| && tail == TailOf(r, w.stream, d.taken)
    requires Describes(r, w, CutRun(d, recorded + tail, [Commit(Complete, summary)]))
    requires TailAttached(d.buffer, tail, held)
    requires after <= held && (w.ledgerFails ==> after == [])
    requires !w.ledgerFails ==> YieldedAll(w, |d.delivered|, held, after)
    ensures RunPromise(r, w, CompleteRun(d, recorded + tail, summary, held, after))
  {
    hide Placed, Faithful, TailAttached, LoopInv, TextOf, Texts, Encode, Clip;
    var run := CompleteRun(d, recorded + tail, summary, held, after);
    CompletePlaced(r, w, d, recorded, fed, tail, run);
    CompleteFaithful(r, w, d, recorded, fed, tail, run);
  }

  /** After a completed loop: deliver the tail, commit, and only then release what was held. */
  method ReleaseHeld(r: Redactor, w: World, d: Drained, tail: string, summary: Summary, ghost recorded: string, ghost fed: seq<string>)
    returns (run: Run)
    requires DrainedWell(r, w, d, recorded, fed) && d.outcome.Complete?
    requires if r.Off? then tail == "" else r.flush(fed) == Some(tail)
    requires d.taken <= |w.stream| && tail == TailOf(r, w.stream, d.taken)
    requires Describes(r, w, CutRun(d, recorded + tail, [Commit(Complete, summary)]))
    ensures RunPromise(r, w, run)
  {
    var held := AttachTail(d.buffer, tail);
    var after := YieldHeld(w, |d.delivered|, held);
    CompletePromise(r, w, d, recorded, fed, tail, summary, held, after);
    return CompleteRun(d, TextOf(d.consumed) + tail, summary, held, after);
  }

  /**
   The whole generator, for a consumer that asked for at least one chunk. There is exactly one
   terminal commit call on every way out; see `RunPromise`.
   */
  method WrapSyncStream(r: Redactor, w: World) returns (run: Run)
    requires w.closesAfter != Some(0)
    ensures RunPromise(r, w, run)
  {
    var recorder := new StreamRecorder(r);
    var d := Drain(r, w, recorder);
    ghost var recorded := recorder.recorded;
    var result := recorder.Finalize();
    if result.None? {
      run := CutRun(d, TextOf(d.consumed) + "", []);
      PromiseCut(r, w, d, recorded, recorder.fed, "", []);
      return;
    }
    var (summary, tail) := result.value;
    if d.outcome.Complete? {
      run := ReleaseHeld(r, w, d, tail, summary, recorded, recorder.fed);
    } else {
      run := CutRun(d, TextOf(d.consumed) + tail, [Commit(d.outcome, summary)]);
      PromiseCut(r, w, d, recorded, recorder.fed, tail, [Commit(d.outcome, summary)]);
    }
  }

  // ------------------------------------------------------- the promise leaves nothing open

  lemma SettledOnce(r: Redactor, stream: seq<Chunk>, a: seq<Chunk>, b: seq<Chunk>)
    requires Settled(r, stream, a) && Settled(r, stream, b)
    ensures |a| <= |b| ==> a == b[..|a|]
    ensures |a| < |stream| && Breaks(r, stream, |a|) ==> |b| <= |a|
  {
    forall i | 0 <= i < |a| && i < |b| ensures a[i] == b[i] {
      assert SettledAt(r, stream, i, a[i]) && SettledAt(r, stream, i, b[i]);
    }
    if |a| < |b| && |a| < |stream| { assert SettledAt(r, stream, |a|, b[|a|]); }
  }

  /** A close comes while the loop would go on, so it precedes every other end. */
  lemma CloseIsFirst(stream: seq<Chunk>, taken: nat, closed: nat, consumed: nat, delivered: nat)
    requires taken <= consumed <= |stream| && ClosedOn(stream, taken, closed) && Withholds(stream, consumed, delivered)
    ensures closed <= delivered
  {
    LastTextIsLast(stream, taken);
    LastTextIsLast(stream, consumed);
  }

  lemma ClosedOnce(stream: seq<Chunk>, a: nat, b: nat, delivered: nat)
    requires a < b <= |stream| && ClosedOn(stream, a, delivered)
    ensures !ClosedOn(stream, b, delivered)
  {
    LastTextIsLast(stream, a);
    LastTextIsLast(stream, b - 1);
    LastTextIsLast(stream, b);
  }

  /** Two accounts of one run agree on where it stopped and how. */
  lemma EndedOnce(r: Redactor, w: World, a: Run, b: Run)
    requires Placed(r, w, a) && Placed(r, w, b) && |a.consumed| <= |b.consumed|
    ensures a.outcome == b.outcome && a.consumed == b.consumed && a.taken == b.taken && |a.before| == |b.before|
  {
    hide LastText, SettledAt, InOrder, Breaks;
    SettledOnce(r, w.stream, a.consumed, b.consumed);
    SettledOnce(r, w.stream, b.consumed, a.consumed);
    if a.outcome.ClientDisconnect? && b.outcome.ClientDisconnect? {
      if a.taken < b.taken { ClosedOnce(w.stream, a.taken, b.taken, |a.before|); }
    } else if a.outcome.ClientDisconnect? {
      CloseIsFirst(w.stream, a.taken, |a.before|, |b.consumed|, |b.before|);
    } else if b.outcome.ClientDisconnect? && |a.consumed| == |b.consumed| {
      CloseIsFirst(w.stream, b.taken, |b.before|, |a.consumed|, |a.before|);
    }
    assert a.consumed == b.consumed[..|b.consumed|] == b.consumed;
  }

  /**
   `RunPromise` is a complete specification: for every source, redactor and environment it admits
   one run only, so a generator that drops, reorders, alters or invents anything breaks it.
   */
  lemma PromiseIsComplete(r: Redactor, w: World, a: Run, b: Run)
    requires RunPromise(r, w, a) && RunPromise(r, w, b)
    ensures a == b
  {
    hide LastText, SettledAt, Breaks, Settled, Ended, TextOf, Texts, Encode, Clip;
    if |a.consumed| <= |b.consumed| { EndedOnce(r, w, a, b); } else { EndedOnce(r, w, b, a); }
    assert a.before == b.before;
    assert a.held == b.held;
    assert a.after == b.after;
  }

  /** Without redaction the consumer and the evidence get the source's own chunks and text. */
  lemma UnredactedRun(w: World, run: Run)
    requires RunPromise(Off, w, run)
    ensures |run.consumed| <= |w.stream| && run.before + run.held == run.consumed == w.stream[..|run.consumed|]
    ensures run.commits != [] && run.commits[0].summary.body == Encode(TextOf(w.stream[..|run.consumed|]))
  {
    hide Encode, TextOf, Texts, LastText;
    forall i | 0 <= i < |run.consumed| ensures run.consumed[i] == w.stream[i] {
      assert SettledAt(Off, w.stream, i, run.consumed[i]);
    }
    assert run.recorded == TextOf(run.consumed);
  }

  /** An empty source and a redactor that flushes "x" unfed: the only run hashes "x" and delivers nothing. */
  lemma UnfedFlushIsHashedOnly(feed: (seq<string>, string) -> Option<string>, run: Run)
    ensures var r, w := On(feed, _ => Some("x")), World([], false, None, false);
            RunPromise(r, w, run) <==>
              run == Run([], [], [], [], 0, Complete, [Commit(Complete, Summary(Encode("x"), |Encode("x")|, Clip(Encode("x")), 0))], "x")
  {
    hide Encode, Clip;
    var r, w := On(feed, _ => Some("x")), World([], false, None, false);
    var body := Encode("x");
    var only := Run([], [], [], [], 0, Complete, [Commit(Complete, Summary(body, |body|, Clip(body), 0))], "x");
    assert RunPromise(r, w, only);
    if RunPromise(r, w, run) { PromiseIsComplete(r, w, run, only); }
  }

  // ------------------------------------------------------------------- in plain terms

  /** The text of a chunk is its OpenAI content, else its Anthropic text, else nothing; setting it changes that field alone. */
  lemma ChunkMeaning(c: Chunk, t: string)
    ensures c.content.Some? ==> ChunkText(c) == c.content.value
    ensures c.content.None? && c.text.Some? ==> ChunkText(c) == c.text.value
    ensures c.content.None? && c.text.None? ==> ChunkText(c) == ""
    ensures SetChunkText(c, t).Some? <==> c.writable && (c.content.Some? || c.text.Some?)
    ensures SetChunkText(c, t).Some? ==>
              SetChunkText(c, t).value == if c.content.Some? then c.(content := Some(t)) else c.(text := Some(t))
  {
  }

  /** The preview is the first 4096 bytes, or all of them. */
  lemma PreviewMeaning(b: bytes)
    ensures Clip(b) <= b && |Clip(b)| == if |b| < 4096 then |b| else 4096
  {
  }

  /** The texts fed to the redactor are those of the text-bearing chunks, in order. */
  lemma {:induction false} TextsMeaning(stream: seq<Chunk>, n: nat)
    requires n <= |stream|
    ensures (forall x :: x in Texts(stream, n) <==> x != "" && exists i :: 0 <= i < n && ChunkText(stream[i]) == x)
    ensures n < |stream| ==> Texts(stream, n + 1) == Texts(stream, n) + if ChunkText(stream[n]) == "" then [] else [ChunkText(stream[n])]
  {
    if n > 0 { TextsMeaning(stream, n - 1); }
  }
}
