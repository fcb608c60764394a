/** The summarization pipeline (`_summarize` in AI.py): reject blank text,
    one preprocessing call over the whole text, one summary call per chunk
    in the splitter's order, then one synthesis call over the chunk
    summaries joined by a blank line. The completion service and the text
    splitter are parameters; every call issued is recorded, in order, so
    that the sequencing can be stated. */
module Pipeline {
  import opened Results
  import opened PyStr
  import opened Tiers

  /** What a completion call is asked to do, with the text it carries; the
      fixed instructions and generation settings of each stage are implied
      by the kind of request. */
  datatype Request =
    | Preprocess(raw: string)                   // clean and normalize, do not summarize
    | SummarizeChunk(chunk: string)             // summarize one section
    | Synthesize(prompt: string, digest: string) // tier instruction, then the joined chunk summaries

  /** The completion service. It is asked with the number of calls issued
      before this one and the request, and answers with the generated text or
      a failure cause; the index lets answers differ between calls. */
  type Backend = (nat, Request) -> Result<string, string>

  /** The text splitter, an uninterpreted function from text to chunks. */
  type Splitter = string -> seq<string>

  /** Why `_summarize` raised. */
  datatype SummarizeError =
    | EmptyText                              // `ValueError("Text cannot be empty")`
    | CompletionFailed(call: nat, cause: string) // the `call`-th completion raised

  /** The calls issued by one pipeline run, and its outcome. */
  datatype Run = Run(calls: seq<Request>, outcome: Result<string, SummarizeError>)

  /** The separator between chunk summaries in the synthesis input. */
  const Separator: string := "\n\n"

  /** The calls made before the synthesis call: either all of them
      answered, with one stripped summary per chunk, or stopped at the first
      failing call. */
  datatype ChunkPass =
    | Done(calls: seq<Request>, summaries: seq<string>)
    | Aborted(calls: seq<Request>, at: nat, cause: string)

  /** The answer to the chunk call issued as call number `n`. */
  function ChunkReply(backend: Backend, n: nat, chunk: string): Result<string, string> {
    backend(n, SummarizeChunk(chunk))
  }

  /** The loop over `chunks`, whose first call is call number `base`: one
      call per chunk until the first failing one, whose number is reported. */
  function RunChunks(chunks: seq<string>, backend: Backend, base: nat): (p: ChunkPass)
    ensures |p.calls| <= |chunks|
    ensures p.Done? ==> |p.calls| == |chunks| && |p.summaries| == |chunks|
    ensures p.Aborted? ==> |p.calls| > 0 && p.at == base + |p.calls| - 1
    decreases |chunks|
  {
    if |chunks| == 0 then Done([], [])
    else
      var req := SummarizeChunk(chunks[0]);
      match ChunkReply(backend, base, chunks[0])
      case Err(cause) => Aborted([req], base, cause)
      case Ok(reply) =>
        match RunChunks(chunks[1..], backend, base + 1)
        case Done(calls, summaries) => Done([req] + calls, [Trim(reply)] + summaries)
        case Aborted(calls, at, cause) => Aborted([req] + calls, at, cause)
  }

  /** The loop over at least one chunk, unfolded once. */
  lemma RunChunksStep(chunks: seq<string>, backend: Backend, base: nat)
    requires |chunks| > 0
    ensures var p := RunChunks(chunks, backend, base);
      var q := RunChunks(chunks[1..], backend, base + 1);
      var reply := ChunkReply(backend, base, chunks[0]);
      && (reply.Err? ==> p == Aborted([SummarizeChunk(chunks[0])], base, reply.error))
      && (reply.Ok? ==> p.calls == [SummarizeChunk(chunks[0])] + q.calls && p.Done? == q.Done?)
      && (reply.Ok? && q.Done? ==> p.summaries == [Trim(reply.value)] + q.summaries)
      && (reply.Ok? && q.Aborted? ==> p.cause == q.cause)
  {
  }

  /** The `i`-th call of the loop is the call for the `i`-th chunk. */
  lemma {:induction false} RunChunksCallAt(chunks: seq<string>, backend: Backend, base: nat, i: nat)
    requires i < |RunChunks(chunks, backend, base).calls|
    ensures RunChunks(chunks, backend, base).calls[i] == SummarizeChunk(chunks[i])
    decreases i
  {
    RunChunksStep(chunks, backend, base);
    if i > 0 {
      RunChunksCallAt(chunks[1..], backend, base + 1, i - 1);
      assert chunks[1..][i - 1] == chunks[i];
    }
  }

  /** Every call of the loop but a failing last one was answered. */
  lemma {:induction false} RunChunksAnsweredAt(chunks: seq<string>, backend: Backend, base: nat, i: nat)
    requires i < |RunChunks(chunks, backend, base).calls|
    requires RunChunks(chunks, backend, base).Done? || i + 1 < |RunChunks(chunks, backend, base).calls|
    ensures ChunkReply(backend, base + i, chunks[i]).Ok?
    decreases i
  {
    RunChunksStep(chunks, backend, base);
    if i > 0 {
      RunChunksAnsweredAt(chunks[1..], backend, base + 1, i - 1);
      assert chunks[1..][i - 1] == chunks[i];
    }
  }

  /** In a finished loop the `i`-th summary is the answer to the `i`-th
      call, stripped. */
  lemma {:induction false} RunChunksSummaryAt(chunks: seq<string>, backend: Backend, base: nat, i: nat)
    requires RunChunks(chunks, backend, base).Done? && i < |chunks|
    ensures ChunkReply(backend, base + i, chunks[i]).Ok?
    ensures RunChunks(chunks, backend, base).summaries[i] == Trim(ChunkReply(backend, base + i, chunks[i]).value)
    decreases i
  {
    RunChunksStep(chunks, backend, base);
    if i > 0 {
      RunChunksSummaryAt(chunks[1..], backend, base + 1, i - 1);
      assert chunks[1..][i - 1] == chunks[i];
    }
  }

  /** A stopped loop reports the failure of its last call. */
  lemma {:induction false} RunChunksFailure(chunks: seq<string>, backend: Backend, base: nat)
    requires RunChunks(chunks, backend, base).Aborted?
    ensures var p := RunChunks(chunks, backend, base);
      ChunkReply(backend, base + |p.calls| - 1, chunks[|p.calls| - 1]) == Err(p.cause)
    decreases |chunks|
  {
    RunChunksStep(chunks, backend, base);
    var p := RunChunks(chunks, backend, base);
    if |p.calls| > 1 {
      RunChunksFailure(chunks[1..], backend, base + 1);
      assert chunks[1..][|p.calls| - 2] == chunks[|p.calls| - 1];
    }
  }

  /** The pass after `done` and `summaries` have been collected: the calls
      and summaries collected so far come first. */
  function Resume(done: seq<Request>, summaries: seq<string>, rest: ChunkPass): (p: ChunkPass)
    ensures p.Done? == rest.Done? && |p.calls| == |done| + |rest.calls|
  {
    match rest
    case Done(calls, more) => Done(done + calls, summaries + more)
    case Aborted(calls, at, cause) => Aborted(done + calls, at, cause)
  }

  /** The chunks the splitter makes of the stripped preprocessing reply, or
      none when preprocessing failed. */
  function PlannedChunks(text: string, backend: Backend, split: Splitter): seq<string> {
    match backend(0, Preprocess(text))
    case Ok(cleaned) => split(Trim(cleaned))
    case Err(_) => []
  }

  /** Call 0 preprocesses the text as given; the chunk loop follows, its
      calls numbered from 1. */
  function Prepare(text: string, backend: Backend, split: Splitter): (p: ChunkPass)
    ensures |p.calls| >= 1 && p.calls[0] == Preprocess(text)
    ensures |p.calls| <= |PlannedChunks(text, backend, split)| + 1
    ensures p.Done? ==> |p.calls| == |PlannedChunks(text, backend, split)| + 1 && |p.summaries| == |p.calls| - 1
    ensures p.Aborted? ==> p.at == |p.calls| - 1
  {
    var pre := Preprocess(text);
    match backend(0, pre)
    case Err(cause) => Aborted([pre], 0, cause)
    case Ok(cleaned) => Resume([pre], [], RunChunks(split(Trim(cleaned)), backend, 1))
  }

  /** Every call of `calls` was answered, numbering calls from 0. */
  predicate AllAnswered(calls: seq<Request>, backend: Backend) {
    forall i :: 0 <= i < |calls| ==> backend(i, calls[i]).Ok?
  }

  /** The pass agrees with the service's answers: a finished pass got an
      answer to every call and keeps the stripped answers to the calls after
      the first; a stopped pass ends with its failing call, every earlier one
      answered. */
  predicate FollowsReplies(p: ChunkPass, backend: Backend) {
    match p
    case Done(calls, summaries) =>
      && |summaries| + 1 == |calls|
      && AllAnswered(calls, backend)
      && forall i :: 0 <= i < |summaries| ==>
           backend(1 + i, calls[1 + i]).Ok? && summaries[i] == Trim(backend(1 + i, calls[1 + i]).value)
    case Aborted(calls, at, cause) =>
      && at + 1 == |calls|
      && backend(at, calls[at]) == Err(cause)
      && AllAnswered(calls[..at], backend)
  }

  /** Once preprocessing is answered, the pass is the preprocessing call
      followed by the loop over the planned chunks. */
  lemma PrepareAnswered(text: string, backend: Backend, split: Splitter)
    requires backend(0, Preprocess(text)).Ok?
    ensures Prepare(text, backend, split)
         == Resume([Preprocess(text)], [], RunChunks(PlannedChunks(text, backend, split), backend, 1))
  {
  }

  /** One call put in front of a pass shifts its calls by one and keeps its
      summaries and failure. */
  lemma ResumeAfterOne(pre: Request, q: ChunkPass, i: nat)
    requires 0 < i <= |q.calls|
    ensures Resume([pre], [], q).calls[i] == q.calls[i - 1]
    ensures Resume([pre], [], q).Done? ==> Resume([pre], [], q).summaries == q.summaries
    ensures Resume([pre], [], q).Aborted? ==> Resume([pre], [], q).cause == q.cause
  {
    match q
    case Done(calls, more) => assert [] + more == more;
    case Aborted(_, _, _) =>
  }

  /** The `i`-th call after the first is the call for the `i`-th planned
      chunk. */
  lemma PrepareCallAt(text: string, backend: Backend, split: Splitter, i: nat)
    requires 0 < i < |Prepare(text, backend, split).calls|
    ensures Prepare(text, backend, split).calls[i] == SummarizeChunk(PlannedChunks(text, backend, split)[i - 1])
  {
    assert backend(0, Preprocess(text)).Ok?;
    var q := RunChunks(PlannedChunks(text, backend, split), backend, 1);
    PrepareAnswered(text, backend, split);
    ResumeAfterOne(Preprocess(text), q, i);
    RunChunksCallAt(PlannedChunks(text, backend, split), backend, 1, i - 1);
  }

  /** The answer to the `i`-th call after the first is the loop's answer for
      the `i`-th planned chunk. */
  lemma PrepareReplyAt(text: string, backend: Backend, split: Splitter, i: nat)
    requires 0 < i < |Prepare(text, backend, split).calls|
    ensures var p := Prepare(text, backend, split);
      && (p.Done? || i + 1 < |p.calls| ==> backend(i, p.calls[i]).Ok?)
      && (p.Done? ==> p.summaries[i - 1] == Trim(backend(i, p.calls[i]).value))
      && (p.Aborted? && i + 1 == |p.calls| ==> backend(i, p.calls[i]) == Err(p.cause))
  {
    var p := Prepare(text, backend, split);
    assert backend(0, Preprocess(text)).Ok?;
    var chunks := PlannedChunks(text, backend, split);
    var q := RunChunks(chunks, backend, 1);
    PrepareCallAt(text, backend, split, i);
    PrepareAnswered(text, backend, split);
    ResumeAfterOne(Preprocess(text), q, i);
    assert ChunkReply(backend, 1 + (i - 1), chunks[i - 1]) == backend(i, p.calls[i]);
    if q.Done? {
      RunChunksSummaryAt(chunks, backend, 1, i - 1);
    } else if i + 1 < |p.calls| {
      RunChunksAnsweredAt(chunks, backend, 1, i - 1);
    } else {
      RunChunksFailure(chunks, backend, 1);
    }
  }

  /** Call 0 is the preprocessing call; the pass stops right there exactly
      when it fails. */
  lemma PrepareFirstCall(text: string, backend: Backend, split: Splitter)
    ensures var p := Prepare(text, backend, split);
      && p.calls[0] == Preprocess(text)
      && (backend(0, p.calls[0]).Ok? <==> !(p.Aborted? && p.at == 0))
      && (p.Aborted? && p.at == 0 ==> backend(0, p.calls[0]) == Err(p.cause))
  {
    if backend(0, Preprocess(text)).Ok? {
      PrepareAnswered(text, backend, split);
    }
  }

  /** A finished pass agrees with the service's answers. */
  lemma PrepareDoneFollowsReplies(text: string, backend: Backend, split: Splitter)
    requires Prepare(text, backend, split).Done?
    ensures FollowsReplies(Prepare(text, backend, split), backend)
  {
    var p := Prepare(text, backend, split);
    PrepareFirstCall(text, backend, split);
    forall i | 0 < i < |p.calls| ensures backend(i, p.calls[i]).Ok? {
      PrepareReplyAt(text, backend, split, i);
    }
    forall i | 0 <= i < |p.summaries|
      ensures backend(1 + i, p.calls[1 + i]).Ok? && p.summaries[i] == Trim(backend(1 + i, p.calls[1 + i]).value)
    {
      PrepareReplyAt(text, backend, split, 1 + i);
    }
  }

  /** A stopped pass ends with its failing call, every earlier one answered. */
  lemma PrepareAbortedFollowsReplies(text: string, backend: Backend, split: Splitter)
    requires Prepare(text, backend, split).Aborted?
    ensures FollowsReplies(Prepare(text, backend, split), backend)
  {
    var p := Prepare(text, backend, split);
    PrepareFirstCall(text, backend, split);
    if p.at > 0 {
      PrepareReplyAt(text, backend, split, p.at);
      forall i | 0 < i < p.at ensures backend(i, p.calls[..p.at][i]).Ok? {
        assert p.calls[..p.at][i] == p.calls[i];
        PrepareReplyAt(text, backend, split, i);
      }
    }
  }

  /** The pass made before synthesis agrees with the service's answers. */
  lemma PrepareFollowsReplies(text: string, backend: Backend, split: Splitter)
    ensures FollowsReplies(Prepare(text, backend, split), backend)
  {
    if Prepare(text, backend, split).Done? {
      PrepareDoneFollowsReplies(text, backend, split);
    } else {
      PrepareAbortedFollowsReplies(text, backend, split);
    }
  }

  /** The synthesis step after a finished pass: the call numbered after
      the pass's calls asks for the prompt over the summaries joined by a
      blank line; a stopped pass ends the run with its failure. */
  function Conclude(p: ChunkPass, prompt: string, backend: Backend): (r: Run)
    ensures r.outcome.Ok? ==> p.Done?
    ensures r.outcome.Err? ==> r.outcome.error.CompletionFailed?
    ensures |r.calls| == |p.calls| + (if p.Done? then 1 else 0) && r.calls[..|p.calls|] == p.calls
  {
    match p
    case Aborted(calls, at, cause) => Run(calls, Err(CompletionFailed(at, cause)))
    case Done(calls, summaries) =>
      var fin := Synthesize(prompt, Join(Separator, summaries));
      var n := |calls|;
      match backend(n, fin)
      case Err(cause) => Run(calls + [fin], Err(CompletionFailed(n, cause)))
      case Ok(final) => Run(calls + [fin], Ok(Trim(final)))
  }

  /** `_summarize(text, prompt)`. Blank text is rejected before any call,
      and only blank text is. Otherwise the first call preprocesses the text
      as given, and at most one call per planned chunk and the synthesis call
      follow it. */
  function Summarize(text: string, prompt: string, backend: Backend, split: Splitter): (r: Run)
    ensures IsBlank(text) <==> r.outcome == Err(EmptyText)
    ensures IsBlank(text) ==> r.calls == []
    ensures !IsBlank(text) ==> |r.calls| > 0 && r.calls[0] == Preprocess(text)
    ensures |r.calls| <= |PlannedChunks(text, backend, split)| + 2
  {
    if IsBlank(text) then Run([], Err(EmptyText))
    else
      var p := Prepare(text, backend, split);
      var r := Conclude(p, prompt, backend);
      assert r.calls[0] == r.calls[..|p.calls|][0];
      r
  }

  /** Calls follow the plan: after the preprocessing call, the `i`-th call
      summarizes the `i`-th planned chunk. */
  lemma CallsFollowPlan(text: string, prompt: string, backend: Backend, split: Splitter, i: nat)
    ensures var r := Summarize(text, prompt, backend, split);
      1 <= i < |r.calls| && i <= |PlannedChunks(text, backend, split)| ==>
        r.calls[i] == SummarizeChunk(PlannedChunks(text, backend, split)[i - 1])
  {
    var p := Prepare(text, backend, split);
    var r := Conclude(p, prompt, backend);
    if 1 <= i < |r.calls| && i <= |PlannedChunks(text, backend, split)| {
      assert i < |p.calls|;
      assert r.calls[i] == r.calls[..|p.calls|][i];
      PrepareCallAt(text, backend, split, i);
    }
  }

  /** What the synthesis step issues, for a pass that follows the answers:
      on success every call was answered, the last is the synthesis call
      over the joined summaries and the result is its stripped answer; on a
      failure the failing call is the last issued and all before it were
      answered. */
  lemma ConcludeShape(p: ChunkPass, prompt: string, backend: Backend)
    requires FollowsReplies(p, backend)
    ensures var r := Conclude(p, prompt, backend);
      && (r.outcome.Ok? ==>
            && AllAnswered(r.calls, backend)
            && |r.calls| == |p.calls| + 1
            && r.calls[|r.calls| - 1] == Synthesize(prompt, Join(Separator, p.summaries))
            && backend(|r.calls| - 1, r.calls[|r.calls| - 1]).Ok?
            && r.outcome.value == Trim(backend(|r.calls| - 1, r.calls[|r.calls| - 1]).value))
      && (r.outcome.Err? ==>
            && |r.calls| > 0
            && r.outcome.error.call == |r.calls| - 1
            && backend(|r.calls| - 1, r.calls[|r.calls| - 1]) == Err(r.outcome.error.cause)
            && AllAnswered(r.calls[..|r.calls| - 1], backend))
  {
    var r := Conclude(p, prompt, backend);
    if p.Done? {
      var fin := Synthesize(prompt, Join(Separator, p.summaries));
      assert r.calls == p.calls + [fin];
      assert r.calls[..|r.calls| - 1] == p.calls;
      assert forall i :: 0 <= i < |p.calls| ==> r.calls[i] == p.calls[i];
    }
  }

  /** Abort on failure: when a completion call fails, it is the last call
      issued (no later call goes out), every call before it was answered, and
      no summary is returned. */
  lemma FailedCallIsLast(text: string, prompt: string, backend: Backend, split: Splitter)
    requires Summarize(text, prompt, backend, split).outcome.Err?
    requires Summarize(text, prompt, backend, split).outcome.error.CompletionFailed?
    ensures var r := Summarize(text, prompt, backend, split);
      && |r.calls| > 0
      && r.outcome.error.call == |r.calls| - 1
      && backend(|r.calls| - 1, r.calls[|r.calls| - 1]) == Err(r.outcome.error.cause)
      && AllAnswered(r.calls[..|r.calls| - 1], backend)
  {
    PrepareFollowsReplies(text, backend, split);
    ConcludeShape(Prepare(text, backend, split), prompt, backend);
  }

  /** Call sequence of a successful run: every call was answered; there is
      one preprocessing call, one call per planned chunk and one synthesis
      call carrying the prompt; the summary is the stripped answer to the
      synthesis call. */
  lemma SucceededRunShape(text: string, prompt: string, backend: Backend, split: Splitter)
    requires Summarize(text, prompt, backend, split).outcome.Ok?
    ensures var r := Summarize(text, prompt, backend, split);
      && AllAnswered(r.calls, backend)
      && |r.calls| == |PlannedChunks(text, backend, split)| + 2
      && r.calls[|r.calls| - 1].Synthesize?
      && r.calls[|r.calls| - 1].prompt == prompt
      && r.outcome.value == Trim(backend(|r.calls| - 1, r.calls[|r.calls| - 1]).value)
  {
    PrepareFollowsReplies(text, backend, split);
    ConcludeShape(Prepare(text, backend, split), prompt, backend);
  }

  /** The synthesis input: a successful run's last call carries the prompt
      and the stripped answers to the chunk calls, in chunk order, joined by
      a blank line. */
  lemma SynthesisDigest(text: string, prompt: string, backend: Backend, split: Splitter)
    returns (summaries: seq<string>)
    requires Summarize(text, prompt, backend, split).outcome.Ok?
    ensures var r := Summarize(text, prompt, backend, split);
      && |summaries| == |r.calls| - 2
      && AllAnswered(r.calls, backend)
      && (forall i :: 0 <= i < |summaries| ==> summaries[i] == Trim(backend(1 + i, r.calls[1 + i]).value))
      && r.calls[|r.calls| - 1] == Synthesize(prompt, Join(Separator, summaries))
  {
    var p := Prepare(text, backend, split);
    var r := Conclude(p, prompt, backend);
    PrepareFollowsReplies(text, backend, split);
    ConcludeShape(p, prompt, backend);
    summaries := p.summaries;
    assert forall i :: 0 <= i < |p.calls| ==> r.calls[i] == r.calls[..|p.calls|][i];
  }

  /** The prompt reaches only the synthesis call: two runs over the same text
      with different prompts issue the same number of calls, the same calls
      before the last, and differ at most in the synthesis prompt. */
  lemma PromptOnlyReachesSynthesis(text: string, p: string, q: string, backend: Backend, split: Splitter)
    ensures var a := Summarize(text, p, backend, split);
      var b := Summarize(text, q, backend, split);
      && |a.calls| == |b.calls|
      && (forall i :: 0 <= i < |a.calls| - 1 ==> a.calls[i] == b.calls[i])
      && (|a.calls| > 0 && a.calls[|a.calls| - 1].Synthesize? ==>
            b.calls[|b.calls| - 1] == a.calls[|a.calls| - 1].(prompt := q))
  {
    if !IsBlank(text) {
      var c := Prepare(text, backend, split);
      if c.Done? {
        var digest := Join(Separator, c.summaries);
        assert Summarize(text, p, backend, split).calls == c.calls + [Synthesize(p, digest)];
        assert Summarize(text, q, backend, split).calls == c.calls + [Synthesize(q, digest)];
      } else {
        assert Summarize(text, p, backend, split) == Summarize(text, q, backend, split);
        if c.at > 0 {
          PrepareCallAt(text, backend, split, c.at);
        }
      }
    }
  }

  /** `short_summary`, `medium_summary` and `long_summary`: the pipeline run
      with the tier's own prompt. A successful run ends with a synthesis call
      that carries exactly that prompt, so no two tiers share a final call. */
  function SummaryFor(tier: Tier, text: string, backend: Backend, split: Splitter): (r: Run)
    ensures IsBlank(text) <==> r.outcome == Err(EmptyText)
    ensures r.outcome.Ok? ==>
      && |r.calls| >= 2
      && r.calls[|r.calls| - 1].Synthesize?
      && (forall t :: r.calls[|r.calls| - 1].prompt == TierPrompt(t) <==> t == tier)
  {
    var r := Summarize(text, TierPrompt(tier), backend, split);
    if r.outcome.Ok? then
      SucceededRunShape(text, TierPrompt(tier), backend, split);
      assert forall t :: TierPrompt(t) == TierPrompt(tier) <==> t == tier by {
        forall t { TierPromptsDistinct(t, tier); }
      }
      r
    else r
  }

  /** One answered chunk call moves from the rest of the loop into what has
      been collected. */
  lemma ResumeStep(chunks: seq<string>, backend: Backend, k: nat, done: seq<Request>, summaries: seq<string>)
    requires k < |chunks| && ChunkReply(backend, 1 + k, chunks[k]).Ok?
    ensures Resume(done, summaries, RunChunks(chunks[k..], backend, 1 + k))
         == Resume(done + [SummarizeChunk(chunks[k])],
                   summaries + [Trim(ChunkReply(backend, 1 + k, chunks[k]).value)],
                   RunChunks(chunks[k + 1..], backend, 1 + (k + 1)))
  {
    assert chunks[k..][0] == chunks[k];
    assert chunks[k..][1..] == chunks[k + 1..];
    var req := SummarizeChunk(chunks[k]);
    var reply := Trim(ChunkReply(backend, 1 + k, chunks[k]).value);
    match RunChunks(chunks[k + 1..], backend, 1 + (k + 1))
    case Done(calls, more) =>
      assert done + ([req] + calls) == done + [req] + calls;
      assert summaries + ([reply] + more) == summaries + [reply] + more;
    case Aborted(calls, at, cause) =>
      assert done + ([req] + calls) == done + [req] + calls;
  }

  /** Nothing collected yet: the loop is the whole pass. */
  lemma ResumeStart(chunks: seq<string>, backend: Backend)
    ensures Resume([], [], RunChunks(chunks[0..], backend, 1)) == RunChunks(chunks, backend, 1)
  {
    assert chunks[0..] == chunks;
    match RunChunks(chunks, backend, 1) {
      case Done(c, m) => assert [] + c == c && [] + m == m;
      case Aborted(c, _, _) => assert [] + c == c;
    }
  }

  /** A failing chunk call ends the pass right after it. */
  lemma ResumeAbort(chunks: seq<string>, backend: Backend, k: nat, done: seq<Request>, summaries: seq<string>)
    requires k < |chunks| && ChunkReply(backend, 1 + k, chunks[k]).Err?
    ensures Resume(done, summaries, RunChunks(chunks[k..], backend, 1 + k))
         == Aborted(done + [SummarizeChunk(chunks[k])], 1 + k, ChunkReply(backend, 1 + k, chunks[k]).error)
  {
    assert chunks[k..][0] == chunks[k];
  }

  /** With every chunk answered, the pass is what has been collected. */
  lemma ResumeEnd(chunks: seq<string>, backend: Backend, done: seq<Request>, summaries: seq<string>)
    ensures Resume(done, summaries, RunChunks(chunks[|chunks|..], backend, 1 + |chunks|)) == Done(done, summaries)
  {
    assert chunks[|chunks|..] == [];
    assert done + [] == done && summaries + [] == summaries;
  }

  /** The `for chunk in chunks` loop of `_summarize` as written, calls
      numbered from 1: it stops at the first failing call, as the model does. */
  method ChunkLoop(chunks: seq<string>, backend: Backend) returns (p: ChunkPass)
    ensures p == RunChunks(chunks, backend, 1)
  {
    var done: seq<Request> := [];
    var summaries: seq<string> := [];
    var k := 0;
    ResumeStart(chunks, backend);
    while k < |chunks|
      invariant 0 <= k <= |chunks|
      invariant Resume(done, summaries, RunChunks(chunks[k..], backend, 1 + k)) == RunChunks(chunks, backend, 1)
    {
      var reply := backend(1 + k, SummarizeChunk(chunks[k]));
      if reply.Err? {
        ResumeAbort(chunks, backend, k, done, summaries);
        return Aborted(done + [SummarizeChunk(chunks[k])], 1 + k, reply.error);
      }
      ResumeStep(chunks, backend, k, done, summaries);
      done := done + [SummarizeChunk(chunks[k])];
      summaries := summaries + [Trim(reply.value)];
      k := k + 1;
    }
    ResumeEnd(chunks, backend, done, summaries);
    return Done(done, summaries);
  }

  /** `_summarize` as written, statement by statement; it issues exactly the
      calls of the model and reaches the same outcome. */
  method SummarizeLoop(text: string, prompt: string, backend: Backend, split: Splitter)
    returns (calls: seq<Request>, outcome: Result<string, SummarizeError>)
    ensures Run(calls, outcome) == Summarize(text, prompt, backend, split)
  {
    if IsBlank(text) {
      return [], Err(EmptyText);
    }
    var pre := Preprocess(text);
    var cleaned := backend(0, pre);
    if cleaned.Err? {
      return [pre], Err(CompletionFailed(0, cleaned.error));
    }
    var chunks := split(Trim(cleaned.value));
    var pass := ChunkLoop(chunks, backend);
    ghost var prepared := Resume([pre], [], pass);
    assert Prepare(text, backend, split) == prepared;
    assert Summarize(text, prompt, backend, split) == Conclude(prepared, prompt, backend);
    if pass.Aborted? {
      return [pre] + pass.calls, Err(CompletionFailed(pass.at, pass.cause));
    }
    var fin := Synthesize(prompt, Join(Separator, pass.summaries));
    var n := 1 + |chunks|;
    assert prepared == Done([pre] + pass.calls, [] + pass.summaries);
    assert [] + pass.summaries == pass.summaries && |prepared.calls| == n;
    var final := backend(n, fin);
    if final.Err? {
      return [pre] + pass.calls + [fin], Err(CompletionFailed(n, final.error));
    }
    return [pre] + pass.calls + [fin], Ok(Trim(final.value));
  }
}
