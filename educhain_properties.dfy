/** What `EduChain.process` promises: the ordering of its collaborator calls,
    the blocked path, the shape of a successful result and its independence
    from the order of the clients. */
module EduchainProperties {
  import opened Outcomes
  import LlmClient
  import opened Educhain

  /** With distinct names, looking a client up by name in `llm_clients`
      gives the client stored under that name. */
  lemma {:induction false} ClientsLookup(chain: EduChain)
    requires chain.Valid()
    ensures forall n :: n in chain.Clients() <==> exists i :: 0 <= i < |chain.llmClients| && chain.llmClients[i].0 == n
    ensures forall i :: 0 <= i < |chain.llmClients| ==> chain.Clients()[chain.llmClients[i].0] == chain.llmClients[i].1
  {
    var items := chain.llmClients;
    forall i | 0 <= i < |items|
      ensures chain.Clients()[items[i].0] == items[i].1
    {
      assert forall j :: i < j < |items| ==> items[j].0 != items[i].0;
    }
  }

  /** Every client in the dict answers the prompt and context. */
  ghost predicate AllAnswer(clients: map<string, Client>, prompt: string, context: string) {
    forall n :: n in clients ==> clients[n](prompt, context).Returned?
  }

  /** The safe path of `process` once the retriever returned: the calls
      are moderate, retrieve, then one `ask` per client, and the outcome is
      that of `gather`. */
  lemma SafeRunShape(chain: EduChain, prompt: string)
    requires chain.guardrails(prompt).Returned? && chain.guardrails(prompt).value.isSafe
    requires chain.indexer(prompt).Returned?
    ensures var context := chain.indexer(prompt).value;
      Run(chain, prompt).calls == [Moderate(prompt), Retrieve(prompt)] + FanOutCalls(chain.llmClients, prompt, context)
    ensures var context := chain.indexer(prompt).value;
      var g := Gather(chain.llmClients, prompt, context);
      Run(chain, prompt).result == if g.Raised? then Failed else Ok(EduChainMultiResult(context, DictOf(g.value)))
  {
  }

  /** Unsafe verdict: `process` raises the ValueError and no collaborator
      other than the moderator is called. */
  lemma BlockedRun(chain: EduChain, prompt: string)
    requires chain.guardrails(prompt).Returned? && !chain.guardrails(prompt).value.isSafe
    ensures Run(chain, prompt).result == Blocked("Blocked by guardrails: " + chain.guardrails(prompt).value.reason)
    ensures Run(chain, prompt).calls == [Moderate(prompt)]
  {
  }

  /** The retriever and the LLM clients are called only after the moderator
      returned a safe verdict. */
  lemma {:induction false} NoCallsUnlessSafe(chain: EduChain, prompt: string)
    ensures (exists i :: 0 <= i < |Run(chain, prompt).calls| && !Run(chain, prompt).calls[i].Moderate?) ==>
      chain.guardrails(prompt).Returned? && chain.guardrails(prompt).value.isSafe
  {
  }

  /** Every run, whatever the moderator does, calls it exactly once and
      before anything else. */
  lemma {:induction false} ModeratedOnce(chain: EduChain, prompt: string)
    ensures var calls := Run(chain, prompt).calls;
      calls[0] == Moderate(prompt) && forall i :: 1 <= i < |calls| ==> !calls[i].Moderate?
  {
    if chain.guardrails(prompt).Returned? && chain.guardrails(prompt).value.isSafe && chain.indexer(prompt).Returned? {
      var calls := Run(chain, prompt).calls;
      var fan := FanOutCalls(chain.llmClients, prompt, chain.indexer(prompt).value);
      SafeRunShape(chain, prompt);
      assert forall i :: 2 <= i < |calls| ==> calls[i] == fan[i - 2];
    }
  }

  /** Safe verdict: the moderator is called first, the retriever exactly once,
      second, with the unmodified prompt, and every later call is an `ask`. */
  lemma {:induction false} SafeRetrievesOnce(chain: EduChain, prompt: string)
    requires chain.guardrails(prompt).Returned? && chain.guardrails(prompt).value.isSafe
    ensures var calls := Run(chain, prompt).calls;
      |calls| >= 2 && calls[0] == Moderate(prompt) && calls[1] == Retrieve(prompt) &&
      forall i :: 2 <= i < |calls| ==> calls[i].AskLlm?
  {
  }

  /** The calls of a run that reached the fan-out: each `ask` carries the
      prompt and the context, and no client is named twice. */
  lemma {:induction false} FanOutCallsOnce(items: seq<(string, Client)>, prompt: string, context: string)
    requires DistinctKeys(items)
    ensures var calls := [Moderate(prompt), Retrieve(prompt)] + FanOutCalls(items, prompt, context);
      (forall i :: 0 <= i < |calls| && calls[i].AskLlm? ==>
        calls[i].prompt == prompt && calls[i].context == context) &&
      (forall i, j :: (0 <= i < |calls| && 0 <= j < |calls| && calls[i].AskLlm? && calls[j].AskLlm? &&
        calls[i].name == calls[j].name) ==> i == j)
  {
    var fan := FanOutCalls(items, prompt, context);
    var calls := [Moderate(prompt), Retrieve(prompt)] + fan;
    assert forall i :: 2 <= i < |calls| ==> calls[i] == fan[i - 2];
  }

  /** Every `ask` of a run that reached the fan-out names a configured
      client. */
  lemma {:induction false} FanOutCallsConfigured(chain: EduChain, prompt: string, context: string)
    requires chain.Valid()
    ensures var calls := [Moderate(prompt), Retrieve(prompt)] + FanOutCalls(chain.llmClients, prompt, context);
      forall i :: 0 <= i < |calls| && calls[i].AskLlm? ==> calls[i].name in chain.Clients()
  {
    var items := chain.llmClients;
    var fan := FanOutCalls(items, prompt, context);
    var calls := [Moderate(prompt), Retrieve(prompt)] + fan;
    forall i | 0 <= i < |calls| && calls[i].AskLlm?
      ensures calls[i].name in chain.Clients()
    {
      assert calls[i] == fan[i - 2];
      assert calls[i].name == items[i - 2].0;
    }
  }

  /** A run that reached the fan-out asks every configured client. */
  lemma {:induction false} FanOutCallsAll(chain: EduChain, prompt: string, context: string)
    requires chain.Valid()
    ensures var calls := [Moderate(prompt), Retrieve(prompt)] + FanOutCalls(chain.llmClients, prompt, context);
      forall n :: n in chain.Clients() ==> AskLlm(n, prompt, context) in calls
  {
    var items := chain.llmClients;
    var fan := FanOutCalls(items, prompt, context);
    var calls := [Moderate(prompt), Retrieve(prompt)] + fan;
    forall n | n in chain.Clients()
      ensures AskLlm(n, prompt, context) in calls
    {
      ClientsLookup(chain);
      var i :| 0 <= i < |items| && items[i].0 == n;
      assert calls[i + 2] == fan[i];
    }
  }

  /** Every LLM client is asked with the original prompt and exactly the
      context the retriever returned, and each client is asked once. */
  lemma {:induction false} SameInputsForEveryClient(chain: EduChain, prompt: string)
    requires chain.Valid()
    ensures var calls := Run(chain, prompt).calls;
      forall i :: 0 <= i < |calls| && calls[i].AskLlm? ==>
        calls[i].prompt == prompt && chain.indexer(prompt).Returned? &&
        calls[i].context == chain.indexer(prompt).value && calls[i].name in chain.Clients()
    ensures var calls := Run(chain, prompt).calls;
      forall i, j :: (0 <= i < |calls| && 0 <= j < |calls| && calls[i].AskLlm? && calls[j].AskLlm? &&
        calls[i].name == calls[j].name) ==> i == j
    ensures var calls := Run(chain, prompt).calls;
      chain.guardrails(prompt).Returned? && chain.guardrails(prompt).value.isSafe && chain.indexer(prompt).Returned? ==>
        forall n :: n in chain.Clients() ==> AskLlm(n, prompt, chain.indexer(prompt).value) in calls
  {
    var calls := Run(chain, prompt).calls;
    if chain.guardrails(prompt).Returned? && chain.guardrails(prompt).value.isSafe && chain.indexer(prompt).Returned? {
      SafeRunShape(chain, prompt);
      FanOutCallsOnce(chain.llmClients, prompt, chain.indexer(prompt).value);
      FanOutCallsConfigured(chain, prompt, chain.indexer(prompt).value);
      FanOutCallsAll(chain, prompt, chain.indexer(prompt).value);
    } else if chain.guardrails(prompt).Returned? && chain.guardrails(prompt).value.isSafe {
      assert calls == [Moderate(prompt), Retrieve(prompt)];
    } else {
      assert calls == [Moderate(prompt)];
    }
  }

  /** `gather` returns exactly when every client in the dict answers. */
  lemma {:induction false} GatherReturnsIffAllAnswer(chain: EduChain, prompt: string, context: string)
    requires chain.Valid()
    ensures Gather(chain.llmClients, prompt, context).Returned? <==> AllAnswer(chain.Clients(), prompt, context)
  {
    var items := chain.llmClients;
    ClientsLookup(chain);
    if AllAnswer(chain.Clients(), prompt, context) {
      forall i | 0 <= i < |items| ensures items[i].1(prompt, context).Returned? {
        assert items[i].0 in chain.Clients();
      }
    }
    if !Gather(items, prompt, context).Returned? {
      var i :| 0 <= i < |items| && items[i].1(prompt, context).Raised?;
      assert items[i].0 in chain.Clients();
    }
  }

  /** The dict built from the gathered pairs has one entry per client
      name. */
  lemma {:induction false} GatheredKeys(chain: EduChain, prompt: string, context: string)
    requires Gather(chain.llmClients, prompt, context).Returned?
    ensures DictOf(Gather(chain.llmClients, prompt, context).value).Keys == chain.Clients().Keys
  {
    var items := chain.llmClients;
    var pairs := Gather(items, prompt, context).value;
    var answers := DictOf(pairs);
    forall n ensures n in answers <==> n in chain.Clients() {
      if n in answers {
        var i :| 0 <= i < |pairs| && pairs[i].0 == n;
        assert items[i].0 == n;
      }
      if n in chain.Clients() {
        var i :| 0 <= i < |items| && items[i].0 == n;
        assert pairs[i].0 == n;
      }
    }
  }

  /** The gathered dict maps the name at position `i` of `llm_clients` to
      the answer of the client at that position. */
  lemma {:induction false} GatheredAnswerAt(items: seq<(string, Client)>, prompt: string, context: string, i: nat)
    requires DistinctKeys(items) && i < |items|
    requires Gather(items, prompt, context).Returned?
    ensures var answers := DictOf(Gather(items, prompt, context).value);
      items[i].0 in answers && answers[items[i].0] == items[i].1(prompt, context).value.answer
  {
    var pairs := Gather(items, prompt, context).value;
    assert pairs[i] == (items[i].0, items[i].1(prompt, context).value.answer);
    assert forall j :: i < j < |pairs| ==> pairs[j].0 != pairs[i].0;
  }

  /** Each entry of the dict built from the gathered pairs holds the answer
      of the client configured under that name. */
  lemma {:induction false} GatheredAnswers(chain: EduChain, prompt: string, context: string)
    requires chain.Valid()
    requires Gather(chain.llmClients, prompt, context).Returned?
    ensures var answers := DictOf(Gather(chain.llmClients, prompt, context).value);
      forall n :: n in answers ==> n in chain.Clients() && answers[n] == chain.Clients()[n](prompt, context).value.answer
  {
    var items := chain.llmClients;
    var answers := DictOf(Gather(items, prompt, context).value);
    GatheredKeys(chain, prompt, context);
    forall n | n in answers
      ensures n in chain.Clients() && answers[n] == chain.Clients()[n](prompt, context).value.answer
    {
      ClientsLookup(chain);
      var i :| 0 <= i < |items| && items[i].0 == n;
      GatheredAnswerAt(items, prompt, context, i);
    }
  }

  /** `process` succeeds exactly when the verdict is safe, retrieval returns
      and every client answers; the result then holds the retrieved context
      unchanged and one answer per configured client name, that client's
      `result.answer`. */
  lemma {:induction false} SuccessfulResult(chain: EduChain, prompt: string)
    requires chain.Valid()
    ensures Process(chain, prompt).Ok? <==>
      chain.guardrails(prompt).Returned? && chain.guardrails(prompt).value.isSafe &&
      chain.indexer(prompt).Returned? && AllAnswer(chain.Clients(), prompt, chain.indexer(prompt).value)
    ensures Process(chain, prompt).Ok? ==>
      var context := chain.indexer(prompt).value;
      var answers := Process(chain, prompt).result.answers;
      Process(chain, prompt).result.context == context &&
      answers.Keys == chain.Clients().Keys &&
      forall n :: n in answers ==> answers[n] == chain.Clients()[n](prompt, context).value.answer
  {
    if chain.guardrails(prompt).Returned? && chain.guardrails(prompt).value.isSafe && chain.indexer(prompt).Returned? {
      var context := chain.indexer(prompt).value;
      SafeRunShape(chain, prompt);
      GatherReturnsIffAllAnswer(chain, prompt, context);
      if Gather(chain.llmClients, prompt, context).Returned? {
        GatheredKeys(chain, prompt, context);
        GatheredAnswers(chain, prompt, context);
      }
    }
  }

  /** No partial result: when any configured client raises, `process` raises
      too and returns no answers. */
  lemma {:induction false} AnyClientFailureFails(chain: EduChain, prompt: string, name: string)
    requires chain.Valid()
    requires chain.guardrails(prompt).Returned? && chain.guardrails(prompt).value.isSafe
    requires chain.indexer(prompt).Returned?
    requires name in chain.Clients() && chain.Clients()[name](prompt, chain.indexer(prompt).value).Raised?
    ensures Process(chain, prompt) == Failed
  {
    SuccessfulResult(chain, prompt);
  }

  /** The result depends on the clients only through the dict from name to
      client: reordering `llm_clients` (and with it the order the answers are
      gathered in) changes nothing. */
  lemma {:induction false} OrderIndependent(a: EduChain, b: EduChain, prompt: string)
    requires a.Valid() && b.Valid()
    requires a.guardrails == b.guardrails && a.indexer == b.indexer
    requires a.Clients() == b.Clients()
    ensures Process(a, prompt) == Process(b, prompt)
  {
    if a.guardrails(prompt).Returned? && a.guardrails(prompt).value.isSafe && a.indexer(prompt).Returned? {
      var context := a.indexer(prompt).value;
      SafeRunShape(a, prompt);
      SafeRunShape(b, prompt);
      GatherReturnsIffAllAnswer(a, prompt, context);
      GatherReturnsIffAllAnswer(b, prompt, context);
      if Gather(a.llmClients, prompt, context).Returned? {
        GatheredKeys(a, prompt, context);
        GatheredKeys(b, prompt, context);
        GatheredAnswers(a, prompt, context);
        GatheredAnswers(b, prompt, context);
        var ansA := DictOf(Gather(a.llmClients, prompt, context).value);
        var ansB := DictOf(Gather(b.llmClients, prompt, context).value);
        assert ansA == ansB;
      }
    }
  }

  /** A client built on `LangChainLLMClient`: `ask(prompt, context=context)`. */
  function LangChainClient(llm: LlmClient.Invoke): Client {
    (prompt, context) => LlmClient.AskResult(llm, prompt, LlmClient.Text(context))
  }

  /** With LangChain clients, each answer is the `text` entry of that LLM's
      reply to {"question": prompt} plus the retrieved context, which is left
      out when the retriever returned "". */
  lemma {:induction false} LangChainAnswers(chain: EduChain, prompt: string, llms: map<string, LlmClient.Invoke>)
    requires chain.Valid()
    requires forall n :: n in chain.Clients() ==> n in llms && chain.Clients()[n] == LangChainClient(llms[n])
    ensures Process(chain, prompt).Ok? ==>
      var context := chain.indexer(prompt).value;
      var request := LlmClient.Request(prompt, LlmClient.Text(context));
      var answers := Process(chain, prompt).result.answers;
      ("context" in request <==> context != "") &&
      forall n :: n in answers ==> llms[n](request).Returned? && answers[n] == LlmClient.TextOf(llms[n](request).value)
  {
    SuccessfulResult(chain, prompt);
    if Process(chain, prompt).Ok? {
      var context := chain.indexer(prompt).value;
      var request := LlmClient.Request(prompt, LlmClient.Text(context));
      var answers := Process(chain, prompt).result.answers;
      forall n | n in answers
        ensures llms[n](request).Returned? && answers[n] == LlmClient.TextOf(llms[n](request).value)
      {
        assert chain.Clients()[n](prompt, context) == LlmClient.AskResult(llms[n], prompt, LlmClient.Text(context));
      }
    }
  }

  /** The blocked-prompt test: a moderator answering unsafe with reason
      "hate" makes `process` raise "Blocked by guardrails: hate", and neither
      the indexer nor the client is called. */
  lemma BlockedPromptTest(indexer: Retriever, llm: Client)
    ensures var chain := EduChain(_ => Returned(ModerationResult(false, "hate")), indexer, [("m1", llm)]);
      Run(chain, "some unsafe prompt") == Execution(Blocked("Blocked by guardrails: hate"), [Moderate("some unsafe prompt")])
  {
    assert "Blocked by guardrails: " + "hate" == "Blocked by guardrails: hate";
  }
}
