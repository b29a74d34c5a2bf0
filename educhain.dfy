/** The EduChain pipeline (app/educhain.py): moderate the prompt, stop with a
    ValueError when it is unsafe, otherwise retrieve one context for the
    prompt and ask every configured LLM client with the same prompt and
    context, collecting a dict from client name to answer.

    Every collaborator is an awaited call that returns or raises; each is a
    total function here. `asyncio.gather` returns its results in argument
    order, whatever order the calls complete in, so the fan-out is a
    sequential function over the clients in `llm_clients.items()` order. */
module Educhain {
  import opened Outcomes
  import LlmClient

  datatype ModerationResult = ModerationResult(isSafe: bool, reason: string)

  /** `guardrails.moderate(text)` */
  type Moderator = string -> Outcome<ModerationResult>
  /** `indexer.retrieve(question)` */
  type Retriever = string -> Outcome<string>
  /** `client.ask(prompt, context=context)` of one LLM client */
  type Client = (string, string) -> Outcome<LlmClient.LLMResult>

  /** A dict as the sequence of its items, in insertion order. */
  predicate DistinctKeys<V>(items: seq<(string, V)>) {
    forall i, j :: 0 <= i < j < |items| ==> items[i].0 != items[j].0
  }

  /** `dict(pairs)`: every pair is inserted in order, so a later pair with
      the same key overwrites an earlier one. */
  function DictOf<V>(pairs: seq<(string, V)>): (m: map<string, V>)
    ensures forall k :: k in m <==> exists i :: 0 <= i < |pairs| && pairs[i].0 == k
    ensures forall i :: 0 <= i < |pairs| && (forall j :: i < j < |pairs| ==> pairs[j].0 != pairs[i].0) ==>
      m[pairs[i].0] == pairs[i].1
    decreases |pairs|
  {
    if pairs == [] then map[]
    else
      var init, last := pairs[..|pairs| - 1], pairs[|pairs| - 1];
      var m0 := DictOf(init);
      assert forall i :: 0 <= i < |init| ==> init[i] == pairs[i];
      m0[last.0 := last.1]
  }

  datatype EduChainMultiResult = EduChainMultiResult(context: string, answers: map<string, string>)

  /** The object built by `EduChain.__init__`; its fields are never updated. */
  datatype EduChain = EduChain(guardrails: Moderator, indexer: Retriever, llmClients: seq<(string, Client)>)
  {
    /** `llm_clients` is a dict, so its names are distinct. */
    predicate Valid() {
      DistinctKeys(llmClients)
    }

    /** The dict `llm_clients` as a map. */
    function Clients(): map<string, Client> {
      DictOf(llmClients)
    }
  }

  /** How `process` ends: a ValueError raised for a blocked prompt, an
      exception re-raised from a collaborator, or a result. */
  datatype ProcessResult =
    | Blocked(message: string)
    | Failed
    | Ok(result: EduChainMultiResult)

  /** One call of a collaborator, with its arguments. */
  datatype Call =
    | Moderate(text: string)
    | Retrieve(query: string)
    | AskLlm(name: string, prompt: string, context: string)

  /** A run of `process`: how it ends and the collaborator calls it made, in
      the order it made them. */
  datatype Execution = Execution(result: ProcessResult, calls: seq<Call>)

  const BlockedPrefix: string := "Blocked by guardrails: "

  /** `asyncio.gather(*(ask_llm(name, client) for ...))` without
      `return_exceptions`: the (name, answer) pairs in argument order, or an
      exception when any client raised. */
  function Gather(items: seq<(string, Client)>, prompt: string, context: string): (r: Outcome<seq<(string, string)>>)
    ensures r.Returned? <==> forall i :: 0 <= i < |items| ==> items[i].1(prompt, context).Returned?
    ensures r.Returned? ==> |r.value| == |items| && forall i :: 0 <= i < |items| ==>
      r.value[i] == (items[i].0, items[i].1(prompt, context).value.answer)
  {
    if items == [] then Returned([])
    else
      match items[0].1(prompt, context)
      case Raised => Raised
      case Returned(first) =>
        match Gather(items[1..], prompt, context)
        case Raised =>
          assert forall i :: 1 <= i < |items| ==> items[i] == items[1..][i - 1];
          Raised
        case Returned(rest) =>
          assert forall i :: 1 <= i < |items| ==> items[i] == items[1..][i - 1];
          Returned([(items[0].0, first.answer)] + rest)
  }

  /** The `ask` calls the fan-out issues: `gather` schedules one task per
      client, in `items()` order, and every task runs even when another one
      raises. */
  function FanOutCalls(items: seq<(string, Client)>, prompt: string, context: string): (calls: seq<Call>)
    ensures |calls| == |items|
    ensures forall i :: 0 <= i < |items| ==> calls[i] == AskLlm(items[i].0, prompt, context)
  {
    seq(|items|, i requires 0 <= i < |items| => AskLlm(items[i].0, prompt, context))
  }

  /** `EduChain.process(prompt)`, with the calls it makes. */
  function Run(chain: EduChain, prompt: string): (e: Execution)
    ensures |e.calls| >= 1 && e.calls[0] == Moderate(prompt)
  {
    match chain.guardrails(prompt)
    case Raised => Execution(Failed, [Moderate(prompt)])
    case Returned(moderation) =>
      if !moderation.isSafe then
        Execution(Blocked(BlockedPrefix + moderation.reason), [Moderate(prompt)])
      else
        match chain.indexer(prompt)
        case Raised => Execution(Failed, [Moderate(prompt), Retrieve(prompt)])
        case Returned(context) =>
          var calls := [Moderate(prompt), Retrieve(prompt)] + FanOutCalls(chain.llmClients, prompt, context);
          match Gather(chain.llmClients, prompt, context)
          case Raised => Execution(Failed, calls)
          case Returned(pairs) => Execution(Ok(EduChainMultiResult(context, DictOf(pairs))), calls)
  }

  /** What `process(prompt)` returns or raises. */
  function Process(chain: EduChain, prompt: string): (r: ProcessResult)
    ensures r.Blocked? <==> chain.guardrails(prompt).Returned? && !chain.guardrails(prompt).value.isSafe
    ensures r.Blocked? ==> r.message == BlockedPrefix + chain.guardrails(prompt).value.reason
    ensures r.Ok? ==> chain.indexer(prompt).Returned? && r.result.context == chain.indexer(prompt).value
  {
    Run(chain, prompt).result
  }
}
