/** The LangChain client (app/llm_client.py): it shapes the request dict sent
    to the wrapped LLM's `invoke` and reads the answer out of the reply dict.
    `invoke` itself is a parameter: a function from request dict to reply
    dict that may raise. */
module LlmClient {
  import opened Outcomes

  /** A Python dict with string keys and string values. */
  type Dict = map<string, string>

  /** The wrapped LangChain object's `invoke`. */
  type Invoke = Dict -> Outcome<Dict>

  datatype LLMResult = LLMResult(answer: string)

  /** The optional `context` argument of `ask`: `None` or a string. */
  datatype Context = NoContext | Text(text: string)

  /** Python truthiness of the context: `None` and `""` are both false. */
  predicate Truthy(context: Context) {
    context.Text? && context.text != ""
  }

  /** The request dict `call_llm` builds before calling `invoke`. */
  function Request(prompt: string, context: Context): (req: Dict)
    ensures "question" in req && req["question"] == prompt
    ensures "context" in req <==> Truthy(context)
    ensures "context" in req ==> req["context"] == context.text
    ensures forall k :: k in req ==> k == "question" || k == "context"
  {
    var input := map["question" := prompt];
    if Truthy(context) then input["context" := context.text] else input
  }

  /** `reply.get("text", "")`. */
  function TextOf(reply: Dict): (answer: string)
    ensures "text" in reply ==> answer == reply["text"]
    ensures "text" !in reply ==> answer == ""
  {
    if "text" in reply then reply["text"] else ""
  }

  /** What `call_llm` yields: the text of the reply to the shaped request,
      or the exception `invoke` raised. */
  function Reply(llm: Invoke, prompt: string, context: Context): Outcome<string> {
    match llm(Request(prompt, context))
    case Raised => Raised
    case Returned(reply) => Returned(TextOf(reply))
  }

  /** What `ask` yields: the reply text wrapped in an LLMResult. */
  function AskResult(llm: Invoke, prompt: string, context: Context): Outcome<LLMResult> {
    match Reply(llm, prompt, context)
    case Raised => Raised
    case Returned(text) => Returned(LLMResult(text))
  }

  /** The inner `call_llm`: builds the request dict step by step, updating it
      in place with the context when the context is truthy, calls `invoke`
      and extracts the `text` entry. */
  method CallLlm(llm: Invoke, prompt: string, context: Context) returns (r: Outcome<string>)
    ensures r == Reply(llm, prompt, context)
  {
    var inputData: Dict := map["question" := prompt];
    if Truthy(context) {
      inputData := inputData["context" := context.text];
    }
    var result := llm(inputData);
    match result {
      case Raised =>
        r := Raised;
      case Returned(reply) =>
        r := Returned(TextOf(reply));
    }
  }

  /** `LangChainLLMClient.ask`: runs `call_llm` and wraps its text. */
  method Ask(llm: Invoke, prompt: string, context: Context) returns (r: Outcome<LLMResult>)
    ensures r == AskResult(llm, prompt, context)
  {
    var answer := CallLlm(llm, prompt, context);
    match answer {
      case Raised =>
        r := Raised;
      case Returned(text) =>
        r := Returned(LLMResult(text));
    }
  }

  /** `ask` fails exactly when `invoke` raises on the shaped request, and
      otherwise its answer is the reply's `text` entry, or "" without one. */
  lemma AskAnswer(llm: Invoke, prompt: string, context: Context)
    ensures AskResult(llm, prompt, context).Raised? <==> llm(Request(prompt, context)).Raised?
    ensures llm(Request(prompt, context)).Returned? ==>
      var reply := llm(Request(prompt, context)).value;
      AskResult(llm, prompt, context).value.answer == (if "text" in reply then reply["text"] else "")
  {
  }

  /** The request dict is determined by the prompt and by the context only
      through its truthiness: `None` and `""` give the same request. */
  lemma RequestIgnoresFalsyContext(prompt: string)
    ensures Request(prompt, NoContext) == Request(prompt, Text("")) == map["question" := prompt]
  {
  }

  /** Two calls send the same request exactly when they have the same prompt
      and their contexts are both falsy or the same truthy string. */
  lemma RequestInjective(p1: string, c1: Context, p2: string, c2: Context)
    ensures Request(p1, c1) == Request(p2, c2) <==>
      p1 == p2 && Truthy(c1) == Truthy(c2) && (Truthy(c1) ==> c1.text == c2.text)
  {
    if Request(p1, c1) == Request(p2, c2) {
      assert Request(p1, c1)["question"] == p1;
    }
  }

  /** The single test of the client: a fake LLM whose reply is
      {"text": answer} makes `ask` return that answer. */
  lemma FakeLlmAnswer(answer: string)
    ensures AskResult(d => Returned(map["text" := answer]), "What is the meaning of life?", Text("philosophy"))
      == Returned(LLMResult(answer))
  {
  }
}
