# EduChain request pipeline, modelled in Dafny

This project models the request pipeline of edu-guard-demo, `EduChain.process`.
The pipeline moderates a prompt. If the prompt is unsafe, it raises
`ValueError("Blocked by guardrails: " + reason)`. Otherwise it retrieves one
context string for the prompt. It then asks every configured LLM client with
the same prompt and context, and returns the context together with a dict
from client name to answer. The project also models the request shaping and
answer extraction of `LangChainLLMClient.ask`.

Files:

- `outcome.dfy`: `Outcome<T>`, the result of one awaited collaborator call.
  It either returns a value or raises. The pipeline re-raises what it gets
  untouched, so a raise carries no payload.
- `llm_client.dfy` (module `LlmClient`): `Request` is the request dict.
  `question` is always present, and `context` is present only when the
  context is truthy. `TextOf` is `reply.get("text", "")`. `CallLlm` starts from
  `{"question": prompt}` and adds `context` to the local map when the context
  is truthy. Nothing else holds the dict before `invoke`, so this matches
  Python's in-place `input_data["context"] = context`. `Ask` wraps
  the text in an `LLMResult`. LangChain's `invoke` is a parameter: a total
  function from request dict to reply dict that may raise.
- `educhain.dfy` (module `Educhain`): the collaborators are functions.
  `guardrails.moderate`, `indexer.retrieve` and each client's `ask` return
  or raise. `EduChain` holds the three collaborators, as `__init__` stores
  them. `llm_clients` is kept as its `items()` sequence with distinct names.
  `Gather` is `asyncio.gather` without `return_exceptions`: it returns the
  pairs in argument order, or raises when any client raises. `DictOf` is
  `dict(pairs)`, where a later pair overwrites an earlier one. `Run` is
  `process` together with the trace of the collaborator calls it makes, in
  order. `Process` is its outcome: `Blocked(message)` for the ValueError,
  `Failed` for a re-raised collaborator exception, or `Ok(result)`.
- `educhain_properties.dfy` (module `EduchainProperties`): the blocked path,
  the order of the calls, the retriever being called once, identical inputs
  for every client, the shape of a successful result, no partial result, and
  independence from the order of the clients.

`asyncio.gather` returns results in argument order, whatever order the calls
complete in. So the order in which concurrent answers complete cannot affect
the result. `OrderIndependent` proves the stronger fact that the order of the
entries in `llm_clients` cannot affect it either. The result depends only on
the mapping from name to client.

`tests/test_educhain.py` is out of date against `app/educhain.py`. It
imports `EduChainResult`, passes a single client rather than a dict, and reads
`.answer`. The code has `EduChainMultiResult`, a dict of clients and
`.answers`. The model follows the code. Only the blocked-prompt test matches
the code, and that is the one modelled (`BlockedPromptTest`).

## Model

| member | source | states |
|---|---|---|
| `LlmClient.Request` | app/llm_client.py:30-32 | the request always maps `question` to the prompt; it has key `context` iff the context is truthy (neither `None` nor `""`), and then maps it to the context unchanged; it has no other keys |
| `LlmClient.TextOf` | app/llm_client.py:35 | the answer is the reply's `text` entry when present, `""` otherwise |
| `LlmClient.CallLlm` | app/llm_client.py:29-35 | building the dict in place and conditionally adding `context` yields the reply text of `invoke` applied to exactly `Request(prompt, context)`, or its exception |
| `LlmClient.Ask` | app/llm_client.py:22-38 | `ask` returns an `LLMResult` whose answer is what `call_llm` extracted, or raises what `invoke` raised |
| `LlmClient.AskAnswer` | app/llm_client.py:34-38 | `ask` raises iff `invoke` raises on the shaped request; otherwise the answer is the reply's `text` entry or `""` |
| `LlmClient.RequestIgnoresFalsyContext` | app/llm_client.py:31-32 | `None` and `""` as context both give the request `{"question": prompt}` |
| `LlmClient.RequestInjective` | app/llm_client.py:30-32 | two requests are equal iff their prompts are equal and their contexts are both falsy or the same truthy string |
| `LlmClient.FakeLlmAnswer` | tests/test_llm_client.py:18-27 | with a fake LLM replying `{"text": answer}`, `ask` returns `LLMResult(answer)` |
| `Educhain.DictOf` | app/educhain.py:37-39 | `dict(pairs)` has exactly the keys of the pairs, and a key's value is the one from its last pair |
| `Educhain.Gather` | app/educhain.py:34-39 | `gather` returns iff every client returns; its list then holds, in argument order, each client's name paired with its `result.answer` |
| `Educhain.FanOutCalls` | app/educhain.py:37-38 | the fan-out calls `ask` once per client, in `items()` order, each with the prompt and the context |
| `Educhain.Run` | app/educhain.py:26 | the first collaborator call of every run is moderation of the prompt |
| `Educhain.Process` | app/educhain.py:20-40 | `process` raises the ValueError iff the verdict is unsafe, with message `"Blocked by guardrails: " + reason`; a result carries the retriever's output unchanged as its context |
| `EduchainProperties.SafeRunShape` | app/educhain.py:30-40 | after a safe verdict and a returned context, the calls are moderate, retrieve, then the fan-out, and the run ends as `gather` does |
| `EduchainProperties.BlockedRun` | app/educhain.py:26-28 | an unsafe verdict raises `"Blocked by guardrails: " + reason`, and moderation is the only call made |
| `EduchainProperties.NoCallsUnlessSafe` | app/educhain.py:26-30 | any call other than moderation implies the moderator returned a safe verdict |
| `EduchainProperties.ModeratedOnce` | app/educhain.py:26-38 | in every run, including one where the moderator raises, moderation of the prompt is the first call and no later call is a moderation |
| `EduchainProperties.SafeRetrievesOnce` | app/educhain.py:26-30 | after a safe verdict, moderation comes first, the retriever is called second with the unmodified prompt, and every later call is an `ask`, so the retriever is called exactly once |
| `EduchainProperties.FanOutCallsOnce` | app/educhain.py:34-38 | in the fan-out every `ask` gets the prompt and the context, and no client name is asked twice |
| `EduchainProperties.FanOutCallsConfigured` | app/educhain.py:34-38 | every `ask` in the fan-out names a configured client |
| `EduchainProperties.SameInputsForEveryClient` | app/educhain.py:30-38 | every client is asked with the original prompt and exactly the retrieved context, at most once each, and once retrieval returned every configured client is asked |
| `EduchainProperties.GatherReturnsIffAllAnswer` | app/educhain.py:37-39 | `gather` returns iff every client in the dict answers |
| `EduchainProperties.GatheredKeys` | app/educhain.py:37-39 | the answers dict has exactly the client names as keys |
| `EduchainProperties.GatheredAnswerAt` | app/educhain.py:34-39 | the answers dict maps the name at each position of `llm_clients` to the answer of the client at that position |
| `EduchainProperties.GatheredAnswers` | app/educhain.py:34-39 | each answer is the `result.answer` of the client configured under that name |
| `EduchainProperties.SuccessfulResult` | app/educhain.py:26-40 | `process` returns a result iff the verdict is safe, retrieval returns and every client answers; the result's context is the retriever's output and its answers map each client name to that client's answer |
| `EduchainProperties.AnyClientFailureFails` | app/educhain.py:37-40 | if any configured client raises, `process` raises and returns no partial answers |
| `EduchainProperties.OrderIndependent` | app/educhain.py:37-39 | two pipelines with the same collaborators and the same name-to-client mapping give the same outcome, whatever the order of `llm_clients` |
| `EduchainProperties.LangChainAnswers` | app/llm_client.py:29-38 | with LangChain clients, each answer is the `text` of that LLM's reply to the request for the prompt and the retrieved context, and the request omits `context` iff the retriever returned `""` |
| `EduchainProperties.BlockedPromptTest` | tests/test_educhain.py:44-55 | a moderator answering unsafe with reason "hate" makes `process` raise "Blocked by guardrails: hate" without calling the indexer or the client |

## Left out

- Concurrency: asyncio scheduling, `to_thread`, timeouts and cancellation. The fan-out is a function over the clients. `gather` fixes the order of its results, and every task runs even after another has raised.
- Failures are not tagged by stage or client name: `process` re-raises the raw exception from the moderator, the retriever or `gather` (app/educhain.py:26,30,37), so every such failure is `Failed`.
- Which exception propagates when several clients raise. Failures are untagged, so the choice is not observable in the model.
- `app/vector_index.py`: index building, persistence and the query engine. These are I/O and library calls. The retriever is an abstract function from prompt to context string.
- `app/guardrails.py` and the moderation HTTP client: they only delegate. The moderator is an abstract function from prompt to verdict, which may raise.
- `app/main.py`: the FastAPI endpoint, dotenv loading, and the mapping of ValueError to 400 and of other errors to 500. `Blocked` and `Failed` stay distinct. `Failed` forgets the exception's class, which is what main.py branches on: a collaborator raising `ValueError` would take the same 400 branch as a blocked prompt.
- LangChain's `invoke` is an abstract function. Its reply is a dict of strings; replies that are not dicts or that hold non-string values are not modelled.
- Python duck typing: a moderation result without `is_safe` and a client result without `.answer` are not modelled. The collaborators return the declared shapes.
