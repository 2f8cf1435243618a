# llmux: a verified model of the NotebookLM scheduler

llmux.py coordinates a pool of NotebookLM notebooks ("nodes") to answer a
question over a large document set. It has two classes:

- **`NotebookLMNode`** wraps one remote notebook. The notebook id is unset
  until `create_notebook` binds it to the last `/`-segment of the resource
  name the service returns. `upload_document` and `ask_question` refuse to run
  with "Notebook not created yet" while the id is unset.
- **`NotebookLMScheduler`** owns the pool and one extra scheduler node.
  - `initialize_nodes` builds nodes labelled "1", "2", … and creates their
    notebooks. It replaces the pool only when every creation succeeded.
  - `add_node` appends one node.
  - `distribute_documents` rejects more documents than
    `len(nodes) * documents_per_node`. Otherwise node `i` receives the slice
    `paths[i*k : min(i*k + k, len(paths))]`, and all uploads are gathered.
  - `process_query` asks every node the question and gathers the answers in
    pool order. It builds the synthesis request (question, then one
    "Node i Response:" block per answer, then instructions) and returns the
    scheduler node's answer to it.

The model has five modules:

- `Outcomes` (outcomes.dfy) holds the shared datatypes:
  - `Outcome<T>`: a value, or an exception raised with a message.
  - `Reply`: the remote service's answer to one request.
  - `Gather`: the result of `asyncio.gather` over outcomes known in advance.
- `Text` (text.dfy) models the Python string operations llmux relies on:
  `str(n)`, `s.split("/")[-1]` and `"sep".join(...)`.
- `Sharding` (sharding.dfy) holds the capacity check and slice arithmetic of
  `distribute_documents`:
  - pure functions, with the coverage, order and bounds lemmas;
  - the loop that builds the upload task list, as methods.
- `Prompt` (prompt.dfy) builds the synthesis request as a pure function of the
  question and the answers.
- `Llmux` (llmux.dfy) holds the two classes:
  - `Node` has a mutable `notebookId` field.
  - `Scheduler` has a mutable `nodes` sequence and its own scheduler node.
  - The remote NotebookLM service is a value of type `Service`: three functions
    from a request's content to the reply (create, upload, query).
  - Each loop of the source is a method with its invariants, proved against a
    specification function (`Creations`, `UploadResults`, `Round`).

Behaviours of llmux.py worth noting, all of which the model keeps:

- The synthesis request quotes the question first, and the node blocks follow
  it.
- Every failure is a plain exception whose message does not carry the node id.
- A query round has no timeout.
- `create_notebook` may be called again, and it rebinds the id.
- `process_query` does not check that the pool or the scheduler node was set
  up. An empty pool sends a request with no blocks, and an unset scheduler id
  fails only at the final call.

## Model

| member | source | states |
|---|---|---|
| `Outcomes.FirstRaised` | llmux.py:130 | The index returned is that of the first failed task: every earlier task succeeded, and it is the length when none failed. |
| `Outcomes.Gather` | llmux.py:139 | `gather` succeeds exactly when every task succeeded. Its values are those of the tasks, in submission order. Otherwise it raises the message of the first failed task. |
| `Outcomes.FirstRaisedAt` | llmux.py:130 | A failure at position i, after successes only, is the first failure, and `gather` raises its message. |
| `Text.NatToString` | llmux.py:108 | `str(n)` is a non-empty string of decimal digits with no leading zero. It is one digit exactly when n < 10. |
| `Text.ParseNatToString` | llmux.py:108 | Reading the digits of `str(n)` back gives n. |
| `Text.NatToStringInjective` | llmux.py:108 | Different positions get different labels, so node ids "1".."n" never collide. |
| `Text.IntToString` | llmux.py:118 | `str(x)` of a non-negative integer is digits that read back as x, with no leading zero unless x is 0. A negative one is '-' followed by such digits for -x. |
| `Text.Split` | llmux.py:33 | `split("/")` yields at least one part, and no part contains the separator. |
| `Text.JoinSplit` | llmux.py:33 | Joining the parts of a split with the separator gives back the original text. |
| `Text.SplitLast` | llmux.py:33 | The last part of a split is a suffix of the text. It is the whole text when there is a single part, and otherwise it is preceded by the separator. |
| `Text.LastSegment` | llmux.py:33 | `s.split("/")[-1]` contains no '/'. |
| `Text.LastSegmentSuffix` | llmux.py:33 | The last segment is the suffix after the last '/', or the whole text when there is no '/'. |
| `Text.Join` | llmux.py:147 | Python's `sep.join(parts)`: no contract of its own. `JoinSplit` and `JoinAt` state what it yields. |
| `Text.JoinAt` | llmux.py:147 | In a join, part i sits after the join of the parts before it and before the join of the parts after it, with separators only between neighbours. |
| `Sharding.SliceTiles` | llmux.py:124 | Python slices with non-negative bounds tile. Cutting `s[a:c]` at any b between a and c gives `s[a:b] + s[b:c]`, whatever the length of s. |
| `Sharding.Shard` | llmux.py:122-124 | Node i's slice never holds more than k documents. |
| `Sharding.ShardPlan` | llmux.py:121-124 | The plan has exactly one shard per node of the pool. |
| `Sharding.TooManyMessage` | llmux.py:118 | The refusal is "Too many documents. Maximum is " followed by the capacity in decimal. The digits read back as the capacity and have no leading zero unless the capacity is 0. A negative capacity is preceded by '-'. |
| `Sharding.AcceptedCapacity` | llmux.py:117-118 | A passed capacity check on a non-empty pool implies a non-negative per-node capacity. |
| `Sharding.Plan` | llmux.py:117-124 | The plan is rejected exactly when there are more documents than `nodes * k`, with the source's message naming that maximum. An accepted plan has one shard per node. |
| `Sharding.NodeUploadsAppend` | llmux.py:126-127 | Addressing two runs of documents to one node in turn gives the same requests as addressing their concatenation. |
| `Sharding.Uploads` | llmux.py:120-127 | The task list of a plan: node 0's requests first, then node 1's, and so on. It has no contract of its own; `UploadsOfShardPlan` and `PlanUploads` state which request goes where. |
| `Sharding.ShardRange` | llmux.py:122-124 | Node i's shard is the single range `paths[min(i*k, len) .. min(i*k + k, len)]`. |
| `Sharding.ConcatShardPlan` | llmux.py:121-124 | The first n shards laid end to end are the first `min(n*k, len)` documents. |
| `Sharding.PlanCoversInOrder` | llmux.py:117-127 | On an accepted plan, the shards in node order are exactly the documents in their original order. |
| `Sharding.PlanShard` | llmux.py:121-124 | On an accepted plan, node i gets exactly `paths[i*k : min(i*k + k, len)]`. That slice is empty when i*k is past the end and never longer than k. |
| `Sharding.UploadsOfShardPlan` | llmux.py:120-127 | The first n nodes' upload requests number `min(n*k, len)`. Request j carries document j and goes to the node t < n with t*k <= j < t*k + k. |
| `Sharding.UploadsSplit` | llmux.py:121-127 | The upload requests of n nodes are those of the first n - 1 followed by the last node's requests for its range. |
| `Sharding.UploadsAppend` | llmux.py:126-127 | Appending the last node's requests for its range keeps every request addressed to the node whose range holds its position. |
| `Sharding.PlanUploads` | llmux.py:117-127 | An accepted plan issues exactly one request per document, in document order, to the node whose range holds the document's position, so each document goes to one node, once. |
| `Sharding.UploadNodesInPool` | llmux.py:121-127 | When the capacity check passes, every upload request goes to a node of the pool. |
| `Sharding.AppendUploads` | llmux.py:126-127 | The inner loop appends, in order, one upload per document of the node's slice and leaves the earlier tasks in place. |
| `Sharding.UploadTasks` | llmux.py:120-127 | The upload list the outer loop builds is the uploads of the shard plan: node 0's slice first, then node 1's, and so on. |
| `Sharding.DefaultCapacityOfFourNodes` | llmux.py:115-118 | With the default of 25 per node, four nodes accept exactly up to 100 documents. More are refused with "Too many documents. Maximum is 100". |
| `Sharding.TwoNodesThreeDocuments` | llmux.py:117-124 | Two nodes with room for two documents each, given three documents: the first node gets the first two and the second node gets the third. |
| `Prompt.PromptQuotesQuestion` | llmux.py:142-143 | The request opens with the lead sentence and then quotes the question verbatim, followed by a closing double quote. |
| `Prompt.ResponsesListResponse` | llmux.py:147 | Answer i appears as the block "Node i+1 Response:\n<answer>". It comes after the blocks of the earlier answers and before those of the later ones, separated by blank lines. |
| `Prompt.PromptWithoutResponses` | llmux.py:142-153 | With no answers, the request is the header followed directly by the footer. |
| `Prompt.Block` | llmux.py:147 | One answer's block, "Node <i> Response:\n<answer>". It has no contract of its own; `ResponsesListResponse` and `ThreeEqualAnswers` state what the blocks look like in the request. |
| `Prompt.Blocks` | llmux.py:147 | One block per answer. |
| `Prompt.Responses` | llmux.py:147 | The blocks joined with blank lines. It has no contract of its own; `ResponsesListResponse` places each answer's block and `ThreeEqualAnswers` gives a whole example. |
| `Prompt.SynthesisPrompt` | llmux.py:142-153 | The synthesis request: the header quoting the question, the node blocks, then the footer. It has no contract of its own. `PromptQuotesQuestion`, `ResponsesListResponse` and `PromptWithoutResponses` state its shape. |
| `Prompt.ThreeEqualAnswers` | llmux.py:147 | Three nodes answering "X" give exactly the text "Node 1 Response:\nX", blank line, "Node 2 Response:\nX", blank line, "Node 3 Response:\nX". |
| `Llmux.IsSet` | llmux.py:41 | Python's `not self.notebook_id` for an optional string, negated (the same guard appears at line 70). It has no contract of its own; `UploadResult`, `AskResult` and `CreatedIdIsSet` state what it guards. |
| `Llmux.DisplayName` | llmux.py:26 | The display name `"<name> - Node <id>"`. It has no contract of its own; `DisplayNameParts` states its shape. |
| `Llmux.DisplayNameParts` | llmux.py:26 | The requested display name starts with the given name and ends with the node's label. |
| `Llmux.CreateResult` | llmux.py:22-37 | Creation succeeds exactly when the service accepts the request. It then yields the last '/'-segment of the returned resource name, which contains no '/'. A failed creation raises "Failed to create notebook: " followed by the error text. |
| `Llmux.UploadResult` | llmux.py:39-66 | With the id unset it is "Notebook not created yet". Otherwise it succeeds exactly when the service accepts the upload, and then yields the returned document id. |
| `Llmux.AskResult` | llmux.py:68-85 | With the id unset it is "Notebook not created yet". Otherwise it succeeds exactly when the service answers the query, and then yields that answer. |
| `Llmux.CreatedIdIsSet` | llmux.py:33 | The id bound by a creation passes the guards at lines 41 and 70 exactly when the resource name is non-empty and does not end in '/'. A trailing '/' binds the empty id. |
| `Llmux.Node.constructor` | llmux.py:12-20 | A new node has the given id and no notebook id. |
| `Llmux.Node.CreateNotebook` | llmux.py:22-37 | The request uses the display name "<name> - Node <id>". On success the notebook id becomes the returned id, which has no '/'. On failure the notebook id is unchanged. |
| `Llmux.Node.UploadDocument` | llmux.py:39-66 | With the id unset it fails with "Notebook not created yet". Otherwise it succeeds exactly when the service accepts the upload. It changes no state. |
| `Llmux.Node.AskQuestion` | llmux.py:68-85 | With the id unset it fails with "Notebook not created yet". Otherwise it succeeds exactly when the service answers the query. It changes no state. |
| `Llmux.UploadResults` | llmux.py:126-130 | One outcome per upload task, in task order. Each task is `UploadResult` for its node's notebook id and its path. `Completed` and `RunUploads` state what awaiting them yields. |
| `Llmux.Asks` | llmux.py:138 | One outcome per node, in pool order. Each outcome is `AskResult` for that node's notebook id. `RoundFailsWithFirstNode` and `RoundSynthesizes` state what the round does with them. |
| `Llmux.Creations` | llmux.py:106-110 | One creation outcome per name. Creation i succeeds exactly when the service accepts the display name with label str(i + 1). |
| `Llmux.Completed` | llmux.py:130 | Awaiting the upload tasks succeeds exactly when every task succeeded. Otherwise it raises the message of the first failed task. |
| `Llmux.Round` | llmux.py:138-157 | A round can succeed only when the scheduler node and every node of the pool have their notebook ids set. |
| `Llmux.RoundFailsWithFirstNode` | llmux.py:138-139 | If any node fails, the round raises the error of the first failing node in pool order. The scheduler node is never consulted, so the outcome does not depend on its id. |
| `Llmux.RoundSynthesizes` | llmux.py:138-157 | If every node answers, answer i is node i's reply. The round returns the scheduler node's answer to the synthesis request built from those answers in pool order. |
| `Llmux.Scheduler.constructor` | llmux.py:91-94 | A new scheduler has an empty pool and a fresh scheduler node labelled "scheduler" with no notebook id. |
| `Llmux.Scheduler.InitializeScheduler` | llmux.py:96-98 | Creates the scheduler node's notebook named "Scheduler Node - Node scheduler". It binds the id on success and raises the creation error otherwise. |
| `Llmux.Scheduler.AddNode` | llmux.py:100-102 | The pool grows by exactly the given node at the end. The earlier entries are unchanged. |
| `Llmux.Scheduler.NewNode` | llmux.py:108-109 | Builds a fresh node with the given label and creates its notebook. Its id is bound exactly when creation succeeded. |
| `Llmux.Scheduler.CreateNodes` | llmux.py:106-110 | Either it raises the error of the first failed creation, with every earlier creation having succeeded, or it returns one fresh node per name. Node i is labelled str(i + 1) and carries its created notebook id. |
| `Llmux.Scheduler.InitializeNodes` | llmux.py:104-113 | On failure the pool is unchanged. On success the pool is the returned list: one fresh node per name, labelled "1".."n" in order, each with its notebook id bound. The nodes are pairwise distinct, and so are their labels. |
| `Llmux.Scheduler.DistributeDocuments` | llmux.py:115-131 | Too many documents: it raises "Too many documents. Maximum is <n*k>" before any upload. Otherwise it issues one upload per document, in document order, to the node whose slice holds it, and raises the first failure among them. |
| `Llmux.Scheduler.RunUploads` | llmux.py:126-130 | Runs every upload task against its node in task order. The result is the gathered outcome: the first failure in task order, or success. |
| `Llmux.Scheduler.ProcessQuery` | llmux.py:133-157 | Returns exactly `Round` of the pool's notebook ids, the scheduler node's id and the question. |

## Left out

- HTTP transport is not modelled: aiohttp sessions, status codes, JSON and
  multipart encoding, the base URL, the auth headers and the API key
  (llmux.py:12-19, 24-37, 44-66, 73-85). Each endpoint is a function from the
  request's content to a `Reply`: a payload, or the text of a non-200
  response.
- The service holds no state in the model. Each endpoint gives the same reply
  to the same request, so nothing depends on the order of remote calls.
- The local file read and `os.path.basename` (llmux.py:47-51) fold into the
  `upload` endpoint, which receives the path. A read failure is not a separate
  error path.
- asyncio concurrency is not modelled. Everything `gather` awaits runs one after the
  other, in submission order, and every task runs.
  - `gather` raises the failure that occurs first in time. The model takes the
    first in submission order.
  - Completion order is not modelled, and neither are cancellation and
    interleaving.
- `Llmux.Scheduler.DistributeDocuments`: `issued` is an out-parameter that
  lists the upload requests made. The source only performs them; the model
  returns them so that coverage and order can be stated about the method.
- `Llmux.Scheduler.InitializeNodes` and `Llmux.Scheduler.AddNode`: in the
  source, `initialize_nodes` returns the very list it stores in `self.nodes`
  (llmux.py:112-113), and `add_node` appends to that list in place (llmux.py:102).
  A later `add_node` is therefore visible through a list the caller got earlier.
  The model returns the list as a value and `AddNode` rebinds `nodes`, so this
  aliasing is not captured.
- Remote notebooks created before a failed creation in `initialize_nodes` are
  left in the service. The model's service keeps no state, so this leak is not
  visible.
- Console output (llmux.py:131, 135) and `main()` with its input loop and
  timing (llmux.py:160-192) are not modelled.
- The node's `api_key`, `base_url` and `headers` fields are not modelled. They
  are configuration that no modelled behaviour reads.
