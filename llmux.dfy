/** `NotebookLMNode` and `NotebookLMScheduler` from llmux.py, with the remote
    NotebookLM service reduced to the answers it gives. */
module Llmux {
  import opened Outcomes
  import opened Text
  import opened Sharding
  import opened Prompt

  /** The remote service, one function per endpoint, each from the request's
      content to the service's reply:
      - `create(displayName)`: POST /notebooks; the payload is the notebook's resource name;
      - `upload(notebookId, path)`: POST /notebooks/{id}/documents with the bytes and
        base name of the file at `path`; the payload is the document id;
      - `query(notebookId, text)`: POST /notebooks/{id}/query; the payload is the answer. */
  datatype Service = Service(
    create: string -> Reply,
    upload: (string, string) -> Reply,
    query: (string, string) -> Reply)

  const NotCreated: string := "Notebook not created yet"
  const CreateFailed: string := "Failed to create notebook: "

  /** Python's `if self.notebook_id`: neither None nor the empty string. */
  predicate IsSet(notebookId: Option<string>) {
    notebookId.Some? && notebookId.value != ""
  }

  /** The display name a node asks for: `f"{name} - Node {node_id}"`. */
  function DisplayName(name: string, nodeId: string): string {
    name + " - Node " + nodeId
  }

  /** The display name starts with the caller's name and ends with the node's label. */
  lemma DisplayNameParts(name: string, nodeId: string)
    ensures var d := DisplayName(name, nodeId);
      name <= d && |nodeId| <= |d| && d[|d| - |nodeId|..] == nodeId
  {
  }

  /** What `create_notebook` returns or raises for a display name. */
  function CreateResult(displayName: string, service: Service): (r: Outcome<string>)
    ensures r.Ok? <==> service.create(displayName).Success?
    ensures r.Ok? ==> r.value == LastSegment(service.create(displayName).payload) && '/' !in r.value
    ensures r.Raised? ==> r.message == CreateFailed + service.create(displayName).body
  {
    match service.create(displayName)
    case Success(resource) => Ok(LastSegment(resource))
    case Failure(body) => Raised(CreateFailed + body)
  }

  /** What `upload_document` returns or raises for a node's notebook id. */
  function UploadResult(notebookId: Option<string>, path: string, service: Service): (r: Outcome<string>)
    ensures !IsSet(notebookId) ==> r == Raised(NotCreated)
    ensures IsSet(notebookId) ==> (r.Ok? <==> service.upload(notebookId.value, path).Success?)
    ensures r.Ok? ==> IsSet(notebookId) && r.value == service.upload(notebookId.value, path).payload
  {
    if !IsSet(notebookId) then Raised(NotCreated)
    else
      match service.upload(notebookId.value, path)
      case Success(documentId) => Ok(documentId)
      case Failure(body) => Raised("Failed to upload document: " + body)
  }

  /** What `ask_question` returns or raises for a node's notebook id. */
  function AskResult(notebookId: Option<string>, question: string, service: Service): (r: Outcome<string>)
    ensures !IsSet(notebookId) ==> r == Raised(NotCreated)
    ensures IsSet(notebookId) ==> (r.Ok? <==> service.query(notebookId.value, question).Success?)
    ensures r.Ok? ==> IsSet(notebookId) && r.value == service.query(notebookId.value, question).payload
  {
    if !IsSet(notebookId) then Raised(NotCreated)
    else
      match service.query(notebookId.value, question)
      case Success(response) => Ok(response)
      case Failure(body) => Raised("Failed to query notebook: " + body)
  }

  /** The id a creation binds passes the guards exactly when the resource name is
      non-empty and does not end in '/'; a trailing '/' binds the empty id. */
  lemma CreatedIdIsSet(resource: string)
    ensures IsSet(Some(LastSegment(resource))) <==> |resource| > 0 && resource[|resource| - 1] != '/'
    ensures |resource| > 0 && resource[|resource| - 1] == '/' ==> LastSegment(resource) == ""
  {
    LastSegmentSuffix(resource);
  }

  /** One NotebookLM notebook: a label fixed at construction and the id of the
      remote notebook, absent until `CreateNotebook` succeeds. */
  class Node {
    const nodeId: string
    var notebookId: Option<string>

    constructor (nodeId: string)
      ensures this.nodeId == nodeId && notebookId == None
    {
      this.nodeId := nodeId;
      notebookId := None;
    }

    /** Asks the service for a notebook named `"<name> - Node <nodeId>"` and, on
        success, binds (or rebinds) the id to the last '/'-segment of its resource name. */
    method CreateNotebook(name: string, service: Service) returns (r: Outcome<string>)
      modifies this
      ensures r == CreateResult(DisplayName(name, nodeId), service)
      ensures r.Ok? ==> notebookId == Some(r.value) && '/' !in r.value
      ensures r.Raised? ==> notebookId == old(notebookId)
    {
      var reply := service.create(DisplayName(name, nodeId));
      match reply
      case Success(resource) =>
        notebookId := Some(LastSegment(resource));
        r := Ok(notebookId.value);
      case Failure(body) =>
        r := Raised(CreateFailed + body);
    }

    /** Uploads one document, refusing while the notebook id is unset. */
    method UploadDocument(path: string, service: Service) returns (r: Outcome<string>)
      ensures !IsSet(notebookId) ==> r == Raised(NotCreated)
      ensures IsSet(notebookId) ==> r.Ok? == service.upload(notebookId.value, path).Success?
      ensures r == UploadResult(notebookId, path, service)
    {
      if !IsSet(notebookId) {
        return Raised(NotCreated);
      }
      var reply := service.upload(notebookId.value, path);
      match reply
      case Success(documentId) => r := Ok(documentId);
      case Failure(body) => r := Raised("Failed to upload document: " + body);
    }

    /** Asks the notebook a question, refusing while the notebook id is unset. */
    method AskQuestion(question: string, service: Service) returns (r: Outcome<string>)
      ensures !IsSet(notebookId) ==> r == Raised(NotCreated)
      ensures IsSet(notebookId) ==> r.Ok? == service.query(notebookId.value, question).Success?
      ensures r == AskResult(notebookId, question, service)
    {
      if !IsSet(notebookId) {
        return Raised(NotCreated);
      }
      var reply := service.query(notebookId.value, question);
      match reply
      case Success(response) => r := Ok(response);
      case Failure(body) => r := Raised("Failed to query notebook: " + body);
    }
  }

  /** The notebook ids of a pool, in pool order. */
  function NotebookIds(nodes: seq<Node>): (ids: seq<Option<string>>)
    reads nodes
    ensures |ids| == |nodes|
    ensures forall i :: 0 <= i < |nodes| ==> ids[i] == nodes[i].notebookId
  {
    if nodes == [] then [] else NotebookIds(nodes[..|nodes| - 1]) + [nodes[|nodes| - 1].notebookId]
  }

  /** The outcome of creating the notebook of each worker label, node `i` being labelled `str(i + 1)`. */
  function Creations(names: seq<string>, service: Service): (r: seq<Outcome<string>>)
    ensures |r| == |names|
    ensures forall i :: 0 <= i < |names| ==>
      (r[i].Ok? <==> service.create(DisplayName(names[i], NatToString(i + 1))).Success?)
  {
    seq(|names|, i requires 0 <= i < |names| => CreateResult(DisplayName(names[i], NatToString(i + 1)), service))
  }

  /** The outcome of each upload request against a pool with the given notebook ids. */
  function UploadResults(ids: seq<Option<string>>, uploads: seq<Upload>, service: Service): (r: seq<Outcome<string>>)
    requires forall j :: 0 <= j < |uploads| ==> uploads[j].node < |ids|
    ensures |r| == |uploads|
  {
    seq(|uploads|, j requires 0 <= j < |uploads| => UploadResult(ids[uploads[j].node], uploads[j].path, service))
  }

  lemma UploadResultsSnoc(ids: seq<Option<string>>, uploads: seq<Upload>, next: Upload, service: Service)
    requires forall j :: 0 <= j < |uploads| ==> uploads[j].node < |ids|
    requires next.node < |ids|
    ensures UploadResults(ids, uploads + [next], service)
         == UploadResults(ids, uploads, service) + [UploadResult(ids[next.node], next.path, service)]
  {
  }

  /** The outcome of asking each node of a pool the same question. */
  function Asks(ids: seq<Option<string>>, question: string, service: Service): (r: seq<Outcome<string>>)
    ensures |r| == |ids|
  {
    seq(|ids|, i requires 0 <= i < |ids| => AskResult(ids[i], question, service))
  }

  /** `await asyncio.gather(*tasks)` for tasks whose results are then discarded. */
  function Completed(outcomes: seq<Outcome<string>>): (r: Outcome<()>)
    ensures r.Ok? <==> forall j :: 0 <= j < |outcomes| ==> outcomes[j].Ok?
    ensures r.Raised? ==> r.message == outcomes[FirstRaised(outcomes)].message
  {
    match Gather(outcomes)
    case Raised(message) => Raised(message)
    case Ok(_) => Ok(())
  }

  /** What one query round returns: the scheduler notebook's answer to the
      synthesis request built from every node's answer, or the first node failure. */
  function Round(ids: seq<Option<string>>, schedulerId: Option<string>, question: string, service: Service): (r: Outcome<string>)
    ensures r.Ok? ==> IsSet(schedulerId) && forall i :: 0 <= i < |ids| ==> IsSet(ids[i])
  {
    var asks := Asks(ids, question, service);
    match Gather(asks)
    case Raised(message) => Raised(message)
    case Ok(answers) =>
      assert forall i :: 0 <= i < |ids| ==> asks[i] == AskResult(ids[i], question, service) && asks[i].Ok?;
      AskResult(schedulerId, SynthesisPrompt(question, answers), service)
  }

  /** A round in which some node fails raises that node's error (the first such
      node in pool order) and never consults the scheduler notebook. */
  lemma RoundFailsWithFirstNode(ids: seq<Option<string>>, schedulerId: Option<string>, other: Option<string>,
                                question: string, service: Service, k: nat)
    requires k < |ids| && AskResult(ids[k], question, service).Raised?
    ensures var f := FirstRaised(Asks(ids, question, service));
      && f <= k
      && Round(ids, schedulerId, question, service) == Raised(Asks(ids, question, service)[f].message)
    ensures Round(ids, schedulerId, question, service) == Round(ids, other, question, service)
  {
    var asks := Asks(ids, question, service);
    assert asks[k].Raised?;
  }

  /** A round in which every node answers sends the scheduler notebook the
      synthesis request whose block `i` holds node `i`'s answer, and returns its reply. */
  lemma RoundSynthesizes(ids: seq<Option<string>>, schedulerId: Option<string>, question: string, service: Service)
    requires forall i :: 0 <= i < |ids| ==> AskResult(ids[i], question, service).Ok?
    ensures Gather(Asks(ids, question, service)).Ok?
    ensures var answers := Gather(Asks(ids, question, service)).value;
      && |answers| == |ids|
      && (forall i :: 0 <= i < |ids| ==> IsSet(ids[i]) && service.query(ids[i].value, question) == Success(answers[i]))
      && Round(ids, schedulerId, question, service) == AskResult(schedulerId, SynthesisPrompt(question, answers), service)
  {
    var asks := Asks(ids, question, service);
    assert forall i :: 0 <= i < |ids| ==> asks[i].Ok?;
  }

  /** Coordinates a pool of worker nodes and one scheduler node that merges their answers. */
  class Scheduler {
    var nodes: seq<Node>
    const schedulerNode: Node

    constructor ()
      ensures nodes == [] && fresh(schedulerNode)
      ensures schedulerNode.nodeId == "scheduler" && schedulerNode.notebookId == None
    {
      nodes := [];
      schedulerNode := new Node("scheduler");
    }

    /** Creates the scheduler node's notebook, named "Scheduler Node". */
    method InitializeScheduler(service: Service) returns (r: Outcome<()>)
      modifies schedulerNode
      ensures var created := CreateResult(DisplayName("Scheduler Node", schedulerNode.nodeId), service);
        && (created.Ok? ==> r == Ok(()) && schedulerNode.notebookId == Some(created.value))
        && (created.Raised? ==> r == Raised(created.message) && schedulerNode.notebookId == old(schedulerNode.notebookId))
    {
      var created := schedulerNode.CreateNotebook("Scheduler Node", service);
      r := if created.Ok? then Ok(()) else Raised(created.message);
    }

    /** Appends one worker node to the pool. */
    method AddNode(node: Node)
      modifies this
      ensures nodes == old(nodes) + [node]
    {
      nodes := nodes + [node];
    }

    /** Builds one node with the given label and creates its notebook. */
    static method NewNode(nodeId: string, name: string, service: Service) returns (node: Node, outcome: Outcome<string>)
      ensures fresh(node) && node.nodeId == nodeId
      ensures outcome == CreateResult(DisplayName(name, nodeId), service)
      ensures outcome.Ok? ==> node.notebookId == Some(outcome.value)
      ensures outcome.Raised? ==> node.notebookId == None
    {
      node := new Node(nodeId);
      outcome := node.CreateNotebook(name, service);
    }

    /** The loop of `initialize_nodes`: builds the nodes labelled "1", "2", ...
        in order and creates each one's notebook, stopping at the first failure. */
    static method CreateNodes(names: seq<string>, service: Service) returns (r: Outcome<seq<Node>>)
      ensures var creations := Creations(names, service);
        r.Raised? ==>
          exists k :: 0 <= k < |names| && creations[k] == Raised(r.message)
                      && forall j :: 0 <= j < k ==> creations[j].Ok?
      ensures var creations := Creations(names, service);
        r.Ok? ==>
          && |r.value| == |names|
          && forall i :: 0 <= i < |names| ==>
               && fresh(r.value[i])
               && r.value[i].nodeId == NatToString(i + 1)
               && creations[i].Ok? && r.value[i].notebookId == Some(creations[i].value)
    {
      ghost var creations := Creations(names, service);
      var created: seq<Node> := [];
      var i := 0;
      while i < |names|
        invariant 0 <= i <= |names| && |created| == i
        invariant forall j :: 0 <= j < i ==> creations[j].Ok?
        invariant forall j :: 0 <= j < i ==>
          && fresh(created[j])
          && created[j].nodeId == NatToString(j + 1)
          && created[j].notebookId == Some(creations[j].value)
      {
        var node, outcome := NewNode(NatToString(i + 1), names[i], service);
        if outcome.Raised? {
          assert creations[i] == Raised(outcome.message);
          return Raised(outcome.message);
        }
        assert node.notebookId == Some(creations[i].value);
        created := created + [node];
        i := i + 1;
      }
      r := Ok(created);
    }

    /** Creates one node per label, node `i` labelled `str(i + 1)`, stopping at the
        first failed creation; the pool is replaced only when every creation succeeded. */
    method InitializeNodes(names: seq<string>, service: Service) returns (r: Outcome<seq<Node>>)
      modifies this
      ensures var creations := Creations(names, service);
        r.Raised? ==>
          && nodes == old(nodes)
          && exists k :: 0 <= k < |names| && creations[k] == Raised(r.message)
                          && forall j :: 0 <= j < k ==> creations[j].Ok?
      ensures var creations := Creations(names, service);
        r.Ok? ==>
          && r.value == nodes && |nodes| == |names|
          && forall i :: 0 <= i < |nodes| ==>
               && fresh(nodes[i])
               && nodes[i].nodeId == NatToString(i + 1)
               && creations[i].Ok? && nodes[i].notebookId == Some(creations[i].value)
      ensures r.Ok? ==> forall i, j :: 0 <= i < j < |nodes| ==> nodes[i] != nodes[j] && nodes[i].nodeId != nodes[j].nodeId
    {
      r := CreateNodes(names, service);
      if r.Ok? {
        forall j, l | 0 <= j < l < |r.value|
          ensures r.value[j].nodeId != r.value[l].nodeId
        {
          NatToStringInjective(j + 1, l + 1);
        }
        nodes := r.value;
      }
    }

    /** Checks the pool's capacity, then issues one upload per document: node `i`
        receives `paths[i*k : min(i*k + k, len(paths))]`. `issued` lists the upload
        requests in the order they were created; all of them run, and the first
        failure in that order is raised. */
    method DistributeDocuments(paths: seq<string>, service: Service, perNode: int := DefaultPerNode)
      returns (r: Outcome<()>, issued: seq<Upload>)
      ensures |paths| > |nodes| * perNode ==>
        r == Raised(TooManyMessage(|nodes| * perNode)) && issued == []
      ensures |paths| <= |nodes| * perNode ==> issued == Uploads(Plan(paths, |nodes|, perNode).value)
      ensures |paths| <= |nodes| * perNode ==>
        && |issued| == |paths|
        && forall j :: 0 <= j < |paths| ==>
             && issued[j].path == paths[j]
             && issued[j].node < |nodes|
             && issued[j].node * perNode <= j < issued[j].node * perNode + perNode
      ensures |paths| <= |nodes| * perNode ==> r == Completed(UploadResults(NotebookIds(nodes), issued, service))
    {
      var count := |nodes|;
      if |paths| > count * perNode {
        return Raised(TooManyMessage(count * perNode)), [];
      }
      // An empty pool builds no tasks, whatever the capacity.
      UploadNodesInPool(paths, count, perNode);
      var tasks: seq<Upload> := [];
      if count > 0 {
        tasks := UploadTasks(paths, count, perNode);
      }
      r := RunUploads(tasks, service);
      PlanUploads(paths, count, perNode);
      issued := tasks;
    }

    /** Runs every upload task, in task order, against this pool and gathers the
        outcomes: the first failure in task order is raised, after all have run. */
    method RunUploads(tasks: seq<Upload>, service: Service) returns (r: Outcome<()>)
      requires forall j :: 0 <= j < |tasks| ==> tasks[j].node < |nodes|
      ensures r == Completed(UploadResults(NotebookIds(nodes), tasks, service))
    {
      ghost var ids := NotebookIds(nodes);
      var outcomes: seq<Outcome<string>> := [];
      var t := 0;
      while t < |tasks|
        invariant 0 <= t <= |tasks|
        invariant outcomes == UploadResults(ids, tasks[..t], service)
      {
        var task := tasks[t];
        var outcome := nodes[task.node].UploadDocument(task.path, service);
        assert tasks[..t + 1] == tasks[..t] + [task];
        UploadResultsSnoc(ids, tasks[..t], task, service);
        outcomes := outcomes + [outcome];
        t := t + 1;
      }
      assert tasks[..t] == tasks;
      r := Completed(outcomes);
    }

    /** Asks every node the question, in pool order, then asks the scheduler
        node to synthesize the answers; any node failure fails the whole round. */
    method ProcessQuery(question: string, service: Service) returns (r: Outcome<string>)
      ensures r == Round(NotebookIds(nodes), schedulerNode.notebookId, question, service)
    {
      ghost var ids := NotebookIds(nodes);
      var responses: seq<Outcome<string>> := [];
      var i := 0;
      while i < |nodes|
        invariant 0 <= i <= |nodes|
        invariant responses == Asks(ids[..i], question, service)
      {
        var response := nodes[i].AskQuestion(question, service);
        responses := responses + [response];
        i := i + 1;
      }
      assert ids[..i] == ids;
      match Gather(responses)
      case Raised(message) =>
        r := Raised(message);
      case Ok(answers) =>
        var summaryRequest := SynthesisPrompt(question, answers);
        r := schedulerNode.AskQuestion(summaryRequest, service);
    }
  }
}
