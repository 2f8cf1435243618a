/** The index arithmetic of `NotebookLMScheduler.distribute_documents`: the
    capacity check and the contiguous slice each node receives. */
module Sharding {
  import opened Outcomes
  import opened Text

  /** The default of the `documents_per_node` parameter. */
  const DefaultPerNode: int := 25

  function Min(a: int, b: int): int {
    if a <= b then a else b
  }

  /** One upload request: the document at `path` goes to the node at position `node`. */
  datatype Upload = Upload(node: nat, path: string)

  /** Python's `s[start:end]` for non-negative bounds: both bounds clamp to the
      length, and the slice is empty once `start` reaches `end` or the length. */
  function Slice<T>(s: seq<T>, start: nat, end: nat): seq<T> {
    if start < end && start < |s| then s[start..Min(end, |s|)] else []
  }

  /** Adjacent slices tile: cutting `a..c` at any `b` between them loses and
      repeats nothing, whatever the length of `s`. */
  lemma SliceTiles<T>(s: seq<T>, a: nat, b: nat, c: nat)
    requires a <= b <= c
    ensures Slice(s, a, b) + Slice(s, b, c) == Slice(s, a, c)
  {
  }

  /** The documents node `i` receives: `paths[i*k : min(i*k + k, len(paths))]`. */
  function Shard(paths: seq<string>, i: nat, perNode: nat): (shard: seq<string>)
    ensures |shard| <= perNode
  {
    var start := i * perNode;
    Slice(paths, start, Min(start + perNode, |paths|))
  }

  /** The shards of the first `nodes` nodes, in node order. A negative
      capacity only ever reaches here with an empty pool (see `AcceptedCapacity`). */
  function ShardPlan(paths: seq<string>, nodes: nat, perNode: int): (plan: seq<seq<string>>)
    requires nodes == 0 || perNode >= 0
    ensures |plan| == nodes
  {
    seq(nodes, i requires 0 <= i < nodes => Shard(paths, i, perNode))
  }

  const TooManyLead: string := "Too many documents. Maximum is "

  /** The refusal of an oversized batch: a fixed sentence, then the capacity in
      decimal, which reads back as that capacity. */
  function TooManyMessage(maximum: int): (m: string)
    ensures |m| > |TooManyLead| && m[..|TooManyLead|] == TooManyLead
    ensures maximum >= 0 ==> IsDigits(m[|TooManyLead|..]) && ParseNat(m[|TooManyLead|..]) == maximum
    ensures maximum >= 0 && |m| > |TooManyLead| + 1 ==> m[|TooManyLead|] != '0'
    ensures maximum < 0 && |m| > |TooManyLead| + 2 ==> m[|TooManyLead| + 1] != '0'
    ensures maximum < 0 ==>
      m[|TooManyLead|] == '-' && IsDigits(m[|TooManyLead| + 1..]) && ParseNat(m[|TooManyLead| + 1..]) == -maximum
  {
    var digits := IntToString(maximum);
    assert (TooManyLead + digits)[|TooManyLead|..] == digits;
    TooManyLead + digits
  }

  /** When the capacity check passes on a non-empty pool, the per-node capacity is not negative. */
  lemma AcceptedCapacity(count: nat, nodes: nat, perNode: int)
    requires count <= nodes * perNode
    ensures nodes > 0 ==> perNode >= 0
  {
  }

  /** The plan `distribute_documents` follows: reject more documents than the
      pool holds, otherwise give node `i` its contiguous slice. */
  function Plan(paths: seq<string>, nodes: nat, perNode: int): (r: Outcome<seq<seq<string>>>)
    ensures r.Raised? <==> |paths| > nodes * perNode
    ensures r.Raised? ==> r.message == TooManyMessage(nodes * perNode)
    ensures r.Ok? ==> |r.value| == nodes
  {
    if |paths| > nodes * perNode then Raised(TooManyMessage(nodes * perNode))
    else
      AcceptedCapacity(|paths|, nodes, perNode);
      Ok(ShardPlan(paths, nodes, perNode))
  }

  /** The shards laid end to end. */
  function Concat(shards: seq<seq<string>>): seq<string> {
    if shards == [] then [] else Concat(shards[..|shards| - 1]) + shards[|shards| - 1]
  }

  /** The upload requests for one node's shard, in shard order. */
  function NodeUploads(node: nat, docs: seq<string>): seq<Upload> {
    seq(|docs|, j requires 0 <= j < |docs| => Upload(node, docs[j]))
  }

  /** Addressing two runs of documents to a node one after the other is the same
      as addressing the joined run. */
  lemma NodeUploadsAppend(node: nat, x: seq<string>, y: seq<string>)
    ensures NodeUploads(node, x + y) == NodeUploads(node, x) + NodeUploads(node, y)
  {
  }

  /** The upload requests for a whole plan: node 0's shard first, then node 1's, and so on. */
  function Uploads(plan: seq<seq<string>>): seq<Upload> {
    if plan == [] then []
    else Uploads(plan[..|plan| - 1]) + NodeUploads(|plan| - 1, plan[|plan| - 1])
  }

  lemma ShardPlanPrefix(paths: seq<string>, nodes: nat, perNode: nat)
    requires nodes > 0
    ensures ShardPlan(paths, nodes, perNode)[..nodes - 1] == ShardPlan(paths, nodes - 1, perNode)
  {
  }

  /** The last node's shard's uploads come after those of the nodes before it. */
  lemma UploadsStep(paths: seq<string>, nodes: nat, perNode: nat)
    requires nodes > 0
    ensures Uploads(ShardPlan(paths, nodes, perNode))
         == Uploads(ShardPlan(paths, nodes - 1, perNode)) + NodeUploads(nodes - 1, Shard(paths, nodes - 1, perNode))
  {
    ShardPlanPrefix(paths, nodes, perNode);
  }

  /** A shard as one range of `paths`, with both ends clamped to the length. */
  lemma ShardRange(paths: seq<string>, i: nat, perNode: nat)
    ensures Min(i * perNode, |paths|) <= Min(i * perNode + perNode, |paths|)
    ensures Shard(paths, i, perNode) == paths[Min(i * perNode, |paths|)..Min(i * perNode + perNode, |paths|)]
  {
  }

  lemma NextStart(nodes: nat, perNode: nat)
    requires nodes > 0
    ensures nodes * perNode == (nodes - 1) * perNode + perNode
  {
  }

  lemma SliceJoin<T>(s: seq<T>, lo: nat, hi: nat)
    requires lo <= hi <= |s|
    ensures s[..lo] + s[lo..hi] == s[..hi]
  {
  }

  /** Appending the range `lo..hi` to the first `lo` elements gives the first `hi`. */
  lemma ConcatStep(plan: seq<seq<string>>, paths: seq<string>, lo: nat, hi: nat)
    requires plan != [] && lo <= hi <= |paths|
    requires Concat(plan[..|plan| - 1]) == paths[..lo]
    requires plan[|plan| - 1] == paths[lo..hi]
    ensures Concat(plan) == paths[..hi]
  {
    assert Concat(plan) == Concat(plan[..|plan| - 1]) + plan[|plan| - 1];
    SliceJoin(paths, lo, hi);
  }

  /** The first `nodes` shards, laid end to end, are the first `nodes * k`
      documents (all of them once the pool is large enough). */
  lemma {:induction false} ConcatShardPlan(paths: seq<string>, nodes: nat, perNode: nat)
    ensures Concat(ShardPlan(paths, nodes, perNode)) == paths[..Min(nodes * perNode, |paths|)]
  {
    if nodes > 0 {
      var plan := ShardPlan(paths, nodes, perNode);
      var lo := Min((nodes - 1) * perNode, |paths|);
      var hi := Min((nodes - 1) * perNode + perNode, |paths|);
      assert 0 <= lo <= hi <= |paths| by { ShardRange(paths, nodes - 1, perNode); }
      assert hi == Min(nodes * perNode, |paths|) by { NextStart(nodes, perNode); }
      assert Concat(plan[..nodes - 1]) == paths[..lo] by {
        ShardPlanPrefix(paths, nodes, perNode);
        ConcatShardPlan(paths, nodes - 1, perNode);
      }
      assert plan[nodes - 1] == paths[lo..hi] by { ShardRange(paths, nodes - 1, perNode); }
      ConcatStep(plan, paths, lo, hi);
    }
  }

  /** Accepted plans cover the input exactly: the shards in node order are the
      documents in their original order, so each document goes to one node, once. */
  lemma PlanCoversInOrder(paths: seq<string>, nodes: nat, perNode: int)
    requires Plan(paths, nodes, perNode).Ok?
    ensures Concat(Plan(paths, nodes, perNode).value) == paths
  {
    AcceptedCapacity(|paths|, nodes, perNode);
    if nodes == 0 {
      assert Plan(paths, nodes, perNode).value == [];
    } else {
      ConcatShardPlan(paths, nodes, perNode);
      assert paths[..|paths|] == paths;
    }
  }

  /** Node `i` is given exactly `paths[i*k : min(i*k + k, len)]`, an empty
      list once `i*k` is past the end, and never more than `k` documents. */
  lemma PlanShard(paths: seq<string>, nodes: nat, perNode: int, i: nat)
    requires Plan(paths, nodes, perNode).Ok? && i < nodes
    ensures perNode >= 0
    ensures var shard := Plan(paths, nodes, perNode).value[i];
      && |shard| <= perNode
      && (i * perNode >= |paths| ==> shard == [])
      && (i * perNode < |paths| ==> shard == paths[i * perNode..Min(i * perNode + perNode, |paths|)])
  {
    AcceptedCapacity(|paths|, nodes, perNode);
  }

  /** Upload request `j` carries document `j` and goes to one of the first
      `nodes` nodes, the one whose range `[t*k, t*k + k)` holds `j`. */
  predicate Addressed(u: seq<Upload>, paths: seq<string>, nodes: nat, perNode: nat) {
    && |u| <= |paths|
    && forall j :: 0 <= j < |u| ==>
         && u[j].path == paths[j]
         && u[j].node < nodes
         && u[j].node * perNode <= j < u[j].node * perNode + perNode
  }

  /** The first `nodes` shards' upload requests: one per document among the
      first `nodes * k`, in document order, each addressed to the node whose
      range holds the document's position. */
  lemma {:induction false} UploadsOfShardPlan(paths: seq<string>, nodes: nat, perNode: nat)
    ensures var u := Uploads(ShardPlan(paths, nodes, perNode));
      |u| == Min(nodes * perNode, |paths|) && Addressed(u, paths, nodes, perNode)
  {
    if nodes > 0 {
      var start := (nodes - 1) * perNode;
      var lo := Min(start, |paths|);
      var hi := Min(start + perNode, |paths|);
      UploadsSplit(paths, nodes, perNode);
      UploadsOfShardPlan(paths, nodes - 1, perNode);
      UploadsAppend(Uploads(ShardPlan(paths, nodes - 1, perNode)), NodeUploads(nodes - 1, paths[lo..hi]),
        paths, nodes, perNode, lo, hi);
    }
  }

  /** The last node's uploads are those of its range `lo..hi` of the documents. */
  lemma UploadsSplit(paths: seq<string>, nodes: nat, perNode: nat)
    requires nodes > 0
    ensures var start := (nodes - 1) * perNode;
      var lo := Min(start, |paths|);
      var hi := Min(start + perNode, |paths|);
      && 0 <= lo <= hi <= |paths|
      && hi == Min(nodes * perNode, |paths|)
      && Uploads(ShardPlan(paths, nodes, perNode))
         == Uploads(ShardPlan(paths, nodes - 1, perNode)) + NodeUploads(nodes - 1, paths[lo..hi])
  {
    var start := (nodes - 1) * perNode;
    var lo := Min(start, |paths|);
    var hi := Min(start + perNode, |paths|);
    assert lo <= hi && Shard(paths, nodes - 1, perNode) == paths[lo..hi] by {
      ShardRange(paths, nodes - 1, perNode);
    }
    assert hi == Min(nodes * perNode, |paths|) by { NextStart(nodes, perNode); }
    UploadsStep(paths, nodes, perNode);
  }

  /** Appending the last node's uploads for `paths[lo..hi]`, its range starting
      at `lo`, to requests addressed correctly for the first `lo` documents. */
  lemma UploadsAppend(before: seq<Upload>, mine: seq<Upload>, paths: seq<string>, nodes: nat, perNode: nat, lo: nat, hi: nat)
    requires nodes > 0
    requires lo <= hi <= |paths| && |before| == lo
    requires lo < hi ==> lo == (nodes - 1) * perNode && hi <= (nodes - 1) * perNode + perNode
    requires mine == NodeUploads(nodes - 1, paths[lo..hi])
    requires Addressed(before, paths, nodes - 1, perNode)
    ensures |before + mine| == hi && Addressed(before + mine, paths, nodes, perNode)
  {
    var u := before + mine;
    forall j | 0 <= j < hi
      ensures u[j].path == paths[j] && u[j].node < nodes
      ensures u[j].node * perNode <= j < u[j].node * perNode + perNode
    {
      if j >= lo {
        assert u[j] == Upload(nodes - 1, paths[j]);
      }
    }
  }

  /** An accepted plan's uploads: exactly one request per document, in document
      order, to node `j div k` for the document at position `j`. */
  lemma PlanUploads(paths: seq<string>, nodes: nat, perNode: int)
    requires Plan(paths, nodes, perNode).Ok?
    ensures var u := Uploads(Plan(paths, nodes, perNode).value);
      && |u| == |paths|
      && forall j :: 0 <= j < |paths| ==>
           && u[j].path == paths[j]
           && u[j].node < nodes
           && u[j].node * perNode <= j < u[j].node * perNode + perNode
  {
    AcceptedCapacity(|paths|, nodes, perNode);
    if nodes == 0 {
      assert Plan(paths, nodes, perNode).value == [];
    } else {
      UploadsOfShardPlan(paths, nodes, perNode);
    }
  }

  /** Every upload request of an accepted plan goes to a node of the pool. */
  lemma UploadNodesInPool(paths: seq<string>, nodes: nat, perNode: int)
    requires |paths| <= nodes * perNode
    ensures nodes == 0 || perNode >= 0
    ensures var u := Uploads(ShardPlan(paths, nodes, perNode));
      forall j :: 0 <= j < |u| ==> u[j].node < nodes
  {
    AcceptedCapacity(|paths|, nodes, perNode);
    if nodes > 0 {
      UploadsOfShardPlan(paths, nodes, perNode);
    }
  }

  /** `for doc_path in node_docs: tasks.append(...)`: one upload per document
      of the shard, appended in shard order. */
  method AppendUploads(tasks: seq<Upload>, node: nat, docs: seq<string>) returns (extended: seq<Upload>)
    ensures extended == tasks + NodeUploads(node, docs)
  {
    extended := tasks;
    var j := 0;
    while j < |docs|
      invariant 0 <= j <= |docs|
      invariant extended == tasks + NodeUploads(node, docs[..j])
    {
      assert docs[..j + 1] == docs[..j] + [docs[j]];
      extended := extended + [Upload(node, docs[j])];
      j := j + 1;
    }
    assert docs[..j] == docs;
  }

  /** The upload list `distribute_documents` builds: for each node in order, one
      upload per document of its slice, in slice order. */
  method UploadTasks(paths: seq<string>, nodes: nat, perNode: nat) returns (tasks: seq<Upload>)
    ensures tasks == Uploads(ShardPlan(paths, nodes, perNode))
  {
    tasks := [];
    var i := 0;
    while i < nodes
      invariant 0 <= i <= nodes
      invariant tasks == Uploads(ShardPlan(paths, i, perNode))
    {
      var startIdx := i * perNode;
      var endIdx := Min(startIdx + perNode, |paths|);
      var nodeDocs := Slice(paths, startIdx, endIdx);
      assert nodeDocs == Shard(paths, i, perNode);
      UploadsStep(paths, i + 1, perNode);
      tasks := AppendUploads(tasks, i, nodeDocs);
      i := i + 1;
    }
  }

  /** With the default capacity, the four-node pool of the example in
      llmux.py takes up to one hundred documents and no more. */
  lemma DefaultCapacityOfFourNodes(paths: seq<string>)
    ensures Plan(paths, 4, DefaultPerNode).Ok? <==> |paths| <= 100
    ensures |paths| > 100 ==> Plan(paths, 4, DefaultPerNode) == Raised("Too many documents. Maximum is 100")
  {
    assert NatToString(100) == NatToString(10) + ['0'];
    assert NatToString(10) == NatToString(1) + ['0'];
  }

  /** Two nodes with room for two documents each, three documents: the first
      node gets the first two, the second node the third. */
  lemma TwoNodesThreeDocuments()
    ensures Plan(["a", "b", "c"], 2, 2) == Ok([["a", "b"], ["c"]])
  {
    var paths := ["a", "b", "c"];
    assert Shard(paths, 0, 2) == ["a", "b"];
    assert Shard(paths, 1, 2) == ["c"];
    assert ShardPlan(paths, 2, 2) == [Shard(paths, 0, 2), Shard(paths, 1, 2)];
  }
}
