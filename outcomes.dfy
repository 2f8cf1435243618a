/** Results of llmux's operations and of the remote service it talks to. */
module Outcomes {

  datatype Option<+T> = None | Some(value: T)

  /** What an operation of llmux.py yields: a value, or an `Exception` raised with a message. */
  datatype Outcome<+T> = Ok(value: T) | Raised(message: string)

  /** The remote service's answer to one HTTP request: the payload field of a
      status-200 JSON body, or the text of any other response. */
  datatype Reply = Success(payload: string) | Failure(body: string)

  /** Index of the first raised outcome, or |outcomes| when there is none. */
  function FirstRaised<T>(outcomes: seq<Outcome<T>>): (f: nat)
    ensures f <= |outcomes|
    ensures forall j :: 0 <= j < f ==> outcomes[j].Ok?
    ensures f < |outcomes| ==> outcomes[f].Raised?
  {
    if outcomes == [] then 0
    else if outcomes[0].Raised? then 0
    else 1 + FirstRaised(outcomes[1..])
  }

  /** `asyncio.gather` over tasks whose outcomes are known: every task has run;
      the values come back in submission order, and if some task raised, the
      gather raises the exception of the first such task in submission order. */
  function Gather<T>(outcomes: seq<Outcome<T>>): (r: Outcome<seq<T>>)
    ensures r.Ok? <==> forall j :: 0 <= j < |outcomes| ==> outcomes[j].Ok?
    ensures r.Ok? ==> |r.value| == |outcomes|
    ensures r.Ok? ==> forall j :: 0 <= j < |outcomes| ==> r.value[j] == outcomes[j].value
    ensures r.Raised? ==> FirstRaised(outcomes) < |outcomes|
    ensures r.Raised? ==> r.message == outcomes[FirstRaised(outcomes)].message
  {
    if outcomes == [] then Ok([])
    else if outcomes[0].Raised? then Raised(outcomes[0].message)
    else
      match Gather(outcomes[1..])
      case Ok(rest) => Ok([outcomes[0].value] + rest)
      case Raised(message) => Raised(message)
  }

  /** The first raised outcome is the one at `i` when everything before it succeeded. */
  lemma FirstRaisedAt<T>(outcomes: seq<Outcome<T>>, i: nat)
    requires i < |outcomes| && outcomes[i].Raised?
    requires forall j :: 0 <= j < i ==> outcomes[j].Ok?
    ensures FirstRaised(outcomes) == i
    ensures Gather(outcomes) == Raised(outcomes[i].message)
  {
  }
}
