/**
  The destination side: Webflow's CMS API as the sync code sees it.
  The network is not modelled; instead every request is recorded, in
  order, on a `Client`. Writes (create, patch, delete) are recorded with
  their outcome, which the model leaves open (any request may fail);
  list requests are recorded by collection, and their responses are
  inputs of the operations that issue them.
*/
module Webflow {
  import opened Wrappers
  import opened JsValue

  /** An item of a Webflow collection: its id and its `fieldData` object. */
  datatype WfItem = WfItem(id: string, fieldData: Value)

  /** The two collections the code lists: the vehicles and the feature references. */
  datatype Collection = Vehicles | Features

  /** The three shapes of request body the sync code sends, each around one `fieldData` record. */
  datatype Body =
    | Items(fieldData: map<string, Value>)      // { items: [{ fieldData }] }
    | FieldData(fieldData: map<string, Value>)  // { fieldData }
    | Flagged(fieldData: map<string, Value>)    // { isArchived: false, isDraft: false, fieldData }

  /** The JSON object a body stands for. */
  function Json(b: Body): (r: Value)
    ensures r.Obj?
    ensures b.Items? ==> Field(r, "items") == Arr([Obj(map["fieldData" := Obj(b.fieldData)])])
    ensures !b.Items? ==> Field(r, "fieldData") == Obj(b.fieldData)
    ensures b.Flagged? <==> Field(r, "isDraft") == Bool(false)
  {
    match b
    case Items(f) => Obj(map["items" := Arr([Obj(map["fieldData" := Obj(f)])])])
    case FieldData(f) => Obj(map["fieldData" := Obj(f)])
    case Flagged(f) => Obj(map["isArchived" := Bool(false), "isDraft" := Bool(false), "fieldData" := Obj(f)])
  }

  /** A mutating request on the vehicle collection (`live`: sent with `?live=true`). */
  datatype Call =
    | CreateItem(live: bool, body: Body)
    | PatchItem(itemId: string, live: bool, body: Body)
    | DeleteItem(itemId: string)

  datatype Entry = Entry(call: Call, ok: bool)

  class Client {
    /** Every write issued so far, with whether Webflow accepted it. */
    var writes: seq<Entry>
    /** Every list (GET items) request issued so far. */
    var lists: seq<Collection>

    constructor ()
      ensures writes == [] && lists == []
    {
      writes := [];
      lists := [];
    }

    /** Issue one write; a non-OK status is reported as `ok == false`. */
    method Send(c: Call) returns (ok: bool)
      modifies this
      ensures writes == old(writes) + [Entry(c, ok)]
      ensures lists == old(lists)
    {
      ok :| true;
      writes := writes + [Entry(c, ok)];
    }

    /** Issue one list request; `response` is what Webflow answers. */
    method List(c: Collection, response: Result<seq<WfItem>, Value>) returns (r: Result<seq<WfItem>, Value>)
      modifies this
      ensures lists == old(lists) + [c]
      ensures writes == old(writes)
      ensures r == response
    {
      lists := lists + [c];
      r := response;
    }
  }

  /** All of these calls, each accepted. */
  function Accepted(cs: seq<Call>): (r: seq<Entry>)
    ensures |r| == |cs|
  {
    seq(|cs|, i requires 0 <= i < |cs| => Entry(cs[i], true))
  }

  lemma AcceptedSnoc(cs: seq<Call>, c: Call)
    ensures Accepted(cs + [c]) == Accepted(cs) + [Entry(c, true)]
  {
    assert (cs + [c])[..|cs|] == cs;
  }

  lemma AcceptedAppend(a: seq<Call>, b: seq<Call>)
    ensures Accepted(a + b) == Accepted(a) + Accepted(b)
  {
  }

  predicate IsPrefix<T(==)>(a: seq<T>, b: seq<T>) {
    |a| <= |b| && a == b[..|a|]
  }

  lemma PrefixOfAppend<T>(a: seq<T>, b: seq<T>, c: seq<T>)
    requires IsPrefix(a, b)
    ensures IsPrefix(a, b + c)
  {
    assert (b + c)[..|a|] == b[..|a|];
  }

  lemma PrefixBehind<T>(a: seq<T>, b: seq<T>, c: seq<T>)
    requires IsPrefix(b, c)
    ensures IsPrefix(a + b, a + c)
  {
    assert (a + c)[..|a + b|] == a + c[..|b|];
  }

  /**
    How a run that stops at its first failure leaves the write log: either
    the whole plan, every call accepted, or the calls of `plan` up to some
    point, all accepted, followed by the plan's next call, rejected.
  */
  ghost predicate Truncated(issued: seq<Entry>, plan: seq<Call>) {
    || issued == Accepted(plan)
    || exists n :: 0 <= n < |plan| && issued == Accepted(plan[..n]) + [Entry(plan[n], false)]
  }

  /** A log that ends with a rejected call is not a log of accepted calls. */
  lemma RejectedNotAccepted(done: seq<Call>, c: Call, plan: seq<Call>)
    ensures Accepted(done) + [Entry(c, false)] != Accepted(plan)
  {
    var log := Accepted(done) + [Entry(c, false)];
    assert !log[|done|].ok;
  }

  /**
    A cut log went through the whole plan exactly when every request in it
    was accepted: the only way to stop early is a rejected request.
  */
  lemma CompleteIffAllAccepted(issued: seq<Entry>, plan: seq<Call>)
    requires Truncated(issued, plan)
    ensures issued == Accepted(plan) <==> forall i :: 0 <= i < |issued| ==> issued[i].ok
  {
    if issued != Accepted(plan) {
      var n :| 0 <= n < |plan| && issued == Accepted(plan[..n]) + [Entry(plan[n], false)];
      assert !issued[|issued| - 1].ok;
    }
  }

  /** A run that got through the whole plan. */
  lemma StoppedAfter(before: seq<Entry>, writes: seq<Entry>, plan: seq<Call>)
    requires writes == before + Accepted(plan)
    ensures |before| <= |writes| && writes[..|before|] == before
    ensures writes[|before|..] == Accepted(plan)
    ensures Truncated(writes[|before|..], plan)
  {
    assert writes[|before|..] == Accepted(plan);
  }

  /** A run that got through `done` and then saw the plan's next call, `call`, rejected. */
  lemma FailedAfter(before: seq<Entry>, writes: seq<Entry>, plan: seq<Call>, done: seq<Call>, call: Call)
    requires IsPrefix(done + [call], plan) && writes == before + Accepted(done) + [Entry(call, false)]
    ensures |before| <= |writes| && writes[..|before|] == before
    ensures Truncated(writes[|before|..], plan)
    ensures writes[|before|..] != Accepted(plan)
  {
    assert plan[..|done|] == (done + [call])[..|done|] == done;
    assert plan[|done|] == (done + [call])[|done|] == call;
    assert writes[|before|..] == Accepted(plan[..|done|]) + [Entry(plan[|done|], false)];
    RejectedNotAccepted(done, call, plan);
  }
}
