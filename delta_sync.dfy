/**
  The delta-sync endpoint (api/delta-sync.js). It loads every Syscara ad
  and every Webflow vehicle item, indexes both by the Syscara id, writes
  every ad (a PATCH when an item with that id exists, a POST otherwise)
  and finally deletes every item whose id Syscara no longer lists. The
  first error of any kind ends the run: there is one try/catch around
  the whole handler. Nothing compares contents, so every matched ad is
  patched on every run.

  The mapper (`mapVehicle` as the handler uses it) and `JSON.parse` are
  parameters: the handler reads the mapper's result as a flat record,
  which is stated here over any mapper.
*/
module DeltaSync {
  import opened Wrappers
  import opened JsValue
  import opened Webflow
  import OrderedIndex
  import Enrichment

  type Mapper = Value -> Option<map<string, Value>>
  type Parser = Value -> Option<Value>

  /** `ad?.id`, when truthy, as `String(ad.id)`: the key of `sysMap`. */
  function AdKey(ad: Value): Option<string> {
    var id := OptProp(ad, "id");
    if Truthy(id) then Some(ToStr(id)) else None
  }

  /** `item.fieldData?.["fahrzeug-id"]`, when truthy, as a string: the key of `wfMap`. */
  function ItemKey(item: WfItem): Option<string> {
    var fid := OptProp(item.fieldData, "fahrzeug-id");
    if Truthy(fid) then Some(ToStr(fid)) else None
  }

  function AdSelf(ad: Value): Value { ad }

  function ItemSelf(item: WfItem): WfItem { item }

  /** `sysMap` */
  function SysIndex(ads: seq<Value>): OrderedIndex.Index<Value> {
    OrderedIndex.IndexBy(ads, AdKey, AdSelf)
  }

  /** `wfMap` */
  function WfIndex(items: seq<WfItem>): OrderedIndex.Index<WfItem> {
    OrderedIndex.IndexBy(items, ItemKey, ItemSelf)
  }

  /** What the write loop needs besides the two indexes. */
  datatype Ctx = Ctx(mapper: Mapper, parse: Parser, origin: string, fmap: map<string, string>)

  /** The record written for one ad; None when mapping or enrichment throws. */
  function Prepare(ctx: Ctx, ad: Value): Option<map<string, Value>> {
    match ctx.mapper(ad)
    case None => None
    case Some(rec) => Enrichment.Enrich(rec, ctx.origin, ctx.fmap, ctx.parse)
  }

  /**
    The loops below are stated for any way `prep` of turning an ad into the
    record written (None: it throws); the handler passes `Prepare` itself.
  */
  type Prep = Value -> Option<map<string, Value>>

  function Preparer(ctx: Ctx): Prep {
    ad => Prepare(ctx, ad)
  }

  /** PATCH `{ fieldData }` of the existing item when the id is known, else POST `{ items: [{ fieldData }] }`; both with `?live=true`. */
  function WriteCall(id: string, fields: map<string, Value>, wf: OrderedIndex.Index<WfItem>): (c: Call)
    ensures id in wf.vals ==> c.PatchItem? && c.itemId == wf.vals[id].id
    ensures id !in wf.vals ==> c.CreateItem?
    ensures c.live
  {
    if id in wf.vals then PatchItem(wf.vals[id].id, true, FieldData(fields))
    else CreateItem(true, Items(fields))
  }

  /** The ad stored under the `i`-th key of `sysMap` (`sysMap.get(id)`). */
  function AdAt(sys: OrderedIndex.Index<Value>, i: nat): Value
    requires i < |sys.keys|
  {
    Lookup(sys.vals, sys.keys[i])
  }

  /** The position of the first ad, from `i` on, whose record cannot be prepared (`|sys.keys|` if none). */
  function ReadyFrom(prep: Prep, sys: OrderedIndex.Index<Value>, i: nat): (r: nat)
    requires i <= |sys.keys|
    ensures i <= r <= |sys.keys|
    ensures forall j :: i <= j < r ==> prep(AdAt(sys, j)).Some?
    ensures r < |sys.keys| ==> prep(AdAt(sys, r)).None?
    decreases |sys.keys| - i
  {
    if i == |sys.keys| || prep(AdAt(sys, i)).None? then i else ReadyFrom(prep, sys, i + 1)
  }

  /** How many leading ads are written before the first one that throws. */
  function ReadyPrefix(prep: Prep, sys: OrderedIndex.Index<Value>): nat {
    ReadyFrom(prep, sys, 0)
  }

  /** The write for the `i`-th ad. */
  function WriteAt(prep: Prep, sys: OrderedIndex.Index<Value>, wf: OrderedIndex.Index<WfItem>, i: nat): Call
    requires i < ReadyPrefix(prep, sys)
  {
    WriteCall(sys.keys[i], prep(AdAt(sys, i)).value, wf)
  }

  /** The writes for the first `n` ads, in `sysMap` order. */
  function Writes(prep: Prep, sys: OrderedIndex.Index<Value>, wf: OrderedIndex.Index<WfItem>, n: nat): (r: seq<Call>)
    requires n <= ReadyPrefix(prep, sys)
    ensures |r| == n
  {
    if n == 0 then [] else Writes(prep, sys, wf, n - 1) + [WriteAt(prep, sys, wf, n - 1)]
  }

  /** The log the first `n` accepted writes leave. */
  function WriteLog(prep: Prep, sys: OrderedIndex.Index<Value>, wf: OrderedIndex.Index<WfItem>, n: nat): (r: seq<Entry>)
    requires n <= ReadyPrefix(prep, sys)
  {
    if n == 0 then [] else WriteLog(prep, sys, wf, n - 1) + [Entry(WriteAt(prep, sys, wf, n - 1), true)]
  }

  lemma {:induction false} WriteLogAccepted(prep: Prep, sys: OrderedIndex.Index<Value>, wf: OrderedIndex.Index<WfItem>, n: nat)
    requires n <= ReadyPrefix(prep, sys)
    ensures WriteLog(prep, sys, wf, n) == Accepted(Writes(prep, sys, wf, n))
  {
    if n > 0 {
      WriteLogAccepted(prep, sys, wf, n - 1);
      AcceptedSnoc(Writes(prep, sys, wf, n - 1), WriteAt(prep, sys, wf, n - 1));
    }
  }

  /** The writes of the create/update loop, up to the first ad that throws. */
  function WritePlan(prep: Prep, sys: OrderedIndex.Index<Value>, wf: OrderedIndex.Index<WfItem>): seq<Call> {
    Writes(prep, sys, wf, ReadyPrefix(prep, sys))
  }

  /**
    The deletes of the sweep over the keys `ks` of `wfMap`, in order
    (every key of a valid index has an item; the guard keeps this total).
  */
  function DeletePlan(wf: OrderedIndex.Index<WfItem>, sys: OrderedIndex.Index<Value>, n: nat): seq<Call>
    requires n <= |wf.keys| && OrderedIndex.Covered(wf)
  {
    if n == 0 then []
    else
      var k := wf.keys[n - 1];
      DeletePlan(wf, sys, n - 1) + (if k !in sys.vals then [DeleteItem(wf.vals[k].id)] else [])
  }

  /** The log the sweep over the first `n` keys of `wfMap` leaves when every delete is accepted. */
  function DeleteLog(wf: OrderedIndex.Index<WfItem>, sys: OrderedIndex.Index<Value>, n: nat): seq<Entry>
    requires n <= |wf.keys| && OrderedIndex.Covered(wf)
  {
    if n == 0 then []
    else
      var k := wf.keys[n - 1];
      DeleteLog(wf, sys, n - 1) + (if k !in sys.vals then [Entry(DeleteItem(wf.vals[k].id), true)] else [])
  }

  /** Every request a run issues, in order; the sweep happens only when the write loop got through. */
  function Plan(prep: Prep, sys: OrderedIndex.Index<Value>, wf: OrderedIndex.Index<WfItem>): seq<Call>
    requires OrderedIndex.Covered(wf)
  {
    WritePlan(prep, sys, wf)
      + if ReadyPrefix(prep, sys) == |sys.keys| then DeletePlan(wf, sys, |wf.keys|) else []
  }

  datatype Summary = Summary(syscara: nat, webflow: nat, created: nat, updated: nat, deleted: nat)

  datatype HandlerError =
    | MissingEnv               // 500 "Missing ENV vars"
    | SyscaraError(text: string)
    | WebflowError(body: Value)
    | Thrown                   // a TypeError or a JSON.parse error inside the loop

  /** The five environment variables the handler needs; an unset one reads as "". */
  datatype Env = Env(token: string, collection: string, featuresCollection: string, user: string, pass: string)

  predicate EnvComplete(env: Env) {
    env.token != "" && env.collection != "" && env.featuresCollection != "" && env.user != "" && env.pass != ""
  }

  /**
    Steps 1 to 3: what the handler has loaded before its first write (the
    Syscara ads, the Webflow vehicle items, the feature map), or the error
    that ends the run first. `syscara` is the ads response (its
    `Object.values`, or the error text of a non-OK status), `vehicles` and
    `features` are Webflow's answers to the two listings, `cached` the
    feature map kept from an earlier run.
  */
  function Loaded(env: Env, syscara: Result<seq<Value>, string>, vehicles: Result<seq<WfItem>, Value>,
                  features: Result<seq<WfItem>, Value>, cached: Option<map<string, string>>)
    : Result<(seq<Value>, seq<WfItem>, map<string, string>), HandlerError>
  {
    if !EnvComplete(env) then Failure(MissingEnv)
    else if syscara.Failure? then Failure(SyscaraError(syscara.error))
    else if vehicles.Failure? then Failure(WebflowError(vehicles.error))
    else if cached.Some? then Success((syscara.value, vehicles.value, cached.value))
    else if features.Failure? then Failure(WebflowError(features.error))
    else Success((syscara.value, vehicles.value, Enrichment.FeatureMapOf(features.value)))
  }

  /** The Webflow listings the handler issues: none before the ads are in, the features only without a cache. */
  function Listings(env: Env, syscara: Result<seq<Value>, string>, vehicles: Result<seq<WfItem>, Value>,
                    cached: Option<map<string, string>>): seq<Collection>
  {
    if !EnvComplete(env) || syscara.Failure? then []
    else if vehicles.Failure? || cached.Some? then [Vehicles]
    else [Vehicles, Features]
  }

  // ---------------------------------------------------------------------
  // The two loops
  // ---------------------------------------------------------------------

  /**
    One iteration of step 4, for the `i`-th entry of `sysMap`: prepare the
    ad and send its write. A record that cannot be prepared throws before
    anything is sent. `base` is the log before the loop started.
  */
  method WriteOne(prep: Prep, sys: OrderedIndex.Index<Value>, wf: OrderedIndex.Index<WfItem>, client: Client,
                  i: nat, ghost base: seq<Entry>)
    returns (r: Result<bool, HandlerError>)
    requires i < |sys.keys| && i <= ReadyPrefix(prep, sys)
    requires client.writes == base + WriteLog(prep, sys, wf, i)
    modifies client
    ensures client.lists == old(client.lists)
    ensures r.Success? ==> (i < ReadyPrefix(prep, sys)
      && client.writes == base + WriteLog(prep, sys, wf, i + 1)
      && r.value == (sys.keys[i] in wf.vals))
    ensures r.Failure? ==>
      || (i == ReadyPrefix(prep, sys) && client.writes == old(client.writes) && r.error == Thrown)
      || (i < ReadyPrefix(prep, sys) && client.writes == old(client.writes) + [Entry(WriteAt(prep, sys, wf, i), false)]
          && r.error == WebflowError(Null))
  {
    var id := sys.keys[i];
    var fields := prep(AdAt(sys, i));
    if fields.None? {
      return Failure(Thrown);
    }
    var call := WriteCall(id, fields.value, wf);
    var ok := client.Send(call);
    if !ok {
      return Failure(WebflowError(Null));
    }
    r := Success(id in wf.vals);
  }

  /**
    Step 4: one write per `sysMap` entry, in order. It stops (the handler
    throws) at the first ad whose record cannot be prepared or whose
    write Webflow rejects; `n` is how many writes went through.
  */
  method WriteLoop(prep: Prep, sys: OrderedIndex.Index<Value>, wf: OrderedIndex.Index<WfItem>, client: Client)
    returns (out: Result<(nat, nat), HandlerError>, ghost n: nat)
    modifies client
    ensures client.lists == old(client.lists)
    ensures n <= ReadyPrefix(prep, sys)
    ensures out.Success? ==> (n == ReadyPrefix(prep, sys) == |sys.keys|
      && client.writes == old(client.writes) + WriteLog(prep, sys, wf, n)
      && out.value.0 == OrderedIndex.Outside(sys.keys, n, wf.vals.Keys)
      && out.value.1 == OrderedIndex.Inside(sys.keys, n, wf.vals.Keys))
    ensures out.Failure? ==>
      || (n == ReadyPrefix(prep, sys) < |sys.keys|
          && client.writes == old(client.writes) + WriteLog(prep, sys, wf, n)
          && out.error == Thrown)
      || (n < ReadyPrefix(prep, sys)
          && client.writes == old(client.writes) + WriteLog(prep, sys, wf, n) + [Entry(WriteAt(prep, sys, wf, n), false)]
          && out.error == WebflowError(Null))
  {
    ghost var base := client.writes;
    var created, updated := 0, 0;
    var i := 0;
    while i < |sys.keys|
      invariant i <= ReadyPrefix(prep, sys)
      invariant client.lists == old(client.lists)
      invariant client.writes == base + WriteLog(prep, sys, wf, i)
      invariant created == OrderedIndex.Outside(sys.keys, i, wf.vals.Keys)
      invariant updated == OrderedIndex.Inside(sys.keys, i, wf.vals.Keys)
    {
      var r := WriteOne(prep, sys, wf, client, i, base);
      if r.Failure? {
        return Failure(r.error), i;
      }
      if r.value {
        updated := updated + 1;
      } else {
        created := created + 1;
      }
      i := i + 1;
    }
    out, n := Success((created, updated)), i;
  }

  /**
    Step 5: walk `wfMap` in order and delete every item whose id is not a
    key of `sysMap`. It stops at the first delete Webflow rejects; then
    `n` is the position in `wfMap` of the item whose delete failed.
  */
  method DeleteSweep(wf: OrderedIndex.Index<WfItem>, sys: OrderedIndex.Index<Value>, client: Client)
    returns (out: Result<nat, HandlerError>, ghost n: nat)
    requires OrderedIndex.Covered(wf)
    modifies client
    ensures client.lists == old(client.lists)
    ensures out.Success? ==> (client.writes == old(client.writes) + DeleteLog(wf, sys, |wf.keys|)
      && out.value == OrderedIndex.Outside(wf.keys, |wf.keys|, sys.vals.Keys))
    ensures out.Failure? ==> (n < |wf.keys| && wf.keys[n] !in sys.vals && out.error == WebflowError(Null)
      && client.writes == old(client.writes) + DeleteLog(wf, sys, n) + [Entry(DeleteItem(wf.vals[wf.keys[n]].id), false)])
  {
    ghost var base := client.writes;
    var deleted := 0;
    var j := 0;
    while j < |wf.keys|
      invariant j <= |wf.keys|
      invariant client.lists == old(client.lists)
      invariant client.writes == base + DeleteLog(wf, sys, j)
      invariant deleted == OrderedIndex.Outside(wf.keys, j, sys.vals.Keys)
    {
      var fid := wf.keys[j];
      if fid !in sys.vals {
        var ok := client.Send(DeleteItem(wf.vals[fid].id));
        if !ok {
          return Failure(WebflowError(Null)), j;
        }
        deleted := deleted + 1;
      }
      j := j + 1;
    }
    out, n := Success(deleted), j;
  }

  /**
    Steps 4 and 5 together. Whatever happens, the requests issued are the
    plan cut at the first failure; the run succeeds exactly when every ad
    could be prepared and the whole plan went through, and then the
    counters are the sizes of the three key sets. A run that fails with
    every issued request accepted was stopped by an ad that throws; any
    other failure is a rejected request.
  */
  method Reconcile(prep: Prep, sys: OrderedIndex.Index<Value>, wf: OrderedIndex.Index<WfItem>, client: Client)
    returns (out: Result<(nat, nat, nat), HandlerError>)
    requires OrderedIndex.Valid(sys) && OrderedIndex.Valid(wf) && OrderedIndex.Covered(wf)
    modifies client
    ensures client.lists == old(client.lists)
    ensures |old(client.writes)| <= |client.writes| && client.writes[..|old(client.writes)|] == old(client.writes)
    ensures Truncated(client.writes[|old(client.writes)|..], Plan(prep, sys, wf))
    ensures out.Success? <==>
      ReadyPrefix(prep, sys) == |sys.keys| && client.writes[|old(client.writes)|..] == Accepted(Plan(prep, sys, wf))
    ensures out.Failure? ==>
      out.error == (if client.writes[|old(client.writes)|..] == Accepted(Plan(prep, sys, wf)) then Thrown else WebflowError(Null))
    ensures out.Success? ==> (out.value.0 == |sys.vals.Keys - wf.vals.Keys|
      && out.value.1 == |sys.vals.Keys * wf.vals.Keys|
      && out.value.2 == |wf.vals.Keys - sys.vals.Keys|)
  {
    ghost var before := client.writes;
    var w, n := WriteLoop(prep, sys, wf, client);
    if w.Failure? {
      WriteFailTruncated(prep, sys, wf, n, before, client.writes);
      return Failure(w.error);
    }
    ghost var mid := client.writes;
    var d, m := DeleteSweep(wf, sys, client);
    if d.Failure? {
      DeleteFailTruncated(prep, sys, wf, m, before, mid, client.writes);
      return Failure(d.error);
    }
    CompletedRun(prep, sys, wf, before, mid, client.writes);
    Counted(sys, wf);
    out := Success((w.value.0, w.value.1, d.value));
  }

  lemma {:induction false} WritesPrefix(prep: Prep, sys: OrderedIndex.Index<Value>, wf: OrderedIndex.Index<WfItem>, n: nat, m: nat)
    requires n <= m <= ReadyPrefix(prep, sys)
    ensures IsPrefix(Writes(prep, sys, wf, n), Writes(prep, sys, wf, m))
    ensures n < m ==> Writes(prep, sys, wf, m)[n] == WriteAt(prep, sys, wf, n)
    decreases m - n
  {
    if n < m {
      WritesPrefix(prep, sys, wf, n + 1, m);
    }
  }

  lemma WriteFailTruncated(prep: Prep, sys: OrderedIndex.Index<Value>, wf: OrderedIndex.Index<WfItem>, n: nat,
                           before: seq<Entry>, writes: seq<Entry>)
    requires OrderedIndex.Covered(wf) && n <= ReadyPrefix(prep, sys)
    requires
      || (n == ReadyPrefix(prep, sys) < |sys.keys| && writes == before + WriteLog(prep, sys, wf, n))
      || (n < ReadyPrefix(prep, sys)
          && writes == before + WriteLog(prep, sys, wf, n) + [Entry(WriteAt(prep, sys, wf, n), false)])
    ensures |before| <= |writes| && writes[..|before|] == before
    ensures Truncated(writes[|before|..], Plan(prep, sys, wf))
    ensures writes[|before|..] == Accepted(Plan(prep, sys, wf)) <==> n == ReadyPrefix(prep, sys)
  {
    WriteLogAccepted(prep, sys, wf, n);
    var plan := Plan(prep, sys, wf);
    if n == ReadyPrefix(prep, sys) < |sys.keys| {
      assert plan == Writes(prep, sys, wf, n);
      StoppedAfter(before, writes, plan);
    } else {
      var done := Writes(prep, sys, wf, n);
      assert Writes(prep, sys, wf, n + 1) == done + [WriteAt(prep, sys, wf, n)];
      WritesPrefix(prep, sys, wf, n + 1, ReadyPrefix(prep, sys));
      PrefixOfAppend(Writes(prep, sys, wf, n + 1), WritePlan(prep, sys, wf),
        if ReadyPrefix(prep, sys) == |sys.keys| then DeletePlan(wf, sys, |wf.keys|) else []);
      FailedAfter(before, writes, plan, done, WriteAt(prep, sys, wf, n));
    }
  }

  lemma DeleteFailTruncated(prep: Prep, sys: OrderedIndex.Index<Value>, wf: OrderedIndex.Index<WfItem>, m: nat,
                            before: seq<Entry>, mid: seq<Entry>, writes: seq<Entry>)
    requires OrderedIndex.Covered(wf) && ReadyPrefix(prep, sys) == |sys.keys|
    requires mid == before + WriteLog(prep, sys, wf, |sys.keys|)
    requires m < |wf.keys| && wf.keys[m] !in sys.vals
    requires writes == mid + DeleteLog(wf, sys, m) + [Entry(DeleteItem(wf.vals[wf.keys[m]].id), false)]
    ensures |before| <= |writes| && writes[..|before|] == before
    ensures Truncated(writes[|before|..], Plan(prep, sys, wf))
    ensures writes[|before|..] != Accepted(Plan(prep, sys, wf))
  {
    var done := WritePlan(prep, sys, wf) + DeletePlan(wf, sys, m);
    var call := DeleteItem(wf.vals[wf.keys[m]].id);
    DeleteFailLog(prep, sys, wf, m, before, mid, writes);
    DeleteFailPrefix(prep, sys, wf, m);
    FailedAfter(before, writes, Plan(prep, sys, wf), done, call);
  }

  /** The log of a sweep that failed at key `m`, in terms of the calls issued before it. */
  lemma DeleteFailLog(prep: Prep, sys: OrderedIndex.Index<Value>, wf: OrderedIndex.Index<WfItem>, m: nat,
                      before: seq<Entry>, mid: seq<Entry>, writes: seq<Entry>)
    requires OrderedIndex.Covered(wf) && ReadyPrefix(prep, sys) == |sys.keys|
    requires mid == before + WriteLog(prep, sys, wf, |sys.keys|)
    requires m < |wf.keys|
    requires writes == mid + DeleteLog(wf, sys, m) + [Entry(DeleteItem(wf.vals[wf.keys[m]].id), false)]
    ensures writes == before + Accepted(WritePlan(prep, sys, wf) + DeletePlan(wf, sys, m))
      + [Entry(DeleteItem(wf.vals[wf.keys[m]].id), false)]
  {
    WriteLogAccepted(prep, sys, wf, |sys.keys|);
    DeleteLogAccepted(wf, sys, m);
    AcceptedAppend(WritePlan(prep, sys, wf), DeletePlan(wf, sys, m));
  }

  /** The calls up to and including the failed delete are a prefix of the plan. */
  lemma DeleteFailPrefix(prep: Prep, sys: OrderedIndex.Index<Value>, wf: OrderedIndex.Index<WfItem>, m: nat)
    requires OrderedIndex.Covered(wf) && ReadyPrefix(prep, sys) == |sys.keys|
    requires m < |wf.keys| && wf.keys[m] !in sys.vals
    ensures IsPrefix(WritePlan(prep, sys, wf) + DeletePlan(wf, sys, m) + [DeleteItem(wf.vals[wf.keys[m]].id)],
      Plan(prep, sys, wf))
  {
    var wp := WritePlan(prep, sys, wf);
    var dels := DeletePlan(wf, sys, m);
    var call := DeleteItem(wf.vals[wf.keys[m]].id);
    assert DeletePlan(wf, sys, m + 1) == dels + [call];
    DeletePrefix(wf, sys, m + 1);
    PrefixBehind(wp, dels + [call], DeletePlan(wf, sys, |wf.keys|));
    assert wp + (dels + [call]) == (wp + dels) + [call];
  }

  lemma {:induction false} DeleteLogAccepted(wf: OrderedIndex.Index<WfItem>, sys: OrderedIndex.Index<Value>, n: nat)
    requires n <= |wf.keys| && OrderedIndex.Covered(wf)
    ensures DeleteLog(wf, sys, n) == Accepted(DeletePlan(wf, sys, n))
  {
    if n > 0 {
      DeleteLogAccepted(wf, sys, n - 1);
      var k := wf.keys[n - 1];
      if k !in sys.vals {
        AcceptedSnoc(DeletePlan(wf, sys, n - 1), DeleteItem(wf.vals[k].id));
      } else {
        assert DeletePlan(wf, sys, n) == DeletePlan(wf, sys, n - 1);
      }
    }
  }

  lemma Counted(sys: OrderedIndex.Index<Value>, wf: OrderedIndex.Index<WfItem>)
    requires OrderedIndex.Valid(sys) && OrderedIndex.Valid(wf)
    ensures OrderedIndex.Outside(sys.keys, |sys.keys|, wf.vals.Keys) == |sys.vals.Keys - wf.vals.Keys|
    ensures OrderedIndex.Inside(sys.keys, |sys.keys|, wf.vals.Keys) == |sys.vals.Keys * wf.vals.Keys|
    ensures OrderedIndex.Outside(wf.keys, |wf.keys|, sys.vals.Keys) == |wf.vals.Keys - sys.vals.Keys|
  {
    OrderedIndex.Counts(sys, wf.vals.Keys);
    OrderedIndex.Counts(wf, sys.vals.Keys);
  }

  lemma CompletedRun(prep: Prep, sys: OrderedIndex.Index<Value>, wf: OrderedIndex.Index<WfItem>,
                     before: seq<Entry>, mid: seq<Entry>, writes: seq<Entry>)
    requires OrderedIndex.Covered(wf) && ReadyPrefix(prep, sys) == |sys.keys|
    requires mid == before + WriteLog(prep, sys, wf, |sys.keys|)
    requires writes == mid + DeleteLog(wf, sys, |wf.keys|)
    ensures |before| <= |writes| && writes[..|before|] == before
    ensures writes[|before|..] == Accepted(Plan(prep, sys, wf))
    ensures Truncated(writes[|before|..], Plan(prep, sys, wf))
  {
    WriteLogAccepted(prep, sys, wf, |sys.keys|);
    var plan := Plan(prep, sys, wf);
    DeleteLogAccepted(wf, sys, |wf.keys|);
    AcceptedAppend(WritePlan(prep, sys, wf), DeletePlan(wf, sys, |wf.keys|));
    assert writes == before + Accepted(plan);
    StoppedAfter(before, writes, plan);
  }

  lemma {:induction false} DeletePrefix(wf: OrderedIndex.Index<WfItem>, sys: OrderedIndex.Index<Value>, n: nat)
    requires n <= |wf.keys| && OrderedIndex.Covered(wf)
    ensures IsPrefix(DeletePlan(wf, sys, n), DeletePlan(wf, sys, |wf.keys|))
    decreases |wf.keys| - n
  {
    if n < |wf.keys| {
      DeletePrefix(wf, sys, n + 1);
    }
  }

  // ---------------------------------------------------------------------
  // The handler
  // ---------------------------------------------------------------------

  /**
    The whole request. Before any write it checks the environment, loads
    the ads (a non-OK status throws its text), lists the vehicle items and
    obtains the feature map; the first failure ends the run without a
    write. Then it reconciles, and on success reports the sizes of the two
    indexes and the three counters.
  */
  method Handler(env: Env, syscara: Result<seq<Value>, string>, vehicles: Result<seq<WfItem>, Value>,
                 features: Result<seq<WfItem>, Value>, mapper: Mapper, parse: Parser, origin: string,
                 cache: Enrichment.FeatureCache, client: Client)
    returns (out: Result<Summary, HandlerError>)
    modifies cache, client
    ensures client.lists == old(client.lists) + Listings(env, syscara, vehicles, old(cache.cached))
    ensures |old(client.writes)| <= |client.writes| && client.writes[..|old(client.writes)|] == old(client.writes)
    ensures var l := Loaded(env, syscara, vehicles, features, old(cache.cached));
      && (l.Failure? ==> out == Failure(l.error) && client.writes == old(client.writes) && cache.cached == old(cache.cached))
      && (l.Success? ==> cache.cached == Some(l.value.2))
    ensures var l := Loaded(env, syscara, vehicles, features, old(cache.cached));
      l.Success? ==> (
        var sys := SysIndex(l.value.0);
        var wf := WfIndex(l.value.1);
        var prep := Preparer(Ctx(mapper, parse, origin, l.value.2));
        var issued := client.writes[|old(client.writes)|..];
        && Truncated(issued, Plan(prep, sys, wf))
        && (out.Success? <==> ReadyPrefix(prep, sys) == |sys.keys| && issued == Accepted(Plan(prep, sys, wf)))
        && (out.Failure? ==> out.error == if issued == Accepted(Plan(prep, sys, wf)) then Thrown else WebflowError(Null))
        && (out.Success? ==> out.value == Summary(|sys.vals.Keys|, |wf.vals.Keys|, |sys.vals.Keys - wf.vals.Keys|,
              |sys.vals.Keys * wf.vals.Keys|, |wf.vals.Keys - sys.vals.Keys|)))
    ensures out.Success? ==> out.value.created + out.value.updated == out.value.syscara
  {
    if !EnvComplete(env) {
      return Failure(MissingEnv);
    }
    if syscara.Failure? {
      return Failure(SyscaraError(syscara.error));
    }
    var sys := OrderedIndex.BuildIndex(syscara.value, AdKey, AdSelf);
    var listed := client.List(Vehicles, vehicles);
    if listed.Failure? {
      return Failure(WebflowError(listed.error));
    }
    var wf := OrderedIndex.BuildIndex(listed.value, ItemKey, ItemSelf);
    var fmap := cache.Get(client, features);
    if fmap.Failure? {
      return Failure(WebflowError(fmap.error));
    }
    out := Report(Preparer(Ctx(mapper, parse, origin, fmap.value)), sys, wf, client);
  }

  /** Steps 4 to 6: reconcile the two indexes and report the sizes and counters. */
  method Report(prep: Prep, sys: OrderedIndex.Index<Value>, wf: OrderedIndex.Index<WfItem>, client: Client)
    returns (out: Result<Summary, HandlerError>)
    requires OrderedIndex.Valid(sys) && OrderedIndex.Valid(wf)
    modifies client
    ensures client.lists == old(client.lists)
    ensures |old(client.writes)| <= |client.writes| && client.writes[..|old(client.writes)|] == old(client.writes)
    ensures OrderedIndex.Covered(wf)
    ensures Truncated(client.writes[|old(client.writes)|..], Plan(prep, sys, wf))
    ensures out.Success? <==>
      ReadyPrefix(prep, sys) == |sys.keys| && client.writes[|old(client.writes)|..] == Accepted(Plan(prep, sys, wf))
    ensures out.Failure? ==>
      out.error == (if client.writes[|old(client.writes)|..] == Accepted(Plan(prep, sys, wf)) then Thrown else WebflowError(Null))
    ensures out.Success? ==> out.value == Summary(|sys.vals.Keys|, |wf.vals.Keys|, |sys.vals.Keys - wf.vals.Keys|,
      |sys.vals.Keys * wf.vals.Keys|, |wf.vals.Keys - sys.vals.Keys|)
    ensures out.Success? ==> out.value.created + out.value.updated == out.value.syscara
  {
    OrderedIndex.CoveredByValid(wf);
    var r := Reconcile(prep, sys, wf, client);
    if r.Failure? {
      return Failure(r.error);
    }
    OrderedIndex.Size(sys);
    OrderedIndex.Size(wf);
    CreatedPlusUpdated(sys.vals.Keys, wf.vals.Keys);
    out := Success(Summary(|sys.keys|, |wf.keys|, r.value.0, r.value.1, r.value.2));
  }

  // ---------------------------------------------------------------------
  // What the plan says
  // ---------------------------------------------------------------------

  /** `sysMap` holds exactly the ads with a truthy id, under `String(id)`. */
  lemma SysIndexKeys(ads: seq<Value>, k: string)
    ensures k in SysIndex(ads).vals <==>
      exists i :: 0 <= i < |ads| && Truthy(OptProp(ads[i], "id")) && ToStr(OptProp(ads[i], "id")) == k
  {
    OrderedIndex.IndexByHas(ads, AdKey, AdSelf, k);
    assert forall i :: 0 <= i < |ads| ==> (AdKey(ads[i]) == Some(k) <==>
      Truthy(OptProp(ads[i], "id")) && ToStr(OptProp(ads[i], "id")) == k);
  }

  /** Of two ads with the same id, `sysMap` keeps the later one. */
  lemma SysIndexLastWins(ads: seq<Value>, i: nat)
    requires i < |ads| && Truthy(OptProp(ads[i], "id"))
    requires forall j :: i < j < |ads| ==> AdKey(ads[j]) != AdKey(ads[i])
    ensures ToStr(OptProp(ads[i], "id")) in SysIndex(ads).vals
    ensures SysIndex(ads).vals[ToStr(OptProp(ads[i], "id"))] == ads[i]
  {
    OrderedIndex.IndexByLastWins(ads, AdKey, AdSelf, i);
  }

  /** `wfMap` holds exactly the items with a truthy `fahrzeug-id`, under its string form. */
  lemma WfIndexKeys(items: seq<WfItem>, k: string)
    ensures k in WfIndex(items).vals <==>
      exists i :: 0 <= i < |items| && Truthy(OptProp(items[i].fieldData, "fahrzeug-id"))
        && ToStr(OptProp(items[i].fieldData, "fahrzeug-id")) == k
  {
    OrderedIndex.IndexByHas(items, ItemKey, ItemSelf, k);
    assert forall i :: 0 <= i < |items| ==> (ItemKey(items[i]) == Some(k) <==>
      Truthy(OptProp(items[i].fieldData, "fahrzeug-id")) && ToStr(OptProp(items[i].fieldData, "fahrzeug-id")) == k);
  }

  /** Of two items with the same `fahrzeug-id`, `wfMap` keeps the later one. */
  lemma WfIndexLastWins(items: seq<WfItem>, i: nat)
    requires i < |items| && Truthy(OptProp(items[i].fieldData, "fahrzeug-id"))
    requires forall j :: i < j < |items| ==> ItemKey(items[j]) != ItemKey(items[i])
    ensures ToStr(OptProp(items[i].fieldData, "fahrzeug-id")) in WfIndex(items).vals
    ensures WfIndex(items).vals[ToStr(OptProp(items[i].fieldData, "fahrzeug-id"))] == items[i]
  {
    OrderedIndex.IndexByLastWins(items, ItemKey, ItemSelf, i);
  }

  /**
    The `i`-th write is the one for the `i`-th key of `sysMap`: a live
    PATCH of the matched item with the prepared record when the key is in
    `wfMap`, a live POST of it otherwise.
  */
  lemma WritePlanShape(prep: Prep, sys: OrderedIndex.Index<Value>, wf: OrderedIndex.Index<WfItem>, i: nat)
    requires i < ReadyPrefix(prep, sys)
    ensures |WritePlan(prep, sys, wf)| == ReadyPrefix(prep, sys)
    ensures var c := WritePlan(prep, sys, wf)[i];
      var fields := prep(AdAt(sys, i)).value;
      && (sys.keys[i] in wf.vals ==> c == PatchItem(wf.vals[sys.keys[i]].id, true, FieldData(fields)))
      && (sys.keys[i] !in wf.vals ==> c == CreateItem(true, Items(fields)))
  {
    WritesPrefix(prep, sys, wf, i, ReadyPrefix(prep, sys));
  }

  lemma {:induction false} WritesNoDelete(prep: Prep, sys: OrderedIndex.Index<Value>, wf: OrderedIndex.Index<WfItem>, n: nat)
    requires n <= ReadyPrefix(prep, sys)
    ensures forall i :: 0 <= i < n ==> !Writes(prep, sys, wf, n)[i].DeleteItem?
  {
    if n > 0 {
      WritesNoDelete(prep, sys, wf, n - 1);
    }
  }

  lemma {:induction false} DeletePlanOnlyDeletes(wf: OrderedIndex.Index<WfItem>, sys: OrderedIndex.Index<Value>, n: nat)
    requires n <= |wf.keys| && OrderedIndex.Covered(wf)
    ensures forall i :: 0 <= i < |DeletePlan(wf, sys, n)| ==> DeletePlan(wf, sys, n)[i].DeleteItem?
  {
    if n > 0 {
      DeletePlanOnlyDeletes(wf, sys, n - 1);
    }
  }

  /** Every delete of a run comes after every create and update. */
  lemma DeletesLast(prep: Prep, sys: OrderedIndex.Index<Value>, wf: OrderedIndex.Index<WfItem>)
    requires OrderedIndex.Covered(wf)
    ensures forall i :: 0 <= i < |Plan(prep, sys, wf)| ==>
      (Plan(prep, sys, wf)[i].DeleteItem? <==> i >= |WritePlan(prep, sys, wf)|)
  {
    WritesNoDelete(prep, sys, wf, ReadyPrefix(prep, sys));
    DeletePlanOnlyDeletes(wf, sys, |wf.keys|);
  }

  /** The sweep deletes an item id exactly when it belongs to a `wfMap` key that `sysMap` lacks. */
  lemma {:induction false} DeletePlanMembers(wf: OrderedIndex.Index<WfItem>, sys: OrderedIndex.Index<Value>, n: nat, x: string)
    requires n <= |wf.keys| && OrderedIndex.Covered(wf)
    ensures DeleteItem(x) in DeletePlan(wf, sys, n) <==>
      exists j :: 0 <= j < n && wf.keys[j] !in sys.vals && wf.vals[wf.keys[j]].id == x
  {
    if n > 0 {
      DeletePlanMembers(wf, sys, n - 1, x);
    }
  }

  /** One delete per `wfMap` key missing from `sysMap`: `deleted` is the size of the key difference. */
  lemma {:induction false} DeletePlanCount(wf: OrderedIndex.Index<WfItem>, sys: OrderedIndex.Index<Value>, n: nat)
    requires n <= |wf.keys| && OrderedIndex.Covered(wf)
    ensures |DeletePlan(wf, sys, n)| == OrderedIndex.Outside(wf.keys, n, sys.vals.Keys)
  {
    if n > 0 {
      DeletePlanCount(wf, sys, n - 1);
    }
  }

  lemma DeleteCount(wf: OrderedIndex.Index<WfItem>, sys: OrderedIndex.Index<Value>)
    requires OrderedIndex.Valid(wf)
    ensures OrderedIndex.Covered(wf)
    ensures |DeletePlan(wf, sys, |wf.keys|)| == |wf.vals.Keys - sys.vals.Keys|
  {
    DeletePlanCount(wf, sys, |wf.keys|);
    OrderedIndex.Counts(wf, sys.vals.Keys);
  }

  /** On success every ad was either created or updated: `created + updated == sysMap.size`. */
  lemma CreatedPlusUpdated(s: set<string>, w: set<string>)
    ensures |s - w| + |s * w| == |s|
  {
    assert s == (s - w) + (s * w);
    assert (s - w) * (s * w) == {};
  }
}
