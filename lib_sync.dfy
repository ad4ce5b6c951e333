/**
  `runDeltaSync` (libs/sync.js): the batch variant of the sync. It lists
  the Webflow vehicle items, indexes them by `fieldData.geraet_id` and
  then, vehicle by vehicle, creates or updates one item. Unlike the
  delta-sync endpoint it isolates failures: a vehicle whose mapping is
  falsy, or whose request Webflow rejects, is counted as skipped and the
  loop goes on. It never deletes. Bodies are the fixed 25-field projection
  of `createItem`/`updateItem`, sent as drafts-off, not-archived, and not
  with `?live=true`.

  The loop is stated for any mapper (the function that turns a vehicle
  into the object the loop reads); the two mappers at the end are the one
  the file actually passes and the one it evidently means.
*/
module LibSync {
  import opened Wrappers
  import opened JsValue
  import opened Webflow
  import OrderedIndex
  import VehicleMap

  /** A vehicle in, the object the loop reads out (`null` when mapping failed). */
  type Mapper = Value -> Value

  /** The fields `createItem` and `updateItem` copy into `fieldData`. */
  const PayloadKeys: set<string> := {
    "name", "slug", "hersteller", "serie", "modell", "modell_zusatz",
    "zustand", "fahrzeugart", "fahrzeugtyp", "ps", "kw", "kraftstoff", "getriebe",
    "beschreibung", "beschreibung_kurz", "kilometer", "baujahr", "preis",
    "breite", "hoehe", "laenge", "geraet_id", "hauptbild", "galerie", "verkauf_miete"}

  /** The `fieldData` of both request bodies. */
  function Projection(mapped: Value): map<string, Value> {
    map k | k in PayloadKeys :: if k == "ps" || k == "kw" then Coalesce(Field(mapped, k), Str("")) else Field(mapped, k)
  }

  /**
    The projection has exactly the 25 payload fields; every one is copied
    as it is, except `ps` and `kw`, which become "" only when they are
    `null` or `undefined` (`??`, so `0` and "" are kept).
  */
  lemma ProjectionFields(mapped: Value)
    ensures Projection(mapped).Keys == PayloadKeys
    ensures forall k :: k in PayloadKeys && k != "ps" && k != "kw" ==> Projection(mapped)[k] == Field(mapped, k)
    ensures Projection(mapped)["ps"] == Coalesce(Field(mapped, "ps"), Str(""))
    ensures Projection(mapped)["kw"] == Coalesce(Field(mapped, "kw"), Str(""))
    ensures !Nullish(Projection(mapped)["ps"]) && !Nullish(Projection(mapped)["kw"])
  {
  }

  /** `createItem(mapped)`: a POST to the collection's items. */
  function CreateCall(mapped: Value): Call {
    CreateItem(false, Flagged(Projection(mapped)))
  }

  /** `updateItem(itemId, mapped)`: a PATCH of that item. */
  function UpdateCall(itemId: string, mapped: Value): Call {
    PatchItem(itemId, false, Flagged(Projection(mapped)))
  }

  /**
    Create and update send the same body for the same record, and both
    bodies say `isArchived: false, isDraft: false`.
  */
  lemma SamePayload(itemId: string, mapped: Value)
    ensures CreateCall(mapped).body == UpdateCall(itemId, mapped).body
    ensures Field(Json(CreateCall(mapped).body), "isDraft") == Bool(false)
    ensures Field(Json(CreateCall(mapped).body), "isArchived") == Bool(false)
    ensures Field(Json(CreateCall(mapped).body), "fieldData") == Obj(Projection(mapped))
    ensures !CreateCall(mapped).live && !UpdateCall(itemId, mapped).live
  {
  }

  // ---------------------------------------------------------------------
  // existingById
  // ---------------------------------------------------------------------

  /** `item.fieldData?.geraet_id`, when truthy, as a property key. */
  function GeraetKey(item: WfItem): Option<string> {
    var g := OptProp(item.fieldData, "geraet_id");
    if Truthy(g) then Some(ToStr(g)) else None
  }

  function ItemSelf(item: WfItem): WfItem { item }

  /** `existingById` */
  function ExistingById(items: seq<WfItem>): map<string, WfItem> {
    OrderedIndex.IndexBy(items, GeraetKey, ItemSelf).vals
  }

  /** `existingById` holds exactly the items with a truthy `geraet_id`, under its string form. */
  lemma ExistingKeys(items: seq<WfItem>, k: string)
    ensures k in ExistingById(items) <==>
      exists i :: 0 <= i < |items| && Truthy(OptProp(items[i].fieldData, "geraet_id"))
        && ToStr(OptProp(items[i].fieldData, "geraet_id")) == k
  {
    OrderedIndex.IndexByHas(items, GeraetKey, ItemSelf, k);
    assert forall i :: 0 <= i < |items| ==> (GeraetKey(items[i]) == Some(k) <==>
      Truthy(OptProp(items[i].fieldData, "geraet_id")) && ToStr(OptProp(items[i].fieldData, "geraet_id")) == k);
  }

  /** Of two items with the same `geraet_id`, the later one is kept. */
  lemma ExistingLastWins(items: seq<WfItem>, i: nat)
    requires i < |items| && Truthy(OptProp(items[i].fieldData, "geraet_id"))
    requires forall j :: i < j < |items| ==> GeraetKey(items[j]) != GeraetKey(items[i])
    ensures ToStr(OptProp(items[i].fieldData, "geraet_id")) in ExistingById(items)
    ensures ExistingById(items)[ToStr(OptProp(items[i].fieldData, "geraet_id"))] == items[i]
  {
    OrderedIndex.IndexByLastWins(items, GeraetKey, ItemSelf, i);
  }

  // ---------------------------------------------------------------------
  // The loop
  // ---------------------------------------------------------------------

  /** `existingById[mapped.geraet_id]` reads the property named `String(mapped.geraet_id)`. */
  function LookupKey(mapped: Value): string {
    ToStr(Field(mapped, "geraet_id"))
  }

  /**
    The request the loop makes for one vehicle: none when the mapped
    object is falsy, an update of the matched item when `existingById`
    has the lookup key, a create otherwise.
  */
  function Attempt(mapper: Mapper, existing: map<string, WfItem>, vehicle: Value): (r: Option<Call>)
    ensures r.None? <==> !Truthy(mapper(vehicle))
    ensures r.Some? ==> !r.value.DeleteItem? && r.value.body == Flagged(Projection(mapper(vehicle)))
    ensures r.Some? ==> (r.value.PatchItem? <==> LookupKey(mapper(vehicle)) in existing)
    ensures r.Some? && r.value.PatchItem? ==> r.value.itemId == existing[LookupKey(mapper(vehicle))].id
  {
    var mapped := mapper(vehicle);
    if !Truthy(mapped) then None
    else
      var key := LookupKey(mapped);
      if key in existing then Some(UpdateCall(existing[key].id, mapped))
      else Some(CreateCall(mapped))
  }

  /** Which counter a vehicle moved. */
  datatype Outcome = Created | Updated | Skipped

  /** The outcome a vehicle can have given its attempt: skipped, or counted by the kind of its request. */
  predicate Fits(attempt: Option<Call>, o: Outcome) {
    match attempt
    case None => o == Skipped
    case Some(c) => o == Skipped || o == (if c.CreateItem? then Created else Updated)
  }

  /** The log entry a vehicle leaves: its request, accepted exactly when the vehicle was not skipped. */
  function Logged(attempt: Option<Call>, o: Outcome): seq<Entry> {
    if attempt.None? then [] else [Entry(attempt.value, o != Skipped)]
  }

  /** What the loop sends for each vehicle; the loop's properties are stated over any such function. */
  type Planner = Value -> Option<Call>

  function Planned(mapper: Mapper, existing: map<string, WfItem>): Planner {
    v => Attempt(mapper, existing, v)
  }

  /** The log the first `n` vehicles leave, given their outcomes. */
  function SyncLog(plan: Planner, vehicles: seq<Value>, outcomes: seq<Outcome>, n: nat): seq<Entry>
    requires n <= |vehicles| && n <= |outcomes|
  {
    if n == 0 then [] else SyncLog(plan, vehicles, outcomes, n - 1) + Logged(plan(vehicles[n - 1]), outcomes[n - 1])
  }

  datatype Counters = Counters(created: nat, updated: nat, skipped: nat)

  /** One more vehicle, counted under its outcome. */
  function Bump(c: Counters, o: Outcome): Counters {
    match o
    case Created => c.(created := c.created + 1)
    case Updated => c.(updated := c.updated + 1)
    case Skipped => c.(skipped := c.skipped + 1)
  }

  /** The counters after the first `n` vehicles. */
  function Tally(outcomes: seq<Outcome>, n: nat): Counters
    requires n <= |outcomes|
  {
    if n == 0 then Counters(0, 0, 0) else Bump(Tally(outcomes, n - 1), outcomes[n - 1])
  }

  /** Each of the first `n` vehicles has an outcome its request allows. */
  ghost predicate AllFit(plan: Planner, vehicles: seq<Value>, outcomes: seq<Outcome>, n: nat)
    requires n <= |vehicles| && n <= |outcomes|
  {
    n == 0 || (AllFit(plan, vehicles, outcomes, n - 1) && Fits(plan(vehicles[n - 1]), outcomes[n - 1]))
  }

  /** Every vehicle moves exactly one counter. */
  lemma {:induction false} CountsAddUp(outcomes: seq<Outcome>, n: nat)
    requires n <= |outcomes|
    ensures Tally(outcomes, n).created + Tally(outcomes, n).updated + Tally(outcomes, n).skipped == n
  {
    if n > 0 {
      CountsAddUp(outcomes, n - 1);
    }
  }

  /** Every vehicle's outcome fits its request. */
  lemma {:induction false} AllFitAt(plan: Planner, vehicles: seq<Value>, outcomes: seq<Outcome>, n: nat, j: nat)
    requires n <= |vehicles| && n <= |outcomes| && AllFit(plan, vehicles, outcomes, n) && j < n
    ensures Fits(plan(vehicles[j]), outcomes[j])
  {
    if j < n - 1 {
      AllFitAt(plan, vehicles, outcomes, n - 1, j);
    }
  }

  /**
    One turn of the loop, inside its try/catch: send the request the
    planner decides on for the `i`-th vehicle, if any. A vehicle without a
    request (falsy mapping) is skipped; a rejected request is caught and
    the vehicle skipped.
  */
  method SyncOne(plan: Planner, vehicles: seq<Value>, i: nat, client: Client, ghost base: seq<Entry>, ghost outcomes: seq<Outcome>)
    returns (o: Outcome)
    requires i == |outcomes| && i < |vehicles|
    requires client.writes == base + SyncLog(plan, vehicles, outcomes, i)
    modifies client
    ensures client.lists == old(client.lists)
    ensures Fits(plan(vehicles[i]), o)
    ensures client.writes == base + SyncLog(plan, vehicles, outcomes + [o], i + 1)
  {
    var attempt := plan(vehicles[i]);
    LogPrefix(plan, vehicles, outcomes, Skipped, i);
    if attempt.None? {
      return Skipped;
    }
    var ok := client.Send(attempt.value);
    o := if !ok then Skipped else if attempt.value.CreateItem? then Created else Updated;
    LogPrefix(plan, vehicles, outcomes, o, i);
  }

  /** What a non-OK Webflow answer is thrown as; its body is only logged. */
  const ApiError: string := "Webflow API error"

  /**
    `runDeltaSync`. `vehicles` is `Object.values(syscaraData)`, `listing`
    Webflow's answer to the item listing. A failed listing rejects the
    whole call with `ApiError` before any write. Otherwise every vehicle is visited once,
    in order, and `outcomes` says which counter each one moved.
  */
  method RunDeltaSync(vehicles: seq<Value>, listing: Result<seq<WfItem>, Value>, mapper: Mapper, client: Client)
    returns (r: Result<Counters, string>, ghost outcomes: seq<Outcome>)
    modifies client
    ensures client.lists == old(client.lists) + [Vehicles]
    ensures listing.Failure? ==> r == Failure(ApiError) && client.writes == old(client.writes)
    ensures listing.Success? ==> (r.Success? && |outcomes| == |vehicles|
      && AllFit(Planned(mapper, ExistingById(listing.value)), vehicles, outcomes, |vehicles|)
      && client.writes == old(client.writes) + SyncLog(Planned(mapper, ExistingById(listing.value)), vehicles, outcomes, |vehicles|)
      && r.value == Tally(outcomes, |vehicles|))
    ensures r.Success? ==> r.value.created + r.value.updated + r.value.skipped == |vehicles|
  {
    outcomes := [];
    var listed := client.List(Vehicles, listing);
    if listed.Failure? {
      return Failure(ApiError), outcomes;
    }
    var index := OrderedIndex.BuildIndex(listed.value, GeraetKey, ItemSelf);
    var existing := index.vals;
    var plan := Planned(mapper, existing);
    ghost var base := client.writes;
    var counters := Counters(0, 0, 0);
    for i := 0 to |vehicles|
      invariant |outcomes| == i
      invariant client.lists == old(client.lists) + [Vehicles]
      invariant AllFit(plan, vehicles, outcomes, i)
      invariant client.writes == base + SyncLog(plan, vehicles, outcomes, i)
      invariant counters == Tally(outcomes, i)
    {
      var o := SyncOne(plan, vehicles, i, client, base, outcomes);
      FitPrefix(plan, vehicles, outcomes, o, i);
      TallyPrefix(outcomes, o, i);
      outcomes := outcomes + [o];
      counters := Bump(counters, o);
    }
    CountsAddUp(outcomes, |vehicles|);
    r := Success(counters);
  }

  /** Appending an outcome leaves the log, the fit and the counters of the earlier vehicles alone. */
  lemma {:induction false} LogPrefix(plan: Planner, vehicles: seq<Value>, a: seq<Outcome>, o: Outcome, n: nat)
    requires n <= |a| && n <= |vehicles|
    ensures SyncLog(plan, vehicles, a + [o], n) == SyncLog(plan, vehicles, a, n)
  {
    if n > 0 {
      assert (a + [o])[n - 1] == a[n - 1];
      LogPrefix(plan, vehicles, a, o, n - 1);
    }
  }

  lemma {:induction false} FitPrefix(plan: Planner, vehicles: seq<Value>, a: seq<Outcome>, o: Outcome, n: nat)
    requires n <= |a| && n <= |vehicles|
    ensures AllFit(plan, vehicles, a + [o], n) == AllFit(plan, vehicles, a, n)
  {
    if n > 0 {
      assert (a + [o])[n - 1] == a[n - 1];
      FitPrefix(plan, vehicles, a, o, n - 1);
    }
  }

  lemma {:induction false} TallyPrefix(a: seq<Outcome>, o: Outcome, n: nat)
    requires n <= |a|
    ensures Tally(a + [o], n) == Tally(a, n)
  {
    if n > 0 {
      assert (a + [o])[n - 1] == a[n - 1];
      TallyPrefix(a, o, n - 1);
    }
  }

  /** The requests of the first `n` vehicles, in order. */
  function Requests(plan: Planner, vehicles: seq<Value>, n: nat): seq<Call>
    requires n <= |vehicles|
  {
    if n == 0 then []
    else Requests(plan, vehicles, n - 1) + (if plan(vehicles[n - 1]).Some? then [plan(vehicles[n - 1]).value] else [])
  }

  function CallsOf(es: seq<Entry>): seq<Call> {
    if es == [] then [] else CallsOf(es[..|es| - 1]) + [es[|es| - 1].call]
  }

  lemma {:induction false} CallsOfAppend(a: seq<Entry>, b: seq<Entry>)
    ensures CallsOf(a + b) == CallsOf(a) + CallsOf(b)
    decreases |b|
  {
    if b == [] {
      assert a + b == a;
    } else {
      var init := b[..|b| - 1];
      assert (a + b)[..|a + b| - 1] == a + init;
      assert (a + b)[|a + b| - 1] == b[|b| - 1];
      CallsOfAppend(a, init);
      assert CallsOf(a + b) == CallsOf(a + init) + [b[|b| - 1].call];
      assert CallsOf(b) == CallsOf(init) + [b[|b| - 1].call];
    }
  }

  /**
    A failure does not stop the loop: whatever the outcomes, the requests
    in the log are those of every vehicle, in order.
  */
  lemma {:induction false} RequestsIndependent(plan: Planner, vehicles: seq<Value>, outcomes: seq<Outcome>, n: nat)
    requires n <= |vehicles| && n <= |outcomes|
    ensures CallsOf(SyncLog(plan, vehicles, outcomes, n)) == Requests(plan, vehicles, n)
  {
    if n > 0 {
      RequestsIndependent(plan, vehicles, outcomes, n - 1);
      var a := plan(vehicles[n - 1]);
      CallsOfAppend(SyncLog(plan, vehicles, outcomes, n - 1), Logged(a, outcomes[n - 1]));
      if a.Some? {
        assert CallsOf([Entry(a.value, outcomes[n - 1] != Skipped)]) == [a.value];
      }
    }
  }

  /** A vehicle whose mapping is falsy issues no request and is counted as skipped. */
  lemma NullMappingSkipped(mapper: Mapper, existing: map<string, WfItem>, vehicle: Value, o: Outcome)
    requires !Truthy(mapper(vehicle)) && Fits(Attempt(mapper, existing, vehicle), o)
    ensures o == Skipped
    ensures Logged(Attempt(mapper, existing, vehicle), o) == []
  {
  }

  // ---------------------------------------------------------------------
  // The mapper the file passes, and the one it means
  // ---------------------------------------------------------------------

  /** `mapVehicle` as the loop calls it: the wrapper `{ originalId, mapped }`, or `null`. */
  function WrappedMapper(vehicle: Value): Value {
    match VehicleMap.MapVehicle(vehicle)
    case None => Null
    case Some(res) => VehicleMap.AsJs(res)
  }

  /** The flat record inside the wrapper, which the loop's property reads expect. */
  function FlatMapper(vehicle: Value): Value {
    match VehicleMap.MapVehicle(vehicle)
    case None => Null
    case Some(res) => Obj(VehicleMap.AsObject(res.mapped))
  }

  /**
    As written, the loop looks `geraet_id` up on the wrapper, which has no
    such property: the key is always "undefined", so a vehicle is updated
    only if some item's `geraet_id` is the string "undefined"; otherwise
    it is created again on every run.
  */
  lemma WrappedKeyIsUndefined(existing: map<string, WfItem>, vehicle: Value)
    requires VehicleMap.MapVehicle(vehicle).Some?
    ensures LookupKey(WrappedMapper(vehicle)) == "undefined"
    ensures "undefined" !in existing ==> Attempt(WrappedMapper, existing, vehicle).value.CreateItem?
  {
    VehicleMap.WrapperHasNoId(VehicleMap.MapVehicle(vehicle).value);
  }

  /**
    The bug on a concrete shape: an ad that maps, and one existing item
    whose `geraet_id` is the ad's id. As written, the ad is created a
    second time; with the flat record it updates that item.
  */
  lemma DuplicateOnRerun(ad: Value, item: WfItem)
    requires VehicleMap.MapVehicle(ad).Some?
    requires Truthy(OptProp(item.fieldData, "geraet_id"))
    requires ToStr(OptProp(item.fieldData, "geraet_id")) == ToStr(Field(ad, "id")) != "undefined"
    ensures Attempt(WrappedMapper, ExistingById([item]), ad).value.CreateItem?
    ensures Attempt(FlatMapper, ExistingById([item]), ad) == Some(UpdateCall(item.id, FlatMapper(ad)))
  {
    var key := ToStr(Field(ad, "id"));
    assert GeraetKey(item) == Some(key);
    assert [item][..0] == [];
    assert ExistingById([item]) == map[key := item];
    WrappedKeyIsUndefined(ExistingById([item]), ad);
    FlatKey(ad);
  }

  /** With the flat record the lookup key is `String(vehicle.id)`. */
  lemma FlatKey(vehicle: Value)
    requires VehicleMap.MapVehicle(vehicle).Some?
    ensures LookupKey(FlatMapper(vehicle)) == ToStr(Field(vehicle, "id"))
  {
    VehicleMap.Ids(vehicle);
    VehicleMap.FlatId(VehicleMap.MapVehicle(vehicle).value.mapped);
  }

  /**
    With the flat record, a vehicle that maps is updated exactly when an
    item carries its id as `geraet_id`, and then that item is the one
    patched.
  */
  lemma FlatMatchesById(items: seq<WfItem>, vehicle: Value)
    requires VehicleMap.MapVehicle(vehicle).Some?
    ensures var a := Attempt(FlatMapper, ExistingById(items), vehicle);
      && a.Some?
      && (a.value.PatchItem? <==>
            exists i :: (0 <= i < |items| && Truthy(OptProp(items[i].fieldData, "geraet_id"))
              && ToStr(OptProp(items[i].fieldData, "geraet_id")) == ToStr(Field(vehicle, "id"))))
  {
    FlatKey(vehicle);
    ExistingKeys(items, ToStr(Field(vehicle, "id")));
  }
}
