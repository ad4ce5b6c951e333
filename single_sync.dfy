/**
  The single-vehicle sync endpoint (api/sync.js). It fetches one fixed
  Syscara ad, takes the nested record out of the response when there is
  one, maps it, turns its media ids into proxy URLs, links its feature
  slugs through the module's cached feature map and creates one Webflow
  item from it (a POST without `?live=true`). It then reports the
  vehicle's name, which images it has and how many features it linked.
  Any error after the Syscara check is caught and answered as a 500.

  As in the delta sync, the mapper and `JSON.parse` are parameters.
*/
module SingleSync {
  import opened Wrappers
  import opened JsValue
  import opened Webflow
  import Enrichment

  type Mapper = Value -> Option<map<string, Value>>
  type Parser = Value -> Option<Value>

  /** The one ad this endpoint syncs (`sysId`). */
  const SysId: nat := 135965

  /** `sysId` as a property key. */
  const SysKey: string := "135965"

  /** `rawAd[sysId]` on an object or an array; nothing else is an object here. */
  function Nested(raw: Value): Value {
    match raw
    case Obj(m) => Lookup(m, SysKey)
    case Arr(items) => if SysId < |items| then items[SysId] else Undefined
    case _ => Undefined
  }

  /**
    `rawAd && typeof rawAd === "object" && rawAd[sysId] ? rawAd[sysId] : rawAd`:
    the record nested under the ad's id when the response carries one,
    the response itself otherwise.
  */
  function Unwrap(raw: Value): (ad: Value)
    ensures Truthy(Nested(raw)) ==> ad == Nested(raw)
    ensures !Truthy(Nested(raw)) ==> ad == raw
  {
    if Truthy(raw) && (raw.Obj? || raw.Arr?) && Truthy(Nested(raw)) then Nested(raw) else raw
  }

  /** A response that wraps the ad under its id yields the ad; a bare ad is taken as it is. */
  lemma UnwrapShapes(ad: Value, m: map<string, Value>)
    requires SysKey !in m
    ensures Truthy(ad) ==> Unwrap(Obj(m[SysKey := ad])) == ad
    ensures Unwrap(Obj(m)) == Obj(m)
  {
  }

  datatype SyncError =
    | SyscaraError             // 500 "Syscara error"
    | Thrown                   // a TypeError or a JSON.parse error, caught
    | WebflowError(body: Value)
    | Rejected                 // the POST answered with a non-OK status

  /** `images` of the response. */
  datatype Images = Images(hauptbild: bool, galerie: Value, grundriss: bool)

  /** The 200 response: the vehicle's name, its images, the number of linked features. */
  datatype Report = Report(vehicle: Value, images: Images, featuresLinked: nat)

  /** `v?.length || 0`: arrays and strings have a length, objects may carry one. */
  function LengthOr0(v: Value): (r: Value)
    ensures v.Arr? ==> r == Num(|v.items|)
    ensures v.Str? ==> r == Num(|v.s|)
    ensures v.Undefined? || v.Null? || v.Bool? || v.Num? ==> r == Num(0)
  {
    Or(LengthProp(v), Num(0))
  }

  /** The response for the record that was written and the ids it was linked to. */
  function ReportOf(rec: map<string, Value>, ids: seq<string>): (r: Report)
    ensures r.vehicle == Lookup(rec, "name")
    ensures r.images.hauptbild <==> Truthy(Lookup(rec, "hauptbild"))
    ensures r.images.grundriss <==> Truthy(Lookup(rec, "grundriss"))
    ensures r.images.galerie == LengthOr0(Lookup(rec, "galerie"))
    ensures r.featuresLinked == |ids|
  {
    Report(Lookup(rec, "name"),
      Images(Truthy(Lookup(rec, "hauptbild")), LengthOr0(Lookup(rec, "galerie")), Truthy(Lookup(rec, "grundriss"))),
      |ids|)
  }

  /**
    The record before the features are linked: the unwrapped ad, mapped,
    with its media step done. Thrown when the mapper gives nothing (reading
    `media-cache` of `null` throws) or the media step throws.
  */
  function WithMedia(raw: Value, mapper: Mapper, parse: Parser, origin: string): (r: Result<map<string, Value>, SyncError>)
    ensures r.Failure? ==> r.error == Thrown
    ensures mapper(Unwrap(raw)).None? ==> r.Failure?
    ensures mapper(Unwrap(raw)).Some? ==>
      (r.Failure? <==> Enrichment.EnrichMedia(mapper(Unwrap(raw)).value, origin, parse).None?)
    ensures r.Success? ==> Some(r.value) == Enrichment.EnrichMedia(mapper(Unwrap(raw)).value, origin, parse)
  {
    match mapper(Unwrap(raw))
    case None => Failure(Thrown)
    case Some(rec) =>
      match Enrichment.EnrichMedia(rec, origin, parse)
      case None => Failure(Thrown)
      case Some(m) => Success(m)
  }

  /**
    The whole request. `syscara` is the ad response (None: a non-OK
    status), `features` Webflow's answer to the feature listing, issued
    only when the module has no feature map yet.
  */
  method Handler(syscara: Option<Value>, mapper: Mapper, parse: Parser, origin: string,
                 features: Result<seq<WfItem>, Value>, cache: Enrichment.FeatureCache, client: Client)
    returns (out: Result<Report, SyncError>)
    modifies cache, client
    ensures syscara.None? ==> out == Failure(SyscaraError)
    ensures syscara.None? || WithMedia(syscara.value, mapper, parse, origin).Failure? ==>
      client.lists == old(client.lists) && client.writes == old(client.writes) && cache.cached == old(cache.cached)
    ensures syscara.Some? ==> (
      var m := WithMedia(syscara.value, mapper, parse, origin);
      && (m.Failure? ==> out == Failure(Thrown))
      && (m.Success? && old(cache.cached).None? ==> client.lists == old(client.lists) + [Features])
      && (m.Success? && old(cache.cached).Some? ==> client.lists == old(client.lists))
      && (m.Success? && old(cache.cached).None? && features.Failure? ==>
            out == Failure(WebflowError(features.error)) && client.writes == old(client.writes)
            && cache.cached == old(cache.cached)))
    ensures syscara.Some? && WithMedia(syscara.value, mapper, parse, origin).Success? ==> (
      var m := WithMedia(syscara.value, mapper, parse, origin).value;
      (old(cache.cached).Some? || features.Success?) ==> (
        var fmap := if old(cache.cached).Some? then old(cache.cached).value else Enrichment.FeatureMapOf(features.value);
        var ids := Enrichment.ResolveFeatures(Lookup(m, "featureSlugs"), fmap);
        && cache.cached == Some(fmap)
        && (ids.None? ==> out == Failure(Thrown) && client.writes == old(client.writes))
        && (ids.Some? ==>
              var rec := Enrichment.WithFeatures(m, ids.value);
              && |client.writes| == |old(client.writes)| + 1
              && client.writes[..|old(client.writes)|] == old(client.writes)
              && client.writes[|old(client.writes)|].call == CreateItem(false, Items(rec))
              && (out.Success? <==> client.writes[|old(client.writes)|].ok)
              && (out.Failure? ==> out.error == Rejected)
              && (out.Success? ==> out.value == ReportOf(rec, ids.value)))))
  {
    if syscara.None? {
      return Failure(SyscaraError);
    }
    var m := WithMedia(syscara.value, mapper, parse, origin);
    if m.Failure? {
      return Failure(Thrown);
    }
    var fmap := cache.Get(client, features);
    if fmap.Failure? {
      return Failure(WebflowError(fmap.error));
    }
    var ids := Enrichment.ResolveFeatures(Lookup(m.value, "featureSlugs"), fmap.value);
    if ids.None? {
      return Failure(Thrown);
    }
    var rec := Enrichment.WithFeatures(m.value, ids.value);
    var ok := client.Send(CreateItem(false, Items(rec)));
    if !ok {
      return Failure(Rejected);
    }
    out := Success(ReportOf(rec, ids.value));
  }

  /**
    What the created item carries: no feature slugs any more, the linked
    ids as `features`, each of them the id of a feature item, and every
    other field as the media step left it.
  */
  lemma CreatedRecord(m: map<string, Value>, fmap: map<string, string>)
    requires Enrichment.ResolveFeatures(Lookup(m, "featureSlugs"), fmap).Some?
    ensures var ids := Enrichment.ResolveFeatures(Lookup(m, "featureSlugs"), fmap).value;
      var rec := Enrichment.WithFeatures(m, ids);
      && "featureSlugs" !in rec
      && Lookup(rec, "features") == Arr(Enrichment.StrValues(ids))
      && (forall i :: 0 <= i < |ids| ==> ids[i] in fmap.Values)
      && (forall k :: k != "featureSlugs" && k != "features" ==> Lookup(rec, k) == Lookup(m, k))
  {
  }

  /**
    The reported gallery size: when the media cache held a gallery array,
    the record holds at most 25 proxy URLs and the report counts them.
  */
  lemma GalleryReported(rec: map<string, Value>, origin: string, parse: Parser, ids: seq<string>)
    requires Enrichment.EnrichMedia(rec, origin, parse).Some?
    requires Truthy(Lookup(rec, "media-cache"))
    requires Field(parse(Lookup(rec, "media-cache")).value, "galerie").Arr?
    ensures var out := Enrichment.WithFeatures(Enrichment.EnrichMedia(rec, origin, parse).value, ids);
      var g := Field(parse(Lookup(rec, "media-cache")).value, "galerie").items;
      && ReportOf(out, ids).images.galerie == Num(|Enrichment.GalleryUrls(origin, g)|)
      && |Enrichment.GalleryUrls(origin, g)| <= Enrichment.GalleryCap
  {
    Enrichment.MediaFields(rec, origin, parse);
  }
}
