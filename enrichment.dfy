/**
  What api/delta-sync.js and api/sync.js do to a mapped record before
  writing it (the two files carry identical copies of this code):
  media ids from the record's `media-cache` become URLs of the media
  proxy, and feature slugs become ids of items in the feature
  collection, looked up in a slug -> id map that each module fetches
  once and then keeps (`getFeatureMap`).
*/
module Enrichment {
  import opened Wrappers
  import opened JsValue
  import opened Webflow
  import OrderedIndex

  /** The media proxy route; the id is the query parameter. */
  const MediaPath: string := "/api/media?id="

  /** At most this many gallery URLs are built (`slice(0, 25)`). */
  const GalleryCap: nat := 25

  /** `${origin}/api/media?id=${id}` */
  function MediaUrl(origin: string, id: string): string {
    origin + MediaPath + id
  }

  /** What the proxy reads back out of one of its URLs. */
  function MediaIdOf(origin: string, url: string): Option<string> {
    var prefix := origin + MediaPath;
    if |prefix| <= |url| && url[..|prefix|] == prefix then Some(url[|prefix|..]) else None
  }

  /** The proxy gets back exactly the media id its URL was built from. */
  lemma MediaUrlRoundTrip(origin: string, id: string)
    ensures MediaIdOf(origin, MediaUrl(origin, id)) == Some(id)
  {
    var prefix := origin + MediaPath;
    assert MediaUrl(origin, id) == prefix + id;
    assert (prefix + id)[..|prefix|] == prefix;
    assert (prefix + id)[|prefix|..] == id;
  }

  /** `galerie.slice(0, 25).map(mid => `${origin}/api/media?id=${mid}`)` */
  function GalleryUrls(origin: string, ids: seq<Value>): (r: seq<Value>)
    ensures |r| == if |ids| < GalleryCap then |ids| else GalleryCap
    ensures forall i :: 0 <= i < |r| ==> r[i] == Str(MediaUrl(origin, ToStr(ids[i])))
  {
    var n := if |ids| < GalleryCap then |ids| else GalleryCap;
    seq(n, i requires 0 <= i < n => Str(MediaUrl(origin, ToStr(ids[i]))))
  }

  /** Each gallery URL leads the proxy back to the media id at the same position. */
  lemma GalleryRoundTrip(origin: string, ids: seq<Value>, i: nat)
    requires i < |GalleryUrls(origin, ids)|
    ensures GalleryUrls(origin, ids)[i].Str?
    ensures MediaIdOf(origin, GalleryUrls(origin, ids)[i].s) == Some(ToStr(ids[i]))
  {
    MediaUrlRoundTrip(origin, ToStr(ids[i]));
  }

  /** The three record fields the media step may set. */
  predicate IsMediaField(k: string) {
    k == "hauptbild" || k == "galerie" || k == "grundriss"
  }

  /**
    The `media-cache` block. `parse` stands for `JSON.parse` (None: it
    throws). None is returned when the block throws: the cache does not
    parse, or parses to `null`.
  */
  function EnrichMedia(rec: map<string, Value>, origin: string, parse: Value -> Option<Value>): (r: Option<map<string, Value>>)
    ensures r.None? <==> (Truthy(Lookup(rec, "media-cache"))
      && (parse(Lookup(rec, "media-cache")).None? || Nullish(parse(Lookup(rec, "media-cache")).value)))
    ensures !Truthy(Lookup(rec, "media-cache")) ==> r == Some(rec)
    ensures r.Some? ==> forall k :: !IsMediaField(k) ==> Lookup(r.value, k) == Lookup(rec, k)
    ensures r.Some? ==> rec.Keys <= r.value.Keys
  {
    var mc := Lookup(rec, "media-cache");
    if !Truthy(mc) then Some(rec)
    else
      match parse(mc)
      case None => None
      case Some(cache) =>
        if Nullish(cache) then None
        else
          var h := Field(cache, "hauptbild");
          var g := Field(cache, "galerie");
          var p := Field(cache, "grundriss");
          var r1 := if Truthy(h) then rec["hauptbild" := Str(MediaUrl(origin, ToStr(h)))] else rec;
          var r2 := if g.Arr? then r1["galerie" := Arr(GalleryUrls(origin, g.items))] else r1;
          var r3 := if Truthy(p) then r2["grundriss" := Str(MediaUrl(origin, ToStr(p)))] else r2;
          Some(r3)
  }

  /**
    With a parsed cache: the main image and the floor plan become proxy
    URLs only when the cache names them (truthy), and the gallery becomes
    proxy URLs only when the cache holds an array; otherwise the mapped
    value is kept.
  */
  lemma MediaFields(rec: map<string, Value>, origin: string, parse: Value -> Option<Value>)
    requires EnrichMedia(rec, origin, parse).Some?
    requires Truthy(Lookup(rec, "media-cache"))
    ensures var cache := parse(Lookup(rec, "media-cache")).value;
      var out := EnrichMedia(rec, origin, parse).value;
      && (Truthy(Field(cache, "hauptbild")) ==> Lookup(out, "hauptbild") == Str(MediaUrl(origin, ToStr(Field(cache, "hauptbild")))))
      && (!Truthy(Field(cache, "hauptbild")) ==> Lookup(out, "hauptbild") == Lookup(rec, "hauptbild"))
      && (Field(cache, "galerie").Arr? ==> Lookup(out, "galerie") == Arr(GalleryUrls(origin, Field(cache, "galerie").items)))
      && (!Field(cache, "galerie").Arr? ==> Lookup(out, "galerie") == Lookup(rec, "galerie"))
      && (Truthy(Field(cache, "grundriss")) ==> Lookup(out, "grundriss") == Str(MediaUrl(origin, ToStr(Field(cache, "grundriss")))))
      && (!Truthy(Field(cache, "grundriss")) ==> Lookup(out, "grundriss") == Lookup(rec, "grundriss"))
  {
  }

  /** `slugs.map(slug => featureMap[slug]).filter(Boolean)` */
  function FeatureIds(slugs: seq<Value>, fmap: map<string, string>): (r: seq<string>)
    ensures |r| <= |slugs|
    ensures forall i :: 0 <= i < |r| ==> r[i] != "" && r[i] in fmap.Values
    decreases |slugs|
  {
    if slugs == [] then []
    else
      var k := ToStr(slugs[0]);
      (if k in fmap && fmap[k] != "" then [fmap[k]] else []) + FeatureIds(slugs[1..], fmap)
  }

  /** `(featureSlugs || []).map(...).filter(Boolean)`; None: a truthy non-array has no `.map` and throws. */
  function ResolveFeatures(featureSlugs: Value, fmap: map<string, string>): (r: Option<seq<string>>)
    ensures r.None? <==> Truthy(featureSlugs) && !featureSlugs.Arr?
    ensures !Truthy(featureSlugs) ==> r == Some([])
  {
    var list := Or(featureSlugs, Arr([]));
    if list.Arr? then Some(FeatureIds(list.items, fmap)) else None
  }

  /** A resolved id is the id of a slug the map knows; unknown slugs are dropped. */
  lemma {:induction false} FeatureIdsMembers(slugs: seq<Value>, fmap: map<string, string>, x: string)
    ensures x in FeatureIds(slugs, fmap) <==>
      x != "" && exists i :: 0 <= i < |slugs| && ToStr(slugs[i]) in fmap && fmap[ToStr(slugs[i])] == x
    decreases |slugs|
  {
    if slugs != [] {
      FeatureIdsMembers(slugs[1..], fmap, x);
      if x != "" && exists i :: 0 <= i < |slugs| && ToStr(slugs[i]) in fmap && fmap[ToStr(slugs[i])] == x {
        var i :| 0 <= i < |slugs| && ToStr(slugs[i]) in fmap && fmap[ToStr(slugs[i])] == x;
        if i > 0 {
          assert slugs[1..][i - 1] == slugs[i];
        }
      }
      if x in FeatureIds(slugs[1..], fmap) {
        var i :| 0 <= i < |slugs[1..]| && ToStr(slugs[1..][i]) in fmap && fmap[ToStr(slugs[1..][i])] == x;
        assert slugs[i + 1] == slugs[1..][i];
      }
    }
  }

  /** When every slug is known, nothing is dropped and the ids follow the slugs one to one. */
  lemma {:induction false} FeatureIdsAllKnown(slugs: seq<Value>, fmap: map<string, string>)
    requires forall i :: 0 <= i < |slugs| ==> ToStr(slugs[i]) in fmap && fmap[ToStr(slugs[i])] != ""
    ensures |FeatureIds(slugs, fmap)| == |slugs|
    ensures forall i :: 0 <= i < |slugs| ==> FeatureIds(slugs, fmap)[i] == fmap[ToStr(slugs[i])]
    decreases |slugs|
  {
    if slugs != [] {
      assert forall i :: 0 <= i < |slugs[1..]| ==> slugs[1..][i] == slugs[i + 1];
      FeatureIdsAllKnown(slugs[1..], fmap);
    }
  }

  function StrValues(ids: seq<string>): (r: seq<Value>)
    ensures |r| == |ids|
    ensures forall i :: 0 <= i < |ids| ==> r[i] == Str(ids[i])
  {
    seq(|ids|, i requires 0 <= i < |ids| => Str(ids[i]))
  }

  /** `delete mapped.featureSlugs; mapped.features = featureIds;` */
  function WithFeatures(rec: map<string, Value>, ids: seq<string>): (r: map<string, Value>)
    ensures "featureSlugs" !in r
    ensures Lookup(r, "features") == Arr(StrValues(ids))
    ensures forall k :: k != "featureSlugs" && k != "features" ==> Lookup(r, k) == Lookup(rec, k)
  {
    (rec - {"featureSlugs"})["features" := Arr(StrValues(ids))]
  }

  /**
    The full treatment of one mapped record in api/delta-sync.js: media
    first, then features. None: one of the steps throws.
  */
  function Enrich(rec: map<string, Value>, origin: string, fmap: map<string, string>, parse: Value -> Option<Value>): (r: Option<map<string, Value>>)
    ensures EnrichMedia(rec, origin, parse).None? ==> r.None?
    ensures EnrichMedia(rec, origin, parse).Some? ==>
      (r.None? <==> ResolveFeatures(Lookup(rec, "featureSlugs"), fmap).None?)
    ensures r.Some? ==> "featureSlugs" !in r.value
    ensures r.Some? ==> exists ids :: (Lookup(r.value, "features") == Arr(StrValues(ids))
      && ResolveFeatures(Lookup(rec, "featureSlugs"), fmap) == Some(ids))
    ensures r.Some? ==> forall k :: k != "featureSlugs" && k != "features" ==>
      Lookup(r.value, k) == Lookup(EnrichMedia(rec, origin, parse).value, k)
  {
    match EnrichMedia(rec, origin, parse)
    case None => None
    case Some(withMedia) =>
      match ResolveFeatures(Lookup(withMedia, "featureSlugs"), fmap)
      case None => None
      case Some(ids) => Some(WithFeatures(withMedia, ids))
  }

  // ---------------------------------------------------------------------
  // The feature map and its per-module cache (getFeatureMap)
  // ---------------------------------------------------------------------

  /** `item.fieldData?.slug`, when truthy, as a property key. */
  function SlugKey(item: WfItem): Option<string> {
    var slug := OptProp(item.fieldData, "slug");
    if Truthy(slug) then Some(ToStr(slug)) else None
  }

  function ItemId(item: WfItem): string {
    item.id
  }

  /** `for (const item of items) { if (slug) map[slug] = item.id; }` */
  function FeatureMapOf(items: seq<WfItem>): map<string, string> {
    OrderedIndex.IndexBy(items, SlugKey, ItemId).vals
  }

  /** The map holds a slug exactly when some feature item carries it. */
  lemma FeatureMapKeys(items: seq<WfItem>, slug: string)
    ensures slug in FeatureMapOf(items) <==> exists i :: 0 <= i < |items| && SlugKey(items[i]) == Some(slug)
  {
    OrderedIndex.IndexByHas(items, SlugKey, ItemId, slug);
  }

  /** Of two items with the same slug, the later one's id is kept. */
  lemma FeatureMapLastWins(items: seq<WfItem>, i: nat)
    requires i < |items| && SlugKey(items[i]).Some?
    requires forall j :: i < j < |items| ==> SlugKey(items[j]) != SlugKey(items[i])
    ensures SlugKey(items[i]).value in FeatureMapOf(items)
    ensures FeatureMapOf(items)[SlugKey(items[i]).value] == items[i].id
  {
    OrderedIndex.IndexByLastWins(items, SlugKey, ItemId, i);
  }

  /**
    The module-level `featureMapCache`. It is empty at module load, set by
    the first successful fetch and never cleared.
  */
  class FeatureCache {
    var cached: Option<map<string, string>>

    constructor ()
      ensures cached == None
    {
      cached := None;
    }

    /**
      `getFeatureMap`: the cached map if there is one (no request),
      otherwise list the feature collection (`response` is Webflow's
      answer), build the map and keep it.
    */
    method Get(client: Client, response: Result<seq<WfItem>, Value>) returns (r: Result<map<string, string>, Value>)
      modifies this, client
      ensures client.writes == old(client.writes)
      ensures old(cached).Some? ==> r == Success(old(cached).value) && cached == old(cached) && client.lists == old(client.lists)
      ensures old(cached).None? ==> client.lists == old(client.lists) + [Features]
      ensures old(cached).None? && response.Success? ==>
        r == Success(FeatureMapOf(response.value)) && cached == Some(FeatureMapOf(response.value))
      ensures old(cached).None? && response.Failure? ==> r == Failure(response.error) && cached == None
    {
      if cached.Some? {
        return Success(cached.value);
      }
      var data := client.List(Features, response);
      if data.Failure? {
        return Failure(data.error);
      }
      var index := OrderedIndex.BuildIndex(data.value, SlugKey, ItemId);
      cached := Some(index.vals);
      r := Success(index.vals);
    }
  }
}
