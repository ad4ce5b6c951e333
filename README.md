# Syscara → Webflow vehicle sync, modelled in Dafny

This project models the core of a small serverless service. The service copies a dealer's vehicle ads from the Syscara sales API into a Webflow CMS collection. It also answers two read-only reports about those ads. The modelled parts are:

- **`mapVehicle`** (libs/map.js, module `VehicleMap`). It turns one Syscara ad into the flat set of CMS fields, wrapped as `{ originalId, mapped }`. It builds the name, the slug (normalised by module `Slug`), the condition, the gallery and the price, and falls back to `""` for every missing field. It returns `null` when the mapping throws.
- **`runDeltaSync`** (libs/sync.js, module `LibSync`). It lists the existing Webflow items and indexes them by `geraet_id`. Then it creates or updates one item per vehicle with a fixed 25-field body. It counts created, updated and skipped vehicles, and one vehicle's failure never stops the loop.
- **The delta-sync endpoint** (api/delta-sync.js, module `DeltaSync`):
  - it builds `sysMap` and `wfMap` (module `OrderedIndex`, a JavaScript `Map`);
  - it writes every ad, a PATCH when it is known and a POST otherwise;
  - it deletes every item whose id Syscara no longer lists;
  - it reports the counts.
  The first error ends the run.
- **The single-vehicle sync endpoint** (api/sync.js, module `SingleSync`). It unwraps the nested ad, maps it, enriches it and creates one item. Both endpoints share the media-proxy and feature-linking step and the module-level feature-map cache (module `Enrichment`).
- **The public-ads report** (api/ads-public.js, module `AdsPublic`). It classifies every ad by four checks in priority order, counts the outcomes and keeps the first ten included and ten excluded samples.
- **The feature histogram** (api/features.js, module `FeatureHistogram`). It counts feature names over all ads and sorts them by count, most frequent first, stably.

Shared modules:

- `JsValue`: JSON values with JavaScript's truthiness, `||`, `??`, optional chaining and `String()`.
- `Webflow`: the CMS as a `Client` object that records every request in order, with an outcome left open.
- `Wrappers`: `Option` and `Result`.

## Model

| member | source | states |
|---|---|---|
| JsValue.Or | libs/map.js:8-12 | `a \|\| b` is `a` when `a` is truthy and `b` otherwise |
| JsValue.Coalesce | libs/sync.js:58-59 | `a ?? b` is `b` exactly when `a` is `null` or `undefined` |
| JsValue.Prop | api/features.js:41 | reading a property fails (a TypeError) exactly when the value is `null` or `undefined` |
| JsValue.OptProp | api/delta-sync.js:116 | `v?.k` is `undefined` on a nullish `v` and reads `v.k` otherwise |
| Webflow.Json | libs/sync.js:42-47 | the JSON body: `items: [{ fieldData }]` for a create, `fieldData` otherwise, and `isDraft: false` exactly for the flagged bodies of libs/sync.js |
| Webflow.Client.Send | api/delta-sync.js:10-24 | a write appends itself with its outcome to the request log; nothing else changes |
| Webflow.Client.List | api/delta-sync.js:108-112 | a listing is logged by collection, changes no item and returns the response |
| Webflow.CompleteIffAllAccepted | api/delta-sync.js:137-225 | a log cut at the first failure holds the whole plan exactly when every request in it was accepted |
| Slug.LowerAll | libs/map.js:19 | `toLowerCase` on ASCII: same length, each letter lowered |
| Slug.ReplaceIllegal | libs/map.js:20 | only `[a-z0-9-]` remains, and a string of legal characters is left unchanged |
| Slug.CollapseDashes | libs/map.js:21 | no two dashes in a row remain, and legality is kept |
| Slug.TrimDashes | libs/map.js:22 | on a string without double dashes the result neither starts nor ends with a dash; a string that does neither is unchanged |
| Slug.Slugify | libs/map.js:18-22 | the result is a slug (legal characters, no double, leading or trailing dash), and a slug is returned unchanged |
| Slug.SlugifyIdempotent | libs/map.js:18-22 | normalising twice is normalising once |
| Slug.SlugifyKeepsAlnums | libs/map.js:18-22 | the letters and digits of the lowered input survive in order; only separators change |
| VehicleMap.TrimStart | libs/map.js:15 | the result is a suffix of the input and does not start with whitespace |
| VehicleMap.TrimEnd | libs/map.js:15 | the result is a prefix of the input and does not end with whitespace |
| VehicleMap.NameOfWords | libs/map.js:14-15 | the name of three non-empty parts is "producer series model" |
| VehicleMap.NameKeepsInnerGap | libs/map.js:15 | a missing series leaves two spaces between producer and model: only the ends are trimmed |
| VehicleMap.Dimensions | libs/map.js:10-61 | `breite`, `hoehe` and `laenge` come from an object's fields; an array or non-empty string gives no width or height but its length as `laenge`; a falsy `dimensions`, a number or a boolean gives "" for all three |
| VehicleMap.MapVehicle | libs/map.js:5-101 | `null` exactly when the ad is nullish or its media cannot be filtered; a mapped ad has a slug as `slug`, its raw id as `originalId`, `String(id)` as `geraet_id` and at most 25 gallery entries |
| VehicleMap.ImageIds | libs/map.js:41-43 | the image ids are never more than the media entries |
| VehicleMap.ImageIdsMembers | libs/map.js:41-43 | an id is listed exactly when some media entry is an uploaded image with that id |
| VehicleMap.Images | libs/map.js:41-47 | the gallery is the first min(25, n) uploaded image ids, and `hauptbild` is the first of them, or `""` when there is none |
| VehicleMap.GalleryFromUploads | libs/map.js:41-47 | every gallery entry is the id of an uploaded image of the ad |
| VehicleMap.ZustandCases | libs/map.js:30-35 | NEW gives "Neu"; USED and BE give "Gebraucht"; other codes pass through; a falsy code gives "" |
| VehicleMap.FahrzeugartIsFallback | libs/map.js:24-28 | the vehicle kind is `sys.type \|\| ""` for every type, including the two named ones |
| VehicleMap.Ids | libs/map.js:67-91 | `originalId` is the ad's id and `geraet_id` is `String(id)` |
| VehicleMap.Price | libs/map.js:55-56 | the price is the offer price, else the basic price, else "" |
| VehicleMap.FallbacksFilled | libs/map.js:67-95 | no field with a fallback is left falsy-and-missing: each is truthy or `""` |
| VehicleMap.FlatId | libs/map.js:91 | the flat record carries the id under `geraet_id` |
| VehicleMap.WrapperHasNoId | libs/map.js:67-69 | the returned wrapper has no `geraet_id`; only its `mapped` part has one |
| OrderedIndex.Put | api/delta-sync.js:102 | `Map.set`: the value is replaced, and a new key goes to the end of the key order |
| OrderedIndex.IndexBy | api/delta-sync.js:100-103 | the keys stay distinct and are exactly the map's domain |
| OrderedIndex.BuildIndex | api/delta-sync.js:100-103 | the filling loop yields the specified index |
| OrderedIndex.IndexByHas | api/delta-sync.js:100-103 | a key is indexed exactly when some element yields it |
| OrderedIndex.IndexByLastWins | api/delta-sync.js:100-103 | the last element with a key supplies its value |
| OrderedIndex.IndexByFirstOccurrence | api/delta-sync.js:137 | iteration visits keys in the order of their first occurrence |
| OrderedIndex.Counts | api/delta-sync.js:170-208 | counting keys inside and outside another key set gives the sizes of the intersection and of the difference |
| OrderedIndex.Size | api/delta-sync.js:216-217 | `Map.size` is the number of distinct keys |
| Enrichment.MediaUrlRoundTrip | api/delta-sync.js:145 | the proxy reads back exactly the media id its URL was built from |
| Enrichment.GalleryUrls | api/delta-sync.js:148-152 | at most 25 URLs: the i-th one is the proxy URL of the i-th media id |
| Enrichment.GalleryRoundTrip | api/delta-sync.js:148-152 | each gallery URL decodes back to its media id |
| Enrichment.EnrichMedia | api/delta-sync.js:141-157 | throws exactly when a truthy `media-cache` does not parse or parses to `null`; without a cache the record is unchanged; non-media fields are always unchanged |
| Enrichment.MediaFields | api/delta-sync.js:141-157 | `hauptbild`, `galerie` and `grundriss` are replaced exactly when the cache carries them |
| Enrichment.FeatureIds | api/delta-sync.js:160-162 | every linked id is non-empty and belongs to the feature map |
| Enrichment.FeatureIdsMembers | api/delta-sync.js:160-162 | an id is linked exactly when some slug maps to it |
| Enrichment.FeatureIdsAllKnown | api/delta-sync.js:160-162 | when every slug is known, the ids are the slugs' ids in order |
| Enrichment.ResolveFeatures | api/delta-sync.js:160-162 | throws exactly when `featureSlugs` is truthy and not an array; a falsy value links nothing |
| Enrichment.WithFeatures | api/delta-sync.js:164-165 | `featureSlugs` is removed, `features` holds the ids, and every other field is unchanged |
| Enrichment.Enrich | api/delta-sync.js:141-165 | throws exactly when the media step throws or the slugs are a truthy non-array; otherwise the record has no slugs, holds the ids resolved from its slugs and every other field as the media step left it |
| Enrichment.FeatureMapKeys | api/delta-sync.js:47-51 | a slug is in the map exactly when some feature item carries it |
| Enrichment.FeatureMapLastWins | api/delta-sync.js:47-51 | the last item with a slug supplies its id |
| Enrichment.FeatureCache.Get | api/delta-sync.js:38-55 | one listing on the first call, none afterwards; a successful listing is cached and returned; a failed one is returned and nothing is cached |
| DeltaSync.SysIndexKeys | api/delta-sync.js:100-103 | `sysMap` holds `String(id)` of exactly the ads with a truthy id |
| DeltaSync.SysIndexLastWins | api/delta-sync.js:100-103 | among ads with the same id, the last one is kept |
| DeltaSync.WfIndexKeys | api/delta-sync.js:114-118 | `wfMap` holds exactly the items with a truthy `fahrzeug-id` |
| DeltaSync.WfIndexLastWins | api/delta-sync.js:114-118 | among items with the same id, the last one is kept |
| DeltaSync.WriteCall | api/delta-sync.js:170-194 | a known id is patched on its item, an unknown one is created, and both writes are live |
| DeltaSync.ReadyFrom | api/delta-sync.js:137-157 | the loop gets exactly as far as the first ad whose preparation throws |
| DeltaSync.Writes | api/delta-sync.js:137-195 | one write per prepared ad, in `sysMap` order |
| DeltaSync.WriteOne | api/delta-sync.js:138-194 | one iteration logs that ad's write, or stops on a throw or a rejected write |
| DeltaSync.WriteLoop | api/delta-sync.js:137-195 | the loop's log is the planned writes, up to and including the first failure; its counters count unknown and known ids |
| DeltaSync.DeleteSweep | api/delta-sync.js:200-209 | deletes, in `wfMap` order, every item whose id Syscara lacks, up to the first failure, and counts the deletes |
| DeltaSync.Reconcile | api/delta-sync.js:137-209 | the requests issued are the whole plan (writes, then deletes) all accepted, or an accepted prefix followed by one rejected request; success exactly when every ad could be prepared and the whole plan was accepted; a failure with nothing rejected is a throw, any other a rejected request; a full run's counts are the three set sizes |
| DeltaSync.WritePlanShape | api/delta-sync.js:170-194 | the i-th write is a PATCH `{ fieldData }` of the matched item or a POST `{ items: [{ fieldData }] }` |
| DeltaSync.WritesNoDelete | api/delta-sync.js:137-195 | the write loop never deletes |
| DeltaSync.DeletePlanOnlyDeletes | api/delta-sync.js:200-209 | the sweep only deletes |
| DeltaSync.DeletesLast | api/delta-sync.js:137-209 | every delete comes after every write |
| DeltaSync.DeletePlanMembers | api/delta-sync.js:200-209 | an item is deleted exactly when its id is missing from `sysMap` |
| DeltaSync.DeletePlanCount | api/delta-sync.js:200-209 | the number of deletes equals the deleted counter |
| DeltaSync.DeleteCount | api/delta-sync.js:200-209 | the deletes are as many as the ids in `wfMap` but not in `sysMap` |
| DeltaSync.WriteFailTruncated | api/delta-sync.js:222-225 | a run stopped in the write loop has issued a cut plan, the whole of it exactly when it stopped at an ad that throws |
| DeltaSync.DeleteFailTruncated | api/delta-sync.js:222-225 | a run stopped in the sweep has issued a cut plan ending in the rejected delete, never the whole plan |
| DeltaSync.DeleteFailLog | api/delta-sync.js:200-209 | a stopped sweep's log is all writes accepted, then the deletes so far, then the failed one |
| DeltaSync.DeleteFailPrefix | api/delta-sync.js:200-209 | the deletes up to a failing one form a prefix of the plan |
| DeltaSync.DeletePrefix | api/delta-sync.js:200-209 | the sweep's first deletes are a prefix of all its deletes |
| DeltaSync.CompletedRun | api/delta-sync.js:137-209 | a run without failure issues the whole plan, every request accepted |
| DeltaSync.Counted | api/delta-sync.js:214-221 | created, updated and deleted are the sizes of the differences and the intersection of the two id sets |
| DeltaSync.CreatedPlusUpdated | api/delta-sync.js:216-219 | created + updated = the number of Syscara ids |
| DeltaSync.Report | api/delta-sync.js:130-221 | the 200 response comes exactly when every ad was prepared and the whole plan was accepted, and reports the five counts; otherwise the error is the throw or the rejected request |
| DeltaSync.Handler | api/delta-sync.js:60-226 | missing env, Syscara, listing and feature-map errors come first and write nothing; after that the requests are the cut plan, the run succeeds exactly when every ad was prepared and the whole plan was accepted, a failure names the throw or the rejection, and a success reports the set sizes with created + updated = syscara |
| LibSync.ProjectionFields | libs/sync.js:42-79 | the body has exactly the 25 listed fields, copied as they are, except `ps` and `kw`, which become "" only when nullish |
| LibSync.SamePayload | libs/sync.js:37-136 | create and update send the same body with `isDraft: false` and `isArchived: false`, and neither goes live |
| LibSync.ExistingKeys | libs/sync.js:164-169 | `existingById` holds exactly the items with a truthy `geraet_id` |
| LibSync.ExistingLastWins | libs/sync.js:164-169 | among items with the same `geraet_id`, the last one is kept |
| LibSync.Attempt | libs/sync.js:178-197 | a falsy mapping sends nothing; a known key is updated on its item, an unknown one is created, both with the projection |
| LibSync.NullMappingSkipped | libs/sync.js:180-184 | a falsy mapping is counted as skipped and sends nothing |
| LibSync.SyncOne | libs/sync.js:177-203 | one iteration logs at most that vehicle's request, with an outcome that fits it |
| LibSync.RunDeltaSync | libs/sync.js:154-212 | a failed listing rejects with the fixed "Webflow API error" and nothing is written; otherwise every vehicle is attempted in order, the log is the planned requests with their outcomes, and the counters count the outcomes |
| LibSync.CountsAddUp | libs/sync.js:171-211 | created + updated + skipped is the number of vehicles |
| LibSync.RequestsIndependent | libs/sync.js:176-204 | the requests sent do not depend on which ones failed |
| LibSync.WrappedKeyIsUndefined | libs/sync.js:186 | as written, the lookup key is always "undefined", so a vehicle is created whenever no item has that id |
| LibSync.DuplicateOnRerun | libs/sync.js:186-197 | as written, an already-synced vehicle is created again; with the flat record it is updated |
| LibSync.FlatKey | libs/sync.js:186 | with the flat record, the lookup key is `String(vehicle.id)` |
| LibSync.FlatMatchesById | libs/sync.js:164-197 | with the flat record, a vehicle is updated exactly when some item's `geraet_id` equals its id |
| SingleSync.Unwrap | api/sync.js:81-84 | the record nested under the ad's id when it is truthy, otherwise the response itself |
| SingleSync.UnwrapShapes | api/sync.js:81-84 | a wrapped ad is unwrapped and a bare ad is kept |
| SingleSync.LengthOr0 | api/sync.js:154 | `v?.length \|\| 0`: the length of arrays and strings, and 0 for scalars |
| SingleSync.ReportOf | api/sync.js:149-158 | the response names the vehicle, flags the images by truthiness, gives `galerie?.length \|\| 0` and counts the linked features |
| SingleSync.WithMedia | api/sync.js:86-110 | throws exactly on a `null` mapping or a failing media step; otherwise it is the media step's record |
| SingleSync.Handler | api/sync.js:51-163 | a Syscara error comes first; media and feature errors write nothing; otherwise exactly one non-live POST of the enriched record, and success exactly when it is accepted |
| SingleSync.CreatedRecord | api/sync.js:120-132 | the created item has no slugs, its `features` are the linked ids, each an id of a feature item, and its other fields are unchanged |
| SingleSync.GalleryReported | api/sync.js:101-105 | with a cached gallery, the reported count is the number of proxy URLs, at most 25 |
| AdsPublic.Normalize | api/ads-public.js:57 | an object or array is kept and anything else becomes `{}` |
| AdsPublic.ClassifyPriority | api/ads-public.js:68-72 | public exactly when all four checks pass; each reason exactly when its check is the first to fail |
| AdsPublic.NonObjectNotVisible | api/ads-public.js:57-69 | a non-object ad is excluded as not visible |
| AdsPublic.RulesOnlyAllowed | api/ads-public.js:71 | every public ad is a Reisemobil or a Caravan |
| AdsPublic.CountOf | api/ads-public.js:53-92 | an outcome counter never exceeds the number of ads seen |
| AdsPublic.IncludedRows | api/ads-public.js:96-108 | one included row per public ad |
| AdsPublic.ExcludedRows | api/ads-public.js:77-87 | one excluded row per excluded ad |
| AdsPublic.Take | api/ads-public.js:77 | a capped list: a prefix of at most k elements, and the whole list when it is short |
| AdsPublic.Scan | api/ads-public.js:37-109 | the loop's counters, reasons and capped samples are those of the specification |
| AdsPublic.Partition | api/ads-public.js:68-92 | public + all four reasons = total |
| AdsPublic.TypesSplit | api/ads-public.js:92-94 | reisemobile + caravans = public |
| AdsPublic.ReportBalances | api/ads-public.js:111-120 | in the response, public + reasons = total, `excluded` = the sum of the reasons, and reisemobile + caravans = public |
| AdsPublic.CountMonotone | api/ads-public.js:53-92 | counters only grow along the loop |
| AdsPublic.ExcludedMonotone | api/ads-public.js:74-89 | the excluded count only grows along the loop |
| AdsPublic.IncludedRowsAt | api/ads-public.js:96-108 | a public ad's row stands at its rank among public ads |
| AdsPublic.ExcludedRowsAt | api/ads-public.js:77-87 | an excluded ad's row stands at its rank among excluded ads |
| AdsPublic.Samples | api/ads-public.js:77-108 | both samples hold at most 10 rows, and they are the first 10 of their kind, in order |
| AdsPublic.Handler | api/ads-public.js:3-124 | missing credentials, a Syscara status error and invalid JSON come first, in that order; otherwise the response is the scan of `data \|\| {}` |
| FeatureHistogram.Names | api/features.js:43-44 | each feature is used as the property key `String(feature)` |
| FeatureHistogram.TallyValid | api/features.js:36-49 | the counter has one key per counted feature |
| FeatureHistogram.TallyCounts | api/features.js:43-48 | a feature has a counter exactly when it occurs, and the counter is its number of occurrences |
| FeatureHistogram.TallyCountsAll | api/features.js:39-49 | the same, over all occurrences |
| FeatureHistogram.TallySum | api/features.js:39-49 | the counters add up to the number of occurrences |
| FeatureHistogram.OntoTally | api/features.js:43-48 | counting one ad's features continues the tally of all occurrences |
| FeatureHistogram.CountedTally | api/features.js:39-49 | the two nested loops compute the tally of all occurrences, in visiting order |
| FeatureHistogram.CountFeatures | api/features.js:43-48 | the inner loop applies one counting step per feature |
| FeatureHistogram.Count | api/features.js:39-49 | the loops throw exactly when some ad is `null` or `undefined`; otherwise they yield the specified counter |
| FeatureHistogram.RowsOf | api/features.js:52 | `Object.entries` gives one (feature, count) row per key, in key order |
| FeatureHistogram.Insert | api/features.js:53 | one insertion step adds one row |
| FeatureHistogram.InsertSorted | api/features.js:53 | inserting into a sorted list keeps it sorted by count, descending |
| FeatureHistogram.InsertPerm | api/features.js:53 | inserting adds exactly that row |
| FeatureHistogram.SortDesc | api/features.js:52-57 | the sort keeps the number of rows |
| FeatureHistogram.SortDescCorrect | api/features.js:52-57 | the sort yields a permutation sorted by count, descending, with the same total |
| FeatureHistogram.ResponseRows | api/features.js:59-63 | `totalVehicles` is the number of ads; the rows are sorted and each is an occurring feature with its count |
| FeatureHistogram.ResponseComplete | api/features.js:52-63 | every occurring feature is listed with its count |
| FeatureHistogram.ResponseTotals | api/features.js:59-63 | no feature is listed twice, `totalFeatures` is the number of distinct features, and the counts add up to the number of occurrences |
| FeatureHistogram.DistinctCount | api/features.js:61 | the counter has one key per distinct feature |
| FeatureHistogram.Handler | api/features.js:3-68 | missing credentials, then a failed Syscara request, then a nullish ad (thrown and caught); with the credentials set, a successful response and no nullish ad it always answers with the sorted summary of the tally |

## Left out

- Network, headers and Basic-auth encoding are left out. Every response is an input: a `Result` for the listings and the Syscara fetch. The request URLs, tokens and collection ids are not modelled; only the kind of request and its collection are.
- `getOrigin` is not modelled: the request origin is a string parameter.
- `JSON.parse`, `Number(...)` and `Object.entries`/`Object.values` are left out. They are parameters (`parse`, `Coercions`, `entries`), or the ads arrive as a sequence, because their full JavaScript semantics (floats, NaN, integer-like key ordering) is outside the model.
- The order of object entries is not modelled. JavaScript lists integer-like keys of a plain object first, in ascending order. The feature counter is modelled in insertion order, so that order differs only for numeric feature names.
- Prototype keys are not modelled. Lookups in plain objects (`existingById`, the feature map, the counter) treat keys like "constructor" as absent, while JavaScript would find the inherited property.
- Numbers are integers. Floating-point values, `NaN` and number-to-string formatting beyond integers are not modelled.
- Case and characters: `toLowerCase` is modelled on ASCII only, and whitespace for `trim` is a fixed set of ASCII spaces.
- Stringification is not modelled. `JSON.stringify` drops `undefined` fields of a body, but the model keeps them as `Undefined`.
- Webflow's PATCH merge semantics and the content of its error bodies are not modelled. A failed write is only a failed entry in the log, and error bodies of writes are not carried.
- The media proxies (api/media.js, api/mediaBlob.js) are not part of this model beyond the URL round trip, nor are the test endpoints (api/test.js, api/test-map.js) and api/ads.js.
- DeltaSync.Handler: the mapper is a parameter stated over any mapper. With libs/map.js as the mapper, the loop would read `media-cache` and `featureSlugs` on the `{ originalId, mapped }` wrapper and find neither; that composition is not proved.
- SingleSync.Handler: the same holds for its mapper.
- SingleSync.Handler: a rejected POST yields `Rejected` without the response body that the catch block returns.
- DeltaSync.Handler: the `data.items || []` fallback of the listings is folded into the listing input, which is already the item sequence.
- LibSync.RunDeltaSync: the same holds for the `data.items || []` fallback of its listing (libs/sync.js:147).
- FeatureHistogram.Handler: a response that parses to `null` or to a non-object (where `Object.keys` throws or yields nothing) is not modelled; the ads arrive as a sequence.
- AdsPublic.Handler: `Object.entries(data || {})` is the parameter `entries`, so the model does not fix how entries are drawn from arrays or strings.
- AdsPublic.IdOf: `Number()` is a parameter that may return any value, so the model keeps the final `?? key` fallback reachable although `Number()` never yields `null` or `undefined`.
- `console` logging is not modelled: it has no effect on results.
- LibSync.RunDeltaSync: a request's outcome is left open. The model does not say why Webflow rejects a request.

## Findings

| source | as written | input that shows it | evidently intended | confidence | as-written member | corrected member |
|---|---|---|---|---|---|---|
| libs/sync.js:186 | `existingById[mapped.geraet_id]` reads `geraet_id` on the `{ originalId, mapped }` wrapper that `mapVehicle` returns, so the key is always "undefined" | an ad with id 7 that maps, and one existing item whose `geraet_id` is "7": the loop creates a second item instead of updating it | look up `mapped.mapped.geraet_id` (the flat record), so a vehicle already in Webflow is updated | high (not executed) | LibSync.WrappedKeyIsUndefined, LibSync.DuplicateOnRerun | LibSync.FlatKey, LibSync.FlatMatchesById |
