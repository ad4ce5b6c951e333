/**
  The public-listing report (api/ads-public.js). Every Syscara ad is
  classified as included in the public listing or excluded for the first
  of four reasons it fails, in a fixed priority. One loop counts the ads,
  the included ones by vehicle type and the excluded ones by reason, and
  keeps the first ten ads of each kind as samples.

  `Object.entries` of the response and JavaScript's `Number()` coercion
  are parameters: the entries come in the order the engine gives them,
  and `positive(offer)` stands for `Number(offer) > 0`.
*/
module AdsPublic {
  import opened Wrappers
  import opened JsValue

  /** Why an ad is left out, in the order the checks run. */
  datatype Reason = NotVisible | NotMarket | WrongType | NoPrice

  /** The two vehicle types that may be listed (`allowedTypes`). */
  const Reisemobil: string := "Reisemobil"
  const Caravan: string := "Caravan"

  /** Each sample list stops growing at this length. */
  const SampleCap: nat := 10

  /** `raw && typeof raw === "object" ? raw : {}` */
  function Normalize(raw: Value): (ad: Value)
    ensures ad.Obj? || ad.Arr?
    ensures raw.Obj? || raw.Arr? ==> ad == raw
    ensures !(raw.Obj? || raw.Arr?) ==> ad == Obj(map[])
  {
    if Truthy(raw) && (raw.Obj? || raw.Arr?) then raw else Obj(map[])
  }

  /** `ad.type || ""` */
  function TypeOf(ad: Value): Value {
    Or(Field(ad, "type"), Str(""))
  }

  /** `ad.properties?.visible === true`: only the boolean `true` counts. */
  predicate Visible(ad: Value) {
    OptProp(Field(ad, "properties"), "visible") == Bool(true)
  }

  /** `ad.properties?.market === true` */
  predicate Market(ad: Value) {
    OptProp(Field(ad, "properties"), "market") == Bool(true)
  }

  /** `allowedTypes.has(type)`: the exact strings, nothing coerced. */
  predicate AllowedType(t: Value) {
    t == Str(Reisemobil) || t == Str(Caravan)
  }

  /** `ad.prices?.offer` */
  function Offer(ad: Value): Value {
    OptProp(Field(ad, "prices"), "offer")
  }

  /** `offer != null && String(offer) !== "" && Number(offer) > 0` */
  predicate HasPrice(offer: Value, positive: Value -> bool) {
    !Nullish(offer) && ToStr(offer) != "" && positive(offer)
  }

  /** The first failing check, or None when the ad is public. */
  function Classify(ad: Value, positive: Value -> bool): Option<Reason> {
    if !Visible(ad) then Some(NotVisible)
    else if !Market(ad) then Some(NotMarket)
    else if !AllowedType(TypeOf(ad)) then Some(WrongType)
    else if !HasPrice(Offer(ad), positive) then Some(NoPrice)
    else None
  }

  /**
    The checks run in a fixed priority: an ad is public exactly when it
    passes all four, and it is excluded for a reason exactly when it fails
    that check after passing every earlier one.
  */
  lemma ClassifyPriority(ad: Value, positive: Value -> bool)
    ensures var r := Classify(ad, positive);
      && (r.None? <==> Visible(ad) && Market(ad) && AllowedType(TypeOf(ad)) && HasPrice(Offer(ad), positive))
      && (r == Some(NotVisible) <==> !Visible(ad))
      && (r == Some(NotMarket) <==> Visible(ad) && !Market(ad))
      && (r == Some(WrongType) <==> Visible(ad) && Market(ad) && !AllowedType(TypeOf(ad)))
      && (r == Some(NoPrice) <==> Visible(ad) && Market(ad) && AllowedType(TypeOf(ad)) && !HasPrice(Offer(ad), positive))
  {
  }

  /** An entry that is not an object has no properties, so it is never visible. */
  lemma NonObjectNotVisible(raw: Value, positive: Value -> bool)
    requires !(raw.Obj? || raw.Arr?)
    ensures Classify(Normalize(raw), positive) == Some(NotVisible)
  {
  }

  /** One entry of the response: its key and its value. */
  type Entry = (string, Value)

  /**
    `ad.id ?? Number(key) ?? key`; `number` stands for `Number()`. The
    parameter may return any value, but `Number()` itself never returns
    `null` or `undefined`, so with it the final `?? key` is never taken.
  */
  function IdOf(e: Entry, number: string -> Value): Value {
    Coalesce(Coalesce(Field(Normalize(e.1), "id"), number(e.0)), Str(e.0))
  }

  /** The fields a sample of an included ad shows. */
  datatype IncludedSample = IncludedSample(id: Value, status: Value, vehicleType: Value, visible: bool, market: bool,
                                           producer: Value, series: Value, model: Value, offer: Value)

  /** The fields a sample of an excluded ad shows. */
  datatype ExcludedSample = ExcludedSample(id: Value, status: Value, vehicleType: Value, visible: bool, market: bool,
                                           offer: Value, reason: Reason)

  /** The coercions the classification depends on: `Number()` of a key and `Number(offer) > 0`. */
  datatype Coercions = Coercions(number: string -> Value, positive: Value -> bool)

  /** The outcome of one entry: None when it is public, else why it is not. */
  function Outcome(e: Entry, c: Coercions): Option<Reason> {
    Classify(Normalize(e.1), c.positive)
  }

  /** The entry's `type`, as counted and shown. */
  function KindOf(e: Entry): Value {
    TypeOf(Normalize(e.1))
  }

  function IncludedOf(e: Entry, c: Coercions): IncludedSample {
    var ad := Normalize(e.1);
    var model := Field(ad, "model");
    IncludedSample(IdOf(e, c.number), Field(ad, "status"), TypeOf(ad), Visible(ad), Market(ad),
      Or(OptProp(model, "producer"), Str("")), Or(OptProp(model, "series"), Str("")),
      Or(OptProp(model, "model"), Str("")), Coalesce(Offer(ad), Null))
  }

  function ExcludedOf(e: Entry, c: Coercions, reason: Reason): ExcludedSample {
    var ad := Normalize(e.1);
    ExcludedSample(IdOf(e, c.number), Field(ad, "status"), TypeOf(ad), Visible(ad), Market(ad),
      Coalesce(Offer(ad), Null), reason)
  }

  /**
    What the loop needs to know of one entry. The counting below is stated
    for any classifier; the handler uses `Rules`.
  */
  datatype Classifier = Classifier(
    outcome: Entry -> Option<Reason>,
    kind: Entry -> Value,
    included: Entry -> IncludedSample,
    excluded: (Entry, Reason) -> ExcludedSample)

  function Rules(c: Coercions): Classifier {
    Classifier(e => Outcome(e, c), KindOf, e => IncludedOf(e, c), (e, r) => ExcludedOf(e, c, r))
  }

  /** A public entry is a Reisemobil or a Caravan. */
  ghost predicate OnlyAllowed(cl: Classifier) {
    forall e :: cl.outcome(e).None? ==> AllowedType(cl.kind(e))
  }

  lemma RulesOnlyAllowed(c: Coercions)
    ensures OnlyAllowed(Rules(c))
  {
    forall e: Entry | Rules(c).outcome(e).None?
      ensures AllowedType(Rules(c).kind(e))
    {
      ClassifyPriority(Normalize(e.1), c.positive);
    }
  }

  // ---------------------------------------------------------------------
  // What the report should say about the first n entries
  // ---------------------------------------------------------------------

  /** How many of the first `n` entries have outcome `o`. */
  function CountOf(es: seq<Entry>, n: nat, cl: Classifier, o: Option<Reason>): (r: nat)
    requires n <= |es|
    ensures r <= n
  {
    if n == 0 then 0 else CountOf(es, n - 1, cl, o) + (if cl.outcome(es[n - 1]) == o then 1 else 0)
  }

  /** How many of the first `n` entries are public and of type `t`. */
  function CountType(es: seq<Entry>, n: nat, cl: Classifier, t: string): (r: nat)
    requires n <= |es|
  {
    if n == 0 then 0
    else CountType(es, n - 1, cl, t) + (if cl.outcome(es[n - 1]).None? && cl.kind(es[n - 1]) == Str(t) then 1 else 0)
  }

  /** The samples of every public entry among the first `n`, in order. */
  function IncludedRows(es: seq<Entry>, n: nat, cl: Classifier): (r: seq<IncludedSample>)
    requires n <= |es|
    ensures |r| == CountOf(es, n, cl, None)
  {
    if n == 0 then []
    else IncludedRows(es, n - 1, cl) + (if cl.outcome(es[n - 1]).None? then [cl.included(es[n - 1])] else [])
  }

  /** The samples of every excluded entry among the first `n`, in order. */
  function ExcludedRows(es: seq<Entry>, n: nat, cl: Classifier): (r: seq<ExcludedSample>)
    requires n <= |es|
    ensures |r| == n - CountOf(es, n, cl, None)
  {
    if n == 0 then []
    else
      var o := cl.outcome(es[n - 1]);
      ExcludedRows(es, n - 1, cl) + (if o.Some? then [cl.excluded(es[n - 1], o.value)] else [])
  }

  /** The first `k` elements, or all of them when there are fewer. */
  function Take<T>(s: seq<T>, k: nat): (r: seq<T>)
    ensures |r| <= k && |r| <= |s|
    ensures |s| <= k ==> r == s
    ensures forall i :: 0 <= i < |r| ==> r[i] == s[i]
  {
    if |s| <= k then s else s[..k]
  }

  /** Pushing while the list is shorter than the cap keeps it the first `k`. */
  lemma TakeSnoc<T>(s: seq<T>, x: T, k: nat)
    ensures |Take(s, k)| < k ==> Take(s + [x], k) == Take(s, k) + [x]
    ensures |Take(s, k)| >= k ==> Take(s + [x], k) == Take(s, k)
  {
    if |s| > k {
      assert (s + [x])[..k] == s[..k];
    } else if |s| == k {
      assert (s + [x])[..k] == s;
    }
  }

  datatype Reasons = Reasons(notVisible: nat, notMarket: nat, wrongType: nat, noPrice: nat)

  /** `excludedReasons[reason]++` */
  function Bump(rs: Reasons, r: Reason): Reasons {
    match r
    case NotVisible => rs.(notVisible := rs.notVisible + 1)
    case NotMarket => rs.(notMarket := rs.notMarket + 1)
    case WrongType => rs.(wrongType := rs.wrongType + 1)
    case NoPrice => rs.(noPrice := rs.noPrice + 1)
  }

  function Total(rs: Reasons): nat {
    rs.notVisible + rs.notMarket + rs.wrongType + rs.noPrice
  }

  /** The 200 response. `excluded` is computed as `total - public`. */
  datatype Report = Report(totalVehicles: nat, publicVehicles: nat, reisemobile: nat, caravans: nat,
                           excluded: int, excludedReasons: Reasons,
                           sampleIncluded: seq<IncludedSample>, sampleExcluded: seq<ExcludedSample>)

  /** The reason counters over the first `n` entries. */
  function ReasonsOf(es: seq<Entry>, n: nat, cl: Classifier): Reasons
    requires n <= |es|
  {
    Reasons(CountOf(es, n, cl, Some(NotVisible)), CountOf(es, n, cl, Some(NotMarket)),
      CountOf(es, n, cl, Some(WrongType)), CountOf(es, n, cl, Some(NoPrice)))
  }

  /** The report over all entries: counts of each outcome and the first ten samples of each kind. */
  function Expected(es: seq<Entry>, cl: Classifier): Report {
    var n := |es|;
    Report(n, CountOf(es, n, cl, None), CountType(es, n, cl, Reisemobil), CountType(es, n, cl, Caravan),
      n - CountOf(es, n, cl, None), ReasonsOf(es, n, cl),
      Take(IncludedRows(es, n, cl), SampleCap), Take(ExcludedRows(es, n, cl), SampleCap))
  }

  /** The counting loop of the handler. */
  method Scan(es: seq<Entry>, cl: Classifier) returns (rep: Report)
    ensures rep == Expected(es, cl)
  {
    var total, public, reisemobile, caravans := 0, 0, 0, 0;
    var reasons := Reasons(0, 0, 0, 0);
    var sampleIncluded: seq<IncludedSample> := [];
    var sampleExcluded: seq<ExcludedSample> := [];
    for i := 0 to |es|
      invariant total == i
      invariant public == CountOf(es, i, cl, None)
      invariant reisemobile == CountType(es, i, cl, Reisemobil)
      invariant caravans == CountType(es, i, cl, Caravan)
      invariant reasons == ReasonsOf(es, i, cl)
      invariant sampleIncluded == Take(IncludedRows(es, i, cl), SampleCap)
      invariant sampleExcluded == Take(ExcludedRows(es, i, cl), SampleCap)
    {
      total := total + 1;
      var t := cl.kind(es[i]);
      var reason := cl.outcome(es[i]);
      if reason.Some? {
        reasons := Bump(reasons, reason.value);
        TakeSnoc(ExcludedRows(es, i, cl), cl.excluded(es[i], reason.value), SampleCap);
        if |sampleExcluded| < SampleCap {
          sampleExcluded := sampleExcluded + [cl.excluded(es[i], reason.value)];
        }
        continue;
      }
      public := public + 1;
      if t == Str(Reisemobil) {
        reisemobile := reisemobile + 1;
      }
      if t == Str(Caravan) {
        caravans := caravans + 1;
      }
      TakeSnoc(IncludedRows(es, i, cl), cl.included(es[i]), SampleCap);
      if |sampleIncluded| < SampleCap {
        sampleIncluded := sampleIncluded + [cl.included(es[i])];
      }
    }
    rep := Report(total, public, reisemobile, caravans, total - public, reasons, sampleIncluded, sampleExcluded);
  }

  // ---------------------------------------------------------------------
  // What the report guarantees
  // ---------------------------------------------------------------------

  /** Every entry has exactly one outcome: the five counters add up to the number of entries. */
  lemma {:induction false} Partition(es: seq<Entry>, n: nat, cl: Classifier)
    requires n <= |es|
    ensures CountOf(es, n, cl, None) + Total(ReasonsOf(es, n, cl)) == n
  {
    if n > 0 {
      Partition(es, n - 1, cl);
      var o := cl.outcome(es[n - 1]);
      assert o.None? || o.value.NotVisible? || o.value.NotMarket? || o.value.WrongType? || o.value.NoPrice?;
    }
  }

  /** When only the two allowed types pass, they split the public count between them. */
  lemma {:induction false} TypesSplit(es: seq<Entry>, n: nat, cl: Classifier)
    requires n <= |es| && OnlyAllowed(cl)
    ensures CountType(es, n, cl, Reisemobil) + CountType(es, n, cl, Caravan) == CountOf(es, n, cl, None)
  {
    if n > 0 {
      TypesSplit(es, n - 1, cl);
      assert cl.outcome(es[n - 1]).None? ==> AllowedType(cl.kind(es[n - 1]));
    }
  }

  /**
    The report's totals under the handler's rules: public plus every
    reason is the whole, `excluded` is the sum of the reasons, and the two
    types make up the public count.
  */
  lemma ReportBalances(es: seq<Entry>, c: Coercions)
    ensures var rep := Expected(es, Rules(c));
      && rep.publicVehicles + Total(rep.excludedReasons) == rep.totalVehicles
      && rep.excluded == Total(rep.excludedReasons)
      && rep.reisemobile + rep.caravans == rep.publicVehicles
  {
    Partition(es, |es|, Rules(c));
    RulesOnlyAllowed(c);
    TypesSplit(es, |es|, Rules(c));
  }

  lemma {:induction false} CountMonotone(es: seq<Entry>, m: nat, n: nat, cl: Classifier, o: Option<Reason>)
    requires m <= n <= |es|
    ensures CountOf(es, m, cl, o) <= CountOf(es, n, cl, o)
    decreases n
  {
    if m < n {
      CountMonotone(es, m, n - 1, cl, o);
    }
  }

  /** The public entry at `j` has the row numbered by how many public entries precede it. */
  lemma {:induction false} IncludedRowsAt(es: seq<Entry>, n: nat, cl: Classifier, j: nat)
    requires j < n <= |es|
    requires cl.outcome(es[j]).None?
    ensures CountOf(es, j, cl, None) < |IncludedRows(es, n, cl)|
    ensures IncludedRows(es, n, cl)[CountOf(es, j, cl, None)] == cl.included(es[j])
  {
    if j < n - 1 {
      IncludedRowsAt(es, n - 1, cl, j);
      CountMonotone(es, j + 1, n - 1, cl, None);
    }
  }

  /** Likewise for an excluded entry, among the excluded ones. */
  lemma {:induction false} ExcludedRowsAt(es: seq<Entry>, n: nat, cl: Classifier, j: nat)
    requires j < n <= |es|
    requires cl.outcome(es[j]).Some?
    ensures j - CountOf(es, j, cl, None) < |ExcludedRows(es, n, cl)|
    ensures ExcludedRows(es, n, cl)[j - CountOf(es, j, cl, None)] == cl.excluded(es[j], cl.outcome(es[j]).value)
  {
    if j < n - 1 {
      ExcludedRowsAt(es, n - 1, cl, j);
      ExcludedMonotone(es, j + 1, n - 1, cl);
    }
  }

  lemma {:induction false} ExcludedMonotone(es: seq<Entry>, m: nat, n: nat, cl: Classifier)
    requires m <= n <= |es|
    ensures m - CountOf(es, m, cl, None) <= n - CountOf(es, n, cl, None)
    decreases n
  {
    if m < n {
      ExcludedMonotone(es, m, n - 1, cl);
    }
  }

  /**
    The samples hold at most ten entries each, and an entry is sampled,
    at its position within its kind, whenever fewer than ten entries of
    that kind came before it: the samples are the first ten of each kind.
  */
  lemma Samples(es: seq<Entry>, cl: Classifier, j: nat)
    requires j < |es|
    ensures |Expected(es, cl).sampleIncluded| <= SampleCap && |Expected(es, cl).sampleExcluded| <= SampleCap
    ensures var k := CountOf(es, j, cl, None);
      cl.outcome(es[j]).None? && k < SampleCap ==>
        k < |Expected(es, cl).sampleIncluded| && Expected(es, cl).sampleIncluded[k] == cl.included(es[j])
    ensures var k := j - CountOf(es, j, cl, None);
      cl.outcome(es[j]).Some? && k < SampleCap ==>
        (k < |Expected(es, cl).sampleExcluded|
        && Expected(es, cl).sampleExcluded[k] == cl.excluded(es[j], cl.outcome(es[j]).value))
  {
    if cl.outcome(es[j]).None? {
      IncludedRowsAt(es, |es|, cl, j);
    } else {
      ExcludedRowsAt(es, |es|, cl, j);
    }
  }

  datatype PublicError =
    | MissingCredentials              // 500 "Missing SYS_API_USER / SYS_API_PASS"
    | SyscaraStatus(status: int, message: string)
    | InvalidJson(raw: string)

  /**
    The request: credentials, the Syscara status (`status` when not OK) and
    body text, `JSON.parse` of the text, and the entries of the parsed
    data (`Object.entries(data || {})`).
  */
  method Handler(user: string, pass: string, ok: bool, status: int, text: string,
                 parse: string -> Option<Value>, entries: Value -> seq<Entry>, c: Coercions)
    returns (r: Result<Report, PublicError>)
    ensures user == "" || pass == "" ==> r == Failure(MissingCredentials)
    ensures user != "" && pass != "" && !ok ==> r == Failure(SyscaraStatus(status, text))
    ensures user != "" && pass != "" && ok && parse(text).None? ==> r == Failure(InvalidJson(text))
    ensures r.Success? <==> user != "" && pass != "" && ok && parse(text).Some?
    ensures r.Success? ==> r.value == Expected(entries(Or(parse(text).value, Obj(map[]))), Rules(c))
  {
    if user == "" || pass == "" {
      return Failure(MissingCredentials);
    }
    if !ok {
      return Failure(SyscaraStatus(status, text));
    }
    var data := parse(text);
    if data.None? {
      return Failure(InvalidJson(text));
    }
    var rep := Scan(entries(Or(data.value, Obj(map[]))), Rules(c));
    r := Success(rep);
  }
}
