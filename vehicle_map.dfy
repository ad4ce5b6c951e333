/**
  `mapVehicle` (libs/map.js): one Syscara ad in, the flat set of Webflow
  CMS fields out, wrapped as `{ originalId, mapped }`. Any exception
  inside the mapping yields `null` (None here). The exceptions that can
  actually happen are: reading a property of a `null`/`undefined` ad,
  calling `.filter` on a truthy `media` value that is not an array, and
  reading `group` of a `null`/`undefined` media entry.
*/
module VehicleMap {
  import opened Wrappers
  import opened JsValue
  import Slug

  /** At most this many images go into the gallery (libs/map.js:47). */
  const GalleryCap: nat := 25

  datatype Mapped = Mapped(
    name: string,
    slug: string,
    hersteller: Value,
    serie: Value,
    modell: Value,
    modellZusatz: Value,
    zustand: Value,
    fahrzeugart: Value,
    fahrzeugtyp: Value,
    ps: Value,
    kw: Value,
    kraftstoff: Value,
    getriebe: Value,
    beschreibung: Value,
    beschreibungKurz: Value,
    kilometer: Value,
    baujahr: Value,
    preis: Value,
    breite: Value,
    hoehe: Value,
    laenge: Value,
    geraetId: string,
    hauptbild: Value,
    galerie: seq<Value>)

  datatype MapResult = MapResult(originalId: Value, mapped: Mapped)

  /** Whitespace removed by `String.prototype.trim` (ASCII part). */
  predicate IsSpace(c: char) {
    c == ' ' || c == '\t' || c == '\n' || c == '\r' || c == '\U{000B}' || c == '\U{000C}'
  }

  function TrimStart(s: string): (r: string)
    ensures r == [] || !IsSpace(r[0])
    ensures |r| <= |s| && r == s[|s| - |r|..]
    decreases |s|
  {
    if s != [] && IsSpace(s[0]) then TrimStart(s[1..]) else s
  }

  function TrimEnd(s: string): (r: string)
    ensures r == [] || !IsSpace(r[|r| - 1])
    ensures |r| <= |s| && r == s[..|r|]
    decreases |s|
  {
    if s != [] && IsSpace(s[|s| - 1]) then TrimEnd(s[..|s| - 1]) else s
  }

  /** `s.trim()` */
  function Trim(s: string): string {
    TrimEnd(TrimStart(s))
  }

  /** `media.filter(m => m.group === "image" && m.type === "upload").map(m => m.id)` */
  function ImageIds(media: seq<Value>): (r: seq<Value>)
    ensures |r| <= |media|
    decreases |media|
  {
    if media == [] then []
    else
      (if IsUploadedImage(media[0]) then [Field(media[0], "id")] else [])
      + ImageIds(media[1..])
  }

  predicate IsUploadedImage(m: Value) {
    Field(m, "group") == Str("image") && Field(m, "type") == Str("upload")
  }

  /** The lookup table `{ NEW: "Neu", USED: "Gebraucht", BE: "Gebraucht" }[key]`. */
  function ConditionTable(key: string): Value {
    if key == "NEW" then Str("Neu")
    else if key == "USED" || key == "BE" then Str("Gebraucht")
    else Undefined
  }

  /** `{ ... }[condition] || condition || ""` */
  function Zustand(condition: Value): Value {
    Or(Or(ConditionTable(ToStr(condition)), condition), Str(""))
  }

  /** The chained conditional on `sys.type` (libs/map.js:25-28). */
  function Fahrzeugart(t: Value): Value {
    if t == Str("Caravan") then Str("Caravan")
    else if t == Str("Reisemobil") then Str("Reisemobil")
    else Or(t, Str(""))
  }

  /** `${model.producer || "fahrzeug"}-${model.model || ""}-${id}` before normalising. */
  function SlugSource(model: Value, id: Value): string {
    ToStr(Or(Field(model, "producer"), Str("fahrzeug"))) + "-" + ToStr(Or(Field(model, "model"), Str(""))) + "-" + ToStr(id)
  }

  /** `${model.producer || ""} ${model.series || ""} ${model.model || ""}`.trim() */
  function Name(model: Value): string {
    Trim(ToStr(Or(Field(model, "producer"), Str(""))) + " "
      + ToStr(Or(Field(model, "series"), Str(""))) + " "
      + ToStr(Or(Field(model, "model"), Str(""))))
  }

  /** `media` can be filtered: it is an array without null/undefined entries. */
  predicate MediaUsable(media: Value) {
    media.Arr? && forall i :: 0 <= i < |media.items| ==> !Nullish(media.items[i])
  }

  function MediaOf(sys: Value): Value {
    Or(Field(sys, "media"), Arr([]))
  }

  /** `mapVehicle(sys)`; None stands for the `null` returned from the catch block. */
  function MapVehicle(sys: Value): (r: Option<MapResult>)
    ensures r.None? <==> Nullish(sys) || !MediaUsable(MediaOf(sys))
    ensures r.Some? ==> Slug.IsSlug(r.value.mapped.slug)
    ensures r.Some? ==> r.value.originalId == Field(sys, "id") && r.value.mapped.geraetId == ToStr(Field(sys, "id"))
    ensures r.Some? ==> |r.value.mapped.galerie| <= GalleryCap
  {
    if Nullish(sys) || !MediaUsable(MediaOf(sys)) then None
    else Some(MapResult(Field(sys, "id"), Fields(sys)))
  }

  /** The literal `mapped` object, for an ad on which nothing throws. */
  function Fields(sys: Value): Mapped
    requires !Nullish(sys) && MediaUsable(MediaOf(sys))
  {
    var id := Field(sys, "id");
    var model := Or(Field(sys, "model"), Obj(map[]));
    var engine := Or(Field(sys, "engine"), Obj(map[]));
    var dims := Or(Field(sys, "dimensions"), Obj(map[]));
    var prices := Or(Field(sys, "prices"), Obj(map[]));
    var texts := Field(sys, "texts");
    var imageIds := ImageIds(MediaOf(sys).items);
    Mapped(
      name := Name(model),
      slug := Slug.Slugify(SlugSource(model, id)),
      hersteller := Or(Field(model, "producer"), Str("")),
      serie := Or(Field(model, "series"), Str("")),
      modell := Or(Field(model, "model"), Str("")),
      modellZusatz := Or(Field(model, "model_add"), Str("")),
      zustand := Zustand(Field(sys, "condition")),
      fahrzeugart := Fahrzeugart(Field(sys, "type")),
      fahrzeugtyp := Or(Field(sys, "typeof"), Str("")),
      ps := Or(Field(engine, "ps"), Str("")),
      kw := Or(Field(engine, "kw"), Str("")),
      kraftstoff := Or(Field(engine, "fuel"), Str("")),
      getriebe := Or(Field(engine, "gear"), Str("")),
      beschreibung := Or(OptProp(texts, "description"), Str("")),
      beschreibungKurz := Or(OptProp(texts, "description_plain"), Str("")),
      kilometer := Or(Field(sys, "mileage"), Str("")),
      baujahr := Or(Field(model, "modelyear"), Str("")),
      preis := Or(Or(Field(prices, "offer"), Field(prices, "basic")), Str("")),
      breite := Or(Field(dims, "width"), Str("")),
      hoehe := Or(Field(dims, "height"), Str("")),
      laenge := Or(LengthProp(dims), Str("")),
      geraetId := ToStr(id),
      hauptbild := if |imageIds| > 0 then imageIds[0] else Str(""),
      galerie := if |imageIds| <= GalleryCap then imageIds else imageIds[..GalleryCap])
  }

  /** The record as the JavaScript object `mapVehicle` returns. */
  function AsObject(m: Mapped): map<string, Value> {
    map[
      "name" := Str(m.name), "slug" := Str(m.slug),
      "hersteller" := m.hersteller, "serie" := m.serie, "modell" := m.modell,
      "modell_zusatz" := m.modellZusatz, "zustand" := m.zustand,
      "fahrzeugart" := m.fahrzeugart, "fahrzeugtyp" := m.fahrzeugtyp,
      "ps" := m.ps, "kw" := m.kw, "kraftstoff" := m.kraftstoff, "getriebe" := m.getriebe,
      "beschreibung" := m.beschreibung, "beschreibung_kurz" := m.beschreibungKurz,
      "kilometer" := m.kilometer, "baujahr" := m.baujahr, "preis" := m.preis,
      "breite" := m.breite, "hoehe" := m.hoehe, "laenge" := m.laenge,
      "geraet_id" := Str(m.geraetId), "hauptbild" := m.hauptbild, "galerie" := Arr(m.galerie)]
  }

  /** `{ originalId, mapped }` as a JavaScript object. */
  function AsJs(r: MapResult): Value {
    Obj(map["originalId" := r.originalId, "mapped" := Obj(AsObject(r.mapped))])
  }

  /** Seen as a plain object, the record carries the device id under `geraet_id`. */
  lemma FlatId(m: Mapped)
    ensures Field(Obj(AsObject(m)), "geraet_id") == Str(m.geraetId)
  {
  }

  /** The wrapper has no record field of its own: `geraet_id` is only inside `mapped`. */
  lemma WrapperHasNoId(r: MapResult)
    ensures Field(AsJs(r), "geraet_id") == Undefined
    ensures Field(Field(AsJs(r), "mapped"), "geraet_id") == Str(r.mapped.geraetId)
  {
  }

  // ---------------------------------------------------------------------
  // Properties
  // ---------------------------------------------------------------------

  /** Image selection keeps exactly the uploaded images, in their order. */
  lemma {:induction false} ImageIdsMembers(media: seq<Value>, x: Value)
    ensures x in ImageIds(media) <==> exists i :: 0 <= i < |media| && IsUploadedImage(media[i]) && Field(media[i], "id") == x
    decreases |media|
  {
    if media != [] {
      ImageIdsMembers(media[1..], x);
      if exists i :: 0 <= i < |media| && IsUploadedImage(media[i]) && Field(media[i], "id") == x {
        var i :| 0 <= i < |media| && IsUploadedImage(media[i]) && Field(media[i], "id") == x;
        if i > 0 {
          assert media[1..][i - 1] == media[i];
        }
      }
      if x in ImageIds(media[1..]) {
        var i :| 0 <= i < |media[1..]| && IsUploadedImage(media[1..][i]) && Field(media[1..][i], "id") == x;
        assert media[i + 1] == media[1..][i];
      }
    }
  }

  /**
    The gallery is the first (at most 25) selected images, and the main
    image is the gallery's first entry, or "" when there is no image.
  */
  lemma Images(sys: Value)
    requires MapVehicle(sys).Some?
    ensures var m := MapVehicle(sys).value.mapped;
      var ids := ImageIds(MediaOf(sys).items);
      && |m.galerie| <= GalleryCap
      && |m.galerie| == (if |ids| < GalleryCap then |ids| else GalleryCap)
      && m.galerie == ids[..|m.galerie|]
      && (m.galerie != [] ==> m.hauptbild == m.galerie[0])
      && (m.galerie == [] ==> m.hauptbild == Str("") && ids == [])
  {
  }

  /** Every gallery entry is the id of an uploaded image of the ad. */
  lemma GalleryFromUploads(sys: Value, k: nat)
    requires MapVehicle(sys).Some?
    requires k < |MapVehicle(sys).value.mapped.galerie|
    ensures exists i :: (0 <= i < |MediaOf(sys).items|
      && IsUploadedImage(MediaOf(sys).items[i])
      && Field(MediaOf(sys).items[i], "id") == MapVehicle(sys).value.mapped.galerie[k])
  {
    var media := MediaOf(sys).items;
    var ids := ImageIds(media);
    var g := MapVehicle(sys).value.mapped.galerie;
    Images(sys);
    assert g[k] == ids[k];
    ImageIdsMembers(media, ids[k]);
  }

  /** The condition table: NEW, USED and BE are translated, anything else passes through, falsy becomes "". */
  lemma ZustandCases(c: Value)
    ensures c == Str("NEW") ==> Zustand(c) == Str("Neu")
    ensures c == Str("USED") || c == Str("BE") ==> Zustand(c) == Str("Gebraucht")
    ensures ConditionTable(ToStr(c)) == Undefined ==> Zustand(c) == Or(c, Str(""))
    ensures !Truthy(c) ==> Zustand(c) == Str("")
  {
  }

  /** The type ladder changes nothing: it is `type || ""`. */
  lemma FahrzeugartIsFallback(t: Value)
    ensures Fahrzeugart(t) == Or(t, Str(""))
  {
  }

  /** The ad's id is kept twice: raw as `originalId`, and as `String(id)` in `geraet_id`. */
  lemma Ids(sys: Value)
    requires MapVehicle(sys).Some?
    ensures MapVehicle(sys).value.originalId == Field(sys, "id")
    ensures MapVehicle(sys).value.mapped.geraetId == ToStr(Field(sys, "id"))
  {
  }

  /** `preis` is the offer price, else the base price, else "". */
  lemma Price(sys: Value)
    requires MapVehicle(sys).Some?
    ensures var prices := Or(Field(sys, "prices"), Obj(map[]));
      var p := MapVehicle(sys).value.mapped.preis;
      && (Truthy(Field(prices, "offer")) ==> p == Field(prices, "offer"))
      && (!Truthy(Field(prices, "offer")) && Truthy(Field(prices, "basic")) ==> p == Field(prices, "basic"))
      && (!Truthy(Field(prices, "offer")) && !Truthy(Field(prices, "basic")) ==> p == Str(""))
  {
  }

  /** A value produced by `x || ""`: never falsy unless it is the empty string. */
  predicate Filled(v: Value) {
    Truthy(v) || v == Str("")
  }

  /** `x || y` is filled whenever the fallback `y` is. */
  lemma OrFilled(x: Value, y: Value)
    requires Filled(y)
    ensures Filled(Or(x, y))
  {
  }

  /** No mapped field filled through `|| ""` is ever `null`, `undefined`, `0` or `false`. */
  lemma FallbacksFilled(sys: Value)
    requires MapVehicle(sys).Some?
    ensures var m := MapVehicle(sys).value.mapped;
      && Filled(m.hersteller) && Filled(m.serie) && Filled(m.modell) && Filled(m.modellZusatz)
      && Filled(m.zustand) && Filled(m.fahrzeugart) && Filled(m.fahrzeugtyp)
      && Filled(m.ps) && Filled(m.kw) && Filled(m.kraftstoff) && Filled(m.getriebe)
      && Filled(m.beschreibung) && Filled(m.beschreibungKurz) && Filled(m.kilometer)
      && Filled(m.baujahr) && Filled(m.preis) && Filled(m.breite) && Filled(m.hoehe) && Filled(m.laenge)
  {
    forall x: Value
      ensures Filled(Or(x, Str("")))
    {
      OrFilled(x, Str(""));
    }
  }

  /**
    The measurements are read from `dimensions || {}`: a plain object gives
    its `width`, `height` and `length`, while an array or a string has no
    width or height but does have a length, which becomes `laenge` unless
    it is 0.
  */
  lemma Dimensions(sys: Value)
    requires MapVehicle(sys).Some?
    ensures var d := Field(sys, "dimensions");
      var m := MapVehicle(sys).value.mapped;
      && (d.Obj? ==> (m.breite == Or(Lookup(d.fields, "width"), Str(""))
                      && m.hoehe == Or(Lookup(d.fields, "height"), Str(""))
                      && m.laenge == Or(Lookup(d.fields, "length"), Str(""))))
      && (d.Arr? ==> (m.breite == Str("") && m.hoehe == Str("")
                      && m.laenge == (if d.items == [] then Str("") else Num(|d.items|))))
      && (d.Str? && d.s != "" ==> m.breite == Str("") && m.hoehe == Str("") && m.laenge == Num(|d.s|))
      && (!Truthy(d) ==> m.breite == Str("") && m.hoehe == Str("") && m.laenge == Str(""))
      && (d.Num? || d.Bool? ==> m.breite == Str("") && m.hoehe == Str("") && m.laenge == Str(""))
  {
    var dims := Or(Field(sys, "dimensions"), Obj(map[]));
    var m := Fields(sys);
    assert m.breite == Or(Field(dims, "width"), Str(""));
    assert m.hoehe == Or(Field(dims, "height"), Str(""));
    assert m.laenge == Or(LengthProp(dims), Str(""));
    Measurements(Field(sys, "dimensions"));
  }

  /** The three measurements of `dimensions || {}`, by the kind of value `dimensions` is. */
  lemma Measurements(d: Value)
    ensures var dims := Or(d, Obj(map[]));
      var breite := Or(Field(dims, "width"), Str(""));
      var hoehe := Or(Field(dims, "height"), Str(""));
      var laenge := Or(LengthProp(dims), Str(""));
      && (d.Obj? ==> (breite == Or(Lookup(d.fields, "width"), Str(""))
                      && hoehe == Or(Lookup(d.fields, "height"), Str(""))
                      && laenge == Or(Lookup(d.fields, "length"), Str(""))))
      && (d.Arr? ==> (breite == Str("") && hoehe == Str("")
                      && laenge == (if d.items == [] then Str("") else Num(|d.items|))))
      && (d.Str? && d.s != "" ==> breite == Str("") && hoehe == Str("") && laenge == Num(|d.s|))
      && (!Truthy(d) ==> breite == Str("") && hoehe == Str("") && laenge == Str(""))
      && (d.Num? || d.Bool? ==> breite == Str("") && hoehe == Str("") && laenge == Str(""))
  {
  }

  /**
    A missing part still contributes its surrounding spaces: only the ends
    are trimmed, so producer and model with no series are joined by two
    spaces.
  */
  lemma NameKeepsInnerGap(model: Value, p: string, m: string)
    requires Field(model, "producer") == Str(p) && Field(model, "model") == Str(m)
    requires !Truthy(Field(model, "series"))
    requires p != [] && m != []
    requires !IsSpace(p[0]) && !IsSpace(m[|m| - 1])
    ensures Name(model) == p + "  " + m
  {
    var full := p + "  " + m;
    assert ToStr(Or(Field(model, "producer"), Str(""))) == p;
    assert ToStr(Or(Field(model, "series"), Str(""))) == "";
    assert ToStr(Or(Field(model, "model"), Str(""))) == m;
    assert p + " " + "" + " " + m == full;
    assert full[0] == p[0];
    assert TrimStart(full) == full;
    assert full[|full| - 1] == m[|m| - 1];
    assert TrimEnd(full) == full;
  }

  /** The name joins producer, series and model with single spaces when all three are plain words. */
  lemma NameOfWords(model: Value, p: string, s: string, m: string)
    requires Field(model, "producer") == Str(p) && Field(model, "series") == Str(s) && Field(model, "model") == Str(m)
    requires p != [] && s != [] && m != []
    requires !IsSpace(p[0]) && !IsSpace(m[|m| - 1])
    ensures Name(model) == p + " " + s + " " + m
  {
    var full := p + " " + s + " " + m;
    assert ToStr(Or(Field(model, "producer"), Str(""))) == p;
    assert ToStr(Or(Field(model, "series"), Str(""))) == s;
    assert ToStr(Or(Field(model, "model"), Str(""))) == m;
    assert full[0] == p[0];
    assert TrimStart(full) == full;
    assert full[|full| - 1] == m[|m| - 1];
    assert TrimEnd(full) == full;
  }

}
