/** The product catalog: normalisation of submitted form data, the checks
    and defaults of product creation, the URL-id override of product update,
    and the availability filter applied to non-admin listings. */
module Products {
  import opened Wrappers
  import opened Strings
  import opened Js
  import opened Identity
  import opened Seqs

  /** A stored catalog product, as the order and listing handlers read it. */
  datatype Product = Product(productId: string, name: string, images: seq<string>, price: real, isAvailable: bool)

  /** The body fields the product handlers read by name; any other field
      is `Other(name)`. */
  datatype Key = ProductId | Name | Description | Category | LabellPrice | Price | Stock
               | IsAvailable | AltNamesKey | Images | Other(name: string)

  /** A submitted product body: field to value. */
  type Form = map<Key, Value>

  /** `data[k]`, which is `undefined` for a missing key. */
  function Field(d: Form, k: Key): Value {
    if k in d then d[k] else Undefined
  }

  /** Every piece trimmed, in order. */
  function TrimAll(parts: seq<string>): (r: seq<string>)
    ensures |r| == |parts| && forall i :: 0 <= i < |parts| ==> r[i] == Trim(parts[i])
  {
    if |parts| == 0 then [] else [Trim(parts[0])] + TrimAll(parts[1..])
  }

  /** `.filter(Boolean)` on strings: the non-empty ones, in order. */
  function NonBlank(xs: seq<string>): (r: seq<string>)
    ensures forall x :: x in r <==> x in xs && x != []
  {
    Keep(xs, (x: string) => x != [])
  }

  /** The alias list parsed from a comma-separated string: the trimmed
      non-blank pieces between commas. */
  function AltNames(s: string): (names: seq<string>)
    ensures forall x :: x in names <==> x != [] && x in TrimAll(Split(s, ','))
  {
    NonBlank(TrimAll(Split(s, ',')))
  }

  /** For a string written as comma-free pieces joined by commas, the
      aliases are those pieces trimmed, blank ones dropped, in order and
      with repetitions; so the aliases of `a,b` are those of `a` followed by
      those of `b`. */
  lemma AltNamesOfJoin(parts: seq<string>)
    requires |parts| >= 1 && forall p :: p in parts ==> ',' !in p
    ensures AltNames(Join(parts, ',')) == NonBlank(TrimAll(parts))
  {
    SplitJoin(parts, ',');
  }

  /** The aliases of a comma-free string: its trimmed self, unless blank. */
  lemma AltNamesOfPiece(s: string)
    requires ',' !in s
    ensures AltNames(s) == if Trim(s) != [] then [Trim(s)] else []
  {
    AltNamesOfJoin([s]);
    assert TrimAll([s]) == [Trim(s)];
    KeepSingle(Trim(s), (x: string) => x != []);
  }

  /** Every alias is non-empty, has no blank at either end and holds no comma. */
  lemma AltNamesClean(s: string)
    ensures forall x :: x in AltNames(s) ==> x != [] && !IsSpace(x[0]) && !IsSpace(x[|x| - 1]) && ',' !in x
  {
    var parts := Split(s, ',');
    var ts := TrimAll(parts);
    forall x | x in AltNames(s) ensures x != [] && !IsSpace(x[0]) && !IsSpace(x[|x| - 1]) && ',' !in x {
      var i :| 0 <= i < |ts| && ts[i] == x;
      assert parts[i] in parts;
      TrimKeepsAbsent(parts[i], ',');
    }
  }

  /** The strings as JSON string values, in order. */
  function StrList(names: seq<string>): (r: Value)
    ensures r.Arr? && |r.elems| == |names|
    ensures forall i :: 0 <= i < |names| ==> r.elems[i] == Str(names[i])
  {
    if |names| == 0 then Arr([])
    else Arr([Str(names[0])] + StrList(names[1..]).elems)
  }

  /** The value field `k` holds after `normalizeProductData` when it was
      sent as `v` (`Undefined` when absent): the three numeric fields become
      numbers (possibly NaN) when present; a string `isAvailable` becomes the
      boolean "its lower case is 'true'"; a string `altNames` becomes its
      trimmed non-blank comma-separated pieces; `altNames` and `images`
      always end up arrays; every other field is left as sent. */
  function NormalizeValue(k: Key, v: Value, parse: string -> Numeric): Value {
    match k
    case LabellPrice => if v == Undefined then Undefined else Num(ToNumber(v, parse))
    case Price => if v == Undefined then Undefined else Num(ToNumber(v, parse))
    case Stock => if v == Undefined then Undefined else Num(ToNumber(v, parse))
    case IsAvailable => if v.Str? then Bool(Lower(v.s) == "true") else v
    case AltNamesKey => if v.Str? then StrList(AltNames(v.s)) else if v.Arr? then v else Arr([])
    case Images => if v.Arr? then v else Arr([])
    case _ => v
  }

  /** The normalised value of field `k` of a body. */
  function Normalized(raw: Form, k: Key, parse: string -> Numeric): Value {
    NormalizeValue(k, Field(raw, k), parse)
  }

  /** `normalizeProductData`: the sent fields plus `altNames` and
      `images`, each holding its normalised value. */
  function Normalize(raw: Form, parse: string -> Numeric): (d: Form)
    ensures d.Keys == raw.Keys + {AltNamesKey, Images}
    ensures forall k :: Field(d, k) == Normalized(raw, k, parse)
  {
    map k | k in raw.Keys + {AltNamesKey, Images} :: Normalized(raw, k, parse)
  }

  /** The field rules of `normalizeProductData`, stated on the result. */
  lemma NormalizeRules(raw: Form, parse: string -> Numeric)
    ensures var d := Normalize(raw, parse);
      forall k :: k == LabellPrice || k == Price || k == Stock ==>
        Field(d, k) == if Field(raw, k) == Undefined then Undefined else Num(ToNumber(Field(raw, k), parse))
    ensures var d := Normalize(raw, parse);
      && (Field(raw, IsAvailable).Str? ==> Field(d, IsAvailable) == Bool(Lower(Field(raw, IsAvailable).s) == "true"))
      && (!Field(raw, IsAvailable).Str? ==> Field(d, IsAvailable) == Field(raw, IsAvailable))
    ensures var d := Normalize(raw, parse);
      && Field(d, AltNamesKey).Arr? && Field(d, Images).Arr?
      && (Field(raw, AltNamesKey).Str? ==> Field(d, AltNamesKey) == StrList(AltNames(Field(raw, AltNamesKey).s)))
      && (Field(raw, AltNamesKey).Arr? ==> Field(d, AltNamesKey) == Field(raw, AltNamesKey))
      && (Field(raw, Images).Arr? ==> Field(d, Images) == Field(raw, Images))
    ensures var d := Normalize(raw, parse);
      forall k :: k in {ProductId, Name, Description, Category} || k.Other? ==> Field(d, k) == Field(raw, k)
  {
  }

  /** Normalising a field twice gives what normalising it once gives. */
  lemma NormalizeValueStable(k: Key, v: Value, parse: string -> Numeric)
    ensures NormalizeValue(k, NormalizeValue(k, v, parse), parse) == NormalizeValue(k, v, parse)
  {
    match k
    case LabellPrice => NumberStable(k, v, parse);
    case Price => NumberStable(k, v, parse);
    case Stock => NumberStable(k, v, parse);
    case IsAvailable => AvailabilityStable(v, parse);
    case AltNamesKey => AliasesStable(v, parse);
    case Images =>
    case Other(_) =>
    case ProductId =>
    case Name =>
    case Description =>
    case Category =>
  }

  lemma NumberStable(k: Key, v: Value, parse: string -> Numeric)
    requires k == LabellPrice || k == Price || k == Stock
    ensures NormalizeValue(k, NormalizeValue(k, v, parse), parse) == NormalizeValue(k, v, parse)
  {
    if v != Undefined {
      var n := ToNumber(v, parse);
      assert NormalizeValue(k, v, parse) == Num(n);
      assert ToNumber(Num(n), parse) == n;
    }
  }

  lemma AvailabilityStable(v: Value, parse: string -> Numeric)
    ensures NormalizeValue(IsAvailable, NormalizeValue(IsAvailable, v, parse), parse) == NormalizeValue(IsAvailable, v, parse)
  {
  }

  lemma AliasesStable(v: Value, parse: string -> Numeric)
    ensures NormalizeValue(AltNamesKey, NormalizeValue(AltNamesKey, v, parse), parse) == NormalizeValue(AltNamesKey, v, parse)
  {
    match v
    case Str(t) =>
      var w := StrList(AltNames(t));
      assert NormalizeValue(AltNamesKey, v, parse) == w;
      ArrayKept(w, parse);
    case Arr(_) =>
      ArrayKept(v, parse);
    case _ =>
      assert NormalizeValue(AltNamesKey, v, parse) == Arr([]);
      ArrayKept(Arr([]), parse);
  }

  lemma ArrayKept(w: Value, parse: string -> Numeric)
    requires w.Arr?
    ensures NormalizeValue(AltNamesKey, w, parse) == w
  {
  }

  lemma NormalizedStable(raw: Form, k: Key, parse: string -> Numeric)
    ensures Normalized(Normalize(raw, parse), k, parse) == Normalized(raw, k, parse)
  {
    assert Field(Normalize(raw, parse), k) == NormalizeValue(k, Field(raw, k), parse);
    NormalizeValueStable(k, Field(raw, k), parse);
  }

  /** Normalising an already normalised body changes nothing. */
  lemma NormalizeIdempotent(raw: Form, parse: string -> Numeric)
    ensures Normalize(Normalize(raw, parse), parse) == Normalize(raw, parse)
  {
    var d := Normalize(raw, parse);
    var e := Normalize(d, parse);
    assert e.Keys == d.Keys;
    forall k | k in d ensures e[k] == d[k] {
      assert Field(e, k) == Normalized(d, k, parse);
      NormalizedStable(raw, k, parse);
    }
  }

  /** A non-empty alias with no blank at either end and no comma. */
  predicate CleanAlias(v: Value) {
    v.Str? && v.s != [] && !IsSpace(v.s[0]) && !IsSpace(v.s[|v.s| - 1]) && ',' !in v.s
  }

  lemma AliasListClean(s: string)
    ensures forall i :: 0 <= i < |StrList(AltNames(s)).elems| ==> CleanAlias(StrList(AltNames(s)).elems[i])
  {
    var names := AltNames(s);
    var a := StrList(names);
    AltNamesClean(s);
    forall i | 0 <= i < |a.elems| ensures CleanAlias(a.elems[i]) {
      assert a.elems[i] == Str(names[i]) && names[i] in names;
    }
  }

  /** After normalisation the alias list is an array, and one parsed from a
      string holds only non-empty, edge-trimmed, comma-free aliases. */
  lemma NormalizedAltNamesClean(raw: Form, parse: string -> Numeric)
    ensures Field(Normalize(raw, parse), AltNamesKey).Arr?
    ensures Field(raw, AltNamesKey).Str? ==>
      var a := Field(Normalize(raw, parse), AltNamesKey);
      forall i :: 0 <= i < |a.elems| ==> CleanAlias(a.elems[i])
  {
    var v := Field(raw, AltNamesKey);
    assert Field(Normalize(raw, parse), AltNamesKey) == NormalizeValue(AltNamesKey, v, parse);
    if v.Str? {
      AliasListClean(v.s);
    }
  }

  /** A product reply: status, the missing field for a 400, the document. */
  datatype ProductReply = ProductReply(status: int, missing: Option<Key>, doc: Option<Form>)

  /** The presence checks of product creation, in order. */
  const Required: seq<Key> := [ProductId, Name, Description, Category]

  /** The first key, in order, whose field is falsy. */
  function FirstMissing(d: Form, keys: seq<Key>): (r: Option<Key>)
    ensures r.Some? ==> r.value in keys && !Truthy(Field(d, r.value))
    ensures r.Some? ==> exists i :: 0 <= i < |keys| && keys[i] == r.value &&
                                    forall j :: 0 <= j < i ==> Truthy(Field(d, keys[j]))
    ensures r.None? <==> forall k :: k in keys ==> Truthy(Field(d, k))
  {
    if |keys| == 0 then None
    else if !Truthy(Field(d, keys[0])) then Some(keys[0])
    else
      assert forall k :: k in keys <==> k == keys[0] || k in keys[1..];
      var r := FirstMissing(d, keys[1..]);
      if r.Some? then
        var i :| 0 <= i < |keys[1..]| && keys[1..][i] == r.value &&
                 forall j :: 0 <= j < i ==> Truthy(Field(d, keys[1..][j]));
        assert keys[i + 1] == r.value && forall j :: 0 <= j < i + 1 ==> Truthy(Field(d, keys[j]));
        r
      else r
  }

  /** The checks and defaults `createProduct` applies to a normalised
      body: a falsy productId, name, description or category is a 400 naming
      the first such field; a NaN price or label price is a 400; otherwise a
      NaN stock becomes 0, a non-boolean `isAvailable` becomes true, and the
      document is accepted with every other field as normalised. */
  function Complete(d: Form): (r: ProductReply)
    ensures r.status == 200 || r.status == 400
    ensures r.status == 200 <==> r.doc.Some?
    ensures r.status == 200 <==>
      && (forall k :: k in Required ==> Truthy(Field(d, k)))
      && Field(d, Price) != Num(NaN) && Field(d, LabellPrice) != Num(NaN)
    ensures r.missing.Some? ==> r.missing.value in Required && !Truthy(Field(d, r.missing.value))
    ensures (exists k :: k in Required && !Truthy(Field(d, k))) ==> r.missing.Some?
    ensures r.missing == FirstMissing(d, Required)
    ensures r.status == 200 ==>
      var doc := r.doc.value;
      && Field(doc, Stock) != Num(NaN)
      && Field(doc, IsAvailable).Bool?
      && (Field(d, Stock) != Num(NaN) ==> Field(doc, Stock) == Field(d, Stock))
      && (Field(d, IsAvailable).Bool? ==> Field(doc, IsAvailable) == Field(d, IsAvailable))
      && (forall k :: k != Stock && k != IsAvailable ==> Field(doc, k) == Field(d, k))
  {
    match FirstMissing(d, Required)
    case Some(k) => ProductReply(400, Some(k), None)
    case None =>
      if Field(d, LabellPrice) == Num(NaN) || Field(d, Price) == Num(NaN) then ProductReply(400, None, None)
      else ProductReply(200, None, Some(Defaults(d)))
  }

  /** The defaults of product creation: a NaN stock becomes 0 and a
      non-boolean `isAvailable` becomes true; nothing else changes. */
  function Defaults(d: Form): (doc: Form)
    ensures doc.Keys == d.Keys + {IsAvailable}
    ensures Field(doc, Stock) == if Field(d, Stock) == Num(NaN) then Num(Fin(0.0)) else Field(d, Stock)
    ensures Field(doc, IsAvailable) == if Field(d, IsAvailable).Bool? then Field(d, IsAvailable) else Bool(true)
    ensures forall k :: k != Stock && k != IsAvailable ==> Field(doc, k) == Field(d, k)
  {
    var d1 := if Field(d, Stock) == Num(NaN) then d[Stock := Num(Fin(0.0))] else d;
    if !Field(d1, IsAvailable).Bool? then d1[IsAvailable := Bool(true)] else d1
  }

  lemma DefaultsIdempotent(d: Form)
    ensures Defaults(Defaults(d)) == Defaults(d)
  {
    var doc := Defaults(d);
    var again := Defaults(doc);
    assert again.Keys == doc.Keys;
    forall k | k in doc ensures again[k] == doc[k] {
      assert Field(again, k) == Field(doc, k);
    }
  }

  /** An accepted document passes the checks again unchanged. */
  lemma CompleteIdempotent(d: Form)
    requires Complete(d).status == 200
    ensures Complete(Complete(d).doc.value) == Complete(d)
  {
    var doc := Defaults(d);
    assert Complete(d).doc.value == doc;
    assert forall k :: k in Required ==> Field(doc, k) == Field(d, k);
    assert FirstMissing(doc, Required) == None;
    DefaultsIdempotent(d);
  }

  /** `createProduct`: a non-admin gets 403; an admin's body is normalised
      and then checked and completed as in `Complete`. */
  function CreateProduct(user: Option<Claims>, body: Form, parse: string -> Numeric): (r: ProductReply)
    ensures !IsAdmin(user) ==> r.status == 403 && r.doc.None?
    ensures IsAdmin(user) ==> r == Complete(Normalize(body, parse))
  {
    if !IsAdmin(user) then ProductReply(403, None, None)
    else Complete(Normalize(body, parse))
  }

  /** `updateProduct`: a non-admin gets 403; the product id in the URL
      replaces any in the body; no product with that id is a 404; otherwise
      the document applied is the normalised body with the URL id. */
  function UpdateProduct(user: Option<Claims>, urlId: string, body: Form, catalog: seq<Product>,
                         parse: string -> Numeric): (r: ProductReply)
    ensures !IsAdmin(user) ==> r.status == 403 && r.doc.None?
    ensures r.status == 200 <==> IsAdmin(user) && exists i :: 0 <= i < |catalog| && catalog[i].productId == urlId
    ensures IsAdmin(user) && r.status != 200 ==> r.status == 404
    ensures r.status == 200 ==> r.doc.Some? && Field(r.doc.value, ProductId) == Str(urlId)
    ensures r.status == 200 ==> forall k :: k != ProductId ==> Field(r.doc.value, k) == Normalized(body, k, parse)
  {
    if !IsAdmin(user) then ProductReply(403, None, None)
    else if exists i :: 0 <= i < |catalog| && catalog[i].productId == urlId then
      ProductReply(200, None, Some(Normalize(body[ProductId := Str(urlId)], parse)))
    else ProductReply(404, None, None)
  }

  /** Whatever product id the body carries, the update writes the same
      document: the URL id wins. */
  lemma UpdateIgnoresBodyId(user: Option<Claims>, urlId: string, body: Form, v: Value,
                            catalog: seq<Product>, parse: string -> Numeric)
    ensures UpdateProduct(user, urlId, body[ProductId := v], catalog, parse)
         == UpdateProduct(user, urlId, body, catalog, parse)
  {
    assert body[ProductId := v][ProductId := Str(urlId)] == body[ProductId := Str(urlId)];
  }

  /** The `includeUnavailable` query flag: "true" in any letter case. */
  predicate IncludeUnavailable(q: Option<string>) {
    Filled(q) && Lower(q.value) == "true"
  }

  /** Whether a listing is restricted to available products. */
  predicate AvailableOnly(user: Option<Claims>, q: Option<string>) {
    !IsAdmin(user) && !IncludeUnavailable(q)
  }

  /** The available products of a catalog, in catalog order. */
  function Available(catalog: seq<Product>): (r: seq<Product>)
    ensures forall p :: p in r <==> p in catalog && p.isAvailable
  {
    Keep(catalog, (p: Product) => p.isAvailable)
  }

  /** `getProducts`: an admin, or a request with the flag, sees the whole
      catalog; anybody else sees exactly the available products, in catalog
      order. */
  function ListProducts(user: Option<Claims>, catalog: seq<Product>, q: Option<string>): (r: seq<Product>)
    ensures !AvailableOnly(user, q) ==> r == catalog
    ensures AvailableOnly(user, q) ==> r == Available(catalog)
    ensures forall p :: p in r <==> p in catalog && (AvailableOnly(user, q) ==> p.isAvailable)
  {
    if AvailableOnly(user, q) then Available(catalog) else catalog
  }

  /** The products `matches` accepts, in catalog order. */
  function Matching(catalog: seq<Product>, matches: Product -> bool): (r: seq<Product>)
    ensures forall p :: p in r <==> p in catalog && matches(p)
  {
    Keep(catalog, matches)
  }

  /** `searchProducts`: the products the text query matches (`matches`
      stands for the case-insensitive pattern test on name and aliases),
      under the same availability rule as the listing. */
  function SearchProducts(user: Option<Claims>, catalog: seq<Product>, q: Option<string>,
                          matches: Product -> bool): (r: seq<Product>)
    ensures forall p :: p in r <==> p in catalog && matches(p) && (AvailableOnly(user, q) ==> p.isAvailable)
  {
    ListProducts(user, Matching(catalog, matches), q)
  }

  /** A search answers exactly what the listing for the same caller and
      flag would show, narrowed to the matching products, in the same order. */
  lemma SearchIsFilteredListing(user: Option<Claims>, catalog: seq<Product>, q: Option<string>,
                                matches: Product -> bool)
    ensures SearchProducts(user, catalog, q, matches) == Matching(ListProducts(user, catalog, q), matches)
  {
    if AvailableOnly(user, q) {
      KeepCommute(catalog, matches, (p: Product) => p.isAvailable);
    }
  }
}
