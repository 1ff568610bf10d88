/**
 * The API server's in-memory document (`db.data`) and its route handlers.
 * Reading and writing the backing JSON file is not modelled: every handler
 * acts on the in-memory state. `Date.now()` and `Math.random()` are passed in.
 */
module Server {
  import opened Wrappers
  import opened Js
  import opened Text
  import Seqs

  /** An error response: HTTP status and the `error` message of its JSON body. */
  datatype HttpError = HttpError(status: nat, message: string)

  const NotFound := HttpError(404, "Not found")
  const NoFileUploaded := HttpError(400, "No file uploaded")

  /** The `{ success: true }` acknowledgement. */
  const Acknowledged: Record := map["success" := Bool(true)]

  /**
   * `{ id: Date.now().toString(), ...body }`: the generated id comes first, so an
   * `id` in the body wins.
   */
  function Stamped(now: nat, body: Record): (r: Record)
    ensures r.Keys == body.Keys + {"id"}
    ensures r["id"] == if "id" in body then body["id"] else Str(NatToString(now))
    ensures forall k :: k in body ==> r[k] == body[k]
  {
    Spread(map["id" := Str(NatToString(now))], body)
  }

  /** `p.id === id`: strict equality, so only a string id can match the route parameter. */
  predicate HasId(p: Record, id: string)
    ensures HasId(p, id) ==> Get(p, "id") == Str(id)
    ensures Get(p, "id").Num? ==> !HasId(p, id)
  {
    "id" in p && p["id"] == Str(id)
  }

  /** `products.findIndex(p => p.id === id)`. */
  function IndexOfId(products: seq<Record>, id: string): (i: int)
    ensures -1 <= i < |products|
    ensures i == -1 <==> forall j :: 0 <= j < |products| ==> !HasId(products[j], id)
    ensures 0 <= i ==> HasId(products[i], id) && forall j :: 0 <= j < i ==> !HasId(products[j], id)
  {
    Seqs.FindIndex(products, (p: Record) => HasId(p, id))
  }

  /** `products.filter(p => p.id !== id)`. */
  function WithoutId(products: seq<Record>, id: string): (r: seq<Record>)
    ensures forall i :: 0 <= i < |r| ==> r[i] in products && !HasId(r[i], id)
    ensures forall i :: 0 <= i < |products| && !HasId(products[i], id) ==> products[i] in r
    ensures forall x :: multiset(r)[x] == if HasId(x, id) then 0 else multiset(products)[x]
  {
    var keep := (p: Record) => !HasId(p, id);
    Seqs.FilterMembers(products, keep);
    Seqs.FilterMultiset(products, keep);
    Seqs.Filter(products, keep)
  }

  class Store {
    var content: Record
    var products: seq<Record>
    var collections: seq<Record>
    var gallery: seq<Record>
    var messages: seq<Record>

    /** The document written when no database file exists yet. */
    constructor Init()
      ensures content == map[]
      ensures products == [] && collections == [] && gallery == [] && messages == []
    {
      content := map[];
      products, collections, gallery, messages := [], [], [], [];
    }

    /** GET /api/content. */
    method GetContent() returns (r: Record)
      ensures r == content
    {
      r := content;
    }

    /** POST /api/content: a shallow merge of the body over the stored content. */
    method PostContent(body: Record) returns (r: Record)
      modifies this
      ensures content == Spread(old(content), body) && r == content
      ensures products == old(products) && collections == old(collections)
      ensures gallery == old(gallery) && messages == old(messages)
    {
      content := Spread(content, body);
      r := content;
    }

    /** GET /api/products. */
    method ListProducts() returns (r: seq<Record>)
      ensures r == products
    {
      r := products;
    }

    /** POST /api/products: append the stamped body and return it. */
    method CreateProduct(body: Record, now: nat) returns (product: Record)
      modifies this
      ensures product == Stamped(now, body)
      ensures products == old(products) + [product]
      ensures content == old(content) && collections == old(collections)
      ensures gallery == old(gallery) && messages == old(messages)
    {
      product := Stamped(now, body);
      products := products + [product];
    }

    /**
     * PUT /api/products/:id: merge the body over the first product whose id is
     * `id`; 404 when there is none. The body may replace the id.
     */
    method UpdateProduct(id: string, body: Record) returns (res: Result<Record, HttpError>)
      modifies this
      ensures var i := IndexOfId(old(products), id);
        if i == -1 then
          res == Err(NotFound) && products == old(products)
        else
          && res == Ok(Spread(old(products)[i], body))
          && products == old(products)[i := Spread(old(products)[i], body)]
      ensures content == old(content) && collections == old(collections)
      ensures gallery == old(gallery) && messages == old(messages)
    {
      var index := IndexOfId(products, id);
      if index == -1 {
        return Err(NotFound);
      }
      products := products[index := Spread(products[index], body)];
      res := Ok(products[index]);
    }

    /** DELETE /api/products/:id: drop every product with that id; always succeeds. */
    method DeleteProduct(id: string) returns (r: Record)
      modifies this
      ensures products == WithoutId(old(products), id)
      ensures r == Acknowledged
      ensures content == old(content) && collections == old(collections)
      ensures gallery == old(gallery) && messages == old(messages)
    {
      products := WithoutId(products, id);
      r := Acknowledged;
    }

    /** GET /api/collections. */
    method ListCollections() returns (r: seq<Record>)
      ensures r == collections
    {
      r := collections;
    }

    /** POST /api/messages: append the stamped body. */
    method PostMessage(body: Record, now: nat) returns (r: Record)
      modifies this
      ensures messages == old(messages) + [Stamped(now, body)]
      ensures r == Acknowledged
      ensures content == old(content) && products == old(products)
      ensures collections == old(collections) && gallery == old(gallery)
    {
      messages := messages + [Stamped(now, body)];
      r := Acknowledged;
    }
  }

  // ---------------------------------------------------------------- properties

  /**
   * The content merge is shallow: a body that carries one section replaces that
   * section whole, whatever fields the stored section had.
   */
  lemma ContentMergeReplacesSection(content: Record, section: string, fields: Record)
    ensures Spread(content, map[section := Obj(fields)])[section] == Obj(fields)
    ensures forall k :: k in content && k != section ==>
      Spread(content, map[section := Obj(fields)])[k] == content[k]
  {
  }

  /** An update whose body carries a different id moves the record away from its old id. */
  lemma UpdateMayChangeId(p: Record, id: string, body: Record)
    requires HasId(p, id) && "id" in body && body["id"] != Str(id)
    ensures !HasId(Spread(p, body), id)
    ensures Spread(p, body)["id"] == body["id"]
  {
  }

  /**
   * A product created without an id in its body, at a time no existing id
   * equals, is found at the end of the table under its generated id.
   */
  lemma CreatedProductIsFound(products: seq<Record>, body: Record, now: nat)
    requires "id" !in body
    requires forall j :: 0 <= j < |products| ==> !HasId(products[j], NatToString(now))
    ensures IndexOfId(products + [Stamped(now, body)], NatToString(now)) == |products|
  {
    var s := products + [Stamped(now, body)];
    assert HasId(s[|products|], NatToString(now));
  }

  /** Creating a product and then deleting its generated id restores the table. */
  lemma CreateThenDeleteRestores(products: seq<Record>, body: Record, now: nat)
    requires "id" !in body
    requires forall j :: 0 <= j < |products| ==> !HasId(products[j], NatToString(now))
    ensures WithoutId(products + [Stamped(now, body)], NatToString(now)) == products
  {
    var f := (p: Record) => !HasId(p, NatToString(now));
    Seqs.FilterAppend(products, [Stamped(now, body)], f);
    Seqs.FilterAllPass(products, f);
  }

  /** Delete keeps the survivors in their original order. */
  lemma DeleteKeepsOrder(products: seq<Record>, id: string)
    ensures Seqs.IsSubsequence(WithoutId(products, id), products)
  {
    Seqs.FilterIsSubsequence(products, (p: Record) => !HasId(p, id));
  }

  /** Deleting the same id twice is the same as deleting it once. */
  lemma DeleteIdempotent(products: seq<Record>, id: string)
    ensures WithoutId(WithoutId(products, id), id) == WithoutId(products, id)
  {
    Seqs.FilterIdempotent(products, (p: Record) => !HasId(p, id));
  }

  /** Deleting an id that no product has leaves the table unchanged. */
  lemma DeleteUnknownIdIsNoop(products: seq<Record>, id: string)
    requires IndexOfId(products, id) == -1
    ensures WithoutId(products, id) == products
  {
    Seqs.FilterAllPass(products, (p: Record) => !HasId(p, id));
  }

  // ------------------------------------------------------------------ uploads

  /**
   * `Math.round(Math.random() * 1e9)` for a draw `r` in [0, 1): the nearest
   * integer to `r * 1e9`, rounding halves up.
   */
  function RandomSuffix(r: real): (k: nat)
    requires 0.0 <= r < 1.0
    ensures k <= 1_000_000_000
    ensures k as real - 0.5 <= r * 1_000_000_000.0 < k as real + 0.5
  {
    (r * 1_000_000_000.0 + 0.5).Floor
  }

  /**
   * `` `${Date.now()}-${suffix}.${ext}` `` with `ext` the last `.`-segment of the
   * original name. The name determines the upload time, the random suffix and
   * the extension, which holds no `.`.
   */
  function UploadFilename(now: nat, r: real, originalName: string): (name: string)
    requires 0.0 <= r < 1.0
    ensures ParseUploadFilename(name) == Some((now, RandomSuffix(r), LastSegment(originalName, '.')))
  {
    var k := RandomSuffix(r);
    var ext := LastSegment(originalName, '.');
    ParseComposedFilename(NatToString(now), NatToString(k), ext);
    ParseNatToString(now);
    ParseNatToString(k);
    NatToString(now) + "-" + NatToString(k) + "." + ext
  }

  /**
   * POST /api/upload: the public URL of the stored file, or 400 when no file
   * came. The URL is `/uploads/` followed by the generated filename.
   */
  function Upload(file: Option<string>, now: nat, r: real): (res: Result<string, HttpError>)
    requires 0.0 <= r < 1.0
    ensures file.None? <==> res == Err(NoFileUploaded)
    ensures file.Some? ==> res == Ok("/uploads/" + UploadFilename(now, r, file.value))
  {
    match file
    case None => Err(NoFileUploaded)
    case Some(name) => Ok("/uploads/" + UploadFilename(now, r, name))
  }

  /**
   * The URL answered for an upload is `/uploads/` followed by a name that gives
   * back the upload time, the random suffix and the original extension.
   */
  lemma UploadUrlRoundTrip(name: string, now: nat, r: real)
    requires 0.0 <= r < 1.0
    ensures var res := Upload(Some(name), now, r);
      && res.Ok?
      && |res.value| >= 9 && res.value[..9] == "/uploads/"
      && ParseUploadFilename(res.value[9..]) == Some((now, RandomSuffix(r), LastSegment(name, '.')))
  {
    var file := UploadFilename(now, r, name);
    assert ("/uploads/" + file)[9..] == file;
  }

  /** Splits a stored filename back into its time, random suffix and extension. */
  function ParseUploadFilename(name: string): Option<(nat, nat, string)>
  {
    var ext := LastSegment(name, '.');
    if |ext| == |name| then None else ParseStem(name[..|name| - |ext| - 1], ext)
  }

  /** Splits `time-suffix` into its two numbers. */
  function ParseStem(stem: string, ext: string): Option<(nat, nat, string)>
  {
    var suffix := LastSegment(stem, '-');
    if |suffix| == |stem| then None
    else
      var time := stem[..|stem| - |suffix| - 1];
      if AllDigits(time) && AllDigits(suffix) then Some((ParseDecimal(time), ParseDecimal(suffix), ext))
      else None
  }

  lemma ParseComposedStem(t: string, k: string, ext: string)
    requires AllDigits(t) && AllDigits(k)
    ensures ParseStem(t + "-" + k, ext) == Some((ParseDecimal(t), ParseDecimal(k), ext))
  {
    assert '-' !in k by {
      assert forall i :: 0 <= i < |k| ==> IsDigit(k[i]);
    }
    var stem := t + "-" + k;
    assert stem == t + ['-'] + k;
    LastSegmentAfterSeparator(t, '-', k);
    assert stem[..|stem| - |k| - 1] == t;
  }

  lemma ParseSplitName(name: string, stem: string, ext: string)
    requires name == stem + ['.'] + ext && '.' !in ext
    ensures ParseUploadFilename(name) == ParseStem(stem, ext)
  {
    LastSegmentAfterSeparator(stem, '.', ext);
    assert name[..|name| - |ext| - 1] == stem;
  }

  /** A name `time-suffix.ext`, built from digit strings and an `ext` without `.`, parses back into its parts. */
  lemma ParseComposedFilename(t: string, k: string, ext: string)
    requires AllDigits(t) && AllDigits(k) && '.' !in ext
    ensures ParseUploadFilename(t + "-" + k + "." + ext) == Some((ParseDecimal(t), ParseDecimal(k), ext))
  {
    var stem := t + "-" + k;
    assert t + "-" + k + "." + ext == stem + ['.'] + ext;
    ParseSplitName(t + "-" + k + "." + ext, stem, ext);
    ParseComposedStem(t, k, ext);
  }
}
