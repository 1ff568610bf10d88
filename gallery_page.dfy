/** The gallery page: gallery images, or images derived from the products when there are none. */
module GalleryPage {
  import opened Wrappers
  import opened Js

  /** The outcome of an API request: the response body, or a rejected promise. */
  datatype Fetch<+T> = Fetched(data: T) | FetchFailed

  /** `({ id: p.id, url: p.imageUrl, caption: p.name })`. */
  function ImageOf(p: Record): (img: Value)
    ensures img.Obj? && img.fields.Keys == {"id", "url", "caption"}
    ensures Prop(img, "id") == Get(p, "id")
    ensures Prop(img, "url") == Get(p, "imageUrl")
    ensures Prop(img, "caption") == Get(p, "name")
  {
    Obj(map["id" := Get(p, "id"), "url" := Get(p, "imageUrl"), "caption" := Get(p, "name")])
  }

  /**
   * The images the page holds once loading ends. `gallery` is the gallery
   * response body (`None` when absent); `products` is only requested when that
   * body is absent or empty. A failed request leaves the initial empty list.
   */
  function GalleryImages(gallery: Fetch<Option<seq<Value>>>, products: Fetch<seq<Record>>): (r: seq<Value>)
    ensures gallery.FetchFailed? ==> r == []
    ensures gallery.Fetched? && gallery.data.Some? && |gallery.data.value| > 0 ==> r == gallery.data.value
    ensures gallery.Fetched? && (gallery.data.None? || gallery.data.value == []) ==>
      if products.FetchFailed? then r == []
      else
        && |r| == |products.data|
        && forall k :: 0 <= k < |r| ==> r[k] == ImageOf(products.data[k])
  {
    match gallery
    case FetchFailed => []
    case Fetched(data) =>
      if data.Some? && |data.value| > 0 then data.value
      else
        match products
        case FetchFailed => []
        case Fetched(ps) => seq(|ps|, k requires 0 <= k < |ps| => ImageOf(ps[k]))
  }

  /** What one grid cell renders: its React key, image source and alt text. */
  datatype Tile = Tile(key: Value, src: Value, alt: Value)

  /**
   * The cell for image `img` at position `idx`: key `img.id || idx`, source
   * `img.url || img.imageUrl`, alt `img.caption || 'Gallery Image'`. `None`
   * when `img` is `null` or `undefined`, where reading a property throws.
   */
  function TileOf(img: Value, idx: nat): (r: Option<Tile>)
    ensures r.None? <==> img.Null? || img.Undefined?
    ensures r.Some? ==> r.value.alt == (if Truthy(Prop(img, "caption")) then Prop(img, "caption") else Str("Gallery Image"))
    ensures r.Some? ==> Truthy(r.value.alt)
    ensures r.Some? ==> r.value.key == (if Truthy(Prop(img, "id")) then Prop(img, "id") else Num(idx))
    ensures r.Some? ==> r.value.src == (if Truthy(Prop(img, "url")) then Prop(img, "url") else Prop(img, "imageUrl"))
  {
    if img.Null? || img.Undefined? then None
    else
      Some(Tile(Or(Prop(img, "id"), Num(idx)),
                Or(Prop(img, "url"), Prop(img, "imageUrl")),
                Or(Prop(img, "caption"), Str("Gallery Image"))))
  }

  /**
   * A tile derived from a product is keyed by the product's id (or its
   * position), shows the product's image when it has a truthy one (and no
   * image otherwise), and is captioned with its name or `'Gallery Image'`.
   */
  lemma DerivedTile(p: Record, idx: nat)
    ensures TileOf(ImageOf(p), idx) ==
      Some(Tile(Or(Get(p, "id"), Num(idx)),
                if Truthy(Get(p, "imageUrl")) then Get(p, "imageUrl") else Undefined,
                Or(Get(p, "name"), Str("Gallery Image"))))
  {
  }
}
