/** The home page: its "Signature" showcase, collections, product popup and craftsmanship copy. */
module HomePage {
  import opened Js
  import Seqs

  /** `p.category === 'Signature'`, case-sensitive. */
  predicate IsSignature(p: Record)
    ensures IsSignature(p) ==> "category" in p && p["category"] == Str("Signature")
    ensures Get(p, "category") == Str("signature") ==> !IsSignature(p)
  {
    Get(p, "category") == Str("Signature")
  }

  function SignatureFilter(): Record -> bool
  {
    (p: Record) => IsSignature(p)
  }

  function Min(a: nat, b: nat): nat
  {
    if a <= b then a else b
  }

  /**
   * The showcased products: the Signature ones when there are any, otherwise
   * the first three fetched products (fewer when fewer were fetched).
   */
  function SignaturePieces(fetched: seq<Record>): (r: seq<Record>)
    ensures (exists i :: 0 <= i < |fetched| && IsSignature(fetched[i])) ==>
      && (forall i :: 0 <= i < |r| ==> IsSignature(r[i]) && r[i] in fetched)
      && (forall i :: 0 <= i < |fetched| && IsSignature(fetched[i]) ==> fetched[i] in r)
      && (forall x :: multiset(r)[x] == if IsSignature(x) then multiset(fetched)[x] else 0)
    ensures (forall i :: 0 <= i < |fetched| ==> !IsSignature(fetched[i])) ==>
      r == fetched[..Min(3, |fetched|)]
  {
    var sigs := Seqs.Filter(fetched, SignatureFilter());
    Seqs.FilterMembers(fetched, SignatureFilter());
    Seqs.FilterMultiset(fetched, SignatureFilter());
    if |sigs| > 0 then sigs else fetched[..Min(3, |fetched|)]
  }

  /** The showcase keeps fetched order, and is empty only when nothing was fetched. */
  lemma SignaturePiecesOrder(fetched: seq<Record>)
    ensures Seqs.IsSubsequence(SignaturePieces(fetched), fetched)
    ensures SignaturePieces(fetched) == [] <==> fetched == []
  {
    var sigs := Seqs.Filter(fetched, SignatureFilter());
    if |sigs| > 0 {
      Seqs.FilterIsSubsequence(fetched, SignatureFilter());
    } else {
      Seqs.PrefixIsSubsequence(fetched, Min(3, |fetched|));
    }
  }

  /** `collecRes.data || []`: a falsy response body becomes the empty list. */
  function CollectionsShown(data: Value): (r: Value)
    ensures Truthy(r)
    ensures Truthy(data) ==> r == data
    ensures !Truthy(data) ==> r == Arr([])
  {
    Or(data, Arr([]))
  }

  /** `product.images || [product.imageUrl]`: the popup's image list. */
  function ModalImages(product: Record): (r: Value)
    ensures Truthy(r)
    ensures Truthy(Get(product, "images")) ==> r == product["images"]
    ensures !Truthy(Get(product, "images")) ==> r == Arr([Get(product, "imageUrl")])
  {
    Or(Get(product, "images"), Arr([Get(product, "imageUrl")]))
  }

  /**
   * `images.length > 1 && images.map(...)`: whether the popup shows its
   * thumbnail row. Only an array can show one: a string or object long enough
   * to pass the test has no `map`, so rendering throws instead.
   */
  function ThumbnailsShown(images: Value): (shown: bool)
    ensures shown ==> images.Arr?
    ensures images.Arr? ==> (shown <==> |images.items| > 1)
  {
    match images
    case Arr(xs) => |xs| > 1
    case _ => false
  }

  /** A product without a truthy `images` field shows one image and no thumbnails. */
  lemma SingleImageHasNoThumbnails(product: Record)
    requires !Truthy(Get(product, "images"))
    ensures !ThumbnailsShown(ModalImages(product))
  {
  }

  /** A product with two or more images shows the thumbnail row. */
  lemma ImageListHasThumbnails(product: Record, xs: seq<Value>)
    requires Get(product, "images") == Arr(xs) && |xs| > 1
    ensures ThumbnailsShown(ModalImages(product))
  {
  }

  const DefaultCraftTitle := "The Art of Perfection"
  const DefaultCraftText := "Every Maison Lumière piece begins with a sketch and ends with a masterpiece."

  /** `content.craftsmanship?.title || DefaultCraftTitle`. */
  function CraftTitle(content: Record): (r: Value)
    ensures Truthy(r)
    ensures var t := Prop(Get(content, "craftsmanship"), "title");
      (Truthy(t) ==> r == t) && (!Truthy(t) ==> r == Str(DefaultCraftTitle))
  {
    Or(Prop(Get(content, "craftsmanship"), "title"), Str(DefaultCraftTitle))
  }

  /** `content.craftsmanship?.text || DefaultCraftText`. */
  function CraftText(content: Record): (r: Value)
    ensures Truthy(r)
    ensures var t := Prop(Get(content, "craftsmanship"), "text");
      (Truthy(t) ==> r == t) && (!Truthy(t) ==> r == Str(DefaultCraftText))
  {
    Or(Prop(Get(content, "craftsmanship"), "text"), Str(DefaultCraftText))
  }
}
