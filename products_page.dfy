/**
 * The storefront's product list page: the optional `cat` query parameter picks
 * products by category or collection, falling back to the whole list.
 */
module ProductsPage {
  import opened Wrappers
  import opened Js
  import opened Text
  import Seqs

  /** The product's `category` is a string, so `p.category.toLowerCase()` does not throw. */
  predicate HasTextCategory(p: Record)
  {
    "category" in p && p["category"].Str?
  }

  /**
   * The filter's test: the lower-cased category contains the lower-cased
   * parameter, or `collectionId` is truthy and strictly equal to the parameter.
   */
  predicate Matches(p: Record, cat: string)
    ensures Matches(p, cat) && !HasTextCategory(p) ==> Get(p, "collectionId") == Str(cat)
    ensures cat != "" && Get(p, "collectionId") == Str(cat) ==> Matches(p, cat)
  {
    || (HasTextCategory(p) && Contains(Lower(p["category"].s), Lower(cat)))
    || (Truthy(Get(p, "collectionId")) && Get(p, "collectionId") == Str(cat))
  }

  function MatchesCategory(cat: string): Record -> bool
  {
    (p: Record) => Matches(p, cat)
  }

  /**
   * The list the page shows after fetching `fetched`. `None` when the fetch
   * handler throws (a product without a string category while filtering); the
   * page then keeps the list it had.
   */
  function Displayed(fetched: seq<Record>, category: Option<string>): (r: Option<seq<Record>>)
    ensures category.None? || category == Some("") ==> r == Some(fetched)
    ensures category.Some? && category.value != "" ==>
      (r.None? <==> exists i :: 0 <= i < |fetched| && !HasTextCategory(fetched[i]))
    ensures r.Some? ==> (r.value == [] <==> fetched == [])
    ensures r.Some? && category.Some? && category.value != "" ==>
      forall i :: 0 <= i < |r.value| ==> r.value[i] in fetched
  {
    match category
    case None => Some(fetched)
    case Some(cat) =>
      if cat == "" then Some(fetched)
      else if exists i :: 0 <= i < |fetched| && !HasTextCategory(fetched[i]) then None
      else
        var filtered := Seqs.Filter(fetched, MatchesCategory(cat));
        Seqs.FilterMembers(fetched, MatchesCategory(cat));
        Some(if |filtered| > 0 then filtered else fetched)
  }

  /**
   * With a category and well-formed products: when some product matches, the
   * page shows exactly the matching products in fetched order; otherwise it
   * shows the whole list.
   */
  lemma DisplayedSelection(fetched: seq<Record>, cat: string)
    requires cat != ""
    requires forall i :: 0 <= i < |fetched| ==> HasTextCategory(fetched[i])
    ensures Displayed(fetched, Some(cat)).Some?
    ensures var shown := Displayed(fetched, Some(cat)).value;
      && Seqs.IsSubsequence(shown, fetched)
      && ((exists i :: 0 <= i < |fetched| && Matches(fetched[i], cat)) ==>
            && (forall i :: 0 <= i < |shown| ==> Matches(shown[i], cat))
            && (forall i :: 0 <= i < |fetched| && Matches(fetched[i], cat) ==> fetched[i] in shown)
            && (forall x :: multiset(shown)[x] == if Matches(x, cat) then multiset(fetched)[x] else 0))
      && ((forall i :: 0 <= i < |fetched| ==> !Matches(fetched[i], cat)) ==> shown == fetched)
  {
    var filtered := Seqs.Filter(fetched, MatchesCategory(cat));
    assert Displayed(fetched, Some(cat)) == Some(if |filtered| > 0 then filtered else fetched);
    CategoryFilter(fetched, cat);
    if exists i :: 0 <= i < |fetched| && Matches(fetched[i], cat) {
      var i :| 0 <= i < |fetched| && Matches(fetched[i], cat);
      assert fetched[i] in filtered;
    } else {
      Seqs.PrefixIsSubsequence(fetched, |fetched|);
      assert fetched[..|fetched|] == fetched;
    }
  }

  /** The category filter's facts, stated with `Matches` rather than its lambda. */
  lemma CategoryFilter(fetched: seq<Record>, cat: string)
    ensures var r := Seqs.Filter(fetched, MatchesCategory(cat));
      && Seqs.IsSubsequence(r, fetched)
      && (forall i :: 0 <= i < |r| ==> Matches(r[i], cat))
      && (forall i :: 0 <= i < |fetched| && Matches(fetched[i], cat) ==> fetched[i] in r)
      && (forall x :: multiset(r)[x] == if Matches(x, cat) then multiset(fetched)[x] else 0)
      && (r == [] <==> forall i :: 0 <= i < |fetched| ==> !Matches(fetched[i], cat))
  {
    var f := MatchesCategory(cat);
    Seqs.FilterIsSubsequence(fetched, f);
    Seqs.FilterMembers(fetched, f);
    Seqs.FilterMultiset(fetched, f);
  }

  /** A product whose category equals the parameter up to letter case is always kept. */
  lemma SameCategoryIsKept(p: Record, cat: string)
    requires HasTextCategory(p) && Lower(p["category"].s) == Lower(cat)
    ensures Matches(p, cat)
  {
  }

  /**
   * The page title: the parameter with its first letter upper-cased, then
   * `" Collection"`; `"All Products"` without a parameter.
   */
  function Title(category: Option<string>): (r: string)
    ensures category.None? || category == Some("") ==> r == "All Products"
    ensures category.Some? && category.value != "" ==>
      var c := category.value;
      && |r| == |c| + 11
      && r[|c|..] == " Collection"
      && r[0] == UpperChar(c[0])
      && r[1..|c|] == c[1..]
  {
    match category
    case None => "All Products"
    case Some(c) => if c == "" then "All Products" else [UpperChar(c[0])] + c[1..] + " Collection"
  }

  /** The title names the category: its first word equals the parameter up to letter case. */
  lemma TitleNamesCategory(c: string)
    requires c != ""
    ensures var t := Title(Some(c)); Lower(t[..|c|]) == Lower(c)
  {
  }
}
