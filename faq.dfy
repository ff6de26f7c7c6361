/**
 * The help page's search (src/components/Faq/Faq.tsx): the question
 * catalogue filtered, category by category, by a case-insensitive substring
 * of the question or the answer, dropping the categories left empty.
 */
module Faq {
  import opened Text

  /** One catalogue entry. */
  datatype Question = Question(pregunta: string, respuesta: string)

  /** One category of the catalogue, in the catalogue's key order. */
  datatype Category = Category(name: string, items: seq<Question>)

  /** The item's lower-cased question or answer contains the already lower-cased query. */
  predicate Matches(item: Question, queryLower: string) {
    Contains(Lower(item.pregunta), queryLower) || Contains(Lower(item.respuesta), queryLower)
  }

  /** `items.filter(...)`: the matching items, in catalogue order. */
  function FilterItems(items: seq<Question>, queryLower: string): (r: seq<Question>)
    ensures |r| <= |items|
    ensures forall x :: x in r <==> x in items && Matches(x, queryLower)
  {
    if items == [] then []
    else
      var init := items[..|items| - 1];
      var last := items[|items| - 1];
      assert items == init + [last];
      FilterItems(init, queryLower) + (if Matches(last, queryLower) then [last] else [])
  }

  /** `a` is `b` with some elements left out, the rest in order. */
  predicate SubList<T(==)>(a: seq<T>, b: seq<T>)
    decreases |b|
  {
    if a == [] then true
    else if b == [] then false
    else if a[|a| - 1] == b[|b| - 1] then SubList(a[..|a| - 1], b[..|b| - 1])
    else SubList(a, b[..|b| - 1])
  }

  /** The filter keeps the catalogue order: its result is a sub-list of the items. */
  lemma {:induction false} FilterItemsSubList(items: seq<Question>, queryLower: string)
    ensures SubList(FilterItems(items, queryLower), items)
  {
    if items != [] {
      var init := items[..|items| - 1];
      var last := items[|items| - 1];
      var f := FilterItems(init, queryLower);
      FilterItemsSubList(init, queryLower);
      if Matches(last, queryLower) {
        assert (f + [last])[..|f|] == f;
      } else {
        assert f + [] == f;
        SubListOfInit(f, init, last);
      }
    }
  }

  /** A sub-list of a sequence is a sub-list of that sequence extended. */
  lemma {:induction false} SubListOfInit<T>(a: seq<T>, init: seq<T>, last: T)
    requires SubList(a, init)
    ensures SubList(a, init + [last])
    decreases |init|, 1
  {
    var b := init + [last];
    assert b[..|b| - 1] == init;
    if a != [] && a[|a| - 1] == last {
      SubListDropLast(a, init);
    }
  }

  /** Dropping the last element of a sub-list keeps it a sub-list. */
  lemma {:induction false} SubListDropLast<T>(a: seq<T>, b: seq<T>)
    requires a != [] && SubList(a, b)
    ensures SubList(a[..|a| - 1], b)
    decreases |b|, 0
  {
    var a' := a[..|a| - 1];
    if a[|a| - 1] != b[|b| - 1] {
      SubListDropLast(a, b[..|b| - 1]);
    }
    SubListOfInit(a', b[..|b| - 1], b[|b| - 1]);
    assert b[..|b| - 1] + [b[|b| - 1]] == b;
  }

  /**
   * The `forEach` over `Object.entries(preguntas)`: each category with at
   * least one match, its items filtered, in catalogue order.
   */
  function FilterCatalogue(catalogue: seq<Category>, queryLower: string): (r: seq<Category>)
    ensures |r| <= |catalogue|
  {
    if catalogue == [] then []
    else
      var init := catalogue[..|catalogue| - 1];
      var c := catalogue[|catalogue| - 1];
      var kept := FilterItems(c.items, queryLower);
      FilterCatalogue(init, queryLower) + (if |kept| > 0 then [Category(c.name, kept)] else [])
  }

  /** `preguntasFiltradas`: the catalogue itself for an empty query, else the filtered catalogue. */
  function Filtered(catalogue: seq<Category>, busqueda: string): seq<Category> {
    if busqueda == "" then catalogue else FilterCatalogue(catalogue, Lower(busqueda))
  }

  /** The memoised computation, filling the result category by category. */
  method PreguntasFiltradas(catalogue: seq<Category>, busqueda: string) returns (resultado: seq<Category>)
    ensures resultado == Filtered(catalogue, busqueda)
  {
    if busqueda == "" {
      return catalogue;
    }
    var busquedaLower := Lower(busqueda);
    resultado := [];
    for i := 0 to |catalogue|
      invariant resultado == FilterCatalogue(catalogue[..i], busquedaLower)
    {
      var c := catalogue[i];
      var itemsFiltrados := FilterItems(c.items, busquedaLower);
      assert catalogue[..i + 1][..i] == catalogue[..i];
      if |itemsFiltrados| > 0 {
        resultado := resultado + [Category(c.name, itemsFiltrados)];
      }
    }
    assert catalogue[..|catalogue|] == catalogue;
  }

  /** An empty query shows the whole catalogue. */
  lemma EmptyQueryKeepsAll(catalogue: seq<Category>)
    ensures Filtered(catalogue, "") == catalogue
  {
  }

  /**
   * Each shown category is a catalogue category, under its own name, with
   * its matching items in order; it is never empty; and every catalogue
   * category with a match is shown.
   */
  lemma {:induction false} FilterCatalogueShape(catalogue: seq<Category>, queryLower: string)
    ensures forall k :: 0 <= k < |FilterCatalogue(catalogue, queryLower)| ==>
              var r := FilterCatalogue(catalogue, queryLower)[k];
              |r.items| > 0 &&
              exists j :: 0 <= j < |catalogue| && catalogue[j].name == r.name
                          && r.items == FilterItems(catalogue[j].items, queryLower)
    ensures forall j :: 0 <= j < |catalogue| && |FilterItems(catalogue[j].items, queryLower)| > 0 ==>
              Category(catalogue[j].name, FilterItems(catalogue[j].items, queryLower)) in FilterCatalogue(catalogue, queryLower)
  {
    if catalogue != [] {
      var init := catalogue[..|catalogue| - 1];
      FilterCatalogueShape(init, queryLower);
      assert forall j :: 0 <= j < |init| ==> init[j] == catalogue[j];
    }
  }

  /** Every shown item contains the query, ignoring case, in its question or its answer. */
  lemma ShownItemsMatch(catalogue: seq<Category>, busqueda: string, k: nat, x: Question)
    requires busqueda != ""
    requires k < |Filtered(catalogue, busqueda)| && x in Filtered(catalogue, busqueda)[k].items
    ensures Matches(x, Lower(busqueda))
  {
    FilterCatalogueShape(catalogue, Lower(busqueda));
  }

  /** Each shown category is an order-preserving sub-list of a category of the catalogue with the same name. */
  lemma ShownCategoriesAreSubLists(catalogue: seq<Category>, busqueda: string, k: nat)
    requires k < |Filtered(catalogue, busqueda)|
    ensures exists j :: 0 <= j < |catalogue| && catalogue[j].name == Filtered(catalogue, busqueda)[k].name
                        && SubList(Filtered(catalogue, busqueda)[k].items, catalogue[j].items)
  {
    if busqueda == "" {
      SubListRefl(catalogue[k].items);
    } else {
      FilterCatalogueShape(catalogue, Lower(busqueda));
      var r := Filtered(catalogue, busqueda)[k];
      var j :| 0 <= j < |catalogue| && catalogue[j].name == r.name
               && r.items == FilterItems(catalogue[j].items, Lower(busqueda));
      FilterItemsSubList(catalogue[j].items, Lower(busqueda));
    }
  }

  /** Every sequence is a sub-list of itself. */
  lemma {:induction false} SubListRefl<T>(s: seq<T>)
    ensures SubList(s, s)
  {
    if s != [] {
      SubListRefl(s[..|s| - 1]);
    }
  }

  /** Matching ignores case: a query and its lower-cased form show the same result. */
  lemma CaseInsensitive(catalogue: seq<Category>, busqueda: string)
    ensures Filtered(catalogue, busqueda) == Filtered(catalogue, Lower(busqueda))
  {
    LowerEmptyIff(busqueda);
    LowerIdempotent(busqueda);
  }
}
