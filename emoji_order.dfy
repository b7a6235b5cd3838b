/**
 * The order of the generated list: by collation rank, then by code points.
 */
module EmojiOrder {
  import opened GoStrings
  import opened Collation
  import opened Sorting

  /** The comparator handed to slices.SortFunc: the difference of the collation ranks, or,
      when the ranks are equal, strings.Compare. */
  function Cmp(e: string, f: string, table: map<string, int>): int
  {
    var n := CollationOrder(e, table) - CollationOrder(f, table);
    if n != 0 then n else Compare(e, f)
  }

  /** `e` may precede `f`: its rank is smaller, or the ranks are equal and `e` is not greater as
      a string. */
  lemma PrecedesMeaning(e: string, f: string, table: map<string, int>)
    ensures Cmp(e, f, table) <= 0 <==>
      CollationOrder(e, table) < CollationOrder(f, table)
      || (CollationOrder(e, table) == CollationOrder(f, table) && Compare(e, f) <= 0)
  {
  }

  /** The comparator of generate, over the rank table. */
  function Order(table: map<string, int>): (string, string) -> int
  {
    (e, f) => Cmp(e, f, table)
  }

  /** The generator's comparator is a total order on strings. */
  lemma CmpIsTotalOrder(table: map<string, int>)
    ensures TotalOrder(Order(table))
  {
    forall e, f ensures Cmp(e, f, table) > 0 <==> Cmp(f, e, table) < 0 {
      CompareAntisymmetric(e, f);
    }
    forall e, f, g | Cmp(e, f, table) <= 0 && Cmp(f, g, table) <= 0 ensures Cmp(e, g, table) <= 0 {
      if CollationOrder(e, table) == CollationOrder(f, table) == CollationOrder(g, table) {
        CompareTransitive(e, f, g);
      }
    }
  }

  /** In the sorted emoji, every emoji has a smaller rank than every later one, or the same rank
      and does not come after it in lexicographic code-point order. */
  lemma SortedByRankThenText(es: seq<string>, table: map<string, int>)
    ensures TotalOrder(Order(table))
    ensures var sorted := SortOf(es, Order(table));
      forall i, j :: 0 <= i < j < |sorted| ==>
        CollationOrder(sorted[i], table) < CollationOrder(sorted[j], table)
        || (CollationOrder(sorted[i], table) == CollationOrder(sorted[j], table) && !LexLess(sorted[j], sorted[i]))
  {
    CmpIsTotalOrder(table);
    var sorted := SortOf(es, Order(table));
    SortOfMeaning(es, sorted, Order(table));
    forall i, j | 0 <= i < j < |sorted|
      ensures CollationOrder(sorted[i], table) < CollationOrder(sorted[j], table)
        || (CollationOrder(sorted[i], table) == CollationOrder(sorted[j], table) && !LexLess(sorted[j], sorted[i]))
    {
      assert Order(table)(sorted[i], sorted[j]) <= 0;
      PrecedesMeaning(sorted[i], sorted[j], table);
      CompareIsLexicographic(sorted[i], sorted[j]);
    }
  }
}
