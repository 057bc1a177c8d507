/** The two range filters the hooks ask the store for. The store itself, and the order
    in which it returns rows, are outside the model: a fetch reaches the hooks as a
    `Result`, and these functions say which rows a successful one holds. */
module Store {
  import opened Calendar
  import opened Seqs
  import opened SaleRecords

  /** `.gte('data_venda', lo)`: every row at or after `lo`. */
  function Since(table: seq<Sale>, lo: Instant): (r: seq<Sale>)
    ensures forall s :: s in r <==> s in table && lo <= s.soldAt
    ensures forall s :: multiset(r)[s] == if lo <= s.soldAt then multiset(table)[s] else 0
    ensures SubsequenceOf(r, table)
  {
    KeepCounts(table, (s: Sale) => lo <= s.soldAt);
    Keep(table, (s: Sale) => lo <= s.soldAt)
  }

  /** `.gte('data_venda', lo).lte('data_venda', hi)`: a range closed at both ends. */
  function Between(table: seq<Sale>, lo: Instant, hi: Instant): (r: seq<Sale>)
    ensures forall s :: s in r <==> s in table && lo <= s.soldAt <= hi
    ensures forall s :: multiset(r)[s] == if lo <= s.soldAt <= hi then multiset(table)[s] else 0
    ensures SubsequenceOf(r, table)
  {
    KeepCounts(table, (s: Sale) => lo <= s.soldAt <= hi);
    Keep(table, (s: Sale) => lo <= s.soldAt <= hi)
  }
}
