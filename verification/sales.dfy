/** A row of the `vendas` table, with its timestamp as an instant and its money exact. */
module SaleRecords {
  import opened Calendar

  datatype Sale = Sale(
    id: string,
    productName: string,  // nome_produto
    quantity: int,        // quantidade
    value: real,          // valor, the unit price
    soldAt: Instant,      // data_venda
    userId: string)       // user_id

  /** `quantidade * valor`, what the dashboard and the period report add up: never
      less than the unit price for a sale the forms let through, and exactly it for
      a single unit. */
  function LineTotal(s: Sale): (r: real)
    ensures WellFormed(s) ==> r >= s.value > 0.0
    ensures s.quantity == 1 ==> r == s.value
    ensures s.quantity == 0 ==> r == 0.0
  {
    (s.quantity as real) * s.value
  }

  /** `valor` alone, what the daily report adds up. */
  function UnitValue(s: Sale): real
  {
    s.value
  }

  function Quantity(s: Sale): int
  {
    s.quantity
  }

  /** A sale as the entry forms let it through: at least one unit at a positive price. */
  predicate WellFormed(s: Sale)
  {
    s.quantity >= 1 && s.value > 0.0
  }
}
