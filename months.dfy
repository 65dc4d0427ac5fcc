/**
 * The month dictionaries the measure modules fill: one value per reporting
 * month, for a run of consecutive month keys.
 */
module Months {
  /** The values of months first .. next - 1, keyed by month. */
  function Tabulate<V>(f: int -> V, first: int, next: int): map<int, V>
    decreases next - first
  {
    if next <= first then map[] else Tabulate(f, first, next - 1)[next - 1 := f(next - 1)]
  }

  /** The keys are exactly first .. next - 1, and each month holds its own value. */
  lemma {:induction false} TabulateAt<V>(f: int -> V, first: int, next: int, k: int)
    ensures k in Tabulate(f, first, next) <==> first <= k < next
    ensures first <= k < next ==> Tabulate(f, first, next)[k] == f(k)
    decreases next - first
  {
    if first < next && k != next - 1 {
      TabulateAt(f, first, next - 1, k);
    }
  }
}
