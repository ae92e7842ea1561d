/** How a product grows with one of its factors. */
module Products {
  lemma OneMore(k: nat, n: nat)
    ensures k * (n + 1) == k * n + k
  {
  }

  lemma UpToTwoMore(k: nat, a: nat, b: nat)
    requires a <= b <= a + 2
    ensures k * b <= k * a + 2 * k
  {
    OneMore(k, a);
    OneMore(k, a + 1);
  }

  lemma {:induction false} TimesMore(k: nat, a: nat, b: nat)
    requires a < b
    ensures k * a + k <= k * b
  {
    OneMore(k, b - 1);
    if a < b - 1 {
      TimesMore(k, a, b - 1);
    }
  }
}
