/**
 * The daily admission policy. The two flags are fixed per product flavour at
 * build time: the `free` flavour allows 10 entries a day, the `paid` flavour
 * sets the limit to Integer.MAX_VALUE and switches the check off.
 */
module BuildConfigHelper {

  const IntMaxValue: int := 0x7FFF_FFFF

  datatype Flavor = Flavor(maxDailyEntries: int, isPaidVersion: bool)

  const Free: Flavor := Flavor(10, false)
  const Paid: Flavor := Flavor(IntMaxValue, true)

  /** canAddMoreEntries: may one more expense be recorded today? Always in the paid flavour, otherwise only below the limit. */
  predicate CanAddMoreEntries(flavor: Flavor, currentDailyCount: int): (ok: bool)
    ensures ok <==> flavor.isPaidVersion || currentDailyCount < flavor.maxDailyEntries
  {
    if flavor.isPaidVersion then true else currentDailyCount < flavor.maxDailyEntries
  }

  /** The paid flavour admits every count. */
  lemma PaidAlwaysAdmits(flavor: Flavor, count: int)
    requires flavor.isPaidVersion
    ensures CanAddMoreEntries(flavor, count)
  {
  }

  /** Without the paid flag, a count is admitted exactly when it is below the limit. */
  lemma FreeAdmitsBelowLimit(flavor: Flavor, count: int)
    requires !flavor.isPaidVersion
    ensures CanAddMoreEntries(flavor, count) <==> count < flavor.maxDailyEntries
  {
  }

  /** Once a count is rejected, every larger count is rejected too. */
  lemma RejectionMonotone(flavor: Flavor, n: int, m: int)
    requires n <= m && !CanAddMoreEntries(flavor, n)
    ensures !CanAddMoreEntries(flavor, m)
  {
  }

  /** Both flavours configure a positive limit; the free flavour admits 5 and rejects 10. */
  lemma FlavorValues()
    ensures Free.maxDailyEntries == 10 && Free.maxDailyEntries > 0 && Paid.maxDailyEntries > 0
    ensures CanAddMoreEntries(Free, 5) && !CanAddMoreEntries(Free, 10)
    ensures forall n :: 0 <= n < 10 ==> CanAddMoreEntries(Free, n)
    ensures CanAddMoreEntries(Paid, IntMaxValue)
  {
  }
}
