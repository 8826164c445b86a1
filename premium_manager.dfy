/** The premium flag and the cap on the number of tasks a free user may keep. */
module PremiumManagerModel {
  /** Tasks a user without premium may have. */
  const MaxFreeTasks := 10

  /** `canAddMoreTasks` on a given flag value. */
  predicate MayAdd(isPremium: bool, currentTaskCount: int)
  {
    isPremium || currentTaskCount < MaxFreeTasks
  }

  class PremiumManager {
    var isPremium: bool

    /** A fresh manager is not premium. */
    constructor ()
      ensures !isPremium
    {
      isPremium := false;
    }

    /** `simulatePremiumPurchase`: the flag becomes true. */
    method SimulatePremiumPurchase()
      modifies this
      ensures isPremium
    {
      isPremium := true;
    }

    /** `canAddMoreTasks`: premium users always may, others below the cap. */
    function CanAddMoreTasks(currentTaskCount: int): (r: bool)
      reads this
      ensures r <==> isPremium || currentTaskCount < MaxFreeTasks
    {
      MayAdd(isPremium, currentTaskCount)
    }
  }

  /** The cap is the count at which a free user is refused, whatever the count above it. */
  lemma CapIsTight(n: int)
    ensures MayAdd(false, n) <==> n < 10
    ensures !MayAdd(false, 10) && MayAdd(false, 9)
    ensures MayAdd(true, n)
  {
  }

  /** A new manager refuses the eleventh task and accepts any count after the purchase. */
  method PurchaseLiftsCap(count: int) returns (before: bool, after: bool)
    ensures before <==> count < 10
    ensures after
  {
    var pm := new PremiumManager();
    before := pm.CanAddMoreTasks(count);
    pm.SimulatePremiumPurchase();
    after := pm.CanAddMoreTasks(count);
  }
}
