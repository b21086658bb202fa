/** Whether a user's pages hide the product branding. */
module Branding {

  /** The plans a user can be on. */
  datatype UserPlan = Free | Trial | Pro

  /** The user record, with fields the predicate does not read beside the two it does. */
  datatype User = User(username: string, name: string, hideBranding: bool, plan: UserPlan)

  /** isBrandingHidden: the user asked to hide the branding and is not on the free plan. */
  predicate IsBrandingHidden(user: User)
  {
    user.hideBranding && user.plan != Free
  }

  /** On the free plan the branding is always shown, whatever the user asked for. */
  lemma FreePlanShowsBranding(user: User)
    requires user.plan == Free
    ensures !IsBrandingHidden(user)
  {
  }

  /** A user who did not ask to hide the branding sees it. */
  lemma BrandingShownUnlessRequested(user: User)
    requires !user.hideBranding
    ensures !IsBrandingHidden(user)
  {
  }

  /** The branding is hidden exactly for a user who asked for it on a plan other than the free one. */
  lemma BrandingHiddenExactly(user: User)
    ensures IsBrandingHidden(user) <==> user.hideBranding && (user.plan == Trial || user.plan == Pro)
  {
  }

  /** Only the hideBranding flag and the plan matter. */
  lemma BrandingDependsOnFlagAndPlan(a: User, b: User)
    requires a.hideBranding == b.hideBranding && a.plan == b.plan
    ensures IsBrandingHidden(a) == IsBrandingHidden(b)
  {
  }
}
