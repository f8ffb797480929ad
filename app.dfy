/**
 * The decisions specific to the Harvest Heritage dashboard (app.py): the
 * status banner of the selected claim and the retailer portal that the
 * appeal draft is pre-formatted for.
 */
module App {
  import opened Text
  import opened Money
  import opened Dashboard
  import Pipeline

  /** The two status banners of the command center. */
  datatype Banner = AutoApproved | VpAuthorizationRequired

  /** The banner for the selected claim's amount. */
  function BannerFor(amount: real): Banner {
    if AutoApproves(amount) then AutoApproved else VpAuthorizationRequired
  }

  /**
   * A claim of the export reads "auto-approved" exactly when it is not in the
   * high-risk queue, and its authorise button is offered exactly when the
   * banner asks for the VP.
   */
  lemma BannerMatchesQueue(cs: seq<Claim>, c: Claim)
    requires c in cs
    ensures BannerFor(c.amount) == AutoApproved <==> c !in HighRiskQueue(cs)
    ensures BannerFor(c.amount) == VpAuthorizationRequired <==> IsHighRisk(c.amount)
  {
    ThresholdTestsComplementary(c.amount);
  }

  /**
   * Without a human approval, the workflow's Action node files a claim
   * exactly when the dashboard shows it as auto-approved: both apply the
   * same threshold.
   */
  lemma BannerAgreesWithActionNode(s: Pipeline.DeductionState)
    requires !Pipeline.Truthy(s.humanApproved)
    ensures Pipeline.Outcome(s) == Pipeline.Filed <==> BannerFor(Pipeline.AmountOf(s)) == AutoApproved
  {
  }

  const DefaultPortalSuffix := " Claims Dept."

  /** `portal_map.get(retailer, f"{retailer} Claims Dept.")`. */
  function PortalFor(retailer: string): (portal: string)
    ensures IsAt(portal, retailer, 0) && |portal| > |retailer|
  {
    if retailer == "Walmart" then
      PrefixIsAt("Walmart", " Retail Link");
      "Walmart Retail Link"
    else if retailer == "Kroger" then
      PrefixIsAt("Kroger", " Vendor Central");
      "Kroger Vendor Central"
    else if retailer == "Target" then
      PrefixIsAt("Target", " Partners Online");
      "Target Partners Online"
    else
      PrefixIsAt(retailer, DefaultPortalSuffix);
      retailer + DefaultPortalSuffix
  }

  predicate IsMappedRetailer(retailer: string) {
    retailer == "Walmart" || retailer == "Kroger" || retailer == "Target"
  }

  predicate IsNamedPortal(portal: string) {
    portal == "Walmart Retail Link" || portal == "Kroger Vendor Central" || portal == "Target Partners Online"
  }

  /**
   * A named portal is used exactly for the three mapped retailers; every
   * other retailer gets its own name followed by " Claims Dept.".
   */
  lemma {:induction false} PortalLookup(retailer: string)
    ensures IsNamedPortal(PortalFor(retailer)) <==> IsMappedRetailer(retailer)
    ensures !IsMappedRetailer(retailer) ==> PortalFor(retailer) == retailer + DefaultPortalSuffix
  {
    if !IsMappedRetailer(retailer) {
      var p := retailer + DefaultPortalSuffix;
      assert p[|p| - 1] == '.';
      if IsNamedPortal(p) {
        assert false;
      }
    }
  }

  /** The lookup matches names exactly: a lower-case "walmart" gets the default portal. */
  lemma PortalIsCaseSensitive()
    ensures PortalFor("walmart") == "walmart Claims Dept."
  {
  }
}
