/**
 * The decisions specific to the Goetze's dashboard (schema.py): the keyword
 * classifier that picks the evidence sentence of the appeal draft, the
 * branch the audit trace takes, and the clawed-back-funds session, which
 * runs the session logic of the Dashboard module.
 */
module Schema {
  import opened Text
  import opened Money
  import opened Dashboard

  const PalletWord := "pallet"
  const ShortageWord := "shortage"
  const DamagesWord := "damages"

  /** Which evidence sentence the appeal draft cites. */
  datatype EvidenceKind = WarehouseLog | BillOfLading | Generic

  /**
   * The classifier of the draft: "pallet" in the lower-cased description wins,
   * then "shortage" or "damages", and anything else is generic.
   */
  function ClassifyEvidence(description: string): EvidenceKind {
    var desc := Lower(description);
    if Contains(desc, PalletWord) then WarehouseLog
    else if Contains(desc, ShortageWord) || Contains(desc, DamagesWord) then BillOfLading
    else Generic
  }

  /** The check the audit trace reports verifying. */
  datatype AuditCheck = PalletConfiguration | BillOfLadingTimestamps

  /** The audit trace: the pallet-configuration check for a pallet description, the BOL check otherwise. */
  function AuditTraceCheck(description: string): AuditCheck {
    if Contains(Lower(description), PalletWord) then PalletConfiguration else BillOfLadingTimestamps
  }

  /** The evidence sentence of the draft, filled in with the claim's retailer, date or description. */
  function EvidenceMessage(description: string, retailer: string, date: string): string {
    match ClassifyEvidence(description)
    case WarehouseLog =>
      "Audit of Warehouse Log #GTZ-99 shows our pallet configuration met the agreed-upon standards for "
      + retailer + "."
    case BillOfLading =>
      "Signed BOL and warehouse receipts from " + date + " confirm no discrepancies occurred."
    case Generic =>
      "Forensic audit confirms the charge for '" + description + "' is administratively invalid."
  }

  /** The three cases of the classifier, each with its keyword test. */
  lemma ClassificationCases(description: string)
    ensures ClassifyEvidence(description) == WarehouseLog <==> Contains(Lower(description), PalletWord)
    ensures ClassifyEvidence(description) == BillOfLading <==>
      !Contains(Lower(description), PalletWord)
      && (Contains(Lower(description), ShortageWord) || Contains(Lower(description), DamagesWord))
    ensures ClassifyEvidence(description) == Generic <==>
      !Contains(Lower(description), PalletWord) && !Contains(Lower(description), ShortageWord)
      && !Contains(Lower(description), DamagesWord)
  {
  }

  /**
   * The keyword test ignores case: "pallet" written in any mix of cases
   * selects the warehouse log, even when "shortage" or "damages" appear too.
   */
  lemma PalletInAnyCase(description: string, word: string, i: int)
    requires IsAt(description, word, i) && Lower(word) == PalletWord
    ensures ClassifyEvidence(description) == WarehouseLog
  {
    LowerIsAt(description, word, i);
    ContainsIff(Lower(description), PalletWord);
  }

  /** Without "pallet", "shortage" or "damages" in any case selects the bill of lading. */
  lemma ShortageOrDamagesInAnyCase(description: string, word: string, i: int)
    requires IsAt(description, word, i) && (Lower(word) == ShortageWord || Lower(word) == DamagesWord)
    requires !Contains(Lower(description), PalletWord)
    ensures ClassifyEvidence(description) == BillOfLading
  {
    LowerIsAt(description, word, i);
    ContainsIff(Lower(description), Lower(word));
  }

  /** A description with no `p` or `P` never takes the pallet branch. */
  lemma NoPalletWithoutP(description: string)
    requires 'p' !in description && 'P' !in description
    ensures !Contains(Lower(description), PalletWord)
  {
    ContainsIff(Lower(description), PalletWord);
    forall i | IsAt(Lower(description), PalletWord, i) ensures false {
      IsAtChar(Lower(description), PalletWord, i, 0);
      LowerCharInverse(description[i], 'p');
    }
  }

  /** "Pallet Shortage" is a pallet dispute, although it also says "shortage". */
  lemma PalletShortageExample()
    ensures ClassifyEvidence("Pallet Shortage") == WarehouseLog
  {
    assert IsAt("Pallet Shortage", "Pallet", 0);
    assert Lower("Pallet") == PalletWord;
    PalletInAnyCase("Pallet Shortage", "Pallet", 0);
  }

  /** "DAMAGES in transit" is a bill-of-lading dispute. */
  lemma DamagesInTransitExample()
    ensures ClassifyEvidence("DAMAGES in transit") == BillOfLading
  {
    var d := "DAMAGES in transit";
    assert 'p' !in d && 'P' !in d;
    NoPalletWithoutP(d);
    assert IsAt(d, "DAMAGES", 0);
    assert Lower("DAMAGES") == DamagesWord;
    ShortageOrDamagesInAnyCase(d, "DAMAGES", 0);
  }

  /** The audit trace and the draft always agree on whether a claim is a pallet dispute. */
  lemma TraceAgreesWithDraft(description: string)
    ensures AuditTraceCheck(description) == PalletConfiguration <==> ClassifyEvidence(description) == WarehouseLog
  {
  }

  /** The warehouse-log sentence names the claim's retailer. */
  lemma WarehouseEvidenceNamesRetailer(description: string, retailer: string, date: string)
    requires ClassifyEvidence(description) == WarehouseLog
    ensures Contains(EvidenceMessage(description, retailer, date), retailer)
  {
    ContainsInMiddle("Audit of Warehouse Log #GTZ-99 shows our pallet configuration met the agreed-upon standards for ",
                     retailer, ".");
  }

  /** The bill-of-lading sentence names the claim's date. */
  lemma BillOfLadingEvidenceNamesDate(description: string, retailer: string, date: string)
    requires ClassifyEvidence(description) == BillOfLading
    ensures Contains(EvidenceMessage(description, retailer, date), date)
  {
    ContainsInMiddle("Signed BOL and warehouse receipts from ", date, " confirm no discrepancies occurred.");
  }

  /** The generic sentence quotes the description itself. */
  lemma GenericEvidenceQuotesDescription(description: string, retailer: string, date: string)
    requires ClassifyEvidence(description) == Generic
    ensures Contains(EvidenceMessage(description, retailer, date), description)
  {
    ContainsInMiddle("Forensic audit confirms the charge for '", description, "' is administratively invalid.");
  }

  /**
   * The clawed-back funds of a new session are the sum of the amounts of the
   * honoured authorisations, each at least 500: they stay 0 exactly until
   * the first one.
   */
  lemma ClawbackOnlyThroughAuthorizations(clicks: seq<Click>)
    ensures Replay(InitialSession, clicks).funds == OfferedTotal(clicks)
    ensures Replay(InitialSession, clicks).funds == 0.0 <==> OfferedCount(clicks) == 0
  {
    ReplayFunds(InitialSession, clicks);
    FundsNeverDecrease(InitialSession, clicks);
    if OfferedCount(clicks) == 0 {
      OfferedTotalZero(clicks);
    }
  }

  /** No honoured click, nothing clawed back. */
  lemma {:induction false} OfferedTotalZero(clicks: seq<Click>)
    requires OfferedCount(clicks) == 0
    ensures OfferedTotal(clicks) == 0.0
  {
    if |clicks| > 0 {
      OfferedTotalZero(clicks[1..]);
    }
  }

  /** The draft panel of a new session appears only for a claim some honoured click authorised. */
  lemma DraftOnlyAfterAuthorization(clicks: seq<Click>, selected: Cell)
    requires ShowsDraft(Replay(InitialSession, clicks), selected)
    ensures exists i :: 0 <= i < |clicks| && IsHighRisk(clicks[i].amount) && SameId(clicks[i].id, selected)
  {
    AuthorizedIdComesFromClick(InitialSession, clicks);
  }
}
