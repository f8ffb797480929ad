# Deduction recovery: workflow and dashboards in Dafny

This project models the decision logic of a retail-deduction recovery tool.

**The workflow (`main.py`).** A LangGraph pipeline takes one deduction claim through four nodes, each returning a partial update of the shared claim state:
- **Ingest** stamps the claim `INGESTED` with the run's date.
- **Audit** reads a language-model reply into a violation verdict and an evidence summary.
- **Draft** writes the dispute email. It writes `"N/A"` when there is no violation.
- **Action** files the claim when a human approved it or its amount is under 500; otherwise it leaves the claim for review. It also appends one row to the `audit_report.csv` ledger. The header line is written only when the file does not exist yet.

**The dashboards (`app.py`, `schema.py`).** Two Streamlit pages share one data side:
- The uploaded deduction export has its column names stripped.
- Its `Claimed_Amount` column is cleaned in place: `$` and `,` are removed, the rest is parsed, and unparseable text becomes 0.
- The page shows the high-risk queue (amount at least 500, in export order), the total leakage and the per-retailer sums.
- A claim is selected by id.
- An authorise button, offered only at 500 or more, adds the amount to the session's recovered funds and records the claim's id. The appeal draft is shown only for the recorded id.
- `app.py` also shows the selected claim's status banner: "auto-approved" under 500 and "VP authorization required" otherwise. It maps three retailers to their named claim portals, with `<retailer> Claims Dept.` as the default.
- `schema.py` picks the draft's evidence sentence by keyword. The warehouse log is cited when the description mentions "pallet", in any case. The bill of lading is cited for "shortage" or "damages". Otherwise the sentence is generic. Its audit trace uses the same pallet test.

`schema.py:28-47` and `schema.py:93-100` run the same code as `app.py:41-63` and `app.py:110-118`, under the name `clawed_back_funds` instead of `reclaimed_funds`. One Dashboard module models both.

Modules:
- `Wrappers`: the `Option` type.
- `Text`: Python's `in`, `split(...)[-1]`, `strip()`, `upper()` and `lower()` on strings.
- `Money`: the shared threshold of 500, the amount-cleaning parser, and the `${x:,.2f}` formatter.
- `Pipeline`: the claim state, the four nodes, the last-write-wins merge, the ledger file as a class, and a whole run.
- `Dashboard`: the export frame as a class, the claims view, the queue, the totals, the selection, and the session as a class.
- `App`: the banner and the portal lookup.
- `Schema`: the evidence classifier, the audit trace, and the clawback session.

The code does not do the following, and neither does the model:
- The Audit node sets no `AUDITED` status. Nothing in the code produces such a status.
- A failed language-model call raises out of its node; the code defines no error type, no sentinel and no retry for it. Both calls are parameters here, and whatever they return is used as is.
- Running the workflow twice appends two ledger rows. There is no idempotent replay.
- The draft is `"N/A"` whenever no violation was found. It can also be `"N/A"` with a violation, when the drafting reply itself is `"N/A"`. So "the draft is N/A exactly when there is no violation" does not hold.

## Model

| member | source | states |
|---|---|---|
| Money.ThresholdTestsComplementary | main.py:58 | for every amount, exactly one of the `amount < 500` auto-approval test and the `amount >= 500` high-risk test holds |
| Money.RemoveSymbols | app.py:48 | the cleaned text contains no `$` and no `,` and is no longer than the input |
| Money.RemoveSymbolsNoNewChars | app.py:48 | every character left after removing `$` and `,` was in the input |
| Money.RemoveSymbolsKeepsClean | app.py:48 | text without `$` or `,` is left exactly as it is |
| Money.RemoveSymbolsAppend | app.py:48 | removing `$` and `,` works character by character: it distributes over concatenation, so with RemoveSymbolsKeepsClean every other character is kept, in order |
| Money.CleanAmountReadsFormatted | app.py:53 | cleaning the `$1,234.56`-style text that the page prints for any cents value reads back that value, negatives included |
| Money.CleanAmountIgnoresSymbols | schema.py:34 | inserting a `$` or a `,` anywhere in the text does not change the cleaned amount |
| Money.CleanAmountNonNegative | app.py:48 | text without a minus sign never cleans to a negative amount |
| Money.CleanAmountFormattedExample | app.py:45-48 | `"$1,234.56"` cleans to 1234.56 |
| Money.CleanAmountJunkIsZero | schema.py:34 | unparseable text (`"bad"`, `"nan"`, the empty string) becomes 0 |
| Money.NoDigitsIsZero | app.py:48 | text without a single digit is never a number, so it cleans to 0 |
| Text.ContainsIff | main.py:38 | Python's substring test holds exactly when the pattern occurs at some index |
| Text.JoinSplit | main.py:39 | joining the pieces of `split(sep)` with `sep` gives back the original text |
| Text.SplitLastAfterLastOccurrence | main.py:39 | for a separator whose first character does not recur in it (such as `REASON:`), the last piece of `split` is the text after the separator's last occurrence |
| Text.StripSpec | main.py:39 | `strip()` keeps one contiguous piece, removes only whitespace around it, and leaves no whitespace at either end |
| Text.StripIdempotent | app.py:43 | stripping a stripped name changes nothing |
| Text.StripKeepsAbsence | main.py:39 | stripping cannot create an occurrence: text in which a pattern does not occur still lacks it after `strip()` |
| Text.LowerIsAt | schema.py:105 | lower-casing keeps every occurrence at its index, lower-cased |
| Text.UpperIsAt | main.py:38 | upper-casing keeps every occurrence at its index, upper-cased |
| Pipeline.IngestStampsOnly | main.py:20-23 | Ingest sets the status to INGESTED and the audit date to the run's date and changes no other field |
| Pipeline.VerdictSpec | main.py:38 | the verdict is true exactly when the upper-cased reply contains `VIOLATION: TRUE` |
| Pipeline.FalseVerdictStaysFalse | main.py:38 | a reply that opens with `VIOLATION: FALSE` and has no other `v` or `V` gives no violation |
| Pipeline.EvidenceAfterLastReason | main.py:39 | with a `REASON:` marker, the evidence is the stripped text after its last occurrence |
| Pipeline.EvidenceVerbatimWithoutReason | main.py:39 | without a `REASON:` marker, the evidence is the whole reply, unchanged |
| Pipeline.EvidenceHasNoReasonMarker | main.py:39 | whatever the reply, the evidence never contains `REASON:` |
| Pipeline.EvidenceOfMarkedWord | main.py:39 | a reply ending in `REASON: ` and a word without an `R` or outer whitespace has that word as its evidence |
| Pipeline.AuditSetsVerdictAndEvidence | main.py:41 | the Audit update sets the verdict and the evidence and leaves the status and every other field as they were |
| Pipeline.DraftSkippedWithoutViolation | main.py:45-47 | without a violation the draft is `"N/A"` whatever the drafting reply would be, and nothing else changes |
| Pipeline.DraftVerbatimWithViolation | main.py:49-52 | with a violation the draft is the drafting reply, verbatim, and nothing else changes |
| Pipeline.ApprovalRule | main.py:57-59 | FILED exactly when a human approved or the amount (0 when missing) is under 500; PENDING_REVIEW exactly otherwise; the returned approval flag is that decision |
| Pipeline.LogRowSpec | main.py:61-67 | the logged status is the returned one, and the logged evidence (`"N/A"` when missing) is exactly its first 100 characters: all of it when it has at most 100, otherwise a prefix of length 100 |
| Pipeline.AppendRowSpec | main.py:68 | an append keeps every earlier line and ends with the new row, with a header line before it exactly when the file did not exist |
| Pipeline.AppendAllToExisting | main.py:68 | once the file exists, successive appends add only rows, in call order |
| Pipeline.FreshLedgerHasOneHeader | main.py:68 | from no file, one or more appends give exactly one header line followed by the rows in order |
| Pipeline.AuditLedger.Append | main.py:68 | the ledger file becomes the old file with the row appended, headed when it did not exist |
| Pipeline.AuditLedger.ActionNode | main.py:54-69 | the Action node returns the approval update of the approval rule and appends that state's row to the ledger |
| Pipeline.WorkflowOutcome | main.py:73-75 | a run ends with the reply's verdict and evidence, the draft exactly when there is a violation, FILED exactly under the approval rule, the ingest date, and unchanged claim fields |
| Pipeline.StatusNeverRegresses | main.py:23 | from a state without a status, the status moves only forward (INGESTED, then FILED or PENDING_REVIEW) along a run |
| Pipeline.ScenarioNoViolation | main.py:37-47 | a clean evaluator reply (verdict `VIOLATION: FALSE`, reason `none`) on a 120 claim gives no violation, draft `"N/A"`, evidence `none` and FILED |
| Pipeline.ScenarioViolation | main.py:37-69 | an evaluator reply with verdict `VIOLATION: TRUE` and reason `late` on a 1200 claim without approval gives a violation, the drafting reply as draft, PENDING_REVIEW, and a ledger row with evidence `late` |
| Pipeline.RunWorkflow | main.py:73-75 | running the four nodes in sequence yields the run's final state and appends the Action node's row to the ledger |
| Dashboard.ColumnIndex | app.py:47 | the index found holds the name and no earlier column does; none is found exactly when the name is not a column |
| Dashboard.StrippedHeaderFound | app.py:43 | a header that differs from a wanted name only by surrounding whitespace is found after stripping |
| Dashboard.StripAllIdempotent | app.py:43 | stripping the column names a second time changes nothing |
| Dashboard.NormalizeCell | app.py:48 | a cleaned cell is a number: the cleaned text for text, the same number for a number |
| Dashboard.BlankCleansLikeNan | app.py:48 | an empty field cleans like the text `nan`, to 0 |
| Dashboard.NormalizeCellIdempotent | app.py:48 | cleaning a cleaned cell changes nothing |
| Dashboard.NormalizedColumnIsNumeric | app.py:48 | after cleaning, every cell of the amount column is a number |
| Dashboard.ClaimFrame.constructor | app.py:42 | the frame holds the export's header and records |
| Dashboard.ClaimFrame.StripColumnNames | app.py:43 | every column name is replaced by its stripped form and no cell changes |
| Dashboard.ClaimFrame.NormalizeAmounts | app.py:46-48 | with a `Claimed_Amount` column, exactly its cells are cleaned and become numbers; without one the frame is unchanged |
| Dashboard.ClaimFrame.Prepare | app.py:41-48 | the names become their stripped forms; the first column named `Claimed_Amount` after stripping has every cell cleaned and every other cell keeps its value; with no such column the rows are unchanged; a header that strips to `Claimed_Amount` gives a numeric amount column |
| Dashboard.LayoutOf | app.py:68 | the layout is missing exactly when one of the seven columns the page reads is missing; otherwise each of its seven fields (id, date, retailer, reason code, amount, category, description) is the position of the column of that name |
| Dashboard.ClaimsOf | app.py:62-63 | the claims view exists exactly when every amount is a number, and then has one claim per row whose amount and six text fields are that row's cells in the layout's columns |
| Dashboard.CleanedFrameHasClaims | app.py:62-63 | once the amount column is cleaned, the claims view always exists |
| Dashboard.HighRiskQueue | app.py:63 | the queue holds exactly the claims with amount at least 500 and is no longer than the export |
| Dashboard.HighRiskQueueAppend | schema.py:47 | the queue keeps the export's order: the queue of a concatenation is the concatenation of the queues |
| Dashboard.HighRiskQueueOnlyFlagged | app.py:65 | every claim in the queue is at least 500 |
| Dashboard.Retailers | app.py:57 | the retailer groups are distinct and are exactly the non-empty retailers of the claims |
| Dashboard.RetailerTotalsAddUp | app.py:57 | the per-retailer sums add up to the total leakage, less the claims without a retailer |
| Dashboard.RetailerTotalsAddUpWhenFilled | app.py:52 | with every retailer filled in, the per-retailer sums add up to the total leakage |
| Dashboard.SelectClaim | app.py:88 | the selected claim is the first whose id equals the selected one (an empty id matches nothing); none exactly when no id matches |
| Dashboard.SelectListedId | app.py:87-88 | an id offered by the select box always selects a claim with that id |
| Dashboard.AuthorizeShowsDraft | app.py:112-118 | after authorising a high-risk claim, its draft is shown and the funds grew by its amount |
| Dashboard.LowAmountChangesNothing | app.py:110 | under 500 no authorisation is offered and the session is unchanged |
| Dashboard.ReplayFunds | app.py:113 | the funds are the starting funds plus the amounts of the honoured clicks |
| Dashboard.FundsNeverDecrease | app.py:110-114 | the funds never decrease, and from a new session they are at least 500 per honoured click |
| Dashboard.AuthorizedIdComesFromClick | app.py:114 | the authorised id is the starting one or the id of an honoured click |
| Dashboard.SameClaimCountedTwice | app.py:112-113 | authorising the same claim twice adds its amount twice |
| Dashboard.RecoverySession.constructor | app.py:33-34 | a new session has no funds and no authorised claim |
| Dashboard.RecoverySession.ClickAuthorize | app.py:110-115 | a click moves the session by the authorisation rule; the funds never decrease |
| Dashboard.RecoverySession.ShowsDraftFor | app.py:118 | the draft is shown exactly when the authorised id is the selected id, an empty (NaN) selection matching nothing |
| App.BannerMatchesQueue | app.py:92-95 | a claim reads auto-approved exactly when it is not in the high-risk queue, and asks for the VP exactly when it is high-risk |
| App.BannerAgreesWithActionNode | app.py:92 | without human approval, the workflow files a claim exactly when the dashboard shows it as auto-approved |
| App.PortalFor | app.py:122-127 | the portal name always begins with the retailer's name and is longer than it |
| App.PortalLookup | app.py:127 | a named portal is used exactly for Walmart, Kroger and Target; any other retailer gets `<retailer> Claims Dept.` |
| App.PortalIsCaseSensitive | app.py:122-127 | the lookup matches names exactly: `walmart` gets `walmart Claims Dept.` |
| Schema.ClassificationCases | schema.py:105-111 | the warehouse log exactly for "pallet", the bill of lading exactly for "shortage" or "damages" without "pallet", the generic sentence exactly for none of them |
| Schema.PalletInAnyCase | schema.py:106 | "pallet" in any mix of cases selects the warehouse log, whatever else the description says |
| Schema.ShortageOrDamagesInAnyCase | schema.py:108 | without "pallet", "shortage" or "damages" in any case selects the bill of lading |
| Schema.NoPalletWithoutP | schema.py:106 | a description without a `p` or `P` never takes the pallet branch |
| Schema.PalletShortageExample | schema.py:105-107 | `Pallet Shortage` is a warehouse-log dispute, although it also says shortage |
| Schema.DamagesInTransitExample | schema.py:105-109 | `DAMAGES in transit` is a bill-of-lading dispute |
| Schema.TraceAgreesWithDraft | schema.py:86 | the audit trace checks the pallet configuration exactly when the draft cites the warehouse log |
| Schema.WarehouseEvidenceNamesRetailer | schema.py:106-107 | a pallet claim's evidence sentence names the claim's retailer |
| Schema.BillOfLadingEvidenceNamesDate | schema.py:108-109 | a shortage or damages claim's evidence sentence names the claim date |
| Schema.GenericEvidenceQuotesDescription | schema.py:110-111 | any other claim's evidence sentence quotes the description |
| Schema.ClawbackOnlyThroughAuthorizations | schema.py:93-96 | from a new session the clawed-back funds are the sum of the honoured authorisations and stay 0 exactly until the first |
| Schema.DraftOnlyAfterAuthorization | schema.py:100 | the draft panel appears only for a claim that an honoured click authorised |

## Left out

- The language-model calls (`main.py:28-37`, `main.py:50-52`) are network calls. Their replies are parameters, and the prompt wording is not modelled.
- The LangGraph graph and the `SqliteSaver` checkpointer (`main.py:73-75`) are library code, and the edge wiring is not visible. Pipeline.Trace and Pipeline.RunWorkflow assume the nodes run in sequence and each update is merged key by key, last write wins. The source does not show this.
- The `DeductionState` type is imported from schema.py, but schema.py does not define it. Pipeline.DeductionState is this model's own record of the keys the nodes use.
- Pipeline.RunWorkflow covers only runs whose two calls return a reply; a failing call stops the run before Action, and no row is logged.
- `datetime.now()` is the run's date, passed as a parameter. The `print` traces are dropped.
- Amounts are exact reals. Floating-point rounding is not modelled.
- Money.CleanAmount accepts only an optional sign, digits and an optional decimal fraction. Everything else becomes 0. pandas' fuller `to_numeric` grammar is left out: surrounding whitespace, exponents, `inf`. It would give other numbers for such text.
- Text.Upper and Text.Lower cover ASCII, the dotless i, the long s and the Kelvin sign. Case mappings to several characters are left out. None of them can create the ASCII keywords the code looks for.
- Python and pandas allow `amount` to be present with the value `None`, which `float(None)` rejects. Pipeline.AmountOf covers only a missing key.
- The CSV text itself is left out: quoting, separators, and parsing the upload with pandas type inference. The ledger is a sequence of header and row lines; the export is a header and rows of cells.
- Dashboard.ColumnIndex takes the first column of a name. Duplicate column names, where pandas returns several columns, are left out.
- Dashboard.SumByRetailer sums groups in first-appearance order. `groupby` sorts its keys, which does not change the sums.
- Streamlit rendering is left out: page setup, CSS, metrics, charts, the dataframe styling and its `try`/`except` fallback, text areas, `st.rerun` and `st.stop`. The dispute email bodies (`app.py:129-144`, `schema.py:113-130`) and the success messages are fixed text around the claim's fields, and are left out too. A page that hits a missing column or a text amount stops with an error; the model represents that as `None` (Dashboard.LayoutOf, Dashboard.ClaimsOf, Dashboard.SelectClaim).
- Dashboard.ClaimsOf: the claim's text fields are kept as cells. Calling `.lower()` or `.upper()` on a non-text description or retailer is not modelled; the classifier and the portal lookup take text.
- Concurrent or atomic ledger appends and retries are absent from the code, and so absent from the model.
