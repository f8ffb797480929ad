/**
 * The claim-triage workflow of `main.py`: the state record handed from node
 * to node, the four nodes (Ingest, Audit, Draft, Action), each of which
 * returns a partial update of that record, and the audit ledger, the CSV file
 * that the Action node appends one row to.
 *
 * The replies of the two language-model calls are parameters, and so is the
 * current date.
 */
module Pipeline {
  import opened Wrappers
  import opened Text
  import Money

  datatype Status = Ingested | Filed | PendingReview

  /** Position in the lifecycle: unset, then INGESTED, then FILED or PENDING_REVIEW (both final). */
  function Rank(st: Option<Status>): nat {
    match st
    case None => 0
    case Some(Ingested) => 1
    case Some(_) => 2
  }

  /**
   * The workflow state. Every key may be absent; a node's partial update has
   * the same shape, with only the keys it sets present.
   */
  datatype DeductionState = DeductionState(
    claimId: Option<string>,
    amount: Option<real>,
    contractText: Option<string>,
    status: Option<Status>,
    auditDate: Option<string>,
    violationFound: Option<bool>,
    evidence: Option<string>,
    emailDraft: Option<string>,
    humanApproved: Option<bool>)

  /** The update that sets nothing. */
  const NoUpdate := DeductionState(None, None, None, None, None, None, None, None, None)

  function Overwrite<T>(current: Option<T>, update: Option<T>): Option<T> {
    if update.Some? then update else current
  }

  /** Merging a node's update into the state, key by key, the update winning where it sets a key. */
  function Merge(s: DeductionState, u: DeductionState): DeductionState {
    DeductionState(
      Overwrite(s.claimId, u.claimId),
      Overwrite(s.amount, u.amount),
      Overwrite(s.contractText, u.contractText),
      Overwrite(s.status, u.status),
      Overwrite(s.auditDate, u.auditDate),
      Overwrite(s.violationFound, u.violationFound),
      Overwrite(s.evidence, u.evidence),
      Overwrite(s.emailDraft, u.emailDraft),
      Overwrite(s.humanApproved, u.humanApproved))
  }

  /** Python truthiness of an optional flag read with `state.get(key)`. */
  predicate Truthy(b: Option<bool>) {
    b == Some(true)
  }

  // ---------------------------------------------------------------- Ingest

  /** Ingest stamps the status and the date of the run, whatever the state holds. */
  function IngestNode(today: string): DeductionState {
    NoUpdate.(status := Some(Ingested), auditDate := Some(today))
  }

  lemma IngestStampsOnly(s: DeductionState, today: string)
    ensures Merge(s, IngestNode(today)) == s.(status := Some(Ingested), auditDate := Some(today))
  {
  }

  // ---------------------------------------------------------------- Audit

  /** The evaluator's verdict marker, looked for in the upper-cased reply. */
  const VerdictMarker := "VIOLATION: TRUE"

  /** The evaluator's evidence marker, looked for as written. */
  const ReasonMarker := "REASON:"

  /** `"VIOLATION: TRUE" in res.upper()`. */
  function ParseVerdict(reply: string): bool {
    Contains(Upper(reply), VerdictMarker)
  }

  /** `res.split("REASON:")[-1].strip() if "REASON:" in res else res`. */
  function ParseEvidence(reply: string): string {
    if Contains(reply, ReasonMarker) then Strip(Last(Split(reply, ReasonMarker))) else reply
  }

  /** Audit sets the verdict and the evidence, and nothing else. */
  function AuditNode(reply: string): DeductionState {
    NoUpdate.(violationFound := Some(ParseVerdict(reply)), evidence := Some(ParseEvidence(reply)))
  }

  /** The verdict is true exactly when the upper-cased reply carries the marker somewhere. */
  lemma VerdictSpec(reply: string)
    ensures ParseVerdict(reply) <==> exists i :: IsAt(Upper(reply), VerdictMarker, i)
  {
    ContainsIff(Upper(reply), VerdictMarker);
  }

  /**
   * When the reply has a reason marker, the evidence is the text after its
   * last occurrence, with surrounding whitespace removed.
   */
  lemma EvidenceAfterLastReason(reply: string, k: int)
    requires IsAt(reply, ReasonMarker, k) && forall j :: k < j ==> !IsAt(reply, ReasonMarker, j)
    ensures ParseEvidence(reply) == Strip(reply[k + |ReasonMarker|..])
  {
    ContainsIff(reply, ReasonMarker);
    SplitLastAfterLastOccurrence(reply, ReasonMarker, k);
  }

  /** Without a reason marker the whole reply is the evidence, verbatim. */
  lemma EvidenceVerbatimWithoutReason(reply: string)
    requires forall j :: !IsAt(reply, ReasonMarker, j)
    ensures ParseEvidence(reply) == reply
  {
    ContainsIff(reply, ReasonMarker);
  }

  /** Whatever the reply, the evidence never contains the reason marker itself. */
  lemma EvidenceHasNoReasonMarker(reply: string)
    ensures !Contains(ParseEvidence(reply), ReasonMarker)
  {
    ContainsIff(reply, ReasonMarker);
    if Contains(reply, ReasonMarker) {
      var k := LastIndexOf(reply, ReasonMarker).value;
      EvidenceAfterLastReason(reply, k);
      TailAfterLastHasNoMarker(reply, k);
    }
  }

  /** The text after the last reason marker has no reason marker, stripped or not. */
  lemma TailAfterLastHasNoMarker(reply: string, k: int)
    requires IsAt(reply, ReasonMarker, k) && forall j :: k < j ==> !IsAt(reply, ReasonMarker, j)
    ensures !Contains(Strip(reply[k + |ReasonMarker|..]), ReasonMarker)
  {
    var m := k + |ReasonMarker|;
    NoLaterInSuffix(reply, ReasonMarker, m, k);
    StripKeepsAbsence(reply[m..], ReasonMarker);
  }

  /**
   * A reply ending in the reason marker, a space and a word without an `R`
   * has that word as its evidence, whatever comes before the marker.
   */
  lemma EvidenceOfMarkedWord(head: string, w: string)
    requires w != [] && !IsSpace(w[0]) && !IsSpace(w[|w| - 1]) && 'R' !in w
    ensures ParseEvidence(head + (ReasonMarker + " " + w)) == w
  {
    var reply := head + (ReasonMarker + " " + w);
    MarkerLastInReply(head, w);
    EvidenceAfterLastReason(reply, |head|);
    TextAfterMarker(head, w);
    StripSpacedWord(w);
  }

  /** In such a reply, the text after the marker is the space and the word. */
  lemma TextAfterMarker(head: string, w: string)
    ensures (head + (ReasonMarker + " " + w))[|head| + |ReasonMarker|..] == " " + w
  {
    var rest := ReasonMarker + " " + w;
    assert (head + rest)[|head|..] == rest;
    assert rest[|ReasonMarker|..] == " " + w;
  }

  /** After any head, the marker before a word without an `R` is the last one in the reply. */
  lemma MarkerLastInReply(head: string, w: string)
    requires 'R' !in w
    ensures IsAt(head + (ReasonMarker + " " + w), ReasonMarker, |head|)
    ensures forall j :: |head| < j ==> !IsAt(head + (ReasonMarker + " " + w), ReasonMarker, j)
  {
    var rest := ReasonMarker + " " + w;
    var reply := head + rest;
    var k := |head|;
    MarkerOnlyAtStart(w);
    assert reply[k..] == rest;
    IsAtShift(reply, ReasonMarker, k, 0);
    forall j | k < j ensures !IsAt(reply, ReasonMarker, j) {
      IsAtShift(reply, ReasonMarker, k, j - k);
    }
  }

  /** In the marker, a space and a word without an `R`, the marker occurs only at the start. */
  lemma MarkerOnlyAtStart(w: string)
    requires 'R' !in w
    ensures IsAt(ReasonMarker + " " + w, ReasonMarker, 0)
    ensures forall j :: 0 < j ==> !IsAt(ReasonMarker + " " + w, ReasonMarker, j)
  {
    var rest := ReasonMarker + " " + w;
    assert rest[..|ReasonMarker|] == ReasonMarker;
    assert rest[1..] == "EASON: " + w;
    assert 'R' !in rest[1..];
    forall j | 0 < j ensures !IsAt(rest, ReasonMarker, j) {
      if IsAt(rest, ReasonMarker, j) {
        IsAtChar(rest, ReasonMarker, j, 0);
        assert false;
      }
    }
  }

  /** The Audit update sets the verdict and the evidence together and leaves the status alone. */
  lemma AuditSetsVerdictAndEvidence(s: DeductionState, reply: string)
    ensures Merge(s, AuditNode(reply))
            == s.(violationFound := Some(ParseVerdict(reply)), evidence := Some(ParseEvidence(reply)))
    ensures Merge(s, AuditNode(reply)).status == s.status
  {
  }

  // ---------------------------------------------------------------- Draft

  /** The draft written when there is nothing to dispute. */
  const SkippedDraft := "N/A"

  /** Draft: the sentinel when no violation was found, otherwise the drafting reply verbatim. */
  function DraftEmailNode(s: DeductionState, reply: string): DeductionState {
    if !Truthy(s.violationFound) then NoUpdate.(emailDraft := Some(SkippedDraft))
    else NoUpdate.(emailDraft := Some(reply))
  }

  /** Without a violation the drafting reply is never looked at: the update is the sentinel alone. */
  lemma DraftSkippedWithoutViolation(s: DeductionState, reply: string, other: string)
    requires !Truthy(s.violationFound)
    ensures DraftEmailNode(s, reply) == DraftEmailNode(s, other)
    ensures Merge(s, DraftEmailNode(s, reply)) == s.(emailDraft := Some(SkippedDraft))
  {
  }

  /** With a violation the draft is the drafting reply, verbatim, and nothing else changes. */
  lemma DraftVerbatimWithViolation(s: DeductionState, reply: string)
    requires Truthy(s.violationFound)
    ensures Merge(s, DraftEmailNode(s, reply)) == s.(emailDraft := Some(reply))
  {
  }

  // ---------------------------------------------------------------- Action

  /** `float(state.get("amount", 0))`: a missing amount counts as 0. */
  function AmountOf(s: DeductionState): real {
    s.amount.GetOr(0.0)
  }

  /** The approval rule: approved by a human, or below the risk threshold. */
  predicate IsApproved(s: DeductionState) {
    Truthy(s.humanApproved) || Money.AutoApproves(AmountOf(s))
  }

  function Outcome(s: DeductionState): Status {
    if IsApproved(s) then Filed else PendingReview
  }

  /** The partial update the Action node returns. */
  function ActionUpdate(s: DeductionState): DeductionState {
    NoUpdate.(status := Some(Outcome(s)), humanApproved := Some(IsApproved(s)))
  }

  /**
   * The claim is filed exactly when a human approved it or its amount is under
   * 500 (a missing amount counting as 0), and is left for review otherwise;
   * the returned approval flag is that same decision.
   */
  lemma ApprovalRule(s: DeductionState)
    ensures Merge(s, ActionUpdate(s)).status == Some(Filed)
            <==> s.humanApproved == Some(true) || s.amount.GetOr(0.0) < 500.0
    ensures Merge(s, ActionUpdate(s)).status == Some(PendingReview)
            <==> s.humanApproved != Some(true) && s.amount.GetOr(0.0) >= 500.0
    ensures Merge(s, ActionUpdate(s)).humanApproved == Some(Outcome(s) == Filed)
    ensures s.amount.None? ==> Outcome(s) == Filed
  {
  }

  /** One row of `audit_report.csv`. */
  datatype LogEntry = LogEntry(claimId: Option<string>, amount: real, status: Status, evidence: string, auditDate: string)

  /** How much of the evidence a ledger row keeps. */
  const EvidenceLimit: nat := 100

  /** The evidence logged for a state that has none. */
  const MissingEvidence := "N/A"

  /** Python's `s[:n]`. */
  function Truncate(s: string, n: nat): string {
    if |s| <= n then s else s[..n]
  }

  /** The row the Action node logs for a state, dated `today`. */
  function LogRow(s: DeductionState, today: string): LogEntry {
    LogEntry(s.claimId, AmountOf(s), Outcome(s), Truncate(s.evidence.GetOr(MissingEvidence), EvidenceLimit), today)
  }

  /**
   * The logged status is the status returned, and the logged evidence is the
   * state's evidence ("N/A" when there is none) cut to its first 100
   * characters: all of it when it is that short, exactly 100 otherwise.
   */
  lemma LogRowSpec(s: DeductionState, today: string)
    ensures LogRow(s, today).status == Merge(s, ActionUpdate(s)).status.value
    ensures var full := s.evidence.GetOr("N/A");
            var kept := LogRow(s, today).evidence;
            kept == (if |full| <= 100 then full else full[..100])
            && kept <= full && |kept| == (if |full| <= 100 then |full| else 100)
  {
  }

  // ---------------------------------------------------------------- Ledger

  /** A line of the ledger file: the header line or a logged row. */
  datatype Line = Header | Entry(entry: LogEntry)

  /** The ledger file: whether it exists, and its lines. */
  datatype LedgerFile = LedgerFile(present: bool, lines: seq<Line>)

  /**
   * `to_csv(..., mode='a', header=not os.path.exists(...))`: the row is added
   * at the end, after a header line exactly when the file did not exist.
   */
  function AppendRow(f: LedgerFile, e: LogEntry): LedgerFile {
    LedgerFile(true, f.lines + (if f.present then [] else [Header]) + [Entry(e)])
  }

  /**
   * An append keeps every earlier line, adds the row as the last line, and
   * adds a header line before it exactly when the file did not exist.
   */
  lemma AppendRowSpec(f: LedgerFile, e: LogEntry)
    ensures var g := AppendRow(f, e);
            g.present && f.lines <= g.lines && g.lines[|g.lines| - 1] == Entry(e)
            && |g.lines| == |f.lines| + (if f.present then 1 else 2)
            && (g.lines[|f.lines|] == Header <==> !f.present)
  {
  }

  /** Appending several rows, one after the other. */
  function AppendAll(f: LedgerFile, es: seq<LogEntry>): LedgerFile
    decreases |es|
  {
    if es == [] then f else AppendAll(AppendRow(f, es[0]), es[1..])
  }

  function Entries(es: seq<LogEntry>): seq<Line> {
    seq(|es|, i requires 0 <= i < |es| => Entry(es[i]))
  }

  /** Once the file exists, appends add rows only, in call order. */
  lemma {:induction false} AppendAllToExisting(f: LedgerFile, es: seq<LogEntry>)
    requires f.present
    ensures AppendAll(f, es) == LedgerFile(true, f.lines + Entries(es))
    decreases |es|
  {
    if es != [] {
      assert AppendRow(f, es[0]).lines == f.lines + [Entry(es[0])];
      AppendAllToExisting(AppendRow(f, es[0]), es[1..]);
      EntriesCons(es);
      ConcatAssoc(f.lines, [Entry(es[0])], Entries(es[1..]));
    }
  }

  /**
   * Starting from no file, n >= 1 appends leave exactly one header line
   * followed by the n rows in call order.
   */
  lemma FreshLedgerHasOneHeader(es: seq<LogEntry>)
    requires |es| >= 1
    ensures AppendAll(LedgerFile(false, []), es).lines == [Header] + Entries(es)
  {
    var f := AppendRow(LedgerFile(false, []), es[0]);
    var rest := Entries(es[1..]);
    assert AppendAll(LedgerFile(false, []), es) == AppendAll(f, es[1..]);
    assert f.lines == [Header] + [Entry(es[0])];
    AppendAllToExisting(f, es[1..]);
    EntriesCons(es);
    ConcatAssoc([Header], [Entry(es[0])], rest);
  }

  /** The rows of a non-empty run: the first, then the rest. */
  lemma EntriesCons(es: seq<LogEntry>)
    requires |es| >= 1
    ensures Entries(es) == [Entry(es[0])] + Entries(es[1..])
  {
    var rest := Entries(es[1..]);
    forall i | 1 <= i < |es| ensures Entries(es)[i] == rest[i - 1] {
    }
    assert Entries(es) == [Entry(es[0])] + rest;
  }

  lemma ConcatAssoc<T>(a: seq<T>, b: seq<T>, c: seq<T>)
    ensures a + b + c == a + (b + c)
  {
  }

  /** The audit ledger file, updated in place by the Action node. */
  class AuditLedger {
    var present: bool
    var lines: seq<Line>

    function File(): LedgerFile
      reads this
    {
      LedgerFile(present, lines)
    }

    constructor (f: LedgerFile)
      ensures File() == f
    {
      present, lines := f.present, f.lines;
    }

    /** Appends one row, writing the header line first when the file does not exist yet. */
    method Append(e: LogEntry)
      modifies this
      ensures File() == AppendRow(old(File()), e)
    {
      var header := !present;
      lines := lines + (if header then [Header] else []) + [Entry(e)];
      present := true;
    }

    /** The Action node: decide, log one row dated `today`, and return the update. */
    method ActionNode(s: DeductionState, today: string) returns (u: DeductionState)
      modifies this
      ensures u == ActionUpdate(s)
      ensures File() == AppendRow(old(File()), LogRow(s, today))
    {
      var amount := s.amount.GetOr(0.0);
      var isApproved := s.humanApproved == Some(true) || amount < Money.RiskThreshold;
      var outcome := if isApproved then Filed else PendingReview;
      var entry := LogEntry(s.claimId, amount, outcome, Truncate(s.evidence.GetOr(MissingEvidence), EvidenceLimit), today);
      Append(entry);
      u := NoUpdate.(status := Some(outcome), humanApproved := Some(isApproved));
    }
  }

  // ---------------------------------------------------------------- Workflow

  /** The states after each node of a run: before Ingest, after Ingest, Audit, Draft and Action. */
  function Trace(s0: DeductionState, ingestDate: string, evaluatorReply: string, draftReply: string): (t: seq<DeductionState>)
    ensures |t| == 5
  {
    var s1 := Merge(s0, IngestNode(ingestDate));
    var s2 := Merge(s1, AuditNode(evaluatorReply));
    var s3 := Merge(s2, DraftEmailNode(s2, draftReply));
    [s0, s1, s2, s3, Merge(s3, ActionUpdate(s3))]
  }

  /**
   * A whole run: the final state gets the verdict and the evidence of the
   * evaluator's reply, the draft exactly when there is a violation, and the
   * status FILED exactly when a human approved the claim or its amount is
   * under 500; the identifying fields pass through unchanged.
   */
  lemma WorkflowOutcome(s0: DeductionState, ingestDate: string, evaluatorReply: string, draftReply: string)
    ensures var final := Trace(s0, ingestDate, evaluatorReply, draftReply)[4];
            && final.violationFound == Some(ParseVerdict(evaluatorReply))
            && final.evidence == Some(ParseEvidence(evaluatorReply))
            && final.emailDraft == Some(if ParseVerdict(evaluatorReply) then draftReply else SkippedDraft)
            && (final.status == Some(Filed) <==> s0.humanApproved == Some(true) || s0.amount.GetOr(0.0) < 500.0)
            && (final.status == Some(PendingReview) <==> !(s0.humanApproved == Some(true) || s0.amount.GetOr(0.0) < 500.0))
            && final.auditDate == Some(ingestDate)
            && final.claimId == s0.claimId && final.amount == s0.amount && final.contractText == s0.contractText
  {
  }

  /** Starting from a state without a status, no node moves the status backwards. */
  lemma StatusNeverRegresses(s0: DeductionState, ingestDate: string, evaluatorReply: string, draftReply: string, i: nat, j: nat)
    requires s0.status.None?
    requires i <= j < 5
    ensures var t := Trace(s0, ingestDate, evaluatorReply, draftReply);
            Rank(t[i].status) <= Rank(t[j].status)
  {
  }

  /** The evaluator reply of the clean-claim scenario. */
  const CleanReply := "VIOLATION: FALSE | REASON: none"

  /** Its verdict is false: the only `V` of the upper-cased reply starts `VIOLATION: F`, not `VIOLATION: T`. */
  lemma CleanReplyVerdict()
    ensures !ParseVerdict(CleanReply)
  {
    var rest := " | REASON: none";
    assert CleanReply == "VIOLATION: FALSE" + rest;
    assert 'V' !in rest && 'v' !in rest;
    FalseVerdictStaysFalse(rest);
  }

  /** A reply opening with "VIOLATION: FALSE" and with no other `v` or `V` carries no verdict marker. */
  lemma FalseVerdictStaysFalse(rest: string)
    requires 'V' !in rest && 'v' !in rest
    ensures !ParseVerdict("VIOLATION: FALSE" + rest)
  {
    var head := "VIOLATION: FALSE";
    var reply := head + rest;
    var up := Upper(reply);
    assert 'V' !in head[1..] && 'v' !in head[1..];
    ContainsIff(up, VerdictMarker);
    forall i | IsAt(up, VerdictMarker, i) ensures false {
      IsAtChar(up, VerdictMarker, i, 0);
      if i >= |head| {
        assert reply[i] == rest[i - |head|];
      } else if i > 0 {
        assert reply[i] == head[1..][i - 1];
      }
      UpperCharInverse(reply[i], 'V');
      if i > 0 {
        assert false;
      }
      IsAtChar(up, VerdictMarker, i, 11);
    }
  }

  /** Its evidence is the word after the reason marker. */
  lemma CleanReplyEvidence()
    ensures ParseEvidence(CleanReply) == "none"
  {
    assert CleanReply == "VIOLATION: FALSE | " + (ReasonMarker + " " + "none");
    EvidenceOfMarkedWord("VIOLATION: FALSE | ", "none");
  }

  /**
   * A clean claim: the evaluator finds no violation, so no draft is written,
   * and 120 is under the threshold, so the claim is filed.
   */
  lemma ScenarioNoViolation(s0: DeductionState, ingestDate: string, draftReply: string)
    requires s0.amount == Some(120.0) && s0.humanApproved.None?
    ensures var final := Trace(s0, ingestDate, CleanReply, draftReply)[4];
            final.violationFound == Some(false) && final.emailDraft == Some("N/A")
            && final.evidence == Some("none") && final.status == Some(Filed)
  {
    CleanReplyVerdict();
    CleanReplyEvidence();
  }

  /** The evaluator reply of the late-delivery scenario. */
  const LateReply := "VIOLATION: TRUE | REASON: late"

  /** Its verdict is true: the upper-cased reply starts with the verdict marker. */
  lemma LateReplyVerdict()
    ensures ParseVerdict(LateReply)
  {
    assert IsAt(LateReply, VerdictMarker, 0);
    UpperIsAt(LateReply, VerdictMarker, 0);
    assert Upper(VerdictMarker) == VerdictMarker;
    ContainsIff(Upper(LateReply), VerdictMarker);
  }

  /** Its evidence is the word after the reason marker. */
  lemma LateReplyEvidence()
    ensures ParseEvidence(LateReply) == "late"
  {
    assert LateReply == "VIOLATION: TRUE | " + (ReasonMarker + " " + "late");
    EvidenceOfMarkedWord("VIOLATION: TRUE | ", "late");
  }

  /**
   * A late delivery: the evaluator finds a violation, the drafting reply
   * becomes the draft, and 1200 without a human approval is left for review,
   * with the whole (short) evidence logged.
   */
  lemma ScenarioViolation(s0: DeductionState, ingestDate: string, actionDate: string, draftReply: string)
    requires s0.amount == Some(1200.0) && s0.humanApproved.None?
    ensures var t := Trace(s0, ingestDate, LateReply, draftReply);
            && t[4].violationFound == Some(true) && t[4].emailDraft == Some(draftReply)
            && t[4].status == Some(PendingReview)
            && LogRow(t[3], actionDate).status == PendingReview
            && LogRow(t[3], actionDate).evidence == "late"
  {
    LateReplyVerdict();
    LateReplyEvidence();
  }

  /**
   * A run of the four nodes in sequence, each update merged into the state
   * before the next node runs, with the Action node's row logged to `ledger`.
   */
  method RunWorkflow(ledger: AuditLedger, s0: DeductionState, ingestDate: string, actionDate: string,
                     evaluatorReply: string, draftReply: string) returns (final: DeductionState)
    modifies ledger
    ensures final == Trace(s0, ingestDate, evaluatorReply, draftReply)[4]
    ensures ledger.File()
            == AppendRow(old(ledger.File()), LogRow(Trace(s0, ingestDate, evaluatorReply, draftReply)[3], actionDate))
  {
    var s := Merge(s0, IngestNode(ingestDate));
    s := Merge(s, AuditNode(evaluatorReply));
    s := Merge(s, DraftEmailNode(s, draftReply));
    var u := ledger.ActionNode(s, actionDate);
    final := Merge(s, u);
  }
}
