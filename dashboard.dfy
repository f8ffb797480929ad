/**
 * The data side shared by both margin-defense dashboards (app.py and
 * schema.py): the uploaded deduction export as a frame whose column names
 * are stripped and whose amount column is cleaned in place, the claims view
 * the pages read, the high-risk queue, the leakage totals, the selection of
 * one claim, and the session state that an authorisation click changes.
 */
module Dashboard {
  import opened Wrappers
  import opened Text
  import opened Money

  /** One cell of the export as pandas holds it: text, a number, or an empty field (NaN). */
  datatype Cell = Str(s: string) | Num(x: real) | Blank

  const AmountColumn := "Claimed_Amount"
  const IdColumn := "Claim_ID"
  const DateColumn := "Date"
  const RetailerColumn := "Retailer"
  const ReasonColumn := "Reason_Code"
  const CategoryColumn := "Category"
  const DescriptionColumn := "Description"

  /** `df.columns.str.strip()`: every column name stripped of surrounding whitespace. */
  function StripAll(names: seq<string>): seq<string> {
    seq(|names|, i requires 0 <= i < |names| => Strip(names[i]))
  }

  /** Where `name` first occurs among the column names, if it does. */
  function ColumnIndex(names: seq<string>, name: string): (r: Option<nat>)
    ensures r.Some? ==> r.value < |names| && names[r.value] == name
    ensures r.Some? ==> forall j :: 0 <= j < r.value ==> names[j] != name
    ensures r.None? <==> name !in names
  {
    if |names| == 0 then None
    else if names[0] == name then Some(0)
    else match ColumnIndex(names[1..], name)
      case None => None
      case Some(j) => Some(j + 1)
  }

  /**
   * A header that only differs from a wanted column name by surrounding
   * whitespace is found once the names are stripped.
   */
  lemma StrippedHeaderFound(names: seq<string>, i: nat, name: string)
    requires i < |names| && Strip(names[i]) == name
    ensures ColumnIndex(StripAll(names), name).Some?
  {
    var stripped := StripAll(names);
    assert stripped[i] == name;
    assert name in stripped;
  }

  /** Stripping the column names a second time changes nothing. */
  lemma StripAllIdempotent(names: seq<string>)
    ensures StripAll(StripAll(names)) == StripAll(names)
  {
    var once := StripAll(names);
    var twice := StripAll(once);
    assert |twice| == |once|;
    forall j | 0 <= j < |names| ensures twice[j] == once[j] {
      StripIdempotent(names[j]);
    }
  }

  /**
   * The amount cleaning of one cell: `astype(str)`, removing `$` and `,`,
   * `to_numeric(errors='coerce')` and `fillna(0.0)`. A number reads back as
   * itself and an empty field as 0.
   */
  function NormalizeCell(c: Cell): (r: Cell)
    ensures r.Num?
    ensures c.Num? ==> r == c
    ensures c.Str? ==> r.x == CleanAmount(c.s)
  {
    match c
    case Str(s) => Num(CleanAmount(s))
    case Num(_) => c
    case Blank => Num(0.0)
  }

  /** An empty field prints as `nan` under `astype(str)`, and cleans like that text. */
  lemma BlankCleansLikeNan()
    ensures NormalizeCell(Blank) == NormalizeCell(Str("nan"))
  {
    CleanAmountJunkIsZero();
  }

  /** Cleaning a column twice is cleaning it once. */
  lemma NormalizeCellIdempotent(c: Cell)
    ensures NormalizeCell(NormalizeCell(c)) == NormalizeCell(c)
  {
  }

  predicate Rectangular(width: nat, rows: seq<seq<Cell>>) {
    forall i :: 0 <= i < |rows| ==> |rows[i]| == width
  }

  /** The rows with column `k` cleaned and every other cell kept. */
  function NormalizeColumn(rows: seq<seq<Cell>>, k: nat): seq<seq<Cell>> {
    seq(|rows|, i requires 0 <= i < |rows| =>
      if k < |rows[i]| then rows[i][k := NormalizeCell(rows[i][k])] else rows[i])
  }

  /** Every cell of column `k` is a number: the amount column after cleaning. */
  predicate NumericColumn(rows: seq<seq<Cell>>, k: nat) {
    forall i :: 0 <= i < |rows| ==> k < |rows[i]| && rows[i][k].Num?
  }

  /** Cleaning the amount column leaves it numeric, whatever the export held. */
  lemma NormalizedColumnIsNumeric(width: nat, rows: seq<seq<Cell>>, k: nat)
    requires Rectangular(width, rows) && k < width
    ensures NumericColumn(NormalizeColumn(rows, k), k)
  {
  }

  /** The uploaded export, as the sidebar of both pages prepares it in place. */
  class ClaimFrame {
    var columns: seq<string>
    var rows: seq<seq<Cell>>

    ghost predicate Valid()
      reads this
    {
      Rectangular(|columns|, rows)
    }

    constructor (header: seq<string>, records: seq<seq<Cell>>)
      requires Rectangular(|header|, records)
      ensures columns == header && rows == records && Valid()
    {
      columns := header;
      rows := records;
    }

    /** The column names are replaced by their stripped forms; the cells stay. */
    method StripColumnNames()
      requires Valid()
      modifies this
      ensures Valid()
      ensures columns == StripAll(old(columns))
      ensures |columns| == |old(columns)|
      ensures forall j :: 0 <= j < |columns| ==> columns[j] == Strip(old(columns)[j])
      ensures rows == old(rows)
    {
      columns := StripAll(columns);
    }

    /**
     * When there is a `Claimed_Amount` column, its cells are cleaned in place
     * and no other cell changes; without one the frame is left as it is.
     */
    method NormalizeAmounts()
      requires Valid()
      modifies this
      ensures Valid() && columns == old(columns) && |rows| == |old(rows)|
      ensures AmountColumn !in columns ==> rows == old(rows)
      ensures AmountColumn in columns ==> NumericColumn(rows, ColumnIndex(columns, AmountColumn).value)
      ensures forall i, j :: 0 <= i < |rows| && 0 <= j < |columns| ==>
        rows[i][j] == (if ColumnIndex(columns, AmountColumn) == Some(j)
                       then NormalizeCell(old(rows)[i][j]) else old(rows)[i][j])
    {
      match ColumnIndex(columns, AmountColumn)
      case None =>
      case Some(k) =>
        NormalizedColumnIsNumeric(|columns|, rows, k);
        var cleaned := NormalizeColumn(rows, k);
        rows := cleaned;
    }

    /** The sidebar's preparation: strip the names, then clean the amounts. */
    method Prepare()
      requires Valid()
      modifies this
      ensures Valid() && |rows| == |old(rows)| && columns == StripAll(old(columns))
      ensures AmountColumn !in columns ==> rows == old(rows)
      ensures forall i, j :: 0 <= i < |rows| && 0 <= j < |columns| ==>
        rows[i][j] == (if ColumnIndex(columns, AmountColumn) == Some(j)
                       then NormalizeCell(old(rows)[i][j]) else old(rows)[i][j])
      ensures forall i :: 0 <= i < |old(columns)| && Strip(old(columns)[i]) == AmountColumn ==>
        AmountColumn in columns && NumericColumn(rows, ColumnIndex(columns, AmountColumn).value)
    {
      StripColumnNames();
      NormalizeAmounts();
      forall i | 0 <= i < |old(columns)| && Strip(old(columns)[i]) == AmountColumn
        ensures AmountColumn in columns
      {
        assert columns[i] == AmountColumn;
      }
    }
  }

  // ------------------------------------------------------------- claims view

  /** One deduction as the pages read it. */
  datatype Claim = Claim(id: Cell, date: Cell, retailer: Cell, reasonCode: Cell,
                         amount: real, category: Cell, description: Cell)

  /** The positions of the seven columns the pages read. */
  datatype Layout = Layout(id: nat, date: nat, retailer: nat, reasonCode: nat,
                           amount: nat, category: nat, description: nat)

  predicate Fits(l: Layout, width: nat) {
    l.id < width && l.date < width && l.retailer < width && l.reasonCode < width
    && l.amount < width && l.category < width && l.description < width
  }

  /** The layout, or None when a column the pages read is missing (a `KeyError` on the page). */
  function LayoutOf(columns: seq<string>): (r: Option<Layout>)
    ensures r.Some? ==> Fits(r.value, |columns|)
    ensures r.Some? ==> columns[r.value.id] == IdColumn && columns[r.value.date] == DateColumn
                        && columns[r.value.retailer] == RetailerColumn && columns[r.value.reasonCode] == ReasonColumn
                        && columns[r.value.amount] == AmountColumn && columns[r.value.category] == CategoryColumn
                        && columns[r.value.description] == DescriptionColumn
    ensures r.None? <==> (IdColumn !in columns || DateColumn !in columns || RetailerColumn !in columns
                          || ReasonColumn !in columns || AmountColumn !in columns
                          || CategoryColumn !in columns || DescriptionColumn !in columns)
  {
    match (ColumnIndex(columns, IdColumn), ColumnIndex(columns, DateColumn), ColumnIndex(columns, RetailerColumn),
           ColumnIndex(columns, ReasonColumn), ColumnIndex(columns, AmountColumn),
           ColumnIndex(columns, CategoryColumn), ColumnIndex(columns, DescriptionColumn))
    case (Some(a), Some(b), Some(c), Some(d), Some(e), Some(f), Some(g)) => Some(Layout(a, b, c, d, e, f, g))
    case _ => None
  }

  /**
   * The claims of the rows, in order, or None when an amount is not a number
   * (comparing or summing text against 500 fails on the page).
   */
  function ClaimsOf(l: Layout, width: nat, rows: seq<seq<Cell>>): (r: Option<seq<Claim>>)
    requires Fits(l, width) && Rectangular(width, rows)
    ensures r.Some? <==> NumericColumn(rows, l.amount)
    ensures r.Some? ==> |r.value| == |rows|
    ensures r.Some? ==> forall i :: 0 <= i < |rows| ==>
      r.value[i].amount == rows[i][l.amount].x && r.value[i].id == rows[i][l.id]
      && r.value[i].date == rows[i][l.date] && r.value[i].retailer == rows[i][l.retailer]
      && r.value[i].reasonCode == rows[i][l.reasonCode] && r.value[i].category == rows[i][l.category]
      && r.value[i].description == rows[i][l.description]
  {
    if |rows| == 0 then Some([])
    else
      var row := rows[0];
      match row[l.amount]
      case Num(x) =>
        (match ClaimsOf(l, width, rows[1..])
         case None => None
         case Some(rest) =>
           Some([Claim(row[l.id], row[l.date], row[l.retailer], row[l.reasonCode], x,
                       row[l.category], row[l.description])] + rest))
      case _ => None
  }

  /** Once the amount column is cleaned, the claims view always exists. */
  lemma CleanedFrameHasClaims(l: Layout, width: nat, rows: seq<seq<Cell>>)
    requires Fits(l, width) && Rectangular(width, rows)
    requires NumericColumn(rows, l.amount)
    ensures ClaimsOf(l, width, rows).Some?
  {
  }

  // --------------------------------------------------------- high-risk queue

  /** `df[df['Claimed_Amount'] >= 500]`: the claims at or over the threshold, in their order. */
  function HighRiskQueue(cs: seq<Claim>): (q: seq<Claim>)
    ensures |q| <= |cs|
    ensures forall c :: c in q <==> c in cs && IsHighRisk(c.amount)
  {
    if |cs| == 0 then []
    else if IsHighRisk(cs[0].amount) then [cs[0]] + HighRiskQueue(cs[1..])
    else HighRiskQueue(cs[1..])
  }

  /** The queue keeps the export's order: the queue of two parts is the queues of the parts, joined. */
  lemma {:induction false} HighRiskQueueAppend(a: seq<Claim>, b: seq<Claim>)
    ensures HighRiskQueue(a + b) == HighRiskQueue(a) + HighRiskQueue(b)
  {
    if |a| > 0 {
      assert (a + b)[0] == a[0];
      assert (a + b)[1..] == a[1..] + b;
      HighRiskQueueAppend(a[1..], b);
    } else {
      assert a + b == b;
    }
  }

  /** Every claim of the queue is at least the threshold, so it is a claim the page flags for the VP. */
  lemma HighRiskQueueOnlyFlagged(cs: seq<Claim>, i: nat)
    requires i < |HighRiskQueue(cs)|
    ensures HighRiskQueue(cs)[i].amount >= 500.0
  {
    assert HighRiskQueue(cs)[i] in HighRiskQueue(cs);
  }

  // ------------------------------------------------------------------ totals

  /** `df['Claimed_Amount'].sum()`: the total P&L leakage. */
  function TotalLeakage(cs: seq<Claim>): real {
    if |cs| == 0 then 0.0 else cs[0].amount + TotalLeakage(cs[1..])
  }

  /** The sum of the amounts of one retailer's claims. */
  function RetailerTotal(cs: seq<Claim>, name: Cell): real {
    if |cs| == 0 then 0.0
    else (if cs[0].retailer == name then cs[0].amount else 0.0) + RetailerTotal(cs[1..], name)
  }

  predicate Distinct(names: seq<Cell>) {
    forall i, j :: 0 <= i < j < |names| ==> names[i] != names[j]
  }

  /**
   * The group keys of `groupby('Retailer')`: each retailer once; an empty
   * retailer field (NaN) forms no group.
   */
  function Retailers(cs: seq<Claim>): (names: seq<Cell>)
    ensures Distinct(names)
    ensures forall n :: n in names <==> n != Blank && exists c :: c in cs && c.retailer == n
  {
    if |cs| == 0 then []
    else
      var rest := Retailers(cs[1..]);
      assert forall c :: c in cs <==> c == cs[0] || c in cs[1..];
      if cs[0].retailer == Blank || cs[0].retailer in rest then rest else [cs[0].retailer] + rest
  }

  /** The per-retailer sums of the chart, one per name. */
  function SumByRetailer(names: seq<Cell>, cs: seq<Claim>): real {
    if |names| == 0 then 0.0 else RetailerTotal(cs, names[0]) + SumByRetailer(names[1..], cs)
  }

  /** A retailer with no claim sums to nothing. */
  lemma {:induction false} RetailerTotalAbsent(cs: seq<Claim>, name: Cell)
    requires forall i :: 0 <= i < |cs| ==> cs[i].retailer != name
    ensures RetailerTotal(cs, name) == 0.0
  {
    if |cs| > 0 {
      RetailerTotalAbsent(cs[1..], name);
    }
  }

  /** Over distinct names, the first claim adds its amount once if its retailer is among them. */
  lemma {:induction false} SumByRetailerFirst(names: seq<Cell>, cs: seq<Claim>)
    requires |cs| > 0 && Distinct(names)
    ensures SumByRetailer(names, cs)
            == SumByRetailer(names, cs[1..]) + (if cs[0].retailer in names then cs[0].amount else 0.0)
  {
    if |names| > 0 {
      SumByRetailerFirst(names[1..], cs);
      assert cs[0].retailer in names <==> cs[0].retailer == names[0] || cs[0].retailer in names[1..];
      if cs[0].retailer == names[0] {
        assert names[0] !in names[1..];
      }
    }
  }

  /**
   * The bars of the retailer chart add up to the total leakage, less the
   * claims with no retailer, which `groupby` drops.
   */
  lemma {:induction false} RetailerTotalsAddUp(cs: seq<Claim>)
    ensures SumByRetailer(Retailers(cs), cs) + RetailerTotal(cs, Blank) == TotalLeakage(cs)
  {
    if |cs| > 0 {
      var c := cs[0];
      var rest := Retailers(cs[1..]);
      RetailerTotalsAddUp(cs[1..]);
      SumByRetailerFirst(rest, cs);
      if c.retailer == Blank || c.retailer in rest {
        assert Retailers(cs) == rest;
      } else {
        assert Retailers(cs) == [c.retailer] + rest;
        assert ([c.retailer] + rest)[1..] == rest;
        forall i | 0 <= i < |cs[1..]| ensures cs[1..][i].retailer != c.retailer {
          assert cs[1..][i] in cs[1..];
        }
        RetailerTotalAbsent(cs[1..], c.retailer);
      }
    }
  }

  /** With every retailer filled in, the bars add up to the total leakage. */
  lemma RetailerTotalsAddUpWhenFilled(cs: seq<Claim>)
    requires forall i :: 0 <= i < |cs| ==> cs[i].retailer != Blank
    ensures SumByRetailer(Retailers(cs), cs) == TotalLeakage(cs)
  {
    RetailerTotalsAddUp(cs);
    RetailerTotalAbsent(cs, Blank);
  }

  // --------------------------------------------------------------- selection

  /** Two ids compare equal on the page: the same value, and not NaN (which equals nothing). */
  predicate SameId(a: Cell, b: Cell) {
    a == b && a != Blank
  }

  /** `df[df['Claim_ID'] == selected_id].iloc[0]`: the first claim with that id, or None (an `IndexError`). */
  function SelectClaim(cs: seq<Claim>, id: Cell): (r: Option<Claim>)
    ensures r.Some? ==> r.value in cs && SameId(r.value.id, id)
    ensures r.Some? ==> exists i :: 0 <= i < |cs| && cs[i] == r.value && forall j :: 0 <= j < i ==> !SameId(cs[j].id, id)
    ensures r.None? <==> forall i :: 0 <= i < |cs| ==> !SameId(cs[i].id, id)
  {
    if |cs| == 0 then None
    else if SameId(cs[0].id, id) then Some(cs[0])
    else
      var r := SelectClaim(cs[1..], id);
      if r.Some? then
        ghost var i :| 0 <= i < |cs[1..]| && cs[1..][i] == r.value && forall j :: 0 <= j < i ==> !SameId(cs[1..][j].id, id);
        assert cs[i + 1] == r.value;
        assert forall j :: 0 <= j < i + 1 ==> !SameId(cs[j].id, id) by {
          forall j | 0 <= j < i + 1 ensures !SameId(cs[j].id, id) {
            if j > 0 { assert cs[j] == cs[1..][j - 1]; }
          }
        }
        r
      else
        assert forall i :: 0 <= i < |cs| ==> !SameId(cs[i].id, id) by {
          forall i | 0 <= i < |cs| ensures !SameId(cs[i].id, id) {
            if i > 0 { assert cs[i] == cs[1..][i - 1]; }
          }
        }
        r
  }

  /** An id offered by the select box (a filled-in id of the export) always selects a claim. */
  lemma SelectListedId(cs: seq<Claim>, i: nat)
    requires i < |cs| && cs[i].id != Blank
    ensures SelectClaim(cs, cs[i].id).Some?
    ensures SelectClaim(cs, cs[i].id).value.id == cs[i].id
  {
    assert SameId(cs[i].id, cs[i].id);
  }

  // ----------------------------------------------------------------- session

  /** The page's session: the recovered funds and the id of the last authorised claim. */
  datatype Session = Session(funds: real, authorizedId: Option<Cell>)

  /** A new session: nothing recovered, nothing authorised. */
  const InitialSession := Session(0.0, None)

  /**
   * A click on the authorise button for the selected claim. The button is
   * only offered for a high-risk amount, so only such a click changes the
   * session: it adds the amount and remembers the claim.
   */
  function Authorize(s: Session, selected: Cell, amount: real): Session {
    if IsHighRisk(amount) then Session(s.funds + amount, Some(selected)) else s
  }

  /** The appeal draft is shown for the selected claim when it is the authorised one. */
  predicate ShowsDraft(s: Session, selected: Cell) {
    s.authorizedId.Some? && SameId(s.authorizedId.value, selected)
  }

  /** After an authorisation, the draft is shown for that claim and the funds grew by its amount. */
  lemma AuthorizeShowsDraft(s: Session, selected: Cell, amount: real)
    requires IsHighRisk(amount) && selected != Blank
    ensures ShowsDraft(Authorize(s, selected, amount), selected)
    ensures Authorize(s, selected, amount).funds == s.funds + amount
  {
  }

  /** A low amount offers no authorisation: the session stays as it was. */
  lemma LowAmountChangesNothing(s: Session, selected: Cell, amount: real)
    requires AutoApproves(amount)
    ensures Authorize(s, selected, amount) == s
  {
  }

  /** One authorise click: the selected claim's id and amount. */
  datatype Click = Click(id: Cell, amount: real)

  /** The session after a series of clicks, in order. */
  function Replay(s: Session, clicks: seq<Click>): Session
    decreases |clicks|
  {
    if |clicks| == 0 then s
    else Replay(Authorize(s, clicks[0].id, clicks[0].amount), clicks[1..])
  }

  /** The sum of the amounts of the clicks that the page honours. */
  function OfferedTotal(clicks: seq<Click>): real {
    if |clicks| == 0 then 0.0
    else (if IsHighRisk(clicks[0].amount) then clicks[0].amount else 0.0) + OfferedTotal(clicks[1..])
  }

  /** How many clicks the page honours. */
  function OfferedCount(clicks: seq<Click>): nat {
    if |clicks| == 0 then 0
    else (if IsHighRisk(clicks[0].amount) then 1 else 0) + OfferedCount(clicks[1..])
  }

  /** Every honoured click adds at least the threshold. */
  lemma {:induction false} OfferedTotalBound(clicks: seq<Click>)
    ensures OfferedTotal(clicks) >= RiskThreshold * OfferedCount(clicks) as real
  {
    if |clicks| > 0 {
      OfferedTotalBound(clicks[1..]);
    }
  }

  /** The funds are the starting funds plus the amounts of the honoured clicks. */
  lemma {:induction false} ReplayFunds(s: Session, clicks: seq<Click>)
    ensures Replay(s, clicks).funds == s.funds + OfferedTotal(clicks)
    decreases |clicks|
  {
    if |clicks| > 0 {
      ReplayFunds(Authorize(s, clicks[0].id, clicks[0].amount), clicks[1..]);
    }
  }

  /**
   * The recovered funds never decrease, and from a new session they are at
   * least 500 for every honoured click.
   */
  lemma FundsNeverDecrease(s: Session, clicks: seq<Click>)
    ensures Replay(s, clicks).funds >= s.funds
    ensures Replay(InitialSession, clicks).funds >= RiskThreshold * OfferedCount(clicks) as real
  {
    ReplayFunds(s, clicks);
    ReplayFunds(InitialSession, clicks);
    OfferedTotalBound(clicks);
  }

  /**
   * The authorised id is the starting one or the id of some honoured click:
   * no draft is shown for a claim that was never authorised.
   */
  lemma {:induction false} AuthorizedIdComesFromClick(s: Session, clicks: seq<Click>)
    ensures Replay(s, clicks).authorizedId == s.authorizedId
            || exists i :: 0 <= i < |clicks| && IsHighRisk(clicks[i].amount)
                           && Replay(s, clicks).authorizedId == Some(clicks[i].id)
    decreases |clicks|
  {
    if |clicks| > 0 {
      var s1 := Authorize(s, clicks[0].id, clicks[0].amount);
      AuthorizedIdComesFromClick(s1, clicks[1..]);
      if Replay(s, clicks).authorizedId != s1.authorizedId {
        var i :| 0 <= i < |clicks[1..]| && IsHighRisk(clicks[1..][i].amount)
                 && Replay(s1, clicks[1..]).authorizedId == Some(clicks[1..][i].id);
        assert clicks[i + 1] == clicks[1..][i];
      } else if s1.authorizedId != s.authorizedId {
        assert IsHighRisk(clicks[0].amount);
      }
    }
  }

  /** Nothing stops the same claim being authorised twice: its amount is then counted twice. */
  lemma SameClaimCountedTwice(s: Session, c: Click)
    requires IsHighRisk(c.amount)
    ensures Replay(s, [c, c]).funds == s.funds + 2.0 * c.amount
  {
    var s1 := Authorize(s, c.id, c.amount);
    assert [c, c][1..] == [c];
    assert Replay(s, [c, c]) == Replay(s1, [c]);
    assert [c][1..] == [];
    assert Replay(s1, [c]) == Replay(Authorize(s1, c.id, c.amount), []);
  }

  /** The session state of one dashboard page, updated in place by its authorise button. */
  class RecoverySession {
    var funds: real
    var authorizedId: Option<Cell>

    function State(): Session
      reads this
    {
      Session(funds, authorizedId)
    }

    /** The first run of the page: funds at 0 and no authorised claim. */
    constructor ()
      ensures State() == InitialSession
    {
      funds := 0.0;
      authorizedId := None;
    }

    /** The authorise button for the selected claim, shown only for a high-risk amount. */
    method ClickAuthorize(selected: Cell, amount: real)
      modifies this
      ensures State() == Authorize(old(State()), selected, amount)
      ensures funds >= old(funds)
    {
      if IsHighRisk(amount) {
        funds := funds + amount;
        authorizedId := Some(selected);
      }
    }

    /** Whether the appeal draft panel appears for the selected claim. */
    function ShowsDraftFor(selected: Cell): (shown: bool)
      reads this
      ensures shown <==> authorizedId == Some(selected) && selected != Blank
    {
      ShowsDraft(State(), selected)
    }
  }
}
