/**
  The admin dashboard page (app/admin/dashboard/page.tsx) on the list `getComplaints`
  returned: the search box and status tab that narrow it, the summary cards that count it,
  and the local patch applied to it after a status update succeeds.
 */
module AdminDashboard {
  import opened Wrappers
  import opened Text
  import opened Queries
  import opened Sessions
  import opened Store
  import opened AdminActions

  /** `column.toLowerCase().includes(term.toLowerCase())`. */
  predicate MatchesText(column: string, term: string) {
    Contains(Lower(column), Lower(term))
  }

  /** The search box matches the tracking number, the location or the description. */
  predicate MatchesSearch(c: FormattedComplaint, term: string) {
    MatchesText(c.complaintNumber, term) || MatchesText(c.incidentLocation, term) || MatchesText(c.description, term)
  }

  /** The status tab compares both sides lower-cased. */
  predicate MatchesStatus(c: FormattedComplaint, statusFilter: string) {
    Lower(c.status) == Lower(statusFilter)
  }

  /**
    An entry is on screen when the search box is empty or matches it, and the status tab is
    exactly "all" or matches it.
   */
  predicate Shown(c: FormattedComplaint, term: string, statusFilter: string) {
    (term == "" || MatchesSearch(c, term)) && (statusFilter == "all" || MatchesStatus(c, statusFilter))
  }

  function SearchPredicate(term: string): FormattedComplaint -> bool {
    (c: FormattedComplaint) => MatchesSearch(c, term)
  }

  function StatusPredicate(statusFilter: string): FormattedComplaint -> bool {
    (c: FormattedComplaint) => MatchesStatus(c, statusFilter)
  }

  function ShownPredicate(term: string, statusFilter: string): FormattedComplaint -> bool {
    (c: FormattedComplaint) => Shown(c, term, statusFilter)
  }

  /** `if (searchTerm) filtered = filtered.filter(...)`: an empty term is falsy and skips the step. */
  function SearchStep(rows: seq<FormattedComplaint>, term: string): seq<FormattedComplaint> {
    if term == "" then rows else Filter(rows, SearchPredicate(term))
  }

  /** `if (statusFilter !== "all") filtered = filtered.filter(...)`. */
  function StatusStep(rows: seq<FormattedComplaint>, statusFilter: string): seq<FormattedComplaint> {
    if statusFilter == "all" then rows else Filter(rows, StatusPredicate(statusFilter))
  }

  /** The two steps in the order the effect runs them select exactly the entries `Shown` admits. */
  lemma SearchThenStatus(rows: seq<FormattedComplaint>, term: string, statusFilter: string)
    ensures StatusStep(SearchStep(rows, term), statusFilter) == Filter(rows, ShownPredicate(term, statusFilter))
  {
    var shown := ShownPredicate(term, statusFilter);
    if term == "" && statusFilter == "all" {
      FilterAll(rows, shown);
    } else if term == "" {
      FilterSame(rows, StatusPredicate(statusFilter), shown);
    } else if statusFilter == "all" {
      FilterSame(rows, SearchPredicate(term), shown);
    } else {
      FilterFilter(rows, SearchPredicate(term), StatusPredicate(statusFilter), shown);
    }
  }

  /**
    The filter effect: the entries on screen are the fetched entries `Shown` admits, every
    one of them, in the fetched order.
   */
  function FilterComplaints(rows: seq<FormattedComplaint>, term: string, statusFilter: string): (r: seq<FormattedComplaint>)
    ensures IsSubsequence(r, rows)
    ensures forall i :: 0 <= i < |r| ==> Shown(r[i], term, statusFilter)
    ensures forall i :: 0 <= i < |rows| && Shown(rows[i], term, statusFilter) ==> rows[i] in r
  {
    SearchThenStatus(rows, term, statusFilter);
    StatusStep(SearchStep(rows, term), statusFilter)
  }

  /** An empty search box on the "all" tab shows the whole list, unchanged. */
  lemma NoFilterShowsAll(rows: seq<FormattedComplaint>)
    ensures FilterComplaints(rows, "", "all") == rows
  {
  }

  /** Applying the filters to what they already show changes nothing. */
  lemma FilterIdempotent(rows: seq<FormattedComplaint>, term: string, statusFilter: string)
    ensures FilterComplaints(FilterComplaints(rows, term, statusFilter), term, statusFilter)
            == FilterComplaints(rows, term, statusFilter)
  {
    var r := FilterComplaints(rows, term, statusFilter);
    SearchThenStatus(r, term, statusFilter);
    FilterAll(r, ShownPredicate(term, statusFilter));
  }

  /** The search is case-insensitive: typing the term in lower case shows the same entries. */
  lemma SearchIgnoresCase(rows: seq<FormattedComplaint>, term: string, statusFilter: string)
    ensures FilterComplaints(rows, Lower(term), statusFilter) == FilterComplaints(rows, term, statusFilter)
  {
    LowerIdempotent(term);
    SearchThenStatus(rows, term, statusFilter);
    SearchThenStatus(rows, Lower(term), statusFilter);
    FilterSame(rows, ShownPredicate(term, statusFilter), ShownPredicate(Lower(term), statusFilter));
  }

  /** Searching for an entry's own tracking number always finds it. */
  lemma SearchByNumberFinds(rows: seq<FormattedComplaint>, i: nat)
    requires i < |rows|
    ensures rows[i] in FilterComplaints(rows, rows[i].complaintNumber, "all")
  {
    var n := Lower(rows[i].complaintNumber);
    assert OccursAt(n, n, 0);
  }

  const PendingCard: string := "pending"
  const UnderReviewCard: string := "under review"
  const ResolvedCard: string := "resolved"

  function CardPredicate(card: string): FormattedComplaint -> bool {
    (c: FormattedComplaint) => Lower(c.status) == card
  }

  /** `complaints.filter((c) => c.status.toLowerCase() === card).length`, over the whole fetched list. */
  function CardCount(rows: seq<FormattedComplaint>, card: string): (n: nat)
    ensures n <= |rows|
    ensures n == 0 <==> forall i :: 0 <= i < |rows| ==> Lower(rows[i].status) != card
  {
    |Filter(rows, CardPredicate(card))|
  }

  /** A card counts what its status tab would show with an empty search box. */
  lemma CardMatchesTab(rows: seq<FormattedComplaint>, card: string)
    requires Lower(card) == card && card != "all"
    ensures CardCount(rows, card) == |FilterComplaints(rows, "", card)|
  {
    SearchThenStatus(rows, "", card);
    FilterSame(rows, CardPredicate(card), ShownPredicate("", card));
  }

  /** No complaint is counted on two cards, so the three cards never add up to more than the list. */
  lemma CardsDisjoint(rows: seq<FormattedComplaint>)
    ensures CardCount(rows, PendingCard) + CardCount(rows, UnderReviewCard) + CardCount(rows, ResolvedCard) <= |rows|
  {
    var either := (c: FormattedComplaint) => Lower(c.status) == PendingCard || Lower(c.status) == UnderReviewCard;
    var any := (c: FormattedComplaint) => either(c) || Lower(c.status) == ResolvedCard;
    FilterDisjointCount(rows, CardPredicate(PendingCard), CardPredicate(UnderReviewCard), either);
    FilterDisjointCount(rows, either, CardPredicate(ResolvedCard), any);
  }

  /**
    The property lookup `c.complaintId` on an entry of the list. `getComplaints` builds its
    entries with an `id` key and no `complaintId` key, so the lookup yields `undefined`.
   */
  function ComplaintIdKey(c: FormattedComplaint): Option<string> {
    None
  }

  /** `{ ...c, status, adminNotes, publicNotes }`. */
  function Patched(c: FormattedComplaint, status: string, adminNotes: string, publicNotes: string): (p: FormattedComplaint)
    ensures p.(status := c.status, adminNotes := c.adminNotes, publicNotes := c.publicNotes) == c
    ensures p.status == status && p.adminNotes == Some(adminNotes) && p.publicNotes == Some(publicNotes)
  {
    c.(status := status, adminNotes := Some(adminNotes), publicNotes := Some(publicNotes))
  }

  /**
    The local patch in `handleUpdateStatus` as written: it compares `complaintId` keys, which
    are `undefined` on both sides, so every entry is patched.
   */
  function ReplaceAsWritten(rows: seq<FormattedComplaint>, selected: FormattedComplaint,
                            status: string, adminNotes: string, publicNotes: string): (r: seq<FormattedComplaint>)
    ensures |r| == |rows|
  {
    seq(|rows|, i requires 0 <= i < |rows| =>
      if ComplaintIdKey(rows[i]) == ComplaintIdKey(selected) then Patched(rows[i], status, adminNotes, publicNotes)
      else rows[i])
  }

  /** As written, every entry of the list takes the new status, not just the selected one. */
  lemma AsWrittenPatchesEveryEntry(rows: seq<FormattedComplaint>, selected: FormattedComplaint,
                                   status: string, adminNotes: string, publicNotes: string, i: nat)
    requires i < |rows|
    ensures ReplaceAsWritten(rows, selected, status, adminNotes, publicNotes)[i] == Patched(rows[i], status, adminNotes, publicNotes)
  {
  }

  /** Two complaints on screen, the first selected and resolved: the second shows "Resolved" too. */
  lemma AsWrittenCounterexample()
    ensures var a := FormattedComplaint("a", "RA-2025-1000", 0, "", "", "", None, "", "Pending", None, None, None, None, None, true);
            var b := a.(id := "b", complaintNumber := "RA-2025-1001");
            var r := ReplaceAsWritten([a, b], a, "Resolved", "", "");
            r[1].id == "b" && r[1].status == "Resolved" && b.status == "Pending"
  {
  }

  /**
    The patch as intended: the entry whose `id` is the updated complaint's takes the new
    status and notes; every other entry, and every other field, is kept.
   */
  function ReplaceUpdated(rows: seq<FormattedComplaint>, id: string,
                          status: string, adminNotes: string, publicNotes: string): (r: seq<FormattedComplaint>)
    ensures |r| == |rows|
    ensures forall i :: 0 <= i < |rows| && rows[i].id != id ==> r[i] == rows[i]
    ensures forall i :: 0 <= i < |rows| && rows[i].id == id ==>
              && r[i].(status := rows[i].status, adminNotes := rows[i].adminNotes, publicNotes := rows[i].publicNotes) == rows[i]
              && r[i].status == status && r[i].adminNotes == Some(adminNotes) && r[i].publicNotes == Some(publicNotes)
  {
    seq(|rows|, i requires 0 <= i < |rows| =>
      if rows[i].id == id then Patched(rows[i], status, adminNotes, publicNotes) else rows[i])
  }

  function FormatAll(cs: seq<Complaint>): (r: seq<FormattedComplaint>)
    ensures |r| == |cs| && forall i :: 0 <= i < |cs| ==> r[i] == Format(cs[i])
  {
    seq(|cs|, i requires 0 <= i < |cs| => Format(cs[i]))
  }

  /**
    The corrected patch shows what the server stored: after a successful update of `id`,
    patching the formatted list gives the formatted list of the updated table.
   */
  lemma PatchAgreesWithServer(db: Db, jar: Jar, id: string, status: string, adminNotes: string, publicNotes: string,
                              now: int, historyFails: bool)
    requires UpdateComplaintStatus(db, jar, id, status, adminNotes, publicNotes, now, false, historyFails).0.Pass?
    ensures var db' := UpdateComplaintStatus(db, jar, id, status, adminNotes, publicNotes, now, false, historyFails).1;
            ReplaceUpdated(FormatAll(db.complaints), id, status, adminNotes, publicNotes) == FormatAll(db'.complaints)
  {
    var db' := UpdateComplaintStatus(db, jar, id, status, adminNotes, publicNotes, now, false, historyFails).1;
    var lhs := ReplaceUpdated(FormatAll(db.complaints), id, status, adminNotes, publicNotes);
    forall i | 0 <= i < |db.complaints|
      ensures lhs[i] == FormatAll(db'.complaints)[i]
    {
      if db.complaints[i].id == id {
        var c := db.complaints[i];
        assert db'.complaints[i] == c.(status := status, admin_notes := Some(adminNotes), public_notes := Some(publicNotes));
      }
    }
  }

  /**
    `handleUpdateStatus` with the patch keyed by `id`: the server update for the selected
    entry, then, only if it succeeded, the local patch. A list that mirrored the table before
    the update mirrors it afterwards, so the reload two seconds later shows nothing new.
   */
  function HandleUpdateStatus(db: Db, jar: Jar, rows: seq<FormattedComplaint>, selected: FormattedComplaint,
                              status: string, adminNotes: string, publicNotes: string,
                              now: int, updateFails: bool, historyFails: bool): (r: (seq<FormattedComplaint>, bool, Db))
    ensures r.1 <==> CheckAdminAuthDb(db, jar).Authenticated? && !updateFails
    ensures !r.1 ==> r.0 == rows && r.2 == db
    ensures r.1 ==> |r.0| == |rows| && forall i :: 0 <= i < |rows| && rows[i].id != selected.id ==> r.0[i] == rows[i]
    ensures r.1 && rows == FormatAll(db.complaints) ==> r.0 == FormatAll(r.2.complaints)
  {
    var (res, db') := UpdateComplaintStatus(db, jar, selected.id, status, adminNotes, publicNotes, now, updateFails, historyFails);
    if res.Fail? then (rows, false, db')
    else
      PatchAgreesWithServer(db, jar, selected.id, status, adminNotes, publicNotes, now, historyFails);
      (ReplaceUpdated(rows, selected.id, status, adminNotes, publicNotes), true, db')
  }
}
