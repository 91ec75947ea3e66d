/**
 * The seller dashboard: messages turned into display rows, listing status
 * labels, the four counters, marking a message read, the delete confirmation,
 * and the top-listings panel.
 */
module Dashboard {
  import opened Wrappers
  import opened Text
  import opened Seqs
  import opened Sorting
  import opened Profiles

  // ---------------------------------------------------------------- messages

  /** A stored message the signed-in user sent or received. */
  datatype MessageRow = MessageRow(
    id: string,
    sender: string,
    recipient: string,
    listingId: string,
    subject: string,
    content: string,
    readAt: Option<string>)

  /** A listing id with its title, for the "about" line of a message. */
  datatype TitleRow = TitleRow(id: string, title: string)

  /** A message as the dashboard displays it. */
  datatype MessageView = MessageView(
    id: string,
    sender: string,
    recipient: string,
    subject: string,
    preview: string,
    unread: bool,
    listingTitle: string,
    isReceived: bool)

  const PreviewLength := 100
  const Ellipsis := "..."

  /** The profile `new Map(...).get(user)` returns: the last one listed for that user. */
  function LookupProfile(profiles: seq<Profile>, user: string): (r: Option<Profile>)
    ensures r.Some? ==> r.value in profiles && r.value.user == user
    ensures r.None? ==> forall i :: 0 <= i < |profiles| ==> profiles[i].user != user
    ensures var k := LastIndex(profiles, OwnedBy(user)); r == if k >= 0 then Some(profiles[k]) else None
  {
    if profiles == [] then None
    else if profiles[|profiles| - 1].user == user then Some(profiles[|profiles| - 1])
    else LookupProfile(profiles[..|profiles| - 1], user)
  }

  function HasId(id: string): TitleRow -> bool {
    (t: TitleRow) => t.id == id
  }

  /** The title `new Map(...).get(id)` returns, or "Unknown Listing". */
  function LookupTitle(titles: seq<TitleRow>, id: string): (r: string)
    ensures r != []
    ensures r == "Unknown Listing" || TitleRow(id, r) in titles
    ensures (forall i :: 0 <= i < |titles| ==> titles[i].id != id) ==> r == "Unknown Listing"
    ensures var k := LastIndex(titles, HasId(id));
            r == if k >= 0 then OrElse(titles[k].title, "Unknown Listing") else "Unknown Listing"
  {
    if titles == [] then "Unknown Listing"
    else if titles[|titles| - 1].id == id then OrElse(titles[|titles| - 1].title, "Unknown Listing")
    else LookupTitle(titles[..|titles| - 1], id)
  }

  /** "You" for the signed-in user, otherwise company name, first name or "Unknown". */
  function PartyLabel(me: string, party: string, profiles: seq<Profile>): (r: string)
    ensures r != []
    ensures party == me ==> r == "You"
    ensures party != me && LookupProfile(profiles, party).None? ==> r == "Unknown"
    ensures party != me && LookupProfile(profiles, party).Some? ==>
              var p := LookupProfile(profiles, party).value;
              (p.companyName != [] ==> r == p.companyName) &&
              (p.companyName == [] && p.firstName != [] ==> r == p.firstName) &&
              (p.companyName == [] && p.firstName == [] ==> r == "Unknown")
  {
    if party == me then "You"
    else match LookupProfile(profiles, party)
      case Some(p) => OrElse(OrElse(p.companyName, p.firstName), "Unknown")
      case None => "Unknown"
  }

  /** The first hundred characters, with "..." appended when some were cut. */
  function Preview(content: string): (r: string)
    ensures |r| <= PreviewLength + |Ellipsis|
    ensures |content| <= PreviewLength ==> r == content
    ensures |content| > PreviewLength ==> |r| == PreviewLength + |Ellipsis| && r[PreviewLength..] == Ellipsis
    ensures forall i :: 0 <= i < |r| && i < PreviewLength && i < |content| ==> r[i] == content[i]
  {
    content[..if |content| < PreviewLength then |content| else PreviewLength] +
    (if |content| > PreviewLength then Ellipsis else "")
  }

  /** The display row for one message, as seen by `me`. */
  function ToView(me: string, m: MessageRow, profiles: seq<Profile>, titles: seq<TitleRow>): (v: MessageView)
    ensures v.id == m.id && v.subject == m.subject
    ensures v.unread <==> m.recipient == me && m.readAt.None?
    ensures v.isReceived <==> m.recipient == me
    ensures v.unread ==> v.isReceived
    ensures m.sender == me ==> v.sender == "You"
    ensures m.recipient == me ==> v.recipient == "You"
    ensures v.sender == PartyLabel(me, m.sender, profiles) && v.recipient == PartyLabel(me, m.recipient, profiles)
    ensures v.preview == Preview(m.content)
    ensures v.listingTitle == LookupTitle(titles, m.listingId)
  {
    MessageView(m.id, PartyLabel(me, m.sender, profiles), PartyLabel(me, m.recipient, profiles),
                m.subject, Preview(m.content), m.recipient == me && m.readAt.None?,
                LookupTitle(titles, m.listingId), m.recipient == me)
  }

  function ToViews(me: string, ms: seq<MessageRow>, profiles: seq<Profile>, titles: seq<TitleRow>): (vs: seq<MessageView>)
    ensures |vs| == |ms|
    ensures forall i :: 0 <= i < |ms| ==> vs[i] == ToView(me, ms[i], profiles, titles)
  {
    seq(|ms|, i requires 0 <= i < |ms| => ToView(me, ms[i], profiles, titles))
  }

  /**
   * "You" is not reserved: another user whose company is called "You" gets the
   * same label, so the label alone does not identify the signed-in user.
   */
  lemma YouLabelIsAmbiguous()
    ensures PartyLabel("me", "other", [Profile("other", "You", "", "", false)]) == "You"
  {
  }

  // ---------------------------------------------------------------- listings

  /** A listing of the signed-in user, with the (mock) view count it is displayed with. */
  datatype ListingRow = ListingRow(
    id: string,
    title: string,
    price: int,
    status: string,
    deletedByUser: bool,
    disabledByAdmin: bool,
    views: int)

  datatype Status = Draft | Published | Disabled | Deleted

  /** The status label: Deleted over Disabled over Published, Draft otherwise. */
  function DeriveStatus(l: ListingRow): (s: Status)
    ensures s == Deleted <==> l.deletedByUser
    ensures s == Disabled <==> !l.deletedByUser && l.disabledByAdmin
    ensures s == Published <==> !l.deletedByUser && !l.disabledByAdmin && l.status == "published"
    ensures s == Draft <==> !l.deletedByUser && !l.disabledByAdmin && l.status != "published"
  {
    if l.deletedByUser then Deleted
    else if l.disabledByAdmin then Disabled
    else if l.status == "published" then Published
    else Draft
  }

  datatype ListingView = ListingView(id: string, title: string, price: int, status: Status,
                                     views: int, deletedByUser: bool)

  function ToListingView(l: ListingRow): ListingView {
    ListingView(l.id, l.title, l.price, DeriveStatus(l), l.views, l.deletedByUser)
  }

  /** The Edit and Delete buttons are shown only for listings the user has not deleted. */
  predicate EditAndDeleteShown(l: ListingView) {
    !l.deletedByUser
  }

  /** The buttons are hidden exactly on the rows labelled Deleted. */
  lemma ButtonsHiddenExactlyWhenDeleted(l: ListingRow)
    ensures EditAndDeleteShown(ToListingView(l)) <==> ToListingView(l).status != Deleted
  {
  }

  // ---------------------------------------------------------------- counters

  datatype Stats = Stats(totalListings: nat, totalViews: int, pendingMessages: nat, activeListings: nat)

  function NotDeleted(): ListingRow -> bool { (l: ListingRow) => !l.deletedByUser }
  function Active(): ListingRow -> bool { (l: ListingRow) => l.status == "published" && !l.deletedByUser }
  function Pending(): MessageView -> bool { (m: MessageView) => m.unread && m.isReceived }

  function SumViews(ls: seq<ListingRow>): int {
    if ls == [] then 0 else ls[0].views + SumViews(ls[1..])
  }

  /** The number of unread messages the user received. */
  function PendingCount(ms: seq<MessageView>): nat {
    |Filter(ms, Pending())|
  }

  /**
   * The overview counters. Deleted listings are excluded everywhere; a listing
   * an administrator disabled still counts as active when its status is published.
   */
  function ComputeStats(ls: seq<ListingRow>, ms: seq<MessageView>): (s: Stats)
    ensures s.activeListings <= s.totalListings <= |ls|
    ensures s.pendingMessages <= |ms|
    ensures s.pendingMessages == PendingCount(ms)
    ensures ls == [] ==> s.totalListings == 0 && s.activeListings == 0 && s.totalViews == 0
    ensures (forall i :: 0 <= i < |ls| ==> ls[i].views >= 0) ==> s.totalViews >= 0
  {
    FilterMonotone(ls, Active(), NotDeleted());
    NonNegativeViews(Filter(ls, NotDeleted()));
    Stats(|Filter(ls, NotDeleted())|, SumViews(Filter(ls, NotDeleted())),
          PendingCount(ms), |Filter(ls, Active())|)
  }

  /** Adding one listing in front changes each listing counter by that listing's own contribution. */
  lemma ComputeStatsCons(l: ListingRow, ls: seq<ListingRow>, ms: seq<MessageView>)
    ensures var s, t := ComputeStats([l] + ls, ms), ComputeStats(ls, ms);
            s.totalListings == (if !l.deletedByUser then 1 else 0) + t.totalListings &&
            s.activeListings == (if l.status == "published" && !l.deletedByUser then 1 else 0) + t.activeListings &&
            s.totalViews == (if !l.deletedByUser then l.views else 0) + t.totalViews &&
            s.pendingMessages == t.pendingMessages
  {
    FilterCons(l, ls, NotDeleted());
    FilterCons(l, ls, Active());
    var rest := Filter(ls, NotDeleted());
    if !l.deletedByUser {
      assert ([l] + rest)[1..] == rest;
    } else {
      assert [] + rest == rest;
    }
  }

  lemma {:induction false} NonNegativeViews(ls: seq<ListingRow>)
    ensures (forall i :: 0 <= i < |ls| ==> ls[i].views >= 0) ==> SumViews(ls) >= 0
  {
    if ls != [] {
      NonNegativeViews(ls[1..]);
      if forall i :: 0 <= i < |ls| ==> ls[i].views >= 0 {
        assert forall i :: 0 <= i < |ls[1..]| ==> ls[1..][i].views >= 0;
      }
    }
  }

  /** A published listing that an administrator disabled is labelled Disabled yet counted as active. */
  lemma DisabledCountsAsActive()
    ensures var l := ListingRow("l", "t", 1, "published", false, true, 0);
            DeriveStatus(l) == Disabled && ComputeStats([l], []).activeListings == 1
  {
    var l := ListingRow("l", "t", 1, "published", false, true, 0);
    assert Filter([l], Active()) == [l] + Filter([l][1..], Active());
  }

  // ---------------------------------------------------------------- mark as read

  /** The local update after marking `id` read: only messages with that id lose the unread mark. */
  function MarkRead(ms: seq<MessageView>, id: string): (r: seq<MessageView>)
    ensures |r| == |ms|
    ensures forall i :: 0 <= i < |ms| && ms[i].id == id ==> r[i] == ms[i].(unread := false)
    ensures forall i :: 0 <= i < |ms| && ms[i].id != id ==> r[i] == ms[i]
  {
    seq(|ms|, i requires 0 <= i < |ms| => if ms[i].id == id then ms[i].(unread := false) else ms[i])
  }

  /** The counter update after marking a message read: one less, never below zero. */
  function DecrementPending(s: Stats): (r: Stats)
    ensures r.pendingMessages == if s.pendingMessages > 0 then s.pendingMessages - 1 else 0
    ensures r.(pendingMessages := s.pendingMessages) == s
  {
    s.(pendingMessages := if s.pendingMessages > 0 then s.pendingMessages - 1 else 0)
  }

  predicate UniqueIds(ms: seq<MessageView>) {
    forall i, j :: 0 <= i < j < |ms| ==> ms[i].id != ms[j].id
  }

  /** Marking the one pending message with `id` read removes exactly it from the pending count. */
  lemma MarkReadPendingCount(ms: seq<MessageView>, id: string, k: int)
    requires UniqueIds(ms)
    requires 0 <= k < |ms| && ms[k].id == id && ms[k].unread && ms[k].isReceived
    ensures PendingCount(MarkRead(ms, id)) == PendingCount(ms) - 1
  {
    var r := MarkRead(ms, id);
    forall i | 0 <= i < |ms| && i != k ensures r[i] == ms[i] {
      // ids are unique, so only message `k` carries `id`
      assert ms[i].id != id by {
        if i < k { assert ms[i].id != ms[k].id; } else { assert ms[k].id != ms[i].id; }
      }
    }
    FilterCountDrop(ms, r, Pending(), k);
  }

  /** With a counter that matched the messages before, it still matches after marking a pending message read. */
  lemma MarkReadKeepsCounterAccurate(ms: seq<MessageView>, s: Stats, id: string, k: int)
    requires UniqueIds(ms) && s.pendingMessages == PendingCount(ms)
    requires 0 <= k < |ms| && ms[k].id == id && ms[k].unread && ms[k].isReceived
    ensures DecrementPending(s).pendingMessages == PendingCount(MarkRead(ms, id))
  {
    MarkReadPendingCount(ms, id, k);
  }

  // ---------------------------------------------------------------- deletion

  datatype DeleteOutcome =
    | ReasonRequired
      /** The soft-delete update: `deleted_by_user` set, with the trimmed reason. */
    | SoftDelete(listingId: string, reason: string)

  /** `confirmDeleteListing`: refused without a selected listing or with a blank reason. */
  function ConfirmDelete(selected: Option<ListingView>, reason: string): (r: DeleteOutcome)
    ensures r == ReasonRequired <==> selected.None? || IsBlank(reason)
    ensures r.SoftDelete? ==> r.listingId == selected.value.id
    ensures r.SoftDelete? ==> r.reason != [] && !IsSpace(r.reason[0]) && !IsSpace(r.reason[|r.reason| - 1])
    ensures r.SoftDelete? ==> r.reason == Trim(reason)
  {
    if selected.None? || IsBlank(reason) then ReasonRequired
    else SoftDelete(selected.value.id, Trim(reason))
  }

  /** The Delete button: disabled while deleting or while the reason is blank. */
  predicate DeleteEnabled(isDeleting: bool, reason: string) {
    !isDeleting && !IsBlank(reason)
  }

  /** An enabled Delete button on an open modal always produces the update. */
  lemma EnabledDeleteSucceeds(selected: ListingView, reason: string)
    requires DeleteEnabled(false, reason)
    ensures ConfirmDelete(Some(selected), reason).SoftDelete?
  {
  }

  /** The delete confirmation dialog: whether it is open, the listing it is for, and the typed reason. */
  datatype DeleteDialog = DeleteDialog(open: bool, listing: Option<ListingView>, reason: string)

  /** `handleDeleteListing`: open the dialog for `l` with an empty reason, whatever was typed before. */
  function OpenDelete(l: ListingView): (d: DeleteDialog)
    ensures d.open && d.listing == Some(l) && d.reason == []
  {
    DeleteDialog(true, Some(l), [])
  }

  /**
   * The dialog after Delete is pressed; `updateSucceeded` stands for the outcome
   * of the soft-delete update. A successful delete closes the dialog and clears
   * the listing and the reason; a refusal or a failed update leaves it as it was.
   */
  function AfterConfirm(d: DeleteDialog, updateSucceeded: bool): (r: DeleteDialog)
    ensures ConfirmDelete(d.listing, d.reason).SoftDelete? && updateSucceeded ==>
              !r.open && r.listing.None? && r.reason == []
    ensures !(ConfirmDelete(d.listing, d.reason).SoftDelete? && updateSucceeded) ==> r == d
  {
    if ConfirmDelete(d.listing, d.reason).SoftDelete? && updateSucceeded then DeleteDialog(false, None, [])
    else d
  }

  /** A freshly opened dialog refuses to delete until a reason is typed. */
  lemma OpenedDialogNeedsReason(l: ListingView)
    ensures ConfirmDelete(OpenDelete(l).listing, OpenDelete(l).reason) == ReasonRequired
  {
  }

  /** Once a delete went through, confirming again issues no second update. */
  lemma NoSecondDelete(d: DeleteDialog, updateSucceeded: bool)
    requires ConfirmDelete(d.listing, d.reason).SoftDelete? && updateSucceeded
    ensures var r := AfterConfirm(d, updateSucceeded);
            ConfirmDelete(r.listing, r.reason) == ReasonRequired
  {
  }

  // ---------------------------------------------------------------- top listings

  const TopCount := 3

  function ByViewsDescending(): ListingView -> int { (l: ListingView) => -l.views }
  function IsPublished(): ListingView -> bool { (l: ListingView) => l.status == Published }

  /** The "Top Performing Listings" panel: published listings, most viewed first, at most three. */
  function TopListings(ls: seq<ListingView>): (r: seq<ListingView>)
    ensures |r| <= TopCount
    ensures |r| == if |Filter(ls, IsPublished())| < TopCount then |Filter(ls, IsPublished())| else TopCount
    ensures multiset(r) <= multiset(Filter(ls, IsPublished()))
    ensures forall i :: 0 <= i < |r| ==> r[i] in ls && r[i].status == Published
    ensures forall i, j :: 0 <= i < j < |r| ==> r[i].views >= r[j].views
  {
    var sorted := SortBy(Filter(ls, IsPublished()), ByViewsDescending());
    var r := sorted[..if |sorted| < TopCount then |sorted| else TopCount];
    TopPrefix(ls, sorted, r);
    r
  }

  /** A prefix `r` of the published listings sorted by views holds distinct published listings of `ls`, most viewed first. */
  lemma TopPrefix(ls: seq<ListingView>, sorted: seq<ListingView>, r: seq<ListingView>)
    requires multiset(sorted) == multiset(Filter(ls, IsPublished()))
    requires SortedBy(sorted, ByViewsDescending())
    requires |r| <= |sorted| && r == sorted[..|r|]
    ensures multiset(r) <= multiset(Filter(ls, IsPublished()))
    ensures forall i :: 0 <= i < |r| ==> r[i] in ls && r[i].status == Published
    ensures forall i, j :: 0 <= i < j < |r| ==> r[i].views >= r[j].views
  {
    TakeFromPermutation(sorted, Filter(ls, IsPublished()), |r|);
    FilterMembers(ls, IsPublished());
    forall i, j | 0 <= i < j < |r| ensures r[i].views >= r[j].views {
      assert ByViewsDescending()(sorted[i]) <= ByViewsDescending()(sorted[j]);
    }
  }

  /** A prefix of a permutation of `base` is drawn from `base` without repetition. */
  lemma TakeFromPermutation<T>(s: seq<T>, base: seq<T>, k: nat)
    requires multiset(s) == multiset(base) && k <= |s|
    ensures multiset(s[..k]) <= multiset(base)
    ensures forall i :: 0 <= i < k ==> s[i] in base
  {
    assert s == s[..k] + s[k..];
    forall i | 0 <= i < k ensures s[i] in base {
      assert s[i] in multiset(s);
    }
  }

  /** No published listing left out of the panel has more views than any listing in it. */
  lemma TopListingsAreTop(ls: seq<ListingView>, l: ListingView)
    requires l in ls && l.status == Published
    ensures l in TopListings(ls) || forall i :: 0 <= i < |TopListings(ls)| ==> l.views <= TopListings(ls)[i].views
  {
    var published := Filter(ls, IsPublished());
    var sorted := SortBy(published, ByViewsDescending());
    var r := TopListings(ls);
    if l !in r {
      assert r == sorted[..|r|];
      assert l in published;
      assert l in multiset(sorted);
      var j :| 0 <= j < |sorted| && sorted[j] == l;
      assert j >= |r|;
      forall i | 0 <= i < |r| ensures l.views <= r[i].views {
        assert ByViewsDescending()(sorted[i]) <= ByViewsDescending()(sorted[j]);
      }
    }
  }
}
