/**
 * The listing detail page: the image list with its fallback, the carousel
 * index, the administrator's status update, and who may edit the listing or
 * message its seller.
 */
module ListingDetail {
  import opened Wrappers
  import opened Roles
  import opened Profiles
  import opened Seqs

  /** The listing as displayed. */
  datatype Detail = Detail(id: string, owner: string, status: string, images: seq<string>)

  /** The placeholder image shown for a listing without images. */
  function FallbackImage(id: string): string {
    "https://picsum.photos/seed/" + id + "/800/600"
  }

  /** The stored images, or the one placeholder when there are none (`null` or empty). */
  function ImagesOrFallback(images: Option<seq<string>>, id: string): (r: seq<string>)
    ensures |r| >= 1
    ensures images.Some? && |images.value| > 0 ==> r == images.value
    ensures !(images.Some? && |images.value| > 0) ==> r == [FallbackImage(id)]
  {
    if images.Some? && |images.value| > 0 then images.value else [FallbackImage(id)]
  }

  /** The first profile of the listing's owner, as `find` returns it. */
  function FindProfile(profiles: seq<Profile>, owner: string): (r: Option<Profile>)
    ensures r.Some? ==> r.value in profiles && r.value.user == owner
    ensures r.None? ==> forall i :: 0 <= i < |profiles| ==> profiles[i].user != owner
    ensures var k := FirstIndex(profiles, OwnedBy(owner)); r == if k < |profiles| then Some(profiles[k]) else None
  {
    if profiles == [] then None
    else if profiles[0].user == owner then Some(profiles[0])
    else FindProfile(profiles[1..], owner)
  }

  /** The seller's display name: company name, else first name, else "Unknown Seller". */
  function SellerName(profile: Option<Profile>): (r: string)
    ensures r != []
    ensures profile.Some? && profile.value.companyName != [] ==> r == profile.value.companyName
    ensures profile.Some? && profile.value.companyName == [] && profile.value.firstName != [] ==>
              r == profile.value.firstName
    ensures profile.None? || (profile.value.companyName == [] && profile.value.firstName == []) ==>
              r == "Unknown Seller"
  {
    match profile
    case Some(p) =>
      if p.companyName != [] then p.companyName
      else if p.firstName != [] then p.firstName
      else "Unknown Seller"
    case None => "Unknown Seller"
  }

  // ---------------------------------------------------------------- carousel

  /** JavaScript's `%`: the remainder takes the sign of the dividend. */
  function JsRem(a: int, n: int): (r: int)
    requires n > 0
    ensures a >= 0 ==> 0 <= r < n && r == a % n
    ensures a < 0 ==> -n < r <= 0
  {
    if a >= 0 then a % n else -((-a) % n)
  }

  /** `(index + 1) % images.length`; the image list is never empty. */
  function NextImage(index: int, count: int): (r: int)
    requires count > 0
    ensures 0 <= index < count ==> 0 <= r < count
    ensures 0 <= index < count - 1 ==> r == index + 1
    ensures index == count - 1 ==> r == 0
  {
    JsRem(index + 1, count)
  }

  /** `(index - 1 + images.length) % images.length`. */
  function PrevImage(index: int, count: int): (r: int)
    requires count > 0
    ensures 0 <= index < count ==> 0 <= r < count
    ensures 0 < index < count ==> r == index - 1
    ensures index == 0 ==> r == count - 1
  {
    JsRem(index - 1 + count, count)
  }

  /** Previous and Next undo each other on every in-range index. */
  lemma PrevNextInverse(index: int, count: int)
    requires 0 <= index < count
    ensures PrevImage(NextImage(index, count), count) == index
    ensures NextImage(PrevImage(index, count), count) == index
  {
  }

  /** The index after pressing Next `k` times. */
  function NextTimes(index: int, count: int, k: nat): int
    requires count > 0
  {
    if k == 0 then index else NextImage(NextTimes(index, count, k - 1), count)
  }

  /** `k` presses of Next advance the index by `k` modulo the image count. */
  lemma {:induction false} NextTimesAdvances(index: int, count: int, k: nat)
    requires 0 <= index < count
    ensures NextTimes(index, count, k) == (index + k) % count
  {
    if k > 0 {
      var m := NextTimes(index, count, k - 1);
      NextTimesAdvances(index, count, k - 1);
      assert 0 <= m < count;
      ModStep(index + k - 1, count);
      assert NextTimes(index, count, k) == NextImage(m, count);
    }
  }

  /** Adding one to a non-negative number steps its remainder forward, wrapping to zero. */
  lemma ModStep(a: int, n: int)
    requires a >= 0 && n > 0
    ensures (a + 1) % n == if a % n < n - 1 then a % n + 1 else 0
  {
    var q, r := a / n, a % n;
    assert a == q * n + r;
    if r < n - 1 {
      ModUnique(a + 1, n, q, r + 1);
    } else {
      assert a + 1 == (q + 1) * n;
      ModUnique(a + 1, n, q + 1, 0);
    }
  }

  /** Division by a positive number has exactly one quotient and remainder. */
  lemma ModUnique(x: int, n: int, q: int, r: int)
    requires n > 0 && 0 <= r < n && x == q * n + r
    ensures x % n == r
  {
    var q', r' := x / n, x % n;
    assert (q - q') * n == r' - r;
    if q - q' >= 1 {
      MulAtLeast(q - q', n);
    } else if q' - q >= 1 {
      MulAtLeast(q' - q, n);
    }
  }

  lemma MulAtLeast(d: int, n: int)
    requires d >= 1 && n > 0
    ensures d * n >= n
  {
  }

  /** Pressing Next once per image comes back to the starting image. */
  lemma FullCycleReturns(index: int, count: int)
    requires 0 <= index < count
    ensures NextTimes(index, count, count) == index
  {
    NextTimesAdvances(index, count, count);
    ModUnique(index + count, count, 1, index);
  }

  // ---------------------------------------------------------------- status

  /**
   * `updateListingStatus`: no request without a route id, with no status chosen or
   * with the current one; otherwise (`Some`) the displayed listing after the update,
   * differing only in its status.
   */
  function UpdateStatus(routeId: string, newStatus: string, d: Detail): (r: Option<Detail>)
    ensures r.None? <==> routeId == [] || newStatus == [] || newStatus == d.status
    ensures r.Some? ==> r.value.status == newStatus && r.value.(status := d.status) == d
  {
    if routeId == [] || newStatus == [] || newStatus == d.status then None
    else Some(d.(status := newStatus))
  }

  /** Repeating an update that went through changes nothing more. */
  lemma UpdateStatusIdempotent(routeId: string, newStatus: string, d: Detail)
    requires UpdateStatus(routeId, newStatus, d).Some?
    ensures UpdateStatus(routeId, newStatus, UpdateStatus(routeId, newStatus, d).value).None?
  {
  }

  /** The status control is shown to administrators; its Update button is disabled on the current status. */
  predicate UpdateButtonEnabled(roles: seq<Role>, newStatus: string, d: Detail) {
    IsAdmin(roles) && newStatus != d.status
  }

  /** The entries of the administrator's status selector. */
  datatype StatusChoice = DraftChoice | PublishedChoice | ArchivedChoice

  function ChoiceValue(c: StatusChoice): (v: string)
    ensures v != []
  {
    match c
    case DraftChoice => "draft"
    case PublishedChoice => "published"
    case ArchivedChoice => "archived"
  }

  /** The displayed listing with the value the status selector holds. */
  datatype StatusControl = StatusControl(listing: Detail, choice: string)

  /** When the listing loads, the selector is set to its current status. */
  function Loaded(d: Detail): (c: StatusControl)
    ensures c.listing == d && c.choice == d.status
  {
    StatusControl(d, d.status)
  }

  /** Picking an entry of the selector. */
  function Choose(c: StatusControl, choice: StatusChoice): (r: StatusControl)
    ensures r.listing == c.listing && r.choice == ChoiceValue(choice)
  {
    c.(choice := ChoiceValue(choice))
  }

  /** Pressing Update: the displayed listing takes the update when one is sent; the selector keeps its value. */
  function PressUpdate(c: StatusControl, routeId: string): (r: StatusControl)
    ensures r.choice == c.choice
    ensures UpdateStatus(routeId, c.choice, c.listing).Some? ==> r.listing == UpdateStatus(routeId, c.choice, c.listing).value
    ensures UpdateStatus(routeId, c.choice, c.listing).None? ==> r == c
  {
    match UpdateStatus(routeId, c.choice, c.listing)
    case Some(d) => c.(listing := d)
    case None => c
  }

  /** The states the control can reach: the selector shows the current status or an entry of the list. */
  predicate Reachable(c: StatusControl) {
    c.choice == c.listing.status || c.choice in {"draft", "published", "archived"}
  }

  /** The Update button starts disabled, and every action keeps the control reachable. */
  lemma ControlStaysReachable(d: Detail, c: StatusControl, choice: StatusChoice, routeId: string, roles: seq<Role>)
    requires Reachable(c)
    ensures Reachable(Loaded(d)) && !UpdateButtonEnabled(roles, Loaded(d).choice, Loaded(d).listing)
    ensures Reachable(Choose(c, choice))
    ensures Reachable(PressUpdate(c, routeId))
  {
  }

  /** From any reachable state, an enabled Update button on a routed page sends the update, and then disables itself. */
  lemma EnabledUpdateSends(c: StatusControl, routeId: string, roles: seq<Role>)
    requires Reachable(c) && routeId != [] && UpdateButtonEnabled(roles, c.choice, c.listing)
    ensures UpdateStatus(routeId, c.choice, c.listing).Some?
    ensures !UpdateButtonEnabled(roles, PressUpdate(c, routeId).choice, PressUpdate(c, routeId).listing)
  {
  }

  // ---------------------------------------------------------------- permissions

  /** The Edit button is offered to a signed-in owner or administrator. */
  predicate CanEdit(user: Option<string>, roles: seq<Role>, d: Detail) {
    user.Some? && (user.value == d.owner || IsAdmin(roles))
  }

  /** Without the administrator role only the signed-in owner is offered Edit. */
  lemma EditNeedsOwnerOrAdmin(user: Option<string>, roles: seq<Role>, d: Detail)
    requires !IsAdmin(roles)
    ensures CanEdit(user, roles, d) <==> user == Some(d.owner)
  {
  }

  datatype ContactOutcome = LoginRequired | CannotMessageSelf | OpenModal

  /** The Message Seller button. */
  function MessageSeller(user: Option<string>, d: Detail): (r: ContactOutcome)
    ensures r == LoginRequired <==> user.None?
    ensures r == CannotMessageSelf <==> user.Some? && user.value == d.owner
    ensures r == OpenModal <==> user.Some? && user.value != d.owner
  {
    match user
    case None => LoginRequired
    case Some(u) => if u == d.owner then CannotMessageSelf else OpenModal
  }

  /** Whoever can message the seller is signed in and is not the owner, so can edit only as an administrator. */
  lemma MessagingExcludesOwnerEdit(user: Option<string>, roles: seq<Role>, d: Detail)
    requires MessageSeller(user, d) == OpenModal
    ensures CanEdit(user, roles, d) <==> IsAdmin(roles)
  {
  }
}
