/**
 * The profile row every page reads: one per user, with the display names the
 * pages fall back through. An absent name is the empty string, an absent
 * verification flag is false.
 */
module Profiles {
  import opened Roles

  datatype Profile = Profile(
    user: UserId,
    companyName: string,
    firstName: string,
    lastName: string,
    isVerified: bool)

  /** The test "belongs to `user`", as a predicate value. */
  function OwnedBy(user: UserId): Profile -> bool {
    (p: Profile) => p.user == user
  }
}
