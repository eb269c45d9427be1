/**
 * Who may be named (policy.py). The word lists behind the patterns are data, so they come
 * in as predicates on the text; nothing here depends on which words they hold.
 */
module Policy {
  import opened Options

  /** The patterns and spelling rules of the policy module. */
  datatype Wording = Wording(
    botGroup: string -> bool,
    botName: string -> bool,
    temporaryName: string -> bool,
    lockSanction: string -> bool,
    blockCourtesy: string -> bool,
    courtesyDenied: string -> bool)

  datatype ResolvedUser = ResolvedUser(userId: int, username: string, groups: set<string>, missing: bool)

  /** Everything `should_highlight_contributor` decides before it asks about global groups. */
  predicate LocallyExcluded(user: ResolvedUser, wording: Wording) {
    || user.missing
    || wording.temporaryName(user.username)
    || (exists group :: group in user.groups && wording.botGroup(group))
    || wording.botName(user.username)
  }

  predicate GloballyBot(username: string, globalGroups: string -> set<string>, wording: Wording) {
    exists group :: group in globalGroups(username) && wording.botGroup(group)
  }

  predicate ShouldHighlight(user: ResolvedUser, globalGroups: string -> set<string>, wording: Wording) {
    !LocallyExcluded(user, wording) && !GloballyBot(user.username, globalGroups, wording)
  }

  /** What a wiki has decided about an account, as last read. */
  datatype AccountStanding = AccountStanding(
    userId: int,
    username: string,
    blockedAt: Option<int>,
    blockExpiresAt: Option<int>,
    blockPartial: bool,
    blockReason: Option<string>,
    globallyLocked: bool,
    lockReason: Option<string>)

  predicate IsSanctionLock(standing: AccountStanding, wording: Wording) {
    standing.globallyLocked && standing.lockReason.Some? && standing.lockReason.value != ""
        && wording.lockSanction(standing.lockReason.value)
  }

  predicate IsCourtesyBlock(standing: AccountStanding, wording: Wording) {
    && standing.blockReason.Some?
    && standing.blockReason.value != ""
    && !wording.courtesyDenied(standing.blockReason.value)
    && wording.blockCourtesy(standing.blockReason.value)
  }

  predicate IsNameable(standing: Option<AccountStanding>, maxVisibleBlock: int, now: int, wording: Wording) {
    match standing
    case None => true
    case Some(account) =>
      if IsSanctionLock(account, wording) then false
      else if account.blockedAt.None? then true
      else if account.blockPartial then true
      else if IsCourtesyBlock(account, wording) then true
      else if account.blockExpiresAt.None? then false
      else if account.blockExpiresAt.value <= now then true
      else account.blockExpiresAt.value - account.blockedAt.value <= maxVisibleBlock
  }

  /** A name that may be shown stays so when the threshold is raised or time passes. */
  lemma NameabilityOnlyGrows(standing: Option<AccountStanding>, lower: int, higher: int, before: int, after: int,
                             wording: Wording)
    requires lower <= higher && before <= after && IsNameable(standing, lower, before, wording)
    ensures IsNameable(standing, higher, after, wording)
  {}

  /**
   * Whose name is withheld, from the row itself: an account locked with a reason that is a
   * sanction; or one under a block that is full, has not run out by now, is without end or
   * longer than the threshold, and gives no reason, a denied one or none of courtesy.
   */
  lemma WithheldExactlyWhenLastinglyExcluded(account: AccountStanding, maxVisibleBlock: int, now: int, wording: Wording)
    ensures !IsNameable(Some(account), maxVisibleBlock, now, wording)
            <==> || (account.globallyLocked && account.lockReason.Some? && account.lockReason.value != ""
                     && wording.lockSanction(account.lockReason.value))
                 || (&& account.blockedAt.Some? && !account.blockPartial
                     && (|| account.blockReason.None? || account.blockReason.value == ""
                         || wording.courtesyDenied(account.blockReason.value)
                         || !wording.blockCourtesy(account.blockReason.value))
                     && (|| account.blockExpiresAt.None?
                         || (now < account.blockExpiresAt.value
                             && account.blockedAt.value + maxVisibleBlock < account.blockExpiresAt.value)))
  {}

  /** An account the wiki has no row for is named. */
  lemma UnknownAccountsAreNamed(maxVisibleBlock: int, now: int, wording: Wording)
    ensures IsNameable(None, maxVisibleBlock, now, wording)
  {}

  /**
   * Who is never put forward: accounts that are missing, have the name of a temporary account
   * or of a bot, or are in a bot group of the wiki or, as CentralAuth says, globally.
   */
  lemma NeverPutForward(user: ResolvedUser, globalGroups: string -> set<string>, wording: Wording)
    ensures !ShouldHighlight(user, globalGroups, wording)
            <==> || user.missing || wording.temporaryName(user.username) || wording.botName(user.username)
                 || (exists group :: group in user.groups && wording.botGroup(group))
                 || (exists group :: group in globalGroups(user.username) && wording.botGroup(group))
  {}
}
