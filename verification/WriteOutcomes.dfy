/** How one attempt of a retried SQL write ends (pr_agent/dashboard/storage.py). */
module WriteOutcomes {
  const MAX_RETRY := 3

  /**
   It commits; a lock error strikes before or after the update took effect and rolls it back; something
   else fails; or the commit succeeds and a later step fails.
   */
  datatype Outcome = Commits | LockedBefore | LockedAfter | Breaks | CommitsThenBreaks
}
