/** The administrator decision made before every command (bot.py:17-33). */
module Admin {
  import opened Wrappers

  /** The member statuses the chat reports for its administrators. */
  const ADMIN_ROLES: seq<string> := ["administrator", "creator"]

  /**
   * Whether `userId` may run commands. `allowList` is the configured id
   * list; `role` is the chat's answer to the member lookup, and `None` when
   * the lookup raised, which is treated as "not an administrator".
   */
  function IsAdmin(allowList: seq<int>, userId: int, role: Option<string>): (ok: bool)
    ensures ok <==> userId in allowList || (role.Some? && (role.value == "administrator" || role.value == "creator"))
  {
    if userId in allowList then true
    else match role
      case None => false
      case Some(status) => status in ADMIN_ROLES
  }

  /** A failed lookup leaves only the allow-list (fail closed). */
  lemma FailedLookupFailsClosed(allowList: seq<int>, userId: int)
    ensures IsAdmin(allowList, userId, None) <==> userId in allowList
  {
  }

  /** A listed id is an administrator whatever the lookup says. */
  lemma AllowListSuffices(allowList: seq<int>, userId: int, role: Option<string>)
    requires userId in allowList
    ensures IsAdmin(allowList, userId, role)
  {
  }
}
