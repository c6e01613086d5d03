/** includes/utilities.php: request guards, the supported-type check, the user's signup
    stamp (with its write-back on a miss) and the signup-relative access decision. */
module Utilities {
  import opened Store
  import Helpers

  /** `check_constants_for_process( $include_ajax )`: no autosave, no cron, no REST request,
      and no Ajax request unless Ajax was excluded from the check. */
  function CheckConstantsForProcess(flags: Flags, includeAjax: bool): (r: bool)
    ensures r <==> !flags.autosave && !flags.cron && !flags.rest && !(includeAjax && flags.ajax)
  {
    if flags.autosave then false
    else if flags.cron then false
    else if flags.rest then false
    else if includeAjax && flags.ajax then false
    else true
  }

  /** Leaving Ajax out of the check makes the answer independent of the Ajax flag. */
  lemma AjaxOnlyBlocksWhenIncluded(flags: Flags)
    ensures CheckConstantsForProcess(flags, false) == CheckConstantsForProcess(flags.(ajax := false), true)
    ensures CheckConstantsForProcess(flags, true) ==> CheckConstantsForProcess(flags, false)
  {
  }

  /** `confirm_supported_type( $post_type )`. */
  function ConfirmSupportedType(postType: string): (r: bool)
    ensures r <==> !EmptyText(postType) && postType in Helpers.SupportedTypes
    ensures r <==> postType == "post"
  {
    !EmptyText(postType) && postType in Helpers.SupportedTypes
  }

  /** `get_user_signup_date( $user_id, $store )`. A stored, non-empty stamp is returned as it is;
      on a miss the stamp is midnight of the registration date, written back only when `store`
      is set; a missing user or user id 0 gives false (`None`). */
  method GetUserSignupDate(db: Db, userId: nat, store: bool, midnight: int -> int) returns (r: Option<nat>)
    modifies db`userMeta
    ensures r == SignupStamp(old(db.userMeta), db.registered, midnight, userId)
    ensures r == None ==> db.userMeta == old(db.userMeta)
    ensures userId != 0 && !Empty(Get(old(db.userMeta), userId, SignupKey)) ==> db.userMeta == old(db.userMeta)
    ensures !store ==> db.userMeta == old(db.userMeta)
    ensures store && r.Some? && Empty(Get(old(db.userMeta), userId, SignupKey)) ==>
              db.userMeta == Put(old(db.userMeta), userId, SignupKey, Int(r.value))
  {
    if userId == 0 {
      return None;
    }
    var signup := Get(db.userMeta, userId, SignupKey);
    if Empty(signup) {
      if userId !in db.registered {
        return None;
      }
      var stamp := midnight(db.registered[userId]);
      if store {
        db.userMeta := Put(db.userMeta, userId, SignupKey, Int(Absint(stamp)));
      }
      return Some(Absint(stamp));
    }
    return Some(Absint(IntVal(signup)));
  }

  /** Writing a derived stamp back changes nothing a later read sees: the cache is transparent,
      and a second read is a hit (or, for a stamp of 0, derives the same value again). */
  lemma StoredSignupIsStable(users: MetaStore, registered: map<nat, int>, midnight: int -> int, userId: nat)
    requires SignupStamp(users, registered, midnight, userId).Some?
    requires Empty(Get(users, userId, SignupKey))
    ensures var v := SignupStamp(users, registered, midnight, userId).value;
            SignupStamp(Put(users, userId, SignupKey, Int(v)), registered, midnight, userId) == Some(v)
  {
  }

  /** What `compare_drip_signup_dates` returns: nothing (no post id), false (missing settings
      or signup), or the decision record. */
  datatype Comparison =
    | NoPostId
    | Missing
    | Decision(display: bool, access: int, contentId: nat, remaining: nat, message: string)

  /** `compare_drip_signup_dates( $post_id )` for the current user `userId`: midnight today is
      compared with the access stamp computed from the range, the signup stamp and the count. */
  function CompareDripSignupDates(posts: MetaStore, users: MetaStore, registered: map<nat, int>, host: Host,
                                  postId: nat, userId: nat): (r: Comparison)
    ensures postId == 0 <==> r == NoPostId
    ensures (postId != 0 && (Empty(Get(posts, postId, LiveKey)) || Empty(Get(posts, postId, RangeKey))
                             || Empty(Get(posts, postId, CountKey)))) ==> r == Missing
    ensures var signup := SignupStamp(users, registered, host.midnight, userId);
            postId != 0 && (signup == None || signup == Some(0)) ==> r == Missing
    ensures r.Decision? ==>
              var signup := SignupStamp(users, registered, host.midnight, userId);
              && signup.Some? && signup.value != 0
              && r.contentId == postId
              && r.access == host.accessDate(Get(posts, postId, RangeKey), signup.value, Get(posts, postId, CountKey))
    ensures r.Decision? ==>
              var today := Absint(host.midnight(host.now));
              && (r.display <==> today >= Absint(r.access))
              && (r.display ==> r.remaining == 0 && r.message == host.completedMessage(r.access))
              && (!r.display ==> r.remaining == Absint(r.access) - today && r.remaining > 0
                                 && r.message == Helpers.PendingMessage(r.access, host.formatDate))
  {
    if postId == 0 then NoPostId
    else
      var stored := Helpers.GetContentDripMeta(posts, postId, "").meta;
      if Empty(stored.live) || Empty(stored.range) || Empty(stored.count) then Missing
      else
        var signup := SignupStamp(users, registered, host.midnight, userId);
        if signup.None? || signup.value == 0 then Missing
        else
          var today := host.midnight(host.now);
          var access := host.accessDate(stored.range, signup.value, stored.count);
          if Absint(today) >= Absint(access) then
            Decision(true, access, postId, 0, host.completedMessage(access))
          else
            Decision(false, access, postId, Absint(access) - Absint(today), Helpers.PendingMessage(access, host.formatDate))
  }

  /** With every setting and a signup present, exactly one branch fires: the content is shown
      from the access day on, and held back before it. */
  lemma DecisionIsTotal(posts: MetaStore, users: MetaStore, registered: map<nat, int>, host: Host, postId: nat, userId: nat)
    requires postId != 0
    requires !Empty(Get(posts, postId, LiveKey)) && !Empty(Get(posts, postId, RangeKey)) && !Empty(Get(posts, postId, CountKey))
    requires SignupStamp(users, registered, host.midnight, userId).Some?
    requires SignupStamp(users, registered, host.midnight, userId).value != 0
    ensures CompareDripSignupDates(posts, users, registered, host, postId, userId).Decision?
  {
  }
}
