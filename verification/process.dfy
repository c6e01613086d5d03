/** includes/process.php: storing a user's completion, the signup-stamp backfill, the drip
    reset, the prefix purges and the purge of one post's drip settings. */
module Process {
  import opened Store

  // ---------------------------------------------------------------------------
  // Completion progress

  /** `array( $post_id => $now ) + $maybe_has`, or `$setup_args` alone when nothing is stored.
      PHP's `+` keeps the left operand's entry on a shared key. A stored value that is not an
      array makes the `+` fail (`None`). */
  function MergeCompletion(existing: Value, postId: nat, now: int): (r: Option<Value>)
    ensures Empty(existing) ==> r == Some(Stamps(map[postId := now]))
    ensures existing.Stamps? ==> r.Some? && r.value.Stamps?
    ensures !Empty(existing) && !existing.Stamps? ==> r == None
    ensures r.Some? ==> r.value.Stamps? && postId in r.value.m && r.value.m[postId] == now
    ensures r.Some? && existing.Stamps? ==>
              && r.value.m.Keys == existing.m.Keys + {postId}
              && forall p :: p in existing.m && p != postId ==> r.value.m[p] == existing.m[p]
  {
    var setup := map[postId := now];
    if Empty(existing) then Some(Stamps(setup))
    else match existing
      case Stamps(has) => Some(Stamps(map p | p in setup.Keys + has.Keys :: if p in setup then setup[p] else has[p]))
      case _ => None
  }

  /** Marking the same item twice keeps only the later time, and every other entry. */
  lemma MarkTwiceKeepsLatest(existing: Value, postId: nat, first: int, second: int)
    requires existing.Stamps? || Empty(existing)
    ensures var once := MergeCompletion(existing, postId, first);
            once.Some? && MergeCompletion(once.value, postId, second).Some?
            && var twice := MergeCompletion(once.value, postId, second).value.m;
            && twice[postId] == second
            && (existing.Stamps? ==> forall p :: p in existing.m && p != postId ==> p in twice && twice[p] == existing.m[p])
  {
  }

  const PromptButton: string := "dppress-prompt-button"
  const StatusNonce: string := "dppress_nonce_status_name"
  const PromptPostId: string := "dppress-prompt-post-id"
  const PromptUserId: string := "dppress-prompt-user-id"

  /** Not an autosave, Ajax or cron request, and the prompt button says "complete". */
  predicate CompleteSubmission(req: Request) {
    !req.flags.autosave && !req.flags.ajax && !req.flags.cron && Field(req, PromptButton) == "complete"
  }

  /** Both the post id and the user id were posted. */
  predicate HasPromptIds(req: Request) {
    !EmptyText(Field(req, PromptPostId)) && !EmptyText(Field(req, PromptUserId))
  }

  function PromptedPost(req: Request): nat {
    Absint(ParseInt(Field(req, PromptPostId)))
  }

  function PromptedUser(req: Request): nat {
    Absint(ParseInt(Field(req, PromptUserId)))
  }

  /** `store_user_drip_progress()`: on a "complete" submission with a valid nonce and both ids,
      merges `post => now` into the user's completion map. A stored completion value that is
      not an array stops the request. */
  method StoreUserDripProgress(db: Db, req: Request, now: int) returns (outcome: Outcome)
    modifies db`userMeta
    ensures outcome == Saved || outcome == Ignored || outcome == Fatal
    ensures outcome != Saved ==> db.userMeta == old(db.userMeta)
    ensures req.flags.autosave || req.flags.ajax || req.flags.cron || Field(req, PromptButton) != "complete" ==> outcome == Ignored
    ensures EmptyText(Field(req, PromptPostId)) || EmptyText(Field(req, PromptUserId)) ==> outcome != Saved
    ensures CompleteSubmission(req) && NonceFails(req, StatusNonce) ==> outcome == Fatal
    ensures var merged := MergeCompletion(Get(old(db.userMeta), PromptedUser(req), StatusKey), PromptedPost(req), now);
            && (outcome == Saved <==>
                  CompleteSubmission(req) && !NonceFails(req, StatusNonce) && HasPromptIds(req) && merged.Some?)
            && (outcome == Fatal <==>
                  CompleteSubmission(req) && (NonceFails(req, StatusNonce) || (HasPromptIds(req) && merged.None?)))
            && (outcome == Saved ==> db.userMeta == Put(old(db.userMeta), PromptedUser(req), StatusKey, merged.value))
  {
    if req.flags.autosave || req.flags.ajax || req.flags.cron {
      return Ignored;
    }
    if EmptyText(Field(req, PromptButton)) || Field(req, PromptButton) != "complete" {
      return Ignored;
    }
    if NonceFails(req, StatusNonce) {
      return Fatal;
    }
    if EmptyText(Field(req, PromptPostId)) || EmptyText(Field(req, PromptUserId)) {
      return Ignored;
    }
    var postId := Absint(ParseInt(Field(req, PromptPostId)));
    var userId := Absint(ParseInt(Field(req, PromptUserId)));
    var maybeHas := Get(db.userMeta, userId, StatusKey);
    var statusSet := MergeCompletion(maybeHas, postId, now);
    if statusSet.None? {
      return Fatal;
    }
    db.userMeta := Put(db.userMeta, userId, StatusKey, statusSet.value);
    return Saved;
  }

  // ---------------------------------------------------------------------------
  // Signup stamp backfill

  /** The users `get_users` returns for the `NOT EXISTS` meta query: existing users whose row
      has no signup key at all. */
  function NeedStamp(users: MetaStore, registered: map<nat, int>): set<nat> {
    set u | u in registered && !Has(users, u, SignupKey)
  }

  /** The user rows once the users in `done` have been given their registration-day stamp. */
  function BackfillOn(users: MetaStore, registered: map<nat, int>, midnight: int -> int, done: set<nat>): (r: MetaStore)
    requires done <= registered.Keys
    ensures forall u :: u in done && u != 0 ==> RowOf(r, u) == RowOf(users, u)[SignupKey := Int(Absint(midnight(registered[u])))]
    ensures forall u :: u !in done || u == 0 ==> RowOf(r, u) == RowOf(users, u)
  {
    map u | u in users.Keys + (done - {0}) ::
      if u in done && u != 0 then RowOf(users, u)[SignupKey := Int(Absint(midnight(registered[u])))] else users[u]
  }

  /** `set_user_signup_meta()`: every existing user without a signup key gets midnight of its
      registration date; the result is true when there was such a user (null otherwise). */
  method SetUserSignupMeta(db: Db, midnight: int -> int) returns (done: bool)
    modifies db`userMeta
    ensures done <==> NeedStamp(old(db.userMeta), db.registered) != {}
    ensures db.userMeta == BackfillOn(old(db.userMeta), db.registered, midnight, NeedStamp(old(db.userMeta), db.registered))
  {
    var need := NeedStamp(db.userMeta, db.registered);
    if need == {} {
      return false;
    }
    ghost var before := db.userMeta;
    ghost var stamped: set<nat> := {};
    var todo := need;
    while todo != {}
      invariant stamped + todo == need && stamped !! todo
      invariant db.userMeta == BackfillOn(before, db.registered, midnight, stamped)
      decreases todo
    {
      var u :| u in todo;
      BackfillStep(before, db.registered, midnight, stamped, u);
      db.userMeta := Put(db.userMeta, u, SignupKey, Int(Absint(midnight(db.registered[u]))));
      stamped := stamped + {u};
      todo := todo - {u};
    }
    return true;
  }

  /** One more user of the loop above. */
  lemma BackfillStep(users: MetaStore, registered: map<nat, int>, midnight: int -> int, done: set<nat>, u: nat)
    requires done <= registered.Keys && u in registered && u !in done
    ensures Put(BackfillOn(users, registered, midnight, done), u, SignupKey, Int(Absint(midnight(registered[u]))))
            == BackfillOn(users, registered, midnight, done + {u})
  {
    var lhs := Put(BackfillOn(users, registered, midnight, done), u, SignupKey, Int(Absint(midnight(registered[u]))));
    var rhs := BackfillOn(users, registered, midnight, done + {u});
    forall v ensures RowOf(lhs, v) == RowOf(rhs, v) {
    }
    assert lhs.Keys == rhs.Keys;
  }

  /** After the backfill, every existing user has a stamp, and a user who had one is untouched. */
  lemma BackfillCoversEveryUser(users: MetaStore, registered: map<nat, int>, midnight: int -> int, u: nat)
    requires u in registered && u != 0
    ensures Has(BackfillOn(users, registered, midnight, NeedStamp(users, registered)), u, SignupKey)
    ensures Has(users, u, SignupKey) ==> RowOf(BackfillOn(users, registered, midnight, NeedStamp(users, registered)), u) == RowOf(users, u)
  {
  }

  /** Eager backfill and lazy derivation agree: every user's read-through signup stamp is the same
      before and after the backfill. */
  lemma BackfillAgreesWithLazyRead(users: MetaStore, registered: map<nat, int>, midnight: int -> int, u: nat)
    ensures SignupStamp(BackfillOn(users, registered, midnight, NeedStamp(users, registered)), registered, midnight, u)
            == SignupStamp(users, registered, midnight, u)
  {
    var after := BackfillOn(users, registered, midnight, NeedStamp(users, registered));
    if u != 0 && u in NeedStamp(users, registered) {
      assert Get(users, u, SignupKey) == Text("");
      assert Get(after, u, SignupKey) == Int(Absint(midnight(registered[u])));
    } else if u != 0 {
      assert RowOf(after, u) == RowOf(users, u);
      assert Get(after, u, SignupKey) == Get(users, u, SignupKey);
    }
  }

  // ---------------------------------------------------------------------------
  // Drip reset

  /** The post rows once `drip` is set to 0 for each id of `ids`, in order. */
  function ZeroDrip(posts: MetaStore, ids: seq<nat>): MetaStore
    decreases |ids|
  {
    if ids == [] then posts else ZeroDrip(Put(posts, ids[0], DripKey, Int(0)), ids[1..])
  }

  /** Resetting sets `drip` to 0 for every listed post and changes nothing else. */
  lemma {:induction false} ZeroDripSpec(posts: MetaStore, ids: seq<nat>)
    ensures forall id :: id in ids && id != 0 ==> Get(ZeroDrip(posts, ids), id, DripKey) == Int(0)
    ensures forall id :: id !in ids ==> RowOf(ZeroDrip(posts, ids), id) == RowOf(posts, id)
    ensures forall id, k :: k != DripKey ==> Get(ZeroDrip(posts, ids), id, k) == Get(posts, id, k)
    decreases |ids|
  {
    if ids != [] {
      var next := Put(posts, ids[0], DripKey, Int(0));
      ZeroDripSpec(next, ids[1..]);
      forall id | id in ids && id != 0 ensures Get(ZeroDrip(posts, ids), id, DripKey) == Int(0) {
        if id !in ids[1..] {
          assert id == ids[0];
          assert RowOf(ZeroDrip(next, ids[1..]), id) == RowOf(next, id);
        }
      }
      forall id, k | k != DripKey ensures Get(ZeroDrip(posts, ids), id, k) == Get(posts, id, k) {
        assert Get(next, id, k) == Get(posts, id, k);
      }
    }
  }

  /** `set_initial_drip_sort()` over the ids its query returns: sets `drip` to 0 for each, and
      answers true when there was at least one id (null otherwise). */
  method SetInitialDripSort(db: Db, ids: seq<nat>) returns (done: bool)
    modifies db`postMeta
    ensures done <==> ids != []
    ensures db.postMeta == ZeroDrip(old(db.postMeta), ids)
  {
    if ids == [] {
      return false;
    }
    var i := 0;
    while i < |ids|
      invariant 0 <= i <= |ids|
      invariant ZeroDrip(db.postMeta, ids[i..]) == ZeroDrip(old(db.postMeta), ids)
    {
      assert ids[i..][1..] == ids[i + 1..];
      db.postMeta := Put(db.postMeta, ids[i], DripKey, Int(0));
      i := i + 1;
    }
    return true;
  }

  // ---------------------------------------------------------------------------
  // Purges

  /** `purge_user_signup_meta()`: deletes every prefixed user meta row and returns how many. */
  method PurgeUserSignupMeta(db: Db) returns (count: nat)
    modifies db`userMeta
    ensures count == |PrefixedRows(old(db.userMeta))|
    ensures db.userMeta == StripPrefixed(old(db.userMeta))
  {
    count := |PrefixedRows(db.userMeta)|;
    db.userMeta := StripPrefixed(db.userMeta);
  }

  /** `purge_content_drip_meta()`: deletes every prefixed post meta row and returns how many. */
  method PurgeContentDripMeta(db: Db) returns (count: nat)
    modifies db`postMeta
    ensures count == |PrefixedRows(old(db.postMeta))|
    ensures db.postMeta == StripPrefixed(old(db.postMeta))
  {
    count := |PrefixedRows(db.postMeta)|;
    db.postMeta := StripPrefixed(db.postMeta);
  }

  /** The rows after `purge_single_post_meta( $post_id, $reset )`: live, count, range and drip
      deleted, and drip put back as 0 when `reset` is set; id 0 leaves everything as it is. */
  function PurgedPost(posts: MetaStore, postId: nat, reset: bool): (r: MetaStore)
    ensures postId == 0 ==> r == posts
    ensures postId != 0 ==>
              && !Has(r, postId, LiveKey) && !Has(r, postId, CountKey) && !Has(r, postId, RangeKey)
              && (reset ==> Get(r, postId, DripKey) == Int(0))
              && (!reset ==> !Has(r, postId, DripKey))
    ensures ChangedAtMost(posts, r, postId, {LiveKey, CountKey, RangeKey, DripKey})
    ensures Get(r, postId, SortKey) == Get(posts, postId, SortKey)
  {
    KeysDistinct();
    if postId == 0 then posts
    else
      var row := RowOf(posts, postId) - {LiveKey, CountKey, RangeKey, DripKey};
      if reset then posts[postId := row[DripKey := Int(0)]]
      else if postId in posts then posts[postId := row]
      else posts
  }

  /** `purge_single_post_meta( $post_id, $reset )`. */
  method PurgeSinglePostMeta(db: Db, postId: nat, reset: bool)
    modifies db`postMeta
    ensures db.postMeta == PurgedPost(old(db.postMeta), postId, reset)
  {
    if postId == 0 {
      return;
    }
    db.postMeta := Delete(db.postMeta, postId, LiveKey);
    db.postMeta := Delete(db.postMeta, postId, CountKey);
    db.postMeta := Delete(db.postMeta, postId, RangeKey);
    db.postMeta := Delete(db.postMeta, postId, DripKey);
    DeleteFour(old(db.postMeta), postId);
    if reset {
      db.postMeta := Put(db.postMeta, postId, DripKey, Int(0));
    }
  }

  /** The four deletes of the purge, taken together. */
  lemma DeleteFour(s: MetaStore, id: nat)
    requires id != 0
    ensures Delete(Delete(Delete(Delete(s, id, LiveKey), id, CountKey), id, RangeKey), id, DripKey)
            == if id in s then s[id := s[id] - {LiveKey, CountKey, RangeKey, DripKey}] else s
  {
    if id in s {
      var s1 := s[id := s[id] - {LiveKey}];
      var s2 := s1[id := s1[id] - {CountKey}];
      var s3 := s2[id := s2[id] - {RangeKey}];
      assert Delete(s, id, LiveKey) == s1;
      assert Delete(s1, id, CountKey) == s2;
      assert Delete(s2, id, RangeKey) == s3;
      assert s3[id] - {DripKey} == s[id] - {LiveKey, CountKey, RangeKey, DripKey};
    }
  }
}
