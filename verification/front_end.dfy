/** includes/front-end.php: the content filter that holds back dripped content, and the query
    hook that leaves queries alone. */
module FrontEnd {
  import opened Store
  import Utilities
  import Process

  /** `remove_drip_from_queries( $query )`: both branches hand the query back untouched. */
  function RemoveDripFromQueries<Q>(query: Q, isAdmin: bool): (r: Q)
    ensures r == query
  {
    if isAdmin then query else query
  }

  /** The page view `drip_control` runs in: whether someone is logged in, the current post and
      user, and the post's status and type. */
  datatype Visit = Visit(loggedIn: bool, postId: nat, userId: nat, postStatus: string, postType: string)

  const NotAvailable: string := "This content is not available."

  /** The comparison `drip_control` makes for the visit. */
  function Compare(posts: MetaStore, users: MetaStore, registered: map<nat, int>, host: Host, visit: Visit): Utilities.Comparison {
    Utilities.CompareDripSignupDates(posts, users, registered, host, visit.postId, visit.userId)
  }

  /** The filter replaces the content: a logged-in visit of a published, supported post whose
      comparison came back pending. */
  predicate Gated(posts: MetaStore, users: MetaStore, registered: map<nat, int>, host: Host, visit: Visit) {
    && visit.loggedIn && visit.postStatus == "publish" && Utilities.ConfirmSupportedType(visit.postType)
    && Compare(posts, users, registered, host, visit).Decision?
    && !Compare(posts, users, registered, host, visit).display
  }

  /** `drip_control( $content )`. */
  function DripControl(content: string, posts: MetaStore, users: MetaStore, registered: map<nat, int>,
                       host: Host, visit: Visit): (r: string)
    ensures !visit.loggedIn ==> r == content
    ensures visit.postStatus != "publish" || !Utilities.ConfirmSupportedType(visit.postType) ==> r == content
    ensures !Compare(posts, users, registered, host, visit).Decision? ==> r == content
    ensures Compare(posts, users, registered, host, visit).Decision? && Compare(posts, users, registered, host, visit).display
            ==> r == content
    ensures !Gated(posts, users, registered, host, visit) ==> r == content
    ensures Gated(posts, users, registered, host, visit) ==>
              var message := Compare(posts, users, registered, host, visit).message;
              r == host.autop(if EmptyText(message) then NotAvailable else message)
  {
    if !visit.loggedIn then content
    else if visit.postStatus != "publish" then content
    else if !Utilities.ConfirmSupportedType(visit.postType) then content
    else
      var dripCompare := Compare(posts, users, registered, host, visit);
      if !dripCompare.Decision? then content
      else if dripCompare.display then content
      else
        var dripMessage := if !EmptyText(dripCompare.message) then dripCompare.message else NotAvailable;
        host.autop(dripMessage)
  }

  /** For a logged-in visit of a published post with its settings and a signup stamp in place,
      the content is held back exactly while midnight today is before the access stamp, and it
      is then replaced by the "available on" sentence for that stamp. */
  lemma HeldBackUntilAccessDay(posts: MetaStore, users: MetaStore, registered: map<nat, int>, host: Host, visit: Visit)
    requires visit.loggedIn && visit.postStatus == "publish" && visit.postType == "post" && visit.postId != 0
    requires !Empty(Get(posts, visit.postId, LiveKey)) && !Empty(Get(posts, visit.postId, RangeKey))
    requires !Empty(Get(posts, visit.postId, CountKey))
    requires SignupStamp(users, registered, host.midnight, visit.userId).Some?
    requires SignupStamp(users, registered, host.midnight, visit.userId).value != 0
    ensures var access := host.accessDate(Get(posts, visit.postId, RangeKey),
                                          SignupStamp(users, registered, host.midnight, visit.userId).value,
                                          Get(posts, visit.postId, CountKey));
            && (Gated(posts, users, registered, host, visit) <==> Absint(host.midnight(host.now)) < Absint(access))
            && (Gated(posts, users, registered, host, visit) ==>
                  DripControl("", posts, users, registered, host, visit)
                  == host.autop("This content will be available " + host.formatDate(access)))
  {
    Utilities.DecisionIsTotal(posts, users, registered, host, visit.postId, visit.userId);
    var c := Compare(posts, users, registered, host, visit);
    if !c.display {
      assert c.access != 0;
      assert c.message == "This content will be available " + host.formatDate(c.access);
      assert !EmptyText(c.message) by {
        assert |c.message| > 1;
      }
    }
  }

  /** Once a post's drip settings are purged, the filter leaves its content alone for everyone. */
  lemma PurgedPostIsNotGated(content: string, posts: MetaStore, users: MetaStore, registered: map<nat, int>,
                             host: Host, visit: Visit)
    ensures DripControl(content, Process.PurgedPost(posts, visit.postId, true), users, registered, host, visit) == content
  {
    var after := Process.PurgedPost(posts, visit.postId, true);
    if visit.postId != 0 {
      assert !Has(after, visit.postId, LiveKey);
      assert Get(after, visit.postId, LiveKey) == Text("");
    }
  }
}
