/** includes/quick-edit.php: saving the drip settings from the quick-edit row. Unlike the
    single-post save, every setting is written each time. */
module QuickEdit {
  import opened Store
  import Helpers
  import Utilities
  import Process
  import PostMeta

  const QuickTrigger: string := "quick"
  const QuickNonce: string := "dppress_nonce_quick_name"
  const QuickCount: string := "dppress-quick-count"
  const QuickRange: string := "dppress-quick-range"

  /** The four settings a quick or bulk edit writes for one post: `live`, `count`, `range`, and
      `drip` as the range's seconds times the count. */
  function ScheduleWrites(count: nat, range: string, secondsOf: string -> int): (w: map<string, Value>)
    ensures w.Keys == {LiveKey, CountKey, RangeKey, DripKey}
    ensures w[LiveKey] == Int(1) && w[CountKey] == Int(count) && w[RangeKey] == Text(range)
    ensures w[DripKey] == Int(Absint(secondsOf(range)) * count)
    ensures count == 1 ==> w[DripKey] == Int(Absint(secondsOf(range)))
  {
    KeysDistinct();
    map[LiveKey := Int(1), CountKey := Int(count), RangeKey := Text(range),
        DripKey := Int(Helpers.DripLength(count, Absint(secondsOf(range))))]
  }

  /** When the seconds of a range are those of the range table, the drip is the table's
      seconds times the count: 3600, 86400 or 604800 per unit. */
  lemma DripUnderRangeTable(count: nat, range: string, secondsOf: string -> int)
    requires Helpers.RangeSeconds(range).Some? && secondsOf(range) == Helpers.RangeSeconds(range).value
    ensures var drip := ScheduleWrites(count, range, secondsOf)[DripKey];
            && (range == "hour" ==> drip == Int(3600 * count))
            && (range == "day" ==> drip == Int(86400 * count))
            && (range == "week" ==> drip == Int(604800 * count))
            && (drip == Int(0) <==> count == 0)
  {
    var seconds := Helpers.RangeSeconds(range).value;
    assert seconds > 0;
    assert Absint(secondsOf(range)) == seconds;
  }

  /** The four `update_post_meta` calls, in their order. */
  method WriteSchedule(db: Db, postId: nat, count: nat, range: string, secondsOf: string -> int)
    modifies db`postMeta
    ensures db.postMeta == WriteRow(old(db.postMeta), postId, ScheduleWrites(count, range, secondsOf))
  {
    ghost var s0 := db.postMeta;
    PutIsWriteRow(s0, postId, LiveKey, Int(1));
    db.postMeta := Put(db.postMeta, postId, LiveKey, Int(1));
    ghost var writes := map[LiveKey := Int(1)];
    PutAfterWriteRow(s0, postId, writes, CountKey, Int(count));
    db.postMeta := Put(db.postMeta, postId, CountKey, Int(count));
    writes := writes[CountKey := Int(count)];
    PutAfterWriteRow(s0, postId, writes, RangeKey, Text(range));
    db.postMeta := Put(db.postMeta, postId, RangeKey, Text(range));
    writes := writes[RangeKey := Text(range)];
    var dripSeconds := secondsOf(range);
    var dripLength := Helpers.DripLength(count, Absint(dripSeconds));
    PutAfterWriteRow(s0, postId, writes, DripKey, Int(dripLength));
    db.postMeta := Put(db.postMeta, postId, DripKey, Int(dripLength));
    writes := writes[DripKey := Int(dripLength)];
    assert writes == ScheduleWrites(count, range, secondsOf);
  }

  /** `save_drip_quickedit( $post_id, $post )`. Skips autosave, cron and saves without the
      'quick' trigger, stops on a failed nonce or a missing capability, ignores unsupported
      types, purges when count or range is missing, and otherwise writes all four settings. */
  method SaveDripQuickedit(db: Db, req: Request, postId: nat, postType: string, secondsOf: string -> int)
    returns (outcome: Outcome)
    modifies db`postMeta
    ensures outcome == Ignored || outcome == Fatal ==> db.postMeta == old(db.postMeta)
    ensures req.flags.autosave || req.flags.cron || Field(req, PostMeta.Trigger) != QuickTrigger ==> outcome == Ignored
    ensures (!req.flags.autosave && !req.flags.cron && Field(req, PostMeta.Trigger) == QuickTrigger
             && (NonceFails(req, QuickNonce) || !req.canEdit)) ==> outcome == Fatal
    ensures outcome == Purged || outcome == Saved ==>
              && !req.flags.autosave && !req.flags.cron && Field(req, PostMeta.Trigger) == QuickTrigger
              && !NonceFails(req, QuickNonce) && req.canEdit && Utilities.ConfirmSupportedType(postType)
    ensures outcome == Purged <==>
              && !req.flags.autosave && !req.flags.cron && Field(req, PostMeta.Trigger) == QuickTrigger
              && !NonceFails(req, QuickNonce) && req.canEdit && Utilities.ConfirmSupportedType(postType)
              && (PostedCount(req, QuickCount) == 0 || PostedText(req, QuickRange) == "")
    ensures outcome == Purged ==> db.postMeta == Process.PurgedPost(old(db.postMeta), postId, true)
    ensures outcome == Saved <==>
              && !req.flags.autosave && !req.flags.cron && Field(req, PostMeta.Trigger) == QuickTrigger
              && !NonceFails(req, QuickNonce) && req.canEdit && Utilities.ConfirmSupportedType(postType)
              && PostedCount(req, QuickCount) != 0 && PostedText(req, QuickRange) != ""
    ensures outcome == Saved ==>
              db.postMeta == WriteRow(old(db.postMeta), postId,
                                      ScheduleWrites(PostedCount(req, QuickCount), PostedText(req, QuickRange), secondsOf))
    ensures outcome == Fatal <==>
              && !req.flags.autosave && !req.flags.cron && Field(req, PostMeta.Trigger) == QuickTrigger
              && (NonceFails(req, QuickNonce) || !req.canEdit)
    ensures outcome in {Ignored, Fatal, Purged, Saved}
  {
    if req.flags.autosave {
      return Ignored;
    }
    if req.flags.cron {
      return Ignored;
    }
    if EmptyText(Field(req, PostMeta.Trigger)) || Field(req, PostMeta.Trigger) != QuickTrigger {
      return Ignored;
    }
    if NonceFails(req, QuickNonce) {
      return Fatal;
    }
    if !req.canEdit {
      return Fatal;
    }
    if !Utilities.ConfirmSupportedType(postType) {
      return Ignored;
    }
    var dripCount := PostedCount(req, QuickCount);
    var dripRange := PostedText(req, QuickRange);
    if dripCount == 0 || dripRange == "" {
      Process.PurgeSinglePostMeta(db, postId, true);
      return Purged;
    }
    WriteSchedule(db, postId, dripCount, dripRange, secondsOf);
    return Saved;
  }

  /** A single-post save in which count and range both changed writes exactly what a quick
      edit of the same count and range writes. */
  lemma QuickEditAgreesWithFullSave(req: Request, secondsOf: string -> int)
    requires PostMeta.CountChanged(req) && PostMeta.RangeChanged(req)
    ensures PostMeta.SaveWrites(req, secondsOf)
            == ScheduleWrites(PostedCount(req, PostMeta.MetaCount), PostedText(req, PostMeta.MetaRange), secondsOf)
  {
    var w := PostMeta.SaveWrites(req, secondsOf);
    var v := ScheduleWrites(PostedCount(req, PostMeta.MetaCount), PostedText(req, PostMeta.MetaRange), secondsOf);
    assert w.Keys == v.Keys;
  }

  /** After a quick edit of post `postId`, the settings read back as written and the drip
      value is the stored seconds-times-count, whatever the fallback calculator would say. */
  lemma QuickEditReadsBack(posts: MetaStore, postId: nat, count: nat, range: string, secondsOf: string -> int,
                           calculate: (Value, Value) -> Option<Value>)
    requires postId != 0 && count != 0 && Absint(secondsOf(range)) != 0
    ensures var after := WriteRow(posts, postId, ScheduleWrites(count, range, secondsOf));
            && Helpers.GetContentDripMeta(after, postId, "")
               == Helpers.Record(Helpers.DripMeta(Int(1), Int(count), Text(range),
                                                  Int(Absint(secondsOf(range)) * count), Get(posts, postId, SortKey)))
            && Helpers.GetDripValue(after, postId, calculate) == Some(Int(Absint(secondsOf(range)) * count))
  {
    KeysDistinct();
    var w := ScheduleWrites(count, range, secondsOf);
    assert SortKey !in w;
    var after := WriteRow(posts, postId, w);
    assert Get(after, postId, DripKey) == Int(Absint(secondsOf(range)) * count);
    assert Absint(secondsOf(range)) * count != 0;
  }
}
