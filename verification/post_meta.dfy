/** includes/post-meta.php: saving the drip settings from the single-post edit screen. */
module PostMeta {
  import opened Store
  import Helpers
  import Utilities
  import Process

  const Trigger: string := "dppress-trigger"
  const MetaNonce: string := "dppress_nonce_meta_name"
  const LiveBox: string := "dppress-live"
  const MetaCount: string := "dppress-meta-count"
  const MetaRange: string := "dppress-meta-range"
  const MetaCountAlt: string := "dppress-meta-count-alt"
  const MetaRangeAlt: string := "dppress-meta-range-alt"
  const PostedDrip: string := "dppress-drip"

  /** The request constants or the trigger field say this save is not ours. */
  predicate NotOurs(req: Request) {
    req.flags.autosave || req.flags.ajax || req.flags.cron || Field(req, Trigger) != "go"
  }

  /** The posted count differs from the count the form was rendered with (or that one is missing). */
  predicate CountChanged(req: Request) {
    PostedCount(req, MetaCountAlt) == 0 || PostedCount(req, MetaCountAlt) != PostedCount(req, MetaCount)
  }

  /** The posted range differs from the range the form was rendered with (or that one is missing). */
  predicate RangeChanged(req: Request) {
    PostedText(req, MetaRangeAlt) == "" || PostedText(req, MetaRangeAlt) != PostedText(req, MetaRange)
  }

  /** The values the save writes into the post's row: `live` always; count and range when they
      changed; drip, as seconds times count, when it was not posted or count or range changed. */
  function SaveWrites(req: Request, secondsOf: string -> int): (w: map<string, Value>)
    ensures LiveKey in w && w[LiveKey] == Int(1)
    ensures CountKey in w <==> CountChanged(req)
    ensures CountKey in w ==> w[CountKey] == Int(PostedCount(req, MetaCount))
    ensures RangeKey in w <==> RangeChanged(req)
    ensures RangeKey in w ==> w[RangeKey] == Text(PostedText(req, MetaRange))
    ensures DripKey in w <==> EmptyText(Field(req, PostedDrip)) || CountChanged(req) || RangeChanged(req)
    ensures DripKey in w ==> w[DripKey] == Int(Absint(secondsOf(PostedText(req, MetaRange))) * PostedCount(req, MetaCount))
    ensures w.Keys <= {LiveKey, CountKey, RangeKey, DripKey}
  {
    KeysDistinct();
    var count := PostedCount(req, MetaCount);
    var range := PostedText(req, MetaRange);
    var recompute := EmptyText(Field(req, PostedDrip)) || CountChanged(req) || RangeChanged(req);
    var w0 := map[LiveKey := Int(1)];
    var w1 := if CountChanged(req) then w0[CountKey := Int(count)] else w0;
    var w2 := if RangeChanged(req) then w1[RangeKey := Text(range)] else w1;
    if recompute then w2[DripKey := Int(Helpers.DripLength(count, Absint(secondsOf(range))))] else w2
  }

  /** The writes of a save that passed every guard, one `update_post_meta` at a time. */
  method WriteSettings(db: Db, req: Request, postId: nat, secondsOf: string -> int)
    modifies db`postMeta
    ensures db.postMeta == WriteRow(old(db.postMeta), postId, SaveWrites(req, secondsOf))
  {
    var dripCount := PostedCount(req, MetaCount);
    var dripRange := PostedText(req, MetaRange);
    ghost var s0 := db.postMeta;
    PutIsWriteRow(s0, postId, LiveKey, Int(1));
    db.postMeta := Put(db.postMeta, postId, LiveKey, Int(1));
    ghost var writes := map[LiveKey := Int(1)];
    var resetDrip := false;
    var altCount := PostedCount(req, MetaCountAlt);
    var altRange := PostedText(req, MetaRangeAlt);
    if altCount == 0 || altCount != dripCount {
      resetDrip := true;
      PutAfterWriteRow(s0, postId, writes, CountKey, Int(dripCount));
      db.postMeta := Put(db.postMeta, postId, CountKey, Int(dripCount));
      writes := writes[CountKey := Int(dripCount)];
    }
    if altRange == "" || altRange != dripRange {
      resetDrip := true;
      PutAfterWriteRow(s0, postId, writes, RangeKey, Text(dripRange));
      db.postMeta := Put(db.postMeta, postId, RangeKey, Text(dripRange));
      writes := writes[RangeKey := Text(dripRange)];
    }
    if EmptyText(Field(req, PostedDrip)) || resetDrip {
      var dripSeconds := secondsOf(dripRange);
      var dripLength := Helpers.DripLength(dripCount, Absint(dripSeconds));
      PutAfterWriteRow(s0, postId, writes, DripKey, Int(dripLength));
      db.postMeta := Put(db.postMeta, postId, DripKey, Int(dripLength));
      writes := writes[DripKey := Int(dripLength)];
    }
    assert writes == SaveWrites(req, secondsOf);
  }

  /** `save_drip_meta( $post_id, $post )`. Skips autosave, Ajax, cron and foreign saves, stops on a
      failed nonce or a missing capability, ignores unsupported types, purges the post's settings
      when the box is unchecked or count or range is missing, and otherwise sets `live`, writes
      count and range only when they changed, and recomputes `drip` when it was not posted or
      count or range changed. */
  method SaveDripMeta(db: Db, req: Request, postId: nat, postType: string, secondsOf: string -> int)
    returns (outcome: Outcome)
    modifies db`postMeta
    ensures outcome == Ignored || outcome == Fatal ==> db.postMeta == old(db.postMeta)
    ensures NotOurs(req) ==> outcome == Ignored
    ensures !NotOurs(req) && (NonceFails(req, MetaNonce) || !req.canEdit) ==> outcome == Fatal
    ensures (!NotOurs(req) && !NonceFails(req, MetaNonce) && req.canEdit && !Utilities.ConfirmSupportedType(postType))
              ==> outcome == Ignored
    ensures outcome == Purged <==>
              && !NotOurs(req) && !NonceFails(req, MetaNonce) && req.canEdit && Utilities.ConfirmSupportedType(postType)
              && (EmptyText(Field(req, LiveBox)) || PostedCount(req, MetaCount) == 0 || PostedText(req, MetaRange) == "")
    ensures outcome == Purged ==> db.postMeta == Process.PurgedPost(old(db.postMeta), postId, true)
    ensures outcome == Saved <==>
              && !NotOurs(req) && !NonceFails(req, MetaNonce) && req.canEdit && Utilities.ConfirmSupportedType(postType)
              && !EmptyText(Field(req, LiveBox)) && PostedCount(req, MetaCount) != 0 && PostedText(req, MetaRange) != ""
    ensures outcome == Saved ==> db.postMeta == WriteRow(old(db.postMeta), postId, SaveWrites(req, secondsOf))
    ensures outcome in {Ignored, Fatal, Purged, Saved}
  {
    if req.flags.autosave || req.flags.ajax || req.flags.cron {
      return Ignored;
    }
    if EmptyText(Field(req, Trigger)) || Field(req, Trigger) != "go" {
      return Ignored;
    }
    if NonceFails(req, MetaNonce) {
      return Fatal;
    }
    if !req.canEdit {
      return Fatal;
    }
    if !Utilities.ConfirmSupportedType(postType) {
      return Ignored;
    }
    if EmptyText(Field(req, LiveBox)) {
      Process.PurgeSinglePostMeta(db, postId, true);
      return Purged;
    }
    var dripCount := PostedCount(req, MetaCount);
    var dripRange := PostedText(req, MetaRange);
    if dripCount == 0 || dripRange == "" {
      Process.PurgeSinglePostMeta(db, postId, true);
      return Purged;
    }
    WriteSettings(db, req, postId, secondsOf);
    return Saved;
  }

  /** Resubmitting the form as it was rendered (count and range unchanged, drip posted) leaves
      count, range and drip alone: the rendered count reads back as the same number. */
  lemma UnchangedFormKeepsSchedule(req: Request, storedCount: nat)
    requires storedCount != 0
    requires Field(req, MetaCount) == NatToString(storedCount) && Field(req, MetaCountAlt) == NatToString(storedCount)
    requires !EmptyText(Field(req, MetaRange)) && Field(req, MetaRangeAlt) == Field(req, MetaRange)
    ensures !CountChanged(req) && !RangeChanged(req)
  {
    ParseNatToString(storedCount);
  }
}
