/** includes/bulk-edit.php: saving one count and range onto every post of a bulk edit. */
module BulkEdit {
  import opened Store
  import QuickEdit

  const BulkAction: string := "save_drip_bulkedit"
  const ActionField: string := "action"
  const BulkNonce: string := "nonce"
  const BulkCount: string := "count"
  const BulkRange: string := "range"

  /** `array_map( 'absint', $_POST['post_ids'] )`. */
  function BulkIds(posted: seq<string>): (ids: seq<nat>)
    ensures |ids| == |posted|
    ensures forall i :: 0 <= i < |posted| ==> ids[i] == Absint(ParseInt(posted[i]))
  {
    if posted == [] then [] else [Absint(ParseInt(posted[0]))] + BulkIds(posted[1..])
  }

  /** The post rows once `writes` went into the row of each id of `ids`, in order. */
  function WriteEach(posts: MetaStore, ids: seq<nat>, writes: map<string, Value>): MetaStore
    decreases |ids|
  {
    if ids == [] then posts else WriteEach(WriteRow(posts, ids[0], writes), ids[1..], writes)
  }

  /** Every listed post (other than id 0) carries the written settings afterwards; every other
      post, and every key not written, is as it was. */
  lemma {:induction false} WriteEachSpec(posts: MetaStore, ids: seq<nat>, writes: map<string, Value>)
    ensures forall id, k :: id in ids && id != 0 && k in writes ==>
              Has(WriteEach(posts, ids, writes), id, k) && Get(WriteEach(posts, ids, writes), id, k) == writes[k]
    ensures forall id :: id !in ids ==> RowOf(WriteEach(posts, ids, writes), id) == RowOf(posts, id)
    ensures forall id, k :: k !in writes ==> Get(WriteEach(posts, ids, writes), id, k) == Get(posts, id, k)
    decreases |ids|
  {
    if ids != [] {
      var next := WriteRow(posts, ids[0], writes);
      WriteEachSpec(next, ids[1..], writes);
      forall id, k | id in ids && id != 0 && k in writes
        ensures Has(WriteEach(posts, ids, writes), id, k) && Get(WriteEach(posts, ids, writes), id, k) == writes[k]
      {
        if id !in ids[1..] {
          assert id == ids[0];
          assert RowOf(WriteEach(next, ids[1..], writes), id) == RowOf(next, id);
        }
      }
      forall id, k | k !in writes ensures Get(WriteEach(posts, ids, writes), id, k) == Get(posts, id, k) {
        assert Get(next, id, k) == Get(posts, id, k);
      }
    }
  }

  /** Writing the same settings is idempotent: running the bulk edit a second time with the
      same ids, count and range leaves the rows as the first run left them. */
  lemma WriteEachTwice(posts: MetaStore, ids: seq<nat>, writes: map<string, Value>)
    requires writes != map[]
    ensures WriteEach(WriteEach(posts, ids, writes), ids, writes) == WriteEach(posts, ids, writes)
  {
    WriteEachSpec(posts, ids, writes);
    WriteEachFixed(WriteEach(posts, ids, writes), ids, writes);
  }

  /** A row that already carries `writes` is unchanged by writing them there again. */
  lemma WriteRowAbsorbs(s: MetaStore, id: nat, writes: map<string, Value>)
    requires writes != map[]
    requires forall k :: k in writes ==> Has(s, id, k) && Get(s, id, k) == writes[k]
    ensures WriteRow(s, id, writes) == s
  {
    if id != 0 {
      var k :| k in writes;
      assert id in s;
      assert RowOf(s, id) + writes == RowOf(s, id);
    }
  }

  /** Writing again into rows that already carry the writes changes nothing. */
  lemma {:induction false} WriteEachFixed(s: MetaStore, ids: seq<nat>, writes: map<string, Value>)
    requires writes != map[]
    requires forall id, k :: id in ids && id != 0 && k in writes ==> Has(s, id, k) && Get(s, id, k) == writes[k]
    ensures WriteEach(s, ids, writes) == s
    decreases |ids|
  {
    if ids != [] {
      if ids[0] != 0 {
        WriteRowAbsorbs(s, ids[0], writes);
      }
      assert WriteRow(s, ids[0], writes) == s;
      WriteEachFixed(s, ids[1..], writes);
    }
  }

  /** `save_drip_bulkedit()`. Stops a request outside the admin, skips autosave, cron and REST
      requests and foreign actions, stops on a failed nonce, skips a request without post ids,
      count or range, and otherwise writes the four settings into every listed post. */
  method SaveDripBulkedit(db: Db, req: Request, secondsOf: string -> int) returns (outcome: Outcome)
    modifies db`postMeta
    ensures outcome != Saved ==> db.postMeta == old(db.postMeta)
    ensures !req.isAdmin <==> outcome == Halted
    ensures req.isAdmin && (req.flags.autosave || req.flags.cron || req.flags.rest || Field(req, ActionField) != BulkAction)
            ==> outcome == Ignored
    ensures outcome == Fatal <==>
              && req.isAdmin && !req.flags.autosave && !req.flags.cron && !req.flags.rest
              && Field(req, ActionField) == BulkAction && NonceFails(req, BulkNonce)
    ensures outcome in {Halted, Ignored, Fatal, Saved}
    ensures outcome == Saved <==>
              && req.isAdmin && !req.flags.autosave && !req.flags.cron && !req.flags.rest
              && Field(req, ActionField) == BulkAction && !NonceFails(req, BulkNonce)
              && req.postIds != [] && !EmptyText(Field(req, BulkCount)) && !EmptyText(Field(req, BulkRange))
    ensures outcome == Saved ==>
              db.postMeta == WriteEach(old(db.postMeta), BulkIds(req.postIds),
                                       QuickEdit.ScheduleWrites(Absint(ParseInt(Field(req, BulkCount))), Field(req, BulkRange), secondsOf))
  {
    if !req.isAdmin {
      return Halted;
    }
    if req.flags.autosave || req.flags.cron || req.flags.rest {
      return Ignored;
    }
    if EmptyText(Field(req, ActionField)) || Field(req, ActionField) != BulkAction {
      return Ignored;
    }
    if NonceFails(req, BulkNonce) {
      return Fatal;
    }
    if req.postIds == [] || EmptyText(Field(req, BulkCount)) || EmptyText(Field(req, BulkRange)) {
      return Ignored;
    }
    var postIds := BulkIds(req.postIds);
    var dripCount := Absint(ParseInt(Field(req, BulkCount)));
    var dripRange := Field(req, BulkRange);
    ghost var writes := QuickEdit.ScheduleWrites(dripCount, dripRange, secondsOf);
    var i := 0;
    while i < |postIds|
      invariant 0 <= i <= |postIds|
      invariant WriteEach(db.postMeta, postIds[i..], writes) == WriteEach(old(db.postMeta), postIds, writes)
    {
      assert postIds[i..][1..] == postIds[i + 1..];
      QuickEdit.WriteSchedule(db, postIds[i], dripCount, dripRange, secondsOf);
      i := i + 1;
    }
    return Saved;
  }
}
