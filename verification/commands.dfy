/** includes/commands.php: the `wp drip-press` commands `purge`, `reset` and `addcode`. */
module Commands {
  import opened Store
  import Process

  /** What a command reports: an error (which halts), a row count, or the updated and skipped
      counts of `addcode`. */
  datatype CliResult = CliError(message: string) | Rows(n: nat) | Report(updated: nat, skipped: nat)

  const NoType: string := "No meta type was declared."
  const NoContent: string := "There is no content set up for drip."

  predicate UserType(t: string) {
    t == "user" || t == "users"
  }

  predicate ContentType(t: string) {
    t == "posts" || t == "content"
  }

  /** `absint()` of a `true`/`null` result. */
  function FlagCount(b: bool): (n: nat)
    ensures n <= 1 && (n == 1 <==> b)
  {
    if b then 1 else 0
  }

  /** `Commands::purge( $args, $assoc_args )` with `--type=typeArg`. */
  method Purge(db: Db, typeArg: string) returns (r: CliResult)
    modifies db`userMeta, db`postMeta
    ensures EmptyText(typeArg) ==> r == CliError(NoType)
    ensures !UserType(typeArg) && typeArg != "all" ==> db.userMeta == old(db.userMeta)
    ensures !ContentType(typeArg) && typeArg != "all" ==> db.postMeta == old(db.postMeta)
    ensures UserType(typeArg) ==> r == Rows(|PrefixedRows(old(db.userMeta))|) && db.userMeta == StripPrefixed(old(db.userMeta))
    ensures ContentType(typeArg) ==> r == Rows(|PrefixedRows(old(db.postMeta))|) && db.postMeta == StripPrefixed(old(db.postMeta))
    ensures typeArg == "all" ==>
              && r == Rows(|PrefixedRows(old(db.userMeta))| + |PrefixedRows(old(db.postMeta))|)
              && db.userMeta == StripPrefixed(old(db.userMeta)) && db.postMeta == StripPrefixed(old(db.postMeta))
    ensures !EmptyText(typeArg) && !UserType(typeArg) && !ContentType(typeArg) && typeArg != "all" ==> r == Rows(0)
  {
    if EmptyText(typeArg) {
      return CliError(NoType);
    }
    var update := 0;
    if UserType(typeArg) {
      update := Process.PurgeUserSignupMeta(db);
    } else if ContentType(typeArg) {
      update := Process.PurgeContentDripMeta(db);
    } else if typeArg == "all" {
      var users := Process.PurgeUserSignupMeta(db);
      var drips := Process.PurgeContentDripMeta(db);
      update := users + drips;
    }
    return Rows(update);
  }

  /** `Commands::reset( $args, $assoc_args )` with `--type=typeArg`. The helpers it calls answer
      true or nothing, so each kind reports at most one row. `sortIds` is what the drip-sort
      query returns. */
  method Reset(db: Db, typeArg: string, midnight: int -> int, sortIds: seq<nat>) returns (r: CliResult)
    modifies db`userMeta, db`postMeta
    ensures EmptyText(typeArg) ==> r == CliError(NoType)
    ensures !UserType(typeArg) && typeArg != "all" ==> db.userMeta == old(db.userMeta)
    ensures !ContentType(typeArg) && typeArg != "all" ==> db.postMeta == old(db.postMeta)
    ensures UserType(typeArg) || typeArg == "all" ==>
              db.userMeta == Process.BackfillOn(old(db.userMeta), db.registered, midnight,
                                                Process.NeedStamp(old(db.userMeta), db.registered))
    ensures ContentType(typeArg) || typeArg == "all" ==> db.postMeta == Process.ZeroDrip(old(db.postMeta), sortIds)
    ensures UserType(typeArg) ==> r == Rows(FlagCount(Process.NeedStamp(old(db.userMeta), db.registered) != {}))
    ensures ContentType(typeArg) ==> r == Rows(FlagCount(sortIds != []))
    ensures typeArg == "all" ==>
              r == Rows(FlagCount(Process.NeedStamp(old(db.userMeta), db.registered) != {}) + FlagCount(sortIds != []))
    ensures !EmptyText(typeArg) && !UserType(typeArg) && !ContentType(typeArg) && typeArg != "all" ==> r == Rows(0)
  {
    if EmptyText(typeArg) {
      return CliError(NoType);
    }
    var update := 0;
    if UserType(typeArg) {
      var done := Process.SetUserSignupMeta(db, midnight);
      update := FlagCount(done);
    } else if ContentType(typeArg) {
      var done := Process.SetInitialDripSort(db, sortIds);
      update := FlagCount(done);
    } else if typeArg == "all" {
      var users := Process.SetUserSignupMeta(db, midnight);
      var drips := Process.SetInitialDripSort(db, sortIds);
      update := FlagCount(users) + FlagCount(drips);
    }
    return Rows(update);
  }

  // ---------------------------------------------------------------------------
  // addcode

  const Marker: string := "[drip-complete]"

  /** One dripped post as the content query returns it: its id and its body at that time. */
  datatype Item = Item(id: nat, content: string)

  /** `strpos( $s, $m ) !== false`: `m` occurs somewhere in `s`. */
  function Contains(s: string, m: string): bool
    decreases |s|
  {
    |m| <= |s| && (s[..|m|] == m || Contains(s[1..], m))
  }

  /** Appending the marker makes the text contain it. */
  lemma {:induction false} ContainsAppended(s: string, m: string)
    ensures Contains(s + m, m)
    decreases |s|
  {
    if s == [] {
      assert (s + m)[..|m|] == m;
    } else if (s + m)[..|m|] != m {
      assert (s + m)[1..] == s[1..] + m;
      ContainsAppended(s[1..], m);
    }
  }

  /** `wp_update_post( array( 'ID' => $id, 'post_content' => $text ) )`: replaces the body of an
      existing post; an unknown id is refused. */
  function UpdateContent(content: map<nat, string>, id: nat, text: string): (r: map<nat, string>)
    ensures r.Keys == content.Keys
    ensures id in content ==> r[id] == text
    ensures forall p :: p in content && p != id ==> r[p] == content[p]
  {
    if id in content then content[id := text] else content
  }

  /** The post bodies after `addcode` went through `items` in order. */
  function AddcodeContent(content: map<nat, string>, items: seq<Item>): map<nat, string>
    decreases |items|
  {
    if items == [] then content
    else if Contains(items[0].content, Marker) then AddcodeContent(content, items[1..])
    else AddcodeContent(UpdateContent(content, items[0].id, items[0].content + Marker), items[1..])
  }

  /** How many items `addcode` updates: those whose body lacks the marker. */
  function Updated(items: seq<Item>): (n: nat)
    ensures n <= |items|
  {
    if items == [] then 0 else (if Contains(items[0].content, Marker) then 0 else 1) + Updated(items[1..])
  }

  /** `Commands::addcode()` over the items the content query returned. */
  method Addcode(db: Db, items: seq<Item>) returns (r: CliResult)
    modifies db`content
    ensures items == [] ==> r == CliError(NoContent) && db.content == old(db.content)
    ensures items != [] ==> r == Report(Updated(items), |items| - Updated(items))
    ensures db.content == AddcodeContent(old(db.content), items)
  {
    if items == [] {
      return CliError(NoContent);
    }
    var update := 0;
    var skippd := 0;
    var i := 0;
    while i < |items|
      invariant 0 <= i <= |items|
      invariant AddcodeContent(db.content, items[i..]) == AddcodeContent(old(db.content), items)
      invariant update + Updated(items[i..]) == Updated(items)
      invariant update + skippd == i
    {
      var item := items[i];
      assert items[i..][1..] == items[i + 1..];
      if Contains(item.content, Marker) {
        skippd := skippd + 1;
        i := i + 1;
        continue;
      }
      db.content := UpdateContent(db.content, item.id, item.content + Marker);
      update := update + 1;
      i := i + 1;
    }
    return Report(update, skippd);
  }

  /** The positions of the items whose body lacks the marker. */
  function UnmarkedAt(items: seq<Item>): set<nat> {
    set i: nat | i < |items| && !Contains(items[i].content, Marker)
  }

  /** Every position moved one place on. */
  function Shifted(t: set<nat>): set<nat> {
    set i | i in t :: i + 1
  }

  lemma {:induction false} ShiftedCard(t: set<nat>)
    ensures |Shifted(t)| == |t|
    decreases |t|
  {
    if t != {} {
      var x :| x in t;
      var rest := t - {x};
      ShiftedCard(rest);
      var whole := Shifted(t);
      var part := Shifted(rest);
      forall y | y in whole ensures y in part + {x + 1} {
        var i :| i in t && y == i + 1;
        if i != x {
          assert i in rest;
        }
      }
      forall y | y in part + {x + 1} ensures y in whole {
        if y != x + 1 {
          var i :| i in rest && y == i + 1;
        }
      }
      assert whole == part + {x + 1};
      assert x + 1 !in part;
      assert |whole| == |part| + 1;
      assert t == rest + {x} && |t| == |rest| + 1;
    }
  }

  /** `addcode` reports as updated exactly the number of items whose body lacks the marker. */
  lemma {:induction false} UpdatedCountsUnmarked(items: seq<Item>)
    ensures Updated(items) == |UnmarkedAt(items)|
    decreases |items|
  {
    if items != [] {
      var tail := UnmarkedAt(items[1..]);
      UpdatedCountsUnmarked(items[1..]);
      ShiftedCard(tail);
      var shifted := Shifted(tail);
      assert UnmarkedAt(items) - {0} == shifted by {
        forall i | i in UnmarkedAt(items) - {0} ensures i in shifted {
          assert (i - 1) as nat in tail;
        }
      }
      if Contains(items[0].content, Marker) {
        assert UnmarkedAt(items) == shifted;
      } else {
        assert UnmarkedAt(items) == shifted + {0};
      }
    }
  }

  /** What `addcode` leaves in each post, when items that share an id are the same item (as in
      one query): a listed post whose listed body lacks the marker ends as that body plus the
      marker, a listed post whose body has it keeps its content, and an unlisted post is
      unchanged. */
  lemma {:induction false} AddcodeOutcome(content: map<nat, string>, items: seq<Item>)
    requires forall x :: x in items ==> x.id in content
    requires forall x, y :: x in items && y in items && x.id == y.id ==> x == y
    ensures AddcodeContent(content, items).Keys == content.Keys
    ensures forall x :: x in items ==>
              AddcodeContent(content, items)[x.id]
              == (if Contains(x.content, Marker) then content[x.id] else x.content + Marker)
    ensures forall p :: p in content && (forall x :: x in items ==> x.id != p) ==> AddcodeContent(content, items)[p] == content[p]
    decreases |items|
  {
    if items != [] {
      var x0 := items[0];
      var next := if Contains(x0.content, Marker) then content else UpdateContent(content, x0.id, x0.content + Marker);
      forall x | x in items[1..] ensures x.id in next {
        assert x in items;
      }
      forall x, y | x in items[1..] && y in items[1..] && x.id == y.id ensures x == y {
        assert x in items && y in items;
      }
      AddcodeOutcome(next, items[1..]);
      var after := AddcodeContent(content, items);
      assert after == AddcodeContent(next, items[1..]);
      forall x | x in items
        ensures after[x.id] == (if Contains(x.content, Marker) then content[x.id] else x.content + Marker)
      {
        if x in items[1..] {
          if x.id == x0.id {
            assert x == x0;
          }
        } else {
          assert x == x0;
          forall y | y in items[1..] ensures y.id != x0.id {
            assert y in items;
          }
        }
      }
      forall p | p in content && (forall x :: x in items ==> x.id != p) ensures after[p] == content[p] {
        assert x0 in items;
        forall x | x in items[1..] ensures x.id != p {
          assert x in items;
        }
      }
    }
  }

  /** On a fresh query of the posts `ids` (an id may repeat), every listed post missing the
      marker gains it at the end and every other post is unchanged. */
  lemma AddcodeOnSnapshot(content: map<nat, string>, ids: seq<nat>)
    requires forall id :: id in ids ==> id in content
    ensures var after := AddcodeContent(content, Snapshot(content, ids));
            && after.Keys == content.Keys
            && forall p :: p in content ==>
                 after[p] == (if p in ids && !Contains(content[p], Marker) then content[p] + Marker else content[p])
  {
    var items := Snapshot(content, ids);
    forall x | x in items ensures x.id in ids && x == Item(x.id, content[x.id]) {
      var k :| 0 <= k < |items| && items[k] == x;
    }
    AddcodeOutcome(content, items);
    forall p | p in ids ensures Item(p, content[p]) in items {
      var k :| 0 <= k < |ids| && ids[k] == p;
      assert items[k] == Item(p, content[p]);
    }
  }

  /** After `addcode`, every listed post that exists carries the marker, provided each item's
      body is the post's body or the post already carries the marker (as for a fresh query),
      and a post that carried it still does. */
  lemma {:induction false} AddcodeMarksEveryItem(content: map<nat, string>, items: seq<Item>)
    requires forall x :: x in items ==> x.id in content && (content[x.id] == x.content || Contains(content[x.id], Marker))
    ensures AddcodeContent(content, items).Keys == content.Keys
    ensures forall x :: x in items ==> Contains(AddcodeContent(content, items)[x.id], Marker)
    ensures forall p :: p in content && Contains(content[p], Marker) ==> Contains(AddcodeContent(content, items)[p], Marker)
    decreases |items|
  {
    if items != [] {
      var x0 := items[0];
      var next := if Contains(x0.content, Marker) then content else UpdateContent(content, x0.id, x0.content + Marker);
      if !Contains(x0.content, Marker) {
        ContainsAppended(x0.content, Marker);
      }
      assert Contains(next[x0.id], Marker);
      forall x | x in items[1..] ensures x.id in next && (next[x.id] == x.content || Contains(next[x.id], Marker)) {
        assert x in items;
      }
      AddcodeMarksEveryItem(next, items[1..]);
      forall x | x in items ensures Contains(AddcodeContent(content, items)[x.id], Marker) {
        if x != x0 {
          assert x in items[1..];
        }
      }
    }
  }

  /** The items a fresh content query returns for the posts `ids`. */
  function Snapshot(content: map<nat, string>, ids: seq<nat>): (items: seq<Item>)
    requires forall id :: id in ids ==> id in content
    ensures |items| == |ids|
    ensures forall i :: 0 <= i < |ids| ==> items[i] == Item(ids[i], content[ids[i]])
  {
    if ids == [] then [] else [Item(ids[0], content[ids[0]])] + Snapshot(content, ids[1..])
  }

  lemma {:induction false} NoneUpdated(items: seq<Item>)
    requires forall x :: x in items ==> Contains(x.content, Marker)
    ensures Updated(items) == 0
    decreases |items|
  {
    if items != [] {
      assert items[0] in items;
      forall x | x in items[1..] ensures Contains(x.content, Marker) {
        assert x in items;
      }
      NoneUpdated(items[1..]);
    }
  }

  /** Running `addcode` a second time over the same posts updates nothing. */
  lemma SecondRunUpdatesNothing(content: map<nat, string>, ids: seq<nat>)
    requires forall id :: id in ids ==> id in content
    ensures var after := AddcodeContent(content, Snapshot(content, ids));
            && (forall id :: id in ids ==> id in after)
            && Updated(Snapshot(after, ids)) == 0
  {
    var items := Snapshot(content, ids);
    assert forall i :: 0 <= i < |items| ==> items[i].id in content && content[items[i].id] == items[i].content;
    AddcodeMarksEveryItem(content, items);
    var after := AddcodeContent(content, items);
    var again := Snapshot(after, ids);
    forall x | x in again ensures Contains(x.content, Marker) {
      var i :| 0 <= i < |again| && again[i] == x;
      assert items[i] in items;
    }
    NoneUpdated(again);
  }
}
