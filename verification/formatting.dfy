/** includes/formatting.php: the "N Days" text of a post's drip length, the HTML list of dripped
    items and the range dropdown of the edit screen. Only the returned (not echoed) markup is
    modelled. */
module Formatting {
  import opened Store
  import Helpers
  import QuickEdit

  // ---------------------------------------------------------------------------
  // Drip length text

  /** `esc_html()` of a label: the text of a label, '' for false. */
  function LabelString(l: Helpers.Label): string {
    match l
    case NoLabel => ""
    case LabelText(s) => s
    case LabelNumber(n) => NatToString(n)
    case LabelEntry(_) => "Array"
  }

  /** `! empty( $count ) && absint( $count ) > 1`: the plural label is used. */
  predicate IsPlural(count: Value) {
    !Empty(count) && Absint(IntVal(count)) > 1
  }

  /** `display_drip_length( $post_id, $default, false )`. */
  function DisplayDripLength(posts: MetaStore, postId: nat, default: string): (r: string)
    ensures var m := Helpers.ReadDripMeta(posts, postId);
            postId == 0 || Empty(m.live) || Empty(m.count) || Empty(m.range) ==> r == default
    ensures var m := Helpers.ReadDripMeta(posts, postId);
            var n := Absint(IntVal(m.count));
            var range := AsText(m.range);
            && (postId != 0 && !Empty(m.live) && !Empty(m.count) && !Empty(m.range) && range in {"hour", "day", "week"}
                ==> r == NatToString(n) + " " + (if n > 1 then Helpers.GetDripRanges(range).info.plural
                                                 else Helpers.GetDripRanges(range).info.single))
            && (postId != 0 && !Empty(m.live) && !Empty(m.count) && !Empty(m.range) && range !in {"hour", "day", "week"}
                ==> r == NatToString(n) + " ")
  {
    if postId == 0 then default
    else
      var stored := Helpers.GetContentDripMeta(posts, postId, "").meta;
      if Empty(stored.live) || Empty(stored.count) || Empty(stored.range) then default
      else
        var maybePlural := if IsPlural(stored.count) then "plural" else "single";
        var countLabel := Helpers.GetSingleDripLabel(AsText(stored.range), maybePlural);
        NatToString(Absint(IntVal(stored.count))) + " " + LabelString(countLabel)
  }

  /** After a quick edit with a known range, the drip length reads "<count> <label>", with the
      plural label exactly when the count is more than one. */
  lemma DisplayAfterQuickEdit(posts: MetaStore, postId: nat, count: nat, range: string, secondsOf: string -> int, default: string)
    requires postId != 0 && count != 0 && range in {"hour", "day", "week"}
    ensures var info := Helpers.GetDripRanges(range).info;
            DisplayDripLength(WriteRow(posts, postId, QuickEdit.ScheduleWrites(count, range, secondsOf)), postId, default)
            == NatToString(count) + " " + (if count > 1 then info.plural else info.single)
  {
    var after := WriteRow(posts, postId, QuickEdit.ScheduleWrites(count, range, secondsOf));
    assert Get(after, postId, LiveKey) == Int(1);
    assert Get(after, postId, CountKey) == Int(count);
    assert Get(after, postId, RangeKey) == Text(range);
  }

  // ---------------------------------------------------------------------------
  // The list of dripped items

  /** What `compare_drip_dates` says about one item (its code is not part of this model);
      `None` stands for its false return. */
  datatype ItemCheck = ItemCheck(display: bool, message: string)

  /** `! empty( $check['display'] )`. */
  predicate Shown(c: Option<ItemCheck>) {
    c.Some? && c.value.display
  }

  /** The class of an item: shown or delayed. */
  function ItemClass(show: bool): (r: string)
    ensures r == "drippress-item-show" <==> show
    ensures r == "drippress-item-delay" <==> !show
  {
    if show then "drippress-item-show" else "drippress-item-delay"
  }

  /** What sits inside one `<li>`: the linked title of a shown item, the message of a delayed
      item that has one, and nothing otherwise. */
  function ItemBody(c: Option<ItemCheck>, title: string, link: string): (r: string)
    ensures Shown(c) ==> r == "<a href=\"" + link + "\">" + title + "</a>"
    ensures !Shown(c) && c.Some? && !EmptyText(c.value.message) ==> r == c.value.message
    ensures !Shown(c) && (c.None? || EmptyText(c.value.message)) ==> r == ""
  {
    (if Shown(c) then "<a href=\"" + link + "\">" + title + "</a>" else "")
    + (if !Shown(c) && c.Some? && !EmptyText(c.value.message) then c.value.message else "")
  }

  /** The markup of one item. */
  function ItemMarkup(id: nat, check: nat -> Option<ItemCheck>, title: nat -> string, link: nat -> string): string {
    "<li class=\"drippress-item " + ItemClass(Shown(check(id))) + "\">" + ItemBody(check(id), title(id), link(id)) + "</li>"
  }

  /** The markup of every item, one after another, in the order given. */
  function ItemsMarkup(items: seq<nat>, check: nat -> Option<ItemCheck>, title: nat -> string, link: nat -> string): string {
    if items == [] then "" else ItemMarkup(items[0], check, title, link) + ItemsMarkup(items[1..], check, title, link)
  }

  /** The list markup splits along any split of the items: each item contributes its own
      `<li>`, in place. */
  lemma {:induction false} ItemsMarkupAppend(a: seq<nat>, b: seq<nat>, check: nat -> Option<ItemCheck>,
                                             title: nat -> string, link: nat -> string)
    ensures ItemsMarkup(a + b, check, title, link) == ItemsMarkup(a, check, title, link) + ItemsMarkup(b, check, title, link)
  {
    if a == [] {
      assert a + b == b;
    } else {
      assert (a + b)[1..] == a[1..] + b;
      ItemsMarkupAppend(a[1..], b, check, title, link);
    }
  }

  /** The markup of the first `i + 1` items is that of the first `i` and then item `i`. */
  lemma ItemsMarkupStep(items: seq<nat>, i: nat, check: nat -> Option<ItemCheck>, title: nat -> string, link: nat -> string)
    requires i < |items|
    ensures ItemsMarkup(items[..i + 1], check, title, link)
            == ItemsMarkup(items[..i], check, title, link) + ItemMarkup(items[i], check, title, link)
  {
    ItemsMarkupAppend(items[..i], [items[i]], check, title, link);
    assert items[..i + 1] == items[..i] + [items[i]];
    assert [items[i]][1..] == [];
  }

  function ListOpen(listType: string): string {
    "<ul class=\"drippress-list drippress-list-" + listType + "\">"
  }

  const ListClose: string := "</ul>"

  /** `display_drip_html_list( $list_items, $list_type, false )`: nothing for an empty list,
      otherwise one `<ul>` holding one `<li>` per item in the order given. */
  method DisplayDripHtmlList(items: seq<nat>, listType: string, check: nat -> Option<ItemCheck>,
                             title: nat -> string, link: nat -> string) returns (r: Option<string>)
    ensures items == [] <==> r == None
    ensures items != [] ==> r == Some(ListOpen(listType) + ItemsMarkup(items, check, title, link) + ListClose)
  {
    if items == [] {
      return None;
    }
    var build := "";
    build := build + ListOpen(listType);
    var i := 0;
    while i < |items|
      invariant 0 <= i <= |items|
      invariant build == ListOpen(listType) + ItemsMarkup(items[..i], check, title, link)
    {
      var itemId := items[i];
      var c := check(itemId);
      var item := "<li class=\"drippress-item " + ItemClass(Shown(c)) + "\">" + ItemBody(c, title(itemId), link(itemId)) + "</li>";
      ghost var prev := ItemsMarkup(items[..i], check, title, link);
      ItemsMarkupStep(items, i, check, title, link);
      AppendAssoc(ListOpen(listType), prev, item);
      build := build + item;
      i := i + 1;
    }
    assert items[..i] == items;
    build := build + ListClose;
    return Some(build);
  }

  // ---------------------------------------------------------------------------
  // The range dropdown

  /** One `<option>` of the range dropdown. */
  datatype OptionEntry = OptionEntry(value: string, caption: string, selected: bool)

  /** `! empty( $count ) && absint( $count ) > 1`, on the dropdown's integer count. */
  predicate PluralCount(count: int) {
    count != 0 && Absint(count) > 1
  }

  /** The options the loop produces, one per table entry, in table order. */
  function RangeOptions(table: seq<(string, Helpers.RangeInfo)>, selected: string, count: int): (r: seq<OptionEntry>)
    ensures |r| == |table|
    ensures forall i :: 0 <= i < |table| ==> r[i].value == table[i].0 && (r[i].selected <==> table[i].0 == selected)
    ensures forall i :: 0 <= i < |table| ==>
              r[i].caption == (if count > 1 || count < -1 then table[i].1.plural else table[i].1.single)
  {
    seq(|table|, i requires 0 <= i < |table| =>
      OptionEntry(table[i].0, if PluralCount(count) then table[i].1.plural else table[i].1.single, table[i].0 == selected))
  }

  /** `selected( $selected, $range_key, false )`. */
  function SelectedAttr(selected: bool): string {
    if selected then " selected='selected'" else ""
  }

  function OptionTag(e: OptionEntry): string {
    "<option value=\"" + e.value + "\" " + SelectedAttr(e.selected) + ">" + e.caption + "</option>"
  }

  function RenderOptions(entries: seq<OptionEntry>): string {
    if entries == [] then "" else OptionTag(entries[0]) + RenderOptions(entries[1..])
  }

  /** Rendering one more option appends its tag. */
  lemma {:induction false} RenderOptionsSnoc(entries: seq<OptionEntry>, e: OptionEntry)
    ensures RenderOptions(entries + [e]) == RenderOptions(entries) + OptionTag(e)
  {
    if entries == [] {
      assert entries + [e] == [e];
    } else {
      assert (entries + [e])[1..] == entries[1..] + [e];
      RenderOptionsSnoc(entries[1..], e);
    }
  }

  lemma AppendAssoc<T>(a: seq<T>, b: seq<T>, c: seq<T>)
    ensures (a + b) + c == a + (b + c)
  {
  }

  lemma TakeOneMore<T>(s: seq<T>, i: nat)
    requires i < |s|
    ensures s[..i + 1] == s[..i] + [s[i]]
  {
  }

  const SelectOpen: string := "<select class=\"widefat\" name=\"dppress-meta-range\" id=\"dppress-meta-range\">"
  const BlankOption: string := " <option value=\"0\">(Select)</option>"
  const SelectClose: string := "</select>"

  /** `get_admin_range_dropdown( $selected, $count, false )`: the blank "0" option first, then
      one option per range of the table, in its order. */
  method GetAdminRangeDropdown(selected: string, count: int) returns (r: string)
    ensures r == SelectOpen + BlankOption + RenderOptions(RangeOptions(Helpers.Ranges, selected, count)) + SelectClose
  {
    var ranges := Helpers.Ranges;
    var options := RangeOptions(ranges, selected, count);
    var build := "";
    build := build + SelectOpen;
    build := build + BlankOption;
    ghost var head := build;
    var i := 0;
    while i < |ranges|
      invariant 0 <= i <= |ranges|
      invariant build == head + RenderOptions(options[..i])
    {
      var rangeKey := ranges[i].0;
      var caption := if PluralCount(count) then ranges[i].1.plural else ranges[i].1.single;
      var tag := OptionTag(OptionEntry(rangeKey, caption, selected == rangeKey));
      assert options[i] == OptionEntry(rangeKey, caption, selected == rangeKey);
      ghost var prev := RenderOptions(options[..i]);
      RenderOptionsSnoc(options[..i], options[i]);
      TakeOneMore(options, i);
      AppendAssoc(head, prev, tag);
      build := build + tag;
      i := i + 1;
    }
    assert options[..i] == options;
    build := build + SelectClose;
    return build;
  }

  /** The dropdown offers hour, day and week in that order, and marks at most one of them as
      selected: the one whose key was passed, if any. */
  lemma DropdownOptions(selected: string, count: int)
    ensures var opts := RangeOptions(Helpers.Ranges, selected, count);
            && |opts| == 3 && opts[0].value == "hour" && opts[1].value == "day" && opts[2].value == "week"
            && (forall i, j :: 0 <= i < j < 3 && opts[i].selected ==> !opts[j].selected)
            && ((exists i :: 0 <= i < 3 && opts[i].selected) <==> selected in {"hour", "day", "week"})
  {
    var opts := RangeOptions(Helpers.Ranges, selected, count);
    assert Helpers.Ranges[0].0 == "hour" && Helpers.Ranges[1].0 == "day" && Helpers.Ranges[2].0 == "week";
    if selected == "hour" {
      assert opts[0].selected;
    } else if selected == "day" {
      assert opts[1].selected;
    } else if selected == "week" {
      assert opts[2].selected;
    }
  }
}
