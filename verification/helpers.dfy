/** includes/helpers.php: reading a post's drip settings, the range table, labels,
    the drip length and the drip date. Nothing here writes to the store. */
module Helpers {
  import opened Store

  /** `get_supported_types()`: only 'post' (the filter is the identity). */
  const SupportedTypes: seq<string> := ["post"]

  /** The five drip settings of a post, as `get_content_drip_meta` assembles them. */
  datatype DripMeta = DripMeta(live: Value, count: Value, range: Value, drip: Value, sort: Value)

  function ReadDripMeta(s: MetaStore, id: nat): DripMeta {
    DripMeta(Get(s, id, LiveKey), Get(s, id, CountKey), Get(s, id, RangeKey), Get(s, id, DripKey), Get(s, id, SortKey))
  }

  /** What `get_content_drip_meta` hands back: false, the whole record, or one field. */
  datatype MetaLookup = NoMeta | Record(meta: DripMeta) | OneField(value: Value)

  /** The settings key names a caller may ask for one at a time. */
  const DripFields: set<string> := {"live", "count", "range", "drip", "sort"}

  /** `get_content_drip_meta( $post_id, $single )`. */
  function GetContentDripMeta(s: MetaStore, postId: nat, single: string): (r: MetaLookup)
    ensures postId == 0 ==> r == NoMeta
    ensures postId != 0 && EmptyText(single) ==>
              r.Record? && r.meta.live == Get(s, postId, LiveKey) && r.meta.count == Get(s, postId, CountKey)
              && r.meta.range == Get(s, postId, RangeKey) && r.meta.drip == Get(s, postId, DripKey)
              && r.meta.sort == Get(s, postId, SortKey)
    ensures postId != 0 && !EmptyText(single) ==>
              (r.OneField? <==> single in DripFields) && (r.OneField? ==> r.value == Get(s, postId, MetaPrefix + single))
    ensures postId != 0 && !EmptyText(single) && single !in DripFields ==> r == NoMeta
  {
    if postId == 0 then NoMeta
    else
      var setup := ReadDripMeta(s, postId);
      if EmptyText(single) then Record(setup)
      else match single
        case "live" => OneField(setup.live)
        case "count" => OneField(setup.count)
        case "range" => OneField(setup.range)
        case "drip" => OneField(setup.drip)
        case "sort" => OneField(setup.sort)
        case _ => NoMeta
  }

  // ---------------------------------------------------------------------------
  // Ranges

  const HourInSeconds: nat := 60 * 60
  const DayInSeconds: nat := 24 * HourInSeconds
  const WeekInSeconds: nat := 7 * DayInSeconds

  /** One entry of the range table: its two labels and its length in seconds. */
  datatype RangeInfo = RangeInfo(single: string, plural: string, value: nat)

  /** The range table, in its order (the filter is the identity). */
  const Ranges: seq<(string, RangeInfo)> := [
    ("hour", RangeInfo("Hour", "Hours", HourInSeconds)),
    ("day", RangeInfo("Day", "Days", DayInSeconds)),
    ("week", RangeInfo("Week", "Weeks", WeekInSeconds))
  ]

  /** `array_key_exists( $key, $table ) ? $table[ $key ] : false` over an ordered table. */
  function Find<T>(table: seq<(string, T)>, key: string): (r: Option<T>)
    ensures r.Some? <==> exists i :: 0 <= i < |table| && table[i].0 == key
    ensures r.Some? ==> exists i :: 0 <= i < |table| && table[i] == (key, r.value)
  {
    if table == [] then None
    else if table[0].0 == key then Some(table[0].1)
    else
      var r := Find(table[1..], key);
      assert forall i :: 1 <= i < |table| ==> table[i] == table[1..][i - 1];
      r
  }

  datatype RangesResult = AllRanges(table: seq<(string, RangeInfo)>) | OneRange(info: RangeInfo) | NoRange

  /** `get_drip_ranges( $single )`. */
  function GetDripRanges(single: string): (r: RangesResult)
    ensures EmptyText(single) ==> r == AllRanges(Ranges)
    ensures !EmptyText(single) ==> (r.OneRange? <==> single in {"hour", "day", "week"})
    ensures !EmptyText(single) ==> r.OneRange? || r == NoRange
    ensures single == "hour" ==> r == OneRange(RangeInfo("Hour", "Hours", 3600))
    ensures single == "day" ==> r == OneRange(RangeInfo("Day", "Days", 86400))
    ensures single == "week" ==> r == OneRange(RangeInfo("Week", "Weeks", 604800))
  {
    assert |Ranges| == 3 && Ranges[0].0 == "hour" && Ranges[1].0 == "day" && Ranges[2].0 == "week";
    if EmptyText(single) then AllRanges(Ranges)
    else match Find(Ranges, single)
      case Some(info) => OneRange(info)
      case None => NoRange
  }

  /** The seconds of a known range, `None` for any other key. */
  function RangeSeconds(range: string): (r: Option<nat>)
    ensures r.Some? <==> range in {"hour", "day", "week"}
    ensures r.Some? ==> r.value > 0
  {
    match GetDripRanges(range)
    case OneRange(info) => Some(info.value)
    case _ => None
  }

  /** What `get_single_drip_label` can hand back: false, a string, the seconds of a range, or
      a whole range entry (when no range was named and the format is itself a range key). */
  datatype Label = NoLabel | LabelText(s: string) | LabelNumber(n: nat) | LabelEntry(info: RangeInfo)

  /** `get_single_drip_label( $range, $format )`. */
  function GetSingleDripLabel(range: string, format: string): (r: Label)
    ensures !EmptyText(range) && range !in {"hour", "day", "week"} ==> r == NoLabel
    ensures GetDripRanges(range).OneRange? && format == "single" ==> r == LabelText(GetDripRanges(range).info.single)
    ensures GetDripRanges(range).OneRange? && format == "plural" ==> r == LabelText(GetDripRanges(range).info.plural)
    ensures format !in {"single", "plural", "value", "hour", "day", "week"} && r != NoLabel ==> r == LabelText("")
    ensures r != NoLabel <==> EmptyText(range) || range in {"hour", "day", "week"}
  {
    match GetDripRanges(range)
    case NoRange => NoLabel
    case AllRanges(table) =>
      (match Find(table, format)
       case Some(info) => LabelEntry(info)
       case None => LabelText(""))
    case OneRange(info) =>
      if format == "single" then (if info.single != "" then LabelText(info.single) else LabelText(""))
      else if format == "plural" then (if info.plural != "" then LabelText(info.plural) else LabelText(""))
      else if format == "value" then (if info.value != 0 then LabelNumber(info.value) else LabelText(""))
      else LabelText("")
  }

  /** `$drip_length = absint( $count ) === 1 ? absint( $seconds ) : absint( $seconds ) * absint( $count )`:
      both branches are the seconds times the count. */
  function DripLength(count: nat, seconds: nat): (r: nat)
    ensures r == seconds * count
    ensures count == 0 || seconds == 0 <==> r == 0
  {
    if count == 1 then seconds else seconds * count
  }

  // ---------------------------------------------------------------------------
  // Drip value and drip date

  /** `get_drip_value( $post_id )`: the cached `drip` when it is not empty, otherwise
      `calculate_content_drip( count, range )`; false for post id 0. */
  function GetDripValue(s: MetaStore, postId: nat, calculate: (Value, Value) -> Option<Value>): (r: Option<Value>)
    ensures postId == 0 ==> r == None
    ensures postId != 0 && !Empty(Get(s, postId, DripKey)) ==> r == Some(Get(s, postId, DripKey))
    ensures postId != 0 && Empty(Get(s, postId, DripKey)) ==> r == calculate(Get(s, postId, CountKey), Get(s, postId, RangeKey))
  {
    if postId == 0 then None
    else
      var stored := GetContentDripMeta(s, postId, "");
      if !Empty(stored.meta.drip) then Some(stored.meta.drip)
      else calculate(stored.meta.count, stored.meta.range)
  }

  /** Once a non-empty drip is stored, it is what `get_drip_value` returns, whatever the calculator. */
  lemma DripValueIsCached(s: MetaStore, postId: nat, drip: Value, calculate: (Value, Value) -> Option<Value>)
    requires postId != 0 && !Empty(drip)
    ensures GetDripValue(Put(s, postId, DripKey, drip), postId, calculate) == Some(drip)
  {
  }

  /** PHP truthiness of `get_drip_value`'s result. */
  predicate Truthy(v: Option<Value>) {
    v.Some? && !Empty(v.value)
  }

  /** `build_drip_date( $post_id, $user_id )`: the user's signup stamp plus the drip value, or false
      when an id is 0 or there is no drip value. A user without a signup stamp counts as 0
      (`absint( false )`). */
  function BuildDripDate(posts: MetaStore, users: MetaStore, registered: map<nat, int>, host: Host,
                         postId: nat, userId: nat): (r: Option<nat>)
    ensures postId == 0 || userId == 0 ==> r == None
    ensures r.Some? <==> postId != 0 && userId != 0 && Truthy(GetDripValue(posts, postId, host.calculateDrip))
    ensures r.Some? ==>
              var signup := SignupStamp(users, registered, host.midnight, userId);
              var base := if signup.Some? then signup.value else 0;
              r.value == base + Absint(IntVal(GetDripValue(posts, postId, host.calculateDrip).value)) && r.value >= base
  {
    if postId == 0 || userId == 0 then None
    else
      var dripValue := GetDripValue(posts, postId, host.calculateDrip);
      if !Truthy(dripValue) then None
      else
        var userDate := SignupStamp(users, registered, host.midnight, userId);
        var signup := match userDate case Some(t) => t case None => 0;
        Some(signup + Absint(IntVal(dripValue.value)))
  }

  /** `get_pending_message( $timestamp )`: the "available on" sentence, '' when there is no date. */
  function PendingMessage(timestamp: int, formatDate: int -> string): (r: string)
    ensures timestamp == 0 <==> r == ""
    ensures timestamp != 0 ==> r == "This content will be available " + formatDate(timestamp)
  {
    if timestamp == 0 then "" else "This content will be available " + formatDate(timestamp)
  }
}
