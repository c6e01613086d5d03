/** The WordPress metadata layer DripPress works on: one key/value row per post
    and one per user, the PHP value semantics the plugin relies on (`empty()`,
    `intval()`, `absint()`), the request it is handed and the host services whose
    code is not part of this model. */
module Store {

  datatype Option<T> = None | Some(value: T)

  /** A stored meta value: an integer, a string, or the per-user completion map
      (post id to timestamp) kept under `dppress_drip_status`. */
  datatype Value = Int(i: int) | Text(s: string) | Stamps(m: map<nat, int>)

  const MetaPrefix: string := "dppress_"
  const LiveKey: string := MetaPrefix + "live"
  const CountKey: string := MetaPrefix + "count"
  const RangeKey: string := MetaPrefix + "range"
  const DripKey: string := MetaPrefix + "drip"
  const SortKey: string := MetaPrefix + "sort"
  const SignupKey: string := MetaPrefix + "signup_stamp"
  const StatusKey: string := MetaPrefix + "drip_status"

  /** The plugin's meta keys are pairwise different. */
  lemma KeysDistinct()
    ensures |{LiveKey, CountKey, RangeKey, DripKey, SortKey, SignupKey, StatusKey}| == 7
  {
    assert LiveKey[8] == 'l' && CountKey[8] == 'c' && RangeKey[8] == 'r' && DripKey[8] == 'd';
    assert SortKey[8] == 's' && SignupKey[8] == 's' && StatusKey[8] == 'd';
    assert SortKey[9] == 'o' && SignupKey[9] == 'i';
    assert DripKey[9] == 'r' && StatusKey[9] == 'r' && DripKey[10] == 'i' && StatusKey[10] == 'i';
    assert |DripKey| == 12 && |StatusKey| == 19;
  }

  /** PHP `empty()` on a string: the empty string and "0". */
  predicate EmptyText(s: string) {
    s == "" || s == "0"
  }

  /** PHP `empty()` on a stored value. */
  predicate Empty(v: Value) {
    match v
    case Int(i) => i == 0
    case Text(s) => EmptyText(s)
    case Stamps(m) => m == map[]
  }

  // ---------------------------------------------------------------------------
  // Integers and their decimal text

  predicate IsDigit(c: char) {
    '0' <= c <= '9'
  }

  predicate AllDigits(s: string) {
    forall i :: 0 <= i < |s| ==> IsDigit(s[i])
  }

  function DigitChar(d: nat): char
    requires d < 10
  {
    ('0' as int + d) as char
  }

  /** The number a string of decimal digits denotes. */
  function DigitsValue(s: string): nat
    requires AllDigits(s)
  {
    if s == [] then 0 else DigitsValue(s[..|s| - 1]) * 10 + (s[|s| - 1] as int - '0' as int)
  }

  /** The longest prefix of `s` made of decimal digits. */
  function LeadingDigits(s: string): (r: string)
    ensures AllDigits(r) && r <= s
    ensures AllDigits(s) ==> r == s
  {
    if s == [] || !IsDigit(s[0]) then [] else [s[0]] + LeadingDigits(s[1..])
  }

  /** PHP `intval()` on a string: an optional sign and the leading digits; 0 when there are none. */
  function ParseInt(s: string): int {
    if |s| > 0 && s[0] == '-' then -(DigitsValue(LeadingDigits(s[1..])) as int)
    else if |s| > 0 && s[0] == '+' then DigitsValue(LeadingDigits(s[1..]))
    else DigitsValue(LeadingDigits(s))
  }

  /** Decimal text of a natural number, as PHP writes an integer into a string. */
  function NatToString(n: nat): (r: string)
    ensures |r| > 0 && AllDigits(r)
  {
    if n < 10 then [DigitChar(n)] else NatToString(n / 10) + [DigitChar(n % 10)]
  }

  function IntToString(i: int): string {
    if i < 0 then "-" + NatToString(-i) else NatToString(i)
  }

  lemma {:induction false} DigitsOfNat(n: nat)
    ensures DigitsValue(NatToString(n)) == n
  {
    if n >= 10 {
      DigitsOfNat(n / 10);
      var s := NatToString(n);
      assert s[..|s| - 1] == NatToString(n / 10);
    }
  }

  /** Writing a count into a form field and reading it back with `absint()` gives the count again. */
  lemma ParseNatToString(n: nat)
    ensures ParseInt(NatToString(n)) == n
    ensures Absint(ParseInt(NatToString(n))) == n
  {
    var s := NatToString(n);
    assert IsDigit(s[0]);
    DigitsOfNat(n);
  }

  /** PHP `absint()`. */
  function Absint(x: int): (r: nat)
    ensures r == x || r == -x
  {
    if x < 0 then -x else x
  }

  /** PHP `intval()` on a stored value (a non-empty array counts as 1). */
  function IntVal(v: Value): int {
    match v
    case Int(i) => i
    case Text(s) => ParseInt(s)
    case Stamps(m) => if m == map[] then 0 else 1
  }

  /** PHP string conversion of a stored value. */
  function AsText(v: Value): string {
    match v
    case Int(i) => IntToString(i)
    case Text(s) => s
    case Stamps(_) => "Array"
  }

  // ---------------------------------------------------------------------------
  // The meta store

  type Row = map<string, Value>
  type MetaStore = map<nat, Row>

  function RowOf(s: MetaStore, id: nat): Row {
    if id in s then s[id] else map[]
  }

  /** `get_post_meta($id, $key, true)` / `get_user_meta(...)`: the stored value, or '' when
      the id is 0 or the key is missing. */
  function Get(s: MetaStore, id: nat, key: string): Value {
    if id != 0 && key in RowOf(s, id) then RowOf(s, id)[key] else Text("")
  }

  predicate Has(s: MetaStore, id: nat, key: string) {
    key in RowOf(s, id)
  }

  /** `update_*_meta`: stores `v` under `key`; WordPress refuses object id 0. */
  function Put(s: MetaStore, id: nat, key: string, v: Value): (r: MetaStore)
    ensures id != 0 ==> Get(r, id, key) == v && Has(r, id, key)
    ensures id == 0 ==> r == s
    ensures ChangedAtMost(s, r, id, {key})
  {
    if id == 0 then s else s[id := RowOf(s, id)[key := v]]
  }

  /** `delete_*_meta`: removes `key` from the row; WordPress refuses object id 0. */
  function Delete(s: MetaStore, id: nat, key: string): (r: MetaStore)
    ensures !Has(r, id, key) || id == 0
    ensures Get(r, id, key) == Text("")
    ensures ChangedAtMost(s, r, id, {key})
  {
    if id == 0 || id !in s then s else s[id := s[id] - {key}]
  }

  /** `s'` differs from `s` at most in the keys `keys` of the row `id`. */
  ghost predicate ChangedAtMost(s: MetaStore, s': MetaStore, id: nat, keys: set<string>) {
    && (forall i :: i != id ==> RowOf(s', i) == RowOf(s, i))
    && (forall k :: k !in keys ==> (k in RowOf(s', id) <==> k in RowOf(s, id)))
    && (forall k :: k !in keys && k in RowOf(s, id) ==> RowOf(s', id)[k] == RowOf(s, id)[k])
  }

  /** The store after writing every entry of `writes` into the row `id`; id 0 is refused. */
  function WriteRow(s: MetaStore, id: nat, writes: map<string, Value>): (r: MetaStore)
    ensures id != 0 ==> forall k :: k in writes ==> Has(r, id, k) && Get(r, id, k) == writes[k]
    ensures forall k :: k !in writes ==> Get(r, id, k) == Get(s, id, k)
    ensures ChangedAtMost(s, r, id, writes.Keys)
  {
    if id == 0 then s else s[id := RowOf(s, id) + writes]
  }

  lemma PutIsWriteRow(s: MetaStore, id: nat, k: string, v: Value)
    ensures Put(s, id, k, v) == WriteRow(s, id, map[k := v])
  {
    if id != 0 {
      assert RowOf(s, id)[k := v] == RowOf(s, id) + map[k := v];
    }
  }

  /** One more `update_*_meta` on the same row extends the writes. */
  lemma PutAfterWriteRow(s: MetaStore, id: nat, writes: map<string, Value>, k: string, v: Value)
    ensures Put(WriteRow(s, id, writes), id, k, v) == WriteRow(s, id, writes[k := v])
  {
    if id != 0 {
      assert RowOf(s, id) + writes[k := v] == (RowOf(s, id) + writes)[k := v];
    }
  }

  predicate HasPrefix(k: string) {
    MetaPrefix <= k
  }

  /** Every row with the plugin's prefixed keys removed (`DELETE ... WHERE meta_key LIKE 'dppress_%'`). */
  function StripPrefixed(s: MetaStore): (r: MetaStore)
    ensures r.Keys == s.Keys
    ensures forall id, k :: id in s && k in s[id] ==> (k in r[id] <==> !HasPrefix(k))
    ensures forall id, k :: id in r && k in r[id] ==> k in s[id] && r[id][k] == s[id][k]
  {
    map id | id in s :: map k | k in s[id] && !HasPrefix(k) :: s[id][k]
  }

  /** The (id, key) rows the prefixed delete removes. */
  function PrefixedRows(s: MetaStore): set<(nat, string)> {
    set id, k | id in s && k in s[id] && HasPrefix(k) :: (id, k)
  }

  /** Purging is complete: nothing prefixed survives, so a second purge deletes no rows. */
  lemma StripLeavesNoPrefixedRows(s: MetaStore)
    ensures PrefixedRows(StripPrefixed(s)) == {}
    ensures |PrefixedRows(StripPrefixed(s))| == 0
  {
    var t := StripPrefixed(s);
    forall id, k | id in t && k in t[id] ensures !HasPrefix(k) {
      assert k in s[id];
    }
  }

  /** The read-through view of a user's signup stamp (`get_user_signup_date` without storing):
      the stored stamp when it is not empty, otherwise midnight of the registration date of an
      existing user, otherwise false (`None`). */
  function SignupStamp(users: MetaStore, registered: map<nat, int>, midnight: int -> int, id: nat): (r: Option<nat>)
    ensures id == 0 ==> r == None
    ensures id != 0 && !Empty(Get(users, id, SignupKey)) ==> r == Some(Absint(IntVal(Get(users, id, SignupKey))))
    ensures r == None <==> id == 0 || (Empty(Get(users, id, SignupKey)) && id !in registered)
  {
    if id == 0 then None
    else
      var stored := Get(users, id, SignupKey);
      if !Empty(stored) then Some(Absint(IntVal(stored)))
      else if id !in registered then None
      else Some(Absint(midnight(registered[id])))
  }

  // ---------------------------------------------------------------------------
  // The site, the request and the host

  /** The WordPress database as far as the plugin touches it. `registered` maps every existing
      user to the timestamp of its registration date; `content` maps every post to its body. */
  class Db {
    var postMeta: MetaStore
    var userMeta: MetaStore
    var registered: map<nat, int>
    var content: map<nat, string>

    constructor (posts: MetaStore, users: MetaStore, registered: map<nat, int>, content: map<nat, string>)
      ensures postMeta == posts && userMeta == users
      ensures this.registered == registered && this.content == content
    {
      postMeta := posts;
      userMeta := users;
      this.registered := registered;
      this.content := content;
    }
  }

  /** The WordPress request constants the plugin tests. */
  datatype Flags = Flags(autosave: bool, ajax: bool, cron: bool, rest: bool)

  /** An incoming request: its constants, the posted fields, the posted `post_ids` array, and
      the answers of the nonce and capability checks. */
  datatype Request = Request(flags: Flags, form: map<string, string>, postIds: seq<string>,
                             nonceValid: bool, canEdit: bool, isAdmin: bool)

  /** `$_POST[$key]`, '' when it was not posted. */
  function Field(req: Request, key: string): string {
    if key in req.form then req.form[key] else ""
  }

  /** `! empty( $_POST[$key] ) ? absint( $_POST[$key] ) : 0`. */
  function PostedCount(req: Request, key: string): nat {
    if EmptyText(Field(req, key)) then 0 else Absint(ParseInt(Field(req, key)))
  }

  /** `! empty( $_POST[$key] ) ? sanitize_text_field( $_POST[$key] ) : ''`. */
  function PostedText(req: Request, key: string): (r: string)
    ensures EmptyText(r) <==> r == ""
  {
    if EmptyText(Field(req, key)) then "" else Field(req, key)
  }

  /** The nonce check: a missing nonce field or a nonce that does not verify. */
  predicate NonceFails(req: Request, field: string) {
    EmptyText(Field(req, field)) || !req.nonceValid
  }

  /** What became of a request handler. */
  datatype Outcome =
    | Ignored   // returned early, nothing written
    | Halted    // die() before any write
    | Fatal     // wp_die(), nothing written
    | Purged    // the post's drip meta was purged
    | Saved     // the new values were written

  /** Host services and clocks that are not part of this model. */
  datatype Host = Host(
    midnight: int -> int,                      // strtotime( 'today', $t )
    now: int,                                  // time()
    formatDate: int -> string,                 // date( get_date_format(), $t )
    completedMessage: int -> string,           // Helpers\get_completed_message
    accessDate: (Value, nat, Value) -> int,    // Helpers\get_user_access_date( range, signup, count )
    calculateDrip: (Value, Value) -> Option<Value>, // Utilities\calculate_content_drip( count, range )
    autop: string -> string                    // wpautop
  )
}
