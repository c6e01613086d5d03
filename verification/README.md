# DripPress drip-scheduling core, in Dafny

DripPress is a WordPress plugin that releases ("drips") a post to each logged-in user a set time after that user signed up. A post's schedule is kept in post meta under the `dppress_` prefix:

- `live`, `count` and `range` hold the settings;
- `drip` caches the schedule's length in seconds;
- `sort` is left alone by the three save paths and by the purge of a single post; the prefix purge (`purge --type=content`) deletes it along with every other `dppress_` key.

Each user's signup stamp (midnight of the registration day) is cached in user meta as `dppress_signup_stamp`. The completion map (post id to time) is kept as `dppress_drip_status`.

This project models the plugin's core:

- the meta reads;
- the range table and the drip length;
- the signup-stamp cache;
- the access decision and the content filter;
- the three save paths: single post, quick edit and bulk edit;
- the purges, the backfill and the reset;
- the list and dropdown markup;
- the `wp drip-press` commands.

How the model is built:

- Each PHP file is one module. A module shared by all of them, `Store`, holds:
  - the meta store: one key/value row per post or user;
  - PHP's `empty()`, `intval()` and `absint()`;
  - the request;
  - the host services.
- The database is a `Db` class. Its post-meta and user-meta maps are updated in place by the methods that model the PHP functions writing meta.
- Each such method states its new state as a function of the old one, and the request handlers also state exactly which requests end in each outcome. The lemmas are stated about those functions.
- Reading a missing key gives `''`, as `get_post_meta( $id, $key, true )` does.
- WordPress refuses meta writes and deletes for object id 0, and the model does the same.

## Model

| member | source | states |
|---|---|---|
| Helpers.GetContentDripMeta | includes/helpers.php:32-55 | false for post id 0; the record of the five stored settings when no key is named; the named field for live/count/range/drip/sort, false for any other key |
| Helpers.GetDripRanges | includes/helpers.php:135-169 | the whole table without a key; exactly hour=3600, day=86400, week=604800 seconds; false for any other key |
| Helpers.RangeSeconds | includes/helpers.php:135-169 | a range has seconds iff it is hour, day or week, and they are positive |
| Helpers.GetSingleDripLabel | includes/helpers.php:179-191 | false for an unknown range; the single or plural label of a known range; '' for a format the entry lacks |
| Helpers.DripLength | includes/post-meta.php:220 | the `count == 1 ? seconds : seconds * count` expression equals seconds times count for every count; it is zero iff either factor is |
| Helpers.GetDripValue | includes/helpers.php:200-222 | false for post id 0; the stored drip when it is not empty; otherwise whatever the calculator gives for count and range |
| Helpers.DripValueIsCached | includes/helpers.php:216-218 | once a non-empty drip is stored, it is returned, whatever the calculator |
| Helpers.BuildDripDate | includes/helpers.php:232-255 | false iff an id is 0 or the drip value is falsy; otherwise the signup stamp (0 when missing) plus absint of the drip, so never below the signup stamp |
| Helpers.PendingMessage | includes/helpers.php:265-280 | '' iff there is no timestamp; otherwise the "This content will be available" sentence with the formatted date |
| Utilities.CheckConstantsForProcess | includes/utilities.php:20-44 | true iff neither autosave, cron nor REST is set, and Ajax only blocks when it is included |
| Utilities.AjaxOnlyBlocksWhenIncluded | includes/utilities.php:20-44 | leaving Ajax out makes the answer ignore the Ajax flag; passing with Ajax included implies passing without |
| Utilities.ConfirmSupportedType | includes/utilities.php:111-118 | true iff the type is non-empty and in the supported list, i.e. iff it is 'post' |
| Store.SignupStamp | includes/utilities.php:128-160 | false for user id 0 and for a missing user without a stored stamp; a stored non-empty stamp as it is; otherwise midnight of the registration date |
| Utilities.GetUserSignupDate | includes/utilities.php:128-160 | returns the read-through stamp; writes the derived stamp to user meta only on a miss with `store` set; otherwise user meta is unchanged |
| Utilities.StoredSignupIsStable | includes/utilities.php:150-159 | after the write-back a second read returns the same stamp |
| Utilities.CompareDripSignupDates | includes/utilities.php:170-229 | nothing for post id 0; false when live, range or count is empty or there is no signup stamp; otherwise display iff today ≥ access, with remaining 0 and the completed message, or remaining = access − today > 0 and the pending message |
| Utilities.DecisionIsTotal | includes/utilities.php:199-226 | with settings and a signup present one of the two branches always fires, so the trailing fall-through is unreachable |
| Process.MergeCompletion | includes/process.php:61-70 | `array( post => now ) + existing`: status[post] = now and every other stored entry is kept; exactly {post → now} when nothing was stored |
| Process.MarkTwiceKeepsLatest | includes/process.php:61-70 | marking the same post twice keeps the later time and every other entry |
| Process.StoreUserDripProgress | includes/process.php:24-75 | autosave/Ajax/cron or a button other than 'complete' is ignored; Saved iff a 'complete' submission has a valid nonce, both ids and a mergeable stored value, and then the user's completion map is the merge; Fatal iff the nonce fails or the stored value cannot be merged; nothing changes unless Saved |
| Process.BackfillOn | includes/process.php:84-115 | the backfilled users' rows gain their registration-day stamp; every other row is unchanged |
| Process.SetUserSignupMeta | includes/process.php:82-119 | every existing user without a stamp gets one, nobody else is touched; answers true iff there was such a user |
| Process.BackfillStep | includes/process.php:109-115 | one more user of the loop extends the backfilled set |
| Process.BackfillCoversEveryUser | includes/process.php:84-115 | after the backfill every existing user has a stamp, and a user who had one keeps the same row |
| Process.BackfillAgreesWithLazyRead | includes/process.php:108-115 | the eager backfill and the read-through `get_user_signup_date` give every user the same stamp |
| Process.ZeroDripSpec | includes/process.php:149-151 | after the reset every listed post has drip = 0; unlisted posts and every other key are unchanged |
| Process.SetInitialDripSort | includes/process.php:124-155 | sets drip to 0 for every id the query returned, in order; true iff there was one |
| Store.StripPrefixed | includes/process.php:171-182 | deleting `dppress_%` keys removes exactly the prefixed keys of every row and keeps every other value |
| Store.StripLeavesNoPrefixedRows | includes/process.php:170-182 | after a purge no prefixed row is left, so an immediate second purge deletes 0 rows |
| Process.PurgeUserSignupMeta | includes/process.php:162-183 | deletes every prefixed user meta row and returns how many there were |
| Process.PurgeContentDripMeta | includes/process.php:190-211 | deletes every prefixed post meta row and returns how many there were |
| Process.PurgedPost | includes/process.php:221-238 | no-op for id 0; otherwise live, count and range are gone, drip is 0 when `reset` is set (gone otherwise), sort and every other row are untouched |
| Process.PurgeSinglePostMeta | includes/process.php:221-238 | the four deletes and the optional drip reset leave exactly the purged rows |
| Process.DeleteFour | includes/process.php:229-232 | the four successive deletes remove the four keys from the one row |
| PostMeta.SaveWrites | includes/post-meta.php:184-224 | live = 1 always; count written iff the alt count is empty or differs; range iff the alt range is empty or differs; drip iff the posted drip is empty or either changed, and then seconds × count |
| PostMeta.WriteSettings | includes/post-meta.php:184-224 | the successive `update_post_meta` calls store exactly those writes into the post's row |
| PostMeta.SaveDripMeta | includes/post-meta.php:119-227 | autosave/Ajax/cron/foreign trigger and unsupported types change nothing; failed nonce or capability is fatal before any write; an unchecked box, count 0 or empty range purge with drip reset; Saved iff every guard passes, the box is checked and count and range are present, and then exactly the writes above; no other outcome |
| PostMeta.UnchangedFormKeepsSchedule | includes/post-meta.php:194-211 | resubmitting the form as rendered (count text read back with absint) flags neither count nor range as changed |
| QuickEdit.ScheduleWrites | includes/quick-edit.php:259-270 | live = 1, count, range, and drip = seconds × count (seconds alone when count is 1); nothing else |
| QuickEdit.DripUnderRangeTable | includes/quick-edit.php:264-270 | if the range seconds are the table's, drip is 3600/86400/604800 × count, and 0 iff count is 0 |
| QuickEdit.WriteSchedule | includes/quick-edit.php:259-270 | the four `update_post_meta` calls store exactly those writes |
| QuickEdit.SaveDripQuickedit | includes/quick-edit.php:209-273 | autosave, cron, a trigger other than 'quick' or an unsupported type change nothing; Fatal iff the request is a quick edit whose nonce or capability check fails; count (absint, 0 when empty) 0 or range empty purges; Saved iff every guard passes and count and range are present, and then exactly the four settings are written; no other outcome |
| QuickEdit.QuickEditAgreesWithFullSave | includes/quick-edit.php:259-270 | when count and range both changed, the single-post save writes exactly what the quick edit writes |
| QuickEdit.QuickEditReadsBack | includes/quick-edit.php:259-270 | after a quick edit the record reads back as written (sort kept) and the drip value is the cached seconds × count |
| BulkEdit.BulkIds | includes/bulk-edit.php:178 | each posted id is normalised with absint, in order |
| BulkEdit.WriteEachSpec | includes/bulk-edit.php:183-198 | every listed non-zero post carries the written settings; unlisted posts and unwritten keys are unchanged |
| BulkEdit.WriteEachTwice | includes/bulk-edit.php:183-198 | repeating the same bulk edit leaves the rows as one run did |
| BulkEdit.SaveDripBulkedit | includes/bulk-edit.php:138-202 | outside the admin it stops; autosave/cron/REST, a foreign action or missing ids/count/range are ignored and write nothing; Fatal iff a bulk-edit request in the admin fails the nonce; Saved iff every guard passes and ids, count and range are present, and then every listed post gets live = 1 and the same count, range and drip |
| Formatting.DisplayDripLength | includes/formatting.php:25-56 | the default for post id 0 or empty live/count/range; otherwise "<count> <label>" with the plural label iff the count is above 1 |
| Formatting.DisplayAfterQuickEdit | includes/formatting.php:41-47 | after a quick edit with a known range the text is the count and the single or plural label |
| Formatting.ItemClass | includes/formatting.php:87 | drippress-item-show iff the item is displayed, drippress-item-delay otherwise |
| Formatting.ItemBody | includes/formatting.php:93-106 | the link only when displayed; the message only when not displayed and non-empty |
| Formatting.ItemsMarkupAppend | includes/formatting.php:81-110 | each item contributes its own `<li>` in place, in input order |
| Formatting.DisplayDripHtmlList | includes/formatting.php:67-122 | nothing for an empty list; otherwise one `<ul>` holding one `<li>` per item in order |
| Formatting.RangeOptions | includes/formatting.php:206-213 | one option per range in table order, plural labels iff absint(count) > 1, selected iff its key was passed |
| Formatting.GetAdminRangeDropdown | includes/formatting.php:186-225 | the select with the blank "0" option first, then the options of the table |
| Formatting.DropdownOptions | includes/formatting.php:203-213 | the options are hour, day and week in that order, and at most one is selected: the one whose key was passed |
| FrontEnd.RemoveDripFromQueries | includes/front-end.php:29-40 | the query comes back unchanged |
| FrontEnd.DripControl | includes/front-end.php:49-93 | the content is unchanged for logged-out visits, unpublished or unsupported posts, a false comparison or a displayed one; otherwise the pending message, or "This content is not available." when it is empty |
| FrontEnd.HeldBackUntilAccessDay | includes/front-end.php:84-92 | with settings and a signup present, the content is held back exactly while today is before the access stamp, and then shows the "available" sentence |
| FrontEnd.PurgedPostIsNotGated | includes/front-end.php:79-81 | after a post's settings are purged the filter never holds it back |
| Commands.FlagCount | includes/commands.php:170 | absint of a true/null result is 1 or 0 |
| Commands.Purge | includes/commands.php:44-101 | error without a type; 'user'/'users' and 'posts'/'content' purge one kind and report its count; 'all' purges both and reports the sum; any other type reports 0 and changes nothing |
| Commands.Reset | includes/commands.php:124-181 | the same dispatch over the signup backfill and the drip reset, reporting 1 per kind that had work |
| Commands.ContainsAppended | includes/commands.php:230 | a body with the marker appended contains the marker |
| Commands.UpdateContent | includes/commands.php:228-234 | `wp_update_post` replaces the body of an existing post with the given text (before unslashing; see "## Left out"), refuses an unknown id, and changes no other post |
| Commands.UpdatedCountsUnmarked | includes/commands.php:209-238 | the updated count `addcode` reports is exactly the number of item positions whose body lacks the marker |
| Commands.Addcode | includes/commands.php:192-247 | error when there is no dripped content; otherwise items with the marker are skipped, the rest get body + marker, and updated + skipped = number of items |
| Commands.AddcodeOutcome | includes/commands.php:212-238 | for items that agree on shared ids: a listed post whose body lacks the marker ends as exactly that body plus the marker, a listed post whose body has it is unchanged, and an unlisted post is unchanged |
| Commands.AddcodeOnSnapshot | includes/commands.php:200-238 | over a fresh query of some posts (repeats allowed), each listed post missing the marker ends as its body plus the marker and every other post keeps its body |
| Commands.AddcodeMarksEveryItem | includes/commands.php:212-238 | after a run every listed post carries the marker, and a post that had it still does |
| Commands.Snapshot | includes/commands.php:200 | a fresh query gives each listed post with its current body, in order |
| Commands.NoneUpdated | includes/commands.php:215-222 | items that all carry the marker are all skipped |
| Commands.SecondRunUpdatesNothing | includes/commands.php:209-238 | a second run over the same posts updates 0 items |

## Left out

- Echo paths: the `$echo = true` output of the formatting functions is not modelled. Only the returned markup is.
- Escaping, sanitising, translation and filters (`esc_*`, `sanitize_text_field`, `sanitize_key`, `__()`, `apply_filters`) are treated as the identity.
- `intval()` on a string: leading whitespace is not skipped, and exponent notation is not read (PHP 7.1 and later give 1000 for `"1e3"`; `Store.ParseInt` gives 1). Only an optional sign and leading digits are read.
- 64-bit integers: PHP's `intval()` saturates at `PHP_INT_MAX`, and the drip product `absint( $drip_seconds ) * absint( $drip_count )` turns into a float when it overflows. The model's integers are unbounded, so `Store.ParseInt`, `Helpers.DripLength`, `PostMeta.SaveWrites` and `QuickEdit.ScheduleWrites` are exact for counts and products beyond that bound.
- Meta read-back types: WordPress stores scalars as strings and `get_post_meta` returns them as strings (`'1'`, `'3'`). The model stores and reads back `Int(…)` values. So `QuickEdit.QuickEditReadsBack` states the record with `Int` fields where PHP would return their decimal strings, and a strict comparison in PHP between a stored number and an integer is not modelled.
- Dates and clocks are parameters of the model (`Host`):
  - `strtotime( 'today', … )` is `Host.midnight` and `time()` is `Host.now`;
  - `date()` formatting is `Host.formatDate`;
  - `wpautop` is `Host.autop`, and `current_time( 'timestamp' )` is the `now` parameter of `Process.StoreUserDripProgress`. The redirect after storing a completion is not modelled.
- Functions whose code is not part of this model are uninterpreted parameters:
  - `get_values_from_range` (the `secondsOf` parameter);
  - `get_user_access_date`, `get_completed_message` and `calculate_content_drip`;
  - `compare_drip_dates` (the list's `check`), `get_the_title` and `get_permalink`;
  - the result of `get_all_dripped_content` (the items given to `Commands.Addcode`).
- QuickEdit.DripUnderRangeTable: the seconds of a range equal the range table's only as an assumption stated in its requires. `get_values_from_range` is not modelled; its seconds are the uninterpreted `secondsOf` parameter (see above).
- The SQL of `set_initial_drip_sort` filters on `post_status` and orders by `post_date`, columns the post meta table does not have, so as written the query fails and `get_col` gives an empty list: `reset --type=content` then writes nothing and reports 0. The ids the query returns are a parameter of `Process.SetInitialDripSort` (and of `Commands.Reset`), which is more general than the program; with no ids, both contracts say nothing changes.
- The prefix purges: `LIKE 'dppress_%'` treats `_` as a wildcard, and under MySQL's default collation the match ignores case. The model deletes keys starting with the literal, case-sensitive prefix. The row count is the number of prefixed (id, key) pairs.
- `get_users` with the `NOT EXISTS` meta query is modelled as "existing users whose row has no signup key".
- The bulk edit's write of the whole request to the `asdasda` option is an unrelated write. It is not modelled.
- Request handling is reduced to an outcome: `wp_die`, `die()`, `WP_CLI::error`/`halt` and the success messages. The bulk edit's closing `die()` is reported as `Saved`.
- Nonce and capability checks are booleans of the request.
- `get_drip_value`'s empty-record bail is unreachable because `get_content_drip_meta` always builds the five-key array (includes/helpers.php:40-46).
- Commands.Reset: `set_user_signup_meta` and `set_initial_drip_sort` return true or nothing. The command therefore reports at most one row per kind, as written.
- Commands.UpdateContent: the stored body is the text before WordPress's processing. `wp_update_post` passes the post to `wp_insert_post`, which unslashes it (a backslash is dropped) and may run the content sanitising filters, so a body with backslashes or filtered markup is not stored exactly as body + `[drip-complete]`. The marker itself passes through both unchanged.
- Concurrent edits, hooks, enqueueing, screens, columns, metabox and quick/bulk field markup, widgets, shortcodes, JavaScript and the activation/uninstall wrappers are not part of this model.
