# Comment Tagger — a Dafny model of the tag-token resolver

Comment Tagger is a WordPress plugin that lets readers and editors tag
comments with terms of a dedicated taxonomy, `comment_tags`. This project
models the core of that plugin and proves properties about it.

- **Option values.** The front-end tag picker gives each existing term the
  option value `cmmnt_tggr-<term_id>`.
- **Parsing a submission.** The posted tokens are split into two lists:
  - tokens containing the prefix are decoded into existing term IDs with
    `strstr`, `explode('-')` and `intval`;
  - every other token is a new tag name.
- **Resolving names.** `sanitise_comment_terms` finds or creates a term for
  each new name.
- **Saving.** The two ID lists are merged with
  `array_unique(array_merge(...))`. The comment's term set is then either
  overwritten, cleared or left alone, and that choice differs between the
  front-end save handler and the two edit handlers.

Around that resolver sit a few pure transforms, also modelled:

- the tag block put before a comment's text;
- the AJAX comment-data filters;
- the terms-table column fix;
- the capability mapping;
- the admin parent-menu fix;
- the grouping and counting of tagged comments by post on the archive page.

Modules:

- `Php` — the PHP built-ins the code relies on, with PHP's own edge cases:
  - `strstr` truthiness;
  - `explode` and `implode` on a one-character delimiter;
  - `intval`: leading whitespace, an optional sign, and leading digits.
    A digit run beyond the int range is read through a double, so it
    saturates at `PHP_INT_MAX`/`PHP_INT_MIN`, or becomes 0 once it is too
    large for any double (about 1.8e308);
  - `trim` with its default character set;
  - integer-to-string conversion;
  - `array_unique`, which keeps first occurrences;
  - ordered string-keyed arrays, with `unset` and assignment.
- `TagCodec` — the option-value encoding, the classification of one token,
  and the parse loop. The loop appears twice in the plugin, once in the
  save handler and once in the edit handler; it is modelled once and both
  handlers use it.
- `Taxonomy` — the two pieces of WordPress state the plugin touches:
  - `TermStore`, a class holding the term table as a map with an
    auto-increment counter, with `Exists` (`term_exists`) and `Insert`
    (`wp_insert_term`, which can fail). The map is keyed by a name's key:
    the name trimmed, with ASCII letters folded to lower case, because
    WordPress finds " bar" and "Bar" as the term "bar" and refuses to
    insert a blank name;
  - `CommentTerms`, a class holding the relationship table as a map from
    comment ID to a sequence of term IDs.
- `CommentTagger` — `sanitise_comment_terms`, the merge, the
  save/edit/delete decision, and the four handlers as methods over the two
  classes.
- `Display` — `front_end_tags`, `filter_ajax_get_comment`,
  `filter_ajax_edited_comment`, `set_comment_column`,
  `enable_comment_terms` and `parent_menu`.
- `TaggedArchive` — the loop that builds `$posts_with` and
  `$post_comment_counts`, and the loop that picks the comments shown under
  a post.

Modelling choices:

- **WordPress helpers as parameters.** The WordPress helpers whose
  behaviour lies outside the plugin are function-typed parameters:
  `sanitize_text_field`, `esc_attr`, `esc_html`, `__` and
  `get_term_link`.
- **Request data as parameters.** The request fields (`$_POST`, `$_GET`,
  `filter_input`) and the global `$pagenow` are parameters, and so are:
  - the nonce and capability checks, as booleans;
  - the terms `wp_get_object_terms` returns, as a sequence.
- **Failed inserts.** A blank name always fails `wp_insert_term`. Any other
  failure is modelled by a fixed set of name keys the store refuses.

## Model

| member | source | states |
|---|---|---|
| Php.StrStr | comment-tagger.php:510 | `strstr` finds a match exactly when the needle occurs, and the match starts with the needle; for a needle that is neither empty nor "0", `strstr` is truthy exactly when the needle occurs anywhere in the haystack (a substring test, not a prefix test) |
| Php.FirstOccurrence | comment-tagger.php:510 | the position `strstr` cuts at is an occurrence of the needle, and no earlier position is one |
| Php.ExplodeImplode | comment-tagger.php:513 | `explode` on a delimiter undoes `implode` of pieces that do not contain the delimiter |
| Php.ImplodeExplode | comment-tagger.php:513 | joining the pieces of `explode` with the delimiter gives back the string |
| Php.Saturate | comment-tagger.php:516 | a value read from a numeric string stays as it is within PHP's int range; beyond it, the string is read as a double, so the result is the nearest bound while a double holds the value, and 0 once the value overflows to infinity |
| Php.Intval | comment-tagger.php:516 | `intval` lies within PHP's integer range and is never negative for a string without '-' |
| Php.IntvalOfDigits | comment-tagger.php:516 | `intval` of a plain string of digits is the number it spells when that fits in PHP's range, `PHP_INT_MAX` when only a double holds it, and 0 when it overflows every double |
| Php.IntvalOfIntString | comment-tagger.php:516 | `intval` of the decimal form of a non-negative integer within PHP's range is that integer |
| Php.Unique | comment-tagger.php:538 | `array_unique` leaves no duplicates, keeps every element that occurs and adds none, and is no longer than its input |
| Php.UniqueFirstOccurrenceOrder | comment-tagger.php:538 | `array_unique` lists the elements in the order of their first occurrence |
| Php.UniqueSnoc | comment-tagger.php:538 | one more element at the end of `array_unique`'s input is appended to its result exactly when it is new |
| Php.UniquePrefix | comment-tagger.php:538 | `array_unique` of a concatenation starts with `array_unique` of its first part |
| Php.TrimStripped | comment-tagger.php:741 | `trim` cuts only trim characters (" \t\n\r\0\x0B") off either end of the string and leaves none at either end of its result; the result is blank exactly when the string holds only trim characters |
| Php.TrimIdempotent | comment-tagger.php:741 | trimming a trimmed string changes nothing |
| Php.TrimPadded | comment-tagger.php:741 | a leading trim character makes no difference to `trim` |
| Php.Put | comment-tagger.php:419 | assigning a key gives it the new value, leaves every other key alone, and appends the key only when it was absent |
| Php.Unset | comment-tagger.php:418 | `unset` removes the key, keeps every other entry, and keeps the order of the remaining keys |
| TagCodec.SegmentId | comment-tagger.php:513-516 | the ID read from the second '-'-separated piece is never negative, because that piece holds no '-' |
| TagCodec.Classify | comment-tagger.php:510-528 | a token is a new name (unchanged) exactly when it does not contain the prefix; a prefixed token is an existing ID when the second piece's `intval` is not 0 and is dropped otherwise; every existing ID is positive |
| TagCodec.ExistingIds | comment-tagger.php:507-530 | every collected existing ID is positive, and there are no more IDs than tokens |
| TagCodec.ParseTokens | comment-tagger.php:507-530 | the parse loop collects exactly the existing IDs and the new names of the tokens, each in token order |
| TagCodec.ParseAppend | comment-tagger.php:507-530 | the parse of a concatenation is the concatenation of the parses, so both lists keep input order |
| TagCodec.ParseSingle | comment-tagger.php:510-528 | a single prefixed token never becomes a new name; any other token becomes the one new name, unchanged |
| TagCodec.NewNamesMembers | comment-tagger.php:507-530 | a string is a collected new name exactly when it is a token without the prefix |
| TagCodec.ClassifyPrefixedDigits | comment-tagger.php:510-528 | a token `cmmnt_tggr-<digits>` is the existing ID the digits spell when it is a positive int; it is `PHP_INT_MAX` when the value only fits a double; it is dropped when the value is 0 or overflows every double |
| TagCodec.OptionValueRoundTrip | comment-tagger.php:510-521 | the picker's option value `cmmnt_tggr-<n>` for a positive ID n within PHP's range decodes back to n |
| TagCodec.ParseOptionValues | comment-tagger.php:507-530 | posting only picker option values yields exactly those IDs, in order, and no new names |
| Taxonomy.NameKeyTrimmed | comment-tagger.php:741 | a name's key is blank exactly when the trimmed name is, and has no trim character at either end |
| Taxonomy.NameKeyIdempotent | comment-tagger.php:741 | the key of a key is the key itself: names that WordPress treats as one term have one key |
| Taxonomy.NameKeyPadded | comment-tagger.php:741 | a name with a leading trim character has the same key as the name without it |
| Taxonomy.TermStore.Exists | comment-tagger.php:741 | `term_exists` finds a term exactly when the name is not blank and its key is in the table, and returns that term's positive ID |
| Taxonomy.TermStore.Insert | comment-tagger.php:760 | `wp_insert_term` fails for a blank name, and otherwise succeeds exactly when the name's key is new and not refused; it then stores the key with the next ID; a failure changes nothing; the table invariant is kept |
| Taxonomy.CommentTerms.SetTerms | comment-tagger.php:542 | `wp_set_object_terms` without append makes the comment's terms exactly the given IDs |
| Taxonomy.CommentTerms.DeleteAll | comment-tagger.php:796 | `wp_delete_object_term_relationships` removes the comment's entry and no other |
| CommentTagger.FindOrCreate | comment-tagger.php:738-774 | known keys keep their IDs; exactly the keys of the names that are not blank and not refused end up in the table, the new ones with fresh IDs from the counter upwards; there are no more IDs than names |
| CommentTagger.FindOrCreateKeepsInv | comment-tagger.php:738-774 | find or create keeps the term table's invariant (positive, distinct IDs below the counter), and every returned ID is a term's ID |
| CommentTagger.FindOrCreateLooksUp | comment-tagger.php:738-774 | each name yields the ID its key has in the resulting table; a blank name or a refused new key yields nothing |
| CommentTagger.FindOrCreateKnown | comment-tagger.php:738-774 | when every name is blank or its key already exists or is refused, nothing is inserted and each known key yields its existing ID |
| CommentTagger.FindOrCreateIdempotent | comment-tagger.php:738-774 | a second run on the same names creates nothing and yields the same IDs |
| CommentTagger.FindOrCreateKeysOnly | comment-tagger.php:738-774 | names with the same keys resolve alike, so padding and letter case do not create new terms |
| CommentTagger.BlankNamesCreateNothing | comment-tagger.php:738-774 | blank names yield no IDs and leave the table as it was |
| CommentTagger.MetaBoxSpacing | comment-tagger.php:1155 | the names that come back from the meta box's ", "-joined text area with a space in front resolve exactly as the names without it |
| CommentTagger.EmptyNewTag | comment-tagger.php:606-609 | the meta box's `newtag` field, posted empty, resolves to no ID and creates nothing |
| CommentTagger.Sanitised | comment-tagger.php:719-785 | the result of `sanitise_comment_terms` has no duplicates, is no longer than the input names, holds only positive IDs, and keeps the table invariant |
| CommentTagger.SanitiseCommentTerms | comment-tagger.php:719-785 | the method's loop over `term_exists`/`wp_insert_term`, followed by `array_unique`, produces exactly the IDs and the new table that `Sanitised` describes, for a list or a comma-separated string |
| CommentTagger.SanitisedIdempotent | comment-tagger.php:719-785 | calling `sanitise_comment_terms` twice with the same input creates nothing new the second time and returns the same IDs |
| CommentTagger.Merge | comment-tagger.php:538 | the merged IDs have no duplicates; each comes from one of the two lists; every input ID appears; the existing IDs come first; the order is first occurrence |
| CommentTagger.SaveAction | comment-tagger.php:541-543 | the save handler overwrites with the resolved IDs when there are some, and otherwise keeps the comment's tags; it never clears them |
| CommentTagger.EditAction | comment-tagger.php:615-620 | the edit handlers overwrite with the resolved IDs when there are some, and otherwise clear the comment's tags; they never keep old tags |
| CommentTagger.Apply | comment-tagger.php:541-543 | an action touches only the given comment; keep leaves its terms, clear empties them, overwrite makes them exactly the new IDs |
| CommentTagger.TokenResolution | comment-tagger.php:504-538 | the resolved IDs have no duplicates, contain every decoded existing ID, are positive, and the table invariant is kept |
| CommentTagger.ResolveTokens | comment-tagger.php:504-538 | the parse, find-or-create (only when there are new names) and merge steps produce exactly `TokenResolution`'s IDs and table |
| CommentTagger.PickerValuesResolve | comment-tagger.php:507-538 | posting back the picker's own option values creates no term and yields exactly those IDs, each once |
| CommentTagger.TokenResolutionIdempotent | comment-tagger.php:504-538 | submitting the same tokens a second time creates nothing and yields the same IDs |
| CommentTagger.DroppedTokens | comment-tagger.php:507-543 | tokens that are all dropped resolve to no IDs and create nothing; the save handler then keeps the tags, the edit handler clears them |
| CommentTagger.InterceptCommentSave | comment-tagger.php:475-545 | without a non-empty array of tags nothing changes; otherwise the table changes as the resolution says, and the comment's terms are overwritten when some ID resolved and left alone otherwise |
| CommentTagger.UpdateResolution | comment-tagger.php:598-612 | the IDs from `tax_input` and `newtag` merge without duplicates, all positive, and the table invariant is kept |
| CommentTagger.UpdateCommentTerms | comment-tagger.php:580-622 | without the nonce or the capability nothing changes; otherwise the comment's terms are overwritten with the merged IDs, or cleared when there are none |
| CommentTagger.EditCommentTerms | comment-tagger.php:631-709 | without the nonce or the capability nothing changes; otherwise the posted tokens are resolved and the comment's terms are overwritten, or cleared when nothing resolved |
| CommentTagger.DeleteCommentTerms | comment-tagger.php:794-799 | the comment loses all its terms and no other comment changes |
| Display.FrontEndTags | comment-tagger.php:810-858 | without a comment ID the text is unchanged; otherwise the tag block is put before it, so the text is a suffix of the result; with no terms the block is exactly the placeholder div |
| Display.TagOptions | comment-tagger.php:1030-1036 | there is one tag entry per term |
| Display.TagOptionsDecode | comment-tagger.php:1033 | each AJAX tag entry carries its term's name and an ID that the parse loop decodes back to that term |
| Display.FilterAjaxGetComment | comment-tagger.php:1014-1044 | without an `id`, or for a comment with no terms, the data is unchanged; otherwise only `comment_tagger_tags` is set, to one entry per term in order |
| Display.FilterAjaxEditedComment | comment-tagger.php:1054-1076 | without an `id` the data is unchanged; otherwise only `comment_tagger_tags` (when there are terms) and `comment_tagger_markup` change, and the markup is the comment's tag block |
| Display.SetCommentColumn | comment-tagger.php:415-424 | the "posts" column is gone; "comments" holds the translated label; every other column is unchanged; key order is kept, with "comments" appended when it was new |
| Display.EnableCommentTerms | comment-tagger.php:558-571 | assigning comment tags needs only "exist"; every other capability query is left unchanged |
| Display.ParentMenu | comment-tagger.php:393-405 | on edit-tags.php for the comment_tags taxonomy the parent becomes edit-comments.php; anywhere else it is unchanged |
| TaggedArchive.PostIds | comment-tagger.php:1245 | one post ID per comment, in comment order |
| TaggedArchive.CommentsOn | comment-tagger.php:1321-1326 | a post's comment list holds exactly that post's comments, and as many as the post's count |
| TaggedArchive.PostsWithUnique | comment-tagger.php:1242-1247 | the list of posts the loop builds, adding a post only when `in_array` misses it, is `array_unique` of the comments' post IDs |
| TaggedArchive.GroupByPost | comment-tagger.php:1240-1256 | `$posts_with` is the distinct post IDs in first-appearance order; the count keys are exactly those posts; each count is the number of comments on that post |
| TaggedArchive.CommentsToShow | comment-tagger.php:1321-1326 | the comments shown under a post are exactly its comments, in their original order |
| TaggedArchive.TotalCovers | comment-tagger.php:1250-1254 | over distinct posts that cover every comment, the per-post counts add up to the number of comments |
| TaggedArchive.CountsAddUp | comment-tagger.php:1240-1256 | the per-post counts of the archive page add up to the number of tagged comments |

## Left out

- Hook registration and the CommentPress version switch: plugin-API plumbing with no logic of its own.
- Taxonomy registration, translation loading, the admin menu and asset enqueueing: framework configuration only.
- `update_tag_count` and `refresh_tag_count`: raw SQL through `$wpdb` and WordPress's count APIs.
- `set_comment_column_values`, the meta box and its HTML, and the HTML assembled around `WP_Query`, `WP_Comment_Query`, `wp_list_comments` and `commentpress_format_comment`: foreign query and render calls. Only the grouping arithmetic of the archive page is modelled; the CommentPress twin of that loop is the same code.
- `comment_tagger_get_tagged_comments`: a database query. The tagged comments are a parameter.
- The picker's default option markup: only its option-value encoding is modelled.
- uninstall.php (direct SQL deletes), the Select2/jQuery script and the theme template are not part of this model.
- Request and environment access: `$_POST`, `$_GET`, `filter_input`, `$pagenow`, the nonce check and `current_user_can` are parameters.
- `wp_unslash` on the meta-box fields is taken as already applied.
- Database side effects: `clean_object_term_cache` has no effect in the model.
- Term order: the order in which `wp_get_object_terms` returns a comment's terms is whatever the `terms` parameter holds.
- Taxonomy.TermStore.Exists: names are matched by their trimmed, ASCII-lower-cased form. WordPress also matches by slug (`sanitize_title`, under which "foo bar" and "foo-bar" are one term) and by the database's accent-insensitive collation. Those matches are not modelled, nor is `term_exists` answering 0 for a non-blank name whose slug is empty.
- Taxonomy.TermStore.Insert: apart from a blank name, the causes of a `WP_Error` (a database failure, a slug clash) are not modelled; a fixed set of refused keys stands for them.
- Taxonomy.CommentTerms.SetTerms: it stores the given IDs as they are; WordPress's silent skipping of integer IDs that name no term is not modelled.
- Php.Intval: a fractional part is read through a double, and its rounding can carry into the integer part ("0.99999999999999999" reads as 1, "9007199254740993.5" as 9007199254740994); the model ignores everything after the digits. Exponent notation (`"1e3"` reads as 1000 in recent PHP) and non-ASCII whitespace are not modelled either. Every token the picker emits is plain decimal.
- CommentTagger.Sanitised: `array_map('intval')` on the IDs is the identity, because the store's IDs are already integers.
- TaggedArchive.GroupByPost: post IDs are integers, so PHP's loose comparison in `in_array` is plain equality.
- Non-string elements in the posted arrays, and nested arrays, are not modelled. `filter_input`'s array filtering is taken to yield strings.
- The doc comment of `front_end_tags` (comment-tagger.php:802) says the tags are appended to the comment text, but the code (comment-tagger.php:853) puts them before it; the model follows the code.
