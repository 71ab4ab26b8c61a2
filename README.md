# Opinionated posts pagination of the UCF WordPress theme, in Dafny

This project models the theme's posts-pagination assembler,
`ucfwp_get_the_posts_pagination`, and the navigation wrapper template it fills
in, `ucfwp_pagination_wrapper_markup`. It also models the small slug helper
`ucfwp_get_template_part_slug`.

The assembler works in five steps:

1. It merges the caller's options over the theme's defaults, then forces
   `prev_next = false` and `type = 'array'` for the host's `paginate_links`.
2. It returns `''` when that yields no links.
3. It splices a previous anchor in at index 2, but only when index 1 holds an
   ellipsis. It splices a next anchor in at index `count-2`, but only when that
   index holds an ellipsis. `count` is measured after the first splice.
4. It formats the fragments as a `<ul>` list or as a newline join.
5. It substitutes class, label and body into the three slots of the wrapper
   template.

The same two functions appear twice in the theme: in
`includes/pagination-functions.php` and, word for word, in
`includes/utilities.php`. Line N of the first copy is line N+83 of the second.
The model has one definition for both copies, and the table below cites each
copy in places.

Modules:

- `PhpRuntime` (`php_runtime.dfy`) models the PHP behaviour the code relies on:
  - loose values and their truthiness, where `""` and `"0"` are falsy;
  - conversion of a value to a string;
  - `strpos` with its result meaning "first occurrence";
  - `join`;
  - `array_splice` used to insert one element, including negative offsets;
  - `sprintf` over a template already split into literal pieces and the slots
    `%1$s`, `%2$s` and `%3$s`.
- `PostsPagination` (`posts_pagination.dfy`) holds the option merge, ellipsis
  detection, the two splice steps (a method together with the functions that
  specify it), formatting, the wrapper template and the assembler method.
- `TemplateParts` (`template_parts.dfy`) holds the slug helper.

The host calls become inputs:

- `paginate_links` is an arrow parameter applied to the merged options. Its
  result is an `Option<seq<string>>`, where `None` stands for its "nothing"
  result.
- `previous_posts(false)` and `next_posts(0, false)` are `Option<string>`
  values, read with PHP truthiness.
- The filter on `navigation_markup_template` is the wrapper function itself,
  which is the only listener registered in the modelled files.
- `UCFWP_THEME_TEMPLATE_PARTS_PATH` is a parameter. It is defined outside
  the modelled files.

## Behaviour worth knowing

- An unset or null `prev_next` means previous/next links are wanted: the code
  stores `true` before it forces `false` for `paginate_links`
  (`includes/pagination-functions.php:68`).
- Type `'array'` does not hand the fragment list back. It falls through to the
  newline join, like every type other than `'list'`
  (`includes/pagination-functions.php:114-117`).
- The only empty result is the early exit for missing links; a non-empty list
  always yields the `<nav>` wrapper (`includes/pagination-functions.php:76`).
- An ellipsis is whatever `strpos` finds the marker in at a non-zero index. A
  fragment that begins with the marker is not one, and a previous anchor whose
  URL or text contains the marker is one when the next-link check looks at it.
- The slug helper appends a falsy subpath without a slash: `'0'` gives the path
  followed by `0`, and only `''` gives the bare path
  (`includes/utilities.php:291-294`).

## Model

| member | source | states |
|---|---|---|
| `PhpRuntime.StrPos` | includes/pagination-functions.php:84 | `strpos` gives the index of the first occurrence of the needle, or nothing when it does not occur anywhere |
| `PhpRuntime.ArraySplice` | includes/pagination-functions.php:101 | inserting with `array_splice(…, offset, 0, x)` puts `x` at the clamped position, where a negative offset counts from the end; the elements before it are kept, the elements after it shift by one, and the length grows by one |
| `PhpRuntime.JoinAt` | includes/pagination-functions.php:116 | each part stands verbatim in the joined string, with a separator only towards neighbours |
| `PhpRuntime.ToStr` | includes/pagination-functions.php:87 | string conversion keeps strings as they are, writes an integer in decimal (`"0"` for zero; otherwise digits whose value is the integer, with no leading zero, and a leading `-` when negative), turns `true` into `"1"`, and gives `""` only for null, `false` and `""` |
| `PhpRuntime.NatDigits` | includes/pagination-functions.php:123 | the decimal notation of a natural number is a non-empty digit string whose value, read back independently, is that number, with no leading zero unless the number is 0 |
| `PhpRuntime.Truthy` | includes/pagination-functions.php:79 | PHP truthiness of a value agrees with the truthiness of its string form (`""` and `"0"` falsy) |
| `PhpRuntime.Join` | includes/pagination-functions.php:111 | `join` of one part is that part, and the joined length is the parts' total length plus one separator between each pair of neighbours |
| `PhpRuntime.Sprintf` | includes/pagination-functions.php:123 | a template with no slots renders as its literal text, whatever the arguments |
| `PostsPagination.PrevNextPreference` | includes/pagination-functions.php:68 | an unset or null `prev_next` means true; a set one is read with PHP truthiness |
| `PostsPagination.TypePreference` | includes/pagination-functions.php:69 | an unset or null `type` means `'plain'`; a set one is taken as given |
| `PostsPagination.IsEllipsis` | includes/pagination-functions.php:97 | a fragment taken for an ellipsis is strictly longer than the dots marker, since the marker has to start after index 0 |
| `PostsPagination.PrevLink` | includes/pagination-functions.php:87 | the previous anchor opens with `<a class="page-numbers prev" href="`, carries the URL verbatim, then `">`, then the text verbatim, and closes with `</a>` |
| `PostsPagination.NextLink` | includes/pagination-functions.php:100 | the next anchor opens with `<a class="page-numbers next" href="`, carries the URL verbatim, then `">`, then the text verbatim, and closes with `</a>` |
| `PostsPagination.SelectsList` | includes/pagination-functions.php:108-109 | PHP 8 loose `== 'list'`: a string selects the list exactly when it is `'list'`; `true` selects it; integers, `false` and null never do |
| `PostsPagination.FormatLinks` | includes/pagination-functions.php:105-118 | type `'list'` (or `true`) opens with `<ul class='page-numbers'>\n\t<li>` and closes with `</li>\n</ul>\n`; every other type is the newline join |
| `PostsPagination.PaginateArgs` | includes/pagination-functions.php:53-73 | `paginate_links` always receives `prev_next = false` and `type = 'array'`; each default key (`mid_size = 1`, `prev_text`, `next_text`, `screen_reader_text`) takes the caller's value when given and the default otherwise; every other caller key passes through |
| `PostsPagination.OptionDefaults` | includes/pagination-functions.php:53-65 | a given `prev_text`, `next_text` or `screen_reader_text` is used as converted to a string; an absent `prev_text`, `next_text` or `screen_reader_text` falls back to the theme default |
| `PostsPagination.MergedOptions` | includes/utilities.php:148-155 | what the assembler reads back after each `array_merge` (the stored `prev_next` and `type`, then the texts and the options passed on) equals the per-key preferences and `PaginateArgs` |
| `PostsPagination.IsEllipsisMeans` | includes/pagination-functions.php:84 | a fragment is an ellipsis exactly when the dots marker occurs in it and does not occur at index 0 |
| `PostsPagination.WordPressDotsIsEllipsis` | includes/utilities.php:167 | WordPress's `<span class="page-numbers dots">&hellip;</span>` fragment counts as an ellipsis |
| `PostsPagination.MarkerAtStartIsNotEllipsis` | includes/pagination-functions.php:97 | a fragment that begins with the marker is not an ellipsis, because `strpos` returns 0 |
| `PostsPagination.PrevStep` | includes/pagination-functions.php:82-89 | when `links[1]` is an ellipsis and the previous URL is truthy, the previous anchor (URL and prev text) sits at index 2, indices 0..1 are unchanged, every later element shifts right by one and the length grows by one; otherwise nothing changes |
| `PostsPagination.NextStep` | includes/pagination-functions.php:94-101 | when `links[count-2]` is an ellipsis and the next URL is truthy, the next anchor sits at index `count-2`, with the ellipsis and the last link right after it and everything before unchanged; otherwise nothing changes |
| `PostsPagination.Spliced` | includes/pagination-functions.php:79-103 | with `prev_next` off the fragments are unchanged; in every case the length grows by 0, 1 or 2 |
| `PostsPagination.SplicePrevNext` | includes/utilities.php:162-186 | the two in-place `array_splice` calls (offsets 2 and -2), where the second guard is computed on the list the first one left, equal the two steps composed |
| `PostsPagination.SubsequenceInsert` | includes/pagination-functions.php:88 | inserting one element keeps every sequence that was a subsequence a subsequence |
| `PostsPagination.SplicedKeepsOrder` | includes/pagination-functions.php:79-103 | splicing never removes or reorders the original fragments: they remain a subsequence of the result |
| `PostsPagination.SplicedAroundBothEllipses` | includes/pagination-functions.php:80-101 | for `[first, leftDots] + middle + [rightDots, last]` with both URLs, the result is `[first, leftDots, prev] + middle + [next, rightDots, last]` |
| `PostsPagination.SplicedOmitsUnanchored` | includes/utilities.php:165-185 | with no ellipsis at index 1 or at `count-2`, no previous or next link is added even when `prev_next` is on |
| `PostsPagination.ListItems` | includes/pagination-functions.php:110-112 | wraps each fragment, in order, in its own `<li>…</li>` |
| `PostsPagination.JoinedListItems` | includes/utilities.php:193-195 | `<li>` + the join with `</li>\n\t<li>` + `</li>` equals the list items joined with `\n\t` |
| `PostsPagination.ListFormatIsItems` | includes/pagination-functions.php:108-113 | type `'list'` gives `<ul class='page-numbers'>\n\t`, one `<li>` per fragment separated by `\n\t`, then `\n</ul>\n` |
| `PostsPagination.PlainFormatAt` | includes/pagination-functions.php:114-117 | every other type, including `'array'` and `'plain'`, is the newline join, and each fragment appears in it verbatim |
| `PostsPagination.WrapperMarkup` | includes/pagination-functions.php:18-33 | the template has a class slot exactly when the class is not `'pagination'`, and always has a label slot and a body slot |
| `PostsPagination.WrapperTemplateText` | includes/pagination-functions.php:26-32 | rendered with its own placeholders, the template is the output-buffered markup of the source byte for byte: `\t<nav class="loop-navigation ` + (`posts-pagination` for class `'pagination'`, else `%1$s`) + `" role="navigation" aria-label="%2$s">\n        <div class="nav-links">%3$s</div>\n    </nav>\n` |
| `PostsPagination.SingleLinkMarkup` | includes/utilities.php:204-206 | with default options and one fragment, the result is the `<nav>` wrapper with class `posts-pagination`, label `Posts navigation` and that fragment alone as body |
| `PostsPagination.WrapperIgnoresTemplate` | includes/utilities.php:101-116 | the incoming `$template` argument has no effect on the template returned |
| `PhpRuntime.SprintfAppend` | includes/pagination-functions.php:123 | substitution distributes over concatenation of templates |
| `PostsPagination.SprintfOfSeven` | includes/utilities.php:206 | a seven-piece template renders piece by piece |
| `PostsPagination.WrapperSubstitution` | includes/pagination-functions.php:121-123 | substitution puts the class (the literal `posts-pagination` for class `'pagination'`, otherwise argument 1), the label and the body into their positions verbatim |
| `PostsPagination.GetThePostsPagination` | includes/pagination-functions.php:51-126 | the result is `''` exactly when `paginate_links`, given the merged options, yields nothing or an empty list; otherwise it is the `<nav>` markup with class `posts-pagination`, the screen-reader text, and the fragments spliced under the caller's `prev_next` preference and formatted under the caller's type |
| `TemplateParts.TemplatePartSlug` | includes/utilities.php:290-295 | the slug starts with the template-parts path; it is the bare path exactly when the subpath is `''`; `'0'` is appended with no slash; a truthy subpath follows a `/` |
| `TemplateParts.SlugRoundTrip` | includes/utilities.php:291-294 | every subpath comes back out of its slug: what follows the path, less a leading `/` |
| `TemplateParts.SlugInjective` | includes/utilities.php:290-295 | distinct subpaths give distinct slugs |

## Left out

- TemplatePartSlug: the source declares `ucfwp_get_template_part_slug` only when no function of that name exists yet, so a child theme may replace it; the model covers only this theme's definition.
- `ucfwp_the_posts_pagination`: it only echoes the string `GetThePostsPagination` returns.
- `paginate_links`, `previous_posts` and `next_posts`: these are host range-generation and URL lookups. They are inputs here and are not reimplemented.
- `__()`: translating the default screen-reader text is taken as the identity.
- `add_filter` and `apply_filters`: other listeners on `navigation_markup_template` are not modelled. The wrapper function is called directly.
- Templates from a different listener may need `sprintf` conversions other than `%1$s`, `%2$s` and `%3$s`. Those conversions are not modelled, and neither is the error PHP raises for a missing argument.
- The `<nav>` markup is kept as literal pieces, with the whitespace of the source.
- PHP values other than strings, integers, booleans and null (floats, arrays, objects) are not modelled as option values.
- StrPos: PHP's `strpos` counts bytes and the model counts characters. The assembler uses only "found at a position greater than 0", which is the same in both.
- PaginateArgs: `array_merge` renumbers integer and numeric-string keys, while the map union here keeps them. "Every other caller key passes through" holds only for non-numeric keys.
- `SelectsList`: `switch` compares the type with `'list'` using PHP 8 loose comparison. Only strings, booleans and integers are modelled: `true` selects the list and integers never do.
- In PHP, a file that declares a function already declared by another included file fails. Here both copies are one definition. The model ignores how `functions.php` includes both files.
- Everything else in `includes/utilities.php` is not modelled:
  - `ucfwp_fetch_json`, which does HTTP and JSON decoding;
  - `ucfwp_get_attachment_src_by_size` and the theme-mod functions, which wrap WordPress calls and `unserialize`;
  - `ucfwp_is_content_empty`, which depends on the HTML semantics of `strip_tags`;
  - `_ucfwp_get_template_part` and `ucfwp_get_queried_object`, which dispatch to functions outside this model and cache state in the global `$wp_query`.
