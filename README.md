# Breadcrumbs, modelled in Dafny

A model of a small PHP breadcrumb-trail builder and the proofs about it. A
trail (`Breadcrumbs`) holds an ordered list of breadcrumbs and four templates:

- the wrapper around the whole trail;
- the template for a linked breadcrumb;
- the template for the active (unlinked) breadcrumb;
- the separator.

A breadcrumb (`Breadcrumb`) holds a PHP array of named variables, always
including `text` and `link`. The trail can:

- append, insert, delete and replace breadcrumbs;
- build breadcrumbs from a path such as `/shoes/mens/casual/vans/`;
- render itself into one string.

Both PHP classes change their state in place, so both are Dafny classes:

- `Crumb.Breadcrumb` has the field `vars`.
- `Trail.Breadcrumbs` has the fields `items` and the four template strings.

Each method states the new state in terms of the old one. The PHP built-ins
the code relies on are pure functions with their own proved properties:

- `strpos`, `trim`, `explode`, `implode` and `str_replace` are in `PhpStrings`.
- `isset`, the array union `+`, `array_splice` and truthiness are in `PhpArrays`.
- The `preg_replace_callback` scan `~\{(.*?)\}~` is in `Placeholders`.

Modelling choices:

- Variable values are `Option<string>`: `None` is PHP's `null`. A breadcrumb's text is a string.
- `getBreadcrumbCount`, `getBreadcrumbs` and `getVars` are the plain reads `Count`, `GetBreadcrumbs` and `GetVars`. The method contracts are stated through them and through the fields.
- The callback that `addBreadcrumbsFromUrl` runs on each path piece is a parameter `textOf: string -> string`.
- The loop of `addBreadcrumbsFromUrl` is its own method, `AddBreadcrumbsFromParts`, over any list of pieces. `AddBreadcrumbsFromUrl` splits the path and calls it.
- A template setter whose value lacks a required token returns `false` and keeps the old template. In PHP, `trigger_error(…, E_USER_ERROR)` ends the script before the assignment under the default error handler.
- The object invariant `Valid()` says every template holds its required tokens. The constructor establishes it and every setter keeps it.
- Rendering an empty trail gives `None`. The fragment array is then never created, and PHP 8 rejects `implode` on it with a TypeError.

Where a doc comment and the code disagree, the model follows the code:

- `setVars` (src/Breadcrumbs/Breadcrumb.php:49) says it "merges over". The code is `+=`, under which existing keys keep their values, and that is what `SetVars` does.
- `setBreadcrumbHtml` (src/Breadcrumbs.php:91) says `{breadcrumb}` is required. The code requires `{text}` and `{link}`.
- `insertBreadcrumb` (src/Breadcrumbs.php:244) says it returns a Breadcrumb. It returns `true`.

A quirk of the code that the model keeps: `setBreadcrumbHtml` only checks that `{text}` and `{link}` occur (src/Breadcrumbs.php:98). The template `{{link}{text}` passes, but the lazy scan at src/Breadcrumbs.php:298 starts at the first `{` and captures the name `{link`, so the link is never substituted (`LinkSwallowed`).

## Model

| member | source | states |
|---|---|---|
| PhpStrings.StrPos | src/Breadcrumbs.php:149 | `strpos` finds the needle exactly when it occurs, and reports its first occurrence |
| PhpStrings.Trim | src/Breadcrumbs.php:211 | `trim($url, '/')` never lengthens the path, and a path without `/` is kept as it is |
| PhpStrings.TrimLeftSpec | src/Breadcrumbs.php:211 | the leading cut of `trim` keeps a suffix that does not start with `/` and removes only `/` characters |
| PhpStrings.TrimRightSpec | src/Breadcrumbs.php:211 | the trailing cut of `trim` keeps a prefix that does not end with `/` and removes only `/` characters |
| PhpStrings.TrimEnds | src/Breadcrumbs.php:211 | what `trim($url, '/')` keeps neither starts nor ends with `/` |
| PhpStrings.TrimSpan | src/Breadcrumbs.php:211 | what `trim($url, '/')` keeps is a contiguous part of the path, and everything cut off on either side of it is `/` |
| PhpStrings.TrimAround | src/Breadcrumbs.php:211 | trimming a string wrapped in one slash on each side, and not itself starting or ending with one, gives it back |
| PhpStrings.Implode | src/Breadcrumbs.php:311 | `implode` puts the delimiter between neighbouring parts, so with two or more parts the delimiter occurs in the result |
| PhpStrings.Explode | src/Breadcrumbs.php:211 | `explode` never returns an empty array, and imploding its pieces with the delimiter rebuilds the input |
| PhpStrings.ExplodePiecesFree | src/Breadcrumbs.php:211 | no piece of `explode` contains the delimiter |
| PhpStrings.ExplodeImplode | src/Breadcrumbs.php:211 | for a one-character delimiter, exploding the implosion of delimiter-free parts gives the parts back |
| PhpStrings.StrReplace | src/Breadcrumbs.php:307-311 | `str_replace` with an empty search string returns the subject unchanged, and a replacement as long as the search string keeps the subject's length |
| PhpStrings.StrReplaceIsImplodeExplode | src/Breadcrumbs.php:307 | `str_replace($s, $r, $x)` equals `implode($r, explode($s, $x))` |
| PhpStrings.StrReplaceAbsent | src/Breadcrumbs.php:307 | a subject without the search string comes back unchanged |
| PhpStrings.StrReplaceInserts | src/Breadcrumbs.php:307-311 | where the search string occurs in the subject, the replacement occurs in the result of `str_replace` |
| PhpStrings.StrReplaceOnce | src/Breadcrumbs.php:311 | a token placed once, with none of its first character around it, becomes the replacement text and nothing else changes |
| PhpArrays.Get | src/Breadcrumbs/Breadcrumb.php:21 | the `isset` read: `null` exactly when the key is absent or holds `null`, otherwise the stored value |
| PhpArrays.Union | src/Breadcrumbs/Breadcrumb.php:56 | `$a + $b` has the keys of both arrays; the values of `$a` win, and keys only in `$b` bring their values |
| PhpArrays.UnionIdempotent | src/Breadcrumbs/Breadcrumb.php:56 | adding the same array twice gives the same array as adding it once |
| PhpArrays.UnionEmpty | src/Breadcrumbs/Breadcrumb.php:56 | adding an empty array changes nothing |
| PhpArrays.UnionEmptyLeft | src/Breadcrumbs/Breadcrumb.php:72 | adding an array to the empty array gives that array, which is what the constructor's `setVars` does |
| PhpArrays.Truthy | src/Breadcrumbs.php:295 | the `if ($breadcrumb->getVar('link'))` test: `null`, `""` and `"0"` are false; by length, every string of two or more characters is true and a one-character string is true unless it is `0` |
| PhpArrays.SpliceOffset | src/Breadcrumbs.php:270 | `array_splice` keeps offsets in `0..n`, clamps larger ones to `n`, counts negative ones from the end and clamps them at `0` |
| PhpArrays.Splice | src/Breadcrumbs.php:251-258 | `array_splice` removes at most `length` elements, and the list's new length is the old one minus the removed elements plus the replacement |
| PhpArrays.SpliceConserves | src/Breadcrumbs.php:251-258 | nothing is lost or invented: the kept plus removed elements are the old ones plus the replacement, as multisets |
| PhpArrays.SpliceInsert | src/Breadcrumbs.php:251-258 | splicing out nothing at `0 <= p <= n` gives `s[..p] + [x] + s[p..]` and removes nothing |
| PhpArrays.SpliceRemoveAt | src/Breadcrumbs.php:270 | one element out at an index of the list removes and returns exactly that element and puts the replacement in its place, the others kept in order |
| PhpArrays.SplicePastEnd | src/Breadcrumbs.php:284 | at or past the end nothing is removed and the replacement is appended |
| PhpArrays.SpliceOne | src/Breadcrumbs.php:284 | replacing one element in place: the new element lands at the normalised offset and the result is `array_splice(…, p, 1, [x])`; at an index the old element is returned and the others keep their places, at or past the end `x` is appended and nothing is returned |
| PhpArrays.SpliceFromEnd | src/Breadcrumbs.php:270 | a negative offset down to `-n` acts on the element that far from the end |
| Placeholders.NameLengthSpec | src/Breadcrumbs.php:298 | after a `{`, the non-greedy name ends at the first `}` when no `}` or newline comes before it; there is no match exactly when every `}` lies beyond a newline |
| Placeholders.Tokenize | src/Breadcrumbs.php:298 | the `~\{(.*?)\}~` scan yields at most one piece per character; its meaning is stated by `TokenizeRoundTrip`, `TokenNames` and `TokenizeLeftmost` |
| Placeholders.TokenizeRoundTrip | src/Breadcrumbs.php:297-303 | scanning a template into literal characters and `{name}` matches loses nothing: the pieces spell the template |
| Placeholders.TokenNames | src/Breadcrumbs.php:298 | no matched name holds `}` or a newline |
| Placeholders.TokenizeLeftmost | src/Breadcrumbs.php:298 | a `{` stays literal only when no `}` can be reached after it without crossing a newline |
| Placeholders.Resolve | src/Breadcrumbs.php:299-301 | the callback changes a piece only when it is a token whose variable is set (`isset`); otherwise it returns the match `$m[0]` as written (see `FillToken`) |
| Placeholders.Fill | src/Breadcrumbs.php:297-303 | the `preg_replace_callback` fill: with no variable set (each absent or `null`), the template comes back as it was (filled templates are `FillTemplate`) |
| Placeholders.ExpandUnset | src/Breadcrumbs.php:300 | when no matched name is set, expanding the pieces gives back the text they were scanned from |
| Placeholders.FillUnset | src/Breadcrumbs.php:297-303 | tokens naming unset or `null` variables are left verbatim; with none set the template is unchanged |
| Placeholders.FillLiteral | src/Breadcrumbs.php:297-303 | text without `{` is copied through unchanged |
| Placeholders.FillToken | src/Breadcrumbs.php:300 | a well-formed `{name}` is replaced by the variable's value when it is set, and kept otherwise |
| Placeholders.FillPlain | src/Breadcrumbs.php:297-303 | a template without `{` comes back unchanged |
| Placeholders.FillTwoTokens | src/Breadcrumbs.php:297-303 | literal text around two well-formed tokens: the text is kept and each token resolved against the variables |
| Placeholders.FillTemplate | src/Breadcrumbs.php:297-303 | for any template whose every `{` opens a well-formed `{name}` (literal text around any number of tokens, in any order), the literal text is kept and each token is resolved against the variables |
| Placeholders.FillTokenAfter | src/Breadcrumbs.php:300 | literal text followed by a well-formed `{name}`: the text is kept and the token resolved |
| Crumb.InitialVarsSpec | src/Breadcrumbs/Breadcrumb.php:66-73 | a new breadcrumb's `text` and `link` are the constructor's arguments even when the extra array names them; other extra keys keep their values; no other key appears |
| Crumb.InitialVars | src/Breadcrumbs/Breadcrumb.php:67-71 | the array a new breadcrumb starts with holds `text` and `link` set to the arguments (the full key set is `InitialVarsSpec`) |
| Crumb.Breadcrumb.constructor | src/Breadcrumbs/Breadcrumb.php:66-73 | after construction `getVar('text')` is the text and `getVar('link')` is the link; the array is `InitialVars`, the one `InitialVarsSpec` describes |
| Crumb.Breadcrumb.GetVar | src/Breadcrumbs/Breadcrumb.php:20-22 | `null` when the key is absent or holds `null`, otherwise the stored value |
| Crumb.Breadcrumb.GetVars | src/Breadcrumbs/Breadcrumb.php:30-32 | the returned array is the one `getVar` reads from |
| Crumb.Breadcrumb.SetVar | src/Breadcrumbs/Breadcrumb.php:42-44 | afterwards `getVar(k)` is the new value and every other key reads as before |
| Crumb.Breadcrumb.SetVars | src/Breadcrumbs/Breadcrumb.php:55-57 | existing keys keep their values, keys only in the argument are added, no key is removed |
| Trail.Fragment | src/Breadcrumbs.php:294-309 | one breadcrumb's fragment, chosen by the truthiness of `link`: an unlinked breadcrumb's text (`null` as empty) appears in the fragment whenever the active template holds `{breadcrumb}`, as every valid one does; a linked breadcrumb with an item template that holds no `{` gets that template as it stands, and an unlinked one with an active template lacking `{breadcrumb}` gets the active template as it stands (the filled item template is `LinkedFragment`) |
| Trail.Render | src/Breadcrumbs.php:293-311 | the whole trail: there is output exactly when the trail is non-empty; the fragments joined with the separator appear in the output whenever the wrapper holds `{breadcrumbs}`, as every valid one does, and a wrapper without it is output as it stands (the exact text for a one-token wrapper is `RenderWrapped`) |
| Trail.RenderWrapped | src/Breadcrumbs.php:311 | a wrapper holding `{breadcrumbs}` once, with no other `{`, renders as its text with the separator-joined fragments in the token's place |
| Trail.RenderDefault | src/Breadcrumbs.php:24 | with the default wrapper, whatever the other templates, a non-empty trail renders as the joined fragments inside `<p class="breadcrumbs">…</p>` |
| Trail.LinkedFragment | src/Breadcrumbs.php:295-304 | a linked breadcrumb renders through the item template: for any item template whose every `{` opens a well-formed `{name}` (`{text} ({link})`, or one with a third token such as `{title}`), the literal text is kept and each token becomes the breadcrumb's variable of that name, an unset or `null` one staying as written |
| Trail.DefaultLinkedFragment | src/Breadcrumbs.php:37 | with the default item template, whatever the other templates, a linked breadcrumb renders as an anchor to its link around its text |
| Trail.DefaultActiveFragment | src/Breadcrumbs.php:306-308 | with the default active template, whatever the other templates, an unlinked breadcrumb renders its text (`null` as empty) in the active span |
| Trail.LinkSwallowed | src/Breadcrumbs.php:298 | the item template `{{link}{text}` passes the check at :98, but the scan captures the name `{link`, so a linked breadcrumb renders `{{link}` followed by its text and its link never appears in place of the token |
| Trail.UrlPartsFree | src/Breadcrumbs.php:211 | a path always splits into at least one piece, and no piece contains `/` |
| Trail.UrlParts | src/Breadcrumbs.php:211 | a path always splits into at least one piece |
| Trail.UrlPrefix | src/Breadcrumbs.php:212-214 | `$current_url` starts and ends with `/`, and is longer than `/` once a piece is added (its content is `UrlPrefixJoins`) |
| Trail.CrumbLink | src/Breadcrumbs.php:215 | the link passed for piece `i` is `null` exactly for the last piece, and otherwise a path starting and ending with `/` (its content is `CrumbLinkJoins`) |
| Trail.FromUrlLinked | src/Breadcrumbs.php:210-216 | a breadcrumb built from a path has a truthy link, and so renders through the item template, exactly when it is not the last one |
| Trail.FromUrlFragment | src/Breadcrumbs.php:197-203 | with the default templates, breadcrumb `i` of a path renders as an anchor to `/` + the first `i + 1` pieces joined with `/` + `/` around its text, and the last as the active span around its text |
| Trail.UrlPrefixJoins | src/Breadcrumbs.php:212-214 | the running link over some pieces is `/`, those pieces joined with `/`, then `/` |
| Trail.CrumbLinkJoins | src/Breadcrumbs.php:213-215 | breadcrumb `i` (not the last) links to `/` + the first `i + 1` pieces joined with `/` + `/` |
| Trail.UrlPrefixRebuildsPath | src/Breadcrumbs.php:211-214 | the running link over all pieces is the trimmed path between slashes |
| Trail.UrlPrefixExtends | src/Breadcrumbs.php:214 | each breadcrumb's link is a prefix of every later one's |
| Trail.UrlPartsRoundTrip | src/Breadcrumbs.php:211 | a path of `/`-free pieces, the first and last non-empty, between slashes splits back into exactly those pieces |
| Trail.DefaultsValid | src/Breadcrumbs.php:24-50 | each default template holds the tokens its setter demands |
| Trail.Breadcrumbs.constructor | src/Breadcrumbs.php:11-63 | a new trail is empty, has the default templates, and satisfies the template invariant |
| Trail.Breadcrumbs.Count | src/Breadcrumbs.php:166-168 | `getBreadcrumbCount` is the number of breadcrumbs in the list |
| Trail.Breadcrumbs.CheckRequiredHtmlText | src/Breadcrumbs.php:147-157 | succeeds exactly when the html contains every required token |
| Trail.Breadcrumbs.SetBreadcrumbsHtml | src/Breadcrumbs.php:78-82 | stores the html exactly when it contains `{breadcrumbs}`; otherwise fails and keeps the old wrapper; nothing else changes |
| Trail.Breadcrumbs.SetBreadcrumbHtml | src/Breadcrumbs.php:97-101 | stores the html exactly when it contains both `{text}` and `{link}`; otherwise fails and keeps the old template; nothing else changes |
| Trail.Breadcrumbs.SetActiveBreadcrumbHtml | src/Breadcrumbs.php:116-120 | stores the html exactly when it contains `{breadcrumb}`; otherwise fails and keeps the old template; nothing else changes |
| Trail.Breadcrumbs.SetBreadcrumbSeparatorHtml | src/Breadcrumbs.php:133-135 | always stores the separator; nothing else changes |
| Trail.Breadcrumbs.GetBreadcrumb | src/Breadcrumbs.php:177-182 | the breadcrumb at the position when `0 <= p < count`, `false` otherwise |
| Trail.Breadcrumbs.GetBreadcrumbs | src/Breadcrumbs.php:190-192 | `getBreadcrumbs` returns a list of `getBreadcrumbCount` breadcrumbs whose entry `i` is what `getBreadcrumb(i)` returns |
| Trail.Breadcrumbs.AddBreadcrumb | src/Breadcrumbs.php:230-232 | appends a new breadcrumb built from the arguments and returns it; the list becomes `old + [new]` |
| Trail.Breadcrumbs.AddBreadcrumbsFromUrl | src/Breadcrumbs.php:210-217 | appends one new breadcrumb per piece of the trimmed, exploded path, in order; breadcrumb `j` holds `FromUrl(parts, textOf, j)`: text `textOf(piece)`, the running link for all but the last, `null` for the last; earlier breadcrumbs, their variables and the templates are unchanged |
| Trail.Breadcrumbs.AddBreadcrumbsFromParts | src/Breadcrumbs.php:212-216 | the loop over the pieces: the same appended breadcrumbs for any list of pieces |
| Trail.Breadcrumbs.InsertBreadcrumb | src/Breadcrumbs.php:246-260 | outside `0..count` returns false and changes nothing; inside returns true, the list becomes `old[..p] + [new] + old[p..]`, and the count grows by one |
| Trail.Breadcrumbs.DeleteBreadcrumb | src/Breadcrumbs.php:269-271 | follows `array_splice(…, p, 1)`: at an index it removes and returns exactly that breadcrumb; past the end it returns nothing and changes nothing |
| Trail.Breadcrumbs.ReplaceBreadcrumb | src/Breadcrumbs.php:283-285 | follows `array_splice(…, p, 1, [new])`: the new breadcrumb lands at the normalised offset; at an index only that slot changes and the old breadcrumb is returned; past the end the new one is appended and nothing is returned; the templates are unchanged |
| Trail.Breadcrumbs.GetBreadcrumbsHtml | src/Breadcrumbs.php:293-312 | the result is `Render` of the templates and the breadcrumbs' variables: fragments per item (filled item template when `link` is truthy, active template otherwise), joined with the separator, put into the wrapper |

## Left out

- The error message of a failed template setter is not modelled: `debug_backtrace`, `sprintf` and `trigger_error` at src/Breadcrumbs.php:150-154. Only "fails, template unchanged" is kept.
- A custom error handler that returns from `E_USER_ERROR` would let PHP go on and store the invalid template. The model assumes the default handler, which ends the script.
- `call_user_func` dispatch is not modelled. The callback is an ordinary total function `string -> string`.
- PHP type juggling is not modelled: numeric-string keys becoming integer keys, non-string variable values, and non-integer positions.
- PHP arrays keep key order; the model's variable maps do not. Only lookups by key read them, so rendering does not depend on the order.
- `PhpArrays.Splice`: its length is a natural number. PHP's negative lengths never occur here, because the source passes only 0 and 1.
- Rendering an empty trail is the error path `None`. The model does not follow PHP 7, which warns and substitutes an empty string.
- Objects are shared as in PHP: the breadcrumb returned by `AddBreadcrumb` is the one in the list, so later `SetVar` calls on it show up in rendering. The model does not say who else holds references to a breadcrumb.
