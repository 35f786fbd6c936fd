# DocsNav navigation table

This project models the navigation side panel of galaxy-doc-builder's
`DocsNav` React component (`src/components/docs-nav/docs-nav.tsx`). The
panel is built from a collection's docs blob. It can read as follows:

- `parseLinks` turns the blob into a table of five lists of links:
  `documentation`, `modules`, `roles`, `plugins` and `playbooks`.
  - `documentation` first receives a `Readme` link.
  - After that it receives one link per documentation file. Its label is made
    from the file name: the part before the first `.`, with `_` turned
    into spaces and the first letter upper-cased.
  - Each content item is pushed to one of the four other lists according
    to its type. Any unknown type goes to `plugins`.
  - Every list is then sorted with a two-level comparator. Labels that
    start with `_` go last; otherwise labels are compared with the string
    `>` operator.
- `isSelected` decides which link is current.
- `getSelectedCategory` decides which list is marked active.
- `render` caches the last table and rebuilds it only when there is no
  cached table or the blob is not the same object as last time.

The model has three modules:

- `JsString` (`js_string.dfy`) holds the JavaScript string operations
  the component relies on: `split` and `join` with one-character
  separators, ASCII `toUpperCase`, the component's `capitalize`, and `<` on
  strings. Each has the laws the rest of the model needs: split/join
  replaces one character by another and round-trips, the first piece of a
  split is the text before the separator, and `<` is a strict total order.
- `DocsNav` (`docs_nav.dfy`) holds the entities (`DocsBlob`, `DocsEntry`,
  `Table`, `Category`) and the operations:
  - `ParseLinks` is a method. It pushes entries in loops and sorts each
    list in place with `SortInPlace`, an insertion sort by adjacent swaps
    on an array.
  - Its contract is `IsTableOf(blob, t)`: every list is ordered by the
    comparator's order `InOrder`, and it is a permutation of what was
    pushed to it (`Pushed`).
  - The order is specified relationally. The source's comparator answers
    `-1` for two equal labels, so the order of links with equal labels is
    whatever the JavaScript sort produces. Any ordering that the
    comparator would not move is a valid result.
  - `IsSelected` and `GetSelectedCategory` are functions.
  - The component itself is the class `DocsNav`. Its fields
    `docsBlobCache` and `tableCache` are updated by `Render`.
  - A blob's object identity is modelled by the `id` of a `BlobRef`.
- `DocsNavProperties` (`docs_nav_properties.dfy`) states what any table
  of a blob holds, which lists receive which items, that each sorted list
  shows the same sequence of labels whatever order equal labels take, and how selection relates
  to the table. It also works through a few concrete blobs.

The model reproduces two behaviours of the source as written:

- A selected item of type `playbook` is listed under `playbooks`, but
  `getSelectedCategory` marks `plugins` as the active list
  (`PlaybookNeverActive`).
- The cache compares identities only, so a blob that is the same object
  but was changed in place gets the old table back. `Render` guarantees
  a table of the blob only when there was no hit or the cached reference
  is exactly the one passed.

The underscore rule of the sort can never apply to documentation links:
`split('_').join(' ')` has already turned a leading `_` into a space
(`DocEntryNotUnderscored`).

## Model

| member | source | states |
|---|---|---|
| JsString.Split | src/components/docs-nav/docs-nav.tsx:107-108 | `split` with a one-character separator yields at least one piece and no piece contains the separator |
| JsString.SplitJoinReplaces | src/components/docs-nav/docs-nav.tsx:108-109 | `split(from).join(to)` keeps the length and replaces every `from` character by `to`, leaving every other character unchanged |
| JsString.SplitJoinRoundTrip | src/components/docs-nav/docs-nav.tsx:108-109 | splitting and joining with the same separator gives the original string back |
| JsString.SplitFirstPiece | src/components/docs-nav/docs-nav.tsx:107 | `split(sep)[0]` is a prefix without `sep`, followed in the string by `sep` unless it is the whole string |
| JsString.SplitWithoutSeparator | src/components/docs-nav/docs-nav.tsx:107-108 | a string without the separator splits into itself alone |
| JsString.SplitAfterSeparator | src/components/docs-nav/docs-nav.tsx:107-108 | the text before the first separator is the first piece; the rest splits on its own |
| JsString.Join | src/components/docs-nav/docs-nav.tsx:109 | `parts.join(sep)`; what it does after a split is stated by `SplitJoinReplaces` and `SplitJoinRoundTrip` |
| JsString.ToUpperCase | src/components/docs-nav/docs-nav.tsx:230 | `toUpperCase()` on ASCII letters; what it does is stated by `ToUpperCaseSpec` |
| JsString.ToUpperCaseSpec | src/components/docs-nav/docs-nav.tsx:230 | upper-casing keeps the length, turns each lower-case ASCII letter into its own capital (`a` to `A` … `z` to `Z`), leaves no lower-case ASCII letter and changes no other character |
| JsString.ToUpperAscii | src/components/docs-nav/docs-nav.tsx:230 | `toUpperCase()` of one character; what it does is stated by `ToUpperCaseSpec` and `Capitalize` |
| JsString.Capitalize | src/components/docs-nav/docs-nav.tsx:229-231 | `capitalize` keeps the length, upper-cases the first character (after which it is no lower-case ASCII letter) and keeps every later character |
| JsString.Less | src/components/docs-nav/docs-nav.tsx:156 | the string `>` of the comparator, read as `Less(b, a)`; that it is a strict total order is stated by the four lemmas below |
| JsString.LessIrreflexive | src/components/docs-nav/docs-nav.tsx:156 | no string is `<` itself |
| JsString.LessAsymmetric | src/components/docs-nav/docs-nav.tsx:156 | two strings are never `<` each other |
| JsString.LessTransitive | src/components/docs-nav/docs-nav.tsx:156 | `<` on strings is transitive |
| JsString.LessTotal | src/components/docs-nav/docs-nav.tsx:156 | of two different strings, one is `<` the other |
| DocsNav.FilesOf | src/components/docs-nav/docs-nav.tsx:102-103 | the guard on `documentation_files`: a missing list is walked as empty; stated by `ReadmeAlwaysListed` (one link more than the files) and `EmptyBlobTable` |
| DocsNav.ContentsOf | src/components/docs-nav/docs-nav.tsx:118-119 | the guard on `contents`: a missing list is walked as empty; stated by `ContentListCounts` and `EmptyBlobTable` |
| DocsNav.DocEntry | src/components/docs-nav/docs-nav.tsx:104-114 | the link pushed for a file: label from the name, the raw name, type `docs`; stated by `DocumentationLinks`, `DisplayLabelSpec` and `DocEntryNotUnderscored` |
| DocsNav.DocEntries | src/components/docs-nav/docs-nav.tsx:103-115 | the links pushed by the loop over the files, in order; stated by `DocEntriesMembers` and `ReadmeAlwaysListed` |
| DocsNav.DisplayLabel | src/components/docs-nav/docs-nav.tsx:105-110 | the label of a documentation file; characterised without split and join by `DocsNavProperties.DisplayLabelSpec` |
| DocsNav.ContentEntry | src/components/docs-nav/docs-nav.tsx:233-239 | `getContentEntry`: label and name are the item's name, type its type; where these links land is stated by `ContentListMembers` and `ContentItemListed` |
| DocsNav.CategoryOf | src/components/docs-nav/docs-nav.tsx:120-141 | a content item never goes to `documentation`: `role`, `module` and `playbook` pick their lists and any other type picks `plugins` |
| DocsNav.EntriesIn | src/components/docs-nav/docs-nav.tsx:118-143 | what the loop over `contents` pushes to one list, in order; stated by `EntriesInPartition`, `EntriesInLength` and `EntriesInMembers` |
| DocsNav.Pushed | src/components/docs-nav/docs-nav.tsx:96-143 | everything pushed to one list before sorting; stated by `ReadmeAlwaysListed`, `DocumentationLinks` and `ContentListCounts` through `ParseLinks` |
| DocsNav.StartsWithUnderscore | src/components/docs-nav/docs-nav.tsx:150-155 | `display.startsWith('_')`; its role in the order is stated by `CompareMovesExactlyMisordered` |
| DocsNav.Compare | src/components/docs-nav/docs-nav.tsx:147-157 | the comparator given to `sort`; what its sign means is stated by `CompareMovesExactlyMisordered` |
| DocsNav.CompareMovesExactlyMisordered | src/components/docs-nav/docs-nav.tsx:147-157 | the comparator is positive exactly when the pair is out of order (an `_` label before a plain one, or a larger label first within a group) |
| DocsNav.InOrderTotal | src/components/docs-nav/docs-nav.tsx:147-157 | any two links are in order one way or the other, so the sort can always place them |
| DocsNav.InOrderTransitive | src/components/docs-nav/docs-nav.tsx:147-157 | the order the comparator sorts by is transitive |
| DocsNav.InsertLast | src/components/docs-nav/docs-nav.tsx:146-158 | swapping the next element down into an ordered prefix leaves a longer ordered prefix, the same multiset of entries, and every entry after it where it was |
| DocsNav.SwapKeepsInserting | src/components/docs-nav/docs-nav.tsx:146-158 | swapping the moving entry with a misordered neighbour keeps the half-inserted shape one step lower and the same entries |
| DocsNav.InsertionDone | src/components/docs-nav/docs-nav.tsx:146-158 | once the moving entry is at the bottom or in order with its lower neighbour, the prefix is ordered |
| DocsNav.SortInPlace | src/components/docs-nav/docs-nav.tsx:146-158 | `sort` in place: the array ends ordered by the comparator and holds the same entries, each as often as before |
| DocsNav.SortEntries | src/components/docs-nav/docs-nav.tsx:146-158 | sorting a list gives an ordered permutation of it |
| DocsNav.ParseLinks | src/components/docs-nav/docs-nav.tsx:80-161 | the table built from a blob has every list ordered and holding exactly what was pushed: readme plus one link per file for `documentation`, and the items of each type for the others |
| DocsNav.AssembledTable | src/components/docs-nav/docs-nav.tsx:145-160 | five ordered permutations of the pushed lists form a table of the blob |
| DocsNav.IsSelected | src/components/docs-nav/docs-nav.tsx:198-210 | `isSelected`; stated by `ReadmeCurrentWithoutName` (no or an empty name selected, including the fall-through match of an empty name) and `CurrentByNameAndType` (a non-empty name selected); together they cover every selected name |
| DocsNav.Falsy | src/components/docs-nav/docs-nav.tsx:200 | JavaScript `!` on an optional string: missing or empty; what it decides is stated by `ReadmeCurrentWithoutName` and `ActiveListHoldsCurrent` |
| DocsNav.GetSelectedCategory | src/components/docs-nav/docs-nav.tsx:212-227 | the active list is never `playbooks` |
| DocsNav.DocsNav.constructor | src/components/docs-nav/docs-nav.tsx:36-44 | a new component has no cached blob and no cached table |
| DocsNav.DocsNav.Hit | src/components/docs-nav/docs-nav.tsx:57 | the negation of the rebuild test: a table is cached and the blob is the cached object; what a hit returns is stated by `Render` |
| DocsNav.DocsNav.Render | src/components/docs-nav/docs-nav.tsx:57-62 | on a cache hit (a table exists and the blob is the same object) the cached table is returned and the cache is unchanged; otherwise a table of the new blob is built and cached with it; the cached table is always a table of the cached blob |
| DocsNavProperties.DisplayLabelSpec | src/components/docs-nav/docs-nav.tsx:105-110 | a documentation label is as long as the file name's text before its first `.`; each of its characters is that text's character with `_` turned into a space, and the first is upper-cased |
| DocsNavProperties.DocEntryNotUnderscored | src/components/docs-nav/docs-nav.tsx:104-114 | no documentation link has a label starting with `_` |
| DocsNavProperties.EntriesInPartition | src/components/docs-nav/docs-nav.tsx:118-143 | walking the items, the four content lists together receive each item's entry exactly as often as it occurs, and `documentation` receives none |
| DocsNavProperties.EntriesInLength | src/components/docs-nav/docs-nav.tsx:118-143 | the four content lists together receive one entry per item |
| DocsNavProperties.EntriesInMembers | src/components/docs-nav/docs-nav.tsx:118-143 | an entry is pushed to a list exactly when it is the entry of an item whose type selects that list |
| DocsNavProperties.ReadmeAlwaysListed | src/components/docs-nav/docs-nav.tsx:96-116 | the readme link is always in `documentation`, which has one link more than there are files (none when the list is missing) |
| DocsNavProperties.DocumentationLinks | src/components/docs-nav/docs-nav.tsx:96-116 | `documentation` holds exactly the readme link and, for each file, a `docs` link named by the raw file name and labelled from it |
| DocsNavProperties.DocEntriesMembers | src/components/docs-nav/docs-nav.tsx:103-115 | the links pushed for the files are exactly the links of the files |
| DocsNavProperties.ContentListCounts | src/components/docs-nav/docs-nav.tsx:118-143 | the four content lists together hold each item's entry exactly as often as it occurs, and one entry per item (none when `contents` is missing) |
| DocsNavProperties.ContentListMembers | src/components/docs-nav/docs-nav.tsx:118-143 | every link of a content list carries its item's name as label and name, and its type selects that list |
| DocsNavProperties.ContentItemListed | src/components/docs-nav/docs-nav.tsx:118-143 | every content item's link is in the list its type selects |
| DocsNavProperties.OrderedMeansComparatorAgrees | src/components/docs-nav/docs-nav.tsx:147-157 | a list is ordered exactly when the comparator is negative on every pair in list order |
| DocsNavProperties.InOrderAntisymmetric | src/components/docs-nav/docs-nav.tsx:147-157 | two links in order both ways have the same label |
| DocsNavProperties.OrderedLabelsUnique | src/components/docs-nav/docs-nav.tsx:146-158 | two ordered permutations of the same links show the same labels in the same order |
| DocsNavProperties.TableLabelsDetermined | src/components/docs-nav/docs-nav.tsx:80-161 | two tables of one blob show the same labels in every list, whatever order the sort gave links with equal labels |
| DocsNavProperties.ReadmeCurrentWithoutName | src/components/docs-nav/docs-nav.tsx:198-210 | with no or an empty selected name, the readme link is listed and current; the current links are then exactly those named `readme` and, for an empty name, also those named by the empty string whose type is the selected type (the fall-through comparison) |
| DocsNavProperties.CurrentByNameAndType | src/components/docs-nav/docs-nav.tsx:198-210 | with a non-empty selected name, a link is current exactly when its name and type are the selected ones |
| DocsNavProperties.ActiveListHoldsCurrent | src/components/docs-nav/docs-nav.tsx:198-227 | the current link of a list has the selected name and type, and its list is the active one exactly when it is `documentation` or the type is neither empty, `docs` nor `playbook` |
| DocsNavProperties.PlaybookNeverActive | src/components/docs-nav/docs-nav.tsx:131-135 | a playbook item is listed under `playbooks`, but selecting it marks `plugins` active |
| DocsNavProperties.TwoEntries | src/components/docs-nav/docs-nav.tsx:146-158 | a permutation of two links is one of their two orders |
| DocsNavProperties.OrderedPair | src/components/docs-nav/docs-nav.tsx:146-158 | sorting two links that the comparator says are out of order swaps them |
| DocsNavProperties.EmptyBlobTable | src/components/docs-nav/docs-nav.tsx:88-143 | a blob with neither list gives the readme link alone and four empty lists |
| DocsNavProperties.TwoWordLabel | src/components/docs-nav/docs-nav.tsx:105-110 | a file `<first>_<second>.<ext>` is labelled with `<first> <second>`, capitalised |
| DocsNavProperties.GettingStartedLabel | src/components/docs-nav/docs-nav.tsx:105-110 | `getting_started.md` is labelled `Getting started` |
| DocsNavProperties.SingleFileDocumentation | src/components/docs-nav/docs-nav.tsx:96-116 | with a single file, `documentation` is an ordering of the readme and that file's link |
| DocsNavProperties.ReadmeNotAlwaysFirst | src/components/docs-nav/docs-nav.tsx:145-158 | the readme is sorted like any other link: `Getting started` comes before `Readme` |
| DocsNavProperties.TwoModules | src/components/docs-nav/docs-nav.tsx:126-130 | with two module items only, `modules` is an ordering of their two links |
| DocsNavProperties.UnderscoreModuleLast | src/components/docs-nav/docs-nav.tsx:148-155 | a module labelled `_internal` goes after `apache` |

## Left out

- The JSX output of `render` and `renderLinks` (`Nav`, `NavExpandable`, `NavItem`) is not modelled. This covers hiding empty lists, the `pf-m-current` class and the `isActive` flag. Only the two decisions behind them, `IsSelected` and `GetSelectedCategory`, are modelled.
- `renderLink` and `React.cloneElement` are not modelled: `renderLink` is a caller-supplied function whose code is not part of this model.
- lodash's `capitalize` of the category title is not modelled, because it only affects display text.
- The `collapsedCategories` state is not modelled; nothing in the component changes it.
- `namespace`, `collection` and `baseUrlParams` are not modelled: `getContentEntry` ignores them.
- JsString.ToUpperCase: upper-cases ASCII letters only; JavaScript's full Unicode case mapping is not modelled.
- JsString.Less: compares characters, not UTF-16 code units, so strings with characters outside the Basic Multilingual Plane may order differently.
- DocsNav.ParseLinks: specified up to the order of links with equal labels. Once a list holds two equal labels the comparator is inconsistent (it answers -1 both ways), and ECMAScript then leaves the whole sort order implementation-defined, not only the order among equal labels. `Ordered` assumes an engine that still keeps unequal labels in comparator order, as a merge-based sort such as V8's TimSort does. `SortInPlace` picks one such order.
- DocsNav.DocsNav.Render: object identity is an explicit `id` in `BlobRef`. Mutating a blob in place is modelled as a new `blob` with the same `id`.
- React's own lifecycle (when `render` runs, props updates) is not modelled.
