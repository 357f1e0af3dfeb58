# Kitchen inventory front-end: a Dafny model

This project models the logic in the React front-end of a kitchen-inventory
and recipe-suggestion app, and proves properties of it. It covers these parts:

- **The recipe card.** It turns an untrusted recipe suggestion into one record.
  The suggestion may be an object, a JSON string or prose. The card cleans code
  fences and escapes out of the instructions, then tries to read them as JSON a
  second time. It cuts the instructions at 150 characters behind a show-more
  button. When rendering it falls back to placeholder text, shows ingredient
  counts, and refuses to order an empty missing-ingredient list.
- **The inventory list.** Search and category filtering, deletion, the list of
  unique categories, and Clear Filters.
- **The inventory table's badges.** Stock status from the quantity, and expiry
  status from whole days left.
- **The recipe page's inventory overview.** Items grouped into a bucket per
  category, and a colour for each quantity.
- **The item form.** Initial field values, field edits that clear the field's
  error, validation into an error map, and the submit gate.
- **The dashboard.** Item count, distinct categories, low stock, the
  three-day expiry window, and the five newest items after sorting the fetched
  array in place.

JavaScript values are the datatype `JsValue.Value`. JavaScript's truthiness,
property access, `String()` conversion and comparison with 0 are written out
on it. Comparing a string with 0 converts it by the StringToNumber grammar of
section 7.1.4.1.1 of ECMA-262 (`JsString.NumericPositive`): surrounding white
space, signs, fractions, exponents, `Infinity`, the `0x`, `0o` and `0b` forms,
and NaN for anything else. `JSON.parse`
is a parameter `parse: string -> Option<Value>`, where `None` stands for a
parse that throws. The model does not contain a JSON parser.

Other conventions:
- Timestamps are integer milliseconds, and the current time is a parameter.
- Quantities are mathematical reals.
- Server responses are parameters: `None` stands for a failed request.
- The user's answer to the delete confirmation and the outcome of the delete
  request are parameters too.

React state becomes a class per component (`InventoryListView`,
`ItemFormState`, `Dashboard`, `RecipeCardView`). The inventory list refilters
whenever `items`, `searchQuery` or `selectedCategory` changes. That effect is
modelled as a call to `FilterItems` at the end of every method that changes one
of them. The invariant `Valid()` says the shown list is the filtered list.

## What the code does, where a looser reading would differ

The model follows what the code does:

- **Raw objects are not filled in.** An object with a truthy `name` is returned
  as it is, and any missing fields stay missing. The placeholder title and
  description are applied only when rendering (`Title`, `Subtitle`).
- **Non-recipe JSON stays a string.** A string that parses as JSON but has no
  non-empty `recipes` array is returned as the raw string, not as a synthetic
  record.
- **Anything that throws inside the `try` builds the synthetic record.** For
  example, `"null"` parses, and then `.recipes` throws on it.
- **Fenced JSON becomes a synthetic record first.** A suggestion wrapped in a
  code fence does not parse, so it becomes the synthetic record with the fenced
  text as its instructions. The JSON inside is read only when the instructions
  are formatted (`ProseSuggestion`).
- **An ingredient list that is not an array can crash the card.** The guard
  compares the list's `length` with 0 after converting it to a number. A
  non-empty string, or an object whose `length` is "2", `true` or `[1]`, passes
  the guard. Rendering then throws at `map` (`RenderSection`,
  `ObjectListFollowsLength`, `StringListThrows`).
- **Cleaning is not idempotent.** Cleaning `\\"` once gives `\"`, and cleaning
  again gives `"` (`CleanNotIdempotent`).

## Model

| member | source | states |
|---|---|---|
| RecipeCard.ParseRecipeData | src/components/Recipe/RecipeCard.js:10-36 | A non-string suggestion comes back unchanged. A string suggestion yields the raw string, the synthetic record, or the first element of its parsed `recipes`, and nothing else. |
| RecipeCard.Synthetic | src/components/Recipe/RecipeCard.js:25-31 | The fallback record is an object with a truthy name, and its instructions are the raw text. |
| RecipeCard.NamedObjectUnchanged | src/components/Recipe/RecipeCard.js:12-14 | An object or array with a truthy `name` is returned unchanged. |
| RecipeCard.FirstRecipe | src/components/Recipe/RecipeCard.js:20-21 | A first recipe exists exactly when `recipes` is a non-empty array. |
| RecipeCard.FirstRecipeWins | src/components/Recipe/RecipeCard.js:19-21 | A string that parses to an object whose `recipes` is a non-empty array yields `recipes[0]`, whatever the later elements are. |
| RecipeCard.FirstNames | src/components/Recipe/RecipeCard.js:29 | The available ingredients are the names of the first min(3, n) inventory items, in order. |
| RecipeCard.SyntheticOnThrow | src/components/Recipe/RecipeCard.js:18-32 | When the parse throws, or `.recipes` throws on `null`, the result is the five-field record: the placeholder name and description, the raw text as instructions, the first names, and Salt, Pepper, Oil. |
| RecipeCard.ParsedWithoutRecipesUnchanged | src/components/Recipe/RecipeCard.js:17-35 | A string that parses to a non-null value without a non-empty `recipes` array is returned as the raw string. |
| RecipeCard.SyntheticIsStable | src/components/Recipe/RecipeCard.js:10-36 | Normalising the synthetic record a second time gives it back unchanged. |
| RecipeCard.Title | src/components/Recipe/RecipeCard.js:98 | The title is always truthy: the record's `name` when that is truthy, otherwise the placeholder. |
| RecipeCard.Subtitle | src/components/Recipe/RecipeCard.js:99 | The subtitle is always truthy: the record's `description` when that is truthy, otherwise the placeholder. |
| RecipeCard.FooterCount | src/components/Recipe/RecipeCard.js:206-212 | The count is 0 for a missing or falsy list and the array's length for an array. |
| RecipeCard.SectionGuard | src/components/Recipe/RecipeCard.js:104-121 | The guard fails for a falsy list. For an array or a string it passes exactly when the length is positive. |
| RecipeCard.RenderSection | src/components/Recipe/RecipeCard.js:104-132 | Badges are shown exactly for a non-empty array list, one per element. The `.map` throws exactly when the list is not an array and the guard passes or throws. |
| RecipeCard.SectionShownIffCounted | src/components/Recipe/RecipeCard.js:104-121 | The guard gives the same result as comparing the footer count with 0: it passes, fails or throws alike. Shown badges number the footer count. |
| RecipeCard.ObjectListFollowsLength | src/components/Recipe/RecipeCard.js:104-128 | For an object list, the guard is its `length` compared with 0. Whenever that passes or throws, the render throws. |
| RecipeCard.StringListThrows | src/components/Recipe/RecipeCard.js:104-128 | A non-empty string list passes the guard, and the render throws. |
| RecipeCard.OrderRequest | src/components/Recipe/RecipeCard.js:40-45 | No request is made when `missingIngredients` is missing, falsy or an empty array. Otherwise the request carries that list. |
| RecipeCard.SyntheticOrdersFallback | src/components/Recipe/RecipeCard.js:25-45 | The synthetic record orders Salt, Pepper and Oil. Its footer counts are 3 missing and min(3, n) available. |
| RecipeCard.TruncateText | src/components/Recipe/RecipeCard.js:66-69 | A missing or empty text gives `''`. A text of at most `max` characters is unchanged. A longer text gives its first `max` characters plus `...`, which is exactly `max + 3` characters. |
| RecipeCard.CleanHasNoFence | src/components/Recipe/RecipeCard.js:75-79 | The cleaned text never contains "```". |
| RecipeCard.CleanKeepsPlainText | src/components/Recipe/RecipeCard.js:75-79 | A text containing none of the four patterns is left as it is. |
| RecipeCard.CleanNotIdempotent | src/components/Recipe/RecipeCard.js:78 | Cleaning twice can differ from cleaning once. |
| RecipeCard.Clean | src/components/Recipe/RecipeCard.js:75-79 | The four global replacements, in source order. The text never grows. That it has no fence is in `CleanHasNoFence`. |
| RecipeCard.Pick | src/components/Recipe/RecipeCard.js:85 | Each recipe contributes its truthy `instructions`, else its truthy `description`, else `''`. The result is never nullish. |
| RecipeCard.MapsRecipes | src/components/Recipe/RecipeCard.js:84-85 | The definition of when the map over `recipes` runs without throwing: `recipes` is an array with no `null` or `undefined` element. |
| RecipeCard.FormatInstructions | src/components/Recipe/RecipeCard.js:71-93 | A falsy input gives 'No instructions available'. The call throws exactly for a truthy non-string. |
| RecipeCard.Pieces | src/components/Recipe/RecipeCard.js:85 | The map over `recipes` gives one picked value per recipe, in order. |
| RecipeCard.RecipesText | src/components/Recipe/RecipeCard.js:82-86 | Text is read out of the JSON exactly when `recipes` is an array of non-null values and every picked piece can be converted to a string. Otherwise the map or the join throws, or `recipes` is falsy, and the code falls back. |
| RecipeCard.FormatInstructionsSpec | src/components/Recipe/RecipeCard.js:82-92 | When text can be read out of the cleaned JSON, the result is that text. Otherwise it is the cleaned text, which has no "```". |
| RecipeCard.RecipesTextOfStrings | src/components/Recipe/RecipeCard.js:85 | When every picked piece is a string, the text read out is those strings joined by a single space. |
| RecipeCard.UnconvertibleInstructionsFallBack | src/components/Recipe/RecipeCard.js:82-89 | When a recipe's instructions are an object with its own `toString` key, the join throws and the cleaned text is shown. |
| RecipeCard.ProseSuggestion | src/components/Recipe/RecipeCard.js:17-93 | For a suggestion that does not parse, the title is the placeholder. The instructions are the text read out of the cleaned text when there is one, or else the cleaned text. |
| RecipeCard.RecipeCardView.constructor | src/components/Recipe/RecipeCard.js:4-5 | The card starts collapsed, holding its props. |
| RecipeCard.RecipeCardView.ReceiveProps | src/components/Recipe/RecipeCard.js:38 | A render with new props normalises the new suggestion, and the show-more flag keeps its value. |
| RecipeCard.RecipeCardView.ParsedRecipe | src/components/Recipe/RecipeCard.js:38 | The record is renormalised from the current props. A suggestion that is not a string is used as it is. |
| RecipeCard.RecipeCardView.Formatted | src/components/Recipe/RecipeCard.js:162-164 | The instructions, formatted. Formatting throws exactly when they are truthy and not a string. |
| RecipeCard.RecipeCardView.ShowsToggle | src/components/Recipe/RecipeCard.js:167 | The definition of the button rule: the button is shown exactly when the formatted text is longer than 150 characters. |
| RecipeCard.RecipeCardView.VisibleInstructions | src/components/Recipe/RecipeCard.js:162-165 | Expanded, the card shows the whole formatted text. Collapsed, it shows at most 153 characters. It throws exactly when formatting throws. |
| RecipeCard.RecipeCardView.ToggleInstructions | src/components/Recipe/RecipeCard.js:170 | The toggle flips the show-more flag. |
| RecipeCard.RecipeCardView.ShortTextShownWhole | src/components/Recipe/RecipeCard.js:162-167 | When no show-more button is rendered, the collapsed view shows the whole text. |
| JsValue.Or | src/components/Recipe/RecipeCard.js:98 | The `or` operator gives its first operand when that is truthy and its second otherwise. |
| JsValue.Prop | src/components/Recipe/RecipeCard.js:12 | A missing key reads as `undefined`, and an array's `length` is its size. |
| JsValue.ToStr | src/components/Recipe/RecipeCard.js:85 | `String(v)` succeeds exactly when neither `v` nor any value reached through array elements is an object with its own `toString` key. |
| JsValue.Truthy | src/components/Recipe/RecipeCard.js:98 | The definition of truthiness: `undefined`, `null`, `false`, 0 and `''` are falsy, and every other value is truthy. |
| JsValue.IsObjectType | src/components/Recipe/RecipeCard.js:12 | The definition of the `typeof` test for "object": objects, arrays and `null`. `NamedObjectUnchanged` states what the early return then does. |
| JsValue.Stringifiable | src/components/Recipe/RecipeCard.js:85 | The definition of where `String()` succeeds: everywhere except an object with its own `toString` key, or an array holding such an object at any depth. |
| JsValue.GreaterThanZero | src/components/Recipe/RecipeCard.js:104-121 | `v > 0` throws exactly where `String(v)` throws. A boolean counts as 0 or 1. Every other value compares as its string form converted to a number, and an integer compares as itself. |
| JsValue.SingletonArrayComparesAsNumber | src/components/Recipe/RecipeCard.js:104-121 | `[n] > 0` exactly when `n > 0`. |
| JsValue.DigitStringComparesAsNumber | src/components/Recipe/RecipeCard.js:104-121 | The decimal digits of `n`, as a string, are above 0 exactly when `n > 0`. |
| JsValue.JoinValues | src/components/Recipe/RecipeCard.js:85 | An array join succeeds exactly when every element can be converted to a string. |
| JsValue.JoinStrings | src/components/Recipe/RecipeCard.js:85 | Joining string values is joining their texts. |
| JsString.ReplaceAllAbsent | src/components/Recipe/RecipeCard.js:75-79 | Replacing a pattern that does not occur changes nothing. |
| JsString.RemovingFencesLeavesNone | src/components/Recipe/RecipeCard.js:77 | After every "```" is removed, none is left, even where removal brings backticks together. |
| JsString.ReplacingKeepsNoFence | src/components/Recipe/RecipeCard.js:78-79 | A one-character replacement other than a backtick never creates a "```". |
| JsString.ReplaceAll | src/components/Recipe/RecipeCard.js:75-79 | A global replacement that does not lengthen the pattern never lengthens the text. |
| JsString.Includes | src/views/InventoryList.js:51-52 | The definition of `includes`: the needle occurs at some position. |
| JsString.Trim | src/components/Inventory/ItemForm.js:48 | A non-empty trimmed string neither starts nor ends with white space. |
| JsString.TrimNoSpace | src/components/Inventory/ItemForm.js:48 | A string that neither starts nor ends with white space is left unchanged by trimming. |
| JsString.TrimStart | src/components/Inventory/ItemForm.js:48 | A non-empty trimmed start begins with a character that is not white space. |
| JsString.TrimEmptyIff | src/components/Inventory/ItemForm.js:48 | `s.trim()` is empty exactly when every character of `s` is white space. |
| JsString.Lower | src/views/InventoryList.js:51-52 | Lower-casing keeps the length. |
| JsString.LowerIdempotent | src/views/InventoryList.js:51-52 | Lower-casing twice is lower-casing once. |
| JsString.NatToString | src/components/Inventory/InventoryTable.js:21 | The day count's text is non-empty decimal digits with no leading zero. |
| JsString.DecimalRoundTrip | src/components/Inventory/InventoryTable.js:21 | Reading the digits back gives the number. |
| JsString.IntToString | src/components/Inventory/InventoryTable.js:21 | An integer's text is non-empty and starts with '-' exactly when the integer is negative. |
| JsString.BlankNotPositive | src/components/Recipe/RecipeCard.js:104-121 | A string of white space only, the empty one included, converts to 0 and so is not above 0. |
| JsString.NumericPositive | src/components/Recipe/RecipeCard.js:104-121 | The definition of "the string converts to a number above 0": trim, then `TrimmedPositive`. `BlankNotPositive`, `IntToStringPositive` and the lemmas below state its meaning. |
| JsString.TrimmedPositive | src/components/Recipe/RecipeCard.js:104-121 | The definition of the same test on a trimmed string: an unsigned binary, octal or hexadecimal literal with a non-zero digit, or an optional `+` and then `UnsignedPositive`. A leading `-` never passes. `SignedNonDecimalNotPositive` and `DigitsPositive` state its meaning. |
| JsString.UnsignedPositive | src/components/Recipe/RecipeCard.js:104-121 | The definition of an unsigned decimal literal, or `Infinity`, that denotes a double above 0. `DigitsPositive` and `DigitsThenLetterNotPositive` state its meaning. |
| JsString.IntToStringPositive | src/components/Recipe/RecipeCard.js:104-121 | Converting an integer's text back to a number keeps its sign: it is above 0 exactly when the integer is. |
| JsString.LeadingNonNumeric | src/components/Recipe/RecipeCard.js:104-121 | A string that starts with a letter other than `I`, or with another character that cannot begin a number, converts to NaN. |
| JsString.HexLiteralPositive | src/components/Recipe/RecipeCard.js:104-121 | `"0x1F"` converts to a positive number. |
| JsString.SignedNonDecimalNotPositive | src/components/Recipe/RecipeCard.js:104-121 | A binary, octal or hexadecimal literal takes no sign: with a minus or a plus in front it converts to NaN. |
| JsString.PlusNonDecimalNotPositive | src/components/Recipe/RecipeCard.js:104-121 | After a plus sign, a binary, octal or hexadecimal literal does not read as a positive decimal number. |
| JsString.MinusNotPositive | src/components/Recipe/RecipeCard.js:104-121 | A minus sign in front of any text never gives a number above 0. |
| JsString.DigitsPositive | src/components/Recipe/RecipeCard.js:104-121 | An unsigned string of decimal digits converts to a number above 0 exactly when the integer it spells is above 0. |
| JsString.DigitsThenLetterNotPositive | src/components/Recipe/RecipeCard.js:104-121 | Digits followed by a letter that is not an exponent letter, such as "2px", convert to NaN. |
| Seqs.Filter | src/views/InventoryList.js:50-58 | A filter keeps only elements that pass and keeps every element that passes. |
| Seqs.FilterMembership | src/views/InventoryList.js:50-58 | An element is in the filter exactly when it is in the list and passes. |
| Seqs.FilterFilter | src/views/InventoryList.js:46-59 | Two filters in a row are one filter by both tests. |
| Seqs.FilterAgree | src/views/InventoryList.js:50-53 | Tests that agree on every element give the same filter. |
| Seqs.FilterIsSubsequence | src/views/InventoryList.js:50-58 | A filter is a subsequence of its input. |
| Seqs.FilterAllPass | src/views/InventoryList.js:58 | A filter that every element passes keeps the list as it is. |
| Seqs.FilterPartition | src/views/InventoryList.js:68 | The kept and the dropped elements together number as many as the input. |
| Seqs.Distinct | src/views/InventoryList.js:33 | `[...new Set(xs)]` has no duplicates and holds exactly the elements of `xs`. |
| Seqs.FirstIndex | src/views/InventoryList.js:33 | The first index is where the element first occurs. |
| Seqs.DistinctFirstOccurrenceOrder | src/views/InventoryList.js:33 | The distinct elements come in order of first occurrence. |
| Seqs.DistinctCount | src/views/Home.js:25 | The number of distinct elements is the size of the set of elements. |
| Inventory.CategoriesOf | src/views/InventoryList.js:33 | The category projection has one entry per item. |
| Inventory.InCategory | src/views/InventoryList.js:58 | The definition of the category test: the item's category equals the selected one. `FilteredMembership` and `SharedCategoryShowsAll` state its meaning. |
| InventoryList.NoFiltersShowAll | src/views/InventoryList.js:45-61 | With no query and no category, every item is shown. |
| InventoryList.MatchesQuery | src/views/InventoryList.js:50-53 | The definition of the search test: the lower-cased query occurs in the lower-cased name or the lower-cased category. |
| InventoryList.Filtered | src/views/InventoryList.js:45-61 | The definition of the shown list: the search step when a query is set, then the category step when a category is set. `FilteredMembership` states its meaning. |
| InventoryList.WithoutId | src/views/InventoryList.js:68 | The definition of deletion: the items whose id differs. `DeleteRemovesExactlyId` states its meaning. |
| InventoryList.HasOtherId | src/views/InventoryList.js:68 | The definition of the test that keeps an item on deletion: its id differs. `DeleteRemovesExactlyId` states its meaning. |
| InventoryList.UniqueCategories | src/views/InventoryList.js:33 | The definition of the category list: the distinct categories. `UniqueCategoriesSpec` states its meaning. |
| InventoryList.SharedCategoryShowsAll | src/views/InventoryList.js:57-59 | Selecting the category every item has shows every item. |
| InventoryList.FilteredIsSubsequence | src/views/InventoryList.js:45-61 | The shown list is a subsequence of the items, in their original order. |
| InventoryList.FilteredMembership | src/views/InventoryList.js:49-59 | An item is shown exactly when it passes the search (the lower-cased query is inside the lower-cased name or category) and has the selected category, each test applying only when its filter is set. |
| InventoryList.SearchIgnoresQueryCase | src/views/InventoryList.js:50-53 | Queries that lower-case alike show the same list. |
| InventoryList.LowerCasedQuerySearchesAlike | src/views/InventoryList.js:50-53 | Searching for the lower-cased query shows what searching for the query shows. |
| InventoryList.DeleteRemovesExactlyId | src/views/InventoryList.js:68 | Deleting removes exactly the items with the id, keeps the others in order, and shortens the list by the number removed. |
| InventoryList.UniqueCategoriesSpec | src/views/InventoryList.js:33 | The category list has no duplicates, holds exactly the items' categories, and lists them in first-occurrence order. |
| InventoryList.InventoryListView.constructor | src/views/InventoryList.js:9-15 | The initial state is empty lists, empty filters and loading. |
| InventoryList.InventoryListView.FilterItems | src/views/InventoryList.js:45-62 | The shown list becomes the search step, then the category step, each applied only when set. |
| InventoryList.InventoryListView.FetchItems | src/views/InventoryList.js:25-43 | On success the items and unique categories are stored and the error is cleared. On failure they are kept and the error is set. Loading ends and the shown list is refiltered. |
| InventoryList.InventoryListView.HandleDelete | src/views/InventoryList.js:64-74 | A confirmed and successful delete drops the id's items. A failed one sets the error. An unconfirmed one changes neither the items nor the error, nor the shown list when that was up to date. The category list is never recomputed. |
| InventoryList.InventoryListView.HandleSearch | src/views/InventoryList.js:76-78 | Sets the query, changes nothing else, and refilters. |
| InventoryList.InventoryListView.HandleCategoryFilter | src/views/InventoryList.js:80-82 | Sets the category, changes nothing else, and refilters. |
| InventoryList.InventoryListView.ClearFilters | src/views/InventoryList.js:141-144 | Both filters become `''`, so every item is shown again. |
| InventoryTable.StockStatus | src/components/Inventory/InventoryTable.js:5-10 | Critical iff quantity ≤ 1, Low iff 1 < quantity ≤ 2, Medium iff 2 < quantity ≤ 5, Good iff quantity > 5. Exactly one applies. |
| InventoryTable.DiffDays | src/components/Inventory/InventoryTable.js:17-18 | The day count is the ceiling of the difference divided by 86,400,000. |
| InventoryTable.ExpiryStatus | src/components/Inventory/InventoryTable.js:12-23 | There is no badge exactly when there is no expiry date. |
| InventoryTable.ExpiredIff | src/components/Inventory/InventoryTable.js:17-20 | "Expired" exactly when the expiry lies at least a full day before now. |
| InventoryTable.WarningIff | src/components/Inventory/InventoryTable.js:21 | The warning badge with "<n> days" exactly when the day count is 0 to 3. |
| InventoryTable.SuccessIff | src/components/Inventory/InventoryTable.js:22 | The success badge with "<n> days" exactly when the day count is above 3. |
| InventoryTable.DaysText | src/components/Inventory/InventoryTable.js:21 | The day text ends in " days". |
| InventoryOverview.GroupByCategory | src/components/Recipe/InventoryOverview.js:5-11 | The buckets are keyed by exactly the categories present. Each bucket holds that category's items in inventory order. There are as many buckets as distinct categories. |
| InventoryOverview.Bucket | src/components/Recipe/InventoryOverview.js:5-11 | The definition of a category's bucket: its items, in inventory order. `GroupByCategory` is proved against it. |
| InventoryOverview.EmptyBucket | src/components/Recipe/InventoryOverview.js:6-7 | A category with no items has an empty bucket. |
| InventoryOverview.BucketSizesSum | src/components/Recipe/InventoryOverview.js:5-11 | The bucket sizes add up to the number of items. |
| InventoryOverview.ItemInItsBucketOnly | src/components/Recipe/InventoryOverview.js:5-11 | Every item is in its own category's bucket and in no other. |
| InventoryOverview.StockStatusColor | src/components/Recipe/InventoryOverview.js:13-17 | Danger iff quantity ≤ 1, warning iff 1 < quantity ≤ 2, success iff quantity > 2. There is no medium tier. |
| ItemForm.InitialForm | src/components/Inventory/ItemForm.js:10-16 | The initial unit is never empty. |
| ItemForm.TextOr | src/components/Inventory/ItemForm.js:11-15 | The definition of the `||` default on a text field: the given text when it is non-empty, otherwise the fallback. `InitialFormRoundTrip` and `InitialFormDefaultsReplace` state its meaning. |
| ItemForm.InitialFormRoundTrip | src/components/Inventory/ItemForm.js:10-16 | Building a form from a form's own data gives that form back when its unit is set and its quantity is not 0. |
| ItemForm.InitialFormDefaultsReplace | src/components/Inventory/ItemForm.js:12-13 | An empty unit comes back as 'pieces', and a quantity of 0 comes back blank. |
| ItemForm.InitialFormStable | src/components/Inventory/ItemForm.js:10-16 | Building a form from the data of a form that was itself built from `initialData` gives that form back: the defaults are never replaced a second time. |
| ItemForm.ApplyChange | src/components/Inventory/ItemForm.js:30-34 | The named field takes the new value, and every other field is unchanged. |
| ItemForm.ClearError | src/components/Inventory/ItemForm.js:37-42 | The edited field's error is blanked, and the other errors and the key set are unchanged. |
| ItemForm.ValidationErrors | src/components/Inventory/ItemForm.js:45-58 | The error map has exactly the keys of the failing checks, each with its fixed message. |
| ItemForm.NameMissing | src/components/Inventory/ItemForm.js:48 | The definition of the name check: every character of the name is white space. `TrimEmptyIff` ties it to `trim()`, and `ValidationErrors` and `ValidIff` state its effect. |
| ItemForm.QuantityInvalid | src/components/Inventory/ItemForm.js:52 | The definition of the quantity check: the quantity is blank or at most 0. `ValidationErrors` and `ValidIff` state its effect. |
| ItemForm.CategoryMissing | src/components/Inventory/ItemForm.js:56 | The definition of the category check: no category is chosen. `ValidationErrors` and `ValidIff` state its effect. |
| ItemForm.ValidIff | src/components/Inventory/ItemForm.js:45-61 | Validation passes exactly when the name is not all white space, the quantity is above 0 and a category is set. |
| ItemForm.ItemFormState.constructor | src/components/Inventory/ItemForm.js:10-18 | The form starts from the initial data, with no errors. |
| ItemForm.ItemFormState.HandleChange | src/components/Inventory/ItemForm.js:29-43 | Applies the field edit and blanks that field's error. |
| ItemForm.ItemFormState.ValidateForm | src/components/Inventory/ItemForm.js:45-62 | Stores the validation errors. The result is true exactly when they are empty. |
| ItemForm.ItemFormState.HandleSubmit | src/components/Inventory/ItemForm.js:64-73 | The form is submitted, with the numeric quantity, exactly when validation passes. |
| Home.DashboardStats | src/views/Home.js:24-40 | The total is the number of items. The category count is the size of the set of categories. The other counts are at most the total. |
| Home.LowStock | src/views/Home.js:26 | The definition of the low-stock test: quantity at most 2. |
| Home.ExpiresBy | src/views/Home.js:29-33 | The definition of the expiring test: an expiry date no later than the limit. An item without a date never passes. |
| Home.ThreeDaysFrom | src/views/Home.js:28 | The definition of the expiry limit: three days of milliseconds after `now`. `ExpiringSpec` states what the statistic counts with it. |
| Home.LowStockSpec | src/views/Home.js:26-38 | The low-stock statistic counts exactly the items with quantity ≤ 2. |
| Home.ExpiringSpec | src/views/Home.js:27-39 | The expiring statistic counts exactly the items with an expiry date no later than now + 3 days, past dates included. Items without a date never count. |
| Home.InsertKeepsOrder | src/views/Home.js:43 | Inserting into a newest-first list keeps it newest first. |
| Home.InsertPermutes | src/views/Home.js:43 | Inserting adds exactly the one item. |
| Home.Insert | src/views/Home.js:43 | Inserting makes the list one longer. Its order and contents are in `InsertKeepsOrder` and `InsertPermutes`. |
| Home.SortNewestFirst | src/views/Home.js:43 | The sort keeps the length. `SortSpec` and `SortStable` state its meaning. |
| Home.InsertInPlace | src/views/Home.js:43 | One insertion step on the array: the first i+1 cells become the sorted prefix with the i-th item inserted, and the cells after them are unchanged. |
| Home.SortSpec | src/views/Home.js:43 | The sort gives a newest-first permutation of the items. |
| Home.SortStable | src/views/Home.js:43 | Items with equal `createdAt` keep their original relative order. |
| Home.RecentAreNewest | src/views/Home.js:43-44 | The recent list has min(5, n) items drawn from the fetched ones, newest first. None of the items left out is newer than an item in it. |
| Home.Recent | src/views/Home.js:43-44 | The definition of the recent list: the first min(5, n) items of the sorted list. `RecentAreNewest` states its meaning. |
| Home.SortNewestFirstInPlace | src/views/Home.js:43 | The in-place insertion sort leaves the array holding the stable newest-first order of its old contents. |
| Home.Dashboard.constructor | src/views/Home.js:6-13 | The dashboard starts with zero statistics, no recent items, and loading. |
| Home.Dashboard.FetchDashboardData | src/views/Home.js:19-51 | On success the statistics are taken first, then the array is sorted in place and its first five items are kept. On failure the state is kept. Loading ends either way. |

## Left out

Interaction with the outside world:
- HTTP calls, routing, navigation and JSX markup. The service answers are parameters, and only the values the markup shows are modelled.
- Asynchrony and event ordering. Each handler runs to completion.
- In `handleOrderMissing`: the loading flag, `zeptoInfo`, `window.open` and `console.error`. Only the empty-list guard is modelled, as `RecipeCard.OrderRequest`.
- `window.confirm` and the outcome of the delete request. Both are parameters of `HandleDelete`.
- The clock. `new Date()` is the parameter `now`.

JSON and JavaScript values:
- The internals of `JSON.parse`. It is a parameter.
- Fractional JSON numbers, and numbers whose `String()` form is exponential (22 or more digits, from 1e21 on). `JsValue.Num` holds integers, and `JsString.IntToString` always writes plain decimal.
- A `null` suggestion. `parseRecipeData` would throw at `recipeData.name`, so `ParseRecipeData` requires a non-null suggestion.
- A normalised record that is `null` or `undefined`, for example a raw `undefined` or a `recipes` array starting with `null`. Rendering such a record throws, so the render functions require a record that is neither.
- JsString.NumericPositive: ECMA-262 lets an engine round a decimal string with more than 20 significant digits from a shortened digit string. The model rounds the exact value. The two can differ only for values right next to 2^-1075, the point below which a number becomes 0.
- Objects with a callable `valueOf` or `toString`. JSON cannot produce them, so `JsValue.GreaterThanZero` and `JsValue.ToStr` always take the inherited methods, except where an own key shadows one.
- When React renders an object value as a child, it throws. `Title` and `Subtitle` return the value to be rendered and do not model that failure.
- RecipeCard.RenderSection: each badge renders its list element as a child, so an array holding an object, such as `[{"name": "flour"}]`, throws in React. The model calls that `Badges` with the object among the items. A list that is the number 0 fails the guard with the value 0 itself, which React renders as the text "0". The model calls that `Hidden`.
- RecipeCard.FooterCount: the footer renders the length it returns as a child, so a truthy object list whose `length` is an object throws in React. The model returns that value without modelling the throw.

Rendering:
- RecipeCard.RecipeCardView: only the show-more flag is state. The cards are keyed by their index in the list, so a card that receives a new suggestion keeps its flag. `ReceiveProps` models that. Whether React reuses a card is not modelled.

Strings:
- Full Unicode `toLowerCase`. `JsString.Lower` lower-cases ASCII letters only.
- UTF-16. String lengths, and so the 150-character cut, count Dafny characters, not UTF-16 code units.

Dates and numbers:
- `new Date(...)` parsing, invalid dates (NaN comparisons), `toLocaleDateString` and `toISOString`. Dates are integer millisecond timestamps.
- IEEE floating point and `NaN`. Quantities are reals.
- Quantity text that is not a number. The model's quantity input is either blank or a number, so `"abc" <= 0` being false and `parseFloat` giving NaN are not modelled. `ItemForm.ItemFormState.HandleSubmit` passes that number on, which stands for `parseFloat(formData.quantity)`.
- ItemForm.InitialForm: treats only a quantity of 0 as falsy, because a numeric `initialData.quantity` cannot be `NaN` here.

Object keys:
- The order of `Object.entries` over the category buckets. The model states bucket membership and counts, not bucket order.
- Category names that are properties of `Object.prototype`, such as `constructor`, which make `acc[item.category]` truthy before any push. `GroupByCategory` treats every category name as a fresh key.
