# basil2yaml recipe conversion, modelled in Dafny

basil2yaml converts recipes exported by the Basil app (keyed archives that
decode to a dictionary of strings, integers, blobs and lists of nested
dictionaries) into YAML records. It also merges previously converted YAML
files into one list. This project models the conversion core of
`Sources/basil2yaml/main.swift` and proves properties of it:

- the field extractors: `clean`/`extractName`, `extractIngredients`,
  `extractDirections`, `extractSourceURL`, `extractSourceName`,
  `extractServings`, `extractTime` with `secondsToTimeString`,
  `extractFavorite`, `extractImages` and `extractNotes`;
- `convertRecipe`, which assembles the output record;
- the repair-and-append loop of the `combine` command.

Modules, one file each:

- `Wrappers` (`wrappers.dfy`): `Option` and `Result`.
- `ObjectGraph` (`object_graph.dfy`): the decoded archive as a `Value` tree.
  It has the `as?` accessors (`GetString`, `GetInt`, `GetBlob`, `GetList`)
  and `Trap`, the forced cast (`as!`) that stops the program.
- `Text` (`text.dfy`): trimming for `clean`, Swift's decimal rendering of an
  `Int` in string interpolation, and `joined(separator:)` with the split that
  undoes it.
- `Ordering` (`ordering.dfy`): `sorted(by:)` on `displayOrder`, as an
  insertion sort. Its results are proved sorted and a permutation of the
  input, and unique when the orders are distinct.
- `Extractors` (`extractors.dfy`): the pure extractors, and
  `secondsToTimeString` as the method with reassigned variables that it is.
- `Directions` (`directions.dfy`): `extractDirections`. Its `map` closure
  updates the captured `startOrder`, so it is a method with a loop. The loop
  is proved against a recursive specification `NumberFrom`, and that
  specification is proved equal to a closed form: each entry is numbered from
  the last header before it.
- `Recipe` (`recipe.dfy`): `convertRecipe` as a method that inserts key by
  key, proved against `RecipeOf`. Lemmas state which keys the finished record
  holds and what it holds under each.
- `Combine` (`combine.dfy`): the `combine` loop as a method, proved against
  `KeptOf`, with lemmas about repairs, skipping, order and failure.

How failures are modelled:

- Each forced cast is an explicit `Err(ForcedCast(key))` where the program
  would stop.
- Foundation's URL parser and `Data(contentsOf:)` are the two parameters of
  `Env`.
- The YAML codec appears only through what it produces: each input of
  `combine` arrives already loaded, or as a load error. Whether a record
  re-encodes is the parameter `dumps`.

Behaviour that may be unexpected, kept as `main.swift` has it:

- Directions are numbered `order - startOrder + 1`, so gaps in `displayOrder`
  are kept. Orders 5, 6 and 10 without a header become 6, 7 and 11, not 1, 2
  and 3 (`GapsAreNotCompacted`).
- A failed forced cast on the ingredient or direction list stops the program
  (`Trap`). The file is not skipped while the others continue.
- An image entry whose URL fetch fails is dropped, and the next entry in
  order can still supply the photo. Resolution does not stop at that entry.
- In `combine`:
  - a file that cannot be read, or that the YAML parser rejects, ends the
    command (`try`);
  - a document without `ingredients` or `directions` stops it at the forced
    unwrap;
  - only documents that are not a mapping, and records that do not
    re-encode, are skipped.

## Model

| member | source | states |
|---|---|---|
| ObjectGraph.GetString | Sources/basil2yaml/main.swift:53 | `as? String` succeeds exactly when the key is present with a string, and gives that string |
| ObjectGraph.GetInt | Sources/basil2yaml/main.swift:75 | `as? Int` succeeds exactly when the key is present with an Int, and gives that Int |
| ObjectGraph.GetBlob | Sources/basil2yaml/main.swift:115 | `as? Data` succeeds exactly when the key is present with a blob, and gives those bytes |
| ObjectGraph.GetList | Sources/basil2yaml/main.swift:106 | `as? [[String:Any]]` succeeds exactly when the key is present with a list of dictionaries, and gives that list |
| Text.TrimStart | Sources/basil2yaml/main.swift:15 | the result is a suffix of the input, everything dropped is whitespace, and the result does not start with whitespace |
| Text.TrimEnd | Sources/basil2yaml/main.swift:15 | the result is a prefix of the input, everything dropped is whitespace, and the result does not end with whitespace |
| Text.Clean | Sources/basil2yaml/main.swift:14-16 | `clean` neither starts nor ends with whitespace, and the input is the result with only whitespace before and after it |
| Text.CleanRecovers | Sources/basil2yaml/main.swift:14-16 | any trimmed text surrounded by any whitespace is cleaned back to exactly that text, so the decomposition in Clean's contract is unique |
| Text.CleanIdempotent | Sources/basil2yaml/main.swift:14-16 | cleaning a cleaned text changes nothing |
| Text.DigitChar | Sources/basil2yaml/main.swift:91 | the digit character for d is a decimal digit denoting d |
| Text.Digits | Sources/basil2yaml/main.swift:91 | the decimal digits of a natural number are non-empty, all digits, and start with '0' only for 0 (no leading zeros) |
| Text.DigitsRoundTrip | Sources/basil2yaml/main.swift:91 | the digits of n denote n |
| Text.DecimalString | Sources/basil2yaml/main.swift:91-93 | an interpolated Int is non-empty and has no space; it is all digits exactly when the number is not negative; it has no leading zero, and a negative one is a minus sign followed by a nonzero digit |
| Text.DecimalRoundTrip | Sources/basil2yaml/main.swift:91-93 | reading an interpolated Int back gives the Int: the rendering loses nothing |
| Text.Join | Sources/basil2yaml/main.swift:30 | `joined(separator:)` (also at line 49): no pieces give the empty text, and otherwise the text starts with the first piece; SplitJoinRoundTrip and JoinSplitRoundTrip pin it down for line 30's one-character separator, and JoinAppend states it for any separator string, such as line 49's "\n\n" |
| Text.JoinAppend | Sources/basil2yaml/main.swift:49 | for any separator string, joining one more piece appends the separator and that piece |
| Text.SplitOn | Sources/basil2yaml/main.swift:30 | splitting on a character gives at least one piece, and no piece contains that character |
| Text.SplitJoinRoundTrip | Sources/basil2yaml/main.swift:30 | joining pieces with a one-character separator and splitting on it gives the pieces back, when no piece contains the separator |
| Text.JoinSplitRoundTrip | Sources/basil2yaml/main.swift:30 | splitting a text on a character and joining the pieces with it gives the text back |
| Ordering.Orderable | Sources/basil2yaml/main.swift:25 | the comparator's forced casts (also at lines 37 and 112) all succeed exactly when the list has fewer than two entries or every entry holds an Int `displayOrder` |
| Ordering.Insert | Sources/basil2yaml/main.swift:24-26 | inserting into a sorted list gives a sorted list holding the old entries plus the new one, one entry longer, whose head is the new entry or the old head |
| Ordering.SortByOrder | Sources/basil2yaml/main.swift:24-26 | the sorted entries are in ascending displayOrder and are a permutation of the input |
| Ordering.DistinctOrdersPermuted | Sources/basil2yaml/main.swift:24-26 | distinct display orders stay distinct under any permutation |
| Ordering.SortedArrangementUnique | Sources/basil2yaml/main.swift:24-26 | two sorted arrangements of the same entries with distinct orders are equal |
| Ordering.SortIgnoresInputOrder | Sources/basil2yaml/main.swift:24-26 | with distinct display orders, the sorted list does not depend on the order in which the archive lists the entries |
| Ordering.SortKeepsOrderable | Sources/basil2yaml/main.swift:24-25 | sorting keeps the number of entries and keeps every comparator cast valid |
| Extractors.ExtractName | Sources/basil2yaml/main.swift:18-20 | traps on the `name` cast exactly when `name` is not a string; otherwise the result is the cleaned name |
| Extractors.WithText | Sources/basil2yaml/main.swift:27-29 | keeping the entries with text never adds entries |
| Extractors.WithTextCounts | Sources/basil2yaml/main.swift:27-29 | every entry with a string text is kept as many times as it occurs, and every other entry is dropped |
| Extractors.WithTextMembers | Sources/basil2yaml/main.swift:27-29 | the kept entries are exactly the input entries that have a string text |
| Extractors.TextsOf | Sources/basil2yaml/main.swift:27-29 | the `flatMap` gives one text per kept entry, in order, and each is that entry's text |
| Extractors.ExtractIngredients | Sources/basil2yaml/main.swift:22-31 | traps exactly when `Ingredient` is not a list of dictionaries or a comparator cast of `displayOrder` fails |
| Extractors.WithTextSorted | Sources/basil2yaml/main.swift:22-31 | dropping the textless entries from a sorted list keeps it sorted |
| Extractors.WithTextInsert | Sources/basil2yaml/main.swift:24-29 | dropping the textless entries commutes with inserting one entry into a sorted list |
| Extractors.WithTextCommutesWithSort | Sources/basil2yaml/main.swift:24-29 | dropping the textless entries before or after sorting gives the same list |
| Extractors.TextsOfOnlyText | Sources/basil2yaml/main.swift:27-29 | the texts of the entries with text are the texts of all entries |
| Extractors.TextlessIngredientsIgnored | Sources/basil2yaml/main.swift:22-31 | entries without text contribute nothing: removing them leaves the joined ingredients unchanged (no empty lines) |
| Extractors.IngredientLines | Sources/basil2yaml/main.swift:22-31 | the lines of the ingredients text are the texts of the entries that have one, one line each, in ascending displayOrder |
| Extractors.ExtractSourceUrl | Sources/basil2yaml/main.swift:52-57 | when `source` is a string the result is exactly what the URL parser gives for it, and when it is not there is no URL; a URL therefore comes only from a string `source` |
| Extractors.ExtractSourceName | Sources/basil2yaml/main.swift:59-68 | there is no name exactly when the URL has no host; the name is a suffix of the host, the host is "www." plus the name exactly when the host starts with "www.", and otherwise the name is the host |
| Extractors.SourceNameStripsOnce | Sources/basil2yaml/main.swift:63-66 | only one "www." is removed: "www.www.x" gives "www.x" |
| Extractors.ExtractServings | Sources/basil2yaml/main.swift:70-72 | servings exist exactly when `servings` is a string, and are that string |
| Extractors.ExtractNotes | Sources/basil2yaml/main.swift:137-139 | notes exist exactly when `notes` is a string, and are that string |
| Extractors.ExtractTime | Sources/basil2yaml/main.swift:74-83 | a time exists exactly when `time` is an Int other than 0, and is that Int unchanged |
| Extractors.TruncDiv | Sources/basil2yaml/main.swift:87-89 | Swift's Int division rounds toward zero: the remainder `a - q * b` is in [0, b) for a non-negative dividend and in (-b, 0] for a negative one |
| Extractors.SecondsToTimeString | Sources/basil2yaml/main.swift:85-96 | the method, which reassigns `seconds` and `text`, returns the time text `TimeString` of its input |
| Extractors.TimeTextParses | Sources/basil2yaml/main.swift:91-95 | the text "<h> hr <m> min" (hour part only when h > 0) reads back as h hours and m minutes |
| Extractors.TimeStringNonNegative | Sources/basil2yaml/main.swift:87-89 | for non-negative seconds the text is built from whole hours and minutes under 60, which together are the seconds rounded down to a whole minute |
| Extractors.TimeStringRoundTrip | Sources/basil2yaml/main.swift:85-96 | for non-negative seconds, reading the time text back gives the seconds rounded down to a whole minute: the text loses only the leftover seconds |
| Extractors.TimeStringExamples | Sources/basil2yaml/main.swift:85-96 | 90 seconds give "1 min" and 3661 give "1 hr 1 min" |
| Extractors.TimeStringTruncates | Sources/basil2yaml/main.swift:85-96 | 59 seconds give "0 min" and 7200 give "2 hr 0 min" |
| Extractors.ExtractFavorite | Sources/basil2yaml/main.swift:98-103 | true exactly when `favorite` is an Int other than 0 |
| Extractors.ResolveImage | Sources/basil2yaml/main.swift:114-134 | precedence per entry: the `Data` blob; else, with a `url` string, whatever parsing and fetching it gives (a failure drops the entry and does not fall back to the thumbnail); else the `thumbnail` blob |
| Extractors.ResolvedImages | Sources/basil2yaml/main.swift:114-134 | the `flatMap` keeps at most one image per entry |
| Extractors.ExtractImages | Sources/basil2yaml/main.swift:105-135 | no list when `Image` is not a list of dictionaries; a trap exactly when it is one and a comparator cast fails |
| Extractors.FirstResolvedImage | Sources/basil2yaml/main.swift:114-134 | the first resolved image is that of the first entry, in order, that resolves |
| Extractors.NoImageResolved | Sources/basil2yaml/main.swift:114-134 | no image is resolved exactly when no entry resolves |
| Directions.ExtractDirections | Sources/basil2yaml/main.swift:33-50 | the method returns DirectionsOf: the casts of the list and of the sort, the numbering scan over the sorted entries, and the join by a blank line |
| Directions.NumberEntries | Sources/basil2yaml/main.swift:34-48 | the loop carrying `startOrder` from 0 gives the recursive scan NumberFrom, stopping at the first entry whose order or text cast fails |
| Directions.RenderEntry | Sources/basil2yaml/main.swift:40-47 | a header is returned as it is and moves `startOrder` to one past its order; any other text is numbered `order - startOrder + 1` |
| Directions.IsHeader | Sources/basil2yaml/main.swift:42 | `hasSuffix(":")`: the text's last one-character slice is ":" |
| Directions.NumberFromPieces | Sources/basil2yaml/main.swift:39-48 | the scan succeeds exactly when every entry has an Int order and a string text; it then gives one piece per entry, a header verbatim and any other text numbered from the last header before it |
| Directions.DirectionsSucceed | Sources/basil2yaml/main.swift:35-41 | extractDirections succeeds exactly when `Direction` is a list whose every entry has an Int order and a string text |
| Directions.DirectionsPieces | Sources/basil2yaml/main.swift:33-50 | the result is one piece per entry in ascending order, joined by "\n\n", each numbered from the last header before it |
| Directions.NoHeaderNoReset | Sources/basil2yaml/main.swift:34 | with no header before an entry, its count starts at 0, so it is numbered order + 1 |
| Directions.HeaderResets | Sources/basil2yaml/main.swift:42-44 | after a header, and until the next one, entries are counted from one past the header's order |
| Directions.GapsAreNotCompacted | Sources/basil2yaml/main.swift:39-48 | orders 5, 6 and 10 without a header are numbered 6, 7 and 11 |
| Directions.SectionsRestartAtOne | Sources/basil2yaml/main.swift:39-48 | for the list Dough:, Mix, Knead, Sauce:, Stir at orders 0 to 4, where the entry after each header has the order one past the header's, the numbering restarts at 1 after each header: "Dough:", "1. Mix", "2. Knead", "Sauce:", "1. Stir" |
| Recipe.Put | Sources/basil2yaml/main.swift:158-160 | `if let` insertion: the key is present afterwards exactly when it was before or a value was given, and then holds the value; without a value the record is unchanged |
| Recipe.PutFrame | Sources/basil2yaml/main.swift:158-160 | every other key is present after a `Put` exactly when it was before, with the same value |
| Recipe.RecordOf | Sources/basil2yaml/main.swift:145-182 | the finished record holds a key exactly when it receives a value, holds that value, and holds no other key |
| Recipe.UptoFields | Sources/basil2yaml/main.swift:145-180 | after the first n insertion steps, exactly the keys written by one of them are present, with their values |
| Recipe.Start | Sources/basil2yaml/main.swift:145-149 | the dictionary literal is the first three steps: name, ingredients, directions |
| Recipe.OptionalSteps | Sources/basil2yaml/main.swift:151-180 | the remaining steps are the optional insertions in the order of the source |
| Recipe.PhotoOf | Sources/basil2yaml/main.swift:170-176 | with images excluded the photo is absent and nothing traps; a trap comes only from the image list's sort, with images not excluded |
| Recipe.PhotoChoice | Sources/basil2yaml/main.swift:170-176 | with images excluded there is no photo and no trap; otherwise the photo traps exactly when extractImages does, and is the first image of a non-empty list |
| Recipe.PhotoIsFirstResolvable | Sources/basil2yaml/main.swift:170-176 | the photo is the image of the first entry, in displayOrder, that resolves |
| Recipe.NoPhotoWithoutImage | Sources/basil2yaml/main.swift:170-176 | no photo when no image entry resolves |
| Recipe.ConvertRecipe | Sources/basil2yaml/main.swift:141-183 | the method returns RecipeOf: the record built from the extractors, or the first forced cast that fails |
| Recipe.InsertOptionalFields | Sources/basil2yaml/main.swift:151-180 | starting from the literal, the insertions give the full record, or the image sort's trap |
| Recipe.InsertText | Sources/basil2yaml/main.swift:178-180 | a text value is inserted under its key when present; the record is unchanged otherwise |
| Recipe.InsertSource | Sources/basil2yaml/main.swift:151-156 | `source_url` when the source parses, and `source` only inside that branch, when the URL has a host |
| Recipe.InsertTime | Sources/basil2yaml/main.swift:162-164 | `total_time` is the time text of the extracted time, when there is one |
| Recipe.InsertPhoto | Sources/basil2yaml/main.swift:170-176 | the photo step: nothing is read with images excluded; otherwise the first image, if any, or the sort's trap |
| Recipe.RecipeTraps | Sources/basil2yaml/main.swift:145-176 | convertRecipe traps exactly when the name, ingredients, directions or (images not excluded) image casts fail, and with the first failing one in that order |
| Recipe.RecipeContents | Sources/basil2yaml/main.swift:141-183 | a returned record is the record of the contents the extractors give |
| Recipe.RequiredFieldsWritten | Sources/basil2yaml/main.swift:145-149 | name, ingredients and directions are always written; the name is the cleaned raw name |
| Recipe.SourceFieldsWritten | Sources/basil2yaml/main.swift:151-156 | `source_url` is written exactly when the source parses; `source` only with it, exactly when the URL has a host, and holds the host without "www." |
| Recipe.PassThroughFieldsWritten | Sources/basil2yaml/main.swift:158-160 | `servings` and `notes` are written exactly when present as strings, unchanged |
| Recipe.TimeAndFavoriteWritten | Sources/basil2yaml/main.swift:162-168 | `total_time` is written exactly for a nonzero Int time, as its time text; `on_favorites` exactly for a nonzero Int favorite, and always as "yes" |
| Recipe.PhotoWritten | Sources/basil2yaml/main.swift:170-176 | `photo` is written exactly when images are not excluded and the image list is non-empty, and is its first element |
| Recipe.KeyNamesDistinct | Sources/basil2yaml/main.swift:145-180 | the ten keys have distinct names, so no insertion overwrites another field |
| Combine.CombineRecipes | Sources/basil2yaml/main.swift:233-257 | the loop gives KeptOf: the repaired records that re-encode, in input order, or the first failure |
| Combine.StopsAt | Sources/basil2yaml/main.swift:237-238 | a failure at one file is the failure of the whole command |
| Combine.RepairField | Sources/basil2yaml/main.swift:239-246 | one repair keeps the keys, leaves the field not null, changes nothing when it was not null, and leaves every other key's value alone |
| Combine.Repaired | Sources/basil2yaml/main.swift:239-246 | the repairs succeed exactly when both keys are present; a failure names `ingredients` when it is missing and `directions` otherwise; the result has the same keys, neither field null |
| Combine.Contribution | Sources/basil2yaml/main.swift:237-256 | a failure names the file, and a file that cannot be loaded fails; a contributed record re-encodes and is the repaired mapping of the file; for a mapping, a missing key is the file's failure, and the repaired record is contributed exactly when it re-encodes; a document that is not a mapping contributes nothing |
| Combine.RepairedFields | Sources/basil2yaml/main.swift:239-246 | repair succeeds exactly when both keys are present; it keeps every key, turns a null ingredients or directions into "", and leaves every other value unchanged |
| Combine.RepairIdempotent | Sources/basil2yaml/main.swift:239-246 | repairing a repaired record changes nothing |
| Combine.KeptOfAppend | Sources/basil2yaml/main.swift:233-257 | the result for two runs of files is the two results joined, or the first failure |
| Combine.KeptOfOne | Sources/basil2yaml/main.swift:238-256 | one file contributes a failure, nothing, or its repaired record |
| Combine.SkippedFileIgnored | Sources/basil2yaml/main.swift:254-256 | a file that contributes nothing can be removed without changing the result or the order of the others |
| Combine.RepairedRecordsKept | Sources/basil2yaml/main.swift:237-249 | when the command succeeds, the repaired record of every mapping file that re-encodes is in the list |
| Combine.KeptRecordsRepaired | Sources/basil2yaml/main.swift:239-249 | every record kept has non-null ingredients and directions and re-encodes |
| Combine.KeptOfFails | Sources/basil2yaml/main.swift:237-239 | the command fails exactly when some file fails, and then with the failure of the first such file |

## Left out

- Reading a `.recipe` file and decoding it with `NSKeyedUnarchiver` (main.swift:142-143, 187). These are file I/O and a foreign decoder. The model starts from the decoded dictionary.
- `URL(string:)` and `Data(contentsOf:)` (main.swift:56, 119-124). These are Foundation's parser and network I/O, passed in as the functions of `Env`. The stderr message before a fetch is not modelled.
- Yams `load` and `dump` (main.swift:207, 211, 238, 248, 259). These are an external YAML codec. Loading is replaced by already loaded inputs. Whether a record re-encodes is the parameter `dumps`. The record written by `convertRecipe` is a map from keys to fields. The YAML text is not modelled.
- The Commander wiring (main.swift:185-224), including the `dump` command, the per-file `convert` loop, the output file names, and `convert --combine` (main.swift:200-207). The last is a loop that calls `convertRecipe` and stops at the first error. These are CLI plumbing and file writes.
- The final dump and write of the combined list (main.swift:258-260). This is file I/O through the YAML codec.
- Logging to stderr and `debugPrint` (main.swift:5-12, 118, 129, 203, 235, 240, 244, 251-252, 255). These are output only.
- `CharacterSet.whitespacesAndNewlines` (main.swift:15). Whitespace is the ASCII blanks and line breaks, NEXT LINE and NO-BREAK SPACE, not the full Unicode class.
- Swift's 64-bit `Int` overflow traps (`order + 1` and `order - startOrder + 1` at main.swift:43 and 46). Integers are unbounded.
- Swift `String` comparison works on grapheme clusters, the model's strings are sequences of Unicode scalars. `hasSuffix(":")` (main.swift:42) and `starts(with: "www.")` (main.swift:63) can differ from the model's scalar comparison in rare cases, such as a Prepend-class scalar before the final ':'.
- The archive's lists hold only dictionaries and its numbers only integers. A list holding a non-dictionary, which traps the `as! [[String:Any]]` cast (main.swift:23, 35), and a non-integral `NSNumber` under `as? Int` (main.swift:75, 99) or the comparator's `as! Int` (main.swift:25, 37, 112) cannot be expressed.
- A YAML mapping with a key that is not a string fails `as? [String:Any]` and is skipped (main.swift:238). The model's mappings have string keys only, so that case cannot be expressed.
- Foundation's bridging of numbers: an `NSNumber` holding a Bool also casts to `Int`. In the model only `Int` values cast to `Int`.
- Swift's `sorted(by:)` is not guaranteed stable. The model's insertion sort fixes one order for equal keys, so entries with equal `displayOrder` may come out in another relative order than the program's. `SortIgnoresInputOrder` shows that the order is fully determined when the orders are distinct.
- The comparator's forced casts are modelled as one check over the whole list: every entry must have an `Int` `displayOrder` once there are two or more entries. Which pairs the sort compares is not modelled.
- `extractImages` resolves, and so fetches, every entry before `convertRecipe` takes the first image (main.swift:114-134, 171-173). The model computes the same list and photo. The number of fetches is not modelled.
- IngredientLines: states the line structure only when no ingredient text contains a line break and at least one entry has text. Otherwise splitting the joined text cannot recover the entries; the joined text itself is still `ExtractIngredients`.
- TimeStringRoundTrip: stated for non-negative seconds only. For negative seconds `TimeString` follows Swift's truncating division through `TruncDiv`, and `TimeStringNonNegative` does not apply.
- SortIgnoresInputOrder: stated for distinct display orders only, because with equal orders the program's unstable sort decides the order.
