# Module 1 assembly matcher, in Dafny

This project models the Module 1 matcher of the SAI quote-search tool. The
matcher takes the features of a switchgear request and decides which of the
ten standard assemblies it describes. A request is either a structured quote
(parsed JSON) or a line of free text typed into the chat. Given the features,
the matcher:

- filters the hard-coded specification table;
- reports an exact match, an ambiguous match or no match;
- ranks the closest assemblies when nothing passes;
- builds the bill of materials (BOM) of an exactly matched assembly from its
  spreadsheet rows.

Three computations of the quote-search page that sit on top of the matcher are
modelled too:

- the clean-up of the language model's JSON reply;
- the match percentage shown on the assembly selection panel;
- the CSV export of a BOM.

The modules follow the program:

| module | what it holds |
|---|---|
| `Optional` | the option type standing for Python's `None` |
| `Text` | the Python string operations the code relies on: `upper`/`lower`, `in`, `split()` tokens, `find`/`rfind`, `strip`, `replace`, `join`, `str(int)`/`int(str)` |
| `Catalog` | the ten specification records in declaration order, the spreadsheet rows per assembly, and the two dictionary lookups |
| `Breakers` | `_normalize_breaker_type` and `_breaker_compatible` |
| `Features` | `_normalize_dimension`, `extract_features_from_quote` and the feature parsing of `match_from_user_input`, including its regular expressions |
| `Matcher` | `_features_match`, `match_assembly`, `_find_closest_matches`, `generate_bom`, and the two entry points |
| `CatalogFacts` | theorems about the fixed table: which queries single out one assembly, which cannot, and what the ranking offers |
| `QuoteApp` | the JSON clean-up, the selection panel with its percentages, and the CSV export |

The matcher object never changes after loading. It is modelled as a value
holding the specification table and the spreadsheet rows, both read-only.
The loops of the page become methods proved against specification functions:

- the trailing-comma passes;
- the panel's button rows;
- the CSV writer.

A query copied from a record's own fields is not always an exact match.
Records `123456-0100-201` and `123456-0100-202` differ in no field the
matcher compares exactly; among the fields the matcher reads, they differ
only in the Emax model (2.2 against 6.2), and the breaker test compares families, not models. Each therefore
passes the other's self-query, and the answer is ambiguous
(`CatalogFacts.SelfQueryAmbiguous`). Every other record is singled out by
its own fields (`CatalogFacts.SelfQueryExact`).

## Model

| member | source | states |
|---|---|---|
| Catalog.Specs | Module1Matcher.py:48-151 | the specification table has exactly ten records |
| Catalog.SpecIdsDistinct | Module1Matcher.py:51-151 | the ten assembly numbers of the dictionary literal are pairwise different |
| Catalog.LookupSpec | Module1Matcher.py:435-436 | a specification lookup succeeds iff the number is in the table, and then yields that number's record; otherwise it is the KeyError |
| Catalog.LookupRows | Module1Matcher.py:425-431 | a spreadsheet lookup succeeds iff the number has rows, and then yields exactly those rows |
| Breakers.NormalizeBreakerType | Module1Matcher.py:260-279 | the result is empty iff the input is; on the upper-cased input the first matching test wins, in the order Emax 6.2 ("EMAX 6.2", "E6.2"), Emax 4.2, Emax 2.2, "TMAX", "SQUARE D", and gives that canonical name; with none of those literals the input comes back unchanged |
| Breakers.CanonicalIsFixed | Module1Matcher.py:260-279 | every canonical name normalises to itself |
| Breakers.NormalizeIdempotent | Module1Matcher.py:260-279 | normalising twice is normalising once |
| Breakers.BreakerCompatible | Module1Matcher.py:371-391 | equal names are compatible; different names are compatible only when both carry the token ABB or both carry SQUARE |
| Breakers.CompatibleReflexiveSymmetric | Module1Matcher.py:371-391 | the family test accepts a name against itself and does not depend on argument order |
| Breakers.CanonicalTokens | Module1Matcher.py:378-389 | which of the tokens ABB, EMAX, TMAX, SQUARE each upper-cased canonical name carries |
| Breakers.CompatibleIffSameFamily | Module1Matcher.py:371-391 | on canonical names the family test holds iff both are Emax, both Tmax, or both Square D |
| Text.FindChar | quote_search_app_with_module1.py:360 | `find` gives -1 iff the character is absent, otherwise the position of its first occurrence |
| Text.RFindChar | quote_search_app_with_module1.py:361 | `rfind` gives -1 iff the character is absent, otherwise the position of its last occurrence |
| Text.IntToStringRoundTrip | quote_search_app_with_module1.py:533 | a rendered integer parses back to itself |
| Features.FirstDigitRun | Module1Matcher.py:254-257 | the search finds nothing iff there is no digit; otherwise it gives the leftmost maximal run of digits |
| Features.NormalizeDimension | Module1Matcher.py:249-258 | a falsy value gives None; otherwise the leftmost run of digits of its string form, or None when it has none |
| Features.NumericDimension | Module1Matcher.py:249-258 | a non-zero JSON number reads back as its own decimal digits, with the sign of a negative number dropped |
| Features.SectionFeatures | Module1Matcher.py:209-230 | dimensions are normalised only from an object; a main breaker wins with quantity 1, otherwise the first listed breaker with the list length, otherwise no breaker; never access or mount |
| Features.AccessFromLower | Module1Matcher.py:236-239 | "Front and rear" iff "front and rear" or "rear access" occurs, whatever front phrase is present; None iff none of the four phrases occurs |
| Features.MountFromLower | Module1Matcher.py:242-245 | "Drawout" iff "drawout" or "draw-out" occurs, whether or not "fixed" does; None iff none of the three phrases occurs |
| Features.ExtractFromQuote | Module1Matcher.py:197-247 | without sections there are no dimensions, breaker or quantity; dimensions are digit strings; a quantity is at least 1, and a breaker type comes only with a quantity (a main breaker with a null type still gives quantity 1 and no type); access and mount are None or one of the two fixed values |
| Features.OnlyFirstSectionRead | Module1Matcher.py:210-213 | sections after the first never change the extracted features |
| Features.Search | Module1Matcher.py:521-531 | `re.search(...).group(1)`: None iff the pattern matches nowhere; otherwise the digits of the leftmost match, which take the whole run of digits |
| Features.MatchExtendsLeft | Module1Matcher.py:521-531 | a match that starts just after a digit also matches one position earlier, so the leftmost match begins a run of digits |
| Features.BreakerFromText | Module1Matcher.py:534-541 | the first literal found, in the order "EMAX 6.2", "EMAX 2.2", "TMAX", "SQUARE D", gives its canonical name; None iff none of the four occurs, so Emax 4.2 is never produced |
| Features.ExtractFromText | Module1Matcher.py:518-558 | free-text dimensions are digit strings; the breaker is canonical and never Emax 4.2; the quantity is non-negative; access and mount are None or one of the two fixed values |
| Features.AccessFromUpper | Module1Matcher.py:549-552 | "Front and rear" iff "FRONT AND REAR" or "REAR ACCESS" occurs, whatever front phrase is present; None iff none of the four phrases occurs |
| Features.MountFromUpper | Module1Matcher.py:555-558 | "Drawout" iff "DRAWOUT" or "DRAW-OUT" occurs, whether or not "FIXED" does; None iff none of the three phrases occurs |
| Features.QuantityNeedsKeyword | Module1Matcher.py:544-546 | a quantity is read only when digits stand before an optional X and a breaker keyword |
| Features.CaseInsensitiveContains | Module1Matcher.py:234-245 | looking for a lower-cased phrase in lower-cased text agrees with looking for the upper-cased phrase in upper-cased text |
| Features.AccessAgrees | Module1Matcher.py:233-240 | the quote path and the free-text path classify access identically for the same text |
| Features.MountAgrees | Module1Matcher.py:241-245 | the quote path and the free-text path classify mount identically for the same text |
| Matcher.Loaded | Module1Matcher.py:17-22 | given rows grouped under distinct assembly numbers, a loaded matcher holds the ten hard-coded records and those rows |
| Matcher.FeaturesMatch | Module1Matcher.py:333-369 | the empty query passes every record; a passing record equals every truthy dimension of the query |
| Matcher.AcceptedIndices | Module1Matcher.py:294-296 | the passing positions are increasing and in range, and a position is among them iff `_features_match` accepts its record |
| Matcher.AcceptedIdsStep | Module1Matcher.py:294-296 | scanning one more record appends its number exactly when it passes |
| Matcher.MatchMonotone | Module1Matcher.py:333-369 | a less specific query accepts every record a more specific one accepts |
| Matcher.EmptyQueryAcceptsAll | Module1Matcher.py:333-369 | a query with no truthy feature accepts every record |
| Matcher.NormalizedQuery | Module1Matcher.py:290-291 | only a truthy breaker is touched, and it becomes canonical or stays as it was |
| Matcher.NormalizedQueryIdempotent | Module1Matcher.py:290-291 | normalising an already normalised query changes nothing |
| Matcher.StatusFor | Module1Matcher.py:299-331 | never an error: exact iff one record passes, ambiguous iff more than one, no match iff none |
| Matcher.MatchAssembly | Module1Matcher.py:281-331 | the numbers are the passing records in table order; the status is exact, ambiguous or no match by their count; each message carries what the status says; a single match without rows raises its number |
| Matcher.ScoreOf | Module1Matcher.py:397-417 | the score is between 0 and 11, and it is 11 iff all three dimensions are equal and a compatible breaker is given |
| Matcher.SortDescending | Module1Matcher.py:419 | the ranking is in descending order of score |
| Matcher.SortByScore | Module1Matcher.py:419 | the ranking is a permutation of the scored records |
| Matcher.SortStable | Module1Matcher.py:419 | records with equal scores keep table order |
| Matcher.ClosestAreBest | Module1Matcher.py:393-421 | no record left out of the top `n` scores higher than a record in it |
| Matcher.TopTiesInTableOrder | Module1Matcher.py:393-421 | when nobody scores above `v`, the top `n` are the first `n` records scoring `v`, in table order |
| Matcher.TopTiesStable | Module1Matcher.py:419-421 | when no score exceeds `v`, the sorted ranking begins with the records scoring `v` in their original order |
| Matcher.FindClosestMatches | Module1Matcher.py:393-421 | returns the top `min(n, 10)` of the ranking, in descending order of score |
| Matcher.ComponentOf | Module1Matcher.py:441-447 | each component field is the row's value, or "" for an absent part number or description and 0 for an absent quantity or sequence |
| Matcher.GenerateBom | Module1Matcher.py:423-449 | an unknown number yields the not-found record listing every known number; otherwise number, project and specification of the record, and one component per spreadsheet row in order, with "" and 0 for absent columns |
| Matcher.Respond | Module1Matcher.py:474-498 | error iff the single passing record has no rows; otherwise the normalised features, status and numbers of the match; a BOM iff the match is exact, and it is the one `generate_bom` builds for the matched number |
| Matcher.BomOf | Module1Matcher.py:433-447 | the BOM of a known number carries the number, the record and its project, a part count equal to the number of rows, and the component of each row in row order |
| Matcher.MatchQuoteToAssembly | Module1Matcher.py:463-498 | the report of `match_quote_to_assembly` is the response to the features extracted from the quote |
| Matcher.MatchFromUserInput | Module1Matcher.py:501-585 | the report of `match_from_user_input` is the response to the features parsed from the text |
| CatalogFacts.SelfQuery | Module1Matcher.py:333-369 | a query copied from a record's own fields passes that record |
| CatalogFacts.SelfQueryNormalized | Module1Matcher.py:290-291 | every record's breaker is canonical, so normalisation leaves a self-query unchanged |
| CatalogFacts.EmptyQueryAmbiguous | Module1Matcher.py:294-317 | with no feature given all ten records pass in declaration order, and the status is ambiguous |
| CatalogFacts.EmptyQueryKeepsAll | Module1Matcher.py:294-296 | for any table, the empty query keeps every assembly number in table order |
| CatalogFacts.SelfQueryRejects | Module1Matcher.py:333-369 | a self-query rejects every record that differs in a dimension, in access, in mount or in a definite quantity |
| CatalogFacts.TablePlainlyDiffers | Module1Matcher.py:51-151 | every pair of records except 201 and 202 differs in one of those fields |
| CatalogFacts.SelfQueryExact | Module1Matcher.py:281-308 | a self-query of any record other than 201 and 202 passes that record alone |
| CatalogFacts.SelfQueryAmbiguous | Module1Matcher.py:82-101 | a self-query of 201 or of 202 passes both, so the status is ambiguous |
| CatalogFacts.FrontOnlyFixed62NoMatch | Module1Matcher.py:319-331 | 90 x 40 x 60 with an Emax 6.2, front access only and fixed mount passes no record |
| CatalogFacts.FullScore | Module1Matcher.py:397-417 | equal dimensions and a breaker of the same family earn the full 11 points |
| CatalogFacts.FrontOnlyFixed62Closest | Module1Matcher.py:319-331 | for that query the three closest offered are 101, 102 and 103 with 11 points each |
| QuoteApp.BraceSpan | quote_search_app_with_module1.py:360-363 | with a '{' before the last '}', the text from the first '{' through the last '}', starting with '{' and ending with '}'; otherwise the text unchanged |
| QuoteApp.BraceSpanIdempotent | quote_search_app_with_module1.py:360-363 | cutting out the span a second time changes nothing |
| QuoteApp.PassOnlyDeletesCommas | quote_search_app_with_module1.py:367 | one pass deletes commas and nothing else |
| QuoteApp.PassesOnlyDeleteCommas | quote_search_app_with_module1.py:366-367 | so does any number of passes |
| QuoteApp.PassesKeepBraces | quote_search_app_with_module1.py:366-367 | the passes keep the braces around a cut-out object |
| QuoteApp.NoTrailingCommaUnchanged | quote_search_app_with_module1.py:367 | text without a trailing comma passes through unchanged |
| QuoteApp.DropTrailingCommasPass | quote_search_app_with_module1.py:367 | the left-to-right scan computes one `re.sub` pass |
| QuoteApp.UnfencedIsClean | quote_search_app_with_module1.py:359 | for every reply, removing the fences left to right leaves no run of three backticks, and stripping leaves no whitespace at either end |
| QuoteApp.RemoveFences | quote_search_app_with_module1.py:359 | the cleaned reply is the reply with "```json" and then "```" removed, stripped; it holds no "```" and neither starts nor ends with whitespace |
| QuoteApp.CutBraceSpan | quote_search_app_with_module1.py:360-363 | computes the brace span of the text |
| QuoteApp.RepeatPasses | quote_search_app_with_module1.py:366-367 | computes `n` trailing-comma passes, which lose only commas |
| QuoteApp.CleanModelReply | quote_search_app_with_module1.py:358-367 | the clean-up is five passes over the brace span of the unfenced reply; it loses only commas, and keeps the braces when there is a span |
| QuoteApp.MatchPoints | quote_search_app_with_module1.py:415-433 | 0 to 4 points, 4 iff the three dimensions are equal and a given breaker name overlaps the record's; at most 3 without a breaker |
| QuoteApp.MatchPercent | quote_search_app_with_module1.py:415-435 | the percentage is 25 per point, so 0, 25, 50, 75 or 100, and at most 75 without a breaker |
| QuoteApp.CanonicalOverlapIsEquality | quote_search_app_with_module1.py:423-424 | on canonical names the panel's breaker point is plain equality, unlike the matcher's family test |
| QuoteApp.BreakerLabelAsWritten | quote_search_app_with_module1.py:395-396 | the breaker metric as written raises iff no breaker was extracted; otherwise it agrees with the corrected metric |
| QuoteApp.BreakerLabel | quote_search_app_with_module1.py:395-396 | at most 20 characters: "Not specified" without a breaker, otherwise the first 20 characters of the name |
| QuoteApp.SwitchboardHasNoFeatures | Module1Matcher.py:518-558 | the text "switchboard" yields no feature at all |
| QuoteApp.SwitchboardBreaksPanel | quote_search_app_with_module1.py:384-396 | typing "switchboard" shows the panel with no breaker, where the metric as written raises |
| QuoteApp.SelectionPanel | quote_search_app_with_module1.py:384-435 | not shown: no buttons; shown: at most nine buttons for the first numbers in order, each with its percentage, and the corrected breaker metric; a KeyError exactly when a listed number has no record |
| QuoteApp.PanelOnlyForAmbiguous | quote_search_app_with_module1.py:384 | for a matcher report the panel appears iff the match is ambiguous, and every listed number has a record |
| QuoteApp.SanitizePart | quote_search_app_with_module1.py:530 | a part number keeps its length; each comma becomes ';' and every other character is kept, so no comma remains |
| QuoteApp.SanitizeDescription | quote_search_app_with_module1.py:531 | a description keeps its length; each comma becomes ';', each newline a space, and every other character is kept, so neither remains |
| QuoteApp.NumberedLines | quote_search_app_with_module1.py:527-533 | the header, then item `k` on line `k + 1`, numbered from 1 |
| QuoteApp.WriteNumberedLines | quote_search_app_with_module1.py:526-533 | the writer produces those lines, each followed by a newline |
| QuoteApp.ExportCsv | quote_search_app_with_module1.py:526-533 | the export is the CSV text of the components |
| QuoteApp.SplitJoin | quote_search_app_with_module1.py:533 | splitting a join at its separator gives back the parts when no part contains it |
| QuoteApp.SplitTerminated | quote_search_app_with_module1.py:526-533 | splitting newline-terminated lines at newlines gives back the lines and a final empty string |
| QuoteApp.RowRoundTrip | quote_search_app_with_module1.py:529-533 | split at commas, a row gives back its four fields, and item number and quantity parse back |
| QuoteApp.CsvRoundTrip | quote_search_app_with_module1.py:526-533 | split at newlines, the export gives the header, one line per component that reads back as its row, and a final empty string |

## Left out

- `load_data` and `_infer_specs_from_components`: reading the Excel sheet is I/O. The spreadsheet rows are a parameter of the matcher, and the inferred specifications are never consulted by the matcher.
- `get_matcher`: the process-wide singleton is I/O and caching. The matcher is passed explicitly.
- The language-model call, `json.loads`, the Streamlit widgets, logging, message wording and emoji are left out. Messages are modelled by their content: the numbers, project, part count and closest scores.
- A dimension value that is neither null, a string nor an integer (a float, a list) is not modelled. A `dimensions` value that is not an object is modelled as giving None.
- Case mapping and digits are the ASCII subset of Python's Unicode rules. Whitespace is the full `str.isspace` set.
- Matcher.MatchAssembly: the caller's feature dict is updated in place. The model returns the normalised record instead of mutating shared state.
- Features.ExtractFromQuote: `str()` of a requirement is taken as given, as a string.
- Matcher.MatchQuoteToAssembly: the typed quote cannot express JSON that breaks the code: a first section that is not an object, a truthy main breaker or first listed breaker that is not an object, or a truthy breaker type that is not a string. On those the source raises inside `match_quote_to_assembly` and its catch-all reports an error; the model covers only the KeyError path of that catch-all. Further shapes the typed quote cannot express: a top-level quote that is not an object fails at `quote_json.get` (Module1Matcher.py:210); a truthy `sections`, or a truthy `breakers` read when there is no main breaker, that is an object raises KeyError 0 (Module1Matcher.py:213, 229) and one that is a string raises AttributeError on its first character; a null `special_construction_requirements` raises TypeError (Module1Matcher.py:234). Each of these is reported as an error.
- Matcher.MatchQuoteToAssembly: a `special_construction_requirements` that is a string is silently mis-read. The join at Module1Matcher.py:234 iterates it character by character ("fixed" becomes "f i x e d"), so no access or mount phrase is ever found and both stay None. An object there is likewise read as its keys. The model takes the requirements as a list of strings and does not capture either.
- QuoteApp.SelectionPanel: the height, width and depth metrics are not modelled; they render `None` as the text "None".
- Pandas NaN and cell types are not modelled: an absent spreadsheet column is None and falls back to the `get` default.
- QuoteApp.CsvRoundTrip: requires part numbers without a newline, because the export replaces newlines only in descriptions.
- QuoteApp.CleanModelReply: six or more trailing commas in a row survive the five passes. The model states exactly what five passes do rather than "no trailing comma remains".
- `top_n` of `_find_closest_matches` is a natural number; a negative slice bound is not modelled.

## Findings

| source | as written | input that shows it | evidently intended | confidence | as-written member | corrected member |
|---|---|---|---|---|---|---|
| quote_search_app_with_module1.py:395-396 | the extracted features always hold the key `breaker_type`, so `get(..., 'Not specified')` returns the stored None, and `len(None)` raises a TypeError whenever the panel is shown for a request naming no breaker | the chat text "switchboard": no feature is extracted, all ten records pass, the match is ambiguous, and the panel is shown | show "Not specified" when no breaker was extracted | not executed | QuoteApp.BreakerLabelAsWritten, QuoteApp.SwitchboardBreaksPanel | QuoteApp.BreakerLabel |
