# GHCN-Daily station finder: a Dafny model of its query engine

The GHCN-Daily downloader is a tkinter desktop application. A user searches a fixed
catalog of weather stations by description, country/state code, coordinates and
elevation, sorts the matches and downloads one station's archive. This project
models the part of the application that decides what a search means:

- the search form read into typed criteria (`Query.Normalize`). A blank or `"-"`
  coordinate is absent, never zero. A lone state character is cleared and a code is
  upper-cased. The second corner is read only with the bounding-box toggle on.
- the criteria turned into a list of filter clauses (`Query.Clause`) and the
  argument list `search` builds for their `?` placeholders. The SQL text the source
  concatenates is modelled too, along with its dangling `AND`.
- the evaluation of the clauses over the catalog (`Query.Select`). `IN_BBOX` is an
  inclusive rectangle test. `REGEXP` is a function parameter, with a
  case-insensitive substring matcher as one instance.
- `query_ready`, the gate that enables the "Submit Query" button (`Gate.QueryReady`).
- `resort_results`: the sort by the chosen attribute, reversed for direction 1, and
  the results label and listbox lines (`Results`).
- the key-stroke validators of the form, and the "N/A" rule of the station
  information dialog (`Validation`, `Catalog.ElevationLine`).
- the download address and the saved file name (`Download`).
- the application object (`Finder.App`), whose methods update the form, the button
  state and the results as the source's handlers do.

Python's `int()`, `str()`, `str.upper()`, `str.isupper()` and string `<` are
written out in `Text`, as far as the form's entries need them.

Modules follow the program: `Catalog` (the station record), `Text`, `Validation`
(`_build.py` validators), `Query` (`search`), `Gate` (`query_ready`), `Results`
(`resort_results`), `Download` (`download`) and `Finder` (the application object).

## Model

| member | source | states |
|---|---|---|
| `Catalog.ElevationLine` | _unpacked/_build.py:721-725 | The elevation line reads "Elevation: N/A" exactly when the elevation is -999 or below; otherwise it starts with the metres text. |
| `Text.ParseInt` | _unpacked/_build.py:341-343 | `int()` gives a value only for text holding at least one digit; `int("")` fails. |
| `Text.StrLe` | _unpacked/__main__.py:312-322 | Python's string `<=`: a string is at most every string it is a prefix of, itself included. |
| `Text.ParseIntText` | _unpacked/_build.py:343 | `int()` reads back every integer that `str()` writes. |
| `Text.ParseSingleChar` | _unpacked/_build.py:342-343 | A one-character text is an integer for `int()` exactly when it is a digit, and its value is that digit. |
| `Text.ToUpperIdempotent` | _unpacked/_build.py:260 | Upper-casing twice is upper-casing once. |
| `Text.StrLeTotal` | _unpacked/__main__.py:312-322 | Python's string order, used for the id, name and state keys, is total. |
| `Text.StrLeTransitive` | _unpacked/__main__.py:312-322 | The string order is transitive. |
| `Text.StrLeAntisymmetric` | _unpacked/__main__.py:312-322 | Two strings ordered both ways are equal. |
| `Validation.LatitudeValidation` | _unpacked/_build.py:336-352 | Accepts exactly: the empty text, a bare "-", or text `int()` reads as an integer in [-90, 90]. A lone digit is such an integer. |
| `Validation.LongitudeValidation` | _unpacked/_build.py:356-372 | Accepts exactly: the empty text, a bare "-", or an integer strictly between -180 and 180. |
| `Validation.LatitudeAcceptsExactly` | _unpacked/_build.py:341-343 | A typed integer is accepted exactly when -90 <= v <= 90. |
| `Validation.LongitudeAcceptsExactly` | _unpacked/_build.py:361-363 | A typed integer is accepted exactly when -180 < v < 180. |
| `Validation.CoordinateBounds` | _unpacked/_build.py:343-363 | 90 and -90 are accepted as latitudes and 91 and -91 are not. 180 and -180 are rejected as longitudes and 179 and -179 are accepted. |
| `Validation.FindNonLetter` | _unpacked/_build.py:265 | The `[^A-Z]` search with `re.I` finds something exactly when some character is not a letter of that class. |
| `Validation.StateValidation` | _unpacked/_build.py:262-268 | A state text is accepted iff it has at most two characters, all of them letters. The empty text is accepted. |
| `Validation.ElevPatternParses` | _unpacked/_build.py:472-477 | Every pattern match other than "" and "-" is an integer for `int()`. |
| `Validation.ParseIgnoresNewline` | _unpacked/_build.py:474 | `int()` ignores one trailing newline, which the pattern's `$` also allows. |
| `Validation.ElevValidation` | _unpacked/_build.py:469-477 | Every elevation text the pattern accepts, except "", "-", "\n" and "-\n", is an integer for `int()`. |
| `Validation.ElevAcceptsIntegers` | _unpacked/_build.py:472-477 | Every integer `str()` writes is an accepted elevation text. |
| `Validation.ElevRejectsInnerMinus` | _unpacked/_build.py:474 | "5-" and "--1" are rejected. "-" and "5\n" are accepted. |
| `Query.ClearedState` | _unpacked/__main__.py:381-382 | The state text read by `search` never has exactly one character: a one-character text is cleared, and any other text is kept as it is. |
| `Query.CoordValue` | _unpacked/__main__.py:393-394 | A coordinate is absent exactly for "" and "-", and otherwise is the integer `int()` reads. |
| `Query.Normalize` | _unpacked/__main__.py:377-416 | The criteria carry the description iff it is non-empty. They carry the upper-cased code iff the state text has two or more characters. They carry the elevation iff its text is non-empty. The signs exist exactly in point mode, where they are the latitude and longitude menus' choices. The second corner is carried only in box mode. |
| `Query.PointSignsReachClauses` | _unpacked/__main__.py:389-397 | In point mode a given latitude or longitude becomes a condition compared by the sign chosen in its menu. |
| `Query.NormalizeCoordinates` | _unpacked/__main__.py:393-409 | "" and "-" give an absent coordinate, never 0, and any other text gives its integer. lat2/lon2 are absent whenever the toggle is off. |
| `Query.Clauses` | _unpacked/__main__.py:452-505 | At most five conditions, the description first and the elevation last. The list is empty exactly when no description, code, elevation, complete box or signed point coordinate is given. A box condition implies a complete box. |
| `Query.SourceStatement` | _unpacked/__main__.py:452-505 | For criteria `search` can produce, the statement is "SELECT * FROM GHCNDaily WHERE ", then "AND " exactly when the dangling connector fires, then the AND-joined clause list. |
| `Query.Holds` | _unpacked/__main__.py:420-505 | A code matches when the country or the known state equals it. A box condition is `IN_BBOX` with the corners in either order. "<=" on elevation never matches the unknown -999, and ">=" matches only elevations at least the bound. |
| `Query.BoxClauseOnlyWhenComplete` | _unpacked/__main__.py:471-478 | A box clause appears iff the toggle is on and all four corners are present. |
| `Query.IncompleteBoxHasNoCoordClause` | _unpacked/__main__.py:480-491 | With the toggle on and the box incomplete, the signs are absent and no coordinate clause appears. |
| `Query.ArgsFillPlaceholders` | _unpacked/__main__.py:452-523 | Every clause list binds exactly as many arguments as its clauses have placeholders. |
| `Query.BuildArgs` | _unpacked/__main__.py:511-523 | The argument list is the clauses' arguments in statement order: desc, the code twice, the coordinates (lat1, lon1, lat2, lon2 in box mode), elev. Its length is the number of placeholders. |
| `Query.CollectPresent` | _unpacked/__main__.py:521-523 | The loop keeps exactly the values that are not None, in order. |
| `Query.ArgsOfAttrs` | _unpacked/__main__.py:512-521 | The source's attribute list, `None`s dropped, is the clause list's argument list. |
| `Query.SourceWhereShape` | _unpacked/__main__.py:452-505 | The WHERE text the source concatenates is the clause list joined by "AND ". The one exception is a leading "AND " when the elevation connector fires with no condition before it. |
| `Query.SourceWhereJoined` | _unpacked/__main__.py:452-505 | Without the dangling connector, the source's WHERE text is exactly the AND-joined clause list. |
| `Query.DanglingAndExample` | _unpacked/__main__.py:493-498 | Box toggle on, only Lat1 and an elevation given: the source writes "AND elevation >= ? ", while the joined clause list is "elevation >= ? ". |
| `Query.WhereLeadsWithCondition` | _unpacked/__main__.py:452-505 | A non-empty joined clause list starts with its first condition and never with "AND ". |
| `Query.EmptyWhere` | _unpacked/__main__.py:452 | With no condition the statement ends in "WHERE ". |
| `Query.WhereMarks` | _unpacked/__main__.py:453-505 | The joined text of a clause list holds exactly as many `?` as its clauses declare. |
| `Query.ClauseMarks` | _unpacked/__main__.py:453-505 | Each clause's text holds exactly its placeholder count: 1, 2 for the code, 4 for the box. |
| `Query.ArgsMatchStatement` | _unpacked/__main__.py:452-523 | The argument list has exactly as many entries as the `?` marks of the statement the source writes, dangling connector or not. |
| `Query.InBBox` | _unpacked/__main__.py:432-441 | `IN_BBOX` holds iff the latitude lies between the two corner latitudes and the longitude between the two corner longitudes, bounds included, in either order. |
| `Query.InBBoxCornersSwap` | _unpacked/__main__.py:437-441 | Swapping the two corners, or pairing the other two opposite corners, never changes the result. |
| `Query.InBBoxCorners` | _unpacked/__main__.py:437-438 | Both corners lie in their own box. |
| `Query.Select` | _unpacked/__main__.py:529-532 | The result is at most as long as the catalog. A station is in it iff it is in the catalog and satisfies every clause. |
| `Query.SelectAppend` | _unpacked/__main__.py:529-532 | The result keeps catalog order: selecting from two halves is selecting from each. |
| `Query.SelectConjunction` | _unpacked/__main__.py:452-505 | The clauses combine by AND: selecting on two lists concatenated is selecting on one, then on the other. |
| `Query.SelectIdempotent` | _unpacked/__main__.py:529-532 | Running the query again on its own result changes nothing. |
| `Query.BoxExample` | _unpacked/__main__.py:437-441 | The box (10, 10)-(-10, -10) holds (0, 0) and not (20, 20). |
| `Query.PointExample` | _unpacked/__main__.py:479-492 | Point mode with lat1 = 10 and ">=": the one condition is satisfied exactly by latitude >= 10, whatever the longitude. |
| `Query.SingleClause` | _unpacked/__main__.py:452-505 | A one-clause list matches exactly when its clause holds. |
| `Query.ElevationExample` | _unpacked/__main__.py:499-505 | "<= 0" excludes the unknown -999 and includes -50. ">=" has no sentinel exclusion. |
| `Query.ElevationAtMostExcludesUnknown` | _unpacked/__main__.py:499-504 | The "<=" elevation clause holds iff elevation > -999 and elevation <= bound, so a -999 station never matches. |
| `Query.CountryOrStateExample` | _unpacked/__main__.py:457 | A code matches a station whose country or whose state equals it, and not one where neither does. |
| `Query.IncompleteBoxIgnoresLocation` | _unpacked/__main__.py:471-491 | With the toggle on and the box incomplete, matching does not depend on location. |
| `Query.DescriptionOnly` | _unpacked/__main__.py:420-430 | With only a description and the substring matcher, a station matches iff its name contains the description, ignoring case for the letters `Text.UpperChar` folds (ASCII letters, U+0130, U+0131, U+017F, U+212A). |
| `Query.SubstringExample` | _unpacked/__main__.py:424-429 | "tacoma" matches "SEATTLE TACOMA" and not "SEATTLE". |
| `Gate.EmptyFormNeverReady` | _unpacked/__main__.py:127-262 | With every entry empty, the gate returns False whichever widget is edited. |
| `Gate.QueryReady` | _unpacked/__main__.py:122-269 | A state edit to one or to more than two characters closes the gate. A description, elevation or 0/2-character state edit opens it exactly when the edited form is filled, counting a non-empty coordinate entry. A coordinate edit opens it exactly when the edited form is ready, counting a bare "-" as absent. |
| `Gate.Ready` | _unpacked/__main__.py:176-240 | Readiness implies the filled test of the non-coordinate branches, and equals it where no coordinate entry holds a bare "-". |
| `Gate.ReadyIffClauses` | _unpacked/__main__.py:127-262 | Readiness of the whole form holds iff `search` builds at least one condition from it. |
| `Gate.CoordinatesReady` | _unpacked/__main__.py:187-239 | The coordinate part of readiness holds iff `search` builds a coordinate condition. |
| `Gate.GateAdmitsEmptyQuery` | _unpacked/__main__.py:135-138 | With Lat1 = "-" in point mode, editing the description to empty opens the gate, yet `search` builds no condition. |
| `Gate.DashElevationPassesGate` | _unpacked/__main__.py:242-245 | An elevation of "-" passes the gate beside a description, although `int("-")` fails at line 415. |
| `Finder.AcceptedEditKeepsValid` | _unpacked/_build.py:336-352 | An edit a validator accepts keeps every entry valid. |
| `Finder.ValidFormParsable` | _unpacked/__main__.py:393-416 | In a valid form every coordinate entry is one `search` can read. Only the elevation entry can hold text `int()` rejects. |
| `Finder.Uppercased` | _unpacked/_build.py:256-260 | Non-empty text that is not upper case becomes its upper-case form; any other text is kept. The length is kept, every character upper-cases as the original did, and the result is free of lower-case letters or unchanged. |
| `Finder.UppercasedIdempotent` | _unpacked/_build.py:256-260 | Applying the upper-casing twice equals applying it once. |
| `Finder.UppercasedKeeps` | _unpacked/_build.py:257-258 | Empty and already upper-case text is left alone. |
| `Finder.UppercasedStateValid` | _unpacked/_build.py:259-260 | Upper-casing a valid state code gives a valid state code, so the re-insert is never refused. |
| `Finder.Cleared` | _unpacked/__main__.py:381-382 | Only the state entry changes, and it is cleared exactly when it held one character. |
| `Finder.Compose` | _unpacked/__main__.py:452-523 | For a well-formed query, the statement is the AND-joined clause list and the arguments are the clause arguments, one per `?`. |
| `Finder.App.constructor` | _unpacked/_build.py:383-405 | Start-up state: empty entries, toggle off, latitude ">=", longitude "<=", elevation "<=", button disabled, no results. |
| `Finder.App.Edit` | _unpacked/_build.py:262-477 | An edit is kept iff its validator accepts it: state (262-268), latitude (336-352), longitude (356-372) or elevation (469-477). The gate runs on the form before the edit, for coordinates only when the text is kept. Results and sort settings do not change. |
| `Finder.App.Clear` | _unpacked/__main__.py:111-120 | Every entry is emptied, the second corner's only with the toggle on. The toggle, signs, results and sort settings are kept, and the button ends disabled. |
| `Finder.App.SetLogic` | _unpacked/_build.py:383-486 | A comparison menu choice sets only that sign of the form. Readiness and the button are unchanged. |
| `Finder.App.SetSort` | _unpacked/_build.py:71-155 | The sort setting is stored, the results become their sort by the new key and direction, and the listbox and label follow. The form and button are unchanged. |
| `Finder.App.ToggleBoundingBox` | _unpacked/_build.py:288-319 | The toggle flips and the button state becomes readiness of the whole form. |
| `Finder.App.MakeStateUppercase` | _unpacked/_build.py:253-260 | The state entry becomes its upper-case form. The button reflects the gate's verdict on the re-insert, or is unchanged when nothing was re-inserted. |
| `Finder.App.ResortResults` | _unpacked/__main__.py:285-336 | The results become their sort by the chosen key, reversed iff the direction is 1. The listbox lists them in that order and the label gives the count. |
| `Finder.App.ShowResults` | _unpacked/__main__.py:537-547 | Sorted results and listing, or the "No Results Found" label. The button is enabled again. |
| `Finder.App.BeginSearch` | _unpacked/__main__.py:361-382 | Results and listbox are emptied, the button disabled, and a lone state character cleared. |
| `Finder.App.Search` | _unpacked/__main__.py:356-547 | A search runs iff the criteria give a condition and no dangling connector. It then hands sqlite the source's statement and the clause arguments, and shows the sorted matches of the catalog. |
| `Results.Insert` | _unpacked/__main__.py:312-322 | Inserting adds exactly the one station. |
| `Results.InsertSorted` | _unpacked/__main__.py:312-322 | Inserting into a sorted list keeps it sorted. |
| `Results.Sort` | _unpacked/__main__.py:312-322 | The sorted list is a permutation of the list before. |
| `Results.SortSorted` | _unpacked/__main__.py:312-322 | The sorted list is ordered by the chosen key: state via `str`, so None sorts as "None"; descending iff asked. |
| `Results.SortPermutes` | _unpacked/__main__.py:312-322 | The sorted list holds the same stations, each as often, and has the same length. |
| `Results.KeyLe` | _unpacked/__main__.py:312-321 | Every station's sort key is at most itself. |
| `Results.Before` | _unpacked/__main__.py:312-321 | Equal stations may stand in either order, in both directions. |
| `Results.BeforeTotal` | _unpacked/__main__.py:312-321 | Any two stations are ordered one way or the other under every key and direction. |
| `Results.BeforeTransitive` | _unpacked/__main__.py:312-321 | The order by a key is transitive. |
| `Results.DirectionText` | _unpacked/__main__.py:300-305 | Text keys read "A to Z" and numeric keys "low-to-high" exactly for direction 0. |
| `Results.DirectionTextMatchesSort` | _unpacked/__main__.py:300-321 | For directions 0 and 1, the label names a descending order exactly when the sort is reversed. |
| `Results.CountLabel` | _unpacked/__main__.py:294-307 | The label starts with the count and a space. It reads "1 match was found" for one result and "0 matches were found" for none. With more results it reads "n matches were found", then ", sorted by <key>, (<direction>)". |
| `Results.CountLabelSingular` | _unpacked/__main__.py:294-297 | The label is "1 match was found" exactly for one result. |
| `Results.CaptionText` | _unpacked/__main__.py:541-544 | A count caption leads with the count, and the empty-result caption is "* No Results Found! *". |
| `Results.ListLine` | _unpacked/__main__.py:326-335 | A listbox line is exactly "id - ", then "state - " when the state is known, then "name - size": it starts with the id and " - ", has the state and " - " next when known, ends with the name, " - " and the size text, and its length is the sum of those parts. |
| `Results.ListingStep` | _unpacked/__main__.py:325-335 | Listing one more station appends its line. |
| `Results.FillListbox` | _unpacked/__main__.py:325-335 | The loop fills the listbox with one line per station, in list order. |
| `Download.DownloadUrl` | _unpacked/__main__.py:561-565 | The address is the base address, then the id, then ".csv.gz". |
| `Download.StationOfUrl` | _unpacked/__main__.py:561-565 | An address of that form gives back an id of the right length. |
| `Download.UrlRoundTrip` | _unpacked/__main__.py:561-565 | The address reads back as its station id. |
| `Download.UrlInjective` | _unpacked/__main__.py:561-565 | Different stations have different addresses. |
| `Download.StampText` | _unpacked/__main__.py:574 | The "%Y%m%d-%H%M%S" text has 15 characters: a "-" at index 8 and digits everywhere else. |
| `Download.StampRoundTrip` | _unpacked/__main__.py:574 | The "%Y%m%d-%H%M%S" text of a valid time reads back as that time. |
| `Download.SaveName` | _unpacked/__main__.py:569-576 | The file name starts with the id and ends with ".csv.gz". With overwriting off, "_" and the time stamp stand between them; with it on, nothing does. |
| `Download.SaveNameDistinct` | _unpacked/__main__.py:572-576 | With overwriting off, two downloads share a name only for the same station at the same second. |

## Left out

- Widget construction, packing, menus, dialogs and the enabling of the info and download buttons are left out. The model keeps only what the handlers read and write: entry texts, toggle, option settings, button state, results, label, listbox lines.
- Loading the catalog is left out: gzip decompression, the temporary file, sqlite. The catalog is a given `seq<Station>` in table order. Running the statement in sqlite is modelled by `Query.Select` over the clause list.
- The settings file, `webbrowser`, and the urllib download with its success or failure label are left out. The clock is a `Download.Stamp` parameter.
- The feet conversion `round(elevation * 3.28, 1)` and Python's `str` of a float are parameters (`metres`, `feet`, `sizeText`). They are floating-point formatting.
- The `_countries` lookup in the station information dialog is not part of this model.
- `Query.Holds`: `REGEXP` is a parameter `(string, string) -> bool`, because Python's `re` engine is not modelled. A malformed pattern makes the source's `re.search` raise inside sqlite. The model has no such error path.
- `Finder.App.Search`: a statement with no condition or a leading "AND " makes sqlite raise in the source. The model returns `Rejected` with the state the source has at that point.
- `Finder.App.Search`: requires that the elevation text is empty or an integer. `int("-")` raises in the source, and the gate lets "-" through (`Gate.DashElevationPassesGate`).
- `Finder.App.Edit`: requires the toggle on for edits of the second corner, because those entries are disabled with the toggle off.
- `Text.ParseInt`: `int()` and `\d` are modelled on ASCII digits only. Python also accepts other Unicode decimal digits.
- `Text.IsUpper`: `str.upper()` and `str.isupper()` are modelled only on the letters a state entry can hold: ASCII letters, U+0130, U+0131, U+017F and U+212A.
- `Results.SortSorted`: Python's sort is stable. `Results.Sort` is a stable insertion sort, but stability is not stated as a lemma. Only order and permutation are proved.
- `Finder.App.SetSort`: `resort_results(True)` also saves the settings to the settings file, which is not modelled.

## Findings

| source | as written | input that shows it | evidently intended | confidence | as-written member | corrected member |
|---|---|---|---|---|---|---|
| _unpacked/__main__.py:493-498 | The connector before the elevation condition tests `anycoord`, which also counts corners of an incomplete box. | Box toggle on, Lat1 "10", other corners empty, elevation ">=" "100": the statement is "SELECT * FROM GHCNDaily WHERE AND elevation >= ? ". | "AND " only after a condition that was written: "... WHERE elevation >= ? ". | not executed; high | `Query.DanglingAndExample` | `Query.WhereLeadsWithCondition` |
| _unpacked/__main__.py:135-138 | For description, state and elevation edits, the gate counts a coordinate entry as filled when it is non-empty, so a bare "-" opens it. `search` reads "-" as absent. | Point mode, Lat1 "-", all else empty, description typed and erased: the button is enabled and the statement is "SELECT * FROM GHCNDaily WHERE ". | A bare "-" counts as absent, as in the coordinate branch at line 188. | not executed; high | `Gate.GateAdmitsEmptyQuery` | `Gate.ReadyIffClauses` |

`Finder.App` keeps the source's gate and statement, as written. `Search` answers `Rejected` for both inputs above. The corrected forms are `WhereText(Clauses(c))`, which `Finder.Compose` returns, and `Gate.Ready`, which `Finder.App.ToggleBoundingBox` is proved to compute.
