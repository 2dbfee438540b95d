# widgitron core, modelled in Dafny

widgitron is a PyQt desktop app that shows small always-on-desktop widgets. This project models the
logic of its two data widgets and of its two window classes, and proves properties of that model.

- **GPU monitor** (`gpu_monitor.dfy`, module `Gpu`):
  - the `host:port` identity of a server;
  - the choice of route: local command, ssh through a proxy, or direct ssh with a key file, the default key or a password;
  - the line-by-line parse of the `nvidia-smi` answer into readings and a summary text;
  - one polling round over all servers;
  - the last-active bookkeeping and the idle check;
  - the settings mappings;
  - the short GPU names shown on the compact cards.
- **Paper deadlines** (`paper_deadline.dfy`, module `Papers`):
  - the filter, sort and cut selection of conference deadlines;
  - the countdown and its urgency colour;
  - the CCF rank labels;
  - the one-hour conference cache;
  - the update-interval setting.
- **Desktop widget** (`desktop_widget.dfy`, module `Desktop`): the window state of a floating widget. Its event handlers:
  - classify the resize edge under the pointer;
  - resize by an edge with minimum sizes;
  - drag and lock;
  - keep the content size;
  - clamp the configured position;
  - debounce position saves.
- **Window manager** (`window_manager.dfy`, module `Windows`): the drag and resize state machine of the frameless main window. It covers:
  - edge classification;
  - incremental resizing;
  - clamped dragging;
  - restore-on-drag of a maximized window;
  - the flag resets on release.

The shared modules are:
- `base.dfy` (`Base`): `Option` and `Result`.
- `text.dfy` (`Text`): the Python string operations the code relies on. These are `strip`, `split(',')`, `split()`, `in` on strings, `lower`, `str(int)`, and `int(str)` on ASCII decimal text.
- `geometry.dfy` (`Geometry`): Qt's `QPoint`/`QRect` arithmetic and the eight resize edges.

Parts written as mutable state are Dafny classes with `modifies` clauses and full-state postconditions:
- the desktop widget;
- the main window and its manager;
- the idle bookkeeping;
- the conference cache.

The source's loops are methods proved equal to specification functions. These are the answer parse, the polling round, the idle check and the deadline selection. The properties are proved as lemmas about those functions.

## Model

| member | source | states |
|---|---|---|
| Gpu.ServerId | widgets/gpu_monitor.py:43-46 | `get_server_id`: the host, a colon and the port; its shape and injectivity are the two lemmas below |
| Gpu.ServerIdShape | widgets/gpu_monitor.py:43-46 | The identifier is the host, a colon and the decimal port, 22 when the server gives none |
| Gpu.ServerIdInjective | widgets/gpu_monitor.py:43-46 | For colon-free host names, two servers share an identifier only if they share host and port |
| Gpu.ProxyJump | widgets/gpu_monitor.py:177-186 | The proxy command starts with `ssh -W %h:%p user@host -p port`, the port 22 when the proxy gives none. It is exactly that without a key file, and that followed by exactly ` -i key` when the proxy has a non-empty key file |
| Gpu.ChooseRoute | widgets/gpu_monitor.py:170-208 | The local command is used exactly for loopback hosts. Otherwise a proxy entry gives `ssh -o ProxyCommand=<jump> user@host -p port <query>`, and an error when the proxy lacks its host or user or the server its user. Otherwise, with a user: direct ssh with the server's key file when it is non-empty and exists, else with `~/.ssh/id_rsa` when that exists, else with the server's password, and an error when there is no password. A missing user is an error |
| Gpu.RouteDependsOnKeysOnly | widgets/gpu_monitor.py:197-205 | Of the local files, only whether the server's key file and the default key exist decides the route |
| Gpu.ParseReading | widgets/gpu_monitor.py:217-219 | A numeric field converts when `Text.ParseInt` accepts it, and otherwise fails with `could not convert string to float` naming the stripped field |
| Gpu.ParseReadingAccepts | widgets/gpu_monitor.py:217-219 | A field made of whitespace, an optional sign, ASCII digits and whitespace converts to the signed value of the digits |
| Gpu.ParseReadingRendered | widgets/gpu_monitor.py:217-219 | A field holding the decimal text of an integer amid whitespace reads as that integer |
| Gpu.ParseReadingShape | widgets/gpu_monitor.py:217-219 | Every field that converts has that shape, and its value is the signed value of its digits |
| Gpu.ParseLine | widgets/gpu_monitor.py:214-234 | A line with fewer than four comma fields yields no reading; one with four or more yields the reading of its first four stripped fields, or fails exactly when one of the three numbers does not parse |
| Gpu.Fragment | widgets/gpu_monitor.py:229-234 | A reading's summary text starts with `GPU: `, a short line's with `Invalid GPU data: ` |
| Gpu.ParseLines | widgets/gpu_monitor.py:212-234 | The loop over the answer's lines as a recursion: each line's result combined with the rest's, the first failure winning; its properties are the lemmas below |
| Gpu.ParseLinesSingle | widgets/gpu_monitor.py:212-234 | Parsing one line gives that line's reading and text, or its error |
| Gpu.ParseLinesAppend | widgets/gpu_monitor.py:212-234 | Parsing distributes over concatenation of lines: the first failure wins, readings and texts concatenate |
| Gpu.ParseLinesReadings | widgets/gpu_monitor.py:212-234 | A successful parse yields exactly one reading per line with at least four fields, in line order, each that line's reading |
| Gpu.ParseLinesFails | widgets/gpu_monitor.py:212-246 | The answer fails exactly when one of its lines fails |
| Gpu.CombineNoReadings | widgets/gpu_monitor.py:233-234 | A run of lines that yields no reading changes neither success nor the readings |
| Gpu.ShortLineKeepsReadings | widgets/gpu_monitor.py:214-234 | Inserting a line with fewer than four fields adds an `Invalid GPU data` note and removes no reading |
| Gpu.ParsedInfoStart | widgets/gpu_monitor.py:229-236 | A successful parse of at least one line has a summary text starting with `G` or `I` |
| Gpu.SummaryError | widgets/gpu_monitor.py:236-246 | A parsed summary starts with `Error: ` exactly when the parse failed |
| Gpu.OutputInfo | widgets/gpu_monitor.py:210-246 | The summary of an answer: `No GPU data` when it is blank after stripping, else the summary of parsing its lines |
| Gpu.OutputInfoError | widgets/gpu_monitor.py:210-246 | The summary of an answer starts with `Error: ` exactly when the answer is non-empty after stripping and one of its lines fails |
| Gpu.FetchInfo | widgets/gpu_monitor.py:169-246 | One host's summary: the route's error, the exception the command raised, or the summary of its output |
| Gpu.FetchInfoError | widgets/gpu_monitor.py:169-246 | A server's summary starts with `Error: ` exactly when the route, the command or the parse failed, and a failure reports no readings |
| Gpu.EmptyAnswer | widgets/gpu_monitor.py:237-241 | An answer that is empty after stripping gives no readings and `No GPU data` |
| Gpu.ParsePrefixStep | widgets/gpu_monitor.py:213-234 | One more line that parses extends the readings by its reading and the text by its fragment |
| Gpu.ParseFailsFirst | widgets/gpu_monitor.py:214-246 | A failing first line makes the whole answer fail with its error |
| Gpu.ParseFailsAt | widgets/gpu_monitor.py:214-246 | After a successful prefix, a failing line makes the whole answer fail with its error |
| Gpu.ParseEach | widgets/gpu_monitor.py:214-230 | The loop over the lines yields the readings and text of the line-by-line parse, or the first failing line's error |
| Gpu.ParseOutput | widgets/gpu_monitor.py:210-241 | The parse computes the summary of the answer: "No GPU data" when blank, else the parse's readings and stripped text, or its error |
| Gpu.GetGpuInfo | widgets/gpu_monitor.py:169-246 | The fetch computes the server's summary and never raises |
| Gpu.Ids | widgets/gpu_monitor.py:284 | The identifiers of the servers, one per server in order |
| Gpu.FetchAll | widgets/gpu_monitor.py:162-164 | One summary per server |
| Gpu.RoundData | widgets/gpu_monitor.py:160-166 | The round's table: each server's identifier mapped to its summary, a later server overwriting an earlier one with the same identifier |
| Gpu.RoundDataKeys | widgets/gpu_monitor.py:160-166 | A round's table has exactly the configured identifiers as keys |
| Gpu.RoundDataLastWins | widgets/gpu_monitor.py:162-164 | Each identifier holds the summary of the last server with that identifier |
| Gpu.CollectRound | widgets/gpu_monitor.py:160-165 | One iteration of the worker's loop builds the round's table |
| Gpu.Refreshed | widgets/gpu_monitor.py:483-484 | A display update keeps the set of tracked hosts |
| Gpu.IdleAmong | widgets/gpu_monitor.py:394-397 | The idle hosts among the tracked ones, in the table's order |
| Gpu.IdleAmongMembers | widgets/gpu_monitor.py:394-397 | A host is reported idle exactly when it is tracked and more than the threshold has passed since its last activity (strict) |
| Gpu.RefreshedNotIdle | widgets/gpu_monitor.py:483-484 | A host stamped active at `now` is not idle, by the test at line 397, at any time up to the threshold later |
| Gpu.IdleAlert | widgets/gpu_monitor.py:398-403 | A notification is sent exactly when some host is idle, and it names the idle hosts joined by `, ` |
| Gpu.GpuMonitor.constructor | widgets/gpu_monitor.py:284 | Every configured server starts out active at creation time |
| Gpu.GpuMonitor.UpdateDisplay | widgets/gpu_monitor.py:483-484 | Hosts whose readings show some utilization above zero are stamped with `now`; all other hosts are unchanged |
| Gpu.GpuMonitor.CheckIdle | widgets/gpu_monitor.py:394-397 | The idle check returns the idle hosts in the table's order |
| Gpu.IntervalText | widgets/gpu_monitor.py:547-559 | The choice shown for a stored interval, `5 seconds` for an unknown one |
| Gpu.IntervalSeconds | widgets/gpu_monitor.py:635-646 | The interval saved for a choice text, 5 for an unknown text |
| Gpu.IntervalRoundTrip | widgets/gpu_monitor.py:547-559 | A stored interval of 1, 5, 10, 30 or 60 seconds is shown and saved back (lines 635-646) unchanged; any other becomes 5 |
| Gpu.IntervalChoiceRoundTrip | widgets/gpu_monitor.py:635-646 | Each interval choice is saved and shown again (lines 547-559) as itself |
| Gpu.MinutesToSeconds | widgets/gpu_monitor.py:648-650 | Minutes times 60 is a whole number of minutes in seconds that divides back to those minutes |
| Gpu.IntOf | widgets/gpu_monitor.py:649 | `int()`, here and at line 630, converts when `Text.ParseInt` accepts the text, and otherwise fails with `invalid literal for int() with base 10` naming the text |
| Gpu.IntOfAccepts | widgets/gpu_monitor.py:649 | A text made of whitespace, an optional sign, ASCII digits and whitespace converts to the signed value of the digits |
| Gpu.IntOfRendered | widgets/gpu_monitor.py:649 | `int()` of the decimal text of an integer amid whitespace is that integer |
| Gpu.IntOfShape | widgets/gpu_monitor.py:649 | Every text that converts has that shape, and its value is the signed value of its digits |
| Gpu.AutoSave | widgets/gpu_monitor.py:589-650 | Saving fails exactly when the font size or the idle-minutes text passed is not an integer |
| Gpu.AutoSaveWrites | widgets/gpu_monitor.py:589-660 | A successful save writes every setting. Each setting whose control is passed follows it: the style, the interval choice, the idle minutes as whole minutes, auto-start and the font size. Each other setting keeps its stored value or default: the style (`list`), the interval snapped to a choice (5), the threshold in whole minutes (300 s), auto-start (true) and the font size (10) |
| Gpu.AutoSaveNormalizes | widgets/gpu_monitor.py:594-650 | Saving with no control fills in the defaults, snaps the interval and the threshold, and is then a fixed point |
| Gpu.IdleThresholdRoundTrip | widgets/gpu_monitor.py:648-650 | A threshold saved from the minutes control shows the same number of minutes again when displayed (line 577) |
| Gpu.FirstMatch | widgets/gpu_monitor.py:131-133 | The chosen entry is the first whose key occurs in the name; there is none exactly when no key occurs |
| Gpu.FirstMatchUnique | widgets/gpu_monitor.py:131-133 | At most one entry is the first match |
| Gpu.ShadowedEntry | widgets/gpu_monitor.py:131-133 | An entry whose key contains an earlier entry's key is never chosen |
| Gpu.FirstMatchInFront | widgets/gpu_monitor.py:131-133 | Whether an entry is chosen does not depend on the entries after it |
| Gpu.FirstMatchInBack | widgets/gpu_monitor.py:131-133 | An entry chosen from the whole table is also the one chosen within its own group |
| Gpu.NotFirstInRtx | widgets/gpu_monitor.py:54-133 | An RTX entry never chosen within the RTX group is never chosen from the table |
| Gpu.ShadowedTableEntries | widgets/gpu_monitor.py:54-133 | `L40S`, `RTX 5000 Ada`, `RTX 4000 SFF Ada` and `RTX 4500 Ada` can never be chosen, because an earlier key is contained in each |
| Gpu.DropPrefix | widgets/gpu_monitor.py:136-140 | A name starting with none of the prefixes is unchanged; one starting with the first prefix loses it and is stripped again |
| Gpu.DropFirstMatch | widgets/gpu_monitor.py:136-140 | The first prefix of the list that the name starts with is the one removed, and the rest is stripped |
| Gpu.DropFirstPrefix | widgets/gpu_monitor.py:136-140 | A stripped remainder behind the first prefix is what is left |
| Gpu.DropOnePrefix | widgets/gpu_monitor.py:136-140 | A name starting with two prefixes of the list (`NVIDIA Tesla ...`) loses only the first, because of the `break` |
| Gpu.SimplifyGpuName | widgets/gpu_monitor.py:49-148 | The stripped name's first matching table entry, or else the word fallback |
| Gpu.SimplifyByTable | widgets/gpu_monitor.py:49-133 | A stripped name whose first matching key is entry `i` gets that entry's short name |
| Gpu.WordOfPrefix | widgets/gpu_monitor.py:143 | The first word of a text is the run before the first whitespace |
| Gpu.WordsJoin | widgets/gpu_monitor.py:143-148 | Joining words with spaces and splitting on whitespace gives the words back |
| Gpu.ShortName | widgets/gpu_monitor.py:136-148 | The word fallback: drop one vendor prefix, split on whitespace and keep at most two words, skipping a leading brand word |
| Gpu.ShortNameWords | widgets/gpu_monitor.py:136-148 | Of the words left after the prefix: none gives `Unknown`; one gives that word; two or more after a leading `geforce`/`radeon` (any case) give words two and three; two or more otherwise give the first two words |
| Papers.FormatCcfRank | widgets/paper_deadline.py:47-55 | A, B, C and N map to `CCF-A`, `CCF-B`, `CCF-C` and `Non CCF`; any other rank is returned unchanged, and only then |
| Papers.DaysUntil | widgets/paper_deadline.py:103 | The whole days to the deadline, rounded down: non-negative exactly when the deadline is not past |
| Papers.ItemOutcome | widgets/paper_deadline.py:89-129 | What one timeline item contributes: skipped, a failure for a missing title or year, or its deadline entry |
| Papers.ItemIncluded | widgets/paper_deadline.py:89-129 | An item is listed exactly when: its deadline is present, not `TBD` and parses; it is not past, or past ones are shown; its rank (default `N`) and category pass the filters (an empty filter accepts all); and title and year are present |
| Papers.Includes | widgets/paper_deadline.py:129 | The listed deadlines are no more than the items |
| Papers.IncludesMembers | widgets/paper_deadline.py:86-133 | The listed deadlines are exactly the included outcomes |
| Papers.Take | widgets/paper_deadline.py:139 | A slice `[:n]` is a prefix of length `min(n, len)` for `n >= 0`, and drops `-n` elements for negative `n` |
| Papers.SortByDeadline | widgets/paper_deadline.py:136 | The sort by deadline, as insertion of each element behind the sorted front; sortedness, permutation and stability are the lemmas below |
| Papers.InsertPerm | widgets/paper_deadline.py:136 | Inserting adds exactly one element |
| Papers.InsertBound | widgets/paper_deadline.py:136 | Inserting keeps a lower bound on all deadlines |
| Papers.InsertSorted | widgets/paper_deadline.py:136 | Inserting into a sorted list keeps it sorted |
| Papers.InsertFacts | widgets/paper_deadline.py:136 | Inserting keeps sortedness and adds exactly the element |
| Papers.SortFacts | widgets/paper_deadline.py:136 | The sort is sorted by deadline and a permutation of its input |
| Papers.WithDeadlineCons | widgets/paper_deadline.py:136 | Selecting the entries with a given deadline distributes over a leading element |
| Papers.WithDeadlineNone | widgets/paper_deadline.py:136 | A list without the deadline has no entries for it |
| Papers.InsertStable | widgets/paper_deadline.py:136 | Inserting places the new element after the equal deadlines already there |
| Papers.SortStable | widgets/paper_deadline.py:136 | The sort is stable: entries with equal deadlines keep their order |
| Papers.PaperDeadlines | widgets/paper_deadline.py:78-143 | The selection: empty after a failure, else the included deadlines sorted and cut to the maximum |
| Papers.PaperDeadlinesShape | widgets/paper_deadline.py:78-143 | The list is sorted by deadline, and every listed entry was included. A failure gives the empty list. Otherwise it is a prefix of the sorted qualifying deadlines of length `min(max, count)`, or `count + max` (at least zero) for a negative maximum |
| Papers.IncludesSnoc | widgets/paper_deadline.py:86-129 | One more outcome extends the list by its deadline if included, and the failure flag by its failure |
| Papers.PrefixExtend | widgets/paper_deadline.py:86-133 | Prefixes stay prefixes behind a common front |
| Papers.ItemsPrefix | widgets/paper_deadline.py:88-133 | The outcomes of the first items are a prefix of the year's outcomes |
| Papers.YearsPrefix | widgets/paper_deadline.py:87-133 | The outcomes of the first years are a prefix of the conference's outcomes |
| Papers.ConfsPrefix | widgets/paper_deadline.py:86-133 | The outcomes of the first conferences are a prefix of all outcomes |
| Papers.OutcomesSoFar | widgets/paper_deadline.py:86-133 | The outcomes seen at any point of the nested loops are a prefix of all outcomes |
| Papers.PrefixFails | widgets/paper_deadline.py:141-143 | A failure seen part-way is a failure of the whole selection |
| Papers.ItemStep | widgets/paper_deadline.py:88-133 | One more item adds its outcome |
| Papers.YearStep | widgets/paper_deadline.py:87-133 | One more year adds its items' outcomes |
| Papers.ConfStep | widgets/paper_deadline.py:86-133 | One more conference adds its years' outcomes |
| Papers.GetPaperDeadlines | widgets/paper_deadline.py:72-143 | The nested loops, sort and slice compute the selection; a missing title or year gives the empty list |
| Papers.CountdownOf | widgets/paper_deadline.py:294-319 | The countdown display for the seconds left; its parts, colour and text are the lemmas below |
| Papers.Pad2 | widgets/paper_deadline.py:319 | `:02d` of a number below 100 is two digits that read back as the number |
| Papers.CountdownExpired | widgets/paper_deadline.py:294-300 | A deadline that has passed shows zeros, `Expired` and red |
| Papers.CountdownParts | widgets/paper_deadline.py:301-307 | For time left, `days·86400 + hours·3600 + minutes·60 + seconds` is the total, with hours < 24 and minutes, seconds < 60 |
| Papers.CountdownUnique | widgets/paper_deadline.py:301-307 | Any decomposition within those bounds is the countdown's |
| Papers.DivModUnique | widgets/paper_deadline.py:301-307 | Quotient and remainder by a positive divisor are unique |
| Papers.MultipleBound | widgets/paper_deadline.py:301-307 | A non-zero multiple of a positive number is at least that number in size |
| Papers.CountdownColour | widgets/paper_deadline.py:309-317 | Red below one day, orange up to four days, yellow up to eight days, white from eight days on |
| Papers.CountdownText | widgets/paper_deadline.py:319 | The text is the days in decimal followed by `d HHh MMm SSs` |
| Papers.NeedsFetch | widgets/paper_deadline.py:175 | A download is due when nothing is cached or the cache is more than an hour old |
| Papers.Lookup | widgets/paper_deadline.py:175-202 | One lookup: the cache and the list it hands out, given the download's result |
| Papers.LookupReturnsCache | widgets/paper_deadline.py:175-202 | A lookup hands out what is cached afterwards (or nothing). A fresh cache is untouched. A successful download replaces the list and timestamp. A failed one changes nothing |
| Papers.FreshWithinHour | widgets/paper_deadline.py:175-191 | After a download, every lookup within the next hour hands out that list without downloading |
| Papers.StaleOnFailure | widgets/paper_deadline.py:195-199 | A failed download hands out the cached list, however stale |
| Papers.ConferenceCache.constructor | widgets/paper_deadline.py:161-166 | The cache starts empty |
| Papers.ConferenceCache.Get | widgets/paper_deadline.py:168-202 | The cached conferences are updated as a lookup prescribes, and left untouched when no download is due |
| Papers.IntervalText | widgets/paper_deadline.py:575-588 | The choice shown for a stored interval, `1 hour` for an unknown one |
| Papers.IntervalSeconds | widgets/paper_deadline.py:664-676 | The interval saved for a choice text, 3600 for an unknown text |
| Papers.IntervalRoundTrip | widgets/paper_deadline.py:575-588 | A stored interval of 900, 1800, 3600, 7200 or 21600 seconds is shown and saved back (lines 664-676) unchanged; any other becomes 3600 |
| Papers.IntervalChoiceRoundTrip | widgets/paper_deadline.py:664-676 | Each interval choice is saved and shown again (lines 575-588) as itself |
| Geometry.Rect.SetLeft | core/window_manager.py:75 | `setLeft` moves the left side and keeps the right side |
| Geometry.Rect.SetRight | core/window_manager.py:73 | `setRight` moves the right side and keeps the left side |
| Geometry.Rect.SetTop | core/window_manager.py:79 | `setTop` moves the top side and keeps the bottom side |
| Geometry.Rect.SetBottom | core/window_manager.py:77 | `setBottom` moves the bottom side and keeps the top side |
| Geometry.EdgeBySides | core/window_manager.py:71-79 | An edge is determined by the sides it includes |
| Geometry.EdgeNamesSides | core/window_manager.py:71-79 | `'left' in edge` and its three siblings hold exactly for the edges that include that side |
| Geometry.EdgeNamesLeft | core/window_manager.py:74 | `'left' in edge` holds exactly for the edges with a left side |
| Geometry.EdgeNamesRight | core/window_manager.py:72 | `'right' in edge` holds exactly for the edges with a right side |
| Geometry.EdgeNamesTop | core/window_manager.py:78 | `'top' in edge` holds exactly for the edges with a top side |
| Geometry.EdgeNamesBottom | core/window_manager.py:76 | `'bottom' in edge` holds exactly for the edges with a bottom side |
| Geometry.ClampAxis | core/desktop_widget.py:50-51 | `max(0, min(v, limit − size))` is non-negative, keeps the window inside when it fits, and leaves an in-range value unchanged |
| Geometry.ClampAxisIdempotent | core/desktop_widget.py:50-51 | Clamping twice is clamping once |
| Desktop.CursorEdge | core/desktop_widget.py:451-482 | With inclusive margin tests, the edge is absent exactly when the point is near no side. It has a left side exactly when near the left, a right side when near the right but not the left, a top side when near the top, and a bottom side when near the bottom but not the top |
| Desktop.ResizedGeometry | core/desktop_widget.py:418-449 | The geometry a resize by an edge gives from the gesture's start and the pointer's movement |
| Desktop.ResizedGeometrySides | core/desktop_widget.py:418-449 | Each edge moves exactly its sides by the pointer's movement, clamped to the minimum size; a left or top resize moves the origin by the full movement |
| Desktop.ResizedMinimum | core/desktop_widget.py:418-449 | A resize by a side leaves width ≥ 200 or height ≥ 100 |
| Desktop.ResizedOppositeFixed | core/desktop_widget.py:432-449 | Above the minimum, a left or top resize keeps the opposite side where it was |
| Desktop.ResizedDrifts | core/desktop_widget.py:432-449 | Below the minimum, a left or top resize still moves the origin by the full movement, so the opposite side moves outwards |
| Desktop.ContentExtent | core/desktop_widget.py:512-520 | The content extent is the window extent less both borders, at least the minimum |
| Desktop.ContentExtentRoundTrip | core/desktop_widget.py:512-520 | A window sized around a content extent (lines 104-106) at least the minimum gives that extent back |
| Desktop.ConfiguredPosition | core/desktop_widget.py:43-59 | A position is found exactly when the entry is missing or a pair |
| Desktop.ConfiguredOnScreen | core/desktop_widget.py:45-51 | A configured position keeps a fitting window on the screen |
| Desktop.ConfiguredRestores | core/desktop_widget.py:45-51 | A saved position that keeps the window on the screen is restored exactly |
| Desktop.DefaultPosition | core/desktop_widget.py:52-59 | Without a configured position the window sits 50 pixels from the screen's right side, centred vertically |
| Desktop.NextSaveTime | core/desktop_widget.py:536-544 | The last save time after a move: the move's time when the last save is more than 500 ms ago, else unchanged |
| Desktop.SaveTimes | core/desktop_widget.py:536-544 | The saves of a run of moves, each decided by `NextSaveTime`; every save happens at the time of a move |
| Desktop.SaveTimesSpaced | core/desktop_widget.py:536-544 | Saves are more than 500 ms after the last save and more than 500 ms apart |
| Desktop.SaveTimesAll | core/desktop_widget.py:536-544 | Moves more than 500 ms apart each save |
| Desktop.LastSaveAfter | core/desktop_widget.py:536-544 | The last save time after `MoveEvent` has run at each move time in turn |
| Desktop.SaveTimesLast | core/desktop_widget.py:536-544 | After a run of moves the last save time is the last of the saves, or unchanged when none happened |
| Desktop.DesktopWidget.constructor | core/desktop_widget.py:73-154 | The content size comes from the configuration or the default, the window adds both borders, the position is the configured one, and the widget starts locked with no gesture |
| Desktop.DesktopWidget.SetPositionFromConfig | core/desktop_widget.py:43-59 | The window moves to the configured or default position; a malformed entry leaves it; nothing else changes |
| Desktop.DesktopWidget.ToggleLock | core/desktop_widget.py:484-487 | Flips the lock and nothing else |
| Desktop.DesktopWidget.MousePress | core/desktop_widget.py:356-366 | An unlocked left press inside the half-open content rectangle, with no resize under way, starts a drag. Any other press leaves the drag offset; a locked press never sets it |
| Desktop.DesktopWidget.HandleResize | core/desktop_widget.py:412-449 | The first step of a gesture only records the starting geometry and pointer; later steps set the geometry resized from that start |
| Desktop.DesktopWidget.MouseMove | core/desktop_widget.py:368-399 | Hover tracking follows the pointer. While locked, any resize edge is cleared and the geometry is kept. Unlocked: a left-button drag moves the window by the drag offset, a left-button resize resizes, and no button picks the edge under the pointer |
| Desktop.DesktopWidget.MouseRelease | core/desktop_widget.py:401-410 | A left release ends any drag or resize; any other release changes nothing |
| Desktop.DesktopWidget.ResizeEvent | core/desktop_widget.py:504-530 | The content takes the window size less the borders, at least 200 × 100, and exactly that pair is saved |
| Desktop.DesktopWidget.MoveEvent | core/desktop_widget.py:532-544 | The position is saved, and the save time advanced, only when the last save is more than 500 ms ago |
| Windows.ResizeEdge | core/window_manager.py:174-205 | The same side characterization as the desktop widget, for the main window's margin |
| Windows.ClassifiersAgree | core/window_manager.py:192-205 | For equal margins the main window's precedence picks the same edge as the desktop widget's |
| Windows.Resized | core/window_manager.py:67-79 | Each side the edge names moves by the pointer's movement, and the others stay |
| Windows.ResizedCompose | core/window_manager.py:67-79 | Two resizes by the same edge are one resize by the sum of the movements |
| Windows.ResizeStepsTotal | core/window_manager.py:67-79 | Incremental resizing (each step by the movement since the previous point) equals one resize by the pointer's whole movement |
| Windows.DragTarget | core/window_manager.py:86-89 | The drag target is non-negative, keeps a fitting window on the screen and leaves an in-range target unchanged |
| Windows.NonNegative | core/window_manager.py:130-131 | Negative offset components are raised to zero and others kept |
| Windows.MainWindow.constructor | widgitron.py:68 | A normally shown window has at least the minimum size 600 × 400 |
| Windows.MainWindow.SetGeometry | core/window_manager.py:81 | `setGeometry` keeps the requested origin and grows the size to the minimum; the normal geometry follows unless maximized, and the maximized state stays |
| Windows.MainWindow.Move | core/window_manager.py:91 | `move` sets the origin and keeps the size; the normal geometry follows unless maximized, and the maximized state stays |
| Windows.MainWindow.ShowNormal | core/window_manager.py:98 | A restored window takes its normal geometry |
| Windows.WindowManager.constructor | core/window_manager.py:13-26 | No drag, resize or pending restore at the start |
| Windows.WindowManager.MousePress | core/window_manager.py:28-51 | A left press on an edge of a non-maximized window starts a resize. Otherwise a press in the title rows 10 ≤ y < 60 arms a restore when maximized, or starts a drag when not. The window is untouched |
| Windows.WindowManager.MouseMove | core/window_manager.py:53-136 | Resizing wins over dragging. A resize moves the named sides by the movement since the last point and records the new point. A drag moves to the clamped target. Neither changes the maximized state, and the normal geometry follows the window. A pending restore turns into a drag, with a non-negative offset and no style update left running, only past a Manhattan distance of 10; otherwise the window is untouched |
| Windows.WindowManager.MouseRelease | core/window_manager.py:152-160 | A left release clears dragging, resizing, the edge and the pending restore; any other release changes nothing |

## Left out

- Paramiko, `subprocess`, `requests`, YAML and JSON: each is an input to the model. A query's result is `Stdout(text)` or `Raised(message)`. A download is a `Result`. The configuration is a value. The local file system is the set of files that exist.
- Threads, `QThread` loops, `time.sleep`, timers and the cache lock: one polling round, one call or one event is modelled, and time is an integer parameter. Differences between the `time.time()` calls within one round are collapsed into a single `now`.
- Floating point: `nvidia-smi` fields are parsed as integers (MB and percent), and the `:.0f` formatting of the summary text is the integer's decimal form.
- Gpu.ParseReading: a field such as `12.5` is a parse error in the model, while Python's `float()` accepts it. Digit groups with underscores and non-ASCII decimal digits, which `float()` also accepts, are rejected too.
- Gpu.IntOf: `Text.ParseInt` takes ASCII decimal digits only. Python's `int()` also accepts digit groups separated by underscores (`1_0`) and non-ASCII decimal digits; the model rejects both.
- Date parsing (`datetime.strptime`) and time zones: a timeline item carries its deadline text and the parsed timestamp, `None` when the text does not parse. The countdown's `int(total_seconds())` is taken as an integer input.
- The string-matching activity check of the list display (widgets/gpu_monitor.py:427-428): activity is the structured rule "some device reports utilization above zero", as in the compact display.
- Qt presentation: cursors, labels, styles, buttons, hover timers, the function-button visibility and rich text. The event chaining to parent handlers (`super().mouseMoveEvent`) and `event.accept()` are not modelled.
- The notification call: `Gpu.IdleAlert` gives its text, and the `plyer` call itself is left out.
- Paper auto-save: only the interval mapping is modelled. The maximum count, filters, font and auto-start are stored as given.
- Papers.ConferenceCache.Get: a download whose YAML document is empty (`None`) is not modelled. The source would store `None`, and the following `len` would raise and fall into the failure path.
- Gpu.ChooseRoute: an empty `proxy` dictionary is treated like no proxy. Python would test it as false and take the direct-ssh branch, which is the same outcome.
- Gpu.GetGpuInfo: an ssh client left open when the command raises is not modelled.
- `RefreshThread.run` (widgets/paper_deadline.py:357-427) repeats the selection. It is modelled by the same `Papers.PaperDeadlines`.
- Windows.ResizeStepsTotal: stated on the pure `Resized`. The real window applies the minimum size after every step, so a run of steps that shrinks it below the minimum does not compose; `Windows.WindowManager.MouseMove` states each step exactly.
- Gpu.FirstMatch: the table's first key that occurs in the name wins, as the code does, not the longest key. `Gpu.ShadowedTableEntries` names the four entries this makes unreachable.
- widgitron.py, `core/widget_manager.py`, `core/system_tray.py`, the UI pages and `add_startup.py` are not part of this model: they are wiring, presentation and installation.
