# SENAITE widget dispatcher and date/time helpers, modelled in Dafny

This project models two pieces of SENAITE core.

**The widget dispatcher** is `webpack/app/senaite.core.widgets.js` (module `Widgets`, file `widgets.dfy`).
- Its registry `WIDGETS` is an ordered list of CSS selectors, each paired with a renderer.
- `render_all_widgets(root)` walks the registry in order. For each entry it finds the matching elements below `root`, or in the whole document when `root` is not a Node, in document order.
- For each element it calls the entry's renderer. It files the returned controller in `window.senaite.core.widgets` under the element's `id`, or else under its JSON-decoded `data-id`. An element with neither gets a console warning.
- An entry without a renderer throws "Widget renderer required", but only when its selector finds an element.
- The namespace is created at load time by three `x = x || {}` assignments.
- Dispatch runs once on `DOMContentLoaded` over the whole document. When that dispatch returns normally, the handler then registers a `datagrid:row_added` listener on the body. From then on each such event dispatches again, scoped to the new row. If the first dispatch throws, no listener is registered and later row events do nothing.

How the dispatcher is represented:
- The document is a sequence of elements in document order, each naming its parent.
- Selector matching and `JSON.parse` are parameters.
- The namespace is a class whose methods update the controller map, the log of renderer calls, the list of warnings and the row-listener flag in place. The dispatch methods are proved equal to a functional specification (`RenderEntries`).
- Lemmas about that specification give:
  - the call order: registry first, then document order;
  - the exact condition for the "renderer required" error;
  - the controller each key holds afterwards (last write wins);
  - that a row-scoped dispatch stays in its row.

**The integer and text logic of `src/senaite/core/api/dtime.py`** (module `Dtime`, file `dtime.dfy`, with the decimal helpers in module `Decimal`, file `decimal.dfy`):
- `timedelta_to_dict` and `to_timedelta`, including Python's normalisation of a timedelta and its OverflowError;
- `get_timezone`, which maps offset names matched by `RX_GMT` to POSIX `Etc/GMT` names with the sign reversed;
- the length rule and strptime layouts of `ansi_to_dt`;
- the digit formatting at the end of `to_ansi`;
- the fallback of `date_to_string` for dates `strftime` refuses. It rewrites the format loop by loop into a `string.Template` and then applies `safe_substitute` to a table of date parts.

The shared `Option` type is in module `Wrappers`, file `wrappers.dfy`.

## Model

| member | source | states |
|---|---|---|
| Widgets.QuerySelectorAll | webpack/app/senaite.core.widgets.js:58-59 | the elements found are exactly those in scope (below the root, or the whole document when the root is not a Node) that match the selector, each once, in document order |
| Widgets.ResolveKey | webpack/app/senaite.core.widgets.js:64-72 | a non-empty id is the key; otherwise a non-empty data-id is decoded, and a decoding failure is an exception; with neither there is no key |
| Widgets.RenderElement | webpack/app/senaite.core.widgets.js:62-72 | one renderer call is appended to the call log; its controller is filed under the element's key when it has one, and a warning names the element when it has none; the call throws exactly when the data-id does not decode |
| Widgets.RenderMatches | webpack/app/senaite.core.widgets.js:61-76 | the inner loop only extends the call log and the warnings, by at most one call per element found and one warning per call, and by exactly one call per element when it completes |
| Widgets.RenderEntries | webpack/app/senaite.core.widgets.js:56-78 | a dispatch only extends the call log and the warnings, with at most one warning per renderer call |
| Widgets.RenderMatchesCalls | webpack/app/senaite.core.widgets.js:61-76 | the inner loop calls the renderer on a prefix of the found elements, and on all of them when it completes; earlier calls are untouched; an entry without a renderer changes nothing and throws "Widget renderer required" exactly when it found an element |
| Widgets.DispatchFollowsPlan | webpack/app/senaite.core.widgets.js:56-78 | the renderer calls of a dispatch are a prefix of the planned calls (registry order, then document order within an entry), and all of them when it completes |
| Widgets.PlannedInScope | webpack/app/senaite.core.widgets.js:58-63 | every planned renderer call is on an element in the root's scope |
| Widgets.PlannedMatches | webpack/app/senaite.core.widgets.js:57-63 | every planned call runs the renderer of a registry entry whose selector matches the call's element |
| Widgets.RenderMatchesCompletes | webpack/app/senaite.core.widgets.js:61-76 | with a renderer and well-formed data-ids, the inner loop does not throw |
| Widgets.RendererRequiredIff | webpack/app/senaite.core.widgets.js:61-76 | "Widget renderer required" is thrown only if some entry without a renderer found an element; when all data-ids decode, it is thrown exactly then, and otherwise the dispatch completes |
| Widgets.RegistryRenderers | webpack/app/senaite.core.widgets.js:16-52 | every entry of the registry as shipped names a renderer |
| Widgets.ShippedRegistryHasRenderers | webpack/app/senaite.core.widgets.js:16-52 | the registry as shipped never throws "Widget renderer required" |
| Widgets.DispatchSplits | webpack/app/senaite.core.widgets.js:57-77 | running two registries one after the other is running the first, then the second unless the first threw |
| Widgets.EarlierEntriesKeepWrites | webpack/app/senaite.core.widgets.js:57-77 | when entry j throws "Widget renderer required", the controllers filed by the entries before it stay in place |
| Widgets.DispatchBookkeeping | webpack/app/senaite.core.widgets.js:61-72 | whatever the outcome, the namespace afterwards is the old one with the controller of each renderer call filed in call order under its element's key; the warnings are the old ones plus one per call on an element without a key |
| Widgets.LastWriter | webpack/app/senaite.core.widgets.js:66-69 | finds the last call in a range filed under a key; no later call in the range is filed under it |
| Widgets.LastWriteWins | webpack/app/senaite.core.widgets.js:66-69 | a key holds the controller of the last call filed under it; a key no call was filed under keeps its old controller or stays absent |
| Widgets.RowDispatchStaysInRow | webpack/app/senaite.core.widgets.js:88-92 | a dispatch over a row calls renderers only on elements below the row; a key that no element of the row resolves to keeps its controller |
| Widgets.OrEmpty | webpack/app/senaite.core.widgets.js:10-12 | `v \|\| {}` is v when v is truthy, a new empty object otherwise |
| Widgets.InitNamespace | webpack/app/senaite.core.widgets.js:10-12 | the initialisation throws exactly when it would set a property on a truthy primitive (senaite, or senaite.core); otherwise senaite and core are objects, widgets is truthy, and the other globals are untouched |
| Widgets.InitIdempotent | webpack/app/senaite.core.widgets.js:10-12 | initialising an initialised window changes nothing |
| Widgets.InitShape | webpack/app/senaite.core.widgets.js:10-12 | the window gains only `senaite`, senaite only `core`, core only `widgets`; a falsy widgets becomes `{}`, and a falsy core becomes an object holding only an empty widgets |
| Widgets.InitKeepsExisting | webpack/app/senaite.core.widgets.js:10-12 | an existing truthy widgets value, and every other property of senaite and core, survives the initialisation |
| Widgets.InitCreatesEmpty | webpack/app/senaite.core.widgets.js:10-12 | on a window without senaite, the namespace is created as nested empty objects |
| Widgets.WidgetNamespace.constructor | webpack/app/senaite.core.widgets.js:12 | the namespace starts with the controllers already there, no calls, no warnings and no row listener |
| Widgets.WidgetNamespace.RenderAllWidgets | webpack/app/senaite.core.widgets.js:56-78 | the outer loop leaves the namespace, call log and warnings, with the outcome, equal to the functional dispatch over the registry |
| Widgets.WidgetNamespace.RenderMatchesInPlace | webpack/app/senaite.core.widgets.js:58-76 | the inner loop over the elements found for one entry leaves the state and outcome equal to the functional inner loop |
| Widgets.WidgetNamespace.RenderElementInPlace | webpack/app/senaite.core.widgets.js:62-72 | one loop body leaves the state and outcome equal to the functional renderer call |
| Widgets.WidgetNamespace.OnReady | webpack/app/senaite.core.widgets.js:81-93 | the DOMContentLoaded handler dispatches the shipped registry over the whole document, and the row listener is registered exactly when that dispatch completes |
| Widgets.WidgetNamespace.OnRowAdded | webpack/app/senaite.core.widgets.js:88-92 | a row_added event changes nothing without the listener; with it, it dispatches the shipped registry over the event's row, or over the whole document when the row is not a Node |
| Decimal.NatToString | src/senaite/core/api/dtime.py:304 | the decimal text of n: digits only, no leading zero, reading back as n, its length the number of decimal digits of n |
| Decimal.IntToString | src/senaite/core/api/dtime.py:472 | the text of an int: a minus sign before the digits of a negative number |
| Decimal.ZeroPad | src/senaite/core/api/dtime.py:467 | text at least as wide as the field is unchanged; shorter text is filled with leading zeros to the width |
| Decimal.ZeroPadDigits | src/senaite/core/api/dtime.py:264-267 | zero-padding a digit string that fits the width gives exactly that many digits with the same value |
| Decimal.PaddedRoundTrip | src/senaite/core/api/dtime.py:264-267 | an n below 10^w, zero-padded to w, has exactly w digits that read back as n |
| Dtime.TimedeltaToDict | src/senaite/core/api/dtime.py:573-605 | a non-timedelta raises TypeError, or gives the default when one is passed; a timedelta gives exactly the keys days, hours, minutes, seconds, with the days kept, hours below 24, minutes and seconds below 60, together making up the seconds of the day |
| Dtime.MakeDelta | src/senaite/core/api/dtime.py:629-634 | the timedelta constructor gives a normalised timedelta spanning the sum of its parts exactly when that sum lies from -999999999 days up to but excluding 10^9 days, and raises OverflowError otherwise |
| Dtime.ToTimedelta | src/senaite/core/api/dtime.py:608-634 | a timedelta is returned as it is; anything that is neither a timedelta nor a dict raises TypeError or gives the default; a dict gives a normalised timedelta of its seconds (missing keys count 0) exactly when those seconds lie in the timedelta range, and raises OverflowError otherwise |
| Dtime.DeltaDictRoundTrip | src/senaite/core/api/dtime.py:573-634 | a timedelta without microseconds, negative days included, survives the conversion to a dict and back |
| Dtime.DeltaDictDropsMicroseconds | src/senaite/core/api/dtime.py:599-605 | the round trip sets the microseconds to zero and keeps the rest |
| Dtime.DeltaOverflowExample | src/senaite/core/api/dtime.py:629-634 | a dict of 10^9 days raises OverflowError; 999999999 days and 86399 seconds is converted |
| Dtime.DigitsAt | src/senaite/core/api/dtime.py:45 | the hour digits of RX_GMT are the one or two digits at the position, two whenever there are two |
| Dtime.SignedDigitsAt | src/senaite/core/api/dtime.py:45 | the `([+-]?)(\d{1,2})` part of RX_GMT captures a sign or nothing and one or two digits |
| Dtime.AfterGmt | src/senaite/core/api/dtime.py:45 | the `\bGMT\b` alternative succeeds only on "GMT" followed by a sign and a digit, and captures that sign |
| Dtime.MatchRxGmt | src/senaite/core/api/dtime.py:45 | a match of RX_GMT captures a sign or nothing and one or two digits |
| Dtime.AfterGmtIff | src/senaite/core/api/dtime.py:45 | the "GMT" alternative of RX_GMT, with its word boundary, succeeds exactly on names starting "GMT+d" or "GMT-d" |
| Dtime.AtStartIff | src/senaite/core/api/dtime.py:45 | the empty alternative of RX_GMT succeeds exactly on names starting "+d", "-d" or "d" |
| Dtime.MatchRxGmtSpec | src/senaite/core/api/dtime.py:45 | RX_GMT matches exactly the names that start with "GMT+d", "GMT-d", "+d", "-d" or "d" |
| Dtime.MatchRxGmtCaptures | src/senaite/core/api/dtime.py:45 | a match captures a sign or nothing, then one or two digits, written right after "GMT" when that alternative matched and at the start otherwise; one digit only when no digit follows it |
| Dtime.ReportedZone | src/senaite/core/api/dtime.py:277-283 | a Python datetime reports its tzname(), a Zope DateTime its timezone(), a date the default, anything else nothing |
| Dtime.EtcName | src/senaite/core/api/dtime.py:296-304 | zero hours give "Etc/GMT"; other hours give "Etc/GMT", the reversed sign, and the hours without leading zeros, reading back as the captured hours |
| Dtime.GetTimezone | src/senaite/core/api/dtime.py:270-308 | an absent or empty zone name gives the default; a name RX_GMT does not match is returned unchanged |
| Dtime.SignedDigitsAtShape | src/senaite/core/api/dtime.py:45 | the sign-and-digits part of RX_GMT captures the sign and digits written at the position |
| Dtime.MatchRxGmtShape | src/senaite/core/api/dtime.py:45 | RX_GMT on "[GMT]sign digits rest" captures exactly that sign and those digits |
| Dtime.OffsetNameFlipsSign | src/senaite/core/api/dtime.py:296-304 | an offset name maps to "Etc/GMT" for zero hours, otherwise to "Etc/GMT" with the sign reversed and the hours without leading zeros |
| Dtime.AnsiLayoutOf | src/senaite/core/api/dtime.py:215-222 | a non-string raises TypeError; 8 characters select the date layout and 14 the date-and-time layout; any other length raises ValueError |
| Dtime.Digits | src/senaite/core/api/dtime.py:223 | the text of a fixed-width field is read exactly when it is all digits |
| Dtime.DayField | src/senaite/core/api/dtime.py:223 | the day field is two digits, or a space and a digit 1-9 |
| Dtime.ValidDateTime | src/senaite/core/api/dtime.py:223 | a datetime strptime accepts has at most 31 days in its month, and 29 February only in a leap year |
| Dtime.StrptimeAnsi | src/senaite/core/api/dtime.py:223 | a parsed date is a valid datetime, at midnight for the date layout; every failure is ValueError |
| Dtime.StrptimeAnsiIff | src/senaite/core/api/dtime.py:223 | strptime yields a datetime exactly when the layout's fields spell out its year, month, day (two digits or a space-padded digit) and, for the long layout, its time, midnight for the short layout, and it is a valid datetime |
| Dtime.AnsiToDt | src/senaite/core/api/dtime.py:206-223 | a non-string raises TypeError, a wrong length raises ValueError, and a result is a valid datetime, at midnight for 8 characters |
| Dtime.AnsiToDtIff | src/senaite/core/api/dtime.py:206-223 | ansi_to_dt yields a datetime exactly when the argument is a string of 8 or 14 characters whose layout fields spell out that valid datetime |
| Dtime.ToAnsi | src/senaite/core/api/dtime.py:264-267 | the ANSI text is 14 digits with the time and 8 without |
| Dtime.PaddedField | src/senaite/core/api/dtime.py:264-267 | a field of a valid datetime is written at exactly its width (4 digits for the year, 2 for the others) and reads back as the field |
| Dtime.AnsiDate | src/senaite/core/api/dtime.py:264-267 | the date part of the ANSI text is 8 digits |
| Dtime.AnsiTime | src/senaite/core/api/dtime.py:264-267 | the time part of the ANSI text is 6 digits |
| Dtime.FieldsAt | src/senaite/core/api/dtime.py:223 | fields written one after the other are read back at their offsets |
| Dtime.AnsiDateFields | src/senaite/core/api/dtime.py:264-267 | year, month and day of the ANSI text sit at offsets 0, 4 and 6 of the strptime layout and read back as the date |
| Dtime.AnsiTimeFields | src/senaite/core/api/dtime.py:264-267 | with the time shown, hour, minute and second sit at offsets 8, 10 and 12 and read back as the time |
| Dtime.DayFieldOfDigits | src/senaite/core/api/dtime.py:223 | a two-digit day is read by the day field's rule as well |
| Dtime.AnsiRoundTrip | src/senaite/core/api/dtime.py:206-267 | what to_ansi writes, ansi_to_dt reads back: every field with the time shown, the date at midnight without it |
| Dtime.AnsiExampleWithTime | src/senaite/core/api/dtime.py:207-211 | "19891201131405" reads as 1989-12-01 13:14:05 |
| Dtime.AnsiExampleDateOnly | src/senaite/core/api/dtime.py:207-211 | "19891201" reads as midnight of 1989-12-01 |
| Dtime.AnsiExampleSpacePaddedDay | src/senaite/core/api/dtime.py:217-223 | "198912 1", with a space-padded day, reads as 1989-12-01 |
| Dtime.AnsiExampleNoSuchDay | src/senaite/core/api/dtime.py:217-223 | "19890230", 30 February, is refused with ValueError |
| Dtime.Rewritten | src/senaite/core/api/dtime.py:449-462 | the Template form of a format has no '%' left and is at least as long as the format |
| Dtime.RewriteFormat | src/senaite/core/api/dtime.py:449-462 | the loop builds the Template form of the format: each '%' becomes "${" and the character after it is closed by '}' |
| Dtime.RewriteStepAt | src/senaite/core/api/dtime.py:451-462 | one pass of the loop body: a '%' adds "${", the character after a '%' adds itself and '}', any other character adds itself |
| Dtime.RewrittenPlain | src/senaite/core/api/dtime.py:449-462 | a format without '%' is unchanged |
| Dtime.DoublePercentNotEscaped | src/senaite/core/api/dtime.py:449-483 | "%%" is not an escape: "%%c" becomes "${${c}" and is written as "${" before the table's value for c |
| Dtime.Pad | src/senaite/core/api/dtime.py:464-467 | one character gets a leading zero; longer text is unchanged |
| Dtime.Upper | src/senaite/core/api/dtime.py:479 | lower-case letters become upper case, everything else is kept, and the length is unchanged |
| Dtime.IdentLength | src/senaite/core/api/dtime.py:483 | the placeholder name at the start of the text is the longest run of name characters |
| Dtime.FallbackData | src/senaite/core/api/dtime.py:470-481 | every key of the table is a valid placeholder name |
| Dtime.FallbackKeys | src/senaite/core/api/dtime.py:471-481 | the table keys are one-letter names |
| Dtime.SubstituteNoPlaceholder | src/senaite/core/api/dtime.py:483 | safe_substitute returns a text without '$' unchanged |
| Dtime.SubstituteLiteral | src/senaite/core/api/dtime.py:483 | safe_substitute copies a character that is not '$' |
| Dtime.SubstituteLoneDollar | src/senaite/core/api/dtime.py:483 | a '$' that starts no placeholder is kept |
| Dtime.SubstituteBraced | src/senaite/core/api/dtime.py:483 | "${c}" is replaced when c is a key and kept as written otherwise |
| Dtime.SubstituteNonName | src/senaite/core/api/dtime.py:483 | "${c}" with a c that cannot start a name is kept as written |
| Dtime.SubstitutePlaceholder | src/senaite/core/api/dtime.py:483 | one "${c}" placeholder is replaced by the table's value for c, or kept when c is not a key |
| Dtime.FallbackExpands | src/senaite/core/api/dtime.py:449-483 | for a format without '$', without "%%" and not ending in '%', rewriting and substituting equals the direct reading: each "%c" becomes the table's value for c, or "${c}" when c has no entry |
| Dtime.DateToStringFallback | src/senaite/core/api/dtime.py:443-483 | the fallback is the substitution of the rewritten format, and for such formats the direct expansion of every "%c" |

## Left out

- The renderers in `widgets/renderer.js` are not part of this model. A renderer call is logged with its kind and element and yields a new controller. What a renderer does to the page, and any exception it raises, is left out.
- CSS selector matching is a parameter (`matches`) over selectors and element positions. Parsing selectors, and elements changing between queries, are left out.
- `JSON.parse` of a `data-id` is a parameter (`parse`). It returns the property name the decoded value converts to, or nothing when parsing throws.
- The console info line at load time is left out. Warnings are recorded as the positions of the elements they name.
- Event objects and the listener machinery are left out. The two handlers are methods called directly, and the body's row listener is a flag set by the ready handler. A row that is not a Node is the `NotANode` root, so the whole document is scanned. `DOMContentLoaded` fires once, so a second registration of the row listener is not modelled.
- Widgets.WidgetNamespace: the namespace is assumed to be an object, held as a map. A truthy primitive left in `senaite.core.widgets` by another script is accepted by the initialisation (Widgets.InitNamespace), but under strict mode it would make every keyed write at lines 66 and 69 throw TypeError after the renderer ran, aborting the dispatch and so skipping the row listener; that path is not modelled, since the constructor takes a map of controllers. Property names with special meaning on a JavaScript object (`__proto__`) are not modelled either.
- Widgets.InitNamespace: JavaScript values cover undefined, null, booleans, integers, strings and objects with their own properties. Non-integer numbers, NaN, symbols, bigints, inherited properties, setters and objects shared or cyclic along the path are left out. The three assignments are a function from the old globals to the new ones, so in-place update of shared objects is not captured.
- `webpack/webpack.config.js` is build configuration, not behaviour, and is not modelled.
- Dtime.ToTimedelta: dict values are taken as integers. The conversion `to_int` makes of other values, and its fallback to 0, are not modelled.
- Dtime.TimedeltaToDict: the logged warning on the default path is left out.
- Dtime.GetTimezone: its ensures leave the matched case to Dtime.OffsetNameFlipsSign. Which library type the date is (`is_dt`, `is_DT`, `is_d`) is a constructor of `DateObject`, and the zone name a library reports is a field.
- Regular expressions and strptime are modelled on ASCII. The Unicode digits and word characters that Python's `\d` and `\w` also accept are left out.
- Dtime.AnsiToDt: only the year, month, day, hour, minute and second of the result are modelled. The result being a naive datetime is not represented.
- Dtime.ToAnsi: only the formatting (lines 264-267) is modelled. The conversion `to_dt`, its None result and the zone conversion (lines 233-262) are left out, so ToAnsi takes a valid datetime.
- Dtime.DateToStringFallback: only the fallback path is modelled.
  - The `is_date` check with its default, the conversion of strings by `to_DT`, and `strftime` itself (which dates make it raise ValueError) are left out.
  - The Zope DateTime accessors are a record of the values they return.
  - The text Python writes for the float `second()` is a field.
- Dtime.Upper: only ASCII letters are mapped. Unicode case mapping is left out.
- The other helpers of `dtime.py` are not part of this model. They wrap library calls (pytz, dateutil, Zope DateTime, the OS clock and time zone) rather than compute:
  - to_DT, to_dt, to_zone, get_tzinfo, is_valid_timezone, is_timezone_naive and the other is_* predicates;
  - to_iso_format, get_relative_delta, now, get_os_timezone;
  - from_timestamp, to_timestamp, to_localized_time.
