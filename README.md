# Pressure/temperature plotter core, in Dafny

This project models the core of `UI/pc_plotter.py`. That program is the desktop process monitor of
VaporSur S.A. ("Monitoreo del Sistema"). A microcontroller sends one status line per 100 ms over a serial port.
The program parses each line into pressure, temperature and eight other readings, and shows the
discrete readings as coloured labels. It keeps the last 200 pressure/temperature samples in a
circular buffer and plots them on a 20-second window. When the line goes quiet, a GUI timer fills
the gap with copies of the last sample, one per 100 ms, so the trace keeps moving.

The modules are:

- `LineProtocol` models `parse_data`. `re.search` is modelled as the leftmost position at which a
  maximal-munch matcher of the ten-field pattern succeeds. `float()` is modelled on the `[\d.-]`
  alphabet the pattern admits, with an exact decimal value. `LineProtocolExamples` proves what
  the parser returns for a sample status line.
- `Decimal` provides decimal digit strings and their values. Both the float conversion and the
  `:02d` formatting use it.
- `Labels` models `update_label_styles`: the emergency-shutdown colour and the keyword-driven
  severity of the system-state label.
- `Clock` models `time_formatter` and `update_time_label`: Python's `int()` truncation, floor
  `//` and `%`, and `:02d` padding.
- `Ring` models the circular buffer on sequences. It holds the slot invariant and the
  chronological read-out: the prefix before the buffer wraps, the rotation after.
- `Plotter` models the `PlotterApp` store as a class:
  - three arrays, the write counter, the last values and the dirty flag;
  - a ghost history of every point ever written;
  - `receive_data`;
  - the gap-filling loop of `update_plots`;
  - the redraw decision with its frame and x-axis limits.

Clock readings are method parameters in integer milliseconds. Stored times are milliseconds
since the first real sample. The source's float seconds become these milliseconds.

Two behaviours of the code that are easy to misread:

- The gap filler does not set the dirty flag. `update_plots` keeps a local `added_dummy` flag and
  redraws if the dirty flag or that flag is set, so the observable effect is the same.
- Stored times are only non-decreasing when the wall clock does not go backwards. The code does
  not enforce strictly increasing times, so `AppendInOrder` and `GapsInOrder` state the ordering
  under that condition rather than as an invariant.

## Model

| member | source | states |
|---|---|---|
| LineProtocol.RunLength | UI/pc_plotter.py:94 | the longest run of a character class at the front of a string: in range, entirely of the class, and the next character (if any) is outside it |
| LineProtocol.RunLengthConcat | UI/pc_plotter.py:94 | a run continues exactly across a prefix of the class |
| LineProtocol.CommaInNoClass | UI/pc_plotter.py:94 | none of `[\d.-]`, `\w`, `[\w\s:]` contains ',', so a greedy group can never swallow the next key |
| LineProtocol.GrammarChained | UI/pc_plotter.py:94 | every key after the first starts with a character the preceding group's class cannot hold |
| LineProtocol.MatchFields | UI/pc_plotter.py:94-95 | a match at one position yields ten groups, each a non-empty run of its class |
| LineProtocol.MatchFieldsSound | UI/pc_plotter.py:94-95 | the found groups, with the keys between them, spell a prefix of the input |
| LineProtocol.MatchFieldsComplete | UI/pc_plotter.py:94-95 | any text made of the keys and fitting groups is matched: the same groups, the last one extended greedily into what follows |
| LineProtocol.MatchFieldsRoundTrip | UI/pc_plotter.py:94-95 | rendering groups and matching them back gives the same groups when the next character ends the last group |
| LineProtocol.SearchFrom | UI/pc_plotter.py:95 | a found match lies at or after the start, and the matcher succeeds there with the reported groups |
| LineProtocol.SearchFromLeftmost | UI/pc_plotter.py:95 | `re.search` semantics: no earlier position matches, and `None` only when no position matches |
| LineProtocol.Search | UI/pc_plotter.py:95 | `re.search` of the pattern: a found match succeeds at its position and no earlier position matches; `None` only when no position matches |
| LineProtocol.DotIndex | UI/pc_plotter.py:99-102 | index of the first '.', with no '.' before it |
| LineProtocol.UnsignedDecimalShape | UI/pc_plotter.py:99-102 | splitting at the first '.' accepts exactly the texts of digits and points with no second point and at least one digit |
| LineProtocol.FloatSyntaxShape | UI/pc_plotter.py:99-102 | `float` accepts a `[\d.-]` text exactly when, past an optional leading '-', it is digits with at most one '.' and at least one digit |
| LineProtocol.UnsignedValue | UI/pc_plotter.py:99-102 | the value of an unsigned numeral lies between its whole part (the digits before the point) and the next integer |
| LineProtocol.FloatValue | UI/pc_plotter.py:99-102 | the value of an accepted numeral has the digits before the point as its whole part, truncated toward zero, and the sign of a leading '-' |
| LineProtocol.FloatOfPointed | UI/pc_plotter.py:99-102 | `float("a.b")` is the value of `a` plus `b` scaled by 10^-len(b) |
| LineProtocol.FloatOfNegated | UI/pc_plotter.py:99-102 | a leading '-' negates the value |
| LineProtocol.FloatOfDigits | UI/pc_plotter.py:99-102 | every non-empty run of digits is float syntax and converts to its decimal value |
| LineProtocol.FloatOfDecimal | UI/pc_plotter.py:99-102 | the decimal text of a natural number converts back to that number |
| LineProtocol.FloatRejectsInnerMinus | UI/pc_plotter.py:99-102 | `float` rejects a '-' anywhere but in front (the "1-2" case) |
| LineProtocol.FieldsOf | UI/pc_plotter.py:98-109 | the ten groups are assigned to the ten keys in pattern order |
| LineProtocol.FoundTokens | UI/pc_plotter.py:94-108 | the six token fields of a match are non-empty runs of their classes, and ESTADO holds no ',' |
| LineProtocol.ParseData | UI/pc_plotter.py:92-112 | a returned record's ESTADO is a non-empty `[\w\s:]` run without ',', and F, M, ESD, RELIEF and PURGE are non-empty `\w` runs |
| LineProtocol.ParseRoundTrip | UI/pc_plotter.py:92-112 | a line carrying well-formed numeric fields parses to exactly their converted values |
| LineProtocol.ParseRejectsBadNumber | UI/pc_plotter.py:96-112 | when the leftmost match has a numeric group `float` rejects, the result is `None`; the search does not move on |
| LineProtocol.ParseRejectsInnerMinus | UI/pc_plotter.py:96-112 | a line like "P:1-2,..." yields `None` |
| LineProtocol.ParseNoMatch | UI/pc_plotter.py:95-112 | a line with no match anywhere yields `None` |
| LineProtocolExamples.NominalWellFormed | UI/pc_plotter.py:94 | the sample status line's ten texts fit the pattern's classes |
| LineProtocolExamples.NominalReading | UI/pc_plotter.py:99-102 | the sample line's four numeric texts convert to 300.5, 150.2, 45.0 and 10.0 |
| LineProtocolExamples.ParseNominalLine | UI/pc_plotter.py:92-112 | the sample status line parses to P=300.5, T=150.2, MV=45.0, SH=10.0 and its six tokens |
| Decimal.DecimalString | UI/pc_plotter.py:170 | the decimal text of a natural number is non-empty digits, one digit exactly below ten, with no leading zero above zero |
| Decimal.DecimalRoundTrip | UI/pc_plotter.py:170 | the decimal text of `n` reads back as `n` |
| Decimal.DecimalCanonical | UI/pc_plotter.py:170 | conversely, a digit string with no leading zero is the decimal text of its own value |
| Labels.OccursStep | UI/pc_plotter.py:363-366 | a word occurs in a text exactly when it is a prefix of it or occurs in the text past its first character |
| Labels.Contains | UI/pc_plotter.py:363-366 | the left-to-right substring scan `w in s` holds exactly when the word occurs at some position |
| Labels.AnyIn | UI/pc_plotter.py:363-366 | `any(word in s for word in words)` holds exactly when some listed word occurs |
| Labels.StateSeverity | UI/pc_plotter.py:362-368 | critical iff a critical keyword occurs; warning iff none does and a warning keyword does; nominal iff no keyword occurs |
| Labels.LabelStyles | UI/pc_plotter.py:351-368 | the ESD label shows the alarm colour exactly when the value is "Activado"; the state label takes the keyword severity |
| Labels.NominalStateIsNominal | UI/pc_plotter.py:357-368 | the sample line's "Normal"/"Operando Normal" shows no alarm and the nominal colour |
| Clock.Truncate | UI/pc_plotter.py:167 | `int(x)` truncates toward zero: floor for non-negative, ceiling for negative values |
| Clock.MinutesSeconds | UI/pc_plotter.py:168-169 | `minutes * 60 + seconds == total` with `0 <= seconds < 60` (floor division) |
| Clock.Pad2 | UI/pc_plotter.py:170 | `:02d` gives at least two characters: the digits of the value, zero-padded below ten and with no leading zero from ten on, and '-' then the digits (no leading zero) for a negative value |
| Clock.FormatClock | UI/pc_plotter.py:167-170 | the text has a ':' three from the end; the two digits after it are the seconds past the minute; before it stand the floor-divided minutes: for a non-negative count as digits, exactly two or else with no leading zero; for a negative count as '-' and the digits of their magnitude with no leading zero |
| Clock.ClockRoundTrip | UI/pc_plotter.py:165-170 | for a non-negative count of seconds, the `MM:SS` text reads back as that count (the reader takes only minutes padded to two digits and no further, and seconds below sixty) |
| Clock.Pad2Canonical | UI/pc_plotter.py:170 | conversely, digits of length two, or longer with no leading zero, are what `:02d` prints for their value |
| Clock.ReadClockCanonical | UI/pc_plotter.py:165-170 | every text the reader accepts is exactly the `MM:SS` text of the count it reads, so `MM:SS` text and non-negative counts correspond one to one |
| Clock.TimeFormatter | UI/pc_plotter.py:165-170 | the tick is in milliseconds, as the model stores sample times; a non-negative tick reads back as its whole seconds; a tick within a second below zero truncates to "00:00"; a tick of -1 s or less shows a '-'; any negative tick is the clock text of minus its whole seconds, truncated toward zero |
| Clock.ElapsedSeconds | UI/pc_plotter.py:324 | `int()` of the elapsed milliseconds over 1000 is the whole seconds elapsed, or minus the whole seconds the clock went back |
| Clock.WholeSeconds | UI/pc_plotter.py:324 | `int()` of a non-negative number of milliseconds over 1000 is integer division by 1000 |
| Clock.ElapsedLabel | UI/pc_plotter.py:322-326 | the label is the prefix and then the clock text of the whole seconds elapsed; if the clock has gone back, of minus the whole seconds it went back, truncated toward zero |
| Clock.ElapsedRoundTrip | UI/pc_plotter.py:322-326 | the label starts with "Tiempo Transcurrido: ", and the text after it reads back as the whole seconds elapsed |
| Clock.TickExample | UI/pc_plotter.py:165-170 | a tick at 125700 ms (125.7 s) reads "02:05" |
| Clock.ElapsedExample | UI/pc_plotter.py:322-326 | 90.5 s after start the label reads "Tiempo Transcurrido: 01:30" |
| Clock.ElapsedBackwardsExample | UI/pc_plotter.py:322-326 | 5 s before start the label reads "Tiempo Transcurrido: -1:55" |
| Clock.NegativeExample | UI/pc_plotter.py:167-170 | -5 s formats as "-1:55", following the floor semantics |
| Ring.Chrono | UI/pc_plotter.py:285-302 | the read-out has `min(written, MaxPoints)` elements |
| Ring.HoldsAfterWrite | UI/pc_plotter.py:243-247 | writing the next sample into slot `count % MaxPoints` keeps every one of the newest `MaxPoints` samples in its slot |
| Ring.ChronoBeforeWrap | UI/pc_plotter.py:290-294 | before the buffer wraps, the prefix read-out is the whole history |
| Ring.ChronoAfterWrap | UI/pc_plotter.py:295-302 | after it wraps, the rotation at `count % MaxPoints` is the newest `MaxPoints` samples in write order |
| Ring.ChronoIsNewest | UI/pc_plotter.py:285-302 | in either case the read-out equals the last `min(count, MaxPoints)` samples |
| Plotter.FillCount | UI/pc_plotter.py:268-280 | the number of filler points: the last one is no later than now, and one more interval would pass now |
| Plotter.FillCountUnique | UI/pc_plotter.py:268-280 | those two conditions determine the count |
| Plotter.FillCountExample | UI/pc_plotter.py:268-280 | three and a half silent intervals give three filler points |
| Plotter.XLimits | UI/pc_plotter.py:309-315 | the window is two intervals wider than the shown span, and in time order every shown point lies inside it |
| Plotter.FrameWindow | UI/pc_plotter.py:309-315 | for a time-ordered history, every point of the drawn frame lies inside its x-axis window |
| Plotter.AppendInOrder | UI/pc_plotter.py:236-245 | appending a sample no earlier than the last keeps the times in order |
| Plotter.GapsInOrder | UI/pc_plotter.py:268-280 | filler points one interval apart after the last point keep the times in order |
| Plotter.NewestSeries | UI/pc_plotter.py:295-302 | taking the newest samples commutes with splitting out the time, pressure and temperature series |
| Plotter.PlotterApp.constructor | UI/pc_plotter.py:176-187 | zeroed arrays, no samples, no time origin, not dirty |
| Plotter.PlotterApp.Append | UI/pc_plotter.py:243-247 | writes slot `dataIndex % MaxPoints` of each series, leaves the other slots unchanged, and adds one to the counter |
| Plotter.PlotterApp.ReceiveData | UI/pc_plotter.py:229-256 | the first reading fixes the origin, so its time is 0; the reading is appended at `now - origin`; last values and time are updated; dirty is set; the label styles are those of `update_label_styles` |
| Plotter.PlotterApp.SynthesizeGaps | UI/pc_plotter.py:262-280 | nothing before the first real sample; otherwise exactly `FillCount` points carrying the last values, one interval apart after the last point, after which the next expected time is past now |
| Plotter.PlotterApp.Snapshot | UI/pc_plotter.py:285-315 | the drawn series are the newest `min(dataIndex, MaxPoints)` points in write order, and the window runs from the oldest to two intervals past the newest |
| Plotter.PlotterApp.Redraw | UI/pc_plotter.py:282-317 | a frame is drawn iff the dirty flag was set or filler points were added; the flag is clear afterwards, and only a draw clears it |
| Plotter.PlotterApp.UpdatePlots | UI/pc_plotter.py:258-320 | the elapsed-time text; then, once a real sample exists, exactly `FillCount` filler points carrying the last values, one interval apart after the last point, with the last-update time moved to the newest of them, less than one interval before now; then a redraw iff dirty or filled, showing the newest points |

## Left out

- Serial I/O is not modelled: `SerialReader.__init__`, `run`, `stop`, `find_port` and `start_serial`. That includes UTF-8 decoding, `strip()` and the `if line:` guard. `ParseData` takes the already-stripped line.
- The Qt widgets, matplotlib axes and canvas, style-sheet strings, `setup_labels`, `init_plot`, `closeEvent` and `main` are not modelled. Only the choices they display are: the label severities, the frame and the axis limits.
- The label texts of `update_labels_immediate` are not modelled, because they format floats with `:.1f`.
- Time is not modelled as floats. `time.time()` becomes an integer-millisecond parameter, so the filler's `expected_next += 0.1` does not accumulate rounding. The arrays hold exact integers and reals rather than `float32`.
- LineProtocol.FloatValue: the value is the exact decimal, not the nearest binary double.
- `\d` is modelled as the ASCII digits only, and `float()` only over ASCII digits. Python also accepts other Unicode decimal digits.
- `\w` beyond U+00FF is not modelled. `\w` is modelled as ASCII letters, digits and '_' plus the Latin-1 letters and numeric characters. `\s` is the full `str.isspace` set.
- The `try`/`except` blocks that print and carry on are not modelled. The only exception the modelled code can raise is `float`'s `ValueError`, and it is modelled as `None`.
- Plotter.PlotterApp.Redraw: the `n_points == 0` early return is not modelled as a branch. It cannot be reached, because the invariant makes the dirty flag and added filler points imply a stored sample; the model asserts that instead.
- Concurrency is not modelled. `receive_data` runs on the GUI thread through a queued Qt signal, so operations are modelled as atomic method calls.
- The elapsed-time label and the gap filler read the clock separately in the source. The model gives `UpdatePlots` one clock reading for both.
- Plotter.PlotterApp.ReceiveData: time order of the stored times is not an invariant, because the source does not enforce it. It is stated by `AppendInOrder` and `GapsInOrder` for a clock that does not go backwards.
