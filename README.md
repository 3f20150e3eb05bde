# osd_monitors: a Dafny model of its sequential core

osd_monitors samples one operating-system counter source (the active
*monitor*: clock, CPU, context switches, running processes, memory, swap,
swapping activity, disk usage, disk activity or network) and shows a line of
text in an on-screen overlay.  For the I/O-rate and usage monitors, a `%x`
template, with numbers scaled to K/M/G/T/P units, controls the line; the
clock, cpu and runps monitors hand their format to strftime or printf.  For
the cpu, I/O-rate and usage monitors, the colour follows a table of level
thresholds; the clock and runps monitors keep the configured colour.  Signals hide, show or toggle the overlay.

This project models the parts of `osd_monitors.c` that are plain sequential
logic, and proves what they do:

- **Number formatting** (`NumberFormat`): the tier scan of `format_number`
  over its 13-row limit table, and the cut of the printed text to the
  10-byte buffer.  `Thresholds` holds the scan, which `color_for_level`
  also uses.
- **Template expansion** (`Template`): `format_io_stats` and
  `format_usage_stats` write into a caller buffer (an `array<char>`) and
  count down a byte budget.  The two source functions run the same loop and
  differ only in their `switch`.  So `ExpandInto` is that loop, and each
  function passes its directive table (`IoDirectives`, `UsageDirectives`).
  `Expand` is the specification of what gets written.  `Unbounded` is the
  same expansion with no budget.
- **Time arithmetic** (`TimeVal`): `timeval_subtract`, as a pure function.
- **The monitor table** (`Monitors`): the ten descriptors as data.  Their
  capabilities are tags here, not function pointers.  `FindMonitor` is the
  case-insensitive first-match loop of the `-T` option.
- **Configuration** (`Options.Config`, a class over `struct cfg`): the
  defaults that `parse_options` sets; `-T` selection; `-L` parsing into the
  fixed 100-slot array; and `color_for_level`.  `LevelColors` holds the
  tokenizer (the model of `strtok_r` on `" :,;"`), the pairing of tokens,
  and the colour selection function.
- **Signals and the sampling loop** (`Sampling`): `signal_handler` as a
  transition on the two flags, and one pass of `main`'s loop as a method of
  the class `Sampler`.  That class holds the two snapshot slots, `t_before`
  and the flags.  One pass decides whether to sample, clears the change flag,
  refreshes the "now" slot, renders or blanks, and then swaps the slot
  references and moves `t_before`.

Printing a real number (`snprintf` with `%.1f`, `%.0fK`, `%.2e`, …) is
floating-point work and is not modelled.  It is a parameter,
`printf: (string, real) -> CString`, that gives the full text of one
conversion.  The model then applies the source's 9-character cut, so the
10-byte bound is proved, not assumed.  The `%F`/`%U` percentage texts come
from a second parameter, `percent(part, whole)`.  `atof` is the parameter
`atof`.  The clock reading is the step's `tNow` argument.  A monitor's
retrieval routine is the step's `retrieve` argument: it maps the "now"
slot's old contents to its new contents.

Two behaviours of the code that are easy to misread; the model follows the
code:

- `color_for_level` returns the **first** entry's colour when every
  threshold is above the level (`level_colors[1].level > level` holds at
  `i = 0`).  `SelectBelowAll` proves this.  On a
  sorted table, with the level at or above the first threshold, the code
  picks the last entry whose threshold is at most the level
  (`SelectSorted`).
- Number copying in the expanders uses `*s && --maxsize`.  So a directive
  text at least as long as the remaining budget `m` gives only `m - 1`
  characters, even when all `m` characters would have fit.  One slot of
  the buffer is then left unused (`DirectiveCut`, `ExactFitDropsLastChar`).
  Literal characters use every slot.  `ExpandFillsBudget` proves that a cut
  expansion wastes at most one slot.

## Model

| member | source | states |
|---|---|---|
| Thresholds.FirstRise | osd_monitors.c:135-140 | the scan's index is in the table; it is the last index or its successor's limit exceeds the value; every earlier successor's limit is at most the value |
| Thresholds.FirstRiseFrom | osd_monitors.c:135-140 | the same three facts for the scan started at index k |
| Thresholds.FirstRiseUnique | osd_monitors.c:104-108 | those three facts determine the index, so any loop that establishes them returns the scan's index |
| Thresholds.FirstRiseMonotone | osd_monitors.c:135-140 | a larger value never stops the scan at an earlier index, for any table order |
| Thresholds.FirstRiseBelowAll | osd_monitors.c:104-106 | a value below every limit after the first selects index 0 |
| Thresholds.FirstRiseAscending | osd_monitors.c:104-108 | on ascending limits, with the value at or above limits[0], the result is the last index whose limit is at most the value |
| NumberFormat.FormatNumber | osd_monitors.c:113-141 | the tier loop selects the first tier that is the last one or whose successor's limit exceeds the number; the text is that tier's conversion of number/divider, cut to 9 characters |
| NumberFormat.NumberText | osd_monitors.c:111-112 | the number text is shorter than MAX_FORMATTED_NUMBER_SIZE (10) and is a prefix of the full rendering |
| NumberFormat.LimitsAscending | osd_monitors.c:118-131 | the tier limits are in ascending order |
| NumberFormat.TierBrackets | osd_monitors.c:118-140 | values below 10 use tier 0; from 10 on, the tier is the one whose [limit, next limit) range holds the value, and the scientific tier has no upper end |
| NumberFormat.TierMonotone | osd_monitors.c:135-140 | larger magnitudes never select a finer tier |
| Template.Expand | osd_monitors.c:150-168 | the expansion with m payload slots writes at most m characters |
| Template.ExpandIsPrefix | osd_monitors.c:150-168 | the budgeted expansion is always a prefix of the unbudgeted expansion: truncation only cuts |
| Template.ExpandWhenFits | osd_monitors.c:150-168 | when the unbudgeted expansion is shorter than the budget, the output is exactly that expansion |
| Template.ExpandFillsBudget | osd_monitors.c:164-167 | a cut expansion uses at least m - 1 of its m slots |
| Template.LiteralsCopied | osd_monitors.c:154-157 | a template without `%` is copied verbatim and in order, up to the budget |
| Template.UnknownDirective | osd_monitors.c:164 | `%` plus a non-directive character gives that character alone (so `%%` gives `%`) and uses one slot |
| Template.DirectiveCut | osd_monitors.c:166-167 | a directive text at least as long as the budget m gives exactly m - 1 characters and ends the expansion |
| Template.ExactFitDropsLastChar | osd_monitors.c:166-167 | with 3 slots left, the text "123" is written as "12" |
| Template.ExpandInto | osd_monitors.c:150-169 | the buffer holds the expansion with maxsize - 1 slots, then a NUL at an index below maxsize; nothing past the NUL changes |
| Template.ExpandItem | osd_monitors.c:154-167 | one loop pass consumes a literal or a `%` pair, and keeps (written text + expansion of the rest) unchanged |
| Template.ExpandDirective | osd_monitors.c:160-167 | the switch after `%`: the directive's text (cut as the budget requires) or the character itself, and the budget left after it |
| Template.CopyDirectiveText | osd_monitors.c:166-167 | the copy loop `*s && --maxsize`: a text shorter than the budget is copied whole; a longer one gives budget - 1 characters and leaves no budget |
| Template.FormatIoStats | osd_monitors.c:144-170 | format_io_stats writes the expansion with directives %i, %o and %t, then a NUL |
| Template.FormatUsageStats | osd_monitors.c:173-202 | format_usage_stats writes the expansion with directives %f, %F, %u, %U and %t, then a NUL |
| Template.IoDirectiveTexts | osd_monitors.c:160-163 | the recognised I/O directives are exactly i, o, t, and each text fits the 10-byte buffer |
| Template.UsageDirectiveTexts | osd_monitors.c:190-195 | the recognised usage directives are exactly f, F, u, U, t, and each text fits the 10-byte buffer |
| TimeVal.Subtract | osd_monitors.c:207-227 | the result's microseconds total equals x's total minus y's total, and the result usec lies in [0, 1000000] for any inputs |
| TimeVal.SubtractNormalized | osd_monitors.c:214-225 | normalised operands give a result with usec in [0, 1000000) |
| TimeVal.SubtractSign | osd_monitors.c:226 | a negative difference returns 1; a return of 1 means the difference is at most 0; the return is 0 or 1 |
| TimeVal.SubtractSignNormalized | osd_monitors.c:204-226 | for normalised operands, the return is 1 exactly when the difference is negative |
| TimeVal.SubtractFullSecond | osd_monitors.c:214-226 | for operands outside the normal range, the result usec can be a full second, and a zero difference can be flagged as negative |
| Monitors.CatalogueWellFormed | osd_monitors.c:624-715 | there are ten monitors; each that retrieves also allocates; each renders |
| Monitors.FindMonitor | osd_monitors.c:875-883 | the index of the first monitor whose name matches case-insensitively, or 10 when none matches |
| Monitors.SameIgnoringCaseEquivalence | osd_monitors.c:876 | case-insensitive matching is reflexive, symmetric and transitive |
| Monitors.SameIgnoringCaseLower | osd_monitors.c:876 | on lower-case strings, case-insensitive matching is plain equality |
| Monitors.NamesDistinct | osd_monitors.c:624-715 | catalogue names are lower-case and pairwise different |
| Monitors.OwnNameSelectsEntry | osd_monitors.c:875-881 | a name that matches entry k in any casing matches no earlier entry, so the lookup returns k |
| Monitors.UpperCaseMatches | osd_monitors.c:876 | "CPU" matches the cpu entry and "Net" matches the net entry |
| LevelColors.SelectBelowAll | osd_monitors.c:104-106 | a level below every threshold gets the first entry's colour, sorted table or not |
| LevelColors.SelectDegenerate | osd_monitors.c:102-108 | an empty table gives the configured colour; a one-entry table always gives its entry |
| LevelColors.SelectSorted | osd_monitors.c:104-108 | on a sorted table, with the level at or above the first threshold, the picked entry is the last whose threshold is at most the level |
| LevelColors.TrafficLights | osd_monitors.c:97-109 | with thresholds 0/green, 50/yellow, 80/red: 0 and 49.9 give green, 50 gives yellow, 100 gives red; an empty table gives the fallback |
| LevelColors.TokenLength | osd_monitors.c:820 | a token runs up to the first delimiter and contains none |
| LevelColors.Tokens | osd_monitors.c:820-832 | every token is non-empty and free of " :,;" (runs of delimiters produce no empty tokens), and there are no tokens exactly when the input is all delimiters |
| LevelColors.TokenLengthOf | osd_monitors.c:820 | a delimiter-free prefix followed by a delimiter or the end is split off whole |
| LevelColors.TokensOfJoin | osd_monitors.c:820-832 | splitting delimiter-joined tokens gives back exactly those tokens |
| LevelColors.TokensSkipRun | osd_monitors.c:820-832 | a run of delimiters, of any mix and length, produces no token: it separates like a single delimiter, and leading runs are skipped |
| LevelColors.TokensCons | osd_monitors.c:820-832 | a non-empty delimiter-free token ended by a delimiter is the first token, and scanning resumes after that delimiter |
| LevelColors.TokensSingle | osd_monitors.c:820-832 | a lone delimiter-free string is the one token |
| LevelColors.TokensOfTwoPairs | osd_monitors.c:820-832 | input like `0:green, 50:red`, mixing `:`, `,` and a space, gives the four tokens level, colour, level, colour in order |
| LevelColors.TokensAfterFirstPair | osd_monitors.c:820-832 | a colour, `", "`, and a second pair give the three tokens colour, level, colour |
| Options.Config.constructor | osd_monitors.c:846-858 | the defaults: first monitor with its format and device, colour "green", interval 1, no level colours |
| Options.Config.ColorForLevel | osd_monitors.c:97-109 | color_for_level returns the configured colour for an empty table, else the colour of entry FirstRise over the filled entries' levels |
| Options.Config.SelectMonitor | osd_monitors.c:875-885 | a matching name selects the first case-insensitive match and sets monitor, format and device to its defaults; an unmatched name warns and changes nothing |
| Options.Config.ParseLevelColors | osd_monitors.c:814-835 | the count grows by min(pairs, free slots) and never exceeds 100; the new pairs are appended after the old entries in input order; a trailing level sets only the next slot's level; every other slot is unchanged |
| Sampling.OnSignalKeepsBoolean | osd_monitors.c:345-358 | SIGUSR1 gives visibility 0, SIGUSR2 gives 1 and SIGHUP gives 1 - visibility, each with the change flag set; the flags stay 0 or 1; each of the three handled signals sets the change flag; any other signal changes nothing |
| Sampling.HangupTwice | osd_monitors.c:354-356 | two SIGHUPs restore the visibility |
| Sampling.HideShowIdempotent | osd_monitors.c:346-353 | SIGUSR1 and SIGUSR2 give the same state whatever they start from, and repeating them changes nothing |
| Sampling.Sampler.constructor | osd_monitors.c:942-949 | visibility 1, no change, t_before set to the start time, two distinct fresh slots when the monitor allocates, and one retrieval into the "before" slot when it retrieves |
| Sampling.Sampler.HandleSignal | osd_monitors.c:342-359 | the flags after the signal are OnSignal of the flags before |
| Sampling.Sampler.Step | osd_monitors.c:953-970 | inside the interval with no visibility change, nothing changes; otherwise the flag is cleared, the "now" slot is refreshed, the render call (or a blank line when hidden) gets both slots and both times, and then the slot references swap and t_before becomes t_now |
| Sampling.HideThenStep | osd_monitors.c:346-349 | SIGUSR1 followed by one loop pass shows an empty line, whatever the elapsed time |
| Sampling.TwoSamples | osd_monitors.c:969-970 | two sampling passes return each slot to its original role |

## Left out

- Floating point: `speed`, the CPU percentage, `USED_PERCENTAGE`, and float rounding in `in + out` and `total - free`.  Values are `real`s, and printing a number is the parameter `printf`.
- The `%F`/`%U` percentages (`100.0 * part / total`, which divides by zero when the total is 0): the parameter `percent`.  The model applies only the 9-character cut.
- `read_columns_from_file`, `read_lines_from_file`, `statvfs`, `strftime`/`localtime`, `getpagesize`: file and OS I/O.  The monitors' retrieve and render routines are tags in the table.  A retrieval is the `retrieve` argument of a step.
- `usleep` and `gettimeofday`: the step receives `tNow`.  The loop repeats forever, so it is modelled one pass at a time.
- All `xosd_*` calls: a foreign display library.  A step returns what it would show (`Shown`) instead.
- `setup_signal_handlers` and asynchronous delivery: signals are modelled as steps between loop passes.
- The `getopt_long` loop, `print_usage` and every option except `-T` and `-L`.  This includes the `-D` case falling through into `-f`.
- `malloc`, `free` and `strdup`: slots and colour strings are values or fresh objects.
- The template precondition `PercentsPaired`: a template that ends in a lone `%` makes the expanders read past the terminator, so such templates are excluded.
- Integer widths: the model's integers are unbounded, so overflow of `time_t`, `suseconds_t`, `int` and the `char` `n_formats` is not modelled.
- Characters: a `char` here is one byte of a C string.  Templates, names and the `-L` option are byte strings, and the budget counts bytes; multi-byte encodings are not modelled.
- `Sampling.TwoSamples`: states only that the slots return to their roles, not the payloads after two refreshes.
