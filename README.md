# i3blocks battery block, modelled in Dafny

`i3blocks_battery` is a small status-bar helper for i3blocks. It reads seven
attribute files of a battery under `/sys/class/power_supply/<name>/`, builds one
`Battery` record, derives integer percentages from it and prints a line of Pango
markup (an icon and a colour chosen by charge band and charge status). When the
charge is at or below 5% it exits with code 33, which i3blocks shows as urgent.

The model has five files:

- `wrappers.dfy` (`Wrappers`): the `Option` and `Result` types.
- `errors.dfy` (`Errors`): `BatteryError`, its two fixed texts and the
  conversion from `std::io::Error`.
- `std_text.dfy` (`StdText`): the parts of Rust's standard library the reader
  relies on. These are `str::trim` with the Unicode White_Space set,
  `u32::from_str` with its checked digit loop, and the decimal `Display` of `u32`.
- `battery.dfy` (`Batteries`): the charge status and its parser, the attribute
  paths (`PathBuf::push` on Unix), reading one file (`read_from_file`, a method),
  reading all seven (`Battery::initialize`, a method with an early return after
  each read) and the three `u32` metrics. The file system is a
  `map<string, Option<string>>`. A path that is not a key cannot be opened. A key
  mapped to `None` opens but cannot be read. `read_battery_data` is the call
  `ReadFromFile(fs, AttributePath(name, i), parse)` inside `Initialize`, where
  `AttributePath(name, i)` is `get_full_path(name, file)` for the `i`-th attribute file.
- `block.dfy` (`Block`): the band and status logic of `console_output` (a method
  over mutable locals), `get_env_var`, the `BLOCK_INSTANCE` default and the exit
  code of `main`. The environment variable is an `Option<string>` input and the
  exit code is a returned value.

`Initialize` and `ConsoleOutput` are proved against independent specification
functions. `Acquire` defines the reading by "the first attribute that fails".
`ConsoleText` defines the output through the `BANDS` table. Both specifications
are then characterised by lemmas.

The comment at src/main.rs:204-207 speaks of 33%, but the code compares with
`CRITICAL_BAT_LEVEL`, which is 5. The model follows the code.

## Model

| member | source | states |
|---|---|---|
| Errors.ErrorTexts | src/error.rs:11-26 | `Display` gives "IO Error" and "Conversion Error"; `description` gives "Error reading battery files" and "Unable to convert data"; each text tells the two variants apart |
| Errors.FromIoForgetsDetail | src/error.rs:29-33 | every `io::Error` converts to `IoError`, whatever its kind and message |
| Errors.Message | src/error.rs:11-18 | `Display` shows "IO Error" exactly for `IoError` and "Conversion Error" exactly for `ConversionError` |
| Errors.Description | src/error.rs:20-27 | `description` is "Error reading battery files" exactly for `IoError` and "Unable to convert data" exactly for `ConversionError` |
| Errors.FromIo | src/error.rs:29-33 | the conversion used by `?` yields `IoError` for any `io::Error` |
| StdText.TrimStart | src/battery.rs:116 | the result is a suffix of the input; the dropped prefix is all whitespace; the result does not start with whitespace |
| StdText.TrimEnd | src/battery.rs:116 | the result is a prefix of the input; the dropped suffix is all whitespace; the result does not end with whitespace |
| StdText.Trim | src/battery.rs:116 | a trimmed text neither starts nor ends with whitespace |
| StdText.TrimIsSlice | src/battery.rs:116 | the trim is a slice `s[i..j]` of the input with only whitespace before `i` and after `j` |
| StdText.TrimIgnoresTrailingWhitespace | src/battery.rs:116 | appending whitespace to a text does not change its trim |
| StdText.TrimIgnoresLeadingWhitespace | src/battery.rs:116 | prepending whitespace to a text does not change its trim |
| StdText.TrimOfTrimmed | src/battery.rs:116 | a text with no whitespace at either end is its own trim |
| StdText.AccumulateDigitsValue | src/battery.rs:116 | the checked digit loop succeeds exactly on all-digit strings whose value fits in a `u32`, and yields that value |
| StdText.ParseU32Accepts | src/battery.rs:116 | `u32::from_str` accepts exactly an optional `+` then one or more digits whose value is at most 2^32-1, and returns that value |
| StdText.ParseU32 | src/battery.rs:116 | `u32::from_str` as a checked digit loop after an optional `+`; its accepted inputs and value are stated by ParseU32Accepts and ParseRejectsWhitespace |
| StdText.ParseRejectsWhitespace | src/battery.rs:116 | a string that parses has no whitespace at either end; a numeral followed by a newline does not parse, so the trim is needed |
| StdText.DecimalString | src/main.rs:66-67 | the printed percentage is a non-empty digit string denoting the number, with no leading zero (0 prints as "0") |
| StdText.ParseDecimalRoundTrip | src/main.rs:66-67 | parsing the printed numeral of any `u32` gives it back |
| Batteries.ParseStatus | src/battery.rs:28-35 | accepts exactly "Charging", "Discharging" and "Full" (case-sensitive); what it accepts displays as the input |
| Batteries.StatusRoundTrip | src/battery.rs:28-46 | parsing the displayed text of a status gives that status; the display is injective |
| Batteries.StatusText | src/battery.rs:38-46 | `Display` shows "Charging", "Discharging" and "Full", each exactly for its own status |
| Batteries.PathPush | src/battery.rs:105-110 | Unix `PathBuf::push`, one segment at a time; its shape is stated by PathPushShape |
| Batteries.PathPushShape | src/battery.rs:105-110 | an absolute segment replaces the path; any other keeps the path as a prefix and ends the result, with one `/` between them exactly when the path is non-empty and does not end in `/`, and nothing otherwise |
| Batteries.FullPath | src/battery.rs:105-110 | `get_full_path`: the five segments pushed in order; characterised by FullPathShape, FullPathOfPlainName and FullPathOfAbsoluteName |
| Batteries.FullPathShape | src/battery.rs:105-110 | with a relative name and file the path starts with `/sys/class/power_supply/`, so it lies inside that directory; a relative file name always ends the path |
| Batteries.PowerSupplyDirSegments | src/battery.rs:105-110 | pushing `/sys`, `class`, `power_supply` onto an empty path gives `/sys/class/power_supply` |
| Batteries.FullPathOfPlainName | src/battery.rs:105-110 | for a relative name with no trailing `/`, the path is `/sys/class/power_supply/` + name + `/` + file |
| Batteries.FullPathOfAbsoluteName | src/battery.rs:105-110 | an absolute name replaces the power-supply directory: the path is name + `/` + file |
| Batteries.ReadFromFile | src/battery.rs:112-121 | the method's result is `ReadResult`: `IoError` when the file cannot be opened or read, otherwise the parse of the trimmed text or `ConversionError` |
| Batteries.ReadResult | src/battery.rs:112-121 | the specification of `read_from_file` over the file map; its error cases and value are stated by ReadErrors and ReadIgnoresTrailingWhitespace |
| Batteries.ReadErrors | src/battery.rs:112-121 | the read fails with `IoError` iff open or read fails; with `ConversionError` iff the trimmed text does not parse; on success the value is the parse |
| Batteries.ReadIgnoresTrailingWhitespace | src/battery.rs:114-116 | whitespace after the value, such as the final newline, does not change the read |
| Batteries.FirstFailure | src/battery.rs:50-57 | the first failing attribute index lies between the start and 7 |
| Batteries.FirstFailureIsFirst | src/battery.rs:50-57 | every attribute before the first failure reads; the first failure fails |
| Batteries.FirstFailureAt | src/battery.rs:50-57 | an attribute that fails after all earlier ones read is the first failure |
| Batteries.AttemptCount | src/battery.rs:50-57 | `initialize` makes between 1 and 7 open attempts |
| Batteries.Acquire | src/battery.rs:50-69 | the specification of `initialize` by the first failing attribute; characterised by FirstFailureDecides, AllAttributesRead, AcquireSucceedsIffAllRead, AcquireReportsFirstError, AcquireFields and AcquireIgnoresLaterFiles |
| Batteries.FirstFailureDecides | src/battery.rs:50-57 | when attribute k is the first to fail, the reading is k's error after k + 1 open attempts |
| Batteries.AllAttributesRead | src/battery.rs:50-68 | when none fails, every attribute reads and the result is the record of the seven values after 7 open attempts |
| Batteries.AcquireSucceedsIffAllRead | src/battery.rs:50-68 | the reading succeeds iff every one of the seven attributes reads |
| Batteries.AcquireReportsFirstError | src/battery.rs:50-57 | a failed reading returns the error of an attribute all of whose predecessors read |
| Batteries.AcquireFields | src/battery.rs:50-68 | a successful record carries the input name, and each field holds the value read from that field's file at `get_full_path(name, file)` |
| Batteries.NumberReadStep | src/battery.rs:51-57 | one numeric read either is the first failure or passes the search on to the next attribute with its value |
| Batteries.StatusReadStep | src/battery.rs:55 | the `status` read either is the first failure or passes the search on with the parsed status |
| Batteries.Initialize | src/battery.rs:50-69 | the seven reads in order with early return give exactly `Acquire`, and the number of open attempts, the failing one included, is `AttemptCount` |
| Batteries.AttributeErrorIsLocal | src/battery.rs:101-121 | the outcome of one attribute depends only on its own file |
| Batteries.AcquireIgnoresLaterFiles | src/battery.rs:50-57 | a failed reading is unchanged by any change to files after the failing one: later files are never read |
| Batteries.MissingBatteryFailsAtOnce | src/battery.rs:51 | without a `charge_now` file the reading fails with `IoError` after one open attempt |
| Batteries.UnknownStatusText | src/battery.rs:28-35 | "Unplugged" is not a status |
| Batteries.UnknownStatusTrimmed | src/battery.rs:116 | trimming "Unplugged\n" gives "Unplugged" |
| Batteries.UnknownStatusFails | src/battery.rs:55 | an unknown status, after four good numeric reads, fails the reading with `ConversionError` after five open attempts |
| Batteries.Measurable | src/battery.rs:86-87 | the readings on which a debug build of `percent_remaining` does not panic: exactly those with `charge_full != 0` and `charge_now` at most 42949672, so that `charge_now * 100` fits in a `u32` |
| Batteries.PercentRemaining | src/battery.rs:86-92 | at most 100; exactly 100 iff `charge_now >= charge_full`; below 100 it is the floor of `charge_now*100/charge_full` |
| Batteries.Health | src/battery.rs:93-95 | the floor of `charge_full*100/charge_full_design`, unclamped; at least 100 iff full reaches design; exactly 100 when equal |
| Batteries.AbsPercentRemaining | src/battery.rs:96-98 | the floor of `charge_now*100/charge_full_design`, unclamped; at least 100 iff the charge reaches design; at most the unclamped percent of full when `charge_full <= charge_full_design` |
| Batteries.MetricsExamples | src/battery.rs:86-98 | now=50, full=100, design=120 gives percent 50, abs 41, health 83; now=130, full=125, design=120 gives 100, 108, 104 |
| Block.FindBand | src/main.rs:44-52 | the band search returns the first band holding the percentage, or none |
| Block.BandsPartition | src/main.rs:44-52 | a percentage lies in some band iff it is at most 100, and then in exactly one; the `exit(1)` arm is unreachable |
| Block.BandTable | src/main.rs:45-50 | 0-5 empty/bg, 6-10 empty/red, 11-35 quarter/orange, 36-60 half/yellow, 61-85 three-quarters/cyan, 86-100 full/green, each range iff its look |
| Block.Styled | src/main.rs:54-64 | the icon, colour and percentage shown for a status; characterised by FullOverridesBand, ChargingSwapsOnlyIcon, DischargingShowsBand and StyledPalette |
| Block.FullOverridesBand | src/main.rs:55-59 | a full battery shows the check mark, green and 100%, so any two full batteries print the same text |
| Block.ChargingSwapsOnlyIcon | src/main.rs:60-62 | charging shows the plug with the band's colour and the raw percentage |
| Block.DischargingShowsBand | src/main.rs:63 | discharging shows a band's icon and colour, from the band holding the raw percentage |
| Block.StyledPalette | src/main.rs:26-40 | only the seven icons and six colours are ever shown, none of them a line break |
| Block.MarkupIsSingleLine | src/main.rs:66-67 | the markup before the percentage holds no line break |
| Block.SpanLine | src/main.rs:66-67 | the `format!` template: `<span color="…" font_desc="Font Awesome"> ` icon ` </span>`, then the decimal percentage, `%` and a newline; its shape is stated by SpanLineShape and MarkupIsSingleLine |
| Block.SpanLineShape | src/main.rs:66-67 | a span line ends in its only line break |
| Block.ConsoleOutput | src/main.rs:42-68 | the range chain and the status overrides on mutable locals print exactly `ConsoleText`, the `BANDS`-table specification |
| Block.ConsoleText | src/main.rs:66-68 | the specification of the printed text through the `BANDS` table; characterised by ConsoleTextLines, FullOverridesBand and ConsoleOutput |
| Block.ConsoleTextLines | src/main.rs:66-68 | the output is one line printed twice, as i3blocks' full text and short text |
| Block.EnvVar | src/main.rs:146-152 | `None` iff the variable is unset or empty; otherwise its value |
| Block.BatteryName | src/main.rs:195-198 | the `BLOCK_INSTANCE` value when set and non-empty, otherwise "BAT0"; never empty |
| Block.CriticalThreshold | src/main.rs:208-210 | urgent iff the raw percentage is at most 5, which is iff `charge_now*100 < 6*charge_full` |
| Block.CriticalUsesRawPercent | src/main.rs:208-210 | a full battery at 4% is urgent while it shows 100% |
| Block.Run | src/main.rs:194-213 | a failed reading prints nothing and exits 1; a reading that makes `percent_remaining` panic exits 101; otherwise it prints `ConsoleText` and exits 33 iff the raw percentage is at most 5, else 0 |

## Left out

- `Battery::time_remaining` (src/battery.rs:71-85) uses `f64` arithmetic and saturating float-to-`u8` casts. The model has no floating point.
- The GTK dialog (`show_gtk_dialog`, `create_label`), the libnotify notification, `fork` and the click dispatch in `handle_button_presses` are left out. They are user interface and process control. So is the `BLOCK_BUTTON` parse whose `unwrap` panics on a non-number.
- Real file I/O is a map lookup. The kind and message of the `io::Error` are fixed values, because the conversion to `BatteryError` discards them.
- Paths are map keys compared as exact strings. The operating system's resolution of `..`, symbolic links and repeated separators is not modelled.
- `env::var` also fails on a value that is not valid Unicode. The model's input is already the `Option` the environment yields, so such a value is given as `None`.
- Anything `main` writes to standard error is not modelled: the `Error: …` line for a returned error, and the panic message.
- PercentRemaining: requires `charge_full > 0` and `charge_now * 100` within `u32`. A debug build panics otherwise. A release build wraps the product modulo 2^32, and that wrap-around is not modelled.
- Health: requires `charge_full_design > 0` and `charge_full * 100` within `u32`. The release-build wrap-around is not modelled.
- AbsPercentRemaining: requires `charge_full_design > 0` and `charge_now * 100` within `u32`. The release-build wrap-around is not modelled.
- Run: models a debug build. Every reading that is not `Measurable` exits 101; a release build wraps `charge_now * 100` modulo 2^32 and panics only when `charge_full == 0`. Exit code 101 covers only the panics of `percent_remaining`; `health` and `abs_percent_remaining` are called only by the dialog.
- Initialize: returns how many open attempts it made, the failing one included, rather than a trace of paths. Which files those are is stated by `AttemptCount` together with `AcquireIgnoresLaterFiles`.
