/**
 * The i3blocks side of the program (src/main.rs): how one battery reading is
 * drawn as a block (an icon and a colour chosen by charge band, then adjusted
 * for the charge status), how the battery is chosen from the block's instance,
 * and the exit code that tells i3blocks the block is urgent.
 *
 * The environment and the process exit are values here: a variable is the
 * `Option<string>` the environment holds, and the exit code is returned.
 */
module Block {
  import opened Wrappers
  import opened StdText
  import opened Batteries

  /** i3blocks marks a block urgent when its command exits with this code. */
  const CRITICAL_EXIT_CODE: int := 33
  /** At or below this percentage the block is urgent. */
  const CRITICAL_BAT_LEVEL: nat := 5
  /** The exit code of `main` returning an error. */
  const ERROR_EXIT_CODE: int := 1
  /** The exit code of a Rust panic. */
  const PANIC_EXIT_CODE: int := 101
  /** The battery read when the block names none. */
  const DEFAULT_BATTERY: string := "BAT0"

  // Font Awesome icons
  const PLUG: char := '\U{f1e6}'
  const CHECK: char := '\U{f00c}'
  const BATTERY_FULL: char := '\U{f240}'
  const BATTERY_THREE_QUARTERS: char := '\U{f241}'
  const BATTERY_HALF: char := '\U{f242}'
  const BATTERY_QUARTER: char := '\U{f243}'
  const BATTERY_EMPTY: char := '\U{f244}'

  // Solarized colours
  const GREEN: string := "#859900"
  const CYAN: string := "#2AA198"
  const YELLOW: string := "#B58900"
  const ORANGE: string := "#CB4B16"
  const RED: string := "#DC322F"
  const BG: string := "#073642"

  // ---------------------------------------------------------------------------
  // What the block shows

  /** The percentages `lo..=hi` drawn with one icon and one colour. */
  datatype Band = Band(lo: nat, hi: nat, icon: char, color: string)

  /** The charge bands, from empty to full. */
  const BANDS: seq<Band> := [
    Band(0, 5, BATTERY_EMPTY, BG),
    Band(6, 10, BATTERY_EMPTY, RED),
    Band(11, 35, BATTERY_QUARTER, ORANGE),
    Band(36, 60, BATTERY_HALF, YELLOW),
    Band(61, 85, BATTERY_THREE_QUARTERS, CYAN),
    Band(86, 100, BATTERY_FULL, GREEN)
  ]

  predicate InBand(p: nat, band: Band)
  {
    band.lo <= p <= band.hi
  }

  /** The first band at or after `i` that holds `p`, or `|BANDS|` when none does. */
  function FindBand(p: nat, i: nat): (k: nat)
    requires i <= |BANDS|
    ensures i <= k <= |BANDS|
    ensures k < |BANDS| ==> InBand(p, BANDS[k])
    ensures forall j :: i <= j < k ==> !InBand(p, BANDS[j])
    decreases |BANDS| - i
  {
    if i == |BANDS| then i
    else if InBand(p, BANDS[i]) then i
    else FindBand(p, i + 1)
  }

  /**
   * Every percentage from 0 to 100 lies in exactly one band, and no other
   * number lies in any: the `exit(1)` arm is reached only above 100.
   */
  lemma BandsPartition(p: nat)
    ensures FindBand(p, 0) < |BANDS| <==> p <= 100
    ensures forall j :: 0 <= j < |BANDS| && InBand(p, BANDS[j]) ==> j == FindBand(p, 0)
  {
    forall j | 0 <= j < |BANDS| - 1
      ensures BANDS[j].hi + 1 == BANDS[j + 1].lo
    {
    }
  }

  /** The icon, the colour and the percentage the block shows. */
  datatype Look = Look(icon: char, color: string, percent: nat)

  /** The band's icon and colour with the percentage `p`. */
  function BandLook(p: nat): (l: Look)
    requires p <= 100
  {
    BandsPartition(p);
    var band := BANDS[FindBand(p, 0)];
    Look(band.icon, band.color, p)
  }

  /** The look of the block for a status and a charge percentage. */
  function Styled(status: BatteryStatus, p: nat): (l: Look)
    requires p <= 100
  {
    match status
    case Full => Look(CHECK, GREEN, 100)
    case Charging => BandLook(p).(icon := PLUG)
    case Discharging => BandLook(p)
  }

  /** The band table, range by range, with its boundaries. */
  lemma BandTable(p: nat)
    requires p <= 100
    ensures p <= 5 <==> BandLook(p) == Look(BATTERY_EMPTY, BG, p)
    ensures 6 <= p <= 10 <==> BandLook(p) == Look(BATTERY_EMPTY, RED, p)
    ensures 11 <= p <= 35 <==> BandLook(p) == Look(BATTERY_QUARTER, ORANGE, p)
    ensures 36 <= p <= 60 <==> BandLook(p) == Look(BATTERY_HALF, YELLOW, p)
    ensures 61 <= p <= 85 <==> BandLook(p) == Look(BATTERY_THREE_QUARTERS, CYAN, p)
    ensures 86 <= p <= 100 <==> BandLook(p) == Look(BATTERY_FULL, GREEN, p)
  {
    BandsPartition(p);
  }

  /** A full battery shows the check mark, green and 100%, whatever its charge. */
  lemma FullOverridesBand(b: Battery, c: Battery)
    requires Measurable(b) && Measurable(c)
    requires b.chargeStatus == Full && c.chargeStatus == Full
    ensures Styled(b.chargeStatus, PercentRemaining(b)) == Look(CHECK, GREEN, 100)
    ensures ConsoleText(b) == ConsoleText(c)
  {
  }

  /** Charging changes only the icon: the colour and the percentage stay those of the band. */
  lemma ChargingSwapsOnlyIcon(b: Battery)
    requires Measurable(b) && b.chargeStatus == Charging
    ensures var shown := Styled(b.chargeStatus, PercentRemaining(b));
      var band := Styled(Discharging, PercentRemaining(b));
      shown.icon == PLUG && shown.color == band.color && shown.percent == band.percent == PercentRemaining(b)
  {
  }

  /** Discharging shows the band's icon and colour with the percentage as computed. */
  lemma DischargingShowsBand(b: Battery)
    requires Measurable(b) && b.chargeStatus == Discharging
    ensures var shown := Styled(b.chargeStatus, PercentRemaining(b));
      shown.percent == PercentRemaining(b)
      && exists band :: band in BANDS && InBand(shown.percent, band)
                        && shown.icon == band.icon && shown.color == band.color
  {
    var p := PercentRemaining(b);
    BandsPartition(p);
    assert BANDS[FindBand(p, 0)] in BANDS;
  }

  // ---------------------------------------------------------------------------
  // The printed text

  /** One line of Pango markup: the icon in its colour, then the percentage. */
  function SpanLine(l: Look): string
  {
    "<span color=\"" + l.color + "\" font_desc=\"Font Awesome\"> " + [l.icon] + " </span>"
      + DecimalString(l.percent) + "%\n"
  }

  /** What `console_output` prints: the line twice, once as i3blocks' full text and once
      as its short text. */
  function ConsoleText(b: Battery): string
    requires Measurable(b)
  {
    var line := SpanLine(Styled(b.chargeStatus, PercentRemaining(b)));
    line + line
  }

  /**
   * `console_output`: the band is chosen by range into mutable icon and colour,
   * then the status may overwrite them and the percentage.
   */
  method ConsoleOutput(bat: Battery) returns (text: string)
    requires Measurable(bat)
    ensures text == ConsoleText(bat)
  {
    var percent := PercentRemaining(bat);
    BandTable(percent);
    var icon: char;
    var color: string;
    if percent <= 5 {
      icon, color := BATTERY_EMPTY, BG;
    } else if percent <= 10 {
      icon, color := BATTERY_EMPTY, RED;
    } else if percent <= 35 {
      icon, color := BATTERY_QUARTER, ORANGE;
    } else if percent <= 60 {
      icon, color := BATTERY_HALF, YELLOW;
    } else if percent <= 85 {
      icon, color := BATTERY_THREE_QUARTERS, CYAN;
    } else if percent <= 100 {
      icon, color := BATTERY_FULL, GREEN;
    } else {
      assert false;
    }
    match bat.chargeStatus {
      case Full =>
        icon := CHECK;
        color := GREEN;
        percent := 100;
      case Charging =>
        icon := PLUG;
      case Discharging =>
    }
    var line := SpanLine(Look(icon, color, percent));
    text := line + line;
  }

  /** `s` holds no line break. */
  predicate SingleLine(s: string)
  {
    forall i :: 0 <= i < |s| ==> s[i] != '\n'
  }

  /** The block only ever shows one of the icons and one of the colours above, none of
      which breaks the line. */
  lemma StyledPalette(status: BatteryStatus, p: nat)
    requires p <= 100
    ensures Styled(status, p).icon in {PLUG, CHECK, BATTERY_FULL, BATTERY_THREE_QUARTERS, BATTERY_HALF,
                                       BATTERY_QUARTER, BATTERY_EMPTY}
    ensures Styled(status, p).color in {GREEN, CYAN, YELLOW, ORANGE, RED, BG}
    ensures Styled(status, p).icon != '\n' && SingleLine(Styled(status, p).color)
  {
    BandTable(p);
    assert SingleLine(GREEN) && SingleLine(CYAN) && SingleLine(YELLOW);
    assert SingleLine(ORANGE) && SingleLine(RED) && SingleLine(BG);
  }

  /** The markup before the percentage is one line. */
  lemma MarkupIsSingleLine(l: Look)
    requires l.icon != '\n' && SingleLine(l.color)
    ensures SingleLine("<span color=\"" + l.color + "\" font_desc=\"Font Awesome\"> " + [l.icon] + " </span>")
  {
    var open := "<span color=\"";
    var font := "\" font_desc=\"Font Awesome\"> ";
    var close := " </span>";
    assert SingleLine(open) && SingleLine(font) && SingleLine(close);
    var markup := open + l.color + font + [l.icon] + close;
    forall i | 0 <= i < |markup|
      ensures markup[i] != '\n'
    {
      if i < |open| {
        assert markup[i] == open[i];
      } else if i < |open| + |l.color| {
        assert markup[i] == l.color[i - |open|];
      } else if i < |open| + |l.color| + |font| {
        assert markup[i] == font[i - |open| - |l.color|];
      } else if i == |open| + |l.color| + |font| {
        assert markup[i] == l.icon;
      } else {
        assert markup[i] == close[i - |open| - |l.color| - |font| - 1];
      }
    }
  }

  /** A span line ends in its only line break, whatever the percentage. */
  lemma SpanLineShape(l: Look)
    requires l.icon != '\n' && SingleLine(l.color)
    ensures var line := SpanLine(l); line != [] && line[|line| - 1] == '\n' && SingleLine(line[..|line| - 1])
  {
    MarkupIsSingleLine(l);
    var markup := "<span color=\"" + l.color + "\" font_desc=\"Font Awesome\"> " + [l.icon] + " </span>";
    var digits := DecimalString(l.percent);
    var text := markup + digits + "%";
    forall i | 0 <= i < |text|
      ensures text[i] != '\n'
    {
      if i < |markup| {
        assert text[i] == markup[i];
      } else if i < |markup| + |digits| {
        assert text[i] == digits[i - |markup|];
        assert IsDigit(digits[i - |markup|]);
      }
    }
    var line := SpanLine(l);
    assert line == text + "\n";
    assert line[..|line| - 1] == text;
  }

  /** The printed text is two identical lines, each ending in its only line break. */
  lemma ConsoleTextLines(b: Battery)
    requires Measurable(b)
    ensures exists line: string :: ConsoleText(b) == line + line && line != [] && line[|line| - 1] == '\n'
                                   && SingleLine(line[..|line| - 1])
  {
    var l := Styled(b.chargeStatus, PercentRemaining(b));
    StyledPalette(b.chargeStatus, PercentRemaining(b));
    SpanLineShape(l);
    assert ConsoleText(b) == SpanLine(l) + SpanLine(l);
  }

  // ---------------------------------------------------------------------------
  // Choosing the battery and the exit code

  /** `get_env_var`: the value of a variable, `None` when it is unset or empty. */
  function EnvVar(value: Option<string>): (r: Option<string>)
    ensures r.None? <==> value.None? || value.value == ""
    ensures r.Some? ==> r == value
  {
    match value
    case None => None
    case Some(v) => if v == "" then None else Some(v)
  }

  /** The battery named by `BLOCK_INSTANCE`, or `BAT0` when it is unset or empty. */
  function BatteryName(instance: Option<string>): (name: string)
    ensures name != ""
    ensures instance.Some? && instance.value != "" ==> name == instance.value
    ensures instance.None? || instance.value == "" ==> name == DEFAULT_BATTERY
  {
    match EnvVar(instance)
    case Some(v) => v
    case None => DEFAULT_BATTERY
  }

  /** The block is urgent exactly when the charge, before any status override, is at most 5%,
      which is when the charge is below six hundredths of the full charge. */
  lemma CriticalThreshold(b: Battery)
    requires Measurable(b)
    ensures PercentRemaining(b) <= CRITICAL_BAT_LEVEL <==> b.chargeNow * 100 < 6 * b.chargeFull
  {
    var p := PercentRemaining(b);
    if p <= CRITICAL_BAT_LEVEL {
      MulMonotone(b.chargeFull, p + 1, 6);
    } else if p < 100 {
      MulMonotone(b.chargeFull, 6, p);
    }
  }

  /** A full battery below the threshold is urgent while it shows 100%. */
  lemma CriticalUsesRawPercent()
    ensures var b := Battery("BAT0", 4, 100, 100, 0, Full, 0, 0);
      Measurable(b) && PercentRemaining(b) <= CRITICAL_BAT_LEVEL
      && Styled(b.chargeStatus, PercentRemaining(b)).percent == 100
  {
  }

  /**
   * `main` without the click handling: choose the battery, read it, print the
   * block and exit. An error reading the battery makes `main` return it (exit
   * code 1, nothing printed); a reading `percent_remaining` cannot compute
   * panics (exit code 101, nothing printed).
   */
  method Run(instance: Option<string>, fs: FileSystem) returns (stdout: string, code: int)
    ensures var snapshot := Acquire(fs, BatteryName(instance));
      && (snapshot.Err? ==> stdout == "" && code == ERROR_EXIT_CODE)
      && (snapshot.Ok? && !Measurable(snapshot.value) ==> stdout == "" && code == PANIC_EXIT_CODE)
      && (snapshot.Ok? && Measurable(snapshot.value) ==>
            stdout == ConsoleText(snapshot.value)
            && (code == CRITICAL_EXIT_CODE <==> PercentRemaining(snapshot.value) <= CRITICAL_BAT_LEVEL)
            && (code == 0 || code == CRITICAL_EXIT_CODE))
  {
    var name := BatteryName(instance);
    var snapshot, opens := Initialize(fs, name);
    if snapshot.Err? {
      return "", ERROR_EXIT_CODE;
    }
    var bat := snapshot.value;
    if !Measurable(bat) {
      return "", PANIC_EXIT_CODE;
    }
    stdout := ConsoleOutput(bat);
    if PercentRemaining(bat) <= CRITICAL_BAT_LEVEL {
      code := CRITICAL_EXIT_CODE;
    } else {
      code := 0;
    }
  }
}
