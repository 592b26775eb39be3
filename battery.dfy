/**
 * The battery snapshot (src/battery.rs): the charge status, the path of each
 * attribute file, reading and parsing one file, reading all seven attributes
 * into one record, and the integer metrics derived from that record.
 *
 * The file system is a map from path to the file's text: a path that is not a
 * key cannot be opened, and a key mapped to `None` opens but fails to read.
 */
module Batteries {
  import opened Wrappers
  import opened Errors
  import opened StdText

  /** The three charge states the `status` attribute reports. */
  datatype BatteryStatus = Charging | Discharging | Full

  /** `impl FromStr for BatteryStatus`: exact, case-sensitive names only. */
  function ParseStatus(s: string): (r: Option<BatteryStatus>)
    ensures r.Some? ==> StatusText(r.value) == s
    ensures r.None? <==> s != "Charging" && s != "Discharging" && s != "Full"
  {
    if s == "Charging" then Some(Charging)
    else if s == "Discharging" then Some(Discharging)
    else if s == "Full" then Some(Full)
    else None
  }

  /** `impl Display for BatteryStatus`: each status has its own fixed name. */
  function StatusText(status: BatteryStatus): (s: string)
    ensures s == "Charging" <==> status == Charging
    ensures s == "Discharging" <==> status == Discharging
    ensures s == "Full" <==> status == Full
  {
    match status
    case Charging => "Charging"
    case Discharging => "Discharging"
    case Full => "Full"
  }

  /** Parsing the displayed name of a status gives that status back; no two statuses share a name. */
  lemma StatusRoundTrip(a: BatteryStatus, b: BatteryStatus)
    ensures ParseStatus(StatusText(a)) == Some(a)
    ensures StatusText(a) == StatusText(b) ==> a == b
  {
  }

  /** One reading of a battery; it is never updated, a new reading makes a new record. */
  datatype Battery = Battery(
    name: string,
    chargeNow: U32,
    chargeFull: U32,
    chargeFullDesign: U32,
    cycleCount: U32,
    chargeStatus: BatteryStatus,
    currentNow: U32,
    currentAvg: U32)

  // ---------------------------------------------------------------------------
  // Paths

  /**
   * `PathBuf::push` on Unix: an absolute segment replaces the whole path;
   * otherwise a separator is added unless the path is empty or already ends in one.
   */
  function PathPush(base: string, segment: string): string
  {
    if segment != [] && segment[0] == '/' then segment else PushRelative(base, segment)
  }

  /** `PathBuf::push` of a segment that does not start with a separator. */
  function PushRelative(base: string, segment: string): string
  {
    base + (if base != [] && base[|base| - 1] != '/' then "/" else "") + segment
  }

  /** An absolute segment replaces the path; any other keeps the path as a prefix, ends the
      result and adds at most one character between them: a `/`, exactly when the path is
      non-empty and does not already end in one. */
  lemma PathPushShape(base: string, segment: string)
    ensures segment != [] && segment[0] == '/' ==> PathPush(base, segment) == segment
    ensures segment == [] || segment[0] != '/' ==>
      var p := PathPush(base, segment);
      base <= p && |base| + |segment| <= |p| <= |base| + 1 + |segment| && p[|p| - |segment|..] == segment
    ensures segment == [] || segment[0] != '/' ==>
      var p := PathPush(base, segment);
      (|p| == |base| + 1 + |segment| <==> base != [] && base[|base| - 1] != '/') &&
      (|p| == |base| + 1 + |segment| ==> p[|base|] == '/')
  {
  }

  /** The directory that holds one subdirectory per power supply. */
  const POWER_SUPPLY_DIR: string := "/sys/class/power_supply"

  /** Collecting the three fixed segments `/sys`, `class`, `power_supply` gives that directory. */
  lemma PowerSupplyDirSegments()
    ensures PathPush(PathPush(PathPush("", "/sys"), "class"), "power_supply") == POWER_SUPPLY_DIR
  {
  }

  /** `get_full_path`: the five segments `/sys`, `class`, `power_supply`, `name` and `file`
      collected into one `PathBuf`. */
  function FullPath(name: string, file: string): string
  {
    PathPush(PathPush(POWER_SUPPLY_DIR, name), file)
  }

  /** Relative names keep the path inside the power-supply directory, and a relative file
      name always ends it. */
  lemma FullPathShape(name: string, file: string)
    ensures (name == [] || name[0] != '/') && (file == [] || file[0] != '/') ==>
      POWER_SUPPLY_DIR + "/" <= FullPath(name, file)
    ensures file == [] || file[0] != '/' ==>
      |file| <= |FullPath(name, file)| && FullPath(name, file)[|FullPath(name, file)| - |file|..] == file
  {
    var dir := PathPush(POWER_SUPPLY_DIR, name);
    PathPushShape(POWER_SUPPLY_DIR, name);
    PathPushShape(dir, file);
  }

  /** For a relative name that does not end in a separator the path is the plain concatenation. */
  lemma FullPathOfPlainName(name: string, file: string)
    requires name != [] && name[0] != '/' && name[|name| - 1] != '/'
    requires file != [] && file[0] != '/'
    ensures FullPath(name, file) == "/sys/class/power_supply/" + name + "/" + file
  {
  }

  /** The name is not checked: an absolute name replaces the power-supply directory altogether. */
  lemma FullPathOfAbsoluteName(name: string, file: string)
    requires name != [] && name[0] == '/' && name[|name| - 1] != '/'
    requires file != [] && file[0] != '/'
    ensures FullPath(name, file) == name + "/" + file
  {
  }

  // ---------------------------------------------------------------------------
  // Reading one attribute file

  /** Path to the file's text; `None` is a file that opens but cannot be read. */
  type FileSystem = map<string, Option<string>>

  /** What `read_from_file` returns for `path`, with `parse` standing for `T::from_str`. */
  function ReadResult<T>(fs: FileSystem, path: string, parse: string -> Option<T>): Result<T, BatteryError>
  {
    if path !in fs then Err(FromIo(IoFailure(NotFound, "No such file or directory")))
    else match fs[path]
      case None => Err(FromIo(IoFailure(Other, "read failed")))
      case Some(contents) =>
        match parse(Trim(contents))
        case Some(v) => Ok(v)
        case None => Err(ConversionError)
  }

  /**
   * `read_from_file`: open the file, read it whole into an empty buffer,
   * trim the buffer and parse it.
   */
  method ReadFromFile<T>(fs: FileSystem, path: string, parse: string -> Option<T>)
    returns (r: Result<T, BatteryError>)
    ensures r == ReadResult(fs, path, parse)
  {
    if path !in fs {
      return Err(FromIo(IoFailure(NotFound, "No such file or directory")));
    }
    var file := fs[path];
    var contents := "";
    if file.None? {
      return Err(FromIo(IoFailure(Other, "read failed")));
    }
    contents := contents + file.value;
    assert contents == file.value;
    var parsed := parse(Trim(contents));
    if parsed.None? {
      return Err(ConversionError);
    }
    return Ok(parsed.value);
  }

  /** A read fails with `IoError` exactly when the file cannot be opened or read, and with
      `ConversionError` exactly when its trimmed text does not parse. */
  lemma ReadErrors<T>(fs: FileSystem, path: string, parse: string -> Option<T>)
    ensures ReadResult(fs, path, parse) == Err(IoError) <==> path !in fs || fs[path].None?
    ensures ReadResult(fs, path, parse) == Err(ConversionError)
      <==> path in fs && fs[path].Some? && parse(Trim(fs[path].value)).None?
    ensures ReadResult(fs, path, parse).Ok?
      ==> parse(Trim(fs[path].value)) == Some(ReadResult(fs, path, parse).value)
  {
  }

  /** Whitespace after the value, such as the newline at the end of every attribute file,
      does not change what is read. */
  lemma ReadIgnoresTrailingWhitespace<T>(fs: FileSystem, path: string, parse: string -> Option<T>,
                                          contents: string, w: string)
    requires AllWhitespace(w)
    ensures ReadResult(fs[path := Some(contents + w)], path, parse)
         == ReadResult(fs[path := Some(contents)], path, parse)
  {
    TrimIgnoresTrailingWhitespace(contents, w);
  }

  // ---------------------------------------------------------------------------
  // Reading the whole snapshot

  /** The attribute files `initialize` reads, in the order it reads them. */
  const ATTRIBUTES: seq<string> :=
    ["charge_now", "charge_full", "charge_full_design", "cycle_count", "status", "current_now", "current_avg"]

  /** The position of `status`, the one attribute that is not a `u32`. */
  const STATUS_INDEX: nat := 4

  function ErrorOf<T>(r: Result<T, BatteryError>): Option<BatteryError>
  {
    match r
    case Ok(_) => None
    case Err(e) => Some(e)
  }

  /** The path of the `i`-th attribute of battery `name`, as `get_full_path` builds it. */
  function AttributePath(name: string, i: nat): string
    requires i < |ATTRIBUTES|
  {
    FullPath(name, ATTRIBUTES[i])
  }

  /** The error reading the `i`-th attribute would give, if any. */
  function AttributeError(fs: FileSystem, name: string, i: nat): Option<BatteryError>
    requires i < |ATTRIBUTES|
  {
    if i == STATUS_INDEX then ErrorOf(ReadResult(fs, AttributePath(name, i), ParseStatus))
    else ErrorOf(ReadResult(fs, AttributePath(name, i), ParseU32))
  }

  /** The first attribute at or after `i` whose read fails, or `|ATTRIBUTES|` when none does
      (see FirstFailureIsFirst and FirstFailureAt). */
  function FirstFailure(fs: FileSystem, name: string, i: nat): (k: nat)
    requires i <= |ATTRIBUTES|
    ensures i <= k <= |ATTRIBUTES|
    decreases |ATTRIBUTES| - i
  {
    if i == |ATTRIBUTES| then i
    else if AttributeError(fs, name, i).Some? then i
    else FirstFailure(fs, name, i + 1)
  }

  /** Every attribute from `i` up to the first failure reads, and the first failure fails. */
  lemma {:induction false} FirstFailureIsFirst(fs: FileSystem, name: string, i: nat)
    requires i <= |ATTRIBUTES|
    ensures forall j :: i <= j < FirstFailure(fs, name, i) ==> AttributeError(fs, name, j).None?
    ensures FirstFailure(fs, name, i) < |ATTRIBUTES| ==> AttributeError(fs, name, FirstFailure(fs, name, i)).Some?
    decreases |ATTRIBUTES| - i
  {
    if i < |ATTRIBUTES| && AttributeError(fs, name, i).None? {
      FirstFailureIsFirst(fs, name, i + 1);
      var k := FirstFailure(fs, name, i + 1);
      assert FirstFailure(fs, name, i) == k;
      forall j | i <= j < k
        ensures AttributeError(fs, name, j).None?
      {
        if j != i {
          assert i + 1 <= j < k;
        }
      }
    }
  }

  /** Conversely, an attribute that fails after all those from `i` read is the first failure. */
  lemma {:induction false} FirstFailureAt(fs: FileSystem, name: string, i: nat, k: nat)
    requires i <= k <= |ATTRIBUTES|
    requires k < |ATTRIBUTES| ==> AttributeError(fs, name, k).Some?
    requires forall j :: i <= j < k ==> AttributeError(fs, name, j).None?
    ensures FirstFailure(fs, name, i) == k
    decreases k - i
  {
    if i < k {
      FirstFailureAt(fs, name, i + 1, k);
    }
  }

  /** The value of a numeric attribute whose read succeeds. */
  function NumberAt(fs: FileSystem, name: string, i: nat): U32
    requires i < |ATTRIBUTES| && i != STATUS_INDEX && AttributeError(fs, name, i).None?
  {
    ReadResult(fs, AttributePath(name, i), ParseU32).value
  }

  /** The value of the `status` attribute when its read succeeds. */
  function StatusAt(fs: FileSystem, name: string): BatteryStatus
    requires AttributeError(fs, name, STATUS_INDEX).None?
  {
    ReadResult(fs, AttributePath(name, STATUS_INDEX), ParseStatus).value
  }

  /**
   * What `initialize` returns: the error of the first attribute that fails, or,
   * when all seven read, the record of their values.
   */
  function Acquire(fs: FileSystem, name: string): Result<Battery, BatteryError>
  {
    var k := FirstFailure(fs, name, 0);
    FirstFailureIsFirst(fs, name, 0);
    if k < |ATTRIBUTES| then Err(AttributeError(fs, name, k).value)
    else
      Ok(Battery(
        name,
        NumberAt(fs, name, 0),
        NumberAt(fs, name, 1),
        NumberAt(fs, name, 2),
        NumberAt(fs, name, 3),
        StatusAt(fs, name),
        NumberAt(fs, name, 5),
        NumberAt(fs, name, 6)))
  }

  /** How many attribute files `initialize` tries to open: up to and including the first that fails. */
  function AttemptCount(fs: FileSystem, name: string): (n: nat)
    ensures 1 <= n <= |ATTRIBUTES|
  {
    var k := FirstFailure(fs, name, 0);
    if k < |ATTRIBUTES| then k + 1 else |ATTRIBUTES|
  }

  /** When attribute `k` is the first to fail, the snapshot fails with its error after `k + 1` attempts. */
  lemma FirstFailureDecides(fs: FileSystem, name: string, k: nat)
    requires k < |ATTRIBUTES| && AttributeError(fs, name, k).Some?
    requires forall j :: 0 <= j < k ==> AttributeError(fs, name, j).None?
    ensures Acquire(fs, name) == Err(AttributeError(fs, name, k).value)
    ensures AttemptCount(fs, name) == k + 1
  {
    FirstFailureAt(fs, name, 0, k);
  }

  /** When every attribute reads, the snapshot holds the seven values after seven attempts. */
  lemma AllAttributesRead(fs: FileSystem, name: string)
    requires FirstFailure(fs, name, 0) == |ATTRIBUTES|
    ensures forall j :: 0 <= j < |ATTRIBUTES| ==> AttributeError(fs, name, j).None?
    ensures Acquire(fs, name) == Ok(Battery(
        name,
        NumberAt(fs, name, 0),
        NumberAt(fs, name, 1),
        NumberAt(fs, name, 2),
        NumberAt(fs, name, 3),
        StatusAt(fs, name),
        NumberAt(fs, name, 5),
        NumberAt(fs, name, 6)))
    ensures AttemptCount(fs, name) == |ATTRIBUTES|
  {
    FirstFailureIsFirst(fs, name, 0);
  }

  /** The reading succeeds exactly when every one of the seven attributes reads. */
  lemma AcquireSucceedsIffAllRead(fs: FileSystem, name: string)
    ensures Acquire(fs, name).Ok? <==> forall i :: 0 <= i < |ATTRIBUTES| ==> AttributeError(fs, name, i).None?
  {
    FirstFailureIsFirst(fs, name, 0);
    if forall i :: 0 <= i < |ATTRIBUTES| ==> AttributeError(fs, name, i).None? {
      FirstFailureAt(fs, name, 0, |ATTRIBUTES|);
      AllAttributesRead(fs, name);
    }
  }

  /** A failed reading reports the error of an attribute that fails after all the ones before it read. */
  lemma AcquireReportsFirstError(fs: FileSystem, name: string)
    requires Acquire(fs, name).Err?
    ensures exists k :: 0 <= k < |ATTRIBUTES| && AttributeError(fs, name, k) == Some(Acquire(fs, name).error)
                        && forall j :: 0 <= j < k ==> AttributeError(fs, name, j).None?
  {
    var k := FirstFailure(fs, name, 0);
    FirstFailureIsFirst(fs, name, 0);
    assert AttributeError(fs, name, k) == Some(Acquire(fs, name).error);
  }

  /** A successful reading carries the battery's name and, in each field, the value parsed from
      that field's file. */
  lemma AcquireFields(fs: FileSystem, name: string)
    requires Acquire(fs, name).Ok?
    ensures var b := Acquire(fs, name).value;
      b.name == name
      && ReadResult(fs, FullPath(name, "charge_now"), ParseU32) == Ok(b.chargeNow)
      && ReadResult(fs, FullPath(name, "charge_full"), ParseU32) == Ok(b.chargeFull)
      && ReadResult(fs, FullPath(name, "charge_full_design"), ParseU32) == Ok(b.chargeFullDesign)
      && ReadResult(fs, FullPath(name, "cycle_count"), ParseU32) == Ok(b.cycleCount)
      && ReadResult(fs, FullPath(name, "status"), ParseStatus) == Ok(b.chargeStatus)
      && ReadResult(fs, FullPath(name, "current_now"), ParseU32) == Ok(b.currentNow)
      && ReadResult(fs, FullPath(name, "current_avg"), ParseU32) == Ok(b.currentAvg)
  {
    AcquireSucceedsIffAllRead(fs, name);
    AllAttributesRead(fs, name);
    forall i | 0 <= i < |ATTRIBUTES|
      ensures AttributeError(fs, name, i).None?
    {
    }
  }

  /** One numeric read of `initialize`, related to the first failing attribute. */
  lemma NumberReadStep(fs: FileSystem, name: string, i: nat, r: Result<U32, BatteryError>)
    requires i < |ATTRIBUTES| && i != STATUS_INDEX
    requires r == ReadResult(fs, AttributePath(name, i), ParseU32)
    ensures r.Err? ==> FirstFailure(fs, name, i) == i && AttributeError(fs, name, i) == Some(r.error)
    ensures r.Ok? ==> FirstFailure(fs, name, i) == FirstFailure(fs, name, i + 1)
                      && AttributeError(fs, name, i).None? && NumberAt(fs, name, i) == r.value
  {
  }

  /** The `status` read of `initialize`, related to the first failing attribute. */
  lemma StatusReadStep(fs: FileSystem, name: string, r: Result<BatteryStatus, BatteryError>)
    requires r == ReadResult(fs, AttributePath(name, STATUS_INDEX), ParseStatus)
    ensures r.Err? ==> FirstFailure(fs, name, STATUS_INDEX) == STATUS_INDEX
                       && AttributeError(fs, name, STATUS_INDEX) == Some(r.error)
    ensures r.Ok? ==> FirstFailure(fs, name, STATUS_INDEX) == FirstFailure(fs, name, STATUS_INDEX + 1)
                      && AttributeError(fs, name, STATUS_INDEX).None? && StatusAt(fs, name) == r.value
  {
  }

  /**
   * `Battery::initialize`: the seven reads in order, returning at the first that
   * fails. `attempts` counts the attribute files it tried to open, the failing one included.
   */
  method Initialize(fs: FileSystem, name: string)
    returns (r: Result<Battery, BatteryError>, attempts: nat)
    ensures r == Acquire(fs, name)
    ensures attempts == AttemptCount(fs, name)
  {
    attempts := 1;
    var chargeNow := ReadFromFile(fs, AttributePath(name, 0), ParseU32);
    NumberReadStep(fs, name, 0, chargeNow);
    if chargeNow.Err? {
      return Err(chargeNow.error), attempts;
    }
    attempts := 2;
    var chargeFull := ReadFromFile(fs, AttributePath(name, 1), ParseU32);
    NumberReadStep(fs, name, 1, chargeFull);
    if chargeFull.Err? {
      return Err(chargeFull.error), attempts;
    }
    attempts := 3;
    var chargeFullDesign := ReadFromFile(fs, AttributePath(name, 2), ParseU32);
    NumberReadStep(fs, name, 2, chargeFullDesign);
    if chargeFullDesign.Err? {
      return Err(chargeFullDesign.error), attempts;
    }
    attempts := 4;
    var cycleCount := ReadFromFile(fs, AttributePath(name, 3), ParseU32);
    NumberReadStep(fs, name, 3, cycleCount);
    if cycleCount.Err? {
      return Err(cycleCount.error), attempts;
    }
    attempts := 5;
    var status := ReadFromFile(fs, AttributePath(name, 4), ParseStatus);
    StatusReadStep(fs, name, status);
    if status.Err? {
      return Err(status.error), attempts;
    }
    attempts := 6;
    var currentNow := ReadFromFile(fs, AttributePath(name, 5), ParseU32);
    NumberReadStep(fs, name, 5, currentNow);
    if currentNow.Err? {
      return Err(currentNow.error), attempts;
    }
    attempts := 7;
    var currentAvg := ReadFromFile(fs, AttributePath(name, 6), ParseU32);
    NumberReadStep(fs, name, 6, currentAvg);
    if currentAvg.Err? {
      return Err(currentAvg.error), attempts;
    }
    AllAttributesRead(fs, name);
    r := Ok(Battery(name, chargeNow.value, chargeFull.value, chargeFullDesign.value, cycleCount.value,
                    status.value, currentNow.value, currentAvg.value));
  }

  // ---------------------------------------------------------------------------
  // What a reading depends on

  /** `fs` and `fs'` agree on whether `path` exists and on what it holds. */
  predicate SameFile(fs: FileSystem, fs': FileSystem, path: string)
  {
    (path in fs <==> path in fs') && (path in fs ==> fs[path] == fs'[path])
  }

  /** The outcome of one attribute depends on its own file only. */
  lemma AttributeErrorIsLocal(fs: FileSystem, fs': FileSystem, name: string, i: nat)
    requires i < |ATTRIBUTES| && SameFile(fs, fs', AttributePath(name, i))
    ensures AttributeError(fs, name, i) == AttributeError(fs', name, i)
  {
  }

  /**
   * A failed reading is decided by the files it tried to open: changing, adding or
   * removing any file after the failing one gives the same error and the same
   * number of attempts, which is to say the later files are never read.
   */
  lemma AcquireIgnoresLaterFiles(fs: FileSystem, fs': FileSystem, name: string)
    requires Acquire(fs, name).Err?
    requires forall j :: 0 <= j < AttemptCount(fs, name) ==> SameFile(fs, fs', AttributePath(name, j))
    ensures Acquire(fs', name) == Acquire(fs, name)
    ensures AttemptCount(fs', name) == AttemptCount(fs, name)
  {
    var k := FirstFailure(fs, name, 0);
    FirstFailureIsFirst(fs, name, 0);
    forall j | 0 <= j <= k
      ensures AttributeError(fs', name, j) == AttributeError(fs, name, j)
    {
      AttributeErrorIsLocal(fs, fs', name, j);
    }
    FirstFailureDecides(fs, name, k);
    FirstFailureDecides(fs', name, k);
  }

  /** With no `charge_now` file (no such battery) the reading fails at once with `IoError`. */
  lemma MissingBatteryFailsAtOnce(fs: FileSystem, name: string)
    requires AttributePath(name, 0) !in fs
    ensures Acquire(fs, name) == Err(IoError)
    ensures AttemptCount(fs, name) == 1
  {
    FirstFailureDecides(fs, name, 0);
  }

  /** A status name the parser does not know. */
  lemma UnknownStatusText()
    ensures ParseStatus("Unplugged").None?
  {
  }

  /** Trimming the newline of a `status` file leaves the name alone. */
  lemma UnknownStatusTrimmed()
    ensures Trim("Unplugged" + "\n") == "Unplugged"
  {
    var text := "Unplugged";
    assert text[0] == 'U' && text[|text| - 1] == 'd';
    calc {
      Trim(text + "\n");
    ==  { TrimIgnoresTrailingWhitespace(text, "\n"); }
      Trim(text);
    ==  { TrimOfTrimmed(text); }
      text;
    }
  }

  /** A `status` file holding an unknown name fails the reading with `ConversionError`
      after five attempts, once the four numeric attributes before it have read. */
  lemma UnknownStatusFails(fs: FileSystem, name: string)
    requires forall j :: 0 <= j < STATUS_INDEX ==> AttributeError(fs, name, j).None?
    requires AttributePath(name, STATUS_INDEX) in fs
    requires fs[AttributePath(name, STATUS_INDEX)] == Some("Unplugged" + "\n")
    ensures Acquire(fs, name) == Err(ConversionError)
    ensures AttemptCount(fs, name) == STATUS_INDEX + 1
  {
    var path := AttributePath(name, STATUS_INDEX);
    var text := fs[path].value;
    assert text == "Unplugged" + "\n";
    UnknownStatusTrimmed();
    assert Trim(text) == "Unplugged";
    UnknownStatusText();
    assert ParseStatus(Trim(text)).None?;
    assert AttributeError(fs, name, STATUS_INDEX) == Some(ConversionError);
    FirstFailureDecides(fs, name, STATUS_INDEX);
  }

  // ---------------------------------------------------------------------------
  // Derived metrics (u32 arithmetic)

  /**
   * The readings for which `percent_remaining` does not panic: `charge_full` is not
   * zero and `charge_now * 100` does not overflow a `u32`, that is `charge_now` is at most
   * 42949672.
   */
  predicate Measurable(b: Battery): (m: bool)
    ensures m <==> b.chargeFull != 0 && b.chargeNow <= U32_MAX / 100
  {
    b.chargeFull > 0 && b.chargeNow * 100 <= U32_MAX
  }

  /** The quotient of `x` by `d` brackets `x` between two consecutive multiples of `d`. */
  lemma DivisionBrackets(x: nat, d: nat)
    requires d > 0
    ensures 0 <= x / d && (x / d) * d <= x < (x / d + 1) * d
  {
  }

  /** Multiplying by a common factor keeps the order. */
  lemma MulMonotone(a: nat, b: nat, c: nat)
    requires b <= c
    ensures a * b <= a * c
  {
    assert a * c == a * b + a * (c - b);
  }

  /** Any `q` with `q * d <= x` is at most the quotient. */
  lemma QuotientIsLargest(x: nat, d: nat, q: nat)
    requires d > 0 && q * d <= x
    ensures q <= x / d
  {
    DivisionBrackets(x, d);
    if x / d < q {
      MulMonotone(d, x / d + 1, q);
    }
  }

  /** Dividing by a larger divisor gives a quotient no larger. */
  lemma DivisionAntitone(x: nat, d: nat, e: nat)
    requires 0 < d <= e
    ensures x / e <= x / d
  {
    DivisionBrackets(x, e);
    MulMonotone(x / e, d, e);
    QuotientIsLargest(x, d, x / e);
  }

  /** A quotient reaches `n` exactly when the dividend reaches `n` times the divisor. */
  lemma QuotientVersusBound(x: nat, d: nat, n: nat)
    requires d > 0
    ensures n <= x / d <==> n * d <= x
  {
    DivisionBrackets(x, d);
    if n * d <= x {
      QuotientIsLargest(x, d, n);
    } else if n <= x / d {
      MulMonotone(d, n, x / d);
    }
  }

  /** `percent_remaining`: the charge as a percentage of the full charge, clamped at 100. */
  function PercentRemaining(b: Battery): (p: U32)
    requires Measurable(b)
    ensures p <= 100
    ensures p == 100 <==> b.chargeNow >= b.chargeFull
    ensures p < 100 ==> p * b.chargeFull <= b.chargeNow * 100 < (p + 1) * b.chargeFull
  {
    DivisionBrackets(b.chargeNow * 100, b.chargeFull);
    QuotientVersusBound(b.chargeNow * 100, b.chargeFull, 100);
    var percent := (b.chargeNow * 100) / b.chargeFull;
    if percent > 100 then 100 else percent
  }

  /** `health`: the full charge as a percentage of the design capacity, not clamped. */
  function Health(b: Battery): (h: U32)
    requires b.chargeFullDesign > 0 && b.chargeFull * 100 <= U32_MAX
    ensures h * b.chargeFullDesign <= b.chargeFull * 100 < (h + 1) * b.chargeFullDesign
    ensures h >= 100 <==> b.chargeFull >= b.chargeFullDesign
    ensures b.chargeFull <= b.chargeFullDesign ==> h <= 100
    ensures b.chargeFull == b.chargeFullDesign ==> h == 100
  {
    DivisionBrackets(b.chargeFull * 100, b.chargeFullDesign);
    QuotientVersusBound(b.chargeFull * 100, b.chargeFullDesign, 100);
    QuotientVersusBound(b.chargeFull * 100, b.chargeFullDesign, 101);
    (b.chargeFull * 100) / b.chargeFullDesign
  }

  /**
   * `abs_percent_remaining`: the charge as a percentage of the design capacity,
   * not clamped, and never above the unclamped percentage of the full charge when
   * the battery has not outgrown its design.
   */
  function AbsPercentRemaining(b: Battery): (a: U32)
    requires b.chargeFullDesign > 0 && b.chargeNow * 100 <= U32_MAX
    ensures a * b.chargeFullDesign <= b.chargeNow * 100 < (a + 1) * b.chargeFullDesign
    ensures a >= 100 <==> b.chargeNow >= b.chargeFullDesign
    ensures b.chargeNow <= b.chargeFullDesign ==> a <= 100
    ensures 0 < b.chargeFull <= b.chargeFullDesign ==> a <= (b.chargeNow * 100) / b.chargeFull
  {
    DivisionBrackets(b.chargeNow * 100, b.chargeFullDesign);
    QuotientVersusBound(b.chargeNow * 100, b.chargeFullDesign, 100);
    QuotientVersusBound(b.chargeNow * 100, b.chargeFullDesign, 101);
    if 0 < b.chargeFull <= b.chargeFullDesign then
      DivisionAntitone(b.chargeNow * 100, b.chargeFull, b.chargeFullDesign);
      (b.chargeNow * 100) / b.chargeFullDesign
    else
      (b.chargeNow * 100) / b.chargeFullDesign
  }

  /** Two worked readings: a worn battery half charged, and one charged past its design. */
  lemma MetricsExamples()
    ensures var b := Battery("BAT0", 50, 100, 120, 0, Discharging, 0, 0);
      PercentRemaining(b) == 50 && AbsPercentRemaining(b) == 41 && Health(b) == 83
    ensures var b := Battery("BAT0", 130, 125, 120, 0, Full, 0, 0);
      PercentRemaining(b) == 100 && AbsPercentRemaining(b) == 108 && Health(b) == 104
  {
  }
}
