/**
 * `main` of ccwc.py as a decision procedure. Its inputs are whether standard
 * input is a terminal, the argument vector (`sys.argv`, program name
 * included) and what reading the selected input produced; its result is
 * what the program prints and the status it exits with.
 */
module Cli {
  import opened Wrappers
  import opened Utf8
  import opened Counter
  import opened Format

  /** What opening and reading the input produced: the file in terminal mode, standard input otherwise. */
  datatype ReadResult =
    | Read(data: seq<byte>)
    | FileNotFound(message: string) // `FileNotFoundError`; `message` is its text
    | ReadError(message: string)    // any other exception while opening or reading

  /** How `count_metrics_from_file` / `count_metrics_from_input` end. */
  datatype Counted =
    | Counted(counts: CountResult)
    | Raised(printed: seq<string>, message: string) // lines printed before re-raising, and the exception's text

  datatype Outcome =
    | Printed(line: string)       // one line of counts; `main` returns normally
    | UsageError                  // `handle_error` with the usage text: `sys.exit(1)`
    | InvalidOption               // `handle_error` with the invalid-option text: `sys.exit(1)`
    | Failed(report: seq<string>) // an exception caught in `main`: the lines printed, normal return

  const UsageMessage := "Usage: python ccwc.py [-c|-l|-w|-m] <file_path>"
  const InvalidOptionMessage := "Invalid option. Use -c, -l, -w, or -m."
  /** The text of the `LookupError` raised when a malformed buffer meets the handler name '?'. */
  const UnknownHandlerMessage := "unknown error handler name '?'"
  const ErrorPrefix := "Error: "

  const Options: set<string> := {"-c", "-l", "-w", "-m"}

  function ErrorLine(message: string): string {
    ErrorPrefix + message
  }

  /** The lines the program prints. */
  function Stdout(o: Outcome): seq<string> {
    match o
    case Printed(line) => [line]
    case UsageError => [ErrorLine(UsageMessage)]
    case InvalidOption => [ErrorLine(InvalidOptionMessage)]
    case Failed(report) => report
  }

  /** The process exit status: `SystemExit(1)` escapes `except Exception`; everything else returns normally. */
  function ExitCode(o: Outcome): nat {
    if o.UsageError? || o.InvalidOption? then 1 else 0
  }

  /** Counting a buffer that was read: a decode failure is printed and re-raised. */
  function CountBuffer(data: seq<byte>): Counted {
    match CountMetrics(data)
    case Success(c) => Counted(c)
    case Failure(_) => Raised([ErrorLine(UnknownHandlerMessage)], UnknownHandlerMessage)
  }

  /** `count_metrics_from_file`: a missing file has its own message; every exception is printed and re-raised. */
  function CountFromFile(path: string, read: ReadResult): Counted {
    match read
    case Read(data) => CountBuffer(data)
    case FileNotFound(m) => Raised([ErrorLine("File '" + path + "' not found.")], m)
    case ReadError(m) => Raised([ErrorLine(m)], m)
  }

  /** `count_metrics_from_input`: every exception is printed and re-raised. */
  function CountFromInput(read: ReadResult): Counted {
    match read
    case Read(data) => CountBuffer(data)
    case FileNotFound(m) => Raised([ErrorLine(m)], m)
    case ReadError(m) => Raised([ErrorLine(m)], m)
  }

  /** The four counts an option can select. */
  datatype Metric = Bytes | Lines | Words | Chars

  /** The option letter for each count. */
  function Flag(m: Metric): string {
    match m
    case Bytes => "-c"
    case Lines => "-l"
    case Words => "-w"
    case Chars => "-m"
  }

  function Measure(c: CountResult, m: Metric): nat {
    match m
    case Bytes => c.bytes
    case Lines => c.lines
    case Words => c.words
    case Chars => c.chars
  }

  /** The `if`/`elif` chain on the option: the count it names, or None for any other text. */
  function ParseOption(option: string): (r: Option<Metric>)
    ensures r.Some? <==> option in Options
    ensures r.Some? ==> Flag(r.value) == option
  {
    if option == "-c" then Some(Bytes)
    else if option == "-l" then Some(Lines)
    else if option == "-w" then Some(Words)
    else if option == "-m" then Some(Chars)
    else None
  }

  /** Every count's flag is recognised as that count, so flags and counts correspond one to one. */
  lemma ParseFlag(m: Metric)
    ensures ParseOption(Flag(m)) == Some(m)
  {
  }

  /** The exception handler of `main`: it prints the exception once more. */
  function Caught(printed: seq<string>, message: string): Outcome {
    Failed(printed + [ErrorLine(message)])
  }

  function Dispatch(isTty: bool, argv: seq<string>, read: ReadResult): (o: Outcome) {
    if isTty then
      if |argv| == 3 then
        match CountFromFile(argv[2], read)
        case Raised(printed, m) => Caught(printed, m)
        case Counted(c) =>
          match ParseOption(argv[1])
          case Some(m) => Printed(Decimal(Measure(c, m)) + " " + Basename(argv[2]))
          case None => InvalidOption
      else if |argv| == 2 then
        match CountFromFile(argv[1], read)
        case Raised(printed, m) => Caught(printed, m)
        case Counted(c) =>
          Printed(Decimal(c.lines) + " " + Decimal(c.words) + " " + Decimal(c.bytes) + " " + Basename(argv[1]))
      else
        UsageError
    else
      if |argv| == 2 then
        match CountFromInput(read)
        case Raised(printed, m) => Caught(printed, m)
        case Counted(c) =>
          match ParseOption(argv[1])
          case Some(m) => Printed(Decimal(Measure(c, m)))
          case None => InvalidOption
      else if |argv| == 1 then
        match CountFromInput(read)
        case Raised(printed, m) => Caught(printed, m)
        case Counted(c) => Printed(Decimal(c.lines) + " " + Decimal(c.words) + " " + Decimal(c.bytes))
      else
        UsageError
  }

  // ---------------------------------------------------------------------------
  // Properties of the dispatch

  /** The argument vectors `main` accepts: `[prog, -opt, file]` or `[prog, file]` in terminal mode, `[prog, -opt]` or `[prog]` when piped. */
  predicate ArgCountAccepted(isTty: bool, argv: seq<string>) {
    if isTty then |argv| == 2 || |argv| == 3 else |argv| == 1 || |argv| == 2
  }

  /** The forms that carry an option in `argv[1]`. */
  predicate HasOption(isTty: bool, argv: seq<string>) {
    |argv| == if isTty then 3 else 2
  }

  /** The read succeeded and its bytes are well-formed UTF-8, so counts exist. */
  predicate Counts(read: ReadResult) {
    read.Read? && CountMetrics(read.data).Success?
  }

  /** The text of the exception that ends a failed read-and-count. */
  function FailureMessage(read: ReadResult): string {
    if read.Read? then UnknownHandlerMessage else read.message
  }

  /** The usage error happens exactly for the argument counts that are not accepted, whatever was read. */
  lemma UsageErrorIff(isTty: bool, argv: seq<string>, read: ReadResult)
    ensures Dispatch(isTty, argv, read) == UsageError <==> !ArgCountAccepted(isTty, argv)
  {
  }

  /**
   * The invalid-option error happens exactly when the form carries an
   * option, the input was read and counted, and the option is none of
   * -c, -l, -w, -m: the option is checked only after counting.
   */
  lemma InvalidOptionIff(isTty: bool, argv: seq<string>, read: ReadResult)
    ensures Dispatch(isTty, argv, read) == InvalidOption <==>
      HasOption(isTty, argv) && Counts(read) && argv[1] !in Options
  {
  }

  /** The program exits with status 1 exactly on a usage error or an invalid option. */
  lemma ExitStatus(isTty: bool, argv: seq<string>, read: ReadResult)
    ensures ExitCode(Dispatch(isTty, argv, read)) == 1 <==>
      !ArgCountAccepted(isTty, argv) || (HasOption(isTty, argv) && Counts(read) && argv[1] !in Options)
  {
    UsageErrorIff(isTty, argv, read);
    InvalidOptionIff(isTty, argv, read);
  }

  /**
   * When the input cannot be read or decoded, an accepted invocation prints
   * two error lines (one where the read or count failed, one in `main`),
   * prints no count and exits with status 0; a missing file is named in the
   * first line.
   */
  lemma FailedReadReport(isTty: bool, argv: seq<string>, read: ReadResult)
    requires ArgCountAccepted(isTty, argv) && !Counts(read)
    ensures var o := Dispatch(isTty, argv, read);
      && o.Failed?
      && ExitCode(o) == 0
      && |Stdout(o)| == 2
      && (forall i :: 0 <= i < 2 ==> Stdout(o)[i][..|ErrorPrefix|] == ErrorPrefix)
      && Stdout(o)[1] == ErrorLine(FailureMessage(read))
      && (read.FileNotFound? && isTty ==>
            Stdout(o)[0] == ErrorLine("File '" + argv[|argv| - 1] + "' not found."))
      && (!(read.FileNotFound? && isTty) ==> Stdout(o)[0] == ErrorLine(FailureMessage(read)))
  {
  }

  /** When the input cannot be read or decoded, the option's value makes no difference. */
  lemma OptionIgnoredWhenReadFails(isTty: bool, argv: seq<string>, read: ReadResult, other: string)
    requires HasOption(isTty, argv) && !Counts(read)
    ensures Dispatch(isTty, argv[1 := other], read) == Dispatch(isTty, argv, read)
  {
  }

  /**
   * Terminal mode with an option: one line, whose first field is the count
   * the option selects as Python prints it (so it reads back as that count)
   * and whose remaining text is the file's basename.
   */
  lemma TerminalOneCount(argv: seq<string>, m: Metric, data: seq<byte>, c: CountResult)
    requires |argv| == 3 && argv[1] == Flag(m) && CountMetrics(data) == Success(c)
    ensures Dispatch(true, argv, Read(data)).Printed?
    ensures |Fields(Dispatch(true, argv, Read(data)).line)| >= 2
    ensures Fields(Dispatch(true, argv, Read(data)).line)[0] == Decimal(Measure(c, m))
    ensures ParseDecimal(Fields(Dispatch(true, argv, Read(data)).line)[0]) == Some(Measure(c, m))
    ensures JoinFields(Fields(Dispatch(true, argv, Read(data)).line)[1..]) == Basename(argv[2])
  {
    TerminalOneLine(argv, m, data, c);
    CountThenText(Measure(c, m), Basename(argv[2]));
  }

  lemma TerminalOneLine(argv: seq<string>, m: Metric, data: seq<byte>, c: CountResult)
    requires |argv| == 3 && argv[1] == Flag(m) && CountMetrics(data) == Success(c)
    ensures Dispatch(true, argv, Read(data)) == Printed(Decimal(Measure(c, m)) + " " + Basename(argv[2]))
  {
    ParseFlag(m);
    assert CountFromFile(argv[2], Read(data)) == Counted(c);
  }

  /**
   * Terminal mode without an option: the first three fields are lines, words
   * and bytes as Python prints them (never characters), and the rest is the
   * basename.
   */
  lemma TerminalAllCounts(argv: seq<string>, data: seq<byte>, c: CountResult)
    requires |argv| == 2 && CountMetrics(data) == Success(c)
    ensures Dispatch(true, argv, Read(data)).Printed?
    ensures |Fields(Dispatch(true, argv, Read(data)).line)| >= 4
    ensures Fields(Dispatch(true, argv, Read(data)).line)[..3] == [Decimal(c.lines), Decimal(c.words), Decimal(c.bytes)]
    ensures ParseDecimal(Fields(Dispatch(true, argv, Read(data)).line)[0]) == Some(c.lines)
    ensures ParseDecimal(Fields(Dispatch(true, argv, Read(data)).line)[1]) == Some(c.words)
    ensures ParseDecimal(Fields(Dispatch(true, argv, Read(data)).line)[2]) == Some(c.bytes)
    ensures JoinFields(Fields(Dispatch(true, argv, Read(data)).line)[3..]) == Basename(argv[1])
  {
    var base := Basename(argv[1]);
    var line := Decimal(c.lines) + " " + Decimal(c.words) + " " + Decimal(c.bytes) + " " + base;
    TerminalAllLine(argv, data, c);
    ThreeCountsThenText(c.lines, c.words, c.bytes, base, line);
  }

  lemma TerminalAllLine(argv: seq<string>, data: seq<byte>, c: CountResult)
    requires |argv| == 2 && CountMetrics(data) == Success(c)
    ensures Dispatch(true, argv, Read(data))
         == Printed(Decimal(c.lines) + " " + Decimal(c.words) + " " + Decimal(c.bytes) + " " + Basename(argv[1]))
  {
    assert CountFromFile(argv[1], Read(data)) == Counted(c);
  }

  /** Piped input with an option: the line is exactly the count the option selects. */
  lemma PipedOneCount(argv: seq<string>, m: Metric, data: seq<byte>, c: CountResult)
    requires |argv| == 2 && argv[1] == Flag(m) && CountMetrics(data) == Success(c)
    ensures Dispatch(false, argv, Read(data)).Printed?
    ensures Dispatch(false, argv, Read(data)).line == Decimal(Measure(c, m))
    ensures ParseDecimal(Dispatch(false, argv, Read(data)).line) == Some(Measure(c, m))
  {
    ParseFlag(m);
    DecimalRoundTrip(Measure(c, m));
  }

  /** Piped input without an option: exactly three fields, the printed lines, words and bytes. */
  lemma PipedAllCounts(argv: seq<string>, data: seq<byte>, c: CountResult)
    requires |argv| == 1 && CountMetrics(data) == Success(c)
    ensures Dispatch(false, argv, Read(data)).Printed?
    ensures Fields(Dispatch(false, argv, Read(data)).line) == [Decimal(c.lines), Decimal(c.words), Decimal(c.bytes)]
    ensures ParseDecimal(Fields(Dispatch(false, argv, Read(data)).line)[0]) == Some(c.lines)
    ensures ParseDecimal(Fields(Dispatch(false, argv, Read(data)).line)[1]) == Some(c.words)
    ensures ParseDecimal(Fields(Dispatch(false, argv, Read(data)).line)[2]) == Some(c.bytes)
  {
    assert Dispatch(false, argv, Read(data)) == Printed(Decimal(c.lines) + " " + Decimal(c.words) + " " + Decimal(c.bytes));
    ThreeCounts(c.lines, c.words, c.bytes);
  }

  // ---------------------------------------------------------------------------
  // Worked invocations

  /**
   * A terminal, and the file dir/test.txt holding "hello world\nfoo\n":
   * `ccwc.py -l dir/test.txt` prints "2 test.txt".
   */
  lemma FileLinesScenario(data: seq<byte>)
    requires data == [0x68, 0x65, 0x6C, 0x6C, 0x6F, 0x20, 0x77, 0x6F, 0x72, 0x6C, 0x64, 0x0A, 0x66, 0x6F, 0x6F, 0x0A]
    ensures Dispatch(true, ["ccwc.py", "-l", "dir/test.txt"], Read(data)) == Printed("2 test.txt")
  {
    assert CountMetrics(data) == Success(CountResult(2, 3, 16, 16)) by {
      HelloExample(data);
    }
    HelloLinesLine(["ccwc.py", "-l", "dir/test.txt"], data);
  }

  lemma HelloLinesLine(argv: seq<string>, data: seq<byte>)
    requires argv == ["ccwc.py", "-l", "dir/test.txt"]
    requires CountMetrics(data) == Success(CountResult(2, 3, 16, 16))
    ensures Dispatch(true, argv, Read(data)) == Printed("2 test.txt")
  {
    var path := argv[2];
    assert Dispatch(true, argv, Read(data)) == Printed(Decimal(2) + " " + Basename(path)) by {
      assert argv[1] == Flag(Lines);
      TerminalOneLine(argv, Lines, data, CountResult(2, 3, 16, 16));
    }
    BasenameInDirectory(path);
    assert Decimal(2) == "2";
  }

  lemma BasenameInDirectory(path: string)
    requires path == "dir/test.txt"
    ensures Basename(path) == "test.txt"
  {
    BasenameUnique(path, "test.txt");
  }

  /** The same file without an option: `ccwc.py test.txt` prints "2 3 16 test.txt". */
  lemma FileAllScenario(data: seq<byte>)
    requires data == [0x68, 0x65, 0x6C, 0x6C, 0x6F, 0x20, 0x77, 0x6F, 0x72, 0x6C, 0x64, 0x0A, 0x66, 0x6F, 0x6F, 0x0A]
    ensures Dispatch(true, ["ccwc.py", "test.txt"], Read(data)) == Printed("2 3 16 test.txt")
  {
    assert CountMetrics(data) == Success(CountResult(2, 3, 16, 16)) by {
      HelloExample(data);
    }
    HelloFileLine(["ccwc.py", "test.txt"], data);
  }

  lemma HelloFileLine(argv: seq<string>, data: seq<byte>)
    requires argv == ["ccwc.py", "test.txt"]
    requires CountMetrics(data) == Success(CountResult(2, 3, 16, 16))
    ensures Dispatch(true, argv, Read(data)) == Printed("2 3 16 test.txt")
  {
    var path := argv[1];
    assert Dispatch(true, argv, Read(data))
        == Printed(Decimal(2) + " " + Decimal(3) + " " + Decimal(16) + " " + Basename(path)) by {
      TerminalAllLine(argv, data, CountResult(2, 3, 16, 16));
    }
    assert Basename(path) == path by {
      BasenameUnique(path, path);
    }
    HelloLineText(Decimal(2), Decimal(3), Decimal(16), path);
  }

  lemma HelloLineText(a: string, b: string, c: string, p: string)
    requires a == Decimal(2) && b == Decimal(3) && c == Decimal(16) && p == "test.txt"
    ensures a + " " + b + " " + c + " " + p == "2 3 16 test.txt"
  {
    assert c == "16";
  }

  /** "abc\n" piped in with no option prints "1 1 4". */
  lemma PipeScenario(data: seq<byte>)
    requires data == [0x61, 0x62, 0x63, 0x0A]
    ensures Dispatch(false, ["ccwc.py"], Read(data)) == Printed("1 1 4")
  {
    assert CountMetrics(data) == Success(CountResult(1, 1, 4, 4)) by {
      AbcExample(data);
    }
    assert Decimal(1) == "1" && Decimal(4) == "4";
    assert "1" + " " + "1" + " " + "4" == "1 1 4";
  }

  /** An unknown option on a readable file is reported, and the program exits with 1. */
  lemma BadOptionScenario(data: seq<byte>)
    requires data == [0x61, 0x62, 0x63, 0x0A]
    ensures Dispatch(true, ["ccwc.py", "-x", "f.txt"], Read(data)) == InvalidOption
    ensures ExitCode(Dispatch(true, ["ccwc.py", "-x", "f.txt"], Read(data))) == 1
  {
    assert CountMetrics(data) == Success(CountResult(1, 1, 4, 4)) by {
      AbcExample(data);
    }
    assert "-x" !in Options;
  }

  /** A missing file is reported twice and the program exits with 0. */
  lemma MissingFileScenario(message: string)
    ensures Dispatch(true, ["ccwc.py", "nope.txt"], FileNotFound(message))
         == Failed([ErrorLine("File 'nope.txt' not found."), ErrorLine(message)])
    ensures ExitCode(Dispatch(true, ["ccwc.py", "nope.txt"], FileNotFound(message))) == 0
  {
    assert "File '" + "nope.txt" + "' not found." == "File 'nope.txt' not found.";
  }
}
