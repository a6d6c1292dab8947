# ccwc in Dafny

A model of `ccwc.py`, a Python clone of the Unix `wc` utility, and proofs about it.

The model has two parts.

- **The counter.** `count_metrics` takes the bytes of a file or of standard input and returns four counts: line feeds, words (`str.split()`), characters (decoded code points) and raw bytes.
- **The dispatch in `main`.** It takes whether standard input is a terminal, the argument vector and the outcome of reading and counting. It decides the line printed, the error reported and the exit status.

Files:

- `wrappers.dfy`: `Option` and `Result`.
- `utf8.dfy`: UTF-8 per RFC 3629. The encoder follows the bit layout of section 3. The decoder accepts exactly the well-formed syntax of section 4 (UTF8-1 to UTF8-4, with the restricted second bytes after E0, ED, F0 and F4). The round trip is proved in both directions.
- `words.dfy`: whitespace and `str.split()` with no arguments.
  - `IsSpace` is CPython's `str.isspace` table: U+0009-U+000D, U+001C-U+0020, U+0085, U+00A0, U+1680, U+2000-U+200A, U+2028, U+2029, U+202F, U+205F, U+3000.
  - The general lemmas use no entry of the table. The worked examples use only that U+0020 and U+000A are whitespace and that the letters and U+20AC they contain are not.
- `counter.dfy`: `count_metrics` as `CountMetrics`, which returns a `Result`.
- `format.dfy`:
  - how a count prints in an f-string (`Decimal`);
  - how a printed line splits back into fields, used to state what a line contains;
  - `os.path.basename` in its POSIX form: the text after the last `/`.
- `cli.dfy`: `main` as `Cli.Dispatch(isTty, argv, read)`, with `argv` including the program name.
  - The result is an `Outcome`: a printed count line, the usage error, the invalid-option error, or a failure report (the lines printed after an exception).
  - `ExitCode` and `Stdout` give the exit status and the printed lines.

### Behaviour of ccwc.py worth noting

- **Decoding is strict, not lossy.** Line 17 passes `errors='?'`, which is not a registered codec error handler. A release build of CPython run outside development mode looks the handler up only when it meets a malformed sequence. The model assumes such an interpreter.
  - Well-formed UTF-8 therefore decodes normally.
  - Anything else raises `LookupError: unknown error handler name '?'`. Nothing is replaced by U+FFFD.
  - `CountMetrics` returns `Failure(UnknownErrorHandler)` for such input. `Cli` prints that message twice: once in `count_metrics_from_*`, once in `main`.
- **A failed read or decode exits with status 0.**
  - The exception is caught by `except Exception` in `main`, printed, and `main` returns normally.
  - Only `handle_error` exits with 1: its `SystemExit` is not an `Exception`.
- **Words never exceed characters.** This holds for every input that counts, and `Counter.CountInvariants` proves it.

## Model

| member | source | states |
|---|---|---|
| Utf8.DecodeOne | ccwc.py:17 | One character read from the front of the buffer. It takes 1 to 4 bytes and never more than are there. It takes exactly one byte when the first byte is below 0x80, and then its value is that byte. A longer character has a value of at least 0x80 and consists only of bytes of at least 0x80. |
| Utf8.EncodeOneDecodes | ccwc.py:17 | The decoder reads back any scalar value's RFC 3629 encoding as that value, with the encoding's length, whatever follows the encoding. |
| Utf8.DecodeOneEncodes | ccwc.py:17 | A character the decoder reads is re-encoded as exactly the bytes it was read from. |
| Utf8.DecodeEncode | ccwc.py:17 | Decoding the encoding of any text gives the text back. |
| Utf8.EncodeDecode | ccwc.py:17 | Every buffer that decodes is the encoding of what it decodes to. |
| Utf8.WellFormedIffEncoding | ccwc.py:17 | A buffer decodes if and only if it is the UTF-8 encoding of some text. |
| Utf8.DecodedLength | ccwc.py:17-20 | A decoded text has at most as many code points as the buffer has bytes. The two are equal exactly when every byte is below 0x80. |
| Utf8.NewlinesAreBytes | ccwc.py:17-18 | The decoded text has as many U+000A characters as the buffer has 0x0A bytes. 0x0A never occurs inside a multi-byte sequence. |
| Utf8.EncodeAscii | ccwc.py:17 | A text of characters below 0x80 encodes one byte per character, each byte equal to its character. |
| Words.Split | ccwc.py:19 | `str.split()` gives no more words than the text has characters. Every word is non-empty and free of whitespace. |
| Words.NoWordsIffAllSpace | ccwc.py:19 | A text has no words if and only if it consists only of whitespace. |
| Words.SplitSkipsSpace | ccwc.py:19 | Leading whitespace adds no words. |
| Words.SplitAtSpace | ccwc.py:19 | A non-empty whitespace run separates the text: the words of `a + w + b` are the words of `a` followed by those of `b`. Repeated whitespace therefore adds no words. |
| Words.TrailingSpace | ccwc.py:19 | Trailing whitespace adds no words. |
| Words.SplitOfWord | ccwc.py:19 | A whitespace-free non-empty text is exactly one word. |
| Words.SplitJoin | ccwc.py:19 | Words joined with any non-empty whitespace separator split back into exactly those words (split inverts join). |
| Words.WordsKeepText | ccwc.py:19 | The words, concatenated in order, are exactly the text's non-whitespace characters: splitting drops whitespace and nothing else. |
| Words.ThreeWords | ccwc.py:19 | Three words with whitespace before, between (non-empty) and after them split into exactly those three words. |
| Words.SplitExample | ccwc.py:19 | `"  a   b \n c  ".split()` is `["a", "b", "c"]`. |
| Words.SplitHello | ccwc.py:19 | `"hello world\nfoo\n"` has three words. |
| Words.SplitAbc | ccwc.py:19 | `"abc\n"` has one word. |
| Counter.CountMetrics | ccwc.py:12-21 | The empty buffer counts `(0, 0, 0, 0)` without decoding. Whenever counting succeeds, the byte count is the buffer's length. |
| Counter.CountFailsIffMalformed | ccwc.py:17 | Counting fails (the decode raises) exactly on the buffers that are not the UTF-8 encoding of any text. |
| Counter.CountsOfText | ccwc.py:16-21 | The encoding of any text counts its line feeds, its `str.split()` words, its length in code points and the length of its encoding. |
| Counter.CountInvariants | ccwc.py:16-21 | For any buffer that counts: bytes is its length; chars ≤ bytes, with equality exactly for 7-bit input; lines is the number of 0x0A bytes; lines ≤ chars; words ≤ chars. |
| Counter.WordsIgnoreSpacing | ccwc.py:19 | Inserting a whitespace run between two texts gives exactly the sum of their word counts. |
| Counter.AllSpaceHasNoWords | ccwc.py:19 | A buffer of whitespace only counts zero words. |
| Counter.SpacingExample | ccwc.py:12-21 | `"  a   b \n c  "` counts 1 line, 3 words, 13 characters and 13 bytes. |
| Counter.HelloExample | ccwc.py:12-21 | `"hello world\nfoo\n"` counts 2 lines, 3 words, 16 characters and 16 bytes. |
| Counter.AbcExample | ccwc.py:12-21 | `"abc\n"` counts 1 line, 1 word, 4 characters and 4 bytes. |
| Counter.MultiByteExample | ccwc.py:12-21 | The three bytes of U+20AC (`E2 82 AC`) count 0 lines, 1 word, 1 character and 3 bytes. |
| Counter.MalformedExample | ccwc.py:17 | `61 80` (a stray continuation byte) does not count: the decode fails. |
| Format.Decimal | ccwc.py:64 | A printed count is non-empty, all decimal digits, with no leading zero unless the count is 0. |
| Format.DecimalRoundTrip | ccwc.py:102-108 | Reading a printed count back gives the count. |
| Format.ParseThenPrint | ccwc.py:102-108 | Conversely, digits without a leading zero are exactly how their value prints, so printing is one to one. |
| Format.JoinFieldsOfFields | ccwc.py:84-86 | Splitting a line at spaces and joining the fields with spaces gives the line back. |
| Format.CountThenText | ccwc.py:64-70 | In "count, space, text", the first field is the printed count, so it reads back as the count. The rest joins back to the text. |
| Format.ThreeCountsThenText | ccwc.py:84-86 | In "three counts and a text, space-separated", the first three fields are the printed counts in order, each reading back as its count. The rest joins back to the text. |
| Format.ThreeCounts | ccwc.py:121 | Three counts joined by spaces split into exactly the three printed counts, each reading back as its count. |
| Format.Basename | ccwc.py:64 | `os.path.basename` (POSIX): the result has no `/`, is a suffix of the path, and is preceded by `/` when shorter than the path. |
| Format.BasenameUnique | ccwc.py:64 | Those three properties determine the basename: any suffix with them is it. |
| Cli.ParseOption | ccwc.py:63-72 | The option chain recognises exactly `-c`, `-l`, `-w`, `-m`, and each recognised count's flag is the option text. |
| Cli.ParseFlag | ccwc.py:63-70 | Each count's flag is recognised as that count, so flags and counts correspond one to one. |
| Cli.UsageErrorIff | ccwc.py:90-126 | Whatever was read, the usage error happens exactly for the argument counts the mode does not accept: neither 2 nor 3 entries in terminal mode, neither 1 nor 2 when piped. |
| Cli.InvalidOptionIff | ccwc.py:55-113 | The invalid-option error happens exactly when the form carries an option, the input was read and counted, and the option is none of -c, -l, -w, -m. The option is checked only after counting. |
| Cli.ExitStatus | ccwc.py:46-126 | The exit status is 1 exactly on a usage error or an invalid option, whatever was read. |
| Cli.FailedReadReport | ccwc.py:24-123 | An accepted invocation whose input cannot be read or decoded prints two error lines and no count, and exits 0. The first line comes from `count_metrics_from_*` and the second from `main`'s handler. A missing file in terminal mode is named in the first line. Otherwise both lines carry the exception's text. |
| Cli.OptionIgnoredWhenReadFails | ccwc.py:56-72 | When the input cannot be read or decoded, the option's value makes no difference to the outcome. |
| Cli.TerminalOneCount | ccwc.py:55-70 | Terminal mode with a known option prints one line. Its first field is the selected count in canonical decimal (no leading zero), so it reads back as the count. The rest is the file's basename. |
| Cli.TerminalAllCounts | ccwc.py:77-86 | Terminal mode without an option prints a line whose first three fields are lines, words and bytes in canonical decimal (not characters), each reading back as its count. The rest is the basename. |
| Cli.PipedOneCount | ccwc.py:94-108 | Piped input with a known option prints exactly the selected count in canonical decimal, which reads back as the count. |
| Cli.PipedAllCounts | ccwc.py:115-121 | Piped input without an option prints exactly three fields: lines, words and bytes in canonical decimal, each reading back as its count. |
| Cli.FileLinesScenario | ccwc.py:65-66 | `ccwc.py -l dir/test.txt` on `"hello world\nfoo\n"` prints `2 test.txt`. |
| Cli.FileAllScenario | ccwc.py:84-86 | `ccwc.py test.txt` on the same file prints `2 3 16 test.txt`. |
| Cli.PipeScenario | ccwc.py:121 | `"abc\n"` piped in with no option prints `1 1 4`. |
| Cli.BadOptionScenario | ccwc.py:71-72 | `-x` on a readable file gives the invalid-option error and exit status 1. |
| Cli.MissingFileScenario | ccwc.py:38-40 | A missing `nope.txt` prints `Error: File 'nope.txt' not found.` and then `Error: <message>`, and exits 0. |

## Left out

- Opening and reading files and `sys.stdin.buffer` (ccwc.py:24-43) are I/O. The model takes their outcome as the `ReadResult` parameter: the bytes, a `FileNotFoundError` with its message, or any other exception with its message.
- `sys.stdin.isatty()` is an environment query and is the `isTty` parameter.
- `print` and `sys.exit` are not executed. Their effect is the `Outcome` value, with `Stdout` (the printed lines) and `ExitCode` (the status).
- Exception messages other than the decoder's `unknown error handler name '?'` are opaque strings carried in `ReadResult`. CPython's texts for them are not modelled.
- The decoder's behaviour assumes a release build of CPython outside development mode. Since Python 3.9, debug builds and `-X dev` check the `errors` argument before decoding. There, every non-empty buffer, ASCII included, raises `LookupError: unknown error handler name '?'`; the model does not capture that interpreter mode.
- The Windows form of `os.path.basename` is not modelled: it is platform dependent, and only the POSIX rule is.
- `Words.IsSpace` is CPython's whitespace table written out as a fixed predicate. Its agreement with `str.isspace` in a particular Python version is taken as given.
- `Cli.TerminalOneCount`, `Cli.TerminalAllCounts`, `Cli.PipedOneCount`, `Cli.PipedAllCounts`: these state the exit status of a printed line only through `Cli.ExitStatus`, not in their own ensures.
- `Cli.TerminalOneCount` and `Cli.TerminalAllCounts` describe the printed line through its fields (Python's `split(' ')`): the leading count fields exactly, and the rest as the basename once joined back. They do not state the line as one string. `Format.JoinFieldsOfFields` shows that joining a line's fields gives the line back, so the two together fix it.
