/**
 * The text pieces of ccwc.py's output lines: integers as Python's f-strings
 * print them, the fields of a line, and `os.path.basename` in its POSIX form.
 */
module Format {
  import opened Wrappers

  predicate IsDigit(c: char) {
    '0' <= c <= '9'
  }

  function DigitChar(d: nat): (c: char)
    requires d < 10
    ensures IsDigit(c)
  {
    ('0' as int + d) as char
  }

  function DigitValue(c: char): (d: nat)
    requires IsDigit(c)
    ensures d < 10
  {
    c as int - '0' as int
  }

  /** A count as Python prints it: decimal digits, no sign, no leading zero. */
  function Decimal(n: nat): (s: string)
    ensures s != []
    ensures forall i :: 0 <= i < |s| ==> IsDigit(s[i])
    ensures s[0] == '0' ==> n == 0 && |s| == 1
    decreases n
  {
    if n < 10 then [DigitChar(n)] else Decimal(n / 10) + [DigitChar(n % 10)]
  }

  function DigitsValue(s: string): nat
    requires forall i :: 0 <= i < |s| ==> IsDigit(s[i])
  {
    if s == [] then 0 else DigitsValue(s[..|s| - 1]) * 10 + DigitValue(s[|s| - 1])
  }

  /** Reads a field back as a number: None unless it is a non-empty run of digits. */
  function ParseDecimal(s: string): Option<nat> {
    if s != [] && forall i :: 0 <= i < |s| ==> IsDigit(s[i]) then Some(DigitsValue(s)) else None
  }

  /** A printed count reads back as the count. */
  lemma {:induction false} DecimalRoundTrip(n: nat)
    ensures ParseDecimal(Decimal(n)) == Some(n)
    decreases n
  {
    var s := Decimal(n);
    if n < 10 {
      assert s == [DigitChar(n)];
      assert s[..0] == [];
      assert DigitValue(DigitChar(n)) == n;
      assert DigitsValue(s) == DigitsValue([]) * 10 + DigitValue(s[0]);
      assert DigitsValue(s) == n;
    } else {
      DecimalRoundTrip(n / 10);
      assert s[..|s| - 1] == Decimal(n / 10);
      assert DigitValue(DigitChar(n % 10)) == n % 10;
    }
  }

  /** And conversely: digits without a leading zero are how their value prints. */
  lemma {:induction false} ParseThenPrint(s: string)
    requires ParseDecimal(s).Some?
    requires s[0] == '0' ==> |s| == 1
    ensures Decimal(ParseDecimal(s).value) == s
    decreases |s|
  {
    var n := DigitsValue(s);
    if |s| == 1 {
      assert s[..0] == [];
      assert DigitsValue(s[..0]) == 0;
      assert n == DigitValue(s[0]);
      assert Decimal(n) == [DigitChar(n)];
      assert DigitChar(DigitValue(s[0])) == s[0];
    } else {
      var init := s[..|s| - 1];
      assert init[0] == s[0];
      ParseThenPrint(init);
      var m := DigitsValue(init);
      assert m > 0 by {
        if m == 0 { LeadingDigitZero(init); }
      }
      assert n / 10 == m && n % 10 == DigitValue(s[|s| - 1]);
      assert DigitChar(DigitValue(s[|s| - 1])) == s[|s| - 1];
      assert s == init + [s[|s| - 1]];
    }
  }

  lemma {:induction false} LeadingDigitZero(s: string)
    requires s != [] && forall i :: 0 <= i < |s| ==> IsDigit(s[i])
    requires DigitsValue(s) == 0
    ensures s[0] == '0'
    decreases |s|
  {
    if |s| > 1 {
      LeadingDigitZero(s[..|s| - 1]);
    }
  }

  /** The fields of a line, as Python's `line.split(' ')` returns them. */
  function Fields(s: string): (f: seq<string>)
    ensures |f| >= 1
    ensures forall i :: 0 <= i < |f| ==> ' ' !in f[i]
    decreases |s|
  {
    if s == [] then [""]
    else if s[0] == ' ' then [""] + Fields(s[1..])
    else
      var rest := Fields(s[1..]);
      [[s[0]] + rest[0]] + rest[1..]
  }

  /** Fields joined back with single spaces, as Python's `' '.join(fields)`. */
  function JoinFields(f: seq<string>): string
    requires |f| >= 1
  {
    if |f| == 1 then f[0] else f[0] + " " + JoinFields(f[1..])
  }

  /** Splitting at spaces loses nothing: joining the fields gives the line back. */
  lemma {:induction false} JoinFieldsOfFields(s: string)
    ensures JoinFields(Fields(s)) == s
    decreases |s|
  {
    if s != [] {
      JoinFieldsOfFields(s[1..]);
      var rest := Fields(s[1..]);
      if s[0] == ' ' {
        assert Fields(s)[1..] == rest;
      } else if |rest| == 1 {
        assert s == [s[0]] + s[1..];
      } else {
        assert Fields(s)[1..] == rest[1..];
        assert s == [s[0]] + s[1..];
      }
    }
  }

  /** A space-free text is one field. */
  lemma {:induction false} FieldsOfField(a: string)
    requires ' ' !in a
    ensures Fields(a) == [a]
    decreases |a|
  {
    if a != [] {
      assert a[0] != ' ';
      FieldsOfField(a[1..]);
      assert [a[0]] + a[1..] == a;
    }
  }

  /** A space-free text followed by a space and more text is the first field. */
  lemma {:induction false} FieldsOfPrefix(a: string, b: string)
    requires ' ' !in a
    ensures Fields(a + " " + b) == [a] + Fields(b)
    decreases |a|
  {
    var s := a + " " + b;
    if a == [] {
      assert s == " " + b && s[1..] == b;
    } else {
      assert a[0] != ' ';
      assert s[1..] == a[1..] + " " + b;
      FieldsOfPrefix(a[1..], b);
      assert [a[0]] + a[1..] == a;
    }
  }

  lemma NoSpaceInDecimal(n: nat)
    ensures ' ' !in Decimal(n)
  {
    var s := Decimal(n);
    forall i | 0 <= i < |s| ensures s[i] != ' ' {
      assert IsDigit(s[i]);
    }
  }

  /** A line that starts with a printed count: the count is the first field and reads back. */
  lemma LeadingCount(n: nat, rest: string)
    ensures Fields(Decimal(n) + " " + rest) == [Decimal(n)] + Fields(rest)
    ensures ParseDecimal(Fields(Decimal(n) + " " + rest)[0]) == Some(n)
  {
    NoSpaceInDecimal(n);
    FieldsOfPrefix(Decimal(n), rest);
    DecimalRoundTrip(n);
  }

  /** A printed count, a space and a text: the count reads back from the first field, the text from the others. */
  lemma CountThenText(n: nat, rest: string)
    ensures |Fields(Decimal(n) + " " + rest)| >= 2
    ensures Fields(Decimal(n) + " " + rest)[0] == Decimal(n)
    ensures ParseDecimal(Fields(Decimal(n) + " " + rest)[0]) == Some(n)
    ensures JoinFields(Fields(Decimal(n) + " " + rest)[1..]) == rest
  {
    LeadingCount(n, rest);
    assert Fields(Decimal(n) + " " + rest)[1..] == Fields(rest);
    JoinFieldsOfFields(rest);
  }

  /** Three space-free texts, each followed by a space, are the first three fields. */
  lemma FieldsOfThree(a: string, b: string, c: string, rest: string)
    requires ' ' !in a && ' ' !in b && ' ' !in c
    ensures Fields(a + " " + b + " " + c + " " + rest) == [a, b, c] + Fields(rest)
  {
    assert a + " " + b + " " + c + " " + rest == a + " " + (b + " " + (c + " " + rest));
    FieldsOfPrefix(c, rest);
    FieldsOfPrefix(b, c + " " + rest);
    FieldsOfPrefix(a, b + " " + (c + " " + rest));
  }

  /** Three printed counts, a space and a text: each count reads back from its field, the text from the rest. */
  lemma ThreeCountsThenText(x: nat, y: nat, z: nat, rest: string, line: string)
    requires line == Decimal(x) + " " + Decimal(y) + " " + Decimal(z) + " " + rest
    ensures |Fields(line)| >= 4
    ensures Fields(line)[..3] == [Decimal(x), Decimal(y), Decimal(z)]
    ensures ParseDecimal(Fields(line)[0]) == Some(x)
    ensures ParseDecimal(Fields(line)[1]) == Some(y)
    ensures ParseDecimal(Fields(line)[2]) == Some(z)
    ensures JoinFields(Fields(line)[3..]) == rest
  {
    var a, b, c := Decimal(x), Decimal(y), Decimal(z);
    assert Fields(line) == [a, b, c] + Fields(rest) by {
      NoSpaceInDecimal(x);
      NoSpaceInDecimal(y);
      NoSpaceInDecimal(z);
      FieldsOfThree(a, b, c, rest);
    }
    assert Fields(line)[3..] == Fields(rest);
    JoinFieldsOfFields(rest);
    DecimalRoundTrip(x);
    DecimalRoundTrip(y);
    DecimalRoundTrip(z);
  }

  /** Three printed counts separated by spaces: exactly three fields, each reading back as its count. */
  lemma ThreeCounts(x: nat, y: nat, z: nat)
    ensures Fields(Decimal(x) + " " + Decimal(y) + " " + Decimal(z)) == [Decimal(x), Decimal(y), Decimal(z)]
    ensures ParseDecimal(Decimal(x)) == Some(x)
    ensures ParseDecimal(Decimal(y)) == Some(y)
    ensures ParseDecimal(Decimal(z)) == Some(z)
  {
    var a, b, c := Decimal(x), Decimal(y), Decimal(z);
    assert a + " " + b + " " + c == a + " " + (b + " " + c);
    NoSpaceInDecimal(z);
    FieldsOfField(c);
    LeadingCount(y, c);
    LeadingCount(x, b + " " + c);
    DecimalRoundTrip(x);
    DecimalRoundTrip(y);
    DecimalRoundTrip(z);
  }

  /**
   * `os.path.basename` on POSIX: the text after the last '/'. The three
   * properties together determine it: it holds no '/', it ends the path,
   * and what it leaves in front is empty or ends in '/'.
   */
  function Basename(path: string): (b: string)
    ensures '/' !in b
    ensures |b| <= |path| && b == path[|path| - |b|..]
    ensures |b| < |path| ==> path[|path| - |b| - 1] == '/'
    decreases |path|
  {
    if path == [] || path[|path| - 1] == '/' then []
    else Basename(path[..|path| - 1]) + [path[|path| - 1]]
  }

  /** Any suffix with those three properties is the basename. */
  lemma BasenameUnique(path: string, b: string)
    requires '/' !in b
    requires |b| <= |path| && b == path[|path| - |b|..]
    requires |b| < |path| ==> path[|path| - |b| - 1] == '/'
    ensures b == Basename(path)
  {
  }
}
