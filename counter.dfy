/**
 * `count_metrics` of ccwc.py: the four counts of a byte buffer. The buffer
 * is decoded with `data.decode('utf-8', errors='?')`; `'?'` is not a
 * registered error handler. A release build of CPython outside development
 * mode looks the handler up only when it meets an error, so well-formed
 * UTF-8 decodes normally while malformed input raises `LookupError` instead
 * of producing counts; that interpreter is the one modelled here.
 */
module Counter {
  import opened Wrappers
  import opened Utf8
  import opened Words

  /** The tuple `(lines, words, chars, bytes)` that `count_metrics` returns. */
  datatype CountResult = CountResult(lines: nat, words: nat, chars: nat, bytes: nat)

  /** The exception the decode raises: `LookupError: unknown error handler name '?'`. */
  datatype DecodeError = UnknownErrorHandler

  const LineFeed: CodePoint := 0x0A

  function CountMetrics(data: seq<byte>): (r: Result<CountResult, DecodeError>)
    ensures data == [] ==> r == Success(CountResult(0, 0, 0, 0))
    ensures r.Success? ==> r.value.bytes == |data|
  {
    if |data| == 0 then
      Success(CountResult(0, 0, 0, 0))
    else
      match Decode(data)
      case None => Failure(UnknownErrorHandler)
      case Some(text) =>
        Success(CountResult(multiset(text)[LineFeed], |Split(text)|, |text|, |data|))
  }

  /** Counting fails exactly on the buffers that are not the UTF-8 encoding of any text. */
  lemma CountFailsIffMalformed(data: seq<byte>)
    ensures CountMetrics(data).Failure? <==> !exists text: seq<CodePoint> :: Encode(text) == data
  {
    WellFormedIffEncoding(data);
  }

  /**
   * The counts of an encoded text are the text's own measures: its line
   * feeds, its words as `str.split()` finds them, its length in code points,
   * and the length of its encoding.
   */
  lemma CountsOfText(text: seq<CodePoint>)
    ensures CountMetrics(Encode(text)) ==
      Success(CountResult(multiset(text)[LineFeed], |Split(text)|, |text|, |Encode(text)|))
  {
    DecodeEncode(text);
    if Encode(text) == [] {
      DecodedLength(Encode(text));
    }
  }

  /**
   * The relations between the counts of any buffer that counts: bytes is the
   * raw length; chars never exceeds bytes and equals it exactly for 7-bit
   * input; lines is the number of 0x0A bytes and never exceeds chars; nor
   * does words.
   */
  lemma CountInvariants(data: seq<byte>)
    requires CountMetrics(data).Success?
    ensures var c := CountMetrics(data).value;
      && c.bytes == |data|
      && c.chars <= c.bytes
      && (c.chars == c.bytes <==> forall i :: 0 <= i < |data| ==> data[i] < 0x80)
      && c.lines == multiset(data)[0x0A]
      && c.lines <= c.chars
      && c.words <= c.chars
  {
    if data != [] {
      var text: seq<CodePoint> := Decode(data).value;
      DecodedLength(data);
      NewlinesAreBytes(data);
      assert multiset(text)[LineFeed] <= |multiset(text)| == |text|;
    }
  }

  /** A non-empty whitespace run between two texts neither joins nor adds words: their word counts add up. */
  lemma WordsIgnoreSpacing(a: seq<CodePoint>, w: seq<CodePoint>, b: seq<CodePoint>)
    requires AllSpace(w) && w != []
    ensures CountMetrics(Encode(a + w + b)).Success?
    ensures CountMetrics(Encode(a)).Success? && CountMetrics(Encode(b)).Success?
    ensures CountMetrics(Encode(a + w + b)).value.words
         == CountMetrics(Encode(a)).value.words + CountMetrics(Encode(b)).value.words
  {
    CountsOfText(a + w + b);
    CountsOfText(a);
    CountsOfText(b);
    SplitAtSpace(a, w, b);
  }

  /** A buffer holding only whitespace has no words. */
  lemma AllSpaceHasNoWords(text: seq<CodePoint>)
    requires AllSpace(text)
    ensures CountMetrics(Encode(text)).Success?
    ensures CountMetrics(Encode(text)).value.words == 0
  {
    CountsOfText(text);
    NoWordsIffAllSpace(text);
  }

  /** The text whose UTF-8 encoding is the 7-bit buffer `data`. */
  function AsciiText(data: seq<byte>): (text: seq<CodePoint>)
    requires forall i :: 0 <= i < |data| ==> data[i] < 0x80
    ensures Encode(text) == data
  {
    var text: seq<CodePoint> := seq(|data|, i requires 0 <= i < |data| => data[i] as int);
    EncodeAscii(text);
    text
  }

  lemma NoLineFeed(text: seq<CodePoint>)
    requires forall i :: 0 <= i < |text| ==> text[i] != LineFeed
    ensures multiset(text)[LineFeed] == 0
  {
    assert LineFeed !in text;
  }

  lemma OneLineFeed(text: seq<CodePoint>)
    requires text == [0x20, 0x20, 0x61, 0x20, 0x20, 0x20, 0x62, 0x20, 0x0A, 0x20, 0x63, 0x20, 0x20]
    ensures multiset(text)[LineFeed] == 1
  {
    var before, after := text[..8], text[9..];
    assert text == before + [LineFeed] + after;
    NoLineFeed(before);
    NoLineFeed(after);
  }

  /** The buffer "  a   b \n c  " counts one line, three words and thirteen characters. */
  lemma SpacingExample(data: seq<byte>)
    requires data == [0x20, 0x20, 0x61, 0x20, 0x20, 0x20, 0x62, 0x20, 0x0A, 0x20, 0x63, 0x20, 0x20]
    ensures CountMetrics(data) == Success(CountResult(1, 3, 13, 13))
  {
    var text: seq<CodePoint> := AsciiText(data);
    assert text == [0x20, 0x20, 0x61, 0x20, 0x20, 0x20, 0x62, 0x20, 0x0A, 0x20, 0x63, 0x20, 0x20];
    assert |Split(text)| == 3 by {
      SplitExample(text);
    }
    assert multiset(text)[LineFeed] == 1 by {
      OneLineFeed(text);
    }
    CountsOfText(text);
  }

  /** The 16-byte file "hello world\nfoo\n" counts two lines, three words, sixteen characters. */
  lemma HelloExample(data: seq<byte>)
    requires data == [0x68, 0x65, 0x6C, 0x6C, 0x6F, 0x20, 0x77, 0x6F, 0x72, 0x6C, 0x64, 0x0A, 0x66, 0x6F, 0x6F, 0x0A]
    ensures CountMetrics(data) == Success(CountResult(2, 3, 16, 16))
  {
    var text: seq<CodePoint> := AsciiText(data);
    assert text == [0x68, 0x65, 0x6C, 0x6C, 0x6F, 0x20, 0x77, 0x6F, 0x72, 0x6C, 0x64, 0x0A, 0x66, 0x6F, 0x6F, 0x0A];
    assert |Split(text)| == 3 by {
      SplitHello(text);
    }
    assert multiset(text)[LineFeed] == 2 by {
      TwoLineFeeds(text);
    }
    CountsOfText(text);
  }

  lemma TwoLineFeeds(text: seq<CodePoint>)
    requires text == [0x68, 0x65, 0x6C, 0x6C, 0x6F, 0x20, 0x77, 0x6F, 0x72, 0x6C, 0x64, 0x0A, 0x66, 0x6F, 0x6F, 0x0A]
    ensures multiset(text)[LineFeed] == 2
  {
    var first, second := text[..11], text[12..15];
    assert text == first + [LineFeed] + second + [LineFeed];
    NoLineFeed(first);
    NoLineFeed(second);
  }

  lemma OneTrailingLineFeed(text: seq<CodePoint>)
    requires text == [0x61, 0x62, 0x63, 0x0A]
    ensures multiset(text)[LineFeed] == 1
  {
    assert text == text[..3] + [LineFeed];
    NoLineFeed(text[..3]);
  }

  /** The buffer "abc\n" counts one line, one word, four characters. */
  lemma AbcExample(data: seq<byte>)
    requires data == [0x61, 0x62, 0x63, 0x0A]
    ensures CountMetrics(data) == Success(CountResult(1, 1, 4, 4))
  {
    var text: seq<CodePoint> := AsciiText(data);
    assert text == [0x61, 0x62, 0x63, 0x0A];
    assert |Split(text)| == 1 by {
      SplitAbc(text);
    }
    assert multiset(text)[LineFeed] == 1 by {
      OneTrailingLineFeed(text);
    }
    CountsOfText(text);
  }

  /** One three-byte character (U+20AC, the euro sign) counts as three bytes but one character. */
  lemma MultiByteExample()
    ensures CountMetrics([0xE2, 0x82, 0xAC]) == Success(CountResult(0, 1, 1, 3))
  {
    var text: seq<CodePoint> := [0x20AC];
    assert Encode(text) == [0xE2, 0x82, 0xAC];
    CountsOfText(text);
    SplitOfWord(text);
  }

  /** A stray continuation byte is malformed, so it yields no counts. */
  lemma MalformedExample()
    ensures CountMetrics([0x61, 0x80]) == Failure(UnknownErrorHandler)
  {
    assert DecodeOne([0x80]).None?;
    assert [0x61, 0x80][1..] == [0x80];
  }
}
