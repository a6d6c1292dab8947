/**
 * Python's `str.split()` with no arguments: the text is cut at runs of
 * whitespace, and leading and trailing whitespace produce no words.
 */
module Words {
  import opened Utf8

  /**
   * The code points for which `str.isspace()` holds in CPython: the
   * characters of bidirectional class WS, B or S and of general category Zs.
   * The general lemmas below use no entry of the table; the worked examples
   * use only that U+0020 and U+000A are whitespace and that their letters
   * are not.
   */
  predicate IsSpace(c: CodePoint) {
    || 0x09 <= c <= 0x0D
    || 0x1C <= c <= 0x20
    || c == 0x85 || c == 0xA0 || c == 0x1680
    || 0x2000 <= c <= 0x200A
    || c == 0x2028 || c == 0x2029 || c == 0x202F || c == 0x205F || c == 0x3000
  }

  predicate AllSpace(t: seq<CodePoint>) {
    forall i :: 0 <= i < |t| ==> IsSpace(t[i])
  }

  /** A word: a non-empty run without whitespace. */
  predicate IsWord(w: seq<CodePoint>) {
    w != [] && forall i :: 0 <= i < |w| ==> !IsSpace(w[i])
  }

  /** The length of the longest whitespace-free prefix of `t`. */
  function WordLength(t: seq<CodePoint>): (n: nat)
    ensures n <= |t|
    ensures forall i :: 0 <= i < n ==> !IsSpace(t[i])
    ensures n < |t| ==> IsSpace(t[n])
  {
    if t == [] || IsSpace(t[0]) then 0 else 1 + WordLength(t[1..])
  }

  /** The words of `t`, in order, as `t.split()` returns them. */
  function Split(t: seq<CodePoint>): (words: seq<seq<CodePoint>>)
    ensures |words| <= |t|
    ensures forall w <- words :: IsWord(w)
    decreases |t|
  {
    if t == [] then []
    else if IsSpace(t[0]) then Split(t[1..])
    else
      var n := WordLength(t);
      [t[..n]] + Split(t[n..])
  }

  /** Every character outside whitespace, in order. */
  function NonSpace(t: seq<CodePoint>): seq<CodePoint> {
    if t == [] then []
    else (if IsSpace(t[0]) then [] else [t[0]]) + NonSpace(t[1..])
  }

  function Flatten(ws: seq<seq<CodePoint>>): seq<CodePoint> {
    if ws == [] then [] else ws[0] + Flatten(ws[1..])
  }

  /** `words` joined with `sep` between consecutive words. */
  function Join(words: seq<seq<CodePoint>>, sep: seq<CodePoint>): seq<CodePoint> {
    if words == [] then []
    else if |words| == 1 then words[0]
    else words[0] + sep + Join(words[1..], sep)
  }

  /** A text has no words exactly when it is all whitespace (the empty text included). */
  lemma {:induction false} NoWordsIffAllSpace(t: seq<CodePoint>)
    ensures Split(t) == [] <==> AllSpace(t)
    decreases |t|
  {
    if t != [] && IsSpace(t[0]) {
      NoWordsIffAllSpace(t[1..]);
      assert AllSpace(t) <==> AllSpace(t[1..]) by {
        assert forall i :: 1 <= i < |t| ==> t[i] == t[1..][i - 1];
      }
    }
  }

  lemma {:induction false} WordLengthAppend(a: seq<CodePoint>, b: seq<CodePoint>)
    requires WordLength(a) < |a| || (b != [] && IsSpace(b[0]))
    ensures WordLength(a + b) == WordLength(a)
    decreases |a|
  {
    if a != [] && !IsSpace(a[0]) {
      assert (a + b)[1..] == a[1..] + b;
      WordLengthAppend(a[1..], b);
    }
  }

  /** Leading whitespace adds no words. */
  lemma {:induction false} SplitSkipsSpace(w: seq<CodePoint>, b: seq<CodePoint>)
    requires AllSpace(w)
    ensures Split(w + b) == Split(b)
    decreases |w|
  {
    if w != [] {
      assert IsSpace((w + b)[0]);
      assert (w + b)[1..] == w[1..] + b;
      SplitSkipsSpace(w[1..], b);
    } else {
      assert w + b == b;
    }
  }

  /**
   * A non-empty run of whitespace separates: the words on either side of it
   * are split independently, so repeated whitespace adds no words.
   */
  lemma {:induction false} SplitAtSpace(a: seq<CodePoint>, w: seq<CodePoint>, b: seq<CodePoint>)
    requires w != [] && AllSpace(w)
    ensures Split(a + w + b) == Split(a) + Split(b)
    decreases |a|, 1
  {
    var t := a + w + b;
    if a == [] {
      assert t == w + b;
      SplitSkipsSpace(w, b);
    } else if IsSpace(a[0]) {
      assert t[1..] == a[1..] + w + b;
      SplitAtSpace(a[1..], w, b);
    } else {
      SplitAtSpaceAfterWord(a, w, b);
    }
  }

  /** The case of `SplitAtSpace` where `a` starts with a word. */
  lemma {:induction false} SplitAtSpaceAfterWord(a: seq<CodePoint>, w: seq<CodePoint>, b: seq<CodePoint>)
    requires w != [] && AllSpace(w)
    requires a != [] && !IsSpace(a[0])
    ensures Split(a + w + b) == Split(a) + Split(b)
    decreases |a|, 0
  {
    var t := a + w + b;
    var n := WordLength(a);
    assert t == a + (w + b);
    WordLengthAppend(a, w + b);
    assert t[..n] == a[..n];
    if n < |a| {
      assert t[n..] == a[n..] + w + b;
      SplitAtSpace(a[n..], w, b);
    } else {
      assert a[n..] == [] && a[..n] == a;
      assert t[n..] == w + b;
      SplitSkipsSpace(w, b);
    }
  }

  /** Trailing whitespace adds no words. */
  lemma TrailingSpace(a: seq<CodePoint>, w: seq<CodePoint>)
    requires AllSpace(w)
    ensures Split(a + w) == Split(a)
  {
    if w != [] {
      SplitAtSpace(a, w, []);
      assert a + w + [] == a + w;
    } else {
      assert a + w == a;
    }
  }

  lemma WordLengthOfWord(w: seq<CodePoint>)
    requires IsWord(w)
    ensures WordLength(w) == |w|
  {
    if |w| > 1 {
      WordLengthOfWord(w[1..]);
    }
  }

  lemma {:induction false} SplitOfWord(w: seq<CodePoint>)
    requires IsWord(w)
    ensures Split(w) == [w]
  {
    WordLengthOfWord(w);
    assert w[|w|..] == [] && w[..|w|] == w;
  }

  /**
   * Splitting undoes joining: words joined with any non-empty whitespace
   * separator split back into exactly those words.
   */
  lemma {:induction false} SplitJoin(words: seq<seq<CodePoint>>, sep: seq<CodePoint>)
    requires forall w <- words :: IsWord(w)
    requires sep != [] && AllSpace(sep)
    ensures Split(Join(words, sep)) == words
  {
    if |words| == 1 {
      SplitOfWord(words[0]);
    } else if |words| > 1 {
      SplitAtSpace(words[0], sep, Join(words[1..], sep));
      SplitOfWord(words[0]);
      SplitJoin(words[1..], sep);
      assert [words[0]] + words[1..] == words;
    }
  }

  lemma FlattenAppend(xs: seq<seq<CodePoint>>, ys: seq<seq<CodePoint>>)
    ensures Flatten(xs + ys) == Flatten(xs) + Flatten(ys)
  {
    if xs != [] {
      assert (xs + ys)[1..] == xs[1..] + ys;
      FlattenAppend(xs[1..], ys);
    } else {
      assert xs + ys == ys;
    }
  }

  lemma NonSpaceAppend(a: seq<CodePoint>, b: seq<CodePoint>)
    ensures NonSpace(a + b) == NonSpace(a) + NonSpace(b)
  {
    if a != [] {
      assert (a + b)[1..] == a[1..] + b;
      NonSpaceAppend(a[1..], b);
    } else {
      assert a + b == b;
    }
  }

  lemma {:induction false} NonSpaceOfWord(w: seq<CodePoint>)
    requires forall i :: 0 <= i < |w| ==> !IsSpace(w[i])
    ensures NonSpace(w) == w
  {
    if w != [] {
      NonSpaceOfWord(w[1..]);
    }
  }

  /** The words hold every non-whitespace character of the text, in order, and nothing else. */
  lemma {:induction false} WordsKeepText(t: seq<CodePoint>)
    ensures Flatten(Split(t)) == NonSpace(t)
    decreases |t|
  {
    if t != [] {
      if IsSpace(t[0]) {
        WordsKeepText(t[1..]);
      } else {
        var n := WordLength(t);
        WordsKeepText(t[n..]);
        FlattenAppend([t[..n]], Split(t[n..]));
        assert t == t[..n] + t[n..];
        NonSpaceAppend(t[..n], t[n..]);
        NonSpaceOfWord(t[..n]);
      }
    }
  }

  /** Three words with whitespace before, between and after them split into those three words. */
  lemma ThreeWords(a: seq<CodePoint>, b: seq<CodePoint>, c: seq<CodePoint>,
                   w0: seq<CodePoint>, w1: seq<CodePoint>, w2: seq<CodePoint>, w3: seq<CodePoint>)
    requires IsWord(a) && IsWord(b) && IsWord(c)
    requires AllSpace(w0) && AllSpace(w1) && AllSpace(w2) && AllSpace(w3) && w1 != [] && w2 != []
    ensures Split(w0 + (a + w1 + (b + w2 + (c + w3)))) == [a, b, c]
  {
    var t2 := b + w2 + (c + w3);
    TwoWords(b, c, w2, w3);
    var t1 := a + w1 + t2;
    assert Split(t1) == [a, b, c] by {
      SplitOfWord(a);
      SplitAtSpace(a, w1, t2);
    }
    SplitSkipsSpace(w0, t1);
  }

  lemma TwoWords(b: seq<CodePoint>, c: seq<CodePoint>, w2: seq<CodePoint>, w3: seq<CodePoint>)
    requires IsWord(b) && IsWord(c)
    requires AllSpace(w2) && AllSpace(w3) && w2 != []
    ensures Split(b + w2 + (c + w3)) == [b, c]
  {
    var t3 := c + w3;
    assert Split(t3) == [c] by {
      SplitOfWord(c);
      TrailingSpace(c, w3);
    }
    SplitOfWord(b);
    SplitAtSpace(b, w2, t3);
  }

  /** `"  a   b \n c  ".split()` is `["a", "b", "c"]`. */
  lemma SplitExample(t: seq<CodePoint>)
    requires t == [0x20, 0x20, 0x61, 0x20, 0x20, 0x20, 0x62, 0x20, 0x0A, 0x20, 0x63, 0x20, 0x20]
    ensures Split(t) == [[0x61], [0x62], [0x63]]
  {
    var s2: seq<CodePoint> := [0x20, 0x20];
    var s3: seq<CodePoint> := [0x20, 0x20, 0x20];
    var snl: seq<CodePoint> := [0x20, 0x0A, 0x20];
    assert t == s2 + ([0x61] + s3 + ([0x62] + snl + ([0x63] + s2)));
    ThreeWords([0x61], [0x62], [0x63], s2, s3, snl, s2);
  }

  /** `"hello world\nfoo\n"` has three words. */
  lemma SplitHello(t: seq<CodePoint>)
    requires t == [0x68, 0x65, 0x6C, 0x6C, 0x6F, 0x20, 0x77, 0x6F, 0x72, 0x6C, 0x64, 0x0A, 0x66, 0x6F, 0x6F, 0x0A]
    ensures |Split(t)| == 3
  {
    var hello: seq<CodePoint> := [0x68, 0x65, 0x6C, 0x6C, 0x6F];
    var world: seq<CodePoint> := [0x77, 0x6F, 0x72, 0x6C, 0x64];
    var foo: seq<CodePoint> := [0x66, 0x6F, 0x6F];
    var sp: seq<CodePoint> := [0x20];
    var nl: seq<CodePoint> := [0x0A];
    assert t == [] + (hello + sp + (world + nl + (foo + nl)));
    ThreeWords(hello, world, foo, [], sp, nl, nl);
  }

  /** `"abc\n"` has one word. */
  lemma SplitAbc(t: seq<CodePoint>)
    requires t == [0x61, 0x62, 0x63, 0x0A]
    ensures |Split(t)| == 1
  {
    var abc: seq<CodePoint> := [0x61, 0x62, 0x63];
    assert t == abc + [0x0A];
    TrailingSpace(abc, [0x0A]);
    SplitOfWord(abc);
  }
}
