/** The Python string primitives the pipeline relies on, on `seq<char>`:
    the whitespace class shared by `str.isspace`, `str.split()`, `str.strip()`
    and the regular-expression class `\s`, plus `sep.join(words)`. The
    trimming and splitting functions are written for any character class
    `ws`; the Python ones instantiate it with `IsSpace`. */
module Text {

  /** Python's `str.isspace`, which is also what `\s` matches in a `str`
      pattern: the ASCII controls 9-13 and 28-31, the space, NEL, NBSP and the
      Unicode space separators and line/paragraph separators. */
  predicate IsSpace(c: char) {
    var n := c as int;
    || 9 <= n <= 13
    || 28 <= n <= 32
    || n == 0x85 || n == 0xA0 || n == 0x1680
    || 0x2000 <= n <= 0x200A
    || n == 0x2028 || n == 0x2029 || n == 0x202F || n == 0x205F || n == 0x3000
  }

  /** True when no character of `s` is in the class `ws`. */
  predicate NoneIn(s: string, ws: char -> bool) {
    forall i :: 0 <= i < |s| ==> !ws(s[i])
  }

  /** True when every character of `s` is in the class `ws` (vacuously for ""). */
  predicate AllIn(s: string, ws: char -> bool) {
    forall i :: 0 <= i < |s| ==> ws(s[i])
  }

  /** True when `s` holds no whitespace character. */
  predicate NoSpace(s: string) {
    NoneIn(s, IsSpace)
  }

  /** True when every character of `s` is whitespace. */
  predicate AllSpace(s: string) {
    AllIn(s, IsSpace)
  }

  /** `s` without its leading characters of class `ws`. */
  function TrimLeft(s: string, ws: char -> bool): (r: string)
    ensures |r| <= |s| && r == s[|s| - |r|..]
    ensures |r| > 0 ==> !ws(r[0])
    ensures AllIn(s[..|s| - |r|], ws)
  {
    if |s| > 0 && ws(s[0]) then TrimLeft(s[1..], ws) else s
  }

  /** `s` without its trailing characters of class `ws`. */
  function TrimRight(s: string, ws: char -> bool): (r: string)
    ensures |r| <= |s| && r == s[..|r|]
    ensures |r| > 0 ==> !ws(r[|r| - 1])
    ensures AllIn(s[|r|..], ws)
  {
    if |s| > 0 && ws(s[|s| - 1]) then TrimRight(s[..|s| - 1], ws) else s
  }

  /** Trimming both ends leaves a slice of `s` with only characters of class
      `ws` cut off on either side. */
  lemma {:induction false} TrimSlice(s: string, ws: char -> bool)
    ensures exists i, j :: (0 <= i <= j <= |s| && TrimRight(TrimLeft(s, ws), ws) == s[i..j]
      && AllIn(s[..i], ws) && AllIn(s[j..], ws))
  {
    var l := TrimLeft(s, ws);
    var r := TrimRight(l, ws);
    var i, j := |s| - |l|, |s| - |l| + |r|;
    assert s[i..j] == r by {
      assert r == l[..|r|];
    }
    assert s[j..] == l[|r|..];
  }

  /** Python's `s.strip()` with no argument. */
  function Strip(s: string): (r: string)
    ensures |r| > 0 ==> !IsSpace(r[0]) && !IsSpace(r[|r| - 1])
    ensures exists i, j :: (0 <= i <= j <= |s| && r == s[i..j]
      && AllSpace(s[..i]) && AllSpace(s[j..]))
  {
    TrimSlice(s, IsSpace);
    TrimRight(TrimLeft(s, IsSpace), IsSpace)
  }

  /** Stripping leaves nothing exactly when the text is all whitespace. */
  lemma StripEmpty(s: string)
    ensures Strip(s) == [] <==> AllSpace(s)
  {
    var l := TrimLeft(s, IsSpace);
    if Strip(s) == [] {
      assert |l| == 0;
      forall i | 0 <= i < |s| ensures IsSpace(s[i]) {
        assert s[i] == s[..|s| - |l|][i];
      }
    }
  }

  /** The longest prefix of `s` holding no character of class `ws`. */
  function Word(s: string, ws: char -> bool): (w: string)
    ensures |w| <= |s| && w == s[..|w|] && NoneIn(w, ws)
    ensures |w| < |s| ==> ws(s[|w|])
  {
    if |s| == 0 || ws(s[0]) then []
    else [s[0]] + Word(s[1..], ws)
  }

  /** The maximal runs of characters outside `ws`, in order. */
  function SplitOn(s: string, ws: char -> bool): seq<string>
    decreases |s|
  {
    var t := TrimLeft(s, ws);
    if |t| == 0 then []
    else
      var w := Word(t, ws);
      [w] + SplitOn(t[|w|..], ws)
  }

  /** Python's `s.split()` with no argument (see `SplitWords`). */
  function Split(s: string): seq<string> {
    SplitOn(s, IsSpace)
  }

  lemma {:induction false} SplitOnWords(s: string, ws: char -> bool)
    ensures forall i :: 0 <= i < |SplitOn(s, ws)| ==> |SplitOn(s, ws)[i]| > 0 && NoneIn(SplitOn(s, ws)[i], ws)
    decreases |s|
  {
    var t := TrimLeft(s, ws);
    if |t| > 0 {
      var w := Word(t, ws);
      var rest := SplitOn(t[|w|..], ws);
      SplitOnWords(t[|w|..], ws);
      forall i | 0 <= i < |rest| + 1
        ensures |([w] + rest)[i]| > 0 && NoneIn(([w] + rest)[i], ws)
      {
        if i > 0 {
          assert ([w] + rest)[i] == rest[i - 1];
        }
      }
    }
  }

  /** `str.split()` gives no empty words (leading, trailing and repeated
      whitespace separate words and nothing else), and no word holds
      whitespace. */
  lemma SplitWords(s: string)
    ensures forall i :: 0 <= i < |Split(s)| ==> |Split(s)[i]| > 0 && NoSpace(Split(s)[i])
  {
    SplitOnWords(s, IsSpace);
  }

  /** Python's `sep.join(words)`. */
  function Join(words: seq<string>, sep: string): string {
    if |words| == 0 then ""
    else if |words| == 1 then words[0]
    else words[0] + sep + Join(words[1..], sep)
  }

  /** Splitting undoes joining with a space, provided every word is non-empty
      and holds no whitespace. */
  lemma SplitJoin(words: seq<string>)
    requires forall i :: 0 <= i < |words| ==> |words[i]| > 0 && NoSpace(words[i])
    ensures Split(Join(words, " ")) == words
  {
    assert IsSpace(' ');
    SplitOnJoin(words, IsSpace);
  }

  lemma {:induction false} SplitOnJoin(words: seq<string>, ws: char -> bool)
    requires ws(' ')
    requires forall i :: 0 <= i < |words| ==> |words[i]| > 0 && NoneIn(words[i], ws)
    ensures SplitOn(Join(words, " "), ws) == words
  {
    if |words| == 1 {
      SplitOnWord(words[0], "", ws);
      assert words[0] + "" == words[0];
    } else if |words| > 1 {
      var tail := words[1..];
      assert forall i :: 0 <= i < |tail| ==> tail[i] == words[i + 1];
      SplitOnJoin(tail, ws);
      SplitOnCons(words[0], Join(tail, " "), ws);
      assert words == [words[0]] + tail;
    }
  }

  /** A word, a space and the rest split into the word and the rest's words. */
  lemma SplitOnCons(w: string, rest: string, ws: char -> bool)
    requires ws(' ') && |w| > 0 && NoneIn(w, ws)
    ensures SplitOn(w + " " + rest, ws) == [w] + SplitOn(rest, ws)
  {
    assert w + " " + rest == w + ([' '] + rest);
    SplitOnWord(w, [' '] + rest, ws);
    SplitOnSkip(' ', rest, ws);
  }

  /** A non-empty word followed by nothing or a separator is split off as the
      first word. */
  lemma {:induction false} SplitOnWord(w: string, t: string, ws: char -> bool)
    requires |w| > 0 && NoneIn(w, ws)
    requires |t| == 0 || ws(t[0])
    ensures SplitOn(w + t, ws) == [w] + SplitOn(t, ws)
  {
    var s := w + t;
    assert s[0] == w[0];
    assert TrimLeft(s, ws) == s;
    WordOfWord(w, t, ws);
    assert s[|w|..] == t;
  }

  /** A leading separator does not change the split. */
  lemma SplitOnSkip(c: char, s: string, ws: char -> bool)
    requires ws(c)
    ensures SplitOn([c] + s, ws) == SplitOn(s, ws)
  {
    assert ([c] + s)[1..] == s;
    assert TrimLeft([c] + s, ws) == TrimLeft(s, ws);
  }

  /** The first word of `w + t`, when `w` is a non-empty word and `t` is empty
      or starts with a separator, is `w` itself. */
  lemma {:induction false} WordOfWord(w: string, t: string, ws: char -> bool)
    requires |w| > 0 && NoneIn(w, ws)
    requires |t| == 0 || ws(t[0])
    ensures Word(w + t, ws) == w
  {
    assert (w + t)[0] == w[0];
    if |w| == 1 {
      assert (w + t)[1..] == t;
      assert Word(t, ws) == [];
      assert w == [w[0]];
    } else {
      assert (w + t)[1..] == w[1..] + t;
      WordOfWord(w[1..], t, ws);
      assert w == [w[0]] + w[1..];
    }
  }
}
