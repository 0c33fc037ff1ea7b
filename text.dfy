/**
 * The pieces of Go's `strings` package that the chirp censor relies on:
 * `strings.Split(s, " ")`, `strings.Join(words, " ")` and `strings.ToLower`.
 * A Go string is modelled as the sequence of its runes, so the rune count
 * that `utf8.RuneCountInString` reports is the sequence length.
 */
module Text {

  const Space: char := ' '

  /** Number of separator runes in `s`. */
  function CountSpaces(s: string): nat
  {
    if |s| == 0 then 0 else (if s[0] == Space then 1 else 0) + CountSpaces(s[1..])
  }

  /**
   * `strings.Split(s, " ")`: the maximal runs between single spaces, so that
   * `n` spaces always give `n + 1` pieces (the empty string gives `[""]`,
   * two adjacent spaces give an empty piece between them).
   */
  function Split(s: string): (words: seq<string>)
    ensures |words| == CountSpaces(s) + 1
    ensures forall i :: 0 <= i < |words| ==> Space !in words[i]
  {
    if |s| == 0 then [""]
    else
      var rest := Split(s[1..]);
      if s[0] == Space then [""] + rest
      else [[s[0]] + rest[0]] + rest[1..]
  }

  /**
   * `strings.Join(words, " ")`: no pieces give the empty string, and
   * otherwise the text starts with the first piece and ends with the last.
   */
  function Join(words: seq<string>): (r: string)
    ensures |words| == 0 ==> r == ""
    ensures |words| >= 1 ==> words[0] <= r
    ensures |words| >= 1 ==>
              var last := words[|words| - 1];
              |last| <= |r| && r[|r| - |last|..] == last
  {
    if |words| == 0 then ""
    else if |words| == 1 then words[0]
    else words[0] + [Space] + Join(words[1..])
  }

  /** Length of a join: the pieces plus one separator between each two. */
  lemma {:induction false} JoinLength(words: seq<string>)
    requires |words| >= 1
    ensures |Join(words)| + 1 == SumOfLengths(words) + |words|
  {
    if |words| > 1 {
      JoinLength(words[1..]);
    }
  }

  function SumOfLengths(words: seq<string>): nat
  {
    if |words| == 0 then 0 else |words[0]| + SumOfLengths(words[1..])
  }

  /** Prepending a rune to the first piece prepends it to the join. */
  lemma {:induction false} JoinConsFirst(c: char, words: seq<string>)
    requires |words| >= 1
    ensures Join([[c] + words[0]] + words[1..]) == [c] + Join(words)
  {
    var ws := [[c] + words[0]] + words[1..];
    assert ws[0] == [c] + words[0] && ws[1..] == words[1..];
    if |words| > 1 {
      calc {
        Join(ws);
        ws[0] + [Space] + Join(ws[1..]);
        ([c] + words[0]) + [Space] + Join(words[1..]);
        [c] + (words[0] + [Space] + Join(words[1..]));
      }
    }
  }

  /** Splitting and re-joining gives back the original string. */
  lemma {:induction false} JoinSplit(s: string)
    ensures Join(Split(s)) == s
  {
    if |s| > 0 {
      var rest := Split(s[1..]);
      JoinSplit(s[1..]);
      if s[0] == Space {
        assert ([""] + rest)[1..] == rest;
        assert s == [Space] + s[1..];
      } else {
        JoinConsFirst(s[0], rest);
        assert s == [s[0]] + s[1..];
      }
    }
  }

  /** A string without spaces is a single piece. */
  lemma {:induction false} SplitWord(w: string)
    requires Space !in w
    ensures Split(w) == [w]
  {
    if |w| > 0 {
      SplitWord(w[1..]);
      assert [w[0]] + w[1..] == w;
    }
  }

  /** A space-free word followed by a space splits off as the first piece. */
  lemma {:induction false} SplitAfterWord(w: string, t: string)
    requires Space !in w
    ensures Split(w + [Space] + t) == [w] + Split(t)
  {
    var s := w + [Space] + t;
    if |w| == 0 {
      assert s[1..] == t;
    } else {
      assert s[1..] == w[1..] + [Space] + t;
      SplitAfterWord(w[1..], t);
      assert [w[0]] + w[1..] == w;
    }
  }

  /** Joining space-free pieces and splitting again gives back the pieces. */
  lemma {:induction false} SplitJoin(words: seq<string>)
    requires |words| >= 1
    requires forall i :: 0 <= i < |words| ==> Space !in words[i]
    ensures Split(Join(words)) == words
  {
    if |words| == 1 {
      SplitWord(words[0]);
    } else {
      SplitJoin(words[1..]);
      SplitAfterWord(words[0], Join(words[1..]));
      assert [words[0]] + words[1..] == words;
    }
  }

  /** An ASCII lower-case letter. */
  predicate IsLowerAscii(d: char)
  {
    'a' <= d <= 'z'
  }

  /**
   * `c` is one of the runes whose lower case is the ASCII letter `d`: `d`
   * itself, its ASCII capital, KELVIN SIGN (U+212A) for `k`, and LATIN
   * CAPITAL LETTER I WITH DOT ABOVE (U+0130) for `i`.
   */
  predicate IsCaseOf(c: char, d: char)
  {
    && IsLowerAscii(d)
    && (|| c == d
        || c as int == d as int - 32
        || (d == 'k' && c == '\U{212A}')
        || (d == 'i' && c == '\U{0130}'))
  }

  /** `s` spells the ASCII lower-case word `p`, each rune in either case. */
  predicate CaseVariant(s: string, p: string)
  {
    |s| == |p| && forall i :: 0 <= i < |s| ==> IsCaseOf(s[i], p[i])
  }

  /**
   * `unicode.ToLower` on one rune, restricted to the runes whose lower case
   * is an ASCII letter; every other rune is kept. The result is an ASCII
   * lower-case letter exactly when `c` is one of that letter's cases, and
   * no rune is a case of two letters.
   */
  function LowerRune(c: char): (r: char)
    ensures IsLowerAscii(r) <==> IsCaseOf(c, r)
    ensures forall d :: IsCaseOf(c, d) ==> r == d
  {
    if 'A' <= c <= 'Z' then (c as int + 32) as char
    else if c == '\U{212A}' then 'k'
    else if c == '\U{0130}' then 'i'
    else c
  }

  /** `strings.ToLower`, rune by rune: the rune count is kept. */
  function ToLower(s: string): (r: string)
    ensures |r| == |s|
    ensures forall i :: 0 <= i < |s| && IsLowerAscii(s[i]) ==> r[i] == s[i]
  {
    seq(|s|, i requires 0 <= i < |s| => LowerRune(s[i]))
  }

  /**
   * Lower-casing gives an ASCII lower-case word exactly when the text
   * spells that word with each letter in either case.
   */
  lemma ToLowerIs(s: string, p: string)
    requires forall i :: 0 <= i < |p| ==> IsLowerAscii(p[i])
    ensures ToLower(s) == p <==> CaseVariant(s, p)
  {
    if CaseVariant(s, p) {
      forall i | 0 <= i < |s|
        ensures ToLower(s)[i] == p[i]
      {
        assert IsCaseOf(s[i], p[i]);
      }
    }
    if ToLower(s) == p {
      forall i | 0 <= i < |s|
        ensures IsCaseOf(s[i], p[i])
      {
        assert LowerRune(s[i]) == p[i];
      }
    }
  }
}
