/**
 * The chirp profanity filter: split on single spaces, overwrite every word
 * whose lower-case form is in the profanity list with four asterisks, and
 * join again with single spaces. Words carrying punctuation ("fornax!") are
 * compared as they are and so pass through uncensored.
 */
module Censor {
  import opened Text

  /** The fixed profanity list. */
  const Profanity: seq<string> := ["kerfuffle", "sharbert", "fornax"]

  /** The replacement written over a profane word. */
  const Mask: string := "****"

  /** `slices.Contains(profanity, strings.ToLower(word))`. */
  predicate IsProfane(word: string)
  {
    ToLower(word) in Profanity
  }

  /** What the filter leaves in the place of one word. */
  function CensorWord(word: string): string
  {
    if IsProfane(word) then Mask else word
  }

  function CensorWords(words: seq<string>): (r: seq<string>)
  {
    seq(|words|, i requires 0 <= i < |words| => CensorWord(words[i]))
  }

  /** The text the filter returns for `s`. */
  function Censored(s: string): string
  {
    Join(CensorWords(Split(s)))
  }

  /**
   * `censorProfanity`: the split words are kept in a slice that the loop
   * overwrites in place before the join.
   */
  method CensorProfanity(s: string) returns (cleaned: string)
    ensures cleaned == Censored(s)
  {
    var pieces := Split(s);
    var words := new string[|pieces|](i requires 0 <= i < |pieces| => pieces[i]);
    for i := 0 to words.Length
      invariant forall k :: 0 <= k < i ==> words[k] == CensorWord(pieces[k])
      invariant forall k :: i <= k < words.Length ==> words[k] == pieces[k]
    {
      if IsProfane(words[i]) {
        words[i] := Mask;
      }
    }
    assert words[..] == CensorWords(pieces);
    cleaned := Join(words[..]);
  }

  /** A profane word is at least as long as the mask that replaces it. */
  lemma ProfaneWordIsLong(word: string)
    requires IsProfane(word)
    ensures |word| >= |Mask|
  {
    assert |ToLower(word)| == |word|;
  }

  /** The mask itself is not profane, and contains no space. */
  lemma MaskIsClean()
    ensures !IsProfane(Mask)
    ensures Space !in Mask
  {
    assert ToLower(Mask) == Mask;
  }

  /**
   * The censored text splits into exactly as many words as the input, and
   * the word at each position is the mask when the input word there is
   * profane and that input word, unchanged, otherwise.
   */
  lemma CensoredWords(s: string)
    ensures Split(Censored(s)) == CensorWords(Split(s))
    ensures |Split(Censored(s))| == |Split(s)|
    ensures forall i :: 0 <= i < |Split(s)| ==>
              Split(Censored(s))[i] == (if IsProfane(Split(s)[i]) then Mask else Split(s)[i])
  {
    var ws := CensorWords(Split(s));
    MaskIsClean();
    assert forall i :: 0 <= i < |ws| ==> Space !in ws[i];
    SplitJoin(ws);
  }

  /** Every word that survives the filter is one that is not profane. */
  lemma CensorWordsClean(words: seq<string>)
    ensures forall i :: 0 <= i < |words| ==> !IsProfane(CensorWords(words)[i])
  {
    MaskIsClean();
  }

  /** Censoring an already censored text changes nothing. */
  lemma CensorIdempotent(s: string)
    ensures Censored(Censored(s)) == Censored(s)
  {
    CensoredWords(s);
    var ws := CensorWords(Split(s));
    CensorWordsClean(Split(s));
    forall i | 0 <= i < |ws|
      ensures CensorWords(ws)[i] == ws[i]
    {
      assert !IsProfane(ws[i]);
    }
    assert CensorWords(ws) == ws;
  }

  /** The filter never lengthens a text: each mask is no longer than its word. */
  lemma {:induction false} CensorWordsShorter(words: seq<string>)
    ensures SumOfLengths(CensorWords(words)) <= SumOfLengths(words)
  {
    if |words| > 0 {
      if IsProfane(words[0]) {
        ProfaneWordIsLong(words[0]);
      }
      CensorWordsShorter(words[1..]);
      assert CensorWords(words)[1..] == CensorWords(words[1..]);
    }
  }

  lemma CensoredNoLonger(s: string)
    ensures |Censored(s)| <= |s|
  {
    var ws := Split(s);
    JoinLength(ws);
    JoinLength(CensorWords(ws));
    CensorWordsShorter(ws);
    JoinSplit(s);
  }

  /** Every listed word is spelled in ASCII lower-case letters only. */
  lemma ProfanityIsLowerCase()
    ensures forall p, i :: p in Profanity && 0 <= i < |p| ==> IsLowerAscii(p[i])
  {
    assert Profanity == ["kerfuffle", "sharbert", "fornax"];
  }

  /**
   * Case is ignored when matching: a word is profane exactly when it spells
   * a listed word with each letter in lower or upper case (KELVIN SIGN
   * counting as a capital `k`, as Go's case tables have it).
   */
  lemma IsProfaneIff(word: string)
    ensures IsProfane(word) <==> exists p :: p in Profanity && CaseVariant(word, p)
  {
    ProfanityIsLowerCase();
    if IsProfane(word) {
      var p := ToLower(word);
      ToLowerIs(word, p);
      assert p in Profanity && CaseVariant(word, p);
    }
    forall p | p in Profanity && CaseVariant(word, p)
      ensures IsProfane(word)
    {
      ToLowerIs(word, p);
    }
  }

  /** Three sample capitalisations are profane, and an ordinary word is not. */
  lemma CaseInsensitiveExample()
    ensures IsProfane("Kerfuffle") && IsProfane("SHARBERT") && IsProfane("forNax")
    ensures !IsProfane("What")
  {
    assert ToLower("Kerfuffle") == "kerfuffle";
    assert ToLower("SHARBERT") == "sharbert";
    assert ToLower("forNax") == "fornax";
    assert ToLower("What") == "what";
  }

  /** The match is on the whole word: attached punctuation defeats it. */
  lemma PunctuationExample()
    ensures Censored("fornax!") == "fornax!"
  {
    SplitWord("fornax!");
    assert ToLower("fornax!") == "fornax!";
    assert !IsProfane("fornax!");
    assert CensorWords(["fornax!"]) == ["fornax!"];
  }
}
