/**
 * `BannedWordChecker`: a dictionary from lower-cased banned word to the word
 * as configured, and a case-insensitive search of a message for any key.  The
 * Aho-Corasick automaton that performs the search is modelled by what it
 * finds: every dictionary key occurring in the lower-cased message.
 */
module BannedWords {
  import opened Wrappers
  import opened Text

  /** The keys the constructor puts in the dictionary: every non-null, non-blank word, lower-cased. */
  function DictKeys(words: set<Option<string>>): set<string> {
    set w | w in words && w.Some? && !IsBlank(w.value) :: Lower(w.value)
  }

  lemma DictKeysAdd(done: set<Option<string>>, word: Option<string>)
    ensures DictKeys(done + {word}) ==
      DictKeys(done) + (if word.Some? && !IsBlank(word.value) then {Lower(word.value)} else {})
  {
  }

  /** The dictionary after the constructor's loop meets one more word: the word is skipped, or added under its lower-cased form. */
  function Entered(d: map<string, string>, word: Option<string>): map<string, string> {
    if word.None? || IsBlank(word.value) then d else d[Lower(word.value) := word.value]
  }

  /** One turn of the constructor's loop keeps its invariant. */
  lemma DictStep(bannedWords: set<Option<string>>, rest: set<Option<string>>, d: map<string, string>, word: Option<string>)
    requires rest <= bannedWords && word in rest
    requires d.Keys == DictKeys(bannedWords - rest)
    requires forall k :: k in d ==> Lower(d[k]) == k && Some(d[k]) in bannedWords
    ensures Entered(d, word).Keys == DictKeys(bannedWords - (rest - {word}))
    ensures forall k :: k in Entered(d, word) ==> Lower(Entered(d, word)[k]) == k && Some(Entered(d, word)[k]) in bannedWords
  {
    DictKeysAdd(bannedWords - rest, word);
    assert bannedWords - (rest - {word}) == (bannedWords - rest) + {word};
    if word.Some? && !IsBlank(word.value) {
      var e := d[Lower(word.value) := word.value];
      assert e.Keys == d.Keys + {Lower(word.value)};
      forall k | k in e
        ensures Lower(e[k]) == k && Some(e[k]) in bannedWords
      {
        if k != Lower(word.value) {
          assert e[k] == d[k];
        }
      }
    }
  }

  class BannedWordChecker {
    /** The dictionary the automaton is built from. */
    const dict: map<string, string>

    /**
     * The constructor past its null-or-empty guard.  When two words share a
     * lower-cased form the one the set's iteration meets last is kept, so the
     * value is only known to be one of them.
     */
    constructor (bannedWords: set<Option<string>>)
      ensures dict.Keys == DictKeys(bannedWords)
      ensures forall k :: k in dict ==> Lower(dict[k]) == k && Some(dict[k]) in bannedWords
    {
      var d: map<string, string> := map[];
      var rest := bannedWords;
      while rest != {}
        invariant rest <= bannedWords
        invariant d.Keys == DictKeys(bannedWords - rest)
        invariant forall k :: k in d ==> Lower(d[k]) == k && Some(d[k]) in bannedWords
        decreases |rest|
      {
        var word :| word in rest;
        DictStep(bannedWords, rest, d, word);
        rest := rest - {word};
        if word.None? || IsBlank(word.value) {
          continue;
        }
        d := Entered(d, word);
      }
      dict := d;
    }

    /** `containsBannedWord`: false for a null or blank message, else whether a key occurs in its lower-cased text. */
    predicate ContainsBannedWord(message: Option<string>) {
      && message.Some? && !IsBlank(message.value)
      && exists k :: k in dict && Contains(Lower(message.value), k)
    }
  }

  /**
   * Construction; a null or empty set is refused (`IllegalArgumentException`),
   * which is the `None` result.
   */
  method NewBannedWordChecker(bannedWords: Option<set<Option<string>>>) returns (r: Option<BannedWordChecker>)
    ensures r.None? <==> bannedWords.None? || bannedWords.value == {}
    ensures r.Some? ==>
      && fresh(r.value)
      && r.value.dict.Keys == DictKeys(bannedWords.value)
      && forall k :: k in r.value.dict ==> Lower(r.value.dict[k]) == k && Some(r.value.dict[k]) in bannedWords.value
  {
    if bannedWords.None? || bannedWords.value == {} {
      return None;
    }
    var checker := new BannedWordChecker(bannedWords.value);
    return Some(checker);
  }

  /** Lower-casing keeps a string blank or non-blank. */
  lemma LowerKeepsBlank(s: string)
    ensures IsBlank(Lower(s)) <==> IsBlank(s)
  {
    assert forall i :: 0 <= i < |s| ==> (IsWhitespace(Lower(s)[i]) <==> IsWhitespace(s[i]));
  }

  /** A word of ideographic spaces is blank and enters no key, while a no-break space is a character like any other. */
  lemma UnicodeBlankWordSkipped()
    ensures DictKeys({Some("\U{3000}\U{3000}")}) == {}
    ensures DictKeys({Some("\U{A0}")}) == {Lower("\U{A0}")}
  {
    assert IsBlank("\U{3000}\U{3000}");
    assert !IsWhitespace("\U{A0}"[0]);
  }

  /** A string containing a non-blank one is not blank. */
  lemma ContainsNonBlank(haystack: string, needle: string)
    requires Contains(haystack, needle) && !IsBlank(needle)
    ensures !IsBlank(haystack)
  {
    ContainsIffOccurs(haystack, needle);
    var i :| OccursAt(haystack, needle, i);
    var j :| 0 <= j < |needle| && !IsWhitespace(needle[j]);
    assert haystack[i..i + |needle|][j] == haystack[i + j];
  }

  /**
   * A message is flagged exactly when, ignoring case, it contains one of the
   * configured non-blank words.
   */
  lemma {:induction false} FlaggedIffContainsWord(checker: BannedWordChecker, words: set<Option<string>>, message: string)
    requires checker.dict.Keys == DictKeys(words)
    ensures checker.ContainsBannedWord(Some(message)) <==>
      exists w :: Some(w) in words && !IsBlank(w) && Contains(Lower(message), Lower(w))
  {
    if exists w :: Some(w) in words && !IsBlank(w) && Contains(Lower(message), Lower(w)) {
      var w :| Some(w) in words && !IsBlank(w) && Contains(Lower(message), Lower(w));
      assert Lower(w) in DictKeys(words) by {
        assert Some(w) in words && Some(w).Some? && !IsBlank(Some(w).value);
      }
      LowerKeepsBlank(w);
      LowerKeepsBlank(message);
      ContainsNonBlank(Lower(message), Lower(w));
    }
    if checker.ContainsBannedWord(Some(message)) {
      var k :| k in checker.dict && Contains(Lower(message), k);
      var o :| o in words && o.Some? && !IsBlank(o.value) && Lower(o.value) == k;
      assert Some(o.value) in words;
    }
  }

  /** The check does not depend on the message's case. */
  lemma {:induction false} CaseInsensitive(checker: BannedWordChecker, message: string)
    ensures checker.ContainsBannedWord(Some(Lower(message))) == checker.ContainsBannedWord(Some(message))
  {
    LowerIdempotent(message);
    LowerKeepsBlank(message);
  }
}
