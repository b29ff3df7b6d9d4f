/** Alphabet detection by counting over an inverted index, from El/Dictionary/LangDetection.cpp. */
module LangDetection {

  import opened LangCodes

  type Char = int

  datatype CharSubset = CharSubset(from: Char, to: Char)

  /** The entries before the terminating ones. */
  datatype Alphabet = Alphabet(lang: Lang, charset: seq<CharSubset>)

  type Index = map<Char, seq<Lang>>

  // --- The inverted index -------------------------------------------------------------------

  /** Among the first n alphabets one of language l has the character. */
  ghost predicate Writes(alphabets: seq<Alphabet>, n: nat, l: Lang, c: Char)
    requires n <= |alphabets|
  {
    exists a :: 0 <= a < n && alphabets[a].lang == l && InCharset(alphabets[a].charset, |alphabets[a].charset|, c)
  }

  /** One of the first n ranges has the character. */
  ghost predicate InCharset(charset: seq<CharSubset>, n: nat, c: Char)
    requires n <= |charset|
  {
    exists r :: 0 <= r < n && charset[r].from <= c <= charset[r].to
  }

  ghost predicate NoDuplicates(langs: seq<Lang>) {
    forall i, j :: 0 <= i < j < |langs| ==> langs[i] != langs[j]
  }

  /** How far the construction has come: range r of alphabet a, before character chr. */
  datatype Progress = Progress(a: nat, r: nat, chr: Char)

  ghost predicate Started(alphabets: seq<Alphabet>, p: Progress) {
    p.a < |alphabets| && p.r < |alphabets[p.a].charset|
  }

  /** The pairs the construction has seen so far. */
  ghost predicate Listed(alphabets: seq<Alphabet>, p: Progress, l: Lang, c: Char)
    requires p.a < |alphabets| && p.r <= |alphabets[p.a].charset|
  {
    || Writes(alphabets, p.a, l, c)
    || (l == alphabets[p.a].lang && InCharset(alphabets[p.a].charset, p.r, c))
    || (Started(alphabets, p) && l == alphabets[p.a].lang && alphabets[p.a].charset[p.r].from <= c < p.chr)
  }

  ghost predicate WellFormed(index: Index) {
    forall c :: c in index ==> index[c] != [] && NoDuplicates(index[c])
  }

  ghost predicate Lists(index: Index, l: Lang, c: Char) {
    c in index && l in index[c]
  }

  /** The index lists each language once for a character, and exactly the languages that have it. */
  ghost predicate Indexes(index: Index, alphabets: seq<Alphabet>) {
    WellFormed(index) && forall l, c :: Lists(index, l, c) <==> Writes(alphabets, |alphabets|, l, c)
  }

  ghost predicate IndexesTo(index: Index, alphabets: seq<Alphabet>, p: Progress)
    requires p.a < |alphabets| && p.r <= |alphabets[p.a].charset|
  {
    WellFormed(index) && forall l, c :: Lists(index, l, c) <==> Listed(alphabets, p, l, c)
  }

  /** The innermost loop: look for the language, and append it if it is not there. */
  method AddLanguage(langs: seq<Lang>, lang: Lang) returns (langs': seq<Lang>)
    requires NoDuplicates(langs)
    ensures NoDuplicates(langs') && langs' != []
    ensures forall l :: l in langs' <==> l in langs || l == lang
  {
    var i := 0;
    while i < |langs| && langs[i] != lang
      invariant 0 <= i <= |langs|
      invariant forall k :: 0 <= k < i ==> langs[k] != lang
    {
      i := i + 1;
    }
    langs' := if i == |langs| then langs + [lang] else langs;
  }

  lemma CharacterDone(index: Index, alphabets: seq<Alphabet>, p: Progress, langs: seq<Lang>)
    requires Started(alphabets, p) && IndexesTo(index, alphabets, p)
    requires alphabets[p.a].charset[p.r].from <= p.chr && NoDuplicates(langs) && langs != []
    requires forall l :: l in langs <==> Lists(index, l, p.chr) || l == alphabets[p.a].lang
    ensures IndexesTo(index[p.chr := langs], alphabets, p.(chr := p.chr + 1))
  {
    var index', p' := index[p.chr := langs], p.(chr := p.chr + 1);
    forall l, c ensures Lists(index', l, c) <==> Listed(alphabets, p', l, c) {
      assert Lists(index, l, c) <==> Listed(alphabets, p, l, c);
    }
  }

  lemma RangeDone(index: Index, alphabets: seq<Alphabet>, p: Progress, next: Char)
    requires Started(alphabets, p) && IndexesTo(index, alphabets, p)
    requires var range := alphabets[p.a].charset[p.r];
      p.chr == if range.from <= range.to then range.to + 1 else range.from
    requires p.r + 1 < |alphabets[p.a].charset| ==> next == alphabets[p.a].charset[p.r + 1].from
    ensures IndexesTo(index, alphabets, Progress(p.a, p.r + 1, next))
  {
    var p', charset := Progress(p.a, p.r + 1, next), alphabets[p.a].charset;
    forall l, c ensures Lists(index, l, c) <==> Listed(alphabets, p', l, c) {
      assert Lists(index, l, c) <==> Listed(alphabets, p, l, c);
      assert InCharset(charset, p.r + 1, c) <==>
        InCharset(charset, p.r, c) || charset[p.r].from <= c <= charset[p.r].to;
    }
  }

  lemma AlphabetDone(index: Index, alphabets: seq<Alphabet>, a: nat, chr: Char)
    requires a < |alphabets| && IndexesTo(index, alphabets, Progress(a, |alphabets[a].charset|, chr))
    ensures WellFormed(index) && forall l, c :: Lists(index, l, c) <==> Writes(alphabets, a + 1, l, c)
  {
    var p := Progress(a, |alphabets[a].charset|, chr);
    forall l, c ensures Lists(index, l, c) <==> Writes(alphabets, a + 1, l, c) {
      assert Lists(index, l, c) <==> Listed(alphabets, p, l, c);
    }
  }

  lemma AlphabetStarts(index: Index, alphabets: seq<Alphabet>, a: nat, chr: Char)
    requires a < |alphabets|
    requires WellFormed(index) && forall l, c :: Lists(index, l, c) <==> Writes(alphabets, a, l, c)
    requires alphabets[a].charset != [] ==> chr == alphabets[a].charset[0].from
    ensures IndexesTo(index, alphabets, Progress(a, 0, chr))
  {
    var p := Progress(a, 0, chr);
    forall l, c ensures Lists(index, l, c) <==> Listed(alphabets, p, l, c) {}
  }

  function StartOf(charset: seq<CharSubset>, r: nat): Char {
    if r < |charset| then charset[r].from else 0
  }

  /** The constructor of the index. */
  method BuildIndex(alphabets: seq<Alphabet>) returns (index: Index)
    ensures Indexes(index, alphabets)
  {
    index := map[];
    for a := 0 to |alphabets|
      invariant WellFormed(index) && forall l, c :: Lists(index, l, c) <==> Writes(alphabets, a, l, c)
    {
      var lang, charset := alphabets[a].lang, alphabets[a].charset;
      AlphabetStarts(index, alphabets, a, StartOf(charset, 0));
      for r := 0 to |charset|
        invariant IndexesTo(index, alphabets, Progress(a, r, StartOf(charset, r)))
      {
        var chr := charset[r].from;
        while chr <= charset[r].to
          invariant chr == charset[r].from || charset[r].from <= chr <= charset[r].to + 1
          invariant IndexesTo(index, alphabets, Progress(a, r, chr))
          decreases charset[r].to - chr
        {
          var langs := AddLanguage(if chr in index then index[chr] else [], lang);
          CharacterDone(index, alphabets, Progress(a, r, chr), langs);
          index := index[chr := langs];
          chr := chr + 1;
        }
        RangeDone(index, alphabets, Progress(a, r, chr), StartOf(charset, r + 1));
      }
      AlphabetDone(index, alphabets, a, StartOf(charset, |charset|));
    }
  }

  // --- Counting -----------------------------------------------------------------------------

  /** The characters of the word that the index lists for l. */
  ghost function CountFor(index: Index, word: seq<Char>, l: Lang): nat {
    if word == [] then 0
    else CountFor(index, word[..|word| - 1], l) + (if Lists(index, l, word[|word| - 1]) then 1 else 0)
  }

  /** The characters of the word that the index knows. */
  ghost function MappedCount(index: Index, word: seq<Char>): nat {
    if word == [] then 0
    else MappedCount(index, word[..|word| - 1]) + (if word[|word| - 1] in index then 1 else 0)
  }

  /** Every character is known to the index or joins words, and some character is known. */
  ghost predicate Accepted(index: Index, word: seq<Char>, interword: Char -> bool) {
    && (forall i :: 0 <= i < |word| ==> word[i] in index || interword(word[i]))
    && exists i :: 0 <= i < |word| && word[i] in index
  }

  /** Every known character of the word is listed for l. */
  ghost predicate ListsAll(index: Index, word: seq<Char>, l: Lang) {
    forall i :: 0 <= i < |word| && word[i] in index ==> Lists(index, l, word[i])
  }

  /** A language is counted for every known character exactly when all of them are listed for it. */
  lemma {:induction false} CountingIsForAll(index: Index, word: seq<Char>, l: Lang)
    ensures CountFor(index, word, l) <= MappedCount(index, word)
    ensures CountFor(index, word, l) == MappedCount(index, word) <==> ListsAll(index, word, l)
  {
    if word != [] {
      var rest := word[..|word| - 1];
      CountingIsForAll(index, rest, l);
      assert ListsAll(index, word, l) <==>
        ListsAll(index, rest, l) && (word[|word| - 1] in index ==> Lists(index, l, word[|word| - 1])) by {
        assert forall i :: 0 <= i < |rest| ==> word[i] == rest[i];
      }
    }
  }

  lemma {:induction false} MappedPositive(index: Index, word: seq<Char>)
    ensures MappedCount(index, word) > 0 <==> exists i :: 0 <= i < |word| && word[i] in index
  {
    if word != [] {
      var rest := word[..|word| - 1];
      MappedPositive(index, rest);
      if i :| 0 <= i < |word| && word[i] in index && i < |rest| {
        assert rest[i] in index;
      }
      if MappedCount(index, rest) > 0 {
        var i :| 0 <= i < |rest| && rest[i] in index;
        assert word[i] in index;
      }
    }
  }

  /** The loop over the languages of one character. */
  method CountCharacter(counters: map<Lang, nat>, langs: seq<Lang>) returns (counters': map<Lang, nat>)
    requires NoDuplicates(langs) && forall l :: l in counters ==> counters[l] > 0
    ensures forall l :: l in counters' <==> l in counters || l in langs
    ensures forall l :: l in counters' ==>
      counters'[l] == (if l in counters then counters[l] else 0) + (if l in langs then 1 else 0)
  {
    counters' := counters;
    for i := 0 to |langs|
      invariant forall l :: l in counters' <==> l in counters || l in langs[..i]
      invariant forall l :: l in counters' ==>
        counters'[l] == (if l in counters then counters[l] else 0) + (if l in langs[..i] then 1 else 0)
    {
      var lang := langs[i];
      assert lang !in langs[..i];
      counters' := counters'[lang := if lang in counters' then counters'[lang] + 1 else 1];
    }
    assert langs[..|langs|] == langs;
  }

  /** The counters after the characters of the word. */
  ghost predicate CountersFor(counters: map<Lang, nat>, index: Index, word: seq<Char>) {
    && (forall l :: l in counters <==> CountFor(index, word, l) > 0)
    && (forall l :: l in counters ==> counters[l] == CountFor(index, word, l))
  }

  /** The last loop: erase the counters below the required number. */
  method EraseBelow(counters: map<Lang, nat>, required: nat) returns (counters': map<Lang, nat>)
    ensures forall l :: l in counters' <==> l in counters && counters[l] >= required
  {
    counters' := counters;
    var keys: set<Lang> := counters.Keys;
    while |keys| > 0
      invariant keys <= counters'.Keys
      invariant forall l :: l in counters' ==> l in counters && counters'[l] == counters[l]
      invariant forall l :: l in counters && l !in keys ==> (l in counters' <==> counters[l] >= required)
      decreases keys
    {
      var l :| l in keys;
      keys := keys - {l};
      if counters'[l] < required {
        counters' := counters' - {l};
      }
    }
  }

  lemma ListedOnce(index: Index, c: Char)
    requires WellFormed(index) && c in index
    ensures NoDuplicates(index[c]) && forall l :: l in index[c] <==> Lists(index, l, c)
  {
  }

  method LanguageCounters(index: Index, word: seq<Char>, interword: Char -> bool)
    returns (accepted: bool, counters: map<Lang, nat>)
    requires WellFormed(index)
    ensures accepted <==> Accepted(index, word, interword)
    ensures accepted ==> forall l :: l in counters <==> ListsAll(index, word, l)
  {
    counters := map[];
    if word == [] {
      return false, counters;
    }
    var interwordChars := 0;
    for i := 0 to |word|
      invariant forall k :: 0 <= k < i ==> word[k] in index || interword(word[k])
      invariant interwordChars + MappedCount(index, word[..i]) == i
      invariant CountersFor(counters, index, word[..i])
    {
      assert word[..i + 1][..i] == word[..i];
      if word[i] !in index {
        if !interword(word[i]) {
          return false, counters;
        }
        interwordChars := interwordChars + 1;
      } else {
        var langs := index[word[i]];
        ListedOnce(index, word[i]);
        counters := CountCharacter(counters, langs);
      }
    }
    assert word[..|word|] == word;
    var charsRequired := |word| - interwordChars;
    MappedPositive(index, word);
    if charsRequired == 0 {
      return false, counters;
    }
    counters := EraseBelow(counters, charsRequired);
    forall l ensures l in counters <==> ListsAll(index, word, l) {
      CountingIsForAll(index, word, l);
    }
    accepted := true;
  }

  /** The languages whose ranges have every known character of an accepted word; none for another word. */
  ghost predicate Speaks(alphabets: seq<Alphabet>, word: seq<Char>, interword: Char -> bool, l: Lang) {
    && AcceptedBy(alphabets, word, interword)
    && forall i :: 0 <= i < |word| && Known(alphabets, word[i]) ==> Writes(alphabets, |alphabets|, l, word[i])
  }

  ghost predicate Known(alphabets: seq<Alphabet>, c: Char) {
    exists l :: Writes(alphabets, |alphabets|, l, c)
  }

  ghost predicate AcceptedBy(alphabets: seq<Alphabet>, word: seq<Char>, interword: Char -> bool) {
    && (forall i :: 0 <= i < |word| ==> Known(alphabets, word[i]) || interword(word[i]))
    && exists i :: 0 <= i < |word| && Known(alphabets, word[i])
  }

  lemma KnownIsMapped(index: Index, alphabets: seq<Alphabet>, c: Char)
    requires Indexes(index, alphabets)
    ensures c in index <==> Known(alphabets, c)
  {
    if c in index {
      assert Lists(index, index[c][0], c);
    }
    if Known(alphabets, c) {
      var l :| Writes(alphabets, |alphabets|, l, c);
      assert Lists(index, l, c);
    }
  }

  lemma SpeaksIsListsAll(index: Index, alphabets: seq<Alphabet>, word: seq<Char>, interword: Char -> bool, l: Lang)
    requires Indexes(index, alphabets)
    ensures Accepted(index, word, interword) <==> AcceptedBy(alphabets, word, interword)
    ensures Accepted(index, word, interword) ==> (ListsAll(index, word, l) <==> Speaks(alphabets, word, interword, l))
  {
    forall i | 0 <= i < |word| ensures word[i] in index <==> Known(alphabets, word[i]) {
      KnownIsMapped(index, alphabets, word[i]);
    }
  }

  /** languages: the counting finds exactly the languages that can write the whole word. */
  method Languages(alphabets: seq<Alphabet>, index: Index, word: seq<Char>, interword: Char -> bool)
    returns (langs: set<Lang>)
    requires Indexes(index, alphabets)
    ensures forall l :: l in langs <==> Speaks(alphabets, word, interword, l)
  {
    var accepted, counters := LanguageCounters(index, word, interword);
    langs := if accepted then counters.Keys else {};
    forall l ensures l in langs <==> Speaks(alphabets, word, interword, l) {
      SpeaksIsListsAll(index, alphabets, word, interword, l);
    }
  }

  lemma SpeakerHasAlphabet(alphabets: seq<Alphabet>, word: seq<Char>, interword: Char -> bool, l: Lang)
    requires Speaks(alphabets, word, interword, l)
    ensures exists a :: 0 <= a < |alphabets| && alphabets[a].lang == l
  {
    var i :| 0 <= i < |word| && Known(alphabets, word[i]);
    assert Writes(alphabets, |alphabets|, l, word[i]);
  }

  /** l is the language of the first alphabet whose language is among langs. */
  ghost predicate MostPopular(alphabets: seq<Alphabet>, langs: set<Lang>, l: Lang) {
    exists a :: 0 <= a < |alphabets| && alphabets[a].lang == l && l in langs &&
      forall b :: 0 <= b < a ==> alphabets[b].lang !in langs
  }

  /** The choice among the counted languages. */
  method Choose(alphabets: seq<Alphabet>, counters: map<Lang, nat>, hint: Lang) returns (r: Lang)
    requires forall l :: l in counters ==> exists a :: 0 <= a < |alphabets| && alphabets[a].lang == l
    ensures counters.Keys == {} ==> r == NULL_LANG
    ensures counters.Keys != {} ==> r in counters
    ensures hint in counters && hint != NULL_LANG ==> r == hint
    ensures counters.Keys != {} && r != hint ==> MostPopular(alphabets, counters.Keys, r)
  {
    if |counters| == 1 {
      r :| r in counters;
      assert |counters.Keys - {r}| == 0;
      assert counters.Keys == {r};
      FirstOfOne(alphabets, r);
      return;
    }
    if hint != NULL_LANG && hint in counters {
      return hint;
    }
    if |counters| != 0 {
      var alphabet := 0;
      while alphabet < |alphabets| && alphabets[alphabet].lang !in counters
        invariant 0 <= alphabet <= |alphabets|
        invariant forall b :: 0 <= b < alphabet ==> alphabets[b].lang !in counters
      {
        alphabet := alphabet + 1;
      }
      if alphabet < |alphabets| {
        return alphabets[alphabet].lang;
      }
    }
    r := NULL_LANG;
  }

  lemma {:induction false} FirstOfOne(alphabets: seq<Alphabet>, l: Lang)
    requires exists a :: 0 <= a < |alphabets| && alphabets[a].lang == l
    ensures MostPopular(alphabets, {l}, l)
  {
    var a :| 0 <= a < |alphabets| && alphabets[a].lang == l;
    while exists b :: 0 <= b < a && alphabets[b].lang == l
      invariant 0 <= a < |alphabets| && alphabets[a].lang == l
      decreases a
    {
      var b :| 0 <= b < a && alphabets[b].lang == l;
      a := b;
    }
  }

  /** l can write the word, and no alphabet before its own belongs to a language that can. */
  ghost predicate FirstSpeaker(alphabets: seq<Alphabet>, word: seq<Char>, interword: Char -> bool, l: Lang) {
    Speaks(alphabets, word, interword, l) &&
    exists a :: 0 <= a < |alphabets| && alphabets[a].lang == l &&
      forall b :: 0 <= b < a ==> !Speaks(alphabets, word, interword, alphabets[b].lang)
  }

  /**
   * language: the result can write the word whenever some language can.  It is the hint if the hint can,
   * and otherwise the language of the first alphabet, in order of popularity, that can.
   */
  method Language(alphabets: seq<Alphabet>, index: Index, word: seq<Char>, hint: Lang, interword: Char -> bool)
    returns (r: Lang)
    requires Indexes(index, alphabets)
    ensures forall l :: Speaks(alphabets, word, interword, l) ==> Speaks(alphabets, word, interword, r)
    ensures Speaks(alphabets, word, interword, r) || r == NULL_LANG
    ensures Speaks(alphabets, word, interword, hint) && hint != NULL_LANG ==> r == hint
    ensures Speaks(alphabets, word, interword, r) && r != hint ==> FirstSpeaker(alphabets, word, interword, r)
  {
    var accepted, counters := LanguageCounters(index, word, interword);
    ghost var langs := if accepted then counters.Keys else {};
    forall l ensures l in langs <==> Speaks(alphabets, word, interword, l) {
      SpeaksIsListsAll(index, alphabets, word, interword, l);
    }
    if !accepted {
      return NULL_LANG;
    }
    forall l | l in counters ensures exists a :: 0 <= a < |alphabets| && alphabets[a].lang == l {
      SpeakerHasAlphabet(alphabets, word, interword, l);
    }
    hide Speaks;
    r := Choose(alphabets, counters, hint);
  }
}
