/** The decision on the language of a document: adjust_lang of El/Dictionary/Morphology.cpp. */
module LangDecision {

  import opened LangCodes

  /** Words counted for a language; a hash map in the program. */
  type Rates = map<Lang, nat>

  /**
   * What the decision reads from the manager and from the language tables: the languages of ID_BASES without
   * its last entry, those of ALPHABETS with it, the languages with a dictionary, and two of the levels.
   */
  datatype Tables = Tables(
    idBases: seq<Lang>, alphabets: seq<Lang>, loaded: set<Lang>, level: nat, guessingLevel: nat)

  /** The word counts of a document. */
  datatype Words = Words(recognized: nat, unrecognized: nat, guessed: nat)

  function Total(w: Words): nat {
    w.recognized + w.guessed + w.unrecognized
  }

  function Unknown(w: Words): nat {
    w.guessed + w.unrecognized
  }

  /** LangDetection::popularity_index over the entries of ALPHABETS. */
  function Popularity(alphabets: seq<Lang>, l: Lang): (index: nat)
    ensures index < |alphabets| <==> l in alphabets
    ensures index < |alphabets| ==> alphabets[index] == l && l !in alphabets[..index]
    ensures l !in alphabets ==> index == |alphabets| + l.code
  {
    if alphabets == [] then l.code
    else if alphabets[0] == l then 0
    else 1 + Popularity(alphabets[1..], l)
  }

  datatype LangWeight = LangWeight(lang: Lang, weight: nat, index: nat, isDefault: bool)

  const NO_WEIGHT := LangWeight(NULL_LANG, 0, 0, false)

  /** The order of the weights: heavier first, then the default language, then the more popular. */
  predicate Before(a: LangWeight, b: LangWeight) {
    if a.weight != b.weight then a.weight > b.weight
    else if a.isDefault != b.isDefault then a.isDefault
    else a.index < b.index
  }

  function WeightOf(t: Tables, lang: Lang, rates: Rates, l: Lang): LangWeight
    requires l in rates
  {
    LangWeight(l, rates[l], Popularity(t.alphabets, l), l == lang)
  }

  /** The weights of the listed languages that have a rate, in the order of the list. */
  function Weights(t: Tables, lang: Lang, rates: Rates, bases: seq<Lang>): seq<LangWeight> {
    if bases == [] then []
    else
      var rest := Weights(t, lang, rates, bases[..|bases| - 1]);
      var l := bases[|bases| - 1];
      if l in rates then rest + [WeightOf(t, lang, rates, l)] else rest
  }

  /** The front of the sorted weights. */
  function Top(ws: seq<LangWeight>): (w: LangWeight)
    ensures ws != [] ==> w in ws
  {
    if ws == [] then NO_WEIGHT
    else if |ws| == 1 then ws[0]
    else
      var rest := Top(ws[1..]);
      if Before(rest, ws[0]) then rest else ws[0]
  }

  /** The rates of the recognized words, and of the language itself, with the guessed ones added. */
  function Merged(lang: Lang, rates: Rates, guessed: Rates): Rates {
    map l | l in rates.Keys + {lang} ::
      (if l in rates then rates[l] else 0) + (if l in guessed then guessed[l] else 0)
  }

  /** Guessed words may decide: the language has an alphabet, and some guess is for it or for a recognized language. */
  predicate GuessesFurther(t: Tables, lang: Lang, rates: Rates, guessed: Rates) {
    lang in t.alphabets && exists l :: l in rates.Keys + {lang} && l in guessed
  }

  predicate DefaultWins(t: Tables, lang: Lang, w: Words, rates: Rates, level: nat)
    requires Total(w) > 0
  {
    lang in t.idBases && lang in rates && rates[lang] * 100 / Total(w) >= level
  }

  /** The last two tests: the top language takes over. */
  predicate TopWins(t: Tables, w: Words, top: LangWeight, some: bool)
    requires Total(w) > 0
  {
    var share := if some then top.weight * 100 / Total(w) else 0;
    var unknownShare := if some then Unknown(w) * 100 / Total(w) else 0;
    share >= t.level || unknownShare < (if t.level < share then t.level else share)
  }

  /** The ways out before the guesses are looked at; each leaves the language as it is. */
  predicate LeavesEarly(t: Tables, lang: Lang, w: Words, rates: Rates, level: nat) {
    || Total(w) == 0
    || DefaultWins(t, lang, w, rates, level)
    || var ws := Weights(t, lang, rates, t.idBases);
       ws != [] && lang !in t.loaded && lang != NULL_LANG && Unknown(w) > Top(ws).weight
  }

  function Decide(t: Tables, lang: Lang, w: Words, rates: Rates, guessed: Rates, level: nat): Lang
    decreases guessed != map[]
  {
    if LeavesEarly(t, lang, w, rates, level) then lang
    else if guessed != map[] && GuessesFurther(t, lang, rates, guessed) then
      Decide(t, lang, Promoted(w), Merged(lang, rates, guessed), map[], t.guessingLevel)
    else
      var ws := Weights(t, lang, rates, t.idBases);
      if TopWins(t, w, Top(ws), ws != []) then Top(ws).lang else lang
  }

  /** Guessed words count as recognized the second time. */
  function Promoted(w: Words): Words {
    Words(w.recognized + w.guessed, w.unrecognized, 0)
  }

  // --- The method ---------------------------------------------------------------------------

  /** The sort, of whose result only the front is used. */
  method SortedFront(ws: seq<LangWeight>) returns (w: LangWeight)
    requires ws != []
    ensures w == Top(ws)
  {
    w := ws[|ws| - 1];
    for i := |ws| - 1 downto 0
      invariant w == Top(ws[i..])
    {
      assert ws[i..][1..] == ws[i + 1..];
      if !Before(w, ws[i]) {
        w := ws[i];
      }
    }
    assert ws[0..] == ws;
  }

  /** The loop over a copy of the rates, in whatever order the hash map gives. */
  method AddGuesses(lang: Lang, rates: Rates, guessed: Rates) returns (further: Rates)
    ensures further ==
      if exists l :: l in rates.Keys + {lang} && l in guessed then Merged(lang, rates, guessed) else map[]
  {
    further := if lang in rates then rates else rates[lang := 0];
    ghost var start := further;
    var tryFurther := false;
    var todo := further.Keys;
    while |todo| > 0
      invariant todo <= further.Keys == rates.Keys + {lang}
      invariant forall l :: l in further ==>
        further[l] == if l in todo then start[l] else start[l] + (if l in guessed then guessed[l] else 0)
      invariant tryFurther <==> exists l :: l in further.Keys - todo && l in guessed
      decreases todo
    {
      var l :| l in todo;
      if l in guessed {
        further := further[l := further[l] + guessed[l]];
        tryFurther := true;
      }
      ghost var before := further.Keys - todo;
      todo := todo - {l};
      assert further.Keys - todo == before + {l};
    }
    assert further.Keys - todo == rates.Keys + {lang};
    if !tryFurther {
      further := map[];
    }
  }

  /** The loop over ID_BASES, which may end the decision. */
  method CollectWeights(t: Tables, lang: Lang, w: Words, rates: Rates, level: nat)
    returns (wins: bool, weights: seq<LangWeight>)
    requires Total(w) > 0
    ensures wins <==> DefaultWins(t, lang, w, rates, level)
    ensures !wins ==> weights == Weights(t, lang, rates, t.idBases)
  {
    weights := [];
    for i := 0 to |t.idBases|
      invariant weights == Weights(t, lang, rates, t.idBases[..i])
      invariant lang in t.idBases[..i] && lang in rates ==> rates[lang] * 100 / Total(w) < level
    {
      assert t.idBases[..i + 1][..i] == t.idBases[..i];
      var curr := t.idBases[i];
      if curr in rates {
        var prc := rates[curr] * 100 / Total(w);
        if lang == curr && prc >= level {
          return true, weights;
        }
        weights := weights + [WeightOf(t, lang, rates, curr)];
      }
    }
    assert t.idBases[..|t.idBases|] == t.idBases;
    wins := false;
  }

  /** The guesses for the second round; no rates if there is none. */
  method RatesToTry(t: Tables, lang: Lang, rates: Rates, guessed: Rates) returns (further: Rates)
    ensures further != map[] <==> guessed != map[] && GuessesFurther(t, lang, rates, guessed)
    ensures further != map[] ==> further == Merged(lang, rates, guessed)
  {
    further := map[];
    if lang in t.alphabets && guessed != map[] {
      further := AddGuesses(lang, rates, guessed);
      assert lang in Merged(lang, rates, guessed);
    }
  }

  method AdjustLang(t: Tables, lang: Lang, w: Words, rates: Rates, guessed: Rates, level: nat) returns (r: Lang)
    ensures r == Decide(t, lang, w, rates, guessed, level)
    decreases guessed != map[]
  {
    var total := w.recognized + w.guessed + w.unrecognized;
    if total == 0 {
      return lang;
    }
    var unknown := w.guessed + w.unrecognized;
    var wins, weights := CollectWeights(t, lang, w, rates, level);
    hide DefaultWins, Weights, Top, GuessesFurther, Merged;
    if wins {
      return lang;
    }
    var unrecognizedPrc, maxWeightPrc, maxWeight := 0, 0, NO_WEIGHT;
    if weights != [] {
      maxWeight := SortedFront(weights);
      if lang !in t.loaded && lang != NULL_LANG && unknown > maxWeight.weight {
        return lang;
      }
      maxWeightPrc := maxWeight.weight * 100 / total;
      unrecognizedPrc := unknown * 100 / total;
    }
    var further := RatesToTry(t, lang, rates, guessed);
    if further != map[] {
      r := AdjustLang(t, lang, Words(w.recognized + w.guessed, w.unrecognized, 0), further, map[], t.guessingLevel);
    } else if maxWeightPrc >= t.level {
      r := maxWeight.lang;
    } else if unrecognizedPrc < (if t.level < maxWeightPrc then t.level else maxWeightPrc) {
      r := maxWeight.lang;
    } else {
      r := lang;
    }
  }

  // --- What is decided ----------------------------------------------------------------------

  lemma PopularityTellsApart(alphabets: seq<Lang>, a: Lang, b: Lang)
    requires Popularity(alphabets, a) == Popularity(alphabets, b)
    ensures a == b
  {
  }

  lemma {:induction false} WeightsListed(t: Tables, lang: Lang, rates: Rates, bases: seq<Lang>, w: LangWeight)
    ensures w in Weights(t, lang, rates, bases)
       <==> w.lang in bases && w.lang in rates && w == WeightOf(t, lang, rates, w.lang)
  {
    if bases != [] {
      WeightsListed(t, lang, rates, bases[..|bases| - 1], w);
      assert bases == bases[..|bases| - 1] + [bases[|bases| - 1]];
    }
  }

  /** A weight that comes before all the others. */
  ghost predicate ComesFirst(ws: seq<LangWeight>, w: LangWeight) {
    w in ws && forall v :: v in ws && v != w ==> Before(w, v)
  }

  ghost predicate Comparable(ws: seq<LangWeight>) {
    forall v, w :: v in ws && w in ws && v != w ==> Before(v, w) || Before(w, v)
  }

  lemma {:induction false} TopComesFirst(ws: seq<LangWeight>)
    requires ws != [] && Comparable(ws)
    ensures ComesFirst(ws, Top(ws))
  {
    if |ws| > 1 {
      TopComesFirst(ws[1..]);
      assert ws == [ws[0]] + ws[1..];
      var rest := Top(ws[1..]);
      forall v | v in ws && v != Top(ws)
        ensures Before(Top(ws), v)
      {
        assert v == ws[0] || v == rest || (v in ws[1..] && Before(rest, v));
      }
    }
  }

  lemma WeightsComparable(t: Tables, lang: Lang, rates: Rates)
    ensures Comparable(Weights(t, lang, rates, t.idBases))
  {
    var ws := Weights(t, lang, rates, t.idBases);
    forall v, w | v in ws && w in ws && v != w
      ensures Before(v, w) || Before(w, v)
    {
      WeightsListed(t, lang, rates, t.idBases, v);
      WeightsListed(t, lang, rates, t.idBases, w);
      if v.index == w.index {
        PopularityTellsApart(t.alphabets, v.lang, w.lang);
        assert false;
      }
    }
  }

  /** l stands in the table before m, or neither stands there and its number is smaller. */
  ghost predicate Earlier(alphabets: seq<Lang>, l: Lang, m: Lang) {
    if l in alphabets then exists i :: 0 <= i < |alphabets| && alphabets[i] == l && m !in alphabets[..i]
    else m !in alphabets && l.code < m.code
  }

  /**
   * The unique winner among the listed languages that have a rate: none has a larger one, and of those with the
   * same rate it is the given language, or else the one that stands first in the table.
   */
  ghost predicate Winner(t: Tables, lang: Lang, rates: Rates, l: Lang) {
    && l in t.idBases && l in rates
    && (forall m :: m in t.idBases && m in rates ==> rates[m] <= rates[l])
    && forall m :: m in t.idBases && m in rates && rates[m] == rates[l] && m != l ==>
         m != lang && (l == lang || Earlier(t.alphabets, l, m))
  }

  lemma EarlierMeans(alphabets: seq<Lang>, l: Lang, m: Lang)
    requires l != m
    ensures Earlier(alphabets, l, m) <==> Popularity(alphabets, l) < Popularity(alphabets, m)
  {
    var i := Popularity(alphabets, l);
    if l in alphabets && i < Popularity(alphabets, m) {
      assert alphabets[i] == l && m !in alphabets[..i];
    }
  }

  lemma BeforeMeans(t: Tables, lang: Lang, rates: Rates, l: Lang, m: Lang)
    requires l in rates && m in rates && l != m
    ensures Before(WeightOf(t, lang, rates, l), WeightOf(t, lang, rates, m)) <==>
      || rates[l] > rates[m]
      || (rates[l] == rates[m] && m != lang && (l == lang || Earlier(t.alphabets, l, m)))
  {
    EarlierMeans(t.alphabets, l, m);
    hide Earlier, Popularity;
  }

  lemma TopIsWinner(t: Tables, lang: Lang, rates: Rates)
    ensures Weights(t, lang, rates, t.idBases) == [] <==> forall l :: l in t.idBases ==> l !in rates
    ensures var ws := Weights(t, lang, rates, t.idBases);
      ws != [] ==> Winner(t, lang, rates, Top(ws).lang) && Top(ws) == WeightOf(t, lang, rates, Top(ws).lang)
  {
    var ws := Weights(t, lang, rates, t.idBases);
    if l :| l in t.idBases && l in rates {
      WeightsListed(t, lang, rates, t.idBases, WeightOf(t, lang, rates, l));
    }
    if ws != [] {
      WeightsComparable(t, lang, rates);
      TopComesFirst(ws);
      var top := Top(ws);
      WeightsListed(t, lang, rates, t.idBases, top);
      hide Earlier;
      forall m | m in t.idBases && m in rates && m != top.lang
        ensures rates[m] <= rates[top.lang]
        ensures rates[m] == rates[top.lang] ==> m != lang && (top.lang == lang || Earlier(t.alphabets, top.lang, m))
      {
        WeightsListed(t, lang, rates, t.idBases, WeightOf(t, lang, rates, m));
        BeforeMeans(t, lang, rates, top.lang, m);
      }
    }
  }

  lemma WinnerUnique(t: Tables, lang: Lang, rates: Rates, l: Lang, m: Lang)
    requires Winner(t, lang, rates, l) && Winner(t, lang, rates, m)
    ensures l == m
  {
    if l != m {
      EarlierMeans(t.alphabets, l, m);
      EarlierMeans(t.alphabets, m, l);
    }
    hide Earlier;
  }

  /** The guesses are looked at: there is a second round. */
  predicate GoesFurther(t: Tables, lang: Lang, w: Words, rates: Rates, guessed: Rates, level: nat) {
    !LeavesEarly(t, lang, w, rates, level) && guessed != map[] && GuessesFurther(t, lang, rates, guessed)
  }

  /** The second round is the last one, and it distributes the same number of words. */
  lemma RecursionEnds(t: Tables, lang: Lang, w: Words, rates: Rates, guessed: Rates, level: nat)
    requires GoesFurther(t, lang, w, rates, guessed, level)
    ensures !GoesFurther(t, lang, Promoted(w), Merged(lang, rates, guessed), map[], t.guessingLevel)
    ensures Total(Promoted(w)) == Total(w)
    ensures Decide(t, lang, w, rates, guessed, level)
         == Decide(t, lang, Promoted(w), Merged(lang, rates, guessed), map[], t.guessingLevel)
  {
  }

  /** Some listed language has a rate. */
  predicate Rated(t: Tables, rates: Rates) {
    exists l :: l in t.idBases && l in rates
  }

  /** What happens before the guesses are looked at: too few known words, or enough of the given language. */
  lemma LeavesEarlyWhen(t: Tables, lang: Lang, w: Words, rates: Rates, level: nat)
    ensures var total, unknown := w.recognized + w.guessed + w.unrecognized, w.guessed + w.unrecognized;
      LeavesEarly(t, lang, w, rates, level) <==>
        || total == 0
        || (lang in t.idBases && lang in rates && level <= rates[lang] * 100 / total)
        || (lang != NULL_LANG && lang !in t.loaded && Rated(t, rates) &&
             forall l :: l in t.idBases && l in rates ==> rates[l] < unknown)
  {
    TopIsWinner(t, lang, rates);
    hide Earlier;
    var ws := Weights(t, lang, rates, t.idBases);
    if ws != [] {
      assert Top(ws).weight == rates[Top(ws).lang];
    }
  }

  /** The share of so many words reaches the level, or is larger than that of the unknown ones. */
  predicate Convinces(level: nat, words: nat, unknown: nat, total: nat)
    requires total > 0
  {
    level <= words * 100 / total || unknown * 100 / total < words * 100 / total
  }

  lemma TopConvinces(t: Tables, w: Words, top: LangWeight)
    requires Total(w) > 0
    ensures TopWins(t, w, top, true) <==>
      Convinces(t.level, top.weight, w.guessed + w.unrecognized, w.recognized + w.guessed + w.unrecognized)
  {
  }

  /**
   * The last round.  The language stays if the round ends early.  With no rate for any listed language it stays
   * too, or with level zero the null language is named.  Else the unique winner takes over if it convinces.
   */
  lemma LastRound(t: Tables, lang: Lang, w: Words, rates: Rates, guessed: Rates, level: nat)
    requires !GoesFurther(t, lang, w, rates, guessed, level)
    ensures var r := Decide(t, lang, w, rates, guessed, level);
      var total, unknown := w.recognized + w.guessed + w.unrecognized, w.guessed + w.unrecognized;
      if LeavesEarly(t, lang, w, rates, level) then r == lang
      else if !Rated(t, rates) then r == if t.level == 0 then NULL_LANG else lang
      else
        total > 0 &&
        exists l :: Winner(t, lang, rates, l) && r == if Convinces(t.level, rates[l], unknown, total) then l else lang
  {
    TopIsWinner(t, lang, rates);
    var ws := Weights(t, lang, rates, t.idBases);
    if !LeavesEarly(t, lang, w, rates, level) && ws != [] {
      TopConvinces(t, w, Top(ws));
      assert Winner(t, lang, rates, Top(ws).lang);
    }
    hide Winner, Convinces, Weights, Top;
  }

  /** The rates of the second round: of the recognized languages and the given one, with their guesses. */
  ghost predicate WithGuesses(further: Rates, lang: Lang, rates: Rates, guessed: Rates) {
    && (forall l :: l in further <==> l in rates || l == lang)
    && forall l :: l in further ==>
         further[l] == (if l in rates then rates[l] else 0) + if l in guessed then guessed[l] else 0
  }

  /**
   * There is a second round exactly if the first does not end early, the given language has an alphabet, and some
   * guess is for it or for a recognized language; then the guessed words count as recognized.
   */
  lemma SecondRound(t: Tables, lang: Lang, w: Words, rates: Rates, guessed: Rates, level: nat)
    ensures GoesFurther(t, lang, w, rates, guessed, level) <==>
      && !LeavesEarly(t, lang, w, rates, level) && lang in t.alphabets
      && exists l :: l in guessed && (l in rates || l == lang)
    ensures GoesFurther(t, lang, w, rates, guessed, level) ==>
      forall further: Rates :: WithGuesses(further, lang, rates, guessed) ==>
        Decide(t, lang, w, rates, guessed, level) ==
        Decide(t, lang, Words(w.recognized + w.guessed, w.unrecognized, 0), further, map[], t.guessingLevel)
  {
    forall further: Rates | WithGuesses(further, lang, rates, guessed)
      ensures further == Merged(lang, rates, guessed)
    {
    }
    if l :| l in guessed && (l in rates || l == lang) {
      assert l in rates.Keys + {lang} && guessed != map[];
    }
  }

  /**
   * With a positive validation level a changed language is the unique winner of the last round, which has as many
   * words, and it convinces.
   */
  lemma OnlyWinnersTakeOver(t: Tables, lang: Lang, w: Words, rates: Rates, guessed: Rates, level: nat)
    requires t.level > 0
    ensures var r := Decide(t, lang, w, rates, guessed, level);
      var further := GoesFurther(t, lang, w, rates, guessed, level);
      var lastRates := if further then Merged(lang, rates, guessed) else rates;
      var total := w.recognized + w.guessed + w.unrecognized;
      var unknown := if further then w.unrecognized else w.guessed + w.unrecognized;
      r != lang ==> total > 0 && Winner(t, lang, lastRates, r) && Convinces(t.level, lastRates[r], unknown, total)
  {
    hide Winner, Convinces;
    if GoesFurther(t, lang, w, rates, guessed, level) {
      RecursionEnds(t, lang, w, rates, guessed, level);
      LastRound(t, lang, Promoted(w), Merged(lang, rates, guessed), map[], t.guessingLevel);
    } else {
      LastRound(t, lang, w, rates, guessed, level);
    }
  }

  /**
   * A language is replaced by none at all exactly if the validation level is zero, the last round does not end
   * early, and no listed language has a rate in it; this happens, for example, to one word that nobody knows.
   */
  lemma LevelZeroForgetsLanguage(t: Tables, lang: Lang, w: Words, rates: Rates, guessed: Rates, level: nat)
    requires lang != NULL_LANG && NULL_LANG !in t.idBases
    ensures var further := GoesFurther(t, lang, w, rates, guessed, level);
      var lastWords := if further then Promoted(w) else w;
      var lastRates := if further then Merged(lang, rates, guessed) else rates;
      var lastLevel := if further then t.guessingLevel else level;
      Decide(t, lang, w, rates, guessed, level) == NULL_LANG <==>
        t.level == 0 && !LeavesEarly(t, lang, lastWords, lastRates, lastLevel) && !Rated(t, lastRates)
    ensures t.level == 0 && w == Words(0, 1, 0) && rates == guessed == map[] ==>
      Decide(t, lang, w, rates, guessed, level) == NULL_LANG
  {
    if GoesFurther(t, lang, w, rates, guessed, level) {
      RecursionEnds(t, lang, w, rates, guessed, level);
      LastRound(t, lang, Promoted(w), Merged(lang, rates, guessed), map[], t.guessingLevel);
    } else {
      LastRound(t, lang, w, rates, guessed, level);
      TopIsWinner(t, lang, rates);
    }
  }

  /** The order in which the dictionaries are listed does not matter. */
  lemma OrderDoesNotMatter(t: Tables, bases: seq<Lang>, lang: Lang, w: Words, rates: Rates, guessed: Rates, level: nat)
    requires forall l :: l in bases <==> l in t.idBases
    ensures Decide(t.(idBases := bases), lang, w, rates, guessed, level) == Decide(t, lang, w, rates, guessed, level)
    decreases guessed != map[]
  {
    var t' := t.(idBases := bases);
    TopIsWinner(t, lang, rates);
    TopIsWinner(t', lang, rates);
    var ws, ws' := Weights(t, lang, rates, t.idBases), Weights(t', lang, rates, bases);
    if ws != [] {
      assert Winner(t, lang, rates, Top(ws').lang);
      WinnerUnique(t, lang, rates, Top(ws).lang, Top(ws').lang);
    }
    assert Top(ws) == Top(ws') && (ws == [] <==> ws' == []);
    if GoesFurther(t, lang, w, rates, guessed, level) {
      OrderDoesNotMatter(t, bases, lang, Promoted(w), Merged(lang, rates, guessed), map[], t.guessingLevel);
    }
  }
}
