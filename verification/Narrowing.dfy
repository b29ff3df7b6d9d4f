/** The narrowing of word infos by containment, from El/Dictionary/Morphology.cpp and Morphology.hpp. */
module Narrowing {

  datatype WordForm = WordForm(id: nat, lang: nat, isStopWord: bool)

  datatype WordInfo = WordInfo(lang: nat, forms: seq<WordForm>)

  ghost predicate HasId(forms: seq<WordForm>, id: nat) {
    exists j :: 0 <= j < |forms| && forms[j].id == id
  }

  /** a has forms, but fewer than b, and the id of each is among those of b. */
  ghost predicate Contained(a: WordInfo, b: WordInfo) {
    && a.forms != [] && |a.forms| < |b.forms|
    && forall i :: 0 <= i < |a.forms| ==> HasId(b.forms, a.forms[i].id)
  }

  method IsContained(a: WordInfo, b: WordInfo) returns (r: bool)
    ensures r <==> Contained(a, b)
  {
    if a.forms == [] || |a.forms| >= |b.forms| {
      return false;
    }
    for i := 0 to |a.forms|
      invariant forall k :: 0 <= k < i ==> HasId(b.forms, a.forms[k].id)
    {
      var j := 0;
      while j < |b.forms| && b.forms[j].id != a.forms[i].id
        invariant 0 <= j <= |b.forms|
        invariant forall k :: 0 <= k < j ==> b.forms[k].id != a.forms[i].id
      {
        j := j + 1;
      }
      if j == |b.forms| {
        assert !HasId(b.forms, a.forms[i].id);
        return false;
      }
    }
    r := true;
  }

  /** Every entry that contains entry i becomes entry i. */
  ghost function Pass(s: seq<WordInfo>, i: nat): (t: seq<WordInfo>)
    requires i < |s|
    ensures |t| == |s|
  {
    seq(|s|, j requires 0 <= j < |s| => if Contained(s[i], s[j]) then s[i] else s[j])
  }

  ghost function NarrowFrom(s: seq<WordInfo>, i: nat): (t: seq<WordInfo>)
    requires i <= |s|
    ensures |t| == |s|
    decreases |s| - i
  {
    if i == |s| then s else NarrowFrom(Pass(s, i), i + 1)
  }

  /** The double loop over the entries, in place. */
  method Narrow(a: array<WordInfo>)
    modifies a
    ensures a[..] == NarrowFrom(old(a[..]), 0)
  {
    for i := 0 to a.Length
      invariant NarrowFrom(old(a[..]), 0) == NarrowFrom(a[..], i)
    {
      ghost var s := a[..];
      var wi := a[i];
      for j := 0 to a.Length
        invariant forall k :: 0 <= k < j ==> a[k] == Pass(s, i)[k]
        invariant forall k :: j <= k < a.Length ==> a[k] == s[k]
        invariant a[i] == wi
      {
        var contained := IsContained(wi, a[j]);
        if contained {
          a[j] := wi;
        }
      }
      assert a[..] == Pass(s, i);
    }
  }

  // --- What one pass achieves ---------------------------------------------------------------

  lemma ContainedTransitive(a: WordInfo, b: WordInfo, c: WordInfo)
    ensures Contained(a, b) && Contained(b, c) ==> Contained(a, c)
  {
    if Contained(a, b) && Contained(b, c) {
      forall i | 0 <= i < |a.forms| ensures HasId(c.forms, a.forms[i].id) {
        var j :| 0 <= j < |b.forms| && b.forms[j].id == a.forms[i].id;
        assert HasId(c.forms, b.forms[j].id);
      }
    }
  }

  /** None of the first n entries is contained in any entry. */
  ghost predicate Settled(s: seq<WordInfo>, n: nat)
    requires n <= |s|
  {
    forall p, j :: 0 <= p < n && 0 <= j < |s| ==> !Contained(s[p], s[j])
  }

  /** Each entry of t is an entry of s, and is the old entry or contained in it. */
  ghost predicate Narrowed(s: seq<WordInfo>, t: seq<WordInfo>) {
    && |t| == |s|
    && forall j :: 0 <= j < |t| ==> t[j] in s && (t[j] == s[j] || Contained(t[j], s[j]))
  }

  lemma PassSettles(s: seq<WordInfo>, i: nat)
    requires i < |s| && Settled(s, i)
    ensures Settled(Pass(s, i), i + 1)
  {
    var t := Pass(s, i);
    forall p, j | 0 <= p < i + 1 && 0 <= j < |s| ensures !Contained(t[p], t[j]) {
      ContainedTransitive(s[p], s[i], s[j]);
      hide HasId;
    }
  }

  lemma PassNarrows(s: seq<WordInfo>, t: seq<WordInfo>, i: nat)
    requires i < |t| && Narrowed(s, t)
    ensures Narrowed(s, Pass(t, i))
  {
    var u := Pass(t, i);
    forall j | 0 <= j < |u| ensures u[j] in s && (u[j] == s[j] || Contained(u[j], s[j])) {
      ContainedTransitive(t[i], t[j], s[j]);
    }
    hide Contained;
  }

  lemma {:induction false} NarrowFromReaches(s: seq<WordInfo>, t: seq<WordInfo>, i: nat)
    requires i <= |t| && Settled(t, i) && Narrowed(s, t)
    ensures Settled(NarrowFrom(t, i), |s|) && Narrowed(s, NarrowFrom(t, i))
    decreases |t| - i
  {
    hide Contained, Pass, Narrowed;
    if i < |t| {
      PassSettles(t, i);
      PassNarrows(s, t, i);
      NarrowFromReaches(s, Pass(t, i), i + 1);
    }
    assert |t| == |s| by { NarrowedLength(s, t); }
  }

  lemma NarrowedLength(s: seq<WordInfo>, t: seq<WordInfo>)
    requires Narrowed(s, t)
    ensures |t| == |s|
  {}

  /** One pass reaches the fixpoint: no entry is contained in another, and each is an old entry within its old value. */
  lemma NarrowReachesFixpoint(s: seq<WordInfo>)
    ensures Settled(NarrowFrom(s, 0), |s|) && Narrowed(s, NarrowFrom(s, 0))
  {
    NarrowFromReaches(s, s, 0);
  }

  /** Entries of which none is contained in another can only be narrowed to themselves. */
  lemma SettledStays(s: seq<WordInfo>, t: seq<WordInfo>)
    requires Settled(s, |s|) && Narrowed(s, t)
    ensures t == s
  {
    forall j | 0 <= j < |s| ensures t[j] == s[j] {
      var k :| 0 <= k < |s| && s[k] == t[j];
      assert !Contained(s[k], s[j]);
    }
  }

  /** A second pass changes nothing. */
  lemma NarrowIdempotent(s: seq<WordInfo>)
    ensures NarrowFrom(NarrowFrom(s, 0), 0) == NarrowFrom(s, 0)
  {
    var t := NarrowFrom(s, 0);
    NarrowReachesFixpoint(s);
    NarrowReachesFixpoint(t);
    SettledStays(t, NarrowFrom(t, 0));
  }

  /** The result is narrowest among the old entries: none of them is contained in an entry of the result. */
  lemma {:induction false} NarrowIsMinimal(s: seq<WordInfo>, k: nat, j: nat)
    requires k < |s| && j < |s|
    ensures !Contained(s[k], NarrowFrom(s, 0)[j])
    decreases |s[k].forms|
  {
    var t := NarrowFrom(s, 0);
    NarrowReachesFixpoint(s);
    if t[k] != s[k] {
      var m :| 0 <= m < |s| && s[m] == t[k];
      NarrowIsMinimal(s, m, j);
      ContainedTransitive(s[m], s[k], t[j]);
    }
    hide HasId;
  }
}
