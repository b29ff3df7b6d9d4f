/**
 * The slots of El/Hash/Map.hpp as a sequence: linear probing from a home slot, with wrap-around and
 * without deletion.  HashMap.dfy proves the class against these functions.
 */
module Probing {

  import opened Wrappers

  datatype Slot<K, V> = Slot(key: K, value: V)

  /** The hash function of the table and the key that marks a free slot. */
  datatype Keys<!K> = Keys(hash: K -> nat, empty: K)

  /** The slot visited r steps after the home slot. */
  function At(n: nat, home: nat, r: nat): (i: nat)
    requires home < n && r < n
    ensures i < n && Rank(n, home, i) == r
  {
    if home + r < n then home + r else home + r - n
  }

  /** The number of steps from the home slot to slot i. */
  function Rank(n: nat, home: nat, i: nat): (r: nat)
    requires home < n && i < n
    ensures r < n
  {
    if i >= home then i - home else i + n - home
  }

  function Home<K>(c: Keys<K>, k: K, n: nat): (h: nat)
    requires n > 0
    ensures h < n
  {
    c.hash(k) % n
  }

  /** The first slot in probe order, at or after step r, that holds the key k. */
  function Probe<K(==), V>(s: seq<Slot<K, V>>, home: nat, k: K, r: nat): (o: Option<nat>)
    requires home < |s| && r <= |s|
    ensures o.Some? ==> o.value < |s| && s[o.value].key == k
    decreases |s| - r
  {
    if r == |s| then None
    else if s[At(|s|, home, r)].key == k then Some(At(|s|, home, r))
    else Probe(s, home, k, r + 1)
  }

  /** The key k is in none of the slots visited from step r on, before the step at the end. */
  ghost predicate NotBetween<K, V>(s: seq<Slot<K, V>>, home: nat, k: K, r: nat, end: nat)
    requires home < |s|
  {
    forall j :: 0 <= j < |s| && r <= Rank(|s|, home, j) < end ==> s[j].key != k
  }

  lemma {:induction false} ProbeFirst<K, V>(s: seq<Slot<K, V>>, home: nat, k: K, r: nat)
    requires home < |s| && r <= |s|
    ensures match Probe(s, home, k, r)
      case Some(i) => r <= Rank(|s|, home, i) && NotBetween(s, home, k, r, Rank(|s|, home, i))
      case None => NotBetween(s, home, k, r, |s|)
    decreases |s| - r
  {
    if r < |s| && s[At(|s|, home, r)].key != k {
      ProbeFirst(s, home, k, r + 1);
    }
  }

  lemma ProbeHere<K, V>(s: seq<Slot<K, V>>, home: nat, k: K, i: nat)
    requires home < |s| && i < |s| && s[i].key == k
    ensures Probe(s, home, k, Rank(|s|, home, i)) == Some(i)
  {}

  lemma ProbePast<K, V>(s: seq<Slot<K, V>>, home: nat, k: K, i: nat)
    requires home < |s| && i < |s| && s[i].key != k
    ensures Probe(s, home, k, Rank(|s|, home, i)) == Probe(s, home, k, Rank(|s|, home, i) + 1)
  {}

  lemma ProbeEnd<K, V>(s: seq<Slot<K, V>>, home: nat, k: K)
    requires home < |s|
    ensures Probe(s, home, k, |s|) == None
  {}

  /** What a full scan for k finds. */
  function Search<K(==), V>(c: Keys<K>, s: seq<Slot<K, V>>, k: K): (o: Option<nat>)
    ensures o.Some? ==> o.value < |s| && s[o.value].key == k
    ensures o.None? <==> forall j :: 0 <= j < |s| ==> s[j].key != k
  {
    if s == [] then None
    else
      ProbeFirst(s, Home(c, k, |s|), k, 0);
      Probe(s, Home(c, k, |s|), k, 0)
  }

  function Lookup<K(==), V>(c: Keys<K>, s: seq<Slot<K, V>>, k: K): Option<V> {
    match Search(c, s, k)
    case None => None
    case Some(i) => Some(s[i].value)
  }

  /** The slot in which k is put: the first free one in its probe order. */
  function Place<K(==), V>(c: Keys<K>, s: seq<Slot<K, V>>, k: K): (o: Option<nat>)
    ensures o.Some? ==> o.value < |s| && s[o.value].key == c.empty
    ensures o.None? <==> Full(c, s)
  {
    if s == [] then None
    else
      ProbeFirst(s, Home(c, k, |s|), c.empty, 0);
      Probe(s, Home(c, k, |s|), c.empty, 0)
  }

  ghost predicate Full<K, V>(c: Keys<K>, s: seq<Slot<K, V>>) {
    forall j :: 0 <= j < |s| ==> s[j].key != c.empty
  }

  function Put<K(==), V>(c: Keys<K>, s: seq<Slot<K, V>>, x: Slot<K, V>): (t: seq<Slot<K, V>>)
    ensures |t| == |s|
  {
    match Place(c, s, x.key)
    case None => s
    case Some(i) => s[i := x]
  }

  function PutAll<K(==), V>(c: Keys<K>, s: seq<Slot<K, V>>, xs: seq<Slot<K, V>>): (t: seq<Slot<K, V>>)
    ensures |t| == |s|
    decreases xs
  {
    if xs == [] then s else PutAll(c, Put(c, s, xs[0]), xs[1..])
  }

  // --- Probe chains -------------------------------------------------------------------------

  /** No free slot lies between the home of a key and the slot that holds it. */
  ghost predicate Chained<K, V>(c: Keys<K>, s: seq<Slot<K, V>>) {
    forall i, j :: 0 <= i < |s| && 0 <= j < |s| && s[i].key != c.empty ==>
      Rank(|s|, Home(c, s[i].key, |s|), j) < Rank(|s|, Home(c, s[i].key, |s|), i) ==> s[j].key != c.empty
  }

  /** The scan that gives up at the first free slot. */
  function ProbeToFree<K(==), V>(c: Keys<K>, s: seq<Slot<K, V>>, home: nat, k: K, r: nat): Option<nat>
    requires home < |s| && r <= |s|
    decreases |s| - r
  {
    if r == |s| then None
    else
      var i := At(|s|, home, r);
      if s[i].key == k then Some(i)
      else if s[i].key == c.empty then None
      else ProbeToFree(c, s, home, k, r + 1)
  }

  lemma {:induction false} EarlyStopFrom<K, V>(c: Keys<K>, s: seq<Slot<K, V>>, k: K, r: nat)
    requires s != [] && r <= |s| && Chained(c, s) && k != c.empty
    ensures ProbeToFree(c, s, Home(c, k, |s|), k, r) == Probe(s, Home(c, k, |s|), k, r)
    decreases |s| - r
  {
    if r < |s| {
      var h := Home(c, k, |s|);
      EarlyStopFrom(c, s, k, r + 1);
      if s[At(|s|, h, r)].key == c.empty {
        ProbeFirst(s, h, k, r);
      }
      hide Chained, At, Rank, Home;
    }
  }

  /** On chained slots a scan may stop at the first free slot. */
  lemma EarlyStopAgrees<K, V>(c: Keys<K>, s: seq<Slot<K, V>>, k: K)
    requires s != [] && Chained(c, s) && k != c.empty
    ensures ProbeToFree(c, s, Home(c, k, |s|), k, 0) == Search(c, s, k)
  {
    EarlyStopFrom(c, s, k, 0);
  }

  lemma PutChained<K, V>(c: Keys<K>, s: seq<Slot<K, V>>, x: Slot<K, V>)
    requires Chained(c, s)
    ensures Chained(c, Put(c, s, x))
  {
    if s != [] {
      ProbeFirst(s, Home(c, x.key, |s|), c.empty, 0);
    }
  }

  /** The slot a search returns is determined by being first in probe order. */
  lemma SearchIs<K, V>(c: Keys<K>, s: seq<Slot<K, V>>, k: K, i: nat)
    requires i < |s| && s[i].key == k
    requires var h := Home(c, k, |s|); forall j :: 0 <= j < |s| && Rank(|s|, h, j) < Rank(|s|, h, i) ==> s[j].key != k
    ensures Search(c, s, k) == Some(i)
  {
    var o := Search(c, s, k);
    var h := Home(c, k, |s|);
    ProbeFirst(s, h, k, 0);
    assert o.Some? && Rank(|s|, h, o.value) == Rank(|s|, h, i);
  }

  lemma PutNewKey<K, V>(c: Keys<K>, s: seq<Slot<K, V>>, x: Slot<K, V>)
    requires !Full(c, s) && x.key != c.empty && Search(c, s, x.key).None?
    ensures Lookup(c, Put(c, s, x), x.key) == Some(x.value)
  {
    SearchIs(c, Put(c, s, x), x.key, Place(c, s, x.key).value);
  }

  lemma PutKeepsOther<K, V>(c: Keys<K>, s: seq<Slot<K, V>>, x: Slot<K, V>, k: K)
    requires !Full(c, s) && k != c.empty && k != x.key
    ensures Lookup(c, Put(c, s, x), k) == Lookup(c, s, k)
  {
    var o := Search(c, s, k);
    if o.Some? {
      ProbeFirst(s, Home(c, k, |s|), k, 0);
      SearchIs(c, Put(c, s, x), k, o.value);
    }
  }

  lemma PutKeepsFirst<K, V>(c: Keys<K>, s: seq<Slot<K, V>>, x: Slot<K, V>)
    requires Chained(c, s) && !Full(c, s) && x.key != c.empty && Search(c, s, x.key).Some?
    ensures Lookup(c, Put(c, s, x), x.key) == Lookup(c, s, x.key)
  {
    var i, p, h := Search(c, s, x.key).value, Place(c, s, x.key).value, Home(c, x.key, |s|);
    ProbeFirst(s, h, x.key, 0);
    assert Rank(|s|, h, i) < Rank(|s|, h, p);
    SearchIs(c, Put(c, s, x), x.key, i);
  }

  /** Put adds x.key when it is absent and changes no other key; an earlier copy of x.key stays the one found. */
  lemma PutLookup<K, V>(c: Keys<K>, s: seq<Slot<K, V>>, x: Slot<K, V>, k: K)
    requires Chained(c, s) && !Full(c, s) && k != c.empty
    ensures Lookup(c, Put(c, s, x), k)
         == if k == x.key && Lookup(c, s, k).None? then Some(x.value) else Lookup(c, s, k)
  {
    hide Put;
    if k != x.key {
      PutKeepsOther(c, s, x, k);
    } else if Search(c, s, k).Some? {
      PutKeepsFirst(c, s, x);
    } else {
      PutNewKey(c, s, x);
    }
  }

  // --- Rebuilding a table -------------------------------------------------------------------

  /** The value of the first entry with key k. */
  function FirstOf<K(==), V>(xs: seq<Slot<K, V>>, k: K): Option<V> {
    if xs == [] then None else if xs[0].key == k then Some(xs[0].value) else FirstOf(xs[1..], k)
  }

  function Or<V>(a: Option<V>, b: Option<V>): Option<V> {
    if a.Some? then a else b
  }

  /** No insertion of the list meets a full table. */
  ghost predicate NeverFull<K, V>(c: Keys<K>, s: seq<Slot<K, V>>, xs: seq<Slot<K, V>>)
    decreases xs
  {
    xs == [] || (!Full(c, s) && NeverFull(c, Put(c, s, xs[0]), xs[1..]))
  }

  lemma {:induction false} PutAllLookup<K, V>(c: Keys<K>, s: seq<Slot<K, V>>, xs: seq<Slot<K, V>>, k: K)
    requires Chained(c, s) && NeverFull(c, s, xs) && k != c.empty
    ensures Chained(c, PutAll(c, s, xs))
    ensures Lookup(c, PutAll(c, s, xs), k) == Or(Lookup(c, s, k), FirstOf(xs, k))
    decreases xs
  {
    hide Put, Lookup, Chained;
    if xs != [] {
      PutLookup(c, s, xs[0], k);
      PutChained(c, s, xs[0]);
      PutAllLookup(c, Put(c, s, xs[0]), xs[1..], k);
    }
  }

  lemma PutAllStep<K, V>(c: Keys<K>, s: seq<Slot<K, V>>, xs: seq<Slot<K, V>>, i: nat)
    requires i < |xs|
    ensures PutAll(c, s, xs[i..]) == PutAll(c, Put(c, s, xs[i]), xs[i + 1..])
    ensures NeverFull(c, s, xs[i..]) <==> !Full(c, s) && NeverFull(c, Put(c, s, xs[i]), xs[i + 1..])
  {
    assert xs[i..][1..] == xs[i + 1..];
    hide Put;
  }

  lemma PutOne<K, V>(c: Keys<K>, s: seq<Slot<K, V>>, x: Slot<K, V>)
    ensures Full(c, s) ==> Put(c, s, x) == s
  {}

  /** A full table takes nothing more. */
  lemma {:induction false} FullStays<K, V>(c: Keys<K>, s: seq<Slot<K, V>>, xs: seq<Slot<K, V>>)
    requires Full(c, s)
    ensures PutAll(c, s, xs) == s && PutMissing(c, s, xs) == s
    ensures NeverFull(c, s, xs) <==> xs == []
    decreases xs
  {
    if xs == [] {
    } else {
      FullStays(c, s, xs[1..]);
    }
  }

  lemma PutAllDone<K, V>(c: Keys<K>, s: seq<Slot<K, V>>, xs: seq<Slot<K, V>>)
    ensures PutAll(c, s, xs[|xs|..]) == s
  {}

  /** n free slots. */
  function Blank<K, V>(c: Keys<K>, n: nat, v: V): (s: seq<Slot<K, V>>)
    ensures |s| == n
  {
    seq(n, _ => Slot(c.empty, v))
  }

  lemma BlankHoldsNothing<K, V>(c: Keys<K>, n: nat, v: V, k: K)
    requires k != c.empty
    ensures Chained(c, Blank(c, n, v)) && Lookup(c, Blank(c, n, v), k) == None
  {}

  // --- Room for the keys --------------------------------------------------------------------

  /** The number of slots that are not free. */
  function Used<K(==), V>(c: Keys<K>, s: seq<Slot<K, V>>): (n: nat)
    ensures n <= |s| && (n == |s| <==> Full(c, s))
  {
    if s == [] then 0
    else
      assert forall j :: 1 <= j < |s| ==> s[j] == s[1..][j - 1];
      (if s[0].key == c.empty then 0 else 1) + Used(c, s[1..])
  }

  lemma {:induction false} UpdateUsed<K, V>(c: Keys<K>, t: seq<Slot<K, V>>, p: nat, x: Slot<K, V>)
    requires p < |t| && t[p].key == c.empty
    ensures Used(c, t[p := x]) == Used(c, t) + (if x.key == c.empty then 0 else 1)
  {
    if p == 0 {
      assert t[p := x][1..] == t[1..];
    } else {
      assert t[p := x][1..] == t[1..][p - 1 := x];
      UpdateUsed(c, t[1..], p - 1, x);
    }
    hide Full;
  }

  lemma PutUses<K, V>(c: Keys<K>, t: seq<Slot<K, V>>, x: Slot<K, V>)
    requires !Full(c, t)
    ensures Used(c, Put(c, t, x)) == Used(c, t) + (if x.key == c.empty then 0 else 1)
  {
    UpdateUsed(c, t, Place(c, t, x.key).value, x);
  }

  /** The slots suffice for the entries of xs, and at each free slot of xs one is left. */
  ghost predicate Holds<K, V>(c: Keys<K>, size: nat, used: nat, xs: seq<Slot<K, V>>) {
    && used + Used(c, xs) <= size
    && forall i :: 0 <= i < |xs| && xs[i].key == c.empty ==> used + Used(c, xs[..i]) < size
  }

  lemma HoldsFirst<K, V>(c: Keys<K>, size: nat, used: nat, xs: seq<Slot<K, V>>)
    requires xs != []
    ensures Holds(c, size, used, xs) <==>
      used < size && Holds(c, size, used + (if xs[0].key == c.empty then 0 else 1), xs[1..])
  {
    hide Full;
    var more := if xs[0].key == c.empty then 0 else 1;
    assert xs[..0] == [] && Used(c, xs[..0]) == 0;
    forall i | 0 < i < |xs|
      ensures xs[i] == xs[1..][i - 1] && Used(c, xs[..i]) == more + Used(c, xs[1..][..i - 1])
    {
      assert xs[..i][1..] == xs[1..][..i - 1];
    }
    if Holds(c, size, used + more, xs[1..]) && used < size {
      forall i | 0 <= i < |xs| && xs[i].key == c.empty
        ensures used + Used(c, xs[..i]) < size
      {
        assert i > 0 ==> xs[1..][i - 1].key == c.empty;
      }
    }
    if Holds(c, size, used, xs) {
      assert xs[0].key == c.empty ==> used + Used(c, xs[..0]) < size;
      forall i | 0 <= i < |xs[1..]| && xs[1..][i].key == c.empty
        ensures used + more + Used(c, xs[1..][..i]) < size
      {
        assert xs[i + 1].key == c.empty;
      }
    }
  }

  /** No insertion of a list meets a full table, exactly if there is place for all its keys, and for its free slots. */
  lemma {:induction false} NeverFullWhen<K, V>(c: Keys<K>, s: seq<Slot<K, V>>, xs: seq<Slot<K, V>>)
    ensures NeverFull(c, s, xs) <==> Holds(c, |s|, Used(c, s), xs)
    ensures NeverFull(c, s, xs) ==> Used(c, PutAll(c, s, xs)) == Used(c, s) + Used(c, xs)
    decreases xs
  {
    hide Put, Full, Holds;
    if xs == [] {
      NothingHolds(c, s, xs);
    } else {
      HoldsFirst(c, |s|, Used(c, s), xs);
      if !Full(c, s) {
        PutUses(c, s, xs[0]);
        NeverFullWhen(c, Put(c, s, xs[0]), xs[1..]);
      }
    }
  }

  lemma NothingHolds<K, V>(c: Keys<K>, s: seq<Slot<K, V>>, xs: seq<Slot<K, V>>)
    requires xs == []
    ensures Holds(c, |s|, Used(c, s), xs)
  {}

  lemma {:induction false} SubsetSize<T>(a: set<T>, b: set<T>)
    requires a <= b
    ensures |a| <= |b|
    ensures a != b ==> |a| < |b|
  {
    assert b == a + (b - a);
    if a != b {
      assert b - a != {};
    }
  }

  lemma {:induction false} BlankUses<K, V>(c: Keys<K>, n: nat, v: V)
    ensures Used(c, Blank(c, n, v)) == 0
  {
    if n == 0 {
    } else {
      BlankUses(c, n - 1, v);
      assert Blank(c, n, v)[1..] == Blank(c, n - 1, v);
    }
  }

  // --- Rebuild by one -----------------------------------------------------------------------

  /** The table after its slots are moved to one slot more and x is added. */
  function Grow<K(==), V>(c: Keys<K>, s: seq<Slot<K, V>>, v: V, x: Slot<K, V>): (t: seq<Slot<K, V>>)
    ensures |t| == |s| + 1
  {
    Put(c, PutAll(c, Blank(c, |s| + 1, v), s), x)
  }

  function ForceIn<K(==), V>(c: Keys<K>, s: seq<Slot<K, V>>, v: V, x: Slot<K, V>): seq<Slot<K, V>> {
    match Search(c, s, x.key)
    case Some(i) => s[i := Slot(s[i].key, x.value)]
    case None => Grow(c, s, v, x)
  }

  lemma {:induction false} PutAllSnoc<K, V>(c: Keys<K>, s: seq<Slot<K, V>>, xs: seq<Slot<K, V>>, x: Slot<K, V>)
    ensures PutAll(c, s, xs + [x]) == Put(c, PutAll(c, s, xs), x)
    ensures NeverFull(c, s, xs + [x]) <==> NeverFull(c, s, xs) && !Full(c, PutAll(c, s, xs))
    decreases xs
  {
    hide Put;
    if xs == [] {
      assert [] + [x] == [x];
    } else {
      assert (xs + [x])[1..] == xs[1..] + [x];
      PutAllSnoc(c, Put(c, s, xs[0]), xs[1..], x);
    }
  }

  lemma {:induction false} FirstOfSnoc<K, V>(xs: seq<Slot<K, V>>, x: Slot<K, V>, k: K)
    ensures FirstOf(xs + [x], k) == Or(FirstOf(xs, k), if x.key == k then Some(x.value) else None)
  {
    if xs == [] {
      assert [] + [x] == [x];
    } else {
      assert (xs + [x])[1..] == xs[1..] + [x];
      FirstOfSnoc(xs[1..], x, k);
    }
  }

  /** Moving the slots of a table to one slot more never meets a full table. */
  lemma GrowNeverFull<K, V>(c: Keys<K>, s: seq<Slot<K, V>>, v: V, x: Slot<K, V>)
    ensures NeverFull(c, Blank(c, |s| + 1, v), s) && !Full(c, PutAll(c, Blank(c, |s| + 1, v), s))
  {
    var b: seq<Slot<K, V>> := Blank(c, |s| + 1, v);
    BlankUses(c, |s| + 1, v);
    NeverFullWhen(c, b, s + [x]);
    PutAllSnoc(c, b, s, x);
  }

  lemma GrowLookup<K, V>(c: Keys<K>, s: seq<Slot<K, V>>, v: V, x: Slot<K, V>, k: K)
    requires k != c.empty
    ensures Chained(c, Grow(c, s, v, x))
    ensures Lookup(c, Grow(c, s, v, x), k) == Or(FirstOf(s, k), if x.key == k then Some(x.value) else None)
  {
    var b: seq<Slot<K, V>> := Blank(c, |s| + 1, v);
    GrowNeverFull(c, s, v, x);
    PutAllSnoc(c, b, s, x);
    BlankHoldsNothing(c, |s| + 1, v, k);
    PutAllLookup(c, b, s + [x], k);
    FirstOfSnoc(s, x, k);
  }

  lemma {:induction false} FirstOfFound<K, V>(xs: seq<Slot<K, V>>, k: K)
    ensures FirstOf(xs, k).None? <==> forall j :: 0 <= j < |xs| ==> xs[j].key != k
    ensures FirstOf(xs, k).Some? ==> exists j :: 0 <= j < |xs| && xs[j].key == k && FirstOf(xs, k) == Some(xs[j].value)
  {
    if xs != [] {
      FirstOfFound(xs[1..], k);
      assert forall j :: 1 <= j < |xs| ==> xs[j] == xs[1..][j - 1];
      if xs[0].key != k && FirstOf(xs, k).Some? {
        var j :| 0 <= j < |xs[1..]| && xs[1..][j].key == k && FirstOf(xs[1..], k) == Some(xs[1..][j].value);
        assert xs[j + 1] == xs[1..][j];
      }
    }
  }

  /** No key other than the free mark occurs twice. */
  ghost predicate Distinct<K, V>(c: Keys<K>, s: seq<Slot<K, V>>) {
    forall i, j :: 0 <= i < j < |s| && s[i].key == s[j].key ==> s[i].key == c.empty
  }

  lemma DistinctFirst<K, V>(c: Keys<K>, s: seq<Slot<K, V>>, k: K)
    requires Distinct(c, s) && k != c.empty
    ensures FirstOf(s, k) == Lookup(c, s, k)
  {
    FirstOfFound(s, k);
  }

  lemma SetValueLookup<K, V>(c: Keys<K>, s: seq<Slot<K, V>>, x: Slot<K, V>, k: K)
    requires Chained(c, s) && Search(c, s, x.key).Some?
    ensures var i := Search(c, s, x.key).value;
      && Chained(c, s[i := Slot(s[i].key, x.value)])
      && Lookup(c, s[i := Slot(s[i].key, x.value)], k) == if k == x.key then Some(x.value) else Lookup(c, s, k)
  {
    var i := Search(c, s, x.key).value;
    var o := Search(c, s, k);
    if o.Some? {
      ProbeFirst(s, Home(c, k, |s|), k, 0);
      SearchIs(c, s[i := Slot(s[i].key, x.value)], k, o.value);
    }
  }

  /**
   * ForceIn on any chained table, duplicates included: x.key gets its value, and every other key keeps
   * the value found before, except that a rebuild makes the copy in the lowest slot the one found.
   */
  lemma ForceInLookup<K, V>(c: Keys<K>, s: seq<Slot<K, V>>, v: V, x: Slot<K, V>, k: K)
    requires Chained(c, s) && k != c.empty
    ensures Chained(c, ForceIn(c, s, v, x))
    ensures Lookup(c, ForceIn(c, s, v, x), k)
         == if k == x.key then Some(x.value)
            else if Lookup(c, s, x.key).Some? then Lookup(c, s, k) else FirstOf(s, k)
  {
    hide Chained;
    if Search(c, s, x.key).Some? {
      SetValueLookup(c, s, x, k);
    } else {
      GrowLookup(c, s, v, x, k);
      FirstOfFound(s, x.key);
    }
  }

  // --- Bulk merge ---------------------------------------------------------------------------

  /** The slots of src whose key the table s does not hold. */
  function MissingCount<K(==), V>(c: Keys<K>, s: seq<Slot<K, V>>, src: seq<Slot<K, V>>): nat {
    if src == [] then 0
    else (if Search(c, s, src[0].key).None? then 1 else 0) + MissingCount(c, s, src[1..])
  }

  /** The entries of xs put one by one, each only when its key is not found. */
  function PutMissing<K(==), V>(c: Keys<K>, s: seq<Slot<K, V>>, xs: seq<Slot<K, V>>): (t: seq<Slot<K, V>>)
    ensures |t| == |s|
    decreases xs
  {
    if xs == [] then s
    else PutMissing(c, if Search(c, s, xs[0].key).None? then Put(c, s, xs[0]) else s, xs[1..])
  }

  function Merge<K(==), V>(c: Keys<K>, s: seq<Slot<K, V>>, v: V, src: seq<Slot<K, V>>): seq<Slot<K, V>> {
    PutMissing(c, PutAll(c, Blank(c, |s| + MissingCount(c, s, src), v), src), s)
  }

  /** No insertion of PutMissing meets a full table. */
  ghost predicate NeverFullMissing<K, V>(c: Keys<K>, s: seq<Slot<K, V>>, xs: seq<Slot<K, V>>)
    decreases xs
  {
    xs == [] ||
    if Search(c, s, xs[0].key).None?
    then !Full(c, s) && NeverFullMissing(c, Put(c, s, xs[0]), xs[1..])
    else NeverFullMissing(c, s, xs[1..])
  }

  lemma PutMissingStep<K, V>(c: Keys<K>, s: seq<Slot<K, V>>, xs: seq<Slot<K, V>>, i: nat)
    requires i < |xs|
    ensures var absent := Search(c, s, xs[i].key).None?;
      var t := if absent then Put(c, s, xs[i]) else s;
      && PutMissing(c, s, xs[i..]) == PutMissing(c, t, xs[i + 1..])
      && (NeverFullMissing(c, s, xs[i..]) <==> (absent ==> !Full(c, s)) && NeverFullMissing(c, t, xs[i + 1..]))
  {
    assert xs[i..][1..] == xs[i + 1..];
    hide Put;
  }

  lemma PutMissingDone<K, V>(c: Keys<K>, s: seq<Slot<K, V>>, xs: seq<Slot<K, V>>)
    ensures PutMissing(c, s, xs[|xs|..]) == s
  {}

  ghost function KeySet<K, V>(c: Keys<K>, s: seq<Slot<K, V>>): set<K> {
    if s == [] then {} else (if s[0].key == c.empty then {} else {s[0].key}) + KeySet(c, s[1..])
  }

  lemma {:induction false} InKeySet<K, V>(c: Keys<K>, s: seq<Slot<K, V>>, k: K)
    ensures k in KeySet(c, s) <==> k != c.empty && exists j :: 0 <= j < |s| && s[j].key == k
  {
    if s != [] {
      InKeySet(c, s[1..], k);
      assert forall j :: 1 <= j < |s| ==> s[j] == s[1..][j - 1];
      if k in KeySet(c, s[1..]) {
        var j :| 0 <= j < |s[1..]| && s[1..][j].key == k;
        assert s[j + 1].key == k;
      }
    }
  }

  lemma {:induction false} KeySetSize<K, V>(c: Keys<K>, s: seq<Slot<K, V>>)
    ensures |KeySet(c, s)| <= |s|
    ensures !Full(c, s) ==> |KeySet(c, s)| < |s|
  {
    if s != [] {
      KeySetSize(c, s[1..]);
      assert forall j :: 1 <= j < |s| ==> s[j] == s[1..][j - 1];
    }
  }

  lemma {:induction false} FullDistinctSize<K, V>(c: Keys<K>, s: seq<Slot<K, V>>)
    requires Full(c, s) && Distinct(c, s)
    ensures |KeySet(c, s)| == |s|
  {
    if s != [] {
      FullDistinctSize(c, s[1..]);
      InKeySet(c, s[1..], s[0].key);
      assert forall j :: 1 <= j < |s| ==> s[j] == s[1..][j - 1];
    }
  }

  lemma SearchOrKeySet<K, V>(c: Keys<K>, s: seq<Slot<K, V>>, k: K)
    ensures k != c.empty ==> (Search(c, s, k).None? <==> k !in KeySet(c, s))
    ensures k == c.empty ==> (Search(c, s, k).None? <==> Full(c, s)) && k !in KeySet(c, s)
  {
    InKeySet(c, s, k);
  }

  lemma FullCons<K, V>(c: Keys<K>, s: seq<Slot<K, V>>)
    requires s != []
    ensures Full(c, s) <==> s[0].key != c.empty && Full(c, s[1..])
  {
    assert forall j :: 1 <= j < |s| ==> s[j] == s[1..][j - 1];
  }

  /** The count of missing slots covers every new key, and a free slot of src when s has none. */
  lemma {:induction false} MissingCovers<K, V>(c: Keys<K>, s: seq<Slot<K, V>>, src: seq<Slot<K, V>>)
    ensures |KeySet(c, src) - KeySet(c, s)| + (if Full(c, s) && !Full(c, src) then 1 else 0) <= MissingCount(c, s, src)
    decreases src
  {
    if src != [] {
      var k := src[0].key;
      MissingCovers(c, s, src[1..]);
      SearchOrKeySet(c, s, k);
      FullCons(c, src);
      hide Full, Search;
      var all, rest := KeySet(c, src) - KeySet(c, s), KeySet(c, src[1..]) - KeySet(c, s);
      if k == c.empty || k in KeySet(c, s) {
        assert all == rest;
      } else {
        assert all == rest + {k};
      }
    }
  }

  /** The keys of both tables fit into n slots, with one to spare if either table has a free slot. */
  ghost predicate Fits<K, V>(c: Keys<K>, s: seq<Slot<K, V>>, src: seq<Slot<K, V>>, n: nat) {
    && |KeySet(c, s) + KeySet(c, src)| <= n
    && (!Full(c, s) || !Full(c, src) ==> |KeySet(c, s) + KeySet(c, src)| < n)
  }

  lemma MergeSizeFits<K, V>(c: Keys<K>, s: seq<Slot<K, V>>, src: seq<Slot<K, V>>)
    ensures Fits(c, s, src, |s| + MissingCount(c, s, src))
  {
    MissingCovers(c, s, src);
    KeySetSize(c, s);
    assert KeySet(c, s) + KeySet(c, src) == KeySet(c, s) + (KeySet(c, src) - KeySet(c, s));
  }

  lemma UpdateKeySet<K, V>(c: Keys<K>, t: seq<Slot<K, V>>, p: nat, x: Slot<K, V>)
    requires p < |t| && t[p].key == c.empty
    ensures KeySet(c, t[p := x]) == KeySet(c, t) + (if x.key == c.empty then {} else {x.key})
  {
    var t', more := t[p := x], if x.key == c.empty then {} else {x.key};
    hide KeySet;
    assert t'[p].key == x.key;
    forall k | k in KeySet(c, t') ensures k in KeySet(c, t) + more {
      InKeySet(c, t, k);
      InKeySet(c, t', k);
    }
    forall k | k in KeySet(c, t) + more ensures k in KeySet(c, t') {
      InKeySet(c, t, k);
      InKeySet(c, t', k);
      if k in KeySet(c, t) {
        var j :| 0 <= j < |t| && t[j].key == k;
        assert t'[j].key == k;
      }
    }
  }

  /** Put of a key not in the table keeps its keys distinct and adds that key. */
  lemma PutDistinct<K, V>(c: Keys<K>, t: seq<Slot<K, V>>, x: Slot<K, V>)
    requires Distinct(c, t) && !Full(c, t)
    requires x.key == c.empty || Search(c, t, x.key).None?
    ensures Distinct(c, Put(c, t, x))
    ensures KeySet(c, Put(c, t, x)) == KeySet(c, t) + (if x.key == c.empty then {} else {x.key})
  {
    var p := Place(c, t, x.key).value;
    UpdateKeySet(c, t, p, x);
    hide KeySet;
  }

  /** A table with distinct keys among u has a free slot for a key it lacks. */
  lemma RoomFor<K, V>(c: Keys<K>, t: seq<Slot<K, V>>, u: set<K>, k: K)
    requires Distinct(c, t) && KeySet(c, t) <= u
    requires if k == c.empty then |u| < |t| else |u| <= |t| && k in u && k !in KeySet(c, t)
    ensures !Full(c, t)
  {
    SubsetSize(KeySet(c, t), u);
    if Full(c, t) {
      FullDistinctSize(c, t);
    }
  }

  /** Every key of xs is among u, and if xs has a free slot then u leaves one of n slots free. */
  ghost predicate Covered<K, V>(c: Keys<K>, xs: seq<Slot<K, V>>, u: set<K>, n: nat) {
    forall j :: 0 <= j < |xs| ==> if xs[j].key == c.empty then |u| < n else |u| <= n && xs[j].key in u
  }

  lemma {:induction false} DistinctRoom<K, V>(c: Keys<K>, t: seq<Slot<K, V>>, xs: seq<Slot<K, V>>, u: set<K>)
    requires Distinct(c, t) && Distinct(c, xs) && KeySet(c, t) <= u && Covered(c, xs, u, |t|)
    requires forall j :: 0 <= j < |xs| ==> xs[j].key !in KeySet(c, t)
    ensures NeverFull(c, t, xs) && Distinct(c, PutAll(c, t, xs)) && KeySet(c, PutAll(c, t, xs)) <= u
    decreases xs
  {
    if xs != [] {
      InKeySet(c, t, xs[0].key);
      RoomFor(c, t, u, xs[0].key);
      PutDistinct(c, t, xs[0]);
      hide Put;
      DistinctRoom(c, Put(c, t, xs[0]), xs[1..], u);
    }
  }

  lemma {:induction false} MissingRoom<K, V>(c: Keys<K>, t: seq<Slot<K, V>>, xs: seq<Slot<K, V>>, u: set<K>)
    requires Distinct(c, t) && KeySet(c, t) <= u && Covered(c, xs, u, |t|)
    ensures NeverFullMissing(c, t, xs) && Distinct(c, PutMissing(c, t, xs))
    decreases xs
  {
    if xs != [] {
      hide Put;
      if Search(c, t, xs[0].key).None? {
        InKeySet(c, t, xs[0].key);
        RoomFor(c, t, u, xs[0].key);
        PutDistinct(c, t, xs[0]);
        MissingRoom(c, Put(c, t, xs[0]), xs[1..], u);
      } else {
        MissingRoom(c, t, xs[1..], u);
      }
    }
  }

  lemma {:induction false} PutMissingLookup<K, V>(c: Keys<K>, t: seq<Slot<K, V>>, xs: seq<Slot<K, V>>, k: K)
    requires Chained(c, t) && NeverFullMissing(c, t, xs) && k != c.empty
    ensures Chained(c, PutMissing(c, t, xs))
    ensures Lookup(c, PutMissing(c, t, xs), k) == Or(Lookup(c, t, k), FirstOf(xs, k))
    decreases xs
  {
    if xs != [] {
      hide Put, Chained;
      if Search(c, t, xs[0].key).None? {
        PutLookup(c, t, xs[0], k);
        PutChained(c, t, xs[0]);
        PutMissingLookup(c, Put(c, t, xs[0]), xs[1..], k);
      } else {
        PutMissingLookup(c, t, xs[1..], k);
      }
    }
  }

  lemma FitsCovers<K, V>(c: Keys<K>, s: seq<Slot<K, V>>, src: seq<Slot<K, V>>, n: nat)
    requires Fits(c, s, src, n)
    ensures Covered(c, s, KeySet(c, s) + KeySet(c, src), n)
    ensures Covered(c, src, KeySet(c, s) + KeySet(c, src), n)
  {
    forall j | 0 <= j < |s| && s[j].key != c.empty ensures s[j].key in KeySet(c, s) {
      InKeySet(c, s, s[j].key);
    }
    forall j | 0 <= j < |src| && src[j].key != c.empty ensures src[j].key in KeySet(c, src) {
      InKeySet(c, src, src[j].key);
    }
  }

  lemma MergeRoom<K, V>(c: Keys<K>, s: seq<Slot<K, V>>, b: seq<Slot<K, V>>, src: seq<Slot<K, V>>)
    requires Distinct(c, s) && Distinct(c, src)
    requires Distinct(c, b) && KeySet(c, b) == {} && |b| == |s| + MissingCount(c, s, src)
    ensures NeverFull(c, b, src) && NeverFullMissing(c, PutAll(c, b, src), s)
    ensures Distinct(c, PutMissing(c, PutAll(c, b, src), s))
  {
    hide *;
    var u := KeySet(c, s) + KeySet(c, src);
    MergeSizeFits(c, s, src);
    FitsCovers(c, s, src, |b|);
    DistinctRoom(c, b, src, u);
    MissingRoom(c, PutAll(c, b, src), s, u);
  }

  /** No insertion of a merge meets a full table. */
  ghost predicate MergeFits<K, V>(c: Keys<K>, s: seq<Slot<K, V>>, v: V, src: seq<Slot<K, V>>) {
    var b := Blank(c, |s| + MissingCount(c, s, src), v);
    NeverFull(c, b, src) && NeverFullMissing(c, PutAll(c, b, src), s)
  }

  /** The number of keys of xs that are not known. */
  ghost function NewCount<K, V>(c: Keys<K>, known: set<K>, xs: seq<Slot<K, V>>): nat {
    |KeySet(c, xs) - known|
  }

  /** The same for those entries of xs whose keys are not known yet, each key once. */
  ghost predicate HoldsNew<K, V>(c: Keys<K>, size: nat, used: nat, known: set<K>, xs: seq<Slot<K, V>>) {
    && used + NewCount(c, known, xs) <= size
    && forall i :: 0 <= i < |xs| && xs[i].key == c.empty ==> used + NewCount(c, known, xs[..i]) < size
  }

  lemma NewKeys<K, V>(c: Keys<K>, known: set<K>, xs: seq<Slot<K, V>>, i: nat)
    requires 0 < i <= |xs|
    ensures var k, rest := xs[0].key, xs[1..][..i - 1];
      NewCount(c, known, xs[..i]) ==
        if k == c.empty || k in known then NewCount(c, known, rest) else 1 + NewCount(c, known + {k}, rest)
  {
    assert xs[..i][1..] == xs[1..][..i - 1];
    var k, rest := xs[0].key, KeySet(c, xs[1..][..i - 1]);
    if k == c.empty || k in known {
      assert KeySet(c, xs[..i]) - known == rest - known;
    } else {
      assert KeySet(c, xs[..i]) - known == (rest - (known + {k})) + {k};
    }
  }

  lemma NoNewKeys<K, V>(c: Keys<K>, known: set<K>, xs: seq<Slot<K, V>>)
    requires xs == []
    ensures NewCount(c, known, xs) == 0
  {
    assert KeySet(c, xs) - known == {};
  }

  lemma HoldsNewFirst<K, V>(c: Keys<K>, size: nat, used: nat, known: set<K>, xs: seq<Slot<K, V>>)
    requires xs != []
    ensures var k := xs[0].key;
      var isNew := k != c.empty && k !in known;
      HoldsNew(c, size, used, known, xs) <==>
        && (isNew || k == c.empty ==> used < size)
        && HoldsNew(c, size, if isNew then used + 1 else used, if isNew then known + {k} else known, xs[1..])
  {
    hide NewCount;
    var k, rest := xs[0].key, xs[1..];
    var isNew := k != c.empty && k !in known;
    var used', known' := if isNew then used + 1 else used, if isNew then known + {k} else known;
    assert xs[..|xs|] == xs && rest[..|rest|] == rest;
    NoNewKeys(c, known, xs[..0]);
    NewKeys(c, known, xs, |xs|);
    if HoldsNew(c, size, used', known', rest) && (isNew || k == c.empty ==> used < size) {
      forall i | 0 <= i < |xs| && xs[i].key == c.empty
        ensures used + NewCount(c, known, xs[..i]) < size
      {
        if i > 0 {
          NewKeys(c, known, xs, i);
          assert rest[i - 1].key == c.empty;
        }
      }
    } else if HoldsNew(c, size, used, known, xs) {
      assert k == c.empty ==> used + NewCount(c, known, xs[..0]) < size;
      forall i | 0 <= i < |rest| && rest[i].key == c.empty
        ensures used' + NewCount(c, known', rest[..i]) < size
      {
        NewKeys(c, known, xs, i + 1);
        assert xs[i + 1].key == c.empty;
      }
    }
  }

  lemma PutKeys<K, V>(c: Keys<K>, t: seq<Slot<K, V>>, x: Slot<K, V>)
    requires !Full(c, t)
    ensures KeySet(c, Put(c, t, x)) == KeySet(c, t) + (if x.key == c.empty then {} else {x.key})
  {
    UpdateKeySet(c, t, Place(c, t, x.key).value, x);
  }

  /** No insertion of the missing entries meets a full table, exactly if there is place for the new keys. */
  lemma {:induction false} NeverFullMissingWhen<K, V>(c: Keys<K>, t: seq<Slot<K, V>>, xs: seq<Slot<K, V>>)
    ensures NeverFullMissing(c, t, xs) <==> HoldsNew(c, |t|, Used(c, t), KeySet(c, t), xs)
    decreases xs
  {
    hide Put, HoldsNew, KeySet, Full;
    if xs == [] {
      NothingNewHolds(c, t, xs);
    } else {
      var k := xs[0].key;
      HoldsNewFirst(c, |t|, Used(c, t), KeySet(c, t), xs);
      SearchOrKeySet(c, t, k);
      if Search(c, t, k).Some? {
        NeverFullMissingWhen(c, t, xs[1..]);
      } else if !Full(c, t) {
        PutUses(c, t, xs[0]);
        PutKeys(c, t, xs[0]);
        NeverFullMissingWhen(c, Put(c, t, xs[0]), xs[1..]);
      }
    }
  }

  lemma NothingNewHolds<K, V>(c: Keys<K>, t: seq<Slot<K, V>>, xs: seq<Slot<K, V>>)
    requires xs == []
    ensures HoldsNew(c, |t|, Used(c, t), KeySet(c, t), xs)
  {
    NoNewKeys(c, KeySet(c, t), xs);
  }

  lemma {:induction false} PutAllKeys<K, V>(c: Keys<K>, t: seq<Slot<K, V>>, xs: seq<Slot<K, V>>)
    requires NeverFull(c, t, xs)
    ensures KeySet(c, PutAll(c, t, xs)) == KeySet(c, t) + KeySet(c, xs)
    decreases xs
  {
    if xs == [] {
    } else {
      PutKeys(c, t, xs[0]);
      PutAllKeys(c, Put(c, t, xs[0]), xs[1..]);
    }
  }

  /**
   * What a bulk merge needs, counted before it: place for all entries of src, also if keys repeat, and for the
   * keys of s that src lacks; and where one of the tables has a free slot, one place left at that point.
   */
  ghost predicate HasRoom<K, V>(c: Keys<K>, s: seq<Slot<K, V>>, src: seq<Slot<K, V>>) {
    var size := |s| + MissingCount(c, s, src);
    Holds(c, size, 0, src) && HoldsNew(c, size, Used(c, src), KeySet(c, src), s)
  }

  /** No insertion of a merge meets a full table, exactly if there is that room. */
  lemma MergeFitsExactlyWhen<K, V>(c: Keys<K>, s: seq<Slot<K, V>>, v: V, src: seq<Slot<K, V>>)
    ensures MergeFits(c, s, v, src) <==> HasRoom(c, s, src)
  {
    hide Holds, HoldsNew, NeverFull, NeverFullMissing, PutAll, KeySet, Used, MissingCount, Blank;
    var n := |s| + MissingCount(c, s, src);
    var b: seq<Slot<K, V>> := Blank(c, n, v);
    BlankUses(c, n, v);
    BlankKeySet(c, n, v);
    NeverFullWhen(c, b, src);
    if NeverFull(c, b, src) {
      PutAllKeys(c, b, src);
      assert {} + KeySet(c, src) == KeySet(c, src);
      NeverFullMissingWhen(c, PutAll(c, b, src), s);
    }
  }

  /** Merging two tables with distinct keys never meets a full table, whatever their free slots. */
  lemma MergeNeverFull<K, V>(c: Keys<K>, s: seq<Slot<K, V>>, v: V, src: seq<Slot<K, V>>)
    requires Distinct(c, s) && Distinct(c, src)
    ensures MergeFits(c, s, v, src) && Distinct(c, Merge(c, s, v, src))
  {
    var b: seq<Slot<K, V>> := Blank(c, |s| + MissingCount(c, s, src), v);
    BlankKeySet(c, |b|, v);
    assert Distinct(c, b);
    hide MissingCount, PutAll, PutMissing, NeverFull, NeverFullMissing, Blank, KeySet, Distinct;
    MergeRoom(c, s, b, src);
  }

  lemma BlankKeySet<K, V>(c: Keys<K>, n: nat, v: V)
    ensures KeySet(c, Blank(c, n, v)) == {}
  {
    var b: seq<Slot<K, V>> := Blank(c, n, v);
    if KeySet(c, b) != {} {
      var k :| k in KeySet(c, b);
      InKeySet(c, b, k);
    }
  }

  lemma {:induction false} PutAllChained<K, V>(c: Keys<K>, s: seq<Slot<K, V>>, xs: seq<Slot<K, V>>)
    requires Chained(c, s)
    ensures Chained(c, PutAll(c, s, xs))
    decreases xs
  {
    if xs == [] {
    } else {
      PutChained(c, s, xs[0]);
      hide Put, Chained;
      PutAllChained(c, Put(c, s, xs[0]), xs[1..]);
    }
  }

  lemma {:induction false} PutMissingChained<K, V>(c: Keys<K>, s: seq<Slot<K, V>>, xs: seq<Slot<K, V>>)
    requires Chained(c, s)
    ensures Chained(c, PutMissing(c, s, xs))
    decreases xs
  {
    if xs == [] {
    } else {
      PutChained(c, s, xs[0]);
      hide Put, Chained;
      PutMissingChained(c, if Search(c, s, xs[0].key).None? then Put(c, s, xs[0]) else s, xs[1..]);
    }
  }

  lemma BlankChained<K, V>(c: Keys<K>, n: nat, v: V)
    ensures Chained(c, Blank(c, n, v))
  {}

  /** A rebuild closes the chains anew, whatever the table was. */
  lemma GrowChained<K, V>(c: Keys<K>, s: seq<Slot<K, V>>, v: V, x: Slot<K, V>)
    ensures Chained(c, Grow(c, s, v, x))
  {
    var b: seq<Slot<K, V>> := Blank(c, |s| + 1, v);
    BlankChained(c, |b|, v);
    assert Grow(c, s, v, x) == Put(c, PutAll(c, b, s), x);
    hide *;
    PutAllChained(c, b, s);
    PutChained(c, PutAll(c, b, s), x);
  }

  lemma MergeChained<K, V>(c: Keys<K>, s: seq<Slot<K, V>>, v: V, src: seq<Slot<K, V>>)
    ensures Chained(c, Merge(c, s, v, src))
  {
    hide Blank, MissingCount, PutAll, PutMissing, Chained;
    var b: seq<Slot<K, V>> := Blank(c, |s| + MissingCount(c, s, src), v);
    BlankChained(c, |s| + MissingCount(c, s, src), v);
    PutAllChained(c, b, src);
    PutMissingChained(c, PutAll(c, b, src), s);
  }

  lemma MergeFitsLookup<K, V>(c: Keys<K>, s: seq<Slot<K, V>>, v: V, src: seq<Slot<K, V>>, k: K)
    requires MergeFits(c, s, v, src) && k != c.empty
    ensures Lookup(c, Merge(c, s, v, src), k) == Or(FirstOf(src, k), FirstOf(s, k))
  {
    hide Blank, MissingCount, PutAll, PutMissing, Lookup, FirstOf, NeverFull, NeverFullMissing;
    var b: seq<Slot<K, V>> := Blank(c, |s| + MissingCount(c, s, src), v);
    BlankHoldsNothing(c, |s| + MissingCount(c, s, src), v, k);
    PutAllLookup(c, b, src, k);
    PutMissingLookup(c, PutAll(c, b, src), s, k);
  }

  /** After a merge the keys of src have their src values and all other keys their old ones. */
  lemma MergeLookup<K, V>(c: Keys<K>, s: seq<Slot<K, V>>, v: V, src: seq<Slot<K, V>>, k: K)
    requires Distinct(c, s) && Distinct(c, src) && k != c.empty
    ensures Chained(c, Merge(c, s, v, src))
    ensures Lookup(c, Merge(c, s, v, src), k) == Or(Lookup(c, src, k), Lookup(c, s, k))
  {
    hide *;
    MergeNeverFull(c, s, v, src);
    MergeChained(c, s, v, src);
    MergeFitsLookup(c, s, v, src, k);
    DistinctFirst(c, s, k);
    DistinctFirst(c, src, k);
  }

  lemma GrowDistinct<K, V>(c: Keys<K>, s: seq<Slot<K, V>>, v: V, x: Slot<K, V>)
    requires Distinct(c, s + [x])
    ensures Distinct(c, Grow(c, s, v, x))
  {
    var b: seq<Slot<K, V>> := Blank(c, |s| + 1, v);
    GrowNeverFull(c, s, v, x);
    PutAllSnoc(c, b, s, x);
    BlankKeySet(c, |b|, v);
    assert Distinct(c, b);
    hide PutAll, Put, Blank, KeySet, Distinct;
    PutAllDistinct(c, b, s + [x]);
  }

  lemma ForceInDistinct<K, V>(c: Keys<K>, s: seq<Slot<K, V>>, v: V, x: Slot<K, V>)
    requires Distinct(c, s)
    ensures Distinct(c, ForceIn(c, s, v, x))
  {
    hide Grow;
    if Search(c, s, x.key).None? {
      assert Distinct(c, s + [x]);
      GrowDistinct(c, s, v, x);
    }
  }

  lemma {:induction false} PutAllDistinct<K, V>(c: Keys<K>, t: seq<Slot<K, V>>, xs: seq<Slot<K, V>>)
    requires Distinct(c, t) && Distinct(c, xs) && NeverFull(c, t, xs)
    requires forall j :: 0 <= j < |xs| ==> xs[j].key !in KeySet(c, t)
    ensures Distinct(c, PutAll(c, t, xs))
    decreases xs
  {
    if xs != [] {
      InKeySet(c, t, xs[0].key);
      PutDistinct(c, t, xs[0]);
      hide Put;
      PutAllDistinct(c, Put(c, t, xs[0]), xs[1..]);
    }
  }

  // --- Runs ---------------------------------------------------------------------------------

  /** The calls that change a table: a hashed insert, a force_in of one entry, a force_in of a table. */
  datatype Call<K, V> = InsertCall(x: Slot<K, V>) | ForceCall(x: Slot<K, V>) | MergeCall(src: seq<Slot<K, V>>)

  function Apply<K(==), V>(c: Keys<K>, s: seq<Slot<K, V>>, v: V, call: Call<K, V>): seq<Slot<K, V>> {
    match call
    case InsertCall(x) => Put(c, s, x)
    case ForceCall(x) => ForceIn(c, s, v, x)
    case MergeCall(src) => Merge(c, s, v, src)
  }

  function Run<K(==), V>(c: Keys<K>, s: seq<Slot<K, V>>, v: V, calls: seq<Call<K, V>>): seq<Slot<K, V>>
    decreases calls
  {
    if calls == [] then s else Run(c, Apply(c, s, v, calls[0]), v, calls[1..])
  }

  lemma CallChained<K, V>(c: Keys<K>, s: seq<Slot<K, V>>, v: V, call: Call<K, V>)
    requires Chained(c, s)
    ensures Chained(c, Apply(c, s, v, call))
  {
    match call {
      case InsertCall(x) => PutChained(c, s, x);
      case ForceCall(x) =>
        GrowChained(c, s, v, x);
        if Search(c, s, x.key).Some? {
          SetValueLookup(c, s, x, x.key);
        }
      case MergeCall(src) => MergeChained(c, s, v, src);
    }
    hide Chained, Put, Grow, Merge, Search;
  }

  /** Over every run of inserts and force_ins of both kinds the probe chains stay closed. */
  lemma {:induction false} RunChained<K, V>(c: Keys<K>, s: seq<Slot<K, V>>, v: V, calls: seq<Call<K, V>>)
    requires Chained(c, s)
    ensures Chained(c, Run(c, s, v, calls))
    decreases calls
  {
    hide Chained, Apply;
    if calls == [] {
    } else {
      CallChained(c, s, v, calls[0]);
      RunChained(c, Apply(c, s, v, calls[0]), v, calls[1..]);
    }
  }

  // --- Keys that occur twice ----------------------------------------------------------------

  /** All copies of k stand below its home slot, or all stand at or after it. */
  ghost predicate OneSided<K, V>(c: Keys<K>, s: seq<Slot<K, V>>, k: K) {
    forall i, j :: 0 <= i < |s| && 0 <= j < |s| && s[i].key == k && s[j].key == k ==>
      (i < Home(c, k, |s|) <==> j < Home(c, k, |s|))
  }

  /** Slot i is the lowest one with the key k. */
  ghost predicate Lowest<K, V>(s: seq<Slot<K, V>>, k: K, i: nat) {
    i < |s| && s[i].key == k && forall j :: 0 <= j < i ==> s[j].key != k
  }

  lemma {:induction false} FirstOfLowest<K, V>(s: seq<Slot<K, V>>, k: K, i: nat)
    requires Lowest(s, k, i)
    ensures FirstOf(s, k) == Some(s[i].value)
  {
    if i == 0 {
    } else {
      assert forall j :: 0 <= j < i ==> s[1..][j] == s[j + 1];
      FirstOfLowest(s[1..], k, i - 1);
    }
  }

  lemma LowestExists<K, V>(s: seq<Slot<K, V>>, k: K, i: nat) returns (low: nat)
    requires i < |s| && s[i].key == k
    ensures Lowest(s, k, low)
  {
    low := 0;
    while s[low].key != k
      invariant low <= i && forall j :: 0 <= j < low ==> s[j].key != k
      decreases |s| - low
    {
      low := low + 1;
    }
  }

  /** The copy that a search finds is the one in the lowest slot exactly if the copies are on one side of the home. */
  lemma FoundIsLowest<K, V>(c: Keys<K>, s: seq<Slot<K, V>>, k: K, low: nat)
    requires Lowest(s, k, low)
    ensures Search(c, s, k).Some? && (Search(c, s, k).value == low <==> OneSided(c, s, k))
  {
    var h := Home(c, k, |s|);
    var found := Search(c, s, k).value;
    ProbeFirst(s, h, k, 0);
    assert low <= found;
    if OneSided(c, s, k) {
      assert low < h <==> found < h;
    } else {
      var i, j :| 0 <= i < |s| && 0 <= j < |s| && s[i].key == k && s[j].key == k && i < h <= j;
      assert Rank(|s|, h, found) <= Rank(|s|, h, j);
      assert low <= i < h <= found;
    }
  }

  lemma OneSidedFirst<K, V>(c: Keys<K>, s: seq<Slot<K, V>>, k: K)
    requires OneSided(c, s, k)
    ensures FirstOf(s, k) == Lookup(c, s, k)
  {
    FirstOfFound(s, k);
    if Search(c, s, k).Some? {
      var low := LowestExists(s, k, Search(c, s, k).value);
      FirstOfLowest(s, k, low);
      FoundIsLowest(c, s, k, low);
    }
  }

  /**
   * A rebuild by one finds the copy that stood in the lowest slot.  That is the copy found before exactly if
   * all copies stood on one side of the home of the key.
   */
  lemma RebuildFindsLowest<K, V>(c: Keys<K>, s: seq<Slot<K, V>>, v: V, x: Slot<K, V>, k: K, low: nat)
    requires Chained(c, s) && k != c.empty && x.key != k && Search(c, s, x.key).None? && Lowest(s, k, low)
    ensures Lookup(c, ForceIn(c, s, v, x), k) == Some(s[low].value)
    ensures Search(c, s, k).Some? && (Search(c, s, k).value == low <==> OneSided(c, s, k))
  {
    ForceInLookup(c, s, v, x, k);
    FirstOfLowest(s, k, low);
    FoundIsLowest(c, s, k, low);
    hide Chained, ForceIn, OneSided;
  }

  /** Such a table: the insertion of a key that is there wraps around, and a rebuild then finds the later copy. */
  lemma RebuildReorders()
    ensures
      var c: Keys<int> := Keys(k => if k < 0 then 0 else k, 0);
      var s := Put(c, Put(c, Blank(c, 2, 0), Slot(1, 10)), Slot(1, 20));
      && Chained(c, s) && Lookup(c, s, 1) == Some(10)
      && Lookup(c, ForceIn(c, s, 0, Slot(2, 30)), 1) == Some(20)
  {
    var c: Keys<int> := Keys(k => if k < 0 then 0 else k, 0);
    var s := Put(c, Put(c, Blank(c, 2, 0), Slot(1, 10)), Slot(1, 20));
    assert s == [Slot(1, 20), Slot(1, 10)];
    RebuildFindsLowest(c, s, 0, Slot(2, 30), 1, 0);
    assert Search(c, s, 2) == None;
    assert Lookup(c, s, 1) == Some(10);
  }

  // --- The map of a run ---------------------------------------------------------------------

  /** A merge of tables with keys that occur twice can fail for lack of place. */
  lemma DuplicatesOverflowMerge()
    ensures
      var c: Keys<int> := Keys(k => if k < 0 then 0 else k, 0);
      !MergeFits(c, [Slot(1, 10)], 0, [Slot(1, 20), Slot(1, 30)])
  {
    var c: Keys<int> := Keys(k => if k < 0 then 0 else k, 0);
    var src := [Slot(1, 20), Slot(1, 30)];
    assert Search(c, [Slot(1, 10)], 1) == Some(0);
    assert src[1..] == [Slot(1, 30)] && src[1..][1..] == [];
    var b := Blank(c, 1, 0);
    assert Put(c, b, src[0]) == [Slot(1, 20)];
    assert !NeverFull(c, b, src);
  }

  /** The call fits, and the found copy of k survives it: at a rebuild the copies of k are on one side. */
  ghost predicate Settled<K, V>(c: Keys<K>, s: seq<Slot<K, V>>, call: Call<K, V>, k: K) {
    match call
    case InsertCall(_) => true
    case ForceCall(x) => x.key == k || Search(c, s, x.key).Some? || OneSided(c, s, k)
    case MergeCall(src) => HasRoom(c, s, src) && OneSided(c, s, k)
  }

  ghost predicate SettledRun<K, V>(c: Keys<K>, s: seq<Slot<K, V>>, v: V, calls: seq<Call<K, V>>, k: K)
    decreases calls
  {
    calls == [] || (Settled(c, s, calls[0], k) && SettledRun(c, Apply(c, s, v, calls[0]), v, calls[1..], k))
  }

  /** What a call makes of the value of k: between rebuilds the first inserted copy wins. */
  function Effect<K(==), V>(c: Keys<K>, s: seq<Slot<K, V>>, call: Call<K, V>, k: K, before: Option<V>): Option<V> {
    match call
    case InsertCall(x) => if x.key == k && before.None? && Place(c, s, k).Some? then Some(x.value) else before
    case ForceCall(x) => if x.key == k then Some(x.value) else before
    case MergeCall(src) => Or(FirstOf(src, k), before)
  }

  /** The value of k after the calls, if it is before at the start. */
  function Meaning<K(==), V>(
    c: Keys<K>, s: seq<Slot<K, V>>, v: V, calls: seq<Call<K, V>>, k: K, before: Option<V>): Option<V>
    decreases calls
  {
    if calls == [] then before
    else Meaning(c, Apply(c, s, v, calls[0]), v, calls[1..], k, Effect(c, s, calls[0], k, before))
  }

  lemma InsertIsMap<K, V>(c: Keys<K>, s: seq<Slot<K, V>>, x: Slot<K, V>, k: K)
    requires Chained(c, s) && k != c.empty
    ensures Lookup(c, Put(c, s, x), k) == Effect(c, s, InsertCall(x), k, Lookup(c, s, k))
  {
    if Full(c, s) {
      assert Place(c, s, x.key).None? && Place(c, s, k).None?;
    } else {
      PutLookup(c, s, x, k);
    }
    hide Chained, Put, Lookup;
  }

  lemma ApplyIsMap<K, V>(c: Keys<K>, s: seq<Slot<K, V>>, v: V, call: Call<K, V>, k: K)
    requires Chained(c, s) && k != c.empty && Settled(c, s, call, k)
    ensures Lookup(c, Apply(c, s, v, call), k) == Effect(c, s, call, k, Lookup(c, s, k))
  {
    match call {
      case InsertCall(x) => InsertIsMap(c, s, x, k);
      case ForceCall(x) =>
        ForceInLookup(c, s, v, x, k);
        if OneSided(c, s, k) {
          OneSidedFirst(c, s, k);
        }
      case MergeCall(src) =>
        MergeFitsExactlyWhen(c, s, v, src);
        MergeFitsLookup(c, s, v, src, k);
        OneSidedFirst(c, s, k);
    }
    hide Chained, OneSided, MergeFits, HasRoom, ForceIn, Merge, FirstOf, Put, Place;
  }

  /**
   * Over every run of inserts and force_ins the table is a map: as long as no rebuild meets copies of k on both
   * sides of its home, the value of k is the one that the calls mean.
   */
  lemma {:induction false} RunIsMap<K, V>(c: Keys<K>, s: seq<Slot<K, V>>, v: V, calls: seq<Call<K, V>>, k: K)
    requires Chained(c, s) && k != c.empty && SettledRun(c, s, v, calls, k)
    ensures Lookup(c, Run(c, s, v, calls), k) == Meaning(c, s, v, calls, k, Lookup(c, s, k))
    decreases calls
  {
    hide Chained, Settled, Apply, Lookup, Effect;
    if calls == [] {
    } else {
      ApplyIsMap(c, s, v, calls[0], k);
      CallChained(c, s, v, calls[0]);
      RunIsMap(c, Apply(c, s, v, calls[0]), v, calls[1..], k);
    }
  }

  /** The call makes no second copy of a key: an insert adds a new key, and a merged table has distinct ones. */
  ghost predicate KeepsDistinct<K, V>(c: Keys<K>, s: seq<Slot<K, V>>, call: Call<K, V>) {
    match call
    case InsertCall(x) => x.key == c.empty || Search(c, s, x.key).None? || Full(c, s)
    case ForceCall(_) => true
    case MergeCall(src) => Distinct(c, src)
  }

  ghost predicate DistinctRun<K, V>(c: Keys<K>, s: seq<Slot<K, V>>, v: V, calls: seq<Call<K, V>>)
    decreases calls
  {
    calls == [] || (KeepsDistinct(c, s, calls[0]) && DistinctRun(c, Apply(c, s, v, calls[0]), v, calls[1..]))
  }

  lemma DistinctSettled<K, V>(c: Keys<K>, s: seq<Slot<K, V>>, v: V, call: Call<K, V>, k: K)
    requires Distinct(c, s) && KeepsDistinct(c, s, call) && k != c.empty
    ensures Settled(c, s, call, k) && Distinct(c, Apply(c, s, v, call))
  {
    assert OneSided(c, s, k);
    match call {
      case InsertCall(x) =>
        if !Full(c, s) {
          PutDistinct(c, s, x);
        }
      case ForceCall(x) => ForceInDistinct(c, s, v, x);
      case MergeCall(src) =>
        MergeNeverFull(c, s, v, src);
        MergeFitsExactlyWhen(c, s, v, src);
    }
    hide OneSided, Distinct, ForceIn, Merge, Search, Put, MergeFits, HasRoom;
  }

  lemma {:induction false} DistinctRunSettles<K, V>(c: Keys<K>, s: seq<Slot<K, V>>, v: V, calls: seq<Call<K, V>>, k: K)
    requires Distinct(c, s) && DistinctRun(c, s, v, calls) && k != c.empty
    ensures SettledRun(c, s, v, calls, k) && Distinct(c, Run(c, s, v, calls))
    decreases calls
  {
    hide Distinct, Settled, Apply, KeepsDistinct;
    if calls == [] {
    } else {
      DistinctSettled(c, s, v, calls[0], k);
      DistinctRunSettles(c, Apply(c, s, v, calls[0]), v, calls[1..], k);
    }
  }

  /** From distinct keys, calls that make no second copy keep the table a map for every key, without condition. */
  lemma DistinctRunIsMap<K, V>(c: Keys<K>, s: seq<Slot<K, V>>, v: V, calls: seq<Call<K, V>>, k: K)
    requires Chained(c, s) && Distinct(c, s) && DistinctRun(c, s, v, calls) && k != c.empty
    ensures Chained(c, Run(c, s, v, calls)) && Distinct(c, Run(c, s, v, calls))
    ensures Lookup(c, Run(c, s, v, calls), k) == Meaning(c, s, v, calls, k, Lookup(c, s, k))
  {
    hide *;
    DistinctRunSettles(c, s, v, calls, k);
    RunIsMap(c, s, v, calls, k);
    RunChained(c, s, v, calls);
  }
}
