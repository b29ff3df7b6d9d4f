/**
 * The open-addressing table of El/Hash/Map.hpp.  Every method is proved against the functions of
 * Probing.dfy; what those functions mean for a caller is proved there.
 */
module HashMap {

  import opened Wrappers
  import opened Probing
  import L = LightArray

  datatype Inserted = InSlot(index: nat) | NoElementsReserved | NoMorePlace

  class Map<K(==), V> {
    const keyValues: L.LightArray<Slot<K, V>>
    const keys: Keys<K>
    /** A default-constructed value. */
    const blank: V

    ghost predicate Valid()
      reads this, keyValues
    {
      keyValues.Valid()
    }

    ghost function Slots(): (s: seq<Slot<K, V>>)
      reads this, keyValues, keyValues.elements
      requires Valid()
      ensures |s| == keyValues.size
    {
      keyValues.Contents()
    }

    constructor (keys: Keys<K>, blank: V, count: nat)
      ensures Valid() && fresh(keyValues) && fresh(keyValues.elements)
      ensures this.keys == keys && this.blank == blank
      ensures Slots() == Blank(keys, count, blank)
    {
      this.keys := keys;
      this.blank := blank;
      this.keyValues := new L.LightArray<Slot<K, V>>();
      new;
      Resize(count);
    }

    /** Resize to count slots, all of them free.  An empty table gets blank values. */
    method Resize(count: nat)
      requires Valid()
      modifies keyValues, keyValues.elements
      ensures Valid() && (keyValues.elements == old(keyValues.elements) || fresh(keyValues.elements))
      ensures |Slots()| == count && forall i :: 0 <= i < count ==> Slots()[i].key == keys.empty
      ensures old(|Slots()|) == 0 ==> Slots() == Blank(keys, count, blank)
    {
      keyValues.Resize(count, false, Slot(keys.empty, blank));
      for i := 0 to count
        invariant Valid() && |Slots()| == count
        invariant keyValues.elements == old(keyValues.elements) || fresh(keyValues.elements)
        invariant forall j :: 0 <= j < i ==> Slots()[j].key == keys.empty
        invariant old(|Slots()|) == 0 ==> Slots() == Blank(keys, count, blank)
      {
        keyValues.elements[i] := Slot(keys.empty, keyValues.elements[i].value);
      }
    }

    /** Look at every slot, starting from the home of the key and wrapping around. */
    method Find(key: K) returns (o: Option<nat>)
      requires Valid()
      ensures o == Search(keys, Slots(), key)
    {
      var n := keyValues.size;
      if n == 0 {
        return None;
      }
      var index := Home(keys, key, n);
      o := Scan(index, key);
    }

    /** The two loops of find and of insert: from index to the end, then from the start to index. */
    method Scan(index: nat, key: K) returns (o: Option<nat>)
      requires Valid() && index < keyValues.size
      ensures o == Probe(Slots(), index, key, 0)
    {
      var n := keyValues.size;
      ghost var s := Slots();
      hide Probe;
      for i := index to n
        invariant Probe(s, index, key, 0) == Probe(s, index, key, i - index)
      {
        if keyValues.elements[i].key == key {
          ProbeHere(s, index, key, i);
          return Some(i);
        }
        ProbePast(s, index, key, i);
      }
      for i := 0 to index
        invariant Probe(s, index, key, 0) == Probe(s, index, key, n - index + i)
      {
        if keyValues.elements[i].key == key {
          ProbeHere(s, index, key, i);
          return Some(i);
        }
        ProbePast(s, index, key, i);
      }
      ProbeEnd(s, index, key);
      o := None;
    }

    method Insert(key: K, value: V) returns (r: Inserted)
      requires Valid()
      modifies keyValues.elements
      ensures Valid()
      ensures Slots() == Put(keys, old(Slots()), Slot(key, value))
      ensures r == if old(Slots()) == [] then NoElementsReserved
                   else match Place(keys, old(Slots()), key) case Some(i) => InSlot(i) case None => NoMorePlace
    {
      var n := keyValues.size;
      if n == 0 {
        return NoElementsReserved;
      }
      var o := Scan(Home(keys, key, n), keys.empty);
      match o {
        case Some(i) =>
          keyValues.elements[i] := Slot(key, value);
          assert Slots() == old(Slots())[i := Slot(key, value)];
          r := InSlot(i);
        case None =>
          r := NoMorePlace;
      }
    }

    /** Set the value of a key that is found; otherwise rebuild the table with one slot more. */
    method ForceIn(key: K, value: V) returns (r: Inserted)
      requires Valid()
      modifies keyValues, keyValues.elements
      ensures Valid()
      ensures Slots() == Probing.ForceIn(keys, old(Slots()), blank, Slot(key, value))
      ensures r.InSlot?
    {
      var o := Find(key);
      if o.Some? {
        var i := o.value;
        keyValues.elements[i] := Slot(keyValues.elements[i].key, value);
        assert Slots() == old(Slots())[i := Slot(old(Slots())[i].key, value)];
        return InSlot(i);
      }
      ghost var s := Slots();
      GrowNeverFull(keys, s, blank, Slot(key, value));
      var current := new L.LightArray<Slot<K, V>>();
      keyValues.Release(current);
      Resize(current.size + 1);
      var moved := InsertAll(current);
      r := Insert(key, value);
    }

    /** The rebuilding loop: insert the slots of xs in order, up to the first insertion that fails. */
    method InsertAll(xs: L.LightArray<Slot<K, V>>) returns (ok: bool)
      requires Valid() && xs.Valid()
      requires xs != keyValues && xs.elements != keyValues.elements
      modifies keyValues.elements
      ensures Valid() && Slots() == PutAll(keys, old(Slots()), xs.Contents())
      ensures ok <==> NeverFull(keys, old(Slots()), xs.Contents())
      ensures !ok ==> Full(keys, Slots())
    {
      ghost var b, s := Slots(), xs.Contents();
      hide PutAll, Put;
      for i := 0 to xs.size
        invariant Valid() && xs.Contents() == s
        invariant PutAll(keys, b, s) == PutAll(keys, Slots(), s[i..])
        invariant NeverFull(keys, b, s) <==> NeverFull(keys, Slots(), s[i..])
      {
        PutAllStep(keys, Slots(), s, i);
        ghost var before := Slots();
        var inserted := Insert(xs.elements[i].key, xs.elements[i].value);
        if !inserted.InSlot? {
          FullStays(keys, before, s[i..]);
          PutOne(keys, before, s[i]);
          return false;
        }
      }
      PutAllDone(keys, Slots(), s);
      ok := true;
    }

    /** The last loop of a merge: insert the slots of xs whose key is not found, up to the first failure. */
    method InsertMissing(xs: L.LightArray<Slot<K, V>>) returns (ok: bool)
      requires Valid() && xs.Valid()
      requires xs != keyValues && xs.elements != keyValues.elements
      modifies keyValues.elements
      ensures Valid() && Slots() == PutMissing(keys, old(Slots()), xs.Contents())
      ensures ok <==> NeverFullMissing(keys, old(Slots()), xs.Contents())
    {
      ghost var b, s := Slots(), xs.Contents();
      hide PutMissing, Put;
      for i := 0 to xs.size
        invariant Valid() && xs.Contents() == s
        invariant PutMissing(keys, b, s) == PutMissing(keys, Slots(), s[i..])
        invariant NeverFullMissing(keys, b, s) <==> NeverFullMissing(keys, Slots(), s[i..])
      {
        PutMissingStep(keys, Slots(), s, i);
        var o := Find(xs.elements[i].key);
        if o.None? {
          ghost var before := Slots();
          var inserted := Insert(xs.elements[i].key, xs.elements[i].value);
          if !inserted.InSlot? {
            FullStays(keys, before, s[i..]);
            PutOne(keys, before, s[i]);
            return false;
          }
        }
      }
      PutMissingDone(keys, Slots(), s);
      ok := true;
    }

    /** The first loop of a merge: the number of slots of src whose key is not found. */
    method CountMissing(src: Map<K, V>) returns (increment: nat)
      requires Valid() && src.Valid()
      ensures increment == MissingCount(keys, Slots(), src.Slots())
    {
      ghost var s, other := Slots(), src.Slots();
      increment := 0;
      for i := 0 to src.keyValues.size
        invariant increment + MissingCount(keys, s, other[i..]) == MissingCount(keys, s, other)
      {
        assert other[i..][0] == other[i] && other[i..][1..] == other[i + 1..];
        var o := Find(src.keyValues.elements[i].key);
        if o.None? {
          increment := increment + 1;
        }
      }
      assert other[|other|..] == [];
    }

    /** The two insertion loops of a merge. */
    method InsertBoth(src: L.LightArray<Slot<K, V>>, xs: L.LightArray<Slot<K, V>>) returns (ok: bool)
      requires Valid() && src.Valid() && xs.Valid()
      requires src != keyValues && src.elements != keyValues.elements
      requires xs != keyValues && xs.elements != keyValues.elements
      modifies keyValues.elements
      ensures Valid() && Slots() == PutMissing(keys, PutAll(keys, old(Slots()), src.Contents()), xs.Contents())
      ensures ok ==> NeverFull(keys, old(Slots()), src.Contents())
      ensures NeverFull(keys, old(Slots()), src.Contents()) ==>
        (ok <==> NeverFullMissing(keys, PutAll(keys, old(Slots()), src.Contents()), xs.Contents()))
    {
      hide PutAll, PutMissing, NeverFull, NeverFullMissing, Full;
      ok := InsertAll(src);
      if ok {
        ok := InsertMissing(xs);
      } else {
        FullStays(keys, Slots(), xs.Contents());
      }
    }

    /**
     * Merge another table: rebuild with room for its new keys, put its entries, then those not found.  It fails
     * exactly if keys repeat so often that there is no room; the entries that found no place are then lost.
     */
    method ForceInAll(src: Map<K, V>) returns (ok: bool)
      requires Valid() && src.Valid()
      requires src.keyValues != keyValues && src.keyValues.elements != keyValues.elements
      modifies keyValues, keyValues.elements
      ensures Valid() && Slots() == Merge(keys, old(Slots()), blank, old(src.Slots()))
      ensures ok <==> HasRoom(keys, old(Slots()), old(src.Slots()))
      ensures src.Valid() && src.Slots() == old(src.Slots())
    {
      hide PutAll, PutMissing, MissingCount, NeverFull, NeverFullMissing, HasRoom;
      MergeFitsExactlyWhen(keys, Slots(), blank, src.Slots());
      var increment := CountMissing(src);
      var current := new L.LightArray<Slot<K, V>>();
      keyValues.Release(current);
      Resize(current.size + increment);
      ok := InsertBoth(src.keyValues, current);
    }
  }
}
