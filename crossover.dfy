/** crossover of the dict-grid engine (timetable.py:91-105): both
    timetables are listed as items sorted by key, the lists are spliced at
    the drawn point, and the spliced lists are turned back into
    dictionaries. */
module DictCrossover {
  import opened DictGrid
  import opened Seqs

  /** Python's order on (day, time_slot) tuples. Items of one dictionary
      have distinct keys, so sorting the items compares keys only. */
  predicate KeyLess(a: Key, b: Key)
  {
    a.0 < b.0 || (a.0 == b.0 && a.1 < b.1)
  }

  predicate KeyAtMost(a: Key, b: Key)
  {
    a == b || KeyLess(a, b)
  }

  lemma {:induction false} LeastKeyExists(keys: set<Key>)
    requires keys != {}
    ensures exists m :: m in keys && forall k :: k in keys ==> KeyAtMost(m, k)
    decreases |keys|
  {
    var x :| x in keys;
    if keys != {x} {
      var rest := keys - {x};
      LeastKeyExists(rest);
      var m :| m in rest && forall k :: k in rest ==> KeyAtMost(m, k);
      var least := if KeyLess(x, m) then x else m;
      forall k | k in keys ensures KeyAtMost(least, k) {
        if k != x {
          assert KeyAtMost(m, k);
        }
      }
    } else {
      assert forall k :: k in keys ==> KeyAtMost(x, k);
    }
  }

  function LeastKey(keys: set<Key>): (m: Key)
    requires keys != {}
    ensures m in keys && forall k :: k in keys ==> KeyAtMost(m, k)
  {
    LeastKeyExists(keys);
    var m :| m in keys && forall k :: k in keys ==> KeyAtMost(m, k);
    m
  }

  /** The keys of sorted(timetable.items()), in order. */
  function SortedKeys(keys: set<Key>): seq<Key>
    decreases |keys|
  {
    if keys == {} then []
    else
      var m := LeastKey(keys);
      [m] + SortedKeys(keys - {m})
  }

  /** As many keys as the set has, each from the set, in strictly
      increasing order (so each key at most once). */
  lemma {:induction false} SortedKeysFacts(keys: set<Key>)
    ensures |SortedKeys(keys)| == |keys|
    ensures forall i :: 0 <= i < |SortedKeys(keys)| ==> SortedKeys(keys)[i] in keys
    ensures forall a, b :: 0 <= a < b < |SortedKeys(keys)| ==> KeyLess(SortedKeys(keys)[a], SortedKeys(keys)[b])
    decreases |keys|
  {
    if keys != {} {
      var m := LeastKey(keys);
      var rest := SortedKeys(keys - {m});
      SortedKeysFacts(keys - {m});
      assert SortedKeys(keys) == [m] + rest;
      forall b | 0 <= b < |rest| ensures KeyLess(m, rest[b]) {
        assert rest[b] in keys - {m};
      }
    }
  }

  /** Every key of the set is listed. */
  lemma {:induction false} SortedKeysComplete(keys: set<Key>, k: Key)
    requires k in keys
    ensures exists i :: 0 <= i < |SortedKeys(keys)| && SortedKeys(keys)[i] == k
    decreases |keys|
  {
    var m := LeastKey(keys);
    assert SortedKeys(keys) == [m] + SortedKeys(keys - {m});
    if k != m {
      SortedKeysComplete(keys - {m}, k);
      var i :| 0 <= i < |SortedKeys(keys - {m})| && SortedKeys(keys - {m})[i] == k;
      assert SortedKeys(keys)[i + 1] == k;
    } else {
      assert SortedKeys(keys)[0] == k;
    }
  }

  type Item = (Key, Cell)

  /** sorted(timetable.items()). */
  function SortedItems(t: Timetable): (r: seq<Item>)
    ensures |r| == |SortedKeys(t.Keys)|
    ensures forall i :: 0 <= i < |r| ==> r[i].0 == SortedKeys(t.Keys)[i] && r[i].0 in t && r[i].1 == t[r[i].0]
  {
    var ks := SortedKeys(t.Keys);
    SortedKeysFacts(t.Keys);
    assert forall i :: 0 <= i < |ks| ==> ks[i] in t;
    seq(|ks|, i requires 0 <= i < |ks| => (ks[i], t[ks[i]]))
  }

  /** dict(items): later items overwrite earlier ones with the same key. */
  function DictOf(items: seq<Item>): Timetable
  {
    if items == [] then map[] else DictOf(items[..|items| - 1])[items[|items| - 1].0 := items[|items| - 1].1]
  }

  /** Every key of dict(items) is the key of some item. */
  lemma {:induction false} DictOfKeys(items: seq<Item>)
    ensures forall k :: k in DictOf(items) ==> exists i :: 0 <= i < |items| && items[i].0 == k
  {
    if items != [] {
      var init := items[..|items| - 1];
      DictOfKeys(init);
      assert DictOf(items) == DictOf(init)[items[|items| - 1].0 := items[|items| - 1].1];
      forall k | k in DictOf(items) ensures exists i :: 0 <= i < |items| && items[i].0 == k {
        if k != items[|items| - 1].0 {
          assert k in DictOf(init);
          var i :| 0 <= i < |init| && init[i].0 == k;
          assert items[i].0 == k;
        }
      }
    }
  }

  predicate DistinctKeys(items: seq<Item>)
  {
    forall a, b :: 0 <= a < b < |items| ==> items[a].0 != items[b].0
  }

  /** A list with distinct keys becomes the dictionary of exactly its keys,
      each mapped to its own value. */
  lemma {:induction false} DictOfDistinct(items: seq<Item>)
    requires DistinctKeys(items)
    ensures forall k :: k in DictOf(items) <==> exists i :: 0 <= i < |items| && items[i].0 == k
    ensures forall i :: 0 <= i < |items| ==> DictOf(items)[items[i].0] == items[i].1
  {
    if items != [] {
      var init := items[..|items| - 1];
      assert DistinctKeys(init) by {
        forall a, b | 0 <= a < b < |init| ensures init[a].0 != init[b].0 {
          assert init[a] == items[a] && init[b] == items[b];
        }
      }
      DictOfDistinct(init);
      forall k ensures k in DictOf(items) <==> exists i :: 0 <= i < |items| && items[i].0 == k {
        if k in DictOf(init) {
          var i :| 0 <= i < |init| && init[i].0 == k;
          assert items[i].0 == k;
        }
        if exists i :: 0 <= i < |items| && items[i].0 == k {
          var i :| 0 <= i < |items| && items[i].0 == k;
          if i < |init| { assert init[i].0 == k; }
        }
      }
      forall i | 0 <= i < |items| ensures DictOf(items)[items[i].0] == items[i].1 {
        if i < |init| {
          assert init[i] == items[i];
          assert items[i].0 != items[|items| - 1].0;
        }
      }
    }
  }

  /** dict(first[:point] + second[point:]). */
  function Child(first: seq<Item>, second: seq<Item>, point: nat): Timetable
  {
    DictOf(Take(first, point) + Drop(second, point))
  }

  /** crossover(timetable1, timetable2) with the point random.randint(1,
      len(timetable1_list) - 1) drawn as a parameter. */
  function Crossover(timetable1: Timetable, timetable2: Timetable, crossoverPoint: nat): (Timetable, Timetable)
    requires 1 <= crossoverPoint < |timetable1.Keys|
  {
    var timetable1List, timetable2List := SortedItems(timetable1), SortedItems(timetable2);
    (Child(timetable1List, timetable2List, crossoverPoint), Child(timetable2List, timetable1List, crossoverPoint))
  }

  /** For parents with any key sets, every key of either child is a key
      of a parent: splicing the sorted item lists makes no key up. */
  lemma CrossoverKeysFromParents(timetable1: Timetable, timetable2: Timetable, crossoverPoint: nat)
    requires 1 <= crossoverPoint < |timetable1.Keys|
    ensures var r := Crossover(timetable1, timetable2, crossoverPoint);
      forall k :: k in r.0 || k in r.1 ==> k in timetable1 || k in timetable2
  {
    var l1, l2 := SortedItems(timetable1), SortedItems(timetable2);
    var c1, c2 := Take(l1, crossoverPoint) + Drop(l2, crossoverPoint), Take(l2, crossoverPoint) + Drop(l1, crossoverPoint);
    DictOfKeys(c1);
    DictOfKeys(c2);
    forall i | 0 <= i < |c1| ensures c1[i].0 in timetable1 || c1[i].0 in timetable2 {
      if i < |Take(l1, crossoverPoint)| { assert c1[i] == l1[i]; } else { assert c1[i] == Drop(l2, crossoverPoint)[i - |Take(l1, crossoverPoint)|]; }
    }
    forall i | 0 <= i < |c2| ensures c2[i].0 in timetable1 || c2[i].0 in timetable2 {
      if i < |Take(l2, crossoverPoint)| { assert c2[i] == l2[i]; } else { assert c2[i] == Drop(l1, crossoverPoint)[i - |Take(l2, crossoverPoint)|]; }
    }
    assert Crossover(timetable1, timetable2, crossoverPoint) == (DictOf(c1), DictOf(c2));
  }

  /** Two item lists over the same distinct keys ks, spliced at the point:
      the dictionary maps every ks[i] to the value of the first list below
      the point and of the second from it on, and has no other key. */
  lemma {:induction false} SpliceItems(l1: seq<Item>, l2: seq<Item>, ks: seq<Key>, point: nat)
    requires |l1| == |ks| && |l2| == |ks| && point <= |ks|
    requires forall i :: 0 <= i < |ks| ==> l1[i].0 == ks[i] && l2[i].0 == ks[i]
    requires forall a, b :: 0 <= a < b < |ks| ==> ks[a] != ks[b]
    ensures forall i :: 0 <= i < |ks| ==>
      ks[i] in Child(l1, l2, point) && Child(l1, l2, point)[ks[i]] == (if i < point then l1[i].1 else l2[i].1)
    ensures forall k :: k in Child(l1, l2, point) ==> exists i :: 0 <= i < |ks| && ks[i] == k
  {
    var c := Take(l1, point) + Drop(l2, point);
    assert |c| == |ks|;
    forall i | 0 <= i < |ks| ensures c[i] == (if i < point then l1[i] else l2[i]) {
    }
    assert DistinctKeys(c) by {
      forall a, b | 0 <= a < b < |c| ensures c[a].0 != c[b].0 {
        assert c[a].0 == ks[a] && c[b].0 == ks[b];
      }
    }
    DictOfDistinct(c);
    forall i | 0 <= i < |ks| ensures ks[i] in DictOf(c) {
      assert c[i].0 == ks[i];
    }
  }

  /** The parents' item lists over one key set: both are the sorted keys
      paired with each parent's cells. */
  lemma ItemsOverKeys(timetable1: Timetable, timetable2: Timetable)
    requires timetable1.Keys == timetable2.Keys
    ensures var ks, l1, l2 := SortedKeys(timetable1.Keys), SortedItems(timetable1), SortedItems(timetable2);
      && |ks| == |timetable1.Keys| && |l1| == |ks| && |l2| == |ks|
      && (forall i :: 0 <= i < |ks| ==> l1[i].0 == ks[i] && l2[i].0 == ks[i])
      && (forall i :: 0 <= i < |ks| ==> ks[i] in timetable1 && ks[i] in timetable2)
      && (forall i :: 0 <= i < |ks| ==> l1[i].1 == timetable1[ks[i]] && l2[i].1 == timetable2[ks[i]])
      && (forall a, b :: 0 <= a < b < |ks| ==> ks[a] != ks[b])
  {
    var ks := SortedKeys(timetable1.Keys);
    SortedKeysFacts(timetable1.Keys);
    assert SortedKeys(timetable2.Keys) == ks;
    forall a, b | 0 <= a < b < |ks| ensures ks[a] != ks[b] {
      assert KeyLess(ks[a], ks[b]);
    }
  }

  /** Timetables over one key set: at the i-th key in sorted order the
      first child holds the first parent's cell when i is below the point
      and the second parent's otherwise, and the second child the other
      one; neither child has any other key. */
  lemma CrossoverSameKeys(timetable1: Timetable, timetable2: Timetable, crossoverPoint: nat)
    requires 1 <= crossoverPoint < |timetable1.Keys| && timetable1.Keys == timetable2.Keys
    ensures var r, ks := Crossover(timetable1, timetable2, crossoverPoint), SortedKeys(timetable1.Keys);
      forall i :: 0 <= i < |ks| ==>
        && ks[i] in r.0 && r.0[ks[i]] == (if i < crossoverPoint then timetable1[ks[i]] else timetable2[ks[i]])
        && ks[i] in r.1 && r.1[ks[i]] == (if i < crossoverPoint then timetable2[ks[i]] else timetable1[ks[i]])
    ensures var r := Crossover(timetable1, timetable2, crossoverPoint);
      forall k :: (k in r.0 ==> k in timetable1) && (k in r.1 ==> k in timetable1)
  {
    var ks := SortedKeys(timetable1.Keys);
    var l1, l2 := SortedItems(timetable1), SortedItems(timetable2);
    ItemsOverKeys(timetable1, timetable2);
    SpliceItems(l1, l2, ks, crossoverPoint);
    SpliceItems(l2, l1, ks, crossoverPoint);
    assert Crossover(timetable1, timetable2, crossoverPoint) == (Child(l1, l2, crossoverPoint), Child(l2, l1, crossoverPoint));
  }

  /** Over one key set both children have exactly the parents' keys, and
      at every key one child holds the first parent's cell and the other
      the second's: no cell is lost or made up. */
  lemma CrossoverKeepsCells(timetable1: Timetable, timetable2: Timetable, crossoverPoint: nat)
    requires 1 <= crossoverPoint < |timetable1.Keys| && timetable1.Keys == timetable2.Keys
    ensures var r := Crossover(timetable1, timetable2, crossoverPoint);
      && (forall k :: k in r.0 <==> k in timetable1)
      && (forall k :: k in r.1 <==> k in timetable1)
      && forall k :: k in timetable1 ==>
        || (r.0[k] == timetable1[k] && r.1[k] == timetable2[k])
        || (r.0[k] == timetable2[k] && r.1[k] == timetable1[k])
  {
    var ks := SortedKeys(timetable1.Keys);
    CrossoverSameKeys(timetable1, timetable2, crossoverPoint);
    forall k | k in timetable1
      ensures var r := Crossover(timetable1, timetable2, crossoverPoint);
        && k in r.0 && k in r.1
        && ((r.0[k] == timetable1[k] && r.1[k] == timetable2[k]) || (r.0[k] == timetable2[k] && r.1[k] == timetable1[k]))
    {
      SortedKeysComplete(timetable1.Keys, k);
      var i :| 0 <= i < |ks| && ks[i] == k;
    }
  }

  /** A timetable crossed with itself gives itself back twice. */
  lemma CrossoverSelf(t: Timetable, crossoverPoint: nat)
    requires 1 <= crossoverPoint < |t.Keys|
    ensures Crossover(t, t, crossoverPoint) == (t, t)
  {
    CrossoverKeepsCells(t, t, crossoverPoint);
    var r := Crossover(t, t, crossoverPoint);
    assert r.0 == t && r.1 == t;
  }
}
