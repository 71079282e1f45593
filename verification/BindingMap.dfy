/** driver/map.c: the open-addressing hash table that descriptor sets keep their
    bindings in. A slot without data is empty; its key is not initialised. */
module BindingMap {
  import opened Arithmetic
  import opened Bits
  import opened Bytes

  datatype Element = Element(data: uint32, key: uint32)

  const MULTIPLIER := 0x678D_DE6F

  /** getIndex. It shifts by 32 - maxData, which C leaves undefined above 32 slots;
      shifted is whatever the machine makes of it then. */
  function GetIndex(key: uint32, maxData: nat, shifted: uint32): (i: nat)
    requires maxData > 0
    ensures i < maxData
  {
    (if maxData <= 32 then MULTIPLIER * key % 0x1_0000_0000 / Pow2(32 - maxData) else shifted) % maxData
  }

  /** Up to 32 slots the hash is the highest maxData bits of the low word of the product
      with the multiplier, reduced to a slot. */
  lemma IndexIs(key: uint32, maxData: nat, shifted: uint32)
    requires 0 < maxData <= 32
    ensures GetIndex(key, maxData, shifted) == 1737350767 * key % Pow2(32) / Pow2(32 - maxData) % maxData
  {
    Powers();
  }

  /** Does a search for key stop at e? */
  predicate Stops(e: Element, key: uint32) {
    e.key == key || e.data == 0
  }

  /** A search for key goes from h at least d steps. */
  ghost predicate Passed(es: seq<Element>, h: nat, d: nat, key: uint32)
    requires h < |es| && d <= |es|
  {
    forall e :: 0 <= e < d ==> !Stops(es[Around(h, e, |es|)], key)
  }

  /** Every key sits where a search for it from h leads. */
  ghost predicate Reachable(es: seq<Element>, h: nat, j: nat)
    requires h < |es| && j < |es|
  {
    Passed(es, h, Steps(h, j, |es|), es[j].key)
  }

  class Map {
    const elements: array<Element>
    const hash: uint32 -> nat
    ghost var contents: map<uint32, uint32>

    ghost predicate Valid()
      reads this, elements
    {
      && elements.Length > 0 && (forall k :: hash(k) < elements.Length)
      && (forall j :: 0 <= j < elements.Length && elements[j].data != 0 ==>
        && elements[j].key in contents && contents[elements[j].key] == elements[j].data
        && Reachable(elements[..], hash(elements[j].key), j))
      && (forall k :: k in contents ==> Present(k))
    }

    ghost predicate Present(k: uint32)
      reads elements
    {
      exists j :: 0 <= j < elements.Length && elements[j].data != 0 && elements[j].key == k
    }

    ghost predicate HasRoom()
      reads elements
    {
      exists j :: 0 <= j < elements.Length && elements[j].data == 0
    }

    /** createMap */
    constructor (buf: array<Element>, h: uint32 -> nat)
      requires buf.Length > 0 && forall k :: h(k) < buf.Length
      modifies buf
      ensures Valid() && elements == buf && hash == h && contents == map[] && HasRoom()
    {
      elements, hash, contents := buf, h, map[];
      new;
      var c := 0;
      while c < elements.Length
        invariant 0 <= c <= elements.Length
        invariant contents == map[] && forall j :: 0 <= j < c ==> elements[j].data == 0
      {
        elements[c] := elements[c].(data := 0);
        c := c + 1;
      }
      assert elements[0].data == 0;
    }

    /** The probe loop. It ends because the key is there or a slot is empty, and
        finds the key's slot, or the empty one where it belongs. */
    method Probe(key: uint32) returns (index: nat)
      requires Valid() && (key in contents || HasRoom())
      ensures index < elements.Length && Stops(elements[index], key)
      ensures Passed(elements[..], hash(key), Steps(hash(key), index, elements.Length), key)
      ensures elements[index].data != 0 <==> key in contents
    {
      var n := elements.Length;
      index := hash(key);
      ghost var d, stop := 0, StopFor(key);
      while elements[index].key != key && elements[index].data != 0
        invariant d <= Steps(hash(key), stop, n) && index == Around(hash(key), d, n)
        invariant Passed(elements[..], hash(key), d, key)
        decreases n - d
      {
        AroundIsModulo(index, n);
        index := (index + 1) % n;
        d := d + 1;
      }
      Found(key, index, d);
    }

    /** A slot at which a search for key would stop. */
    ghost function StopFor(key: uint32): (j: nat)
      requires Valid() && (key in contents || HasRoom())
      reads this, elements
      ensures j < elements.Length && Stops(elements[j], key)
    {
      if key in contents then
        assert Present(key);
        var j :| 0 <= j < elements.Length && elements[j].data != 0 && elements[j].key == key; j
      else
        var j :| 0 <= j < elements.Length && elements[j].data == 0; j
    }

    lemma Found(key: uint32, index: nat, d: nat)
      requires Valid() && d < elements.Length && index == Around(hash(key), d, elements.Length)
      requires Passed(elements[..], hash(key), d, key) && Stops(elements[index], key)
      ensures Steps(hash(key), index, elements.Length) == d
      ensures elements[index].data != 0 <==> key in contents
    {
      if key in contents {
        assert Present(key);
        var j :| 0 <= j < elements.Length && elements[j].data != 0 && elements[j].key == key;
        assert Reachable(elements[..], hash(key), j);
        SameStop(elements[..], hash(key), index, j, key);
      }
    }

    /** getMapElement: the key's data, or null. */
    method Get(key: uint32) returns (data: uint32)
      requires Valid() && (key in contents || |contents| < elements.Length)
      ensures key in contents ==> data == contents[key] != 0
      ensures key !in contents ==> data == 0
    {
      RoomMeansEmpty();
      var index := Probe(key);
      data := elements[index].data;
    }

    /** The other slots hold other keys, and can be reached. */
    lemma OnlyThere(index: nat, key: uint32)
      requires Valid() && index < elements.Length && Stops(elements[index], key) && (elements[index].data != 0 <==> key in contents)
      ensures forall j :: 0 <= j < elements.Length && elements[j].data != 0 ==> Reachable(elements[..], hash(elements[j].key), j)
      ensures forall j :: 0 <= j < elements.Length && elements[j].data != 0 && j != index ==> elements[j].key != key
    {
      forall j | 0 <= j < elements.Length && elements[j].data != 0 && j != index ensures elements[j].key != key {
        if elements[index].data != 0 { OneSlot(j, index); }
      }
    }

    /** setMapElement with data that is not null. */
    method Set(key: uint32, data: uint32)
      requires Valid() && data != 0 && (key in contents || |contents| < elements.Length)
      modifies this, elements
      ensures Valid() && contents == old(contents)[key := data]
    {
      hide Steps, Around, Reachable, Passed;
      RoomMeansEmpty();
      var index := Probe(key);
      ghost var es, n := elements[..], elements.Length;
      OnlyThere(index, key);
      elements[index] := Element(data, key);
      contents := contents[key := data];
      forall j | 0 <= j < n && elements[j].data != 0
        ensures elements[j].key in contents && contents[elements[j].key] == elements[j].data
        ensures Reachable(elements[..], hash(elements[j].key), j)
      {
        assert j != index ==> elements[j] == es[j];
        StaysReachable(es, elements[..], index, key, hash(elements[j].key), j);
      }
      forall k | k in contents ensures Present(k) {
        if k == key { assert elements[index].key == k; }
        else { PresentStill(es, index, k); }
      }
    }

    twostate lemma PresentStill(new es: seq<Element>, new index: nat, new k: uint32)
      requires old(Present(k)) && index < elements.Length && es == old(elements[..])
      requires es[index].data == 0 || es[index].key != k
      requires forall j :: 0 <= j < elements.Length && j != index ==> elements[j] == es[j]
      ensures Present(k)
    {
      var j :| 0 <= j < elements.Length && old(elements[j]).data != 0 && old(elements[j]).key == k;
      assert elements[j] == es[j];
    }

    /** There is an empty slot if and only if there are fewer keys than slots. */
    lemma RoomMeansEmpty()
      requires Valid()
      ensures HasRoom() <==> |contents| < elements.Length
      ensures |contents| <= elements.Length
    {
      var n := elements.Length;
      assert contents.Keys == LiveKeys(elements[..], n) by {
        LiveKeysAre(elements[..], n);
        forall k | k in contents ensures k in LiveKeys(elements[..], n) { assert Present(k); }
      }
      assert |contents| == |contents.Keys|;
      FewLiveKeys(elements[..], n);
      if HasRoom() {
        var i :| 0 <= i < n && elements[i].data == 0;
        EmptyNotLive(elements[..], n, i);
      } else {
        forall i, j | 0 <= i < j < n ensures elements[i].key != elements[j].key { OneSlot(i, j); }
        AllKeysLive(elements[..], n);
      }
    }

    /** No key has two slots. */
    lemma OneSlot(i: nat, j: nat)
      requires Valid() && i < elements.Length && j < elements.Length && i != j
      requires elements[i].data != 0 && elements[j].data != 0
      ensures elements[i].key != elements[j].key
    {
      if elements[i].key == elements[j].key {
        var h := hash(elements[i].key);
        assert Reachable(elements[..], h, i) && Reachable(elements[..], h, j);
        SameStop(elements[..], h, i, j, elements[i].key);
      }
    }

    /** The probe loop for key meets no slot to stop at, however long it goes on. */
    ghost predicate Endless(key: uint32)
      requires Valid()
      reads this, elements
    {
      forall d :: d >= 0 ==> !Stops(elements[Probed(hash(key), d, elements.Length)], key)
    }

    /** A search goes on for ever if and only if the map is full of other keys. */
    lemma SearchEndlessExactly(key: uint32)
      requires Valid()
      ensures Endless(key) <==> key !in contents && |contents| == elements.Length
    {
      RoomMeansEmpty();
      if key in contents {
        assert Present(key);
        var j :| 0 <= j < elements.Length && elements[j].data != 0 && elements[j].key == key;
        ProbedEverywhere(hash(key), j, elements.Length);
      } else if HasRoom() {
        var j :| 0 <= j < elements.Length && elements[j].data == 0;
        ProbedEverywhere(hash(key), j, elements.Length);
      }
    }
  }

  /** Where the probe loop is after d rounds. */
  function Probed(h: nat, d: nat, n: nat): (i: nat)
    requires h < n
    ensures i < n
    decreases d
  {
    if d == 0 then h else (Probed(h, d - 1, n) + 1) % n
  }

  lemma {:induction false} ProbedIsAround(h: nat, d: nat, n: nat)
    requires h < n && d <= n
    ensures Probed(h, d, n) == Around(h, d, n)
    decreases d
  {
    if d > 0 {
      ProbedIsAround(h, d - 1, n);
      AroundIsModulo(Around(h, d - 1, n), n);
    }
  }

  /** The loop comes by every slot. */
  lemma ProbedEverywhere(h: nat, j: nat, n: nat)
    requires h < n && j < n
    ensures Probed(h, Steps(h, j, n), n) == j
  {
    ProbedIsAround(h, Steps(h, j, n), n);
  }

  /** A search has not passed a slot at which it would stop. */
  lemma NotPassed(es: seq<Element>, h: nat, d: nat, e: nat, key: uint32)
    requires h < |es| && d <= |es| && e < |es| && Passed(es, h, d, key) && Stops(es[Around(h, e, |es|)], key)
    ensures d <= e
  {
  }

  /** A search has one place to stop. */
  lemma SameStop(es: seq<Element>, h: nat, i: nat, j: nat, key: uint32)
    requires h < |es| && i < |es| && j < |es| && Stops(es[i], key) && Stops(es[j], key)
    requires Passed(es, h, Steps(h, i, |es|), key) && Passed(es, h, Steps(h, j, |es|), key)
    ensures i == j
  {
    NotPassed(es, h, Steps(h, i, |es|), Steps(h, j, |es|), key);
    NotPassed(es, h, Steps(h, j, |es|), Steps(h, i, |es|), key);
  }

  /** Filling a slot at which a search for key stops disturbs no other search. */
  lemma StaysReachable(es: seq<Element>, fs: seq<Element>, index: nat, key: uint32, h: nat, j: nat)
    requires index < |es| == |fs| && h < |es| && j < |es| && Stops(es[index], key)
    requires fs[index].key == key && fs[index].data != 0 && fs == es[index := fs[index]] && fs[j].data != 0
    requires j != index ==> Reachable(es, h, j) && es[j].key != key
    requires j == index ==> Passed(es, h, Steps(h, index, |es|), key)
    ensures Reachable(fs, h, j)
  {
    var d := Steps(h, j, |es|);
    forall e | 0 <= e < d ensures !Stops(fs[Around(h, e, |fs|)], fs[j].key) {
      assert !Stops(es[Around(h, e, |es|)], fs[j].key);
    }
  }

  /** The keys with data among the first n slots, and how many slots have data. */
  ghost function LiveKeys(es: seq<Element>, n: nat): (ks: set<uint32>)
    requires n <= |es|
  {
    if n == 0 then {} else if es[n - 1].data != 0 then LiveKeys(es, n - 1) + {es[n - 1].key} else LiveKeys(es, n - 1)
  }

  ghost function Live(es: seq<Element>, n: nat): (k: nat)
    requires n <= |es|
    ensures k <= n
  {
    if n == 0 then 0 else Live(es, n - 1) + (if es[n - 1].data != 0 then 1 else 0)
  }

  lemma {:induction false} LiveKeysAre(es: seq<Element>, n: nat)
    requires n <= |es|
    ensures forall k :: k in LiveKeys(es, n) <==> exists i :: 0 <= i < n && es[i].data != 0 && es[i].key == k
  {
    if n > 0 { LiveKeysAre(es, n - 1); }
  }

  lemma {:induction false} FewLiveKeys(es: seq<Element>, n: nat)
    requires n <= |es|
    ensures |LiveKeys(es, n)| <= Live(es, n)
  {
    if n > 0 {
      FewLiveKeys(es, n - 1);
      OneMore(LiveKeys(es, n - 1), es[n - 1].key);
    }
  }

  lemma {:induction false} EmptyNotLive(es: seq<Element>, n: nat, i: nat)
    requires i < n <= |es| && es[i].data == 0
    ensures Live(es, n) < n
  {
    if i < n - 1 { EmptyNotLive(es, n - 1, i); }
  }

  lemma OneMore(ks: set<uint32>, k: uint32)
    ensures |ks + {k}| == |ks| + (if k in ks then 0 else 1)
  {
    if k in ks { assert ks + {k} == ks; }
  }

  lemma {:induction false} AllKeysLive(es: seq<Element>, n: nat)
    requires n <= |es| && forall i :: 0 <= i < |es| ==> es[i].data != 0
    requires forall i, j :: 0 <= i < j < |es| ==> es[i].key != es[j].key
    ensures |LiveKeys(es, n)| == n
  {
    if n > 0 {
      AllKeysLive(es, n - 1);
      LiveKeysAre(es, n - 1);
      OneMore(LiveKeys(es, n - 1), es[n - 1].key);
    }
  }

  /** A map with one slot, and one key in it: a search for any other goes on for ever. */
  method OneSlotFull(elements: array<Element>, key: uint32, data: uint32) returns (m: Map)
    requires elements.Length == 1 && data != 0
    modifies elements
    ensures m.Valid() && m.contents == map[key := data] && forall k :: k != key ==> m.Endless(k)
  {
    m := new Map(elements, k => 0);
    m.Set(key, data);
    assert m.contents == map[key := data];
    forall k: uint32 | k != key ensures m.Endless(k) { m.SearchEndlessExactly(k); }
  }
}
