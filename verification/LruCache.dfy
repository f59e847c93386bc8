/** The file cache of the synthesis passes (lruCache in synthesize.go) against
    a list that forgets nothing: every key ever put, last touched first. */
module LruCache {
  import opened Wrappers

  datatype Entry = Entry(key: string, value: string)

  ghost predicate KeysDistinct(es: seq<Entry>) {
    forall i, j :: 0 <= i < j < |es| ==> es[i].key != es[j].key
  }

  ghost predicate At(es: seq<Entry>, i: int, key: string) {
    0 <= i < |es| && es[i].key == key
  }

  ghost predicate Has(es: seq<Entry>, key: string) {
    exists i :: At(es, i, key)
  }

  function Drop(es: seq<Entry>, i: nat): seq<Entry>
    requires i < |es|
  {
    es[..i] + es[i + 1..]
  }

  ghost function Without(es: seq<Entry>, key: string): seq<Entry> {
    if Has(es, key) then
      var i :| At(es, i, key);
      Drop(es, i)
    else
      es
  }

  lemma WithoutAt(es: seq<Entry>, i: nat)
    requires KeysDistinct(es) && i < |es|
    ensures Without(es, es[i].key) == Drop(es, i)
  {
    assert At(es, i, es[i].key);
    assert forall j :: At(es, j, es[i].key) ==> j == i;
  }

  // ---- The list that forgets nothing ---------------------------------------------------------

  ghost function Touch(all: seq<Entry>, e: Entry): seq<Entry> {
    [e] + Without(all, e.key)
  }

  function Front(all: seq<Entry>, cap: nat): seq<Entry> {
    if |all| <= cap then all else all[..cap]
  }

  lemma TouchKeepsDistinct(all: seq<Entry>, e: Entry)
    requires KeysDistinct(all)
    ensures KeysDistinct(Touch(all, e))
  {
    if i :| At(all, i, e.key) {
      WithoutAt(all, i);
      assert forall j :: 0 <= j < |all| && j != i ==> all[j].key != e.key;
    } else {
      assert forall j :: 0 <= j < |all| ==> At(all, j, all[j].key);
    }
  }

  // Touching a key of the front moves it there.
  lemma TouchInFront(all: seq<Entry>, cap: nat, i: nat, e: Entry)
    requires KeysDistinct(all) && i < |Front(all, cap)| && Front(all, cap)[i].key == e.key
    ensures Front(Touch(all, e), cap) == [e] + Drop(Front(all, cap), i)
  {
    WithoutAt(all, i);
  }

  // Touching any other key pushes the last entry of a full front out.
  lemma TouchBeyondFront(all: seq<Entry>, cap: nat, e: Entry)
    requires cap >= 1 && KeysDistinct(all) && !Has(Front(all, cap), e.key)
    ensures var front := Front(all, cap);
            Front(Touch(all, e), cap) == [e] + if |front| < cap then front else front[..cap - 1]
  {
    var front := Front(all, cap);
    if i :| At(all, i, e.key) {
      assert !At(front, i, e.key);
      WithoutAt(all, i);
    }
  }

  function Moved<T>(es: seq<T>, i: nat): seq<T>
    requires i < |es|
  {
    [es[i]] + es[..i] + es[i + 1..]
  }

  lemma MovedAt<T>(es: seq<T>, i: nat)
    requires i < |es|
    ensures var r := Moved(es, i);
            && |r| == |es| && multiset(r) == multiset(es) && (forall e :: e in es ==> e in r)
            && forall j :: 0 <= j < |es| ==> r[j] == es[if j == 0 then i else if j <= i then j - 1 else j]
  {
    assert es == es[..i] + [es[i]] + es[i + 1..];
  }

  lemma MovedIs<T>(es: seq<T>, i: nat)
    requires i < |es|
    ensures Moved(es, i) == [es[i]] + es[..i] + es[i + 1..]
  {
  }

  lemma OnlyOnce(all: seq<Entry>, cap: nat, i: nat)
    requires KeysDistinct(all) && i < |Front(all, cap)|
    ensures forall j :: 0 <= j < |Front(all, cap)| && j != i ==> Front(all, cap)[j].key != Front(all, cap)[i].key
  {
  }

  lemma DropAt(es: seq<Entry>, i: nat, e: Entry)
    requires i < |es|
    ensures var r := [e] + Drop(es, i);
            && |r| == |es| && r[0] == e
            && forall j :: 0 < j < |es| ==> r[j] == es[if j <= i then j - 1 else j]
  {
  }

  // An element of the linked list.
  class Element {
    const key: string
    var value: string

    constructor (key: string, value: string)
      ensures this.key == key && this.value == value
    {
      this.key := key;
      this.value := value;
    }
  }

  class Cache {
    const max: int
    // The map leads each key to its element of the list.
    var store: map<string, Element>
    var ll: seq<Element>
    // Every put and every hit, the last one first.
    ghost var all: seq<Entry>

    ghost function Cap(): nat {
      if max < 1 then 1 else max
    }

    // The list holds these entries.
    ghost predicate Holds(es: seq<Entry>)
      reads this, ll
    {
      |es| == |ll| && forall i :: 0 <= i < |ll| ==> ll[i].key == es[i].key && ll[i].value == es[i].value
    }

    // The elements are in the map under their keys, and nothing else is.
    ghost predicate Linked()
      reads this`store, this`ll
    {
      && (forall k :: k in store ==> store[k] in ll && store[k].key == k)
      && (forall i :: 0 <= i < |ll| ==> ll[i].key in store && store[ll[i].key] == ll[i])
    }

    // The list is the front of the one that forgets nothing.
    ghost predicate Valid()
      reads this, ll
    {
      KeysDistinct(all) && Linked() && Holds(Front(all, Cap()))
    }

    constructor (max: int)
      ensures Valid() && this.max == max && all == [] && ll == []
    {
      this.max := max;
      store, ll, all := map[], [], [];
    }

    // A hit returns the value last put and makes the key the most recent one;
    // there is a hit exactly for the Cap() keys last touched.
    method Get(key: string) returns (r: Option<string>)
      requires Valid()
      modifies this
      ensures Valid() && multiset(ll) == multiset(old(ll))
      ensures r.Some? <==> Has(Front(old(all), Cap()), key)
      ensures r.Some? ==> Entry(key, r.value) in old(all) && all == Touch(old(all), Entry(key, r.value))
      ensures r == None ==> all == old(all)
    {
      hide KeysDistinct, Touch, Has;
      HeldExactly(key);
      if key !in store {
        return None;
      }
      var el := store[key];
      assert Entry(key, el.value) in all by {
        var i :| 0 <= i < |ll| && ll[i] == el;
        assert Front(all, Cap())[i] == all[i] == Entry(key, el.value);
      }
      MoveToFront(el, Front(all, Cap()));
      return Some(el.value);
    }

    method Put(key: string, value: string)
      requires Valid()
      modifies this, ll
      ensures Valid()
      ensures all == Touch(old(all), Entry(key, value))
      ensures |ll| <= Cap()
      ensures forall el :: el in ll ==> el in old(ll) || fresh(el)
    {
      hide KeysDistinct, Touch, Has, Front;
      HeldExactly(key);
      ghost var front, e := Front(all, Cap()), Entry(key, value);
      FrontIsShort(all, Cap());
      if key in store {
        var el := store[key];
        el.value := value;
        MoveToFront(el, front);
        FrontIsShort(all, Cap());
        return;
      }
      TouchKeepsDistinct(all, e);
      TouchBeyondFront(all, Cap(), e);
      FrontDistinct(all, Cap());
      FrontIsShort(Touch(all, e), Cap());
      if |ll| >= max && |ll| > 0 {
        RemoveBack(front);
        front := front[..|front| - 1];
      }
      PushFront(key, value, front);
      all := Touch(all, e);
    }

    method RemoveBack(ghost es: seq<Entry>)
      requires Linked() && Holds(es) && KeysDistinct(es) && |ll| > 0
      modifies this`ll, this`store
      ensures Linked() && Holds(es[..|es| - 1])
      ensures ll == old(ll)[..|old(ll)| - 1] && store.Keys <= old(store).Keys
    {
      var oldest := ll[|ll| - 1];
      assert forall i :: 0 <= i < |ll| - 1 ==> es[i].key != oldest.key;
      assert forall k :: k in store && k != oldest.key ==> store[k] in ll[..|ll| - 1];
      ll := ll[..|ll| - 1];
      store := store - {oldest.key};
    }

    method PushFront(key: string, value: string, ghost es: seq<Entry>)
      requires Linked() && Holds(es) && key !in store
      modifies this`ll, this`store
      ensures Linked() && Holds([Entry(key, value)] + es)
      ensures forall el :: el in ll ==> el in old(ll) || fresh(el)
    {
      var el := new Element(key, value);
      ll := [el] + ll;
      store := store[key := el];
      assert ll[0] == el;
    }

    lemma HeldExactly(key: string)
      requires Valid()
      ensures key in store <==> Has(Front(all, Cap()), key)
    {
      var front := Front(all, Cap());
      if key in store {
        var i :| 0 <= i < |ll| && ll[i] == store[key];
        assert At(front, i, key);
      }
      if i :| At(front, i, key) {
        assert ll[i].key == key;
      }
    }

    // The list's own operation. The element may have been given a new value
    // just before; the entries were `was` until then.
    method MoveToFront(el: Element, ghost was: seq<Entry>)
      requires el in ll && Linked() && KeysDistinct(all) && was == Front(all, Cap())
      requires |was| == |ll|
      requires forall i :: 0 <= i < |ll| ==> was[i].key == ll[i].key && (ll[i] != el ==> was[i].value == ll[i].value)
      modifies this`ll, this`all
      ensures Valid() && all == Touch(old(all), Entry(el.key, el.value)) && multiset(ll) == multiset(old(ll))
    {
      hide Touch, Front, Drop, Moved, Linked, At;
      var i := Position(el);
      ghost var e, before := Entry(el.key, el.value), ll;
      TouchKeepsDistinct(all, e);
      TouchInFront(all, Cap(), i, e);
      OnlyOnce(all, Cap(), i);
      hide KeysDistinct;
      Relink(i);
      MovedAt(before, i);
      DropAt(was, i, e);
      all := Touch(all, e);
      forall j | 0 <= j < |ll|
        ensures ll[j].key == ([e] + Drop(was, i))[j].key && ll[j].value == ([e] + Drop(was, i))[j].value
      {
        var from := if j == 0 then i else if j <= i then j - 1 else j;
        assert ll[j] == before[from];
        assert j > 0 ==> was[from].key != was[i].key;
      }
    }

    // The element at i goes first; the map does not notice.
    method Relink(i: nat)
      requires i < |ll| && Linked()
      modifies this`ll
      ensures Linked() && ll == Moved(old(ll), i)
    {
      hide Moved;
      ghost var before := ll;
      ll := [ll[i]] + ll[..i] + ll[i + 1..];
      assert ll == Moved(before, i) by { MovedIs(before, i); }
      MovedAt(before, i);
    }

    method Position(el: Element) returns (i: nat)
      requires el in ll
      ensures i < |ll| && ll[i] == el
    {
      ghost var at :| 0 <= at < |ll| && ll[at] == el;
      i := 0;
      while ll[i] != el
        invariant i <= at
        decreases at - i
      {
        i := i + 1;
      }
    }
  }

  lemma FrontIsShort(all: seq<Entry>, cap: nat)
    ensures |Front(all, cap)| <= cap
  {
  }

  lemma FrontDistinct(all: seq<Entry>, cap: nat)
    requires KeysDistinct(all)
    ensures KeysDistinct(Front(all, cap))
  {
  }
}
