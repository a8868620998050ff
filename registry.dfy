/**
 * The list operations behind addEntity and removeEntity: a push at the back
 * and the erase-remove idiom, which drops every occurrence and keeps the
 * order of the rest.
 */
module Registry {
  import opened Wrappers

  /** `erase(remove(begin, end, x), end)`. */
  function RemoveAll<T(==)>(s: seq<T>, x: T): (r: seq<T>)
    ensures |r| <= |s|
    ensures x !in r
    ensures forall i :: 0 <= i < |r| ==> r[i] in s
    ensures forall i :: 0 <= i < |s| && s[i] != x ==> s[i] in r
  {
    if s == [] then [] else (if s[0] == x then [] else [s[0]]) + RemoveAll(s[1..], x)
  }

  /** Removal works piecewise: the relative order of the survivors is kept. */
  lemma {:induction false} RemoveAllAppend<T>(a: seq<T>, b: seq<T>, x: T)
    ensures RemoveAll(a + b, x) == RemoveAll(a, x) + RemoveAll(b, x)
  {
    if a == [] {
      assert a + b == b;
    } else {
      assert (a + b)[1..] == a[1..] + b;
      RemoveAllAppend(a[1..], b, x);
      var head := if a[0] == x then [] else [a[0]];
      assert head + (RemoveAll(a[1..], x) + RemoveAll(b, x)) == (head + RemoveAll(a[1..], x)) + RemoveAll(b, x);
    }
  }

  /** Removing something absent changes nothing. */
  lemma {:induction false} RemoveAllAbsent<T>(s: seq<T>, x: T)
    requires x !in s
    ensures RemoveAll(s, x) == s
  {
    if s != [] {
      assert s[0] != x && x !in s[1..];
      RemoveAllAbsent(s[1..], x);
      assert s == [s[0]] + s[1..];
    }
  }

  /** Every other element keeps its number of occurrences; x has none left. */
  lemma {:induction false} RemoveAllCounts<T>(s: seq<T>, x: T, y: T)
    ensures multiset(RemoveAll(s, x))[y] == if y == x then 0 else multiset(s)[y]
  {
    if s != [] {
      RemoveAllCounts(s[1..], x, y);
      var head := if s[0] == x then [] else [s[0]];
      assert RemoveAll(s, x) == head + RemoveAll(s[1..], x);
      assert multiset(RemoveAll(s, x)) == multiset(head) + multiset(RemoveAll(s[1..], x));
      assert s == [s[0]] + s[1..];
      assert multiset(s) == multiset{s[0]} + multiset(s[1..]);
    }
  }

  /** Removing what was just pushed onto a list that did not hold it restores the list. */
  lemma PushThenRemove<T>(s: seq<T>, x: T)
    requires x !in s
    ensures RemoveAll(s + [x], x) == s
  {
    RemoveAllAppend(s, [x], x);
    RemoveAllAbsent(s, x);
    assert RemoveAll([x], x) == [];
  }

  /** Removal is idempotent. */
  lemma RemoveAllTwice<T>(s: seq<T>, x: T)
    ensures RemoveAll(RemoveAll(s, x), x) == RemoveAll(s, x)
  {
    RemoveAllAbsent(RemoveAll(s, x), x);
  }

  /** `dic[k].push_back(x)`: operator[] creates an empty list for a missing key first. */
  function Filed<K, T>(dic: map<K, seq<T>>, k: K, x: T): map<K, seq<T>>
  {
    dic[k := GetOr(dic, k, []) + [x]]
  }

  /** The erase-remove idiom on `dic[k]`, again creating an empty list for a missing key. */
  function Unfiled<K, T(==)>(dic: map<K, seq<T>>, k: K, x: T): map<K, seq<T>>
  {
    dic[k := RemoveAll(GetOr(dic, k, []), x)]
  }

  /**
   * Removing what was just filed under k, where it was not yet listed,
   * leaves every list as before; the key k exists afterwards even when it
   * did not before.
   */
  lemma UnfileFiled<K, T>(dic: map<K, seq<T>>, k: K, x: T)
    requires x !in GetOr(dic, k, [])
    ensures forall j :: GetOr(Unfiled(Filed(dic, k, x), k, x), j, []) == GetOr(dic, j, [])
    ensures Unfiled(Filed(dic, k, x), k, x).Keys == dic.Keys + {k}
  {
    PushThenRemove(GetOr(dic, k, []), x);
  }
}

/**
 * The two indices of the registry over the entity objects: by type id and by
 * cell, each list holding only entities of its own key.
 */
module EntityRegistry {
  import opened Wrappers
  import opened Grid
  import opened Entities
  import opened Registry

  /** Every entity listed under type t has type t. */
  predicate TypesConsistent(dic: map<EntityType, seq<Entity>>)
  {
    forall t, k :: t in dic && 0 <= k < |dic[t]| ==> dic[t][k].entityType == t
  }

  /** Every entity listed under cell c lies in cell c. */
  predicate CellsConsistent(dic: map<Cell, seq<Entity>>)
  {
    forall c, k :: c in dic && 0 <= k < |dic[c]| ==> dic[c][k].OwnCell() == c
  }

  /** Filing or removing an entity under its own type keeps the type index consistent. */
  lemma TypesStayConsistent(dic: map<EntityType, seq<Entity>>, e: Entity)
    requires TypesConsistent(dic)
    ensures TypesConsistent(Filed(dic, e.entityType, e))
    ensures TypesConsistent(Unfiled(dic, e.entityType, e))
  {
    var t := e.entityType;
    var removed := RemoveAll(GetOr(dic, t, []), e);
    forall k | 0 <= k < |removed| ensures removed[k].entityType == t {
      assert removed[k] in GetOr(dic, t, []);
    }
  }

  /** Filing or removing an entity under its own cell keeps the cell index consistent. */
  lemma CellsStayConsistent(dic: map<Cell, seq<Entity>>, e: Entity)
    requires CellsConsistent(dic)
    ensures CellsConsistent(Filed(dic, e.OwnCell(), e))
    ensures CellsConsistent(Unfiled(dic, e.OwnCell(), e))
  {
    var c := e.OwnCell();
    var removed := RemoveAll(GetOr(dic, c, []), e);
    forall k | 0 <= k < |removed| ensures removed[k].OwnCell() == c {
      assert removed[k] in GetOr(dic, c, []);
    }
  }
}
