/**
 * The writer's grouping of end-points by class (for the class summary and the class
 * pages) and its sorts of paths and classes.
 */
module Grouping {
  import opened Nullable
  import opened JavaStrings
  import opened Classes
  import opened EndPoints

  /**
   * One class's entry in a HashMap keyed by ClassInfo: the first ClassInfo put under
   * its type name (equal ClassInfos share an entry) and the items added for it, in order.
   */
  datatype ClassGroup<T> = ClassGroup(classInfo: ClassInfo, items: seq<T>)

  /** A HashMap keyed by ClassInfo, whose equality and hash depend on the type name only. */
  type ClassMap<T> = map<Option<string>, ClassGroup<T>>

  /** One get-or-create-then-add step. */
  function AddToGroup<T>(m: ClassMap<T>, ci: ClassInfo, item: T): (r: ClassMap<T>)
    ensures r.Keys == m.Keys + {ci.typeName}
  {
    if ci.typeName in m then m[ci.typeName := m[ci.typeName].(items := m[ci.typeName].items + [item])]
    else m[ci.typeName := ClassGroup(ci, [item])]
  }

  /** The inner loop over one path's end-points; `item` says what is recorded for an end-point. */
  function GroupList<T>(m: ClassMap<T>, key: Option<string>, es: seq<EndPoint>, item: (Option<string>, EndPoint) -> T): (r: ClassMap<T>)
    decreases |es|
  {
    if es == [] then m
    else
      var last := es[|es| - 1];
      AddToGroup(GroupList(m, key, es[..|es| - 1], item), last.classInfo, item(key, last))
  }

  /** The outer loop over the map's entries, in the given iteration order. */
  function GroupEntries<T>(m: ClassMap<T>, endPointMap: PathMap, keys: seq<Option<string>>, item: (Option<string>, EndPoint) -> T): (r: ClassMap<T>)
    requires forall k :: k in keys ==> k in endPointMap
    decreases |keys|
  {
    if keys == [] then m
    else
      var last := keys[|keys| - 1];
      GroupList(GroupEntries(m, endPointMap, keys[..|keys| - 1], item), last, endPointMap[last], item)
  }

  /** The items for the end-points of one list whose class has type name t, in order. */
  function ItemsOfList<T>(key: Option<string>, es: seq<EndPoint>, t: Option<string>, item: (Option<string>, EndPoint) -> T): (r: seq<T>)
    ensures |r| <= |es|
    decreases |es|
  {
    if es == [] then []
    else
      var last := es[|es| - 1];
      ItemsOfList(key, es[..|es| - 1], t, item) + (if last.classInfo.typeName == t then [item(key, last)] else [])
  }

  /** The items for type name t over all entries, in iteration order: the reference the grouping must match. */
  function ItemsOfEntries<T>(endPointMap: PathMap, keys: seq<Option<string>>, t: Option<string>, item: (Option<string>, EndPoint) -> T): seq<T>
    requires forall k :: k in keys ==> k in endPointMap
    decreases |keys|
  {
    if keys == [] then []
    else
      var last := keys[|keys| - 1];
      ItemsOfEntries(endPointMap, keys[..|keys| - 1], t, item) + ItemsOfList(last, endPointMap[last], t, item)
  }

  /** The items recorded under a type name, empty when it has no entry. */
  function ItemsIn<T>(m: ClassMap<T>, t: Option<string>): seq<T> {
    if t in m then m[t].items else []
  }

  /** The inner loop adds to each class exactly the items of its end-points, and to no other class. */
  lemma {:induction false} GroupListItems<T>(m: ClassMap<T>, key: Option<string>, es: seq<EndPoint>,
                                             item: (Option<string>, EndPoint) -> T, t: Option<string>)
    ensures ItemsIn(GroupList(m, key, es, item), t) == ItemsIn(m, t) + ItemsOfList(key, es, t, item)
    ensures t in GroupList(m, key, es, item) <==> t in m || ItemsOfList(key, es, t, item) != []
    ensures t in m ==> t in GroupList(m, key, es, item) && GroupList(m, key, es, item)[t].classInfo == m[t].classInfo
    decreases |es|
  {
    if es != [] {
      GroupListItems(m, key, es[..|es| - 1], item, t);
    }
  }

  /**
   * The grouping is the reference: each class's list holds the items of exactly the
   * end-points of that type name, in iteration order, and a class has an entry exactly
   * when it has at least one end-point.
   */
  lemma {:induction false} GroupEntriesItems<T>(endPointMap: PathMap, keys: seq<Option<string>>,
                                                item: (Option<string>, EndPoint) -> T, t: Option<string>)
    requires forall k :: k in keys ==> k in endPointMap
    ensures ItemsIn(GroupEntries(map[], endPointMap, keys, item), t) == ItemsOfEntries(endPointMap, keys, t, item)
    ensures t in GroupEntries(map[], endPointMap, keys, item) <==> ItemsOfEntries(endPointMap, keys, t, item) != []
    decreases |keys|
  {
    if keys != [] {
      var front := keys[..|keys| - 1];
      var last := keys[|keys| - 1];
      GroupEntriesItems(endPointMap, front, item, t);
      GroupListItems(GroupEntries(map[], endPointMap, front, item), last, endPointMap[last], item, t);
    }
  }

  /** Every group is keyed by the type name of its ClassInfo. */
  ghost predicate Keyed<T>(m: ClassMap<T>) {
    forall t :: t in m ==> m[t].classInfo.typeName == t
  }

  /** One step keeps every group keyed by its ClassInfo's type name. */
  lemma AddToGroupKeyed<T>(m: ClassMap<T>, ci: ClassInfo, item: T)
    requires Keyed(m)
    ensures Keyed(AddToGroup(m, ci, item))
  {
  }

  /** The inner loop keeps every group keyed by its ClassInfo's type name. */
  lemma {:induction false} GroupListKeyed<T>(m: ClassMap<T>, key: Option<string>, es: seq<EndPoint>,
                                             item: (Option<string>, EndPoint) -> T)
    requires Keyed(m)
    ensures Keyed(GroupList(m, key, es, item))
    decreases |es|
  {
    if es != [] {
      var last := es[|es| - 1];
      GroupListKeyed(m, key, es[..|es| - 1], item);
      AddToGroupKeyed(GroupList(m, key, es[..|es| - 1], item), last.classInfo, item(key, last));
    }
  }

  /** The grouping files every class under its own type name. */
  lemma {:induction false} GroupEntriesKeyed<T>(m: ClassMap<T>, endPointMap: PathMap, keys: seq<Option<string>>,
                                                item: (Option<string>, EndPoint) -> T)
    requires forall k :: k in keys ==> k in endPointMap
    requires Keyed(m)
    ensures Keyed(GroupEntries(m, endPointMap, keys, item))
    decreases |keys|
  {
    if keys != [] {
      var front := keys[..|keys| - 1];
      var last := keys[|keys| - 1];
      GroupEntriesKeyed(m, endPointMap, front, item);
      GroupListKeyed(GroupEntries(m, endPointMap, front, item), last, endPointMap[last], item);
    }
  }

  /** What the class summary records for an end-point: the path it is filed under. */
  function PathItem(key: Option<string>, e: EndPoint): Option<string> {
    key
  }

  /** What the class pages record for an end-point: the end-point itself. */
  function EndPointItem(key: Option<string>, e: EndPoint): EndPoint {
    e
  }

  /**
   * The class summary's list for a class counts one path per end-point of that class,
   * and with a well-formed index every one of those paths carries such an end-point.
   */
  lemma {:induction false} ClassPathsCounted(endPointMap: PathMap, key: Option<string>, es: seq<EndPoint>, t: Option<string>)
    ensures |ItemsOfList(key, es, t, PathItem)| == |ItemsOfList(key, es, t, EndPointItem)|
    ensures forall p :: p in ItemsOfList(key, es, t, PathItem) ==> p == key
    ensures forall e :: e in ItemsOfList(key, es, t, EndPointItem) ==> e in es && e.classInfo.typeName == t
    decreases |es|
  {
    if es != [] {
      ClassPathsCounted(endPointMap, key, es[..|es| - 1], t);
    }
  }

  /**
   * The nested loops of the class grouping: for every entry, in iteration order, and
   * every end-point of its list, get or create the group of the end-point's class and
   * add the item to it.
   */
  method GroupByClass<T>(endPointMap: PathMap, keys: seq<Option<string>>, item: (Option<string>, EndPoint) -> T)
    returns (classInfoMap: ClassMap<T>)
    requires forall k :: k in keys ==> k in endPointMap
    ensures classInfoMap == GroupEntries(map[], endPointMap, keys, item)
  {
    classInfoMap := map[];
    for i := 0 to |keys|
      invariant classInfoMap == GroupEntries(map[], endPointMap, keys[..i], item)
    {
      assert keys[..i + 1][..i] == keys[..i];
      var key := keys[i];
      var es := endPointMap[key];
      ghost var before := classInfoMap;
      for j := 0 to |es|
        invariant classInfoMap == GroupList(before, key, es[..j], item)
      {
        assert es[..j + 1][..j] == es[..j];
        var classInfo := es[j].classInfo;
        if classInfo.typeName in classInfoMap {
          var group := classInfoMap[classInfo.typeName];
          classInfoMap := classInfoMap[classInfo.typeName := group.(items := group.items + [item(key, es[j])])];
        } else {
          classInfoMap := classInfoMap[classInfo.typeName := ClassGroup(classInfo, [item(key, es[j])])];
        }
      }
      assert es[..|es|] == es;
    }
    assert keys[..|keys|] == keys;
  }

  /** Ordered by String.compareTo of the keys. */
  predicate SortedBy<T>(s: seq<T>, key: T -> string) {
    forall i, j :: 0 <= i < j < |s| ==> CompareTo(key(s[i]), key(s[j])) <= 0
  }

  /** Insertion into a sorted list, after the smaller elements and before the others, so the sort is stable. */
  function Insert<T>(x: T, s: seq<T>, key: T -> string): (r: seq<T>)
    ensures multiset(r) == multiset(s) + multiset{x}
    ensures |r| == |s| + 1
    decreases |s|
  {
    if s == [] then [x]
    else if CompareTo(key(s[0]), key(x)) < 0 then
      assert s == [s[0]] + s[1..];
      [s[0]] + Insert(x, s[1..], key)
    else [x] + s
  }

  /** Collections.sort with the natural order the keys give. */
  function SortBy<T>(s: seq<T>, key: T -> string): (r: seq<T>)
    ensures multiset(r) == multiset(s)
    decreases |s|
  {
    if s == [] then []
    else
      assert s == [s[0]] + s[1..];
      Insert(s[0], SortBy(s[1..], key), key)
  }

  /** Inserting into a sorted list keeps it sorted. */
  lemma {:induction false} InsertSorted<T>(x: T, s: seq<T>, key: T -> string)
    requires SortedBy(s, key)
    ensures SortedBy(Insert(x, s, key), key)
    decreases |s|
  {
    if s != [] && CompareTo(key(s[0]), key(x)) < 0 {
      InsertSorted(x, s[1..], key);
      var r := Insert(x, s, key);
      forall i, j | 0 <= i < j < |r| ensures CompareTo(key(r[i]), key(r[j])) <= 0 {
        if i == 0 {
          var y := r[j];
          assert y in multiset(Insert(x, s[1..], key));
          assert y in multiset(s[1..]) || y == x;
          if y != x {
            var k :| 0 <= k < |s[1..]| && s[1..][k] == y;
            assert s[k + 1] == y;
          }
        }
      }
    } else if s != [] {
      var r := Insert(x, s, key);
      forall i, j | 0 <= i < j < |r| ensures CompareTo(key(r[i]), key(r[j])) <= 0 {
        if i == 0 {
          CompareToAntisymmetric(key(s[0]), key(x));
          if j > 1 {
            CompareToTransitive(key(x), key(s[0]), key(s[j - 1]));
          }
        }
      }
    }
  }

  /** The sort's result is ordered, and is a permutation of its input. */
  lemma {:induction false} SortBySorted<T>(s: seq<T>, key: T -> string)
    ensures SortedBy(SortBy(s, key), key)
    ensures multiset(SortBy(s, key)) == multiset(s)
    decreases |s|
  {
    if s != [] {
      SortBySorted(s[1..], key);
      InsertSorted(s[0], SortBy(s[1..], key), key);
    }
  }

  /** A class's sort key. */
  function ClassNameOf(c: ClassInfo): string {
    c.className
  }

  /** The class summary's order: the grouped classes sorted by class name. */
  function ClassSummaryOrder(classInfos: seq<ClassInfo>): (r: seq<ClassInfo>)
    ensures multiset(r) == multiset(classInfos)
    ensures forall i, j :: 0 <= i < j < |r| ==> r[i].CompareTo(r[j]) <= 0
  {
    SortBySorted(classInfos, ClassNameOf);
    SortBy(classInfos, ClassNameOf)
  }

  /** A path's sort key; a null key never reaches it, since the sort fails before. */
  function PathOf(p: Option<string>): string {
    if p.Some? then p.value else ""
  }

  /**
   * The path summary's order: the keys sorted as strings. A null key among two or more
   * keys reaches String.compareTo and fails; a lone null key is not compared.
   */
  function SortedPaths(keys: seq<Option<string>>): (r: Result<seq<Option<string>>>)
    ensures r.Failure? <==> |keys| >= 2 && None in keys
    ensures r.Success? ==> multiset(r.value) == multiset(keys)
    ensures r.Success? && |keys| >= 2 ==> forall i, j :: 0 <= i < j < |r.value| ==>
      r.value[i].Some? && r.value[j].Some? && CompareTo(r.value[i].value, r.value[j].value) <= 0
  {
    if |keys| < 2 then Success(keys)
    else if None in keys then Failure(NullPointerException)
    else
      var sorted := SortBy(keys, PathOf);
      SortBySorted(keys, PathOf);
      assert forall i :: 0 <= i < |sorted| ==> sorted[i].Some? by {
        forall i | 0 <= i < |sorted| ensures sorted[i].Some? {
          assert sorted[i] in multiset(keys);
        }
      }
      Success(sorted)
  }
}
