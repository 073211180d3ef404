/** EndPoint and the collector's index from path to the end-points registered under it. */
module EndPoints {
  import opened Nullable
  import opened Classes
  import opened Methods

  /** One end-point: the composed path (None when neither class nor method has one), class and method. */
  datatype EndPoint = EndPoint(path: Option<string>, classInfo: ClassInfo, methodInfo: MethodInfo)

  /** The path index; a HashMap, so the absent path is a key of its own. */
  type PathMap = map<Option<string>, seq<EndPoint>>

  /** The list under a key, empty when the key is absent. */
  function Lookup(m: PathMap, p: Option<string>): seq<EndPoint> {
    if p in m then m[p] else []
  }

  /** Every list is non-empty and holds only end-points whose path is its key. */
  predicate WellFormed(m: PathMap) {
    forall p :: p in m ==> m[p] != [] && forall e :: e in m[p] ==> e.path == p
  }

  /**
   * addPathInfo on the map: the end-point goes to the end of its path's list, which
   * is created when absent.
   */
  function Appended(m: PathMap, e: EndPoint): (r: PathMap)
    ensures r.Keys == m.Keys + {e.path}
  {
    m[e.path := Lookup(m, e.path) + [e]]
  }

  /** Only the end-point's own list grows, by exactly that end-point at its end. */
  lemma AppendedLookup(m: PathMap, e: EndPoint, p: Option<string>)
    ensures Lookup(Appended(m, e), p) == Lookup(m, p) + (if p == e.path then [e] else [])
  {
  }

  /** Appending keeps every list non-empty and keyed by its end-points' path. */
  lemma AppendedWellFormed(m: PathMap, e: EndPoint)
    requires WellFormed(m)
    ensures WellFormed(Appended(m, e))
  {
  }

  /** A run of addPathInfo calls, in order. */
  function AppendedAll(m: PathMap, es: seq<EndPoint>): (r: PathMap)
    decreases |es|
  {
    if es == [] then m else Appended(AppendedAll(m, es[..|es| - 1]), es[|es| - 1])
  }

  /** A run of appends keeps the map well formed. */
  lemma {:induction false} AppendedAllWellFormed(m: PathMap, es: seq<EndPoint>)
    requires WellFormed(m)
    ensures WellFormed(AppendedAll(m, es))
    decreases |es|
  {
    if es != [] {
      AppendedAllWellFormed(m, es[..|es| - 1]);
      AppendedWellFormed(AppendedAll(m, es[..|es| - 1]), es[|es| - 1]);
    }
  }

  /** The end-points of a list with a given path, in order. */
  function EndPointsAt(es: seq<EndPoint>, p: Option<string>): (r: seq<EndPoint>)
    ensures |r| <= |es|
    ensures forall e :: e in r ==> e in es && e.path == p
    decreases |es|
  {
    if es == [] then []
    else
      var last := es[|es| - 1];
      EndPointsAt(es[..|es| - 1], p) + (if last.path == p then [last] else [])
  }

  /** After a run of appends each list is its old contents followed by the new end-points with that path. */
  lemma {:induction false} AppendedAllLookup(m: PathMap, es: seq<EndPoint>, p: Option<string>)
    ensures Lookup(AppendedAll(m, es), p) == Lookup(m, p) + EndPointsAt(es, p)
    decreases |es|
  {
    if es != [] {
      AppendedAllLookup(m, es[..|es| - 1], p);
      AppendedLookup(AppendedAll(m, es[..|es| - 1]), es[|es| - 1], p);
    }
  }

  /** After a run of appends the keys are the old keys and the new paths. */
  lemma {:induction false} AppendedAllKeys(m: PathMap, es: seq<EndPoint>, p: Option<string>)
    ensures p in AppendedAll(m, es) <==> p in m || exists i :: 0 <= i < |es| && es[i].path == p
    decreases |es|
  {
    if es != [] {
      var front := es[..|es| - 1];
      AppendedAllKeys(m, front, p);
      if exists i :: 0 <= i < |front| && front[i].path == p {
        var i :| 0 <= i < |front| && front[i].path == p;
        assert es[i] == front[i];
      }
      if exists i :: 0 <= i < |es| && es[i].path == p {
        var i :| 0 <= i < |es| && es[i].path == p;
        if i < |front| {
          assert front[i] == es[i];
        }
      }
    }
  }

  /** Two runs of appends in a row are one run over the concatenation. */
  lemma {:induction false} AppendedAllConcat(m: PathMap, a: seq<EndPoint>, b: seq<EndPoint>)
    ensures AppendedAll(AppendedAll(m, a), b) == AppendedAll(m, a + b)
    decreases |b|
  {
    if b == [] {
      assert a + b == a;
    } else {
      var front := b[..|b| - 1];
      AppendedAllConcat(m, a, front);
      assert (a + b)[..|a + b| - 1] == a + front;
      assert (a + b)[|a + b| - 1] == b[|b| - 1];
      calc {
        AppendedAll(m, a + b);
        Appended(AppendedAll(m, a + front), b[|b| - 1]);
        Appended(AppendedAll(AppendedAll(m, a), front), b[|b| - 1]);
        AppendedAll(AppendedAll(m, a), b);
      }
    }
  }
}
