/**
 * A realtime-database snapshot as the listeners see it: the children in
 * snapshot order, each with its key and its payload decoded to the wanted
 * type (`None` when `getValue` gives null).
 */
module Snapshot {
  import opened Wrappers
  import opened TripModel

  datatype Child<T> = Child(key: Option<string>, value: Option<T>)

  /** What one child adds to the trip list: its trip with `id` set to the key (or "" without one). */
  function Pick(c: Child<Trip>): (r: seq<Trip>)
    ensures c.value.None? ==> r == []
    ensures c.value.Some? ==> r == [WithId(c.value.value, c.key.GetOr(""))]
  {
    match c.value
    case None => []
    case Some(t) => [WithId(t, c.key.GetOr(""))]
  }

  /** The trips a listener tick collects: non-null payloads, in snapshot order, re-keyed. */
  function Rebuilt(children: seq<Child<Trip>>): (r: seq<Trip>)
    ensures |r| <= |children|
  {
    if children == [] then []
    else Rebuilt(children[..|children| - 1]) + Pick(children[|children| - 1])
  }

  /** The rebuild is computed child by child: two halves of a snapshot rebuild to the two halves of the list. */
  lemma {:induction false} RebuiltConcat(a: seq<Child<Trip>>, b: seq<Child<Trip>>)
    ensures Rebuilt(a + b) == Rebuilt(a) + Rebuilt(b)
  {
    if b == [] {
      assert a + b == a;
    } else {
      var b' := b[..|b| - 1];
      assert (a + b)[..|a + b| - 1] == a + b';
      assert (a + b)[|a + b| - 1] == b[|b| - 1];
      RebuiltConcat(a, b');
    }
  }

  /** One trip per non-null child, and each trip carries its child's key. */
  lemma {:induction false} RebuiltMembers(children: seq<Child<Trip>>, t: Trip)
    ensures t in Rebuilt(children) <==>
            exists i :: 0 <= i < |children| && children[i].value.Some? &&
                        t == WithId(children[i].value.value, children[i].key.GetOr(""))
  {
    if children != [] {
      var init := children[..|children| - 1];
      RebuiltMembers(init, t);
      if exists i :: 0 <= i < |children| && children[i].value.Some? &&
                     t == WithId(children[i].value.value, children[i].key.GetOr("")) {
        var i :| 0 <= i < |children| && children[i].value.Some? &&
                 t == WithId(children[i].value.value, children[i].key.GetOr(""));
        if i < |init| {
          assert init[i] == children[i];
        }
      }
    }
  }

  /** A snapshot without null payloads rebuilds to exactly as many trips as it has children. */
  lemma {:induction false} RebuiltLength(children: seq<Child<Trip>>)
    requires forall i :: 0 <= i < |children| ==> children[i].value.Some?
    ensures |Rebuilt(children)| == |children|
  {
    if children != [] {
      RebuiltLength(children[..|children| - 1]);
    }
  }
}
