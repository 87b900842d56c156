/**
 * The part of the page both overlay variants touch.  The document is the
 * sequence of its elements in tree order, so `getElementById` finds the
 * first element bearing an id and `removeNode` removes only that one; ids
 * need not be unique, as in a real page.  The page is flat: an element
 * has no children, so removing or moving one leaves the others in place.
 * Computed style is already decoded into the fields of `Elem`.
 */
module Dom {
  import opened Wrappers

  type Id = string

  datatype Elem = Elem(
    serial: nat,            // object identity: two distinct elements never share it
    id: Id,
    underBody: bool,        // parentNode is document.body
    displayNone: bool,      // computed display is 'none'
    visibilityHidden: bool, // computed visibility is 'hidden'
    opacity: real,          // computed opacity
    zIndex: int,            // parseInt of the computed z-index
    background: string,     // data URI of the tiled bitmap
    locked: bool)           // display, visibility and opacity setters swallow writes

  /** A node of a `removedNodes` list: its id and the ids below it (for `querySelector`). */
  datatype Node = Node(isElement: bool, id: Id, descendantIds: set<Id>)

  /** A mutation record; `targetId` is the current id of an attribute record's target. */
  datatype Record = ChildList(removed: seq<Node>) | Attribute(name: string, targetId: Id)

  /** The first element bearing id, in tree order. */
  function Find(doc: seq<Elem>, id: Id): (r: Option<nat>)
    ensures r.Some? ==> r.value < |doc| && doc[r.value].id == id
    ensures r.Some? ==> forall j :: 0 <= j < r.value ==> doc[j].id != id
    ensures r.None? ==> forall j :: 0 <= j < |doc| ==> doc[j].id != id
    decreases |doc|
  {
    if doc == [] then None
    else if doc[0].id == id then Some(0)
    else match Find(doc[1..], id)
      case None => None
      case Some(k) => Some(k + 1)
  }

  /** `document.getElementById`: the empty id never matches. */
  function GetElementById(doc: seq<Elem>, id: Id): (r: Option<nat>)
    ensures r.Some? ==> id != "" && r.value < |doc| && doc[r.value].id == id
    ensures r.None? ==> id == "" || forall j :: 0 <= j < |doc| ==> doc[j].id != id
  {
    if id == "" then None else Find(doc, id)
  }

  function Without(doc: seq<Elem>, i: nat): (r: seq<Elem>)
    requires i < |doc|
    ensures |r| == |doc| - 1
    ensures forall j :: 0 <= j < |r| ==> r[j] == doc[if j < i then j else j + 1]
  {
    doc[..i] + doc[i + 1..]
  }

  /** The document after `removeNode(id)`: the empty id removes nothing. */
  function RemoveById(doc: seq<Elem>, id: Id): seq<Elem>
  {
    if id == "" then doc else RemoveFirst(doc, id)
  }

  /** doc without its first element bearing id. */
  function RemoveFirst(doc: seq<Elem>, id: Id): seq<Elem>
    decreases |doc|
  {
    if doc == [] then doc
    else if doc[0].id == id then doc[1..]
    else [doc[0]] + RemoveFirst(doc[1..], id)
  }

  lemma {:induction false} RemoveFirstFound(doc: seq<Elem>, id: Id)
    ensures Find(doc, id).None? ==> RemoveFirst(doc, id) == doc
    ensures Find(doc, id).Some? ==> RemoveFirst(doc, id) == Without(doc, Find(doc, id).value)
    decreases |doc|
  {
    if doc == [] {
    } else if doc[0].id == id {
      assert Without(doc, 0) == doc[1..];
    } else {
      var t := doc[1..];
      RemoveFirstFound(t, id);
      if Find(t, id).None? {
        assert [doc[0]] + t == doc;
      } else {
        ConsWithout(doc, Find(t, id).value);
      }
    }
  }

  lemma ConsWithout(doc: seq<Elem>, k: nat)
    requires k + 1 < |doc|
    ensures [doc[0]] + Without(doc[1..], k) == Without(doc, k + 1)
  {
    assert doc[..k + 1] == [doc[0]] + doc[1..][..k];
    assert doc[k + 2..] == doc[1..][k + 1..];
  }

  /** `removeNode` takes out exactly the element `getElementById` finds, if any. */
  lemma RemoveByIdFound(doc: seq<Elem>, id: Id)
    ensures RemoveById(doc, id) == match GetElementById(doc, id)
                                   case None => doc
                                   case Some(i) => Without(doc, i)
  {
    if id != "" {
      RemoveFirstFound(doc, id);
    }
  }

  predicate Attached(doc: seq<Elem>, serial: nat)
  {
    exists i :: 0 <= i < |doc| && doc[i].serial == serial
  }

  function CountId(doc: seq<Elem>, id: Id): nat
    decreases |doc|
  {
    if doc == [] then 0 else CountId(doc[1..], id) + if doc[0].id == id then 1 else 0
  }

  lemma {:induction false} CountConcat(a: seq<Elem>, b: seq<Elem>, id: Id)
    ensures CountId(a + b, id) == CountId(a, id) + CountId(b, id)
    decreases |a|
  {
    if a == [] {
      assert a + b == b;
    } else {
      assert (a + b)[1..] == a[1..] + b;
      CountConcat(a[1..], b, id);
    }
  }

  lemma {:induction false} CountAbsent(doc: seq<Elem>, id: Id)
    requires forall j :: 0 <= j < |doc| ==> doc[j].id != id
    ensures CountId(doc, id) == 0
    decreases |doc|
  {
    if doc != [] {
      CountAbsent(doc[1..], id);
    }
  }

  /** `removeNode` removes one element bearing id when there is one, and none otherwise. */
  lemma RemoveByIdCount(doc: seq<Elem>, id: Id)
    requires id != ""
    ensures CountId(RemoveById(doc, id), id) == if CountId(doc, id) == 0 then 0 else CountId(doc, id) - 1
  {
    RemoveByIdFound(doc, id);
    match Find(doc, id)
    case None =>
      CountAbsent(doc, id);
    case Some(i) =>
      assert doc == doc[..i] + [doc[i]] + doc[i + 1..];
      CountConcat(doc[..i] + [doc[i]], doc[i + 1..], id);
      CountConcat(doc[..i], [doc[i]], id);
      CountConcat(doc[..i], doc[i + 1..], id);
      CountAbsent(doc[..i], id);
  }

  /** `removeNode(id)` leaves the elements bearing any other id alone. */
  lemma RemoveByIdOthers(doc: seq<Elem>, id: Id, other: Id)
    requires other != id
    ensures CountId(RemoveById(doc, id), other) == CountId(doc, other)
  {
    if id != "" {
      RemoveFirstOthers(doc, id, other);
    }
  }

  lemma {:induction false} RemoveFirstOthers(doc: seq<Elem>, id: Id, other: Id)
    requires other != id
    ensures CountId(RemoveFirst(doc, id), other) == CountId(doc, other)
    decreases |doc|
  {
    if doc != [] && doc[0].id != id {
      var t := RemoveFirst(doc[1..], id);
      assert ([doc[0]] + t)[1..] == t;
      RemoveFirstOthers(doc[1..], id, other);
    }
  }

  /**
   * Removing the element bearing id and appending a new one leaves exactly
   * one element with that id whenever there was at most one before.
   */
  lemma ReplaceLeavesOne(doc: seq<Elem>, id: Id, e: Elem)
    requires id != "" && e.id == id && CountId(doc, id) <= 1
    ensures CountId(RemoveById(doc, id) + [e], id) == 1
  {
    RemoveByIdCount(doc, id);
    CountConcat(RemoveById(doc, id), [e], id);
  }

  /** Every element of doc has a serial below n. */
  predicate SerialsBelow(doc: seq<Elem>, n: nat)
  {
    forall i :: 0 <= i < |doc| ==> doc[i].serial < n
  }

  function SerialBound(doc: seq<Elem>): (n: nat)
    ensures SerialsBelow(doc, n)
    decreases |doc|
  {
    if doc == [] then 0
    else
      var m := SerialBound(doc[1..]);
      if doc[0].serial + 1 > m then doc[0].serial + 1 else m
  }

  /** `removeNode` of an id that a trailing element does not bear leaves that element in place. */
  lemma RemoveByIdKeepsLast(doc: seq<Elem>, x: Elem, id: Id)
    requires x.id != id
    ensures RemoveById(doc + [x], id) == RemoveById(doc, id) + [x]
  {
    if id != "" {
      RemoveFirstKeepsLast(doc, x, id);
    }
  }

  lemma {:induction false} RemoveFirstKeepsLast(doc: seq<Elem>, x: Elem, id: Id)
    requires x.id != id
    ensures RemoveFirst(doc + [x], id) == RemoveFirst(doc, id) + [x]
    decreases |doc|
  {
    if doc == [] {
      assert RemoveFirst([x], id) == [x] + RemoveFirst([], id);
    } else {
      assert (doc + [x])[0] == doc[0];
      assert (doc + [x])[1..] == doc[1..] + [x];
      RemoveFirstKeepsLast(doc[1..], x, id);
    }
  }

  /** Two elements bearing the same id make it count at least twice. */
  lemma {:induction false} CountTwo(doc: seq<Elem>, id: Id, i: nat, j: nat)
    requires i < j < |doc| && doc[i].id == id && doc[j].id == id
    ensures CountId(doc, id) >= 2
    decreases |doc|
  {
    if i == 0 {
      CountOne(doc[1..], id, j - 1);
    } else {
      CountTwo(doc[1..], id, i - 1, j - 1);
    }
  }

  lemma {:induction false} CountOne(doc: seq<Elem>, id: Id, j: nat)
    requires j < |doc| && doc[j].id == id
    ensures CountId(doc, id) >= 1
    decreases |doc|
  {
    if j > 0 {
      CountOne(doc[1..], id, j - 1);
    }
  }

  /** When at most one element bears id, `getElementById` finds that one. */
  lemma FindUnique(doc: seq<Elem>, id: Id, j: nat)
    requires id != "" && j < |doc| && doc[j].id == id && CountId(doc, id) <= 1
    ensures GetElementById(doc, id) == Some(j)
  {
    var f := Find(doc, id);
    if f.Some? && f.value < j {
      CountTwo(doc, id, f.value, j);
    }
  }

  /** Moving an element to the end keeps the count of every id. */
  lemma MoveToEndCount(doc: seq<Elem>, i: nat, e: Elem, id: Id)
    requires i < |doc| && e.id == doc[i].id
    ensures CountId(Without(doc, i) + [e], id) == CountId(doc, id)
  {
    assert doc == doc[..i] + [doc[i]] + doc[i + 1..];
    CountConcat(doc[..i] + [doc[i]], doc[i + 1..], id);
    CountConcat(doc[..i], [doc[i]], id);
    CountConcat(doc[..i], doc[i + 1..], id);
    CountConcat(Without(doc, i), [e], id);
    assert CountId([e], id) == CountId([doc[i]], id);
  }

  /** Updating an element without changing its id keeps the count of every id. */
  lemma {:induction false} UpdateCount(doc: seq<Elem>, i: nat, e: Elem, id: Id)
    requires i < |doc| && e.id == doc[i].id
    ensures CountId(doc[i := e], id) == CountId(doc, id)
    decreases |doc|
  {
    if i > 0 {
      assert doc[i := e][1..] == doc[1..][i - 1 := e];
      UpdateCount(doc[1..], i - 1, e, id);
    }
  }
}
