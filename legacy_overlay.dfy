/**
 * The older overlay of index.js: two layers under fixed ids, drawn with
 * fixed settings, each watched by a MutationObserver whose repair callback
 * recreates its layer only when no element bears the layer's id.
 *
 * The data URI the canvas yields is passed in, as is the batch of mutation
 * records delivered to an observer (`Deliver`).  Observers that a later
 * `set` replaces in the module's slots stay connected, and every callback
 * re-watches a recreated layer through the slot's current observer.
 */
module LegacyOverlay {
  import opened Wrappers
  import opened Dom
  import LayerConfig
  import Times33
  import MutationFilter

  const MaskId: Id := "wm3.1415926"
  const InvisibleId: Id := "_wm3.1415926"

  function LayerId(invisible: bool): Id
  {
    if invisible then InvisibleId else MaskId
  }

  /** The locals `setWatermark` draws the canvas with and places the div by. */
  datatype Drawing = Drawing(
    size: int,
    angle: int,
    zIndex: int,
    font: string,
    color: LayerConfig.Color,
    str1: string,
    str2: string)

  /**
   * The locals of `setWatermark`: set for the visible layer (the second
   * line already hashed), then overwritten for the shadow layer.
   */
  method LayerSetup(str1: string, str2: string, invisible: bool) returns (d: Drawing)
    ensures !invisible ==>
              d == Drawing(148, -30, 10000, "24px Arial", LayerConfig.Rgba(128, 128, 128, "0.1"), str1, Times33.HashShort(str2))
    ensures invisible ==>
              d == Drawing(120, 30, 10001, "22px Arial", LayerConfig.Rgba(220, 220, 220, "0.05"), Times33.HashShort(str1), "")
    ensures d.zIndex == LayerConfig.ZIndexFor(invisible)
    ensures invisible ==> 1 <= |d.str1| <= 8
  {
    var s1, s2 := str1, str2;
    var size := 148;
    var angle := -30;
    var zIndex := 10000;
    var fontSize := "24px Arial";
    var color := LayerConfig.Rgba(128, 128, 128, "0.1");
    s2 := Times33.HashShort(s2);
    if invisible {
      size := 120;
      angle := 30;
      zIndex := 10001;
      fontSize := "22px Arial";
      color := LayerConfig.Rgba(220, 220, 220, "0.05");
      s1 := Times33.HashShort(s1);
      s2 := "";
    }
    d := Drawing(size, angle, zIndex, fontSize, color, s1, s2);
  }

  /**
   * The div `setWatermark` appends: under body, at the layer's z-index,
   * with no opacity of its own (computed opacity 1) and no style lock.
   */
  function LayerElement(serial: nat, invisible: bool, url: string): Elem
  {
    Elem(serial, LayerId(invisible), true, false, false, 1.0, LayerConfig.ZIndexFor(invisible), url, false)
  }

  /**
   * One `watchNode` closure: the layer its callback repairs, the strings it
   * redraws with, and the elements whose attributes its observer watches.
   */
  datatype Watcher = Watcher(invisible: bool, str1: string, str2: string, observed: set<nat>)

  /** A removed node fires the callback only when its own id is the target's. */
  predicate NodeFires(n: Node, targetId: Id)
  {
    n.isElement && n.id == targetId
  }

  /** Whether a record makes the observer callback run the repair callback. */
  predicate RecordFires(r: Record, targetId: Id)
  {
    match r
    case ChildList(removed) => exists j :: 0 <= j < |removed| && NodeFires(removed[j], targetId)
    case Attribute(name, _) => name == "id" || name == "style"
  }

  /**
   * What the callbacks act on: the document, the next serial, the watchers
   * and the set of watchers whose observer is connected.
   */
  datatype Page = Page(doc: seq<Elem>, next: nat, watchers: seq<Watcher>, connected: set<nat>)

  /**
   * `observer.watch(element)` on the watcher in slot s: its observer watches
   * the element's attributes, and `observe` registers an observer that was
   * disconnected again.
   */
  function Observe(p: Page, s: nat, serial: nat): (r: Page)
    requires s < |p.watchers|
    ensures |r.watchers| == |p.watchers|
  {
    p.(watchers := p.watchers[s := p.watchers[s].(observed := p.watchers[s].observed + {serial})],
       connected := p.connected + {s})
  }

  /**
   * The repair callback of w, re-watching through slot s: when no element
   * bears the layer's id, `setWatermark` draws the layer again and the
   * watcher in slot s watches the new element; otherwise nothing happens.
   */
  function Repaired(p: Page, w: Watcher, s: nat, url: string): (r: Page)
    requires s < |p.watchers|
    ensures |r.watchers| == |p.watchers|
  {
    if GetElementById(p.doc, LayerId(w.invisible)).Some? then p
    else
      var drawn := p.(doc := RemoveById(p.doc, LayerId(w.invisible)) + [LayerElement(p.next, w.invisible, url)],
                      next := p.next + 1);
      Observe(drawn, s, p.next)
  }

  /** The loop over a childList record's removed nodes: one callback per matching node. */
  function AfterNodes(p: Page, w: Watcher, s: nat, nodes: seq<Node>, url: string): (r: Page)
    requires s < |p.watchers|
    ensures |r.watchers| == |p.watchers|
    decreases |nodes|
  {
    if nodes == [] then p
    else
      var q := AfterNodes(p, w, s, nodes[..|nodes| - 1], url);
      if NodeFires(nodes[|nodes| - 1], LayerId(w.invisible)) then Repaired(q, w, s, url) else q
  }

  /**
   * One record, as the observer callback's `switch` handles it: an `id` or
   * `style` change first removes the element bearing the changed node's
   * current id, then runs the callback.
   */
  function AfterRecord(p: Page, w: Watcher, s: nat, r: Record, url: string): (q: Page)
    requires s < |p.watchers|
    ensures |q.watchers| == |p.watchers|
  {
    match r
    case ChildList(removed) => AfterNodes(p, w, s, removed, url)
    case Attribute(name, targetId) =>
      if name == "id" || name == "style" then Repaired(p.(doc := RemoveById(p.doc, targetId)), w, s, url)
      else p
  }

  /** The observer callback on a batch: the records in order. */
  function AfterRecords(p: Page, w: Watcher, s: nat, rs: seq<Record>, url: string): (q: Page)
    requires s < |p.watchers|
    ensures |q.watchers| == |p.watchers|
    decreases |rs|
  {
    if rs == [] then p
    else AfterRecord(AfterRecords(p, w, s, rs[..|rs| - 1], url), w, s, rs[|rs| - 1], url)
  }

  /** After the repair callback an element bears the layer's id. */
  lemma RepairedRestores(p: Page, w: Watcher, s: nat, url: string)
    requires s < |p.watchers|
    ensures GetElementById(Repaired(p, w, s, url).doc, LayerId(w.invisible)).Some?
  {
    var id := LayerId(w.invisible);
    if GetElementById(p.doc, id).None? {
      var d := Repaired(p, w, s, url).doc;
      assert d[|d| - 1].id == id;
    }
  }

  /** A callback whose layer is present leaves the page as it is. */
  lemma RepairedKeepsPresent(p: Page, w: Watcher, s: nat, url: string)
    requires s < |p.watchers|
    requires exists i :: 0 <= i < |p.doc| && p.doc[i].id == LayerId(w.invisible)
    ensures Repaired(p, w, s, url) == p
  {
    var i :| 0 <= i < |p.doc| && p.doc[i].id == LayerId(w.invisible);
    assert GetElementById(p.doc, LayerId(w.invisible)).Some?;
  }

  /** Nodes that do not bear the target's id change nothing. */
  lemma {:induction false} QuietNodes(p: Page, w: Watcher, s: nat, nodes: seq<Node>, url: string)
    requires s < |p.watchers|
    requires forall j :: 0 <= j < |nodes| ==> !NodeFires(nodes[j], LayerId(w.invisible))
    ensures AfterNodes(p, w, s, nodes, url) == p
    decreases |nodes|
  {
    if nodes != [] {
      QuietNodes(p, w, s, nodes[..|nodes| - 1], url);
    }
  }

  /** A removed node bearing the target's id leaves the layer present. */
  lemma {:induction false} NodesRestore(p: Page, w: Watcher, s: nat, nodes: seq<Node>, url: string)
    requires s < |p.watchers|
    requires exists j :: 0 <= j < |nodes| && NodeFires(nodes[j], LayerId(w.invisible))
    ensures GetElementById(AfterNodes(p, w, s, nodes, url).doc, LayerId(w.invisible)).Some?
    decreases |nodes|
  {
    var last := nodes[|nodes| - 1];
    var q := AfterNodes(p, w, s, nodes[..|nodes| - 1], url);
    if NodeFires(last, LayerId(w.invisible)) {
      RepairedRestores(q, w, s, url);
    } else {
      var j :| 0 <= j < |nodes| && NodeFires(nodes[j], LayerId(w.invisible));
      assert nodes[..|nodes| - 1][j] == nodes[j];
      NodesRestore(p, w, s, nodes[..|nodes| - 1], url);
    }
  }

  /** A record that does not fire changes nothing. */
  lemma QuietRecord(p: Page, w: Watcher, s: nat, r: Record, url: string)
    requires s < |p.watchers| && !RecordFires(r, LayerId(w.invisible))
    ensures AfterRecord(p, w, s, r, url) == p
  {
    if r.ChildList? {
      QuietNodes(p, w, s, r.removed, url);
    }
  }

  /** A record that fires leaves the layer present. */
  lemma RecordRestores(p: Page, w: Watcher, s: nat, r: Record, url: string)
    requires s < |p.watchers| && RecordFires(r, LayerId(w.invisible))
    ensures GetElementById(AfterRecord(p, w, s, r, url).doc, LayerId(w.invisible)).Some?
  {
    match r
    case ChildList(removed) =>
      NodesRestore(p, w, s, removed, url);
    case Attribute(_, targetId) =>
      RepairedRestores(p.(doc := RemoveById(p.doc, targetId)), w, s, url);
  }

  /**
   * A batch in which some record fires ends with the layer present, and a
   * batch in which none fires changes nothing.
   */
  lemma {:induction false} BatchRestores(p: Page, w: Watcher, s: nat, rs: seq<Record>, url: string)
    requires s < |p.watchers|
    ensures (exists i :: 0 <= i < |rs| && RecordFires(rs[i], LayerId(w.invisible))) ==>
              GetElementById(AfterRecords(p, w, s, rs, url).doc, LayerId(w.invisible)).Some?
    ensures (forall i :: 0 <= i < |rs| ==> !RecordFires(rs[i], LayerId(w.invisible))) ==>
              AfterRecords(p, w, s, rs, url) == p
    decreases |rs|
  {
    if rs != [] {
      var init := rs[..|rs| - 1];
      var last := rs[|rs| - 1];
      var q := AfterRecords(p, w, s, init, url);
      BatchRestores(p, w, s, init, url);
      assert forall i :: 0 <= i < |init| ==> init[i] == rs[i];
      if RecordFires(last, LayerId(w.invisible)) {
        RecordRestores(q, w, s, last, url);
      } else {
        QuietRecord(q, w, s, last, url);
      }
    }
  }

  /**
   * The callback never disconnects an observer and connects at most the
   * slot's: when it redraws the layer, the slot's observer is connected
   * again, even after `remove` disconnected it.
   */
  lemma RepairedReconnects(p: Page, w: Watcher, s: nat, url: string)
    requires s < |p.watchers|
    ensures p.connected <= Repaired(p, w, s, url).connected <= p.connected + {s}
    ensures GetElementById(p.doc, LayerId(w.invisible)).None? ==> s in Repaired(p, w, s, url).connected
  {
  }

  /** The removed-node loop connects at most the slot's observer and disconnects none. */
  lemma {:induction false} NodesConnect(p: Page, w: Watcher, s: nat, nodes: seq<Node>, url: string)
    requires s < |p.watchers|
    ensures p.connected <= AfterNodes(p, w, s, nodes, url).connected <= p.connected + {s}
    decreases |nodes|
  {
    if nodes != [] {
      var init := nodes[..|nodes| - 1];
      NodesConnect(p, w, s, init, url);
      RepairedReconnects(AfterNodes(p, w, s, init, url), w, s, url);
    }
  }

  /** A batch connects at most the slot's observer and disconnects none. */
  lemma {:induction false} BatchConnects(p: Page, w: Watcher, s: nat, rs: seq<Record>, url: string)
    requires s < |p.watchers|
    ensures p.connected <= AfterRecords(p, w, s, rs, url).connected <= p.connected + {s}
    decreases |rs|
  {
    if rs != [] {
      var init := rs[..|rs| - 1];
      var q := AfterRecords(p, w, s, init, url);
      BatchConnects(p, w, s, init, url);
      match rs[|rs| - 1]
      case ChildList(removed) =>
        NodesConnect(q, w, s, removed, url);
      case Attribute(_, targetId) =>
        RepairedReconnects(q.(doc := RemoveById(q.doc, targetId)), w, s, url);
    }
  }

  /**
   * Unlike src/main.js, a childList removal of a node that holds the
   * target, without bearing its id, does not fire.
   */
  lemma NoDescendantCheck(n: Node, invisible: bool, resolves: bool)
    requires n.isElement && n.id != LayerId(invisible) && LayerId(invisible) in n.descendantIds
    ensures !RecordFires(ChildList([n]), LayerId(invisible))
    ensures MutationFilter.RecordTriggers(ChildList([n]), LayerId(invisible), resolves)
  {
    assert MutationFilter.NodeMatches([n][0], LayerId(invisible));
  }

  /** The document `set` leaves: each layer's old element replaced, mask first. */
  function SetDoc(doc: seq<Elem>, n: nat, maskUrl: string, shadowUrl: string): seq<Elem>
  {
    RemoveById(RemoveById(doc, MaskId), InvisibleId) + [LayerElement(n, false, maskUrl), LayerElement(n + 1, true, shadowUrl)]
  }

  /**
   * With at most one element per layer id in the page, `set` leaves exactly
   * one per layer id, and a following `remove` leaves none.
   */
  lemma SetThenRemove(doc: seq<Elem>, n: nat, maskUrl: string, shadowUrl: string)
    requires CountId(doc, MaskId) <= 1 && CountId(doc, InvisibleId) <= 1
    ensures CountId(SetDoc(doc, n, maskUrl, shadowUrl), MaskId) == 1
    ensures CountId(SetDoc(doc, n, maskUrl, shadowUrl), InvisibleId) == 1
    ensures var d := RemoveById(RemoveById(SetDoc(doc, n, maskUrl, shadowUrl), MaskId), InvisibleId);
            CountId(d, MaskId) == 0 && CountId(d, InvisibleId) == 0
  {
    var m := LayerElement(n, false, maskUrl);
    var sh := LayerElement(n + 1, true, shadowUrl);
    var d1 := RemoveById(doc, MaskId);
    var d2 := RemoveById(d1, InvisibleId);
    var d := SetDoc(doc, n, maskUrl, shadowUrl);
    assert d == d2 + [m] + [sh];
    RemoveByIdCount(doc, MaskId);
    RemoveByIdCount(doc, InvisibleId);
    RemoveByIdCount(d1, MaskId);
    RemoveByIdCount(d1, InvisibleId);
    RemoveByIdCount(d2, MaskId);
    RemoveByIdCount(d2, InvisibleId);
    assert CountId(d1, InvisibleId) <= 1 by {
      RemoveByIdOthers(doc, MaskId, InvisibleId);
    }
    assert CountId(d2, MaskId) == 0 by {
      RemoveByIdOthers(d1, InvisibleId, MaskId);
    }
    CountConcat(d2 + [m], [sh], MaskId);
    CountConcat(d2, [m], MaskId);
    CountConcat(d2 + [m], [sh], InvisibleId);
    CountConcat(d2, [m], InvisibleId);
    RemoveByIdCount(d, MaskId);
    var e1 := RemoveById(d, MaskId);
    RemoveByIdCount(e1, InvisibleId);
    RemoveByIdOthers(d, MaskId, InvisibleId);
    RemoveByIdOthers(e1, InvisibleId, MaskId);
  }

  class Session {
    var doc: seq<Elem>
    /** The `watchNode` results `set` stored last, as watcher indices; null before the first `set`. */
    var maskObserver: Option<nat>
    var invisibleObserver: Option<nat>
    /** Every `watchNode` closure created so far. */
    var watchers: seq<Watcher>
    /** The watchers whose observer is connected. */
    var connected: set<nat>
    /** The serial the next created element gets. */
    var nextSerial: nat

    /** Both slots are set once a `set` has run, and then hold watchers. */
    ghost predicate Valid()
      reads this`maskObserver, this`invisibleObserver, this`watchers
    {
      && (maskObserver.Some? <==> |watchers| > 0)
      && (invisibleObserver.Some? <==> |watchers| > 0)
      && (maskObserver.Some? ==> maskObserver.value < |watchers|)
      && (invisibleObserver.Some? ==> invisibleObserver.value < |watchers|)
    }

    function Snapshot(): Page
      reads this`doc, this`nextSerial, this`watchers, this`connected
    {
      Page(doc, nextSerial, watchers, connected)
    }

    /** The slot whose observer a layer's callback re-watches through. */
    function Slot(invisible: bool): Option<nat>
      reads this`maskObserver, this`invisibleObserver
    {
      if invisible then invisibleObserver else maskObserver
    }

    /** The module as loaded into a page holding `page`. */
    constructor (page: seq<Elem>)
      ensures Valid()
      ensures doc == page && maskObserver.None? && invisibleObserver.None?
      ensures watchers == [] && connected == {} && nextSerial == SerialBound(page)
    {
      doc := page;
      maskObserver, invisibleObserver := None, None;
      watchers, connected := [], {};
      nextSerial := SerialBound(page);
    }

    /** `removeNode(id)`: removes the first element bearing id, if any. */
    method RemoveNode(id: Id)
      modifies this`doc
      ensures doc == RemoveById(old(doc), id)
    {
      RemoveByIdFound(doc, id);
      var elem := GetElementById(doc, id);
      if elem.Some? {
        doc := Without(doc, elem.value);
      }
    }

    /**
     * `setWatermark(str1, str2, invisible)`: removes the element bearing the
     * layer's id, then appends a new div for the layer and returns it.
     */
    method SetWatermark(str1: string, str2: string, invisible: bool, url: string) returns (div: nat)
      modifies this`doc, this`nextSerial
      ensures div == old(nextSerial) && nextSerial == old(nextSerial) + 1
      ensures doc == RemoveById(old(doc), LayerId(invisible)) + [LayerElement(div, invisible, url)]
    {
      var realId := LayerId(invisible);
      RemoveNode(realId);
      var d := LayerSetup(str1, str2, invisible);
      div := nextSerial;
      nextSerial := nextSerial + 1;
      doc := doc + [Elem(div, realId, true, false, false, 1.0, d.zIndex, url, false)];
    }

    /**
     * `watchNode(elem, targetId, callback)`: nothing for a detached element;
     * otherwise a connected observer that watches the element's attributes.
     */
    method WatchNode(elem: nat, invisible: bool, str1: string, str2: string) returns (w: Option<nat>)
      modifies this`watchers, this`connected
      ensures !Attached(doc, elem) ==> w.None? && watchers == old(watchers) && connected == old(connected)
      ensures Attached(doc, elem) ==>
                var n := |old(watchers)|;
                && w == Some(n)
                && watchers == old(watchers) + [Watcher(invisible, str1, str2, {elem})]
                && connected == old(connected) + {n}
    {
      if !Attached(doc, elem) {
        return None;
      }
      w := Some(|watchers|);
      watchers := watchers + [Watcher(invisible, str1, str2, {elem})];
      connected := connected + {w.value};
    }

    /**
     * `watermark.set(str1, str2 = '')`: replaces both layers, then watches
     * each with a new observer stored in its slot.  Earlier observers stay
     * connected.
     */
    method Set(str1: string, str2: Option<string>, maskUrl: string, shadowUrl: string)
      requires Valid()
      modifies this`doc, this`nextSerial, this`watchers, this`connected, this`maskObserver, this`invisibleObserver
      ensures Valid()
      ensures doc == SetDoc(old(doc), old(nextSerial), maskUrl, shadowUrl)
      ensures nextSerial == old(nextSerial) + 2
      ensures var m := |old(watchers)|;
              var s2 := LayerConfig.Or(str2, "");
              && watchers == old(watchers) + [Watcher(false, str1, s2, {old(nextSerial)})]
                                           + [Watcher(true, str1, s2, {old(nextSerial) + 1})]
              && connected == old(connected) + {m} + {m + 1}
              && maskObserver == Some(m) && invisibleObserver == Some(m + 1)
    {
      var s2 := LayerConfig.Or(str2, "");
      ghost var base := RemoveById(doc, MaskId);
      var maskTarget := SetWatermark(str1, s2, false, maskUrl);
      ghost var maskElem := LayerElement(maskTarget, false, maskUrl);
      var invisibleTarget := SetWatermark(str1, s2, true, shadowUrl);
      RemoveByIdKeepsLast(base, maskElem, InvisibleId);
      assert doc[|doc| - 2].serial == maskTarget && doc[|doc| - 1].serial == invisibleTarget;
      maskObserver := WatchNode(maskTarget, false, str1, s2);
      invisibleObserver := WatchNode(invisibleTarget, true, str1, s2);
    }

    /**
     * `watermark.remove()`: removes both layers' elements, then disconnects
     * the observers in both slots; before any `set` the slot is null and
     * reading its observer throws.
     */
    method Remove() returns (threw: bool)
      requires Valid()
      modifies this`doc, this`connected
      ensures doc == RemoveById(RemoveById(old(doc), MaskId), InvisibleId)
      ensures threw <==> maskObserver.None?
      ensures threw ==> connected == old(connected)
      ensures !threw ==> connected == old(connected) - {maskObserver.value} - {invisibleObserver.value}
    {
      RemoveNode(MaskId);
      RemoveNode(InvisibleId);
      if maskObserver.None? {
        return true;
      }
      connected := connected - {maskObserver.value};
      connected := connected - {invisibleObserver.value};
      threw := false;
    }

    /**
     * The repair callback of watcher w: when no element bears its layer's
     * id, draw the layer again and watch the new element through the
     * layer's slot.
     */
    method Callback(w: Watcher, url: string)
      requires Valid() && |watchers| > 0
      modifies this`doc, this`nextSerial, this`watchers, this`connected
      ensures Valid()
      ensures Snapshot() == Repaired(old(Snapshot()), w, Slot(w.invisible).value, url)
    {
      var target := GetElementById(doc, LayerId(w.invisible));
      if target.None? {
        var div := SetWatermark(w.str1, w.str2, w.invisible, url);
        var s := Slot(w.invisible).value;
        watchers := watchers[s := watchers[s].(observed := watchers[s].observed + {div})];
        connected := connected + {s};
      }
    }

    /**
     * Watcher k's observer receives a batch of records: a disconnected one
     * receives nothing; a connected one handles the records in order.
     */
    method Deliver(k: nat, records: seq<Record>, url: string)
      requires Valid() && k < |watchers|
      modifies this`doc, this`nextSerial, this`watchers, this`connected
      ensures Valid()
      ensures k !in old(connected) ==> Snapshot() == old(Snapshot())
      ensures k in old(connected) ==>
                var w := old(watchers)[k];
                Snapshot() == AfterRecords(old(Snapshot()), w, Slot(w.invisible).value, records, url)
    {
      if k !in connected {
        return;
      }
      var w := watchers[k];
      var s := Slot(w.invisible).value;
      ghost var p0 := Snapshot();
      for i := 0 to |records|
        invariant Valid() && |watchers| == |p0.watchers|
        invariant Snapshot() == AfterRecords(p0, w, s, records[..i], url)
      {
        assert records[..i + 1][..i] == records[..i];
        ghost var pi := Snapshot();
        match records[i]
        case ChildList(removed) =>
          for j := 0 to |removed|
            invariant Valid() && |watchers| == |p0.watchers|
            invariant Snapshot() == AfterNodes(pi, w, s, removed[..j], url)
          {
            assert removed[..j + 1][..j] == removed[..j];
            if NodeFires(removed[j], LayerId(w.invisible)) {
              Callback(w, url);
            }
          }
          assert removed[..|removed|] == removed;
        case Attribute(name, targetId) =>
          if name == "id" || name == "style" {
            RemoveNode(targetId);
            Callback(w, url);
          }
      }
      assert records[..|records|] == records;
    }
  }
}
