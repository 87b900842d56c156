/**
 * The MutationObserver callback of `watchNode` in src/main.js: which
 * mutation records call the debounced repair.
 */
module MutationFilter {
  import opened Dom

  /** `node.id === targetId`, or an element containing `#targetId`. */
  predicate NodeMatches(n: Node, targetId: Id)
  {
    n.isElement && (n.id == targetId || targetId in n.descendantIds)
  }

  predicate WatchedAttribute(name: string)
  {
    name == "style" || name == "id" || name == "class"
  }

  /**
   * A record calls the repair when it removes the target or a node holding
   * it, or changes a watched attribute while `targetId` still resolves.
   */
  predicate RecordTriggers(r: Record, targetId: Id, targetResolves: bool)
  {
    match r
    case ChildList(removed) => exists j :: 0 <= j < |removed| && NodeMatches(removed[j], targetId)
    case Attribute(name, _) => targetResolves && WatchedAttribute(name)
  }

  /** The number of records of rs that trigger. */
  function CountTriggers(rs: seq<Record>, targetId: Id, targetResolves: bool): (n: nat)
    ensures n <= |rs|
    ensures n == 0 <==> forall i :: 0 <= i < |rs| ==> !RecordTriggers(rs[i], targetId, targetResolves)
    decreases |rs|
  {
    if rs == [] then 0
    else
      var n := CountTriggers(rs[..|rs| - 1], targetId, targetResolves);
      assert forall i :: 0 <= i < |rs| - 1 ==> rs[..|rs| - 1][i] == rs[i];
      n + if RecordTriggers(rs[|rs| - 1], targetId, targetResolves) then 1 else 0
  }

  /**
   * The observer callback's loops: returns how many times it calls the
   * debounced repair (once per triggering record: the inner loop stops at
   * the first matching node).  `targetResolves` is `getElementById(targetId)`,
   * which the batch cannot change.
   */
  method ScanRecords(rs: seq<Record>, targetId: Id, targetResolves: bool) returns (calls: nat)
    ensures calls == CountTriggers(rs, targetId, targetResolves)
    ensures calls > 0 <==> exists i :: 0 <= i < |rs| && RecordTriggers(rs[i], targetId, targetResolves)
  {
    calls := 0;
    for i := 0 to |rs|
      invariant calls == CountTriggers(rs[..i], targetId, targetResolves)
    {
      assert rs[..i + 1][..i] == rs[..i];
      match rs[i]
      case ChildList(removed) =>
        var j := 0;
        while j < |removed|
          invariant 0 <= j <= |removed|
          invariant forall k :: 0 <= k < j ==> !NodeMatches(removed[k], targetId)
        {
          if NodeMatches(removed[j], targetId) {
            calls := calls + 1;
            break;
          }
          j := j + 1;
        }
      case Attribute(name, _) =>
        if targetResolves && WatchedAttribute(name) {
          calls := calls + 1;
        }
    }
    assert rs[..|rs|] == rs;
  }
}
