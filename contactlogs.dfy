/**
 * Identity resolution and deduplication: the two registries that map an
 * ephemeral identifier to the payload last read from it, and a payload to
 * its `Target`; the handlers that update them for detect, read, share,
 * measure and receive events; and the de-duplicated, sorted view of the
 * targets (`updateTargets`).
 *
 * A `Target` is a record here; the handlers replace the map entry where the
 * application mutates the object in place.
 */
module Contactlogs {
  import opened Datatypes
  import opened DisplayOrder

  /** `Proximity`: an opaque measurement. */
  datatype Proximity = Proximity(measurement: int)

  /** `ImmediateSendData`: data pushed by a peer. */
  datatype ImmediateSendData = ImmediateSendData(data: Data)

  /** `Target`: what is known about one payload identity. */
  datatype Target = Target(
    targetIdentifier: TargetIdentifier,
    payloadData: PayloadData,
    lastUpdatedAt: int,
    proximity: Option<Proximity>,
    received: Option<ImmediateSendData>)

  /** `new Target(identifier, payload)`, created at `now`. */
  function NewTarget(id: TargetIdentifier, p: PayloadData, now: int): Target {
    Target(id, p, now, None, None)
  }

  /** `targetIdentifiers` and `payloads`. */
  datatype Tables = Tables(
    targetIdentifiers: map<TargetIdentifier, PayloadData>,
    payloads: map<PayloadData, Target>)

  /**
   * Every target is filed under its own payload (so no payload has two
   * targets), and every identifier resolves to a payload that has a target.
   */
  predicate WellFormed(t: Tables) {
    && (forall p :: p in t.payloads ==> t.payloads[p].payloadData == p)
    && (forall id :: id in t.targetIdentifiers ==> t.targetIdentifiers[id] in t.payloads)
  }

  // ---------------------------------------------------------------------------
  // Event handlers, as functions of the registries
  // ---------------------------------------------------------------------------

  /**
   * A read of payload `p` from `id`: `id` now resolves to `p`; an existing
   * target for `p` only has its recency refreshed, otherwise one new target
   * is filed under `p`.
   */
  function RecordRead(t: Tables, p: PayloadData, id: TargetIdentifier, now: int): (r: Tables)
    ensures WellFormed(t) ==> WellFormed(r)
  {
    Tables(
      t.targetIdentifiers[id := p],
      if p in t.payloads then t.payloads[p := t.payloads[p].(lastUpdatedAt := now)]
      else t.payloads[p := NewTarget(id, p, now)])
  }

  /** Reading a payload adds at most one target, and only under that payload. */
  lemma ReadAddsAtMostOneTarget(t: Tables, p: PayloadData, id: TargetIdentifier, now: int)
    ensures RecordRead(t, p, id, now).targetIdentifiers[id] == p
    ensures RecordRead(t, p, id, now).payloads.Keys == t.payloads.Keys + {p}
    ensures |RecordRead(t, p, id, now).payloads| == |t.payloads| + (if p in t.payloads then 0 else 1)
    ensures forall q :: q in t.payloads && q != p ==> RecordRead(t, p, id, now).payloads[q] == t.payloads[q]
    ensures p in t.payloads ==>
              RecordRead(t, p, id, now).payloads[p] == t.payloads[p].(lastUpdatedAt := now)
    ensures p !in t.payloads ==> RecordRead(t, p, id, now).payloads[p] == NewTarget(id, p, now)
  {
    var r := RecordRead(t, p, id, now);
    if p !in t.payloads {
      assert r.payloads.Keys == t.payloads.Keys + {p};
    } else {
      assert r.payloads.Keys == t.payloads.Keys;
    }
  }

  /** A share: the read update applied to each payload of the list in order. */
  function RecordShare(t: Tables, shared: seq<PayloadData>, id: TargetIdentifier, now: int): (r: Tables)
    ensures WellFormed(t) ==> WellFormed(r)
    decreases |shared|
  {
    if shared == [] then t
    else RecordRead(RecordShare(t, shared[..|shared| - 1], id, now), shared[|shared| - 1], id, now)
  }

  /** After a share, `id` resolves to the last payload of the list; no other identifier changes. */
  lemma {:induction false} ShareBindsLast(t: Tables, shared: seq<PayloadData>, id: TargetIdentifier, now: int)
    ensures shared == [] ==> RecordShare(t, shared, id, now) == t
    ensures shared != [] ==>
              RecordShare(t, shared, id, now).targetIdentifiers ==
              t.targetIdentifiers[id := shared[|shared| - 1]]
    decreases |shared|
  {
    if |shared| > 1 {
      ShareBindsLast(t, shared[..|shared| - 1], id, now);
    }
  }

  /** After a share, the payloads with targets are the old ones plus the shared ones. */
  lemma {:induction false} ShareTargetKeys(t: Tables, shared: seq<PayloadData>, id: TargetIdentifier, now: int)
    ensures RecordShare(t, shared, id, now).payloads.Keys == t.payloads.Keys + (set q | q in shared)
    decreases |shared|
  {
    if shared != [] {
      var init := shared[..|shared| - 1];
      ShareTargetKeys(t, init, id, now);
      assert shared == init + [shared[|shared| - 1]];
      assert (set q | q in shared) == (set q | q in init) + {shared[|shared| - 1]};
    }
  }

  /**
   * A share leaves an old target as it was but for its recency, and
   * untouched when its payload is not shared.
   */
  lemma {:induction false} ShareKeepsOldTargets(t: Tables, shared: seq<PayloadData>, id: TargetIdentifier, now: int)
    ensures forall q :: q in t.payloads ==>
              q in RecordShare(t, shared, id, now).payloads &&
              RecordShare(t, shared, id, now).payloads[q] ==
              t.payloads[q].(lastUpdatedAt := RecordShare(t, shared, id, now).payloads[q].lastUpdatedAt)
    ensures forall q :: q in t.payloads && q !in shared ==>
              RecordShare(t, shared, id, now).payloads[q] == t.payloads[q]
    decreases |shared|
  {
    if shared != [] {
      var init := shared[..|shared| - 1];
      ShareKeepsOldTargets(t, init, id, now);
      assert shared == init + [shared[|shared| - 1]];
    }
  }

  /** A target that a share creates belongs to the sharing identifier. */
  lemma {:induction false} ShareNewTargets(t: Tables, shared: seq<PayloadData>, id: TargetIdentifier, now: int)
    ensures forall q :: q in RecordShare(t, shared, id, now).payloads && q !in t.payloads ==>
              RecordShare(t, shared, id, now).payloads[q] == NewTarget(id, q, now)
    decreases |shared|
  {
    if shared != [] {
      ShareNewTargets(t, shared[..|shared| - 1], id, now);
    }
  }

  /**
   * A measurement from `id`: when `id` resolves to a payload that has a
   * target, that target takes `id` as its identifier and records the
   * proximity; otherwise it is dropped.
   */
  function RecordMeasure(t: Tables, m: Proximity, id: TargetIdentifier): (r: Tables)
    ensures WellFormed(t) ==> WellFormed(r)
    ensures r.targetIdentifiers == t.targetIdentifiers && r.payloads.Keys == t.payloads.Keys
  {
    if id in t.targetIdentifiers && t.targetIdentifiers[id] in t.payloads then
      var p := t.targetIdentifiers[id];
      var target := t.payloads[p].(targetIdentifier := id);
      Tables(t.targetIdentifiers, t.payloads[p := target.(proximity := Some(m))])
    else t
  }

  /** A measurement from an identifier that never read a payload changes nothing. */
  lemma MeasureDropsUnresolved(t: Tables, m: Proximity, id: TargetIdentifier)
    requires id !in t.targetIdentifiers
    ensures RecordMeasure(t, m, id) == t
  {
  }

  /**
   * In well-formed registries a resolved identifier always reaches a target:
   * exactly its identifier and proximity change, nothing else does.
   */
  lemma MeasureUpdatesResolvedTarget(t: Tables, m: Proximity, id: TargetIdentifier)
    requires WellFormed(t) && id in t.targetIdentifiers
    ensures RecordMeasure(t, m, id).payloads ==
              t.payloads[t.targetIdentifiers[id] :=
                t.payloads[t.targetIdentifiers[id]].(targetIdentifier := id, proximity := Some(m))]
  {
  }

  /**
   * Received data is taken as a payload; only when that payload already has
   * a target does `id` resolve to it, the target take `id` and record the
   * data. A receive never creates a target.
   */
  function RecordReceive(t: Tables, d: ImmediateSendData, id: TargetIdentifier): (r: Tables)
    ensures WellFormed(t) ==> WellFormed(r)
    ensures r.payloads.Keys == t.payloads.Keys
  {
    var p := PayloadData(d.data.value);
    if p in t.payloads then
      var target := t.payloads[p].(targetIdentifier := id);
      Tables(t.targetIdentifiers[id := p], t.payloads[p := target.(received := Some(d))])
    else t
  }

  /**
   * A receive for a payload that has a target: `id` resolves to it, and
   * exactly that target's identifier and received data change.
   */
  lemma ReceiveUpdatesKnownTarget(t: Tables, d: ImmediateSendData, id: TargetIdentifier)
    requires PayloadData(d.data.value) in t.payloads
    ensures var p := PayloadData(d.data.value);
            && RecordReceive(t, d, id).targetIdentifiers == t.targetIdentifiers[id := p]
            && RecordReceive(t, d, id).payloads ==
                 t.payloads[p := t.payloads[p].(targetIdentifier := id, received := Some(d))]
  {
  }

  /** A receive for a payload without a target changes nothing. */
  lemma ReceiveDropsUnknownPayload(t: Tables, d: ImmediateSendData, id: TargetIdentifier)
    requires PayloadData(d.data.value) !in t.payloads
    ensures RecordReceive(t, d, id) == t
  {
  }

  /** Reading the same payload twice keeps one target and refreshes its recency. */
  lemma RepeatedReadScenario(x: PayloadData, id1: TargetIdentifier, t1: int, t2: int)
    ensures RecordRead(RecordRead(Tables(map[], map[]), x, id1, t1), x, id1, t2) ==
              Tables(map[id1 := x], map[x := Target(id1, x, t2, None, None)])
  {
  }

  /**
   * Read from id1, measure from id1, then read the same payload from a new id2:
   * still one target, both identifiers resolve to it, and it keeps id1 as its
   * identifier until something is measured from id2.
   */
  lemma RotatedIdentifierScenario(x: PayloadData, p: Proximity, q: Proximity,
                                  id1: TargetIdentifier, id2: TargetIdentifier, t1: int, t2: int)
    requires id1 != id2
    ensures var s1 := RecordMeasure(RecordRead(Tables(map[], map[]), x, id1, t1), p, id1);
            var s2 := RecordRead(s1, x, id2, t2);
            && s2.payloads == map[x := Target(id1, x, t2, Some(p), None)]
            && s2.targetIdentifiers == map[id1 := x, id2 := x]
            && RecordMeasure(s2, q, id2).payloads == map[x := Target(id2, x, t2, Some(q), None)]
  {
  }

  // ---------------------------------------------------------------------------
  // De-duplication by short name
  // ---------------------------------------------------------------------------

  /** A target's display key: the short name of its payload. */
  function DisplayKey(shortName: PayloadData -> string): Target -> string {
    (t: Target) => shortName(t.payloadData)
  }

  /** The short names of the payloads in `order`. */
  function ShortNames(order: seq<PayloadData>, shortName: PayloadData -> string): set<string> {
    set p | p in order :: shortName(p)
  }

  /**
   * The short-name map that `updateTargets` builds while it visits the
   * entries of `payloads` in the order `order`: a target replaces the one
   * kept for its short name only when strictly more recent.
   */
  function Representatives(payloads: map<PayloadData, Target>, order: seq<PayloadData>,
                           shortName: PayloadData -> string): map<string, Target>
    requires forall p :: p in order ==> p in payloads
    decreases |order|
  {
    if order == [] then map[]
    else
      var kept := Representatives(payloads, order[..|order| - 1], shortName);
      var p := order[|order| - 1];
      var target := payloads[p];
      if shortName(p) !in kept || kept[shortName(p)].lastUpdatedAt < target.lastUpdatedAt
      then kept[shortName(p) := target]
      else kept
  }

  /**
   * Position `j` of `order` holds a payload named `n`, strictly more recent
   * than every payload named `n` visited before it.
   */
  predicate FirstOfItsRecency(payloads: map<PayloadData, Target>, order: seq<PayloadData>,
                              shortName: PayloadData -> string, n: string, j: int)
    requires forall p :: p in order ==> p in payloads
  {
    && 0 <= j < |order| && shortName(order[j]) == n
    && forall i :: 0 <= i < j && shortName(order[i]) == n ==>
         payloads[order[i]].lastUpdatedAt < payloads[order[j]].lastUpdatedAt
  }

  /** There is one entry per short name met. */
  lemma {:induction false} RepresentativesKeys(payloads: map<PayloadData, Target>, order: seq<PayloadData>,
                                               shortName: PayloadData -> string)
    requires forall p :: p in order ==> p in payloads
    ensures Representatives(payloads, order, shortName).Keys == ShortNames(order, shortName)
    decreases |order|
  {
    if order != [] {
      var init := order[..|order| - 1];
      RepresentativesKeys(payloads, init, shortName);
      assert order == init + [order[|order| - 1]];
      assert ShortNames(order, shortName) == ShortNames(init, shortName) + {shortName(order[|order| - 1])};
    }
  }

  /** Each entry is at least as recent as every payload of its short name. */
  lemma {:induction false} RepresentativesMostRecent(payloads: map<PayloadData, Target>, order: seq<PayloadData>,
                                                     shortName: PayloadData -> string)
    requires forall p :: p in order ==> p in payloads
    ensures forall p :: p in order ==>
              shortName(p) in Representatives(payloads, order, shortName) &&
              payloads[p].lastUpdatedAt <= Representatives(payloads, order, shortName)[shortName(p)].lastUpdatedAt
    decreases |order|
  {
    if order != [] {
      var init := order[..|order| - 1];
      RepresentativesMostRecent(payloads, init, shortName);
      assert order == init + [order[|order| - 1]];
    }
  }

  /**
   * Each entry is the payload of its short name that was the first met among
   * the most recent ones.
   */
  lemma {:induction false} RepresentativesFirstMet(payloads: map<PayloadData, Target>, order: seq<PayloadData>,
                                                   shortName: PayloadData -> string)
    requires forall p :: p in order ==> p in payloads
    ensures forall n :: n in Representatives(payloads, order, shortName) ==>
              exists j :: FirstOfItsRecency(payloads, order, shortName, n, j) &&
                Representatives(payloads, order, shortName)[n] == payloads[order[j]]
    decreases |order|
  {
    if order != [] {
      var last := |order| - 1;
      var init := order[..last];
      var p := order[last];
      var kept := Representatives(payloads, init, shortName);
      var m := Representatives(payloads, order, shortName);
      RepresentativesFirstMet(payloads, init, shortName);
      RepresentativesKeys(payloads, init, shortName);
      RepresentativesMostRecent(payloads, init, shortName);
      forall n | n in m
        ensures exists j :: FirstOfItsRecency(payloads, order, shortName, n, j) && m[n] == payloads[order[j]]
      {
        if n == shortName(p) && (n !in kept || kept[n].lastUpdatedAt < payloads[p].lastUpdatedAt) {
          forall i | 0 <= i < last && shortName(order[i]) == n
            ensures payloads[order[i]].lastUpdatedAt < payloads[p].lastUpdatedAt
          {
            assert order[i] == init[i] && init[i] in init;
          }
          assert FirstOfItsRecency(payloads, order, shortName, n, last);
        } else {
          var j :| FirstOfItsRecency(payloads, init, shortName, n, j) && kept[n] == payloads[init[j]];
          assert forall i :: 0 <= i <= j ==> order[i] == init[i];
          assert FirstOfItsRecency(payloads, order, shortName, n, j);
        }
      }
    }
  }

  /** Under well-formed registries each entry is the stored target of a payload with that short name. */
  lemma RepresentativesStored(payloads: map<PayloadData, Target>, order: seq<PayloadData>,
                              shortName: PayloadData -> string)
    requires forall p :: p in order ==> p in payloads
    requires forall p :: p in payloads ==> payloads[p].payloadData == p
    ensures forall n :: n in Representatives(payloads, order, shortName) ==>
              var t := Representatives(payloads, order, shortName)[n];
              t.payloadData in payloads && payloads[t.payloadData] == t &&
              DisplayKey(shortName)(t) == n
  {
    var m := Representatives(payloads, order, shortName);
    RepresentativesFirstMet(payloads, order, shortName);
    forall n | n in m
      ensures m[n].payloadData in payloads && payloads[m[n].payloadData] == m[n] && DisplayKey(shortName)(m[n]) == n
    {
      var j :| FirstOfItsRecency(payloads, order, shortName, n, j) && m[n] == payloads[order[j]];
      assert order[j] in order;
    }
  }

  /**
   * A list holding exactly the entries of the short-name map holds one
   * stored target per short name of a payload, the most recent of its group.
   */
  lemma ListedRepresentatives(payloads: map<PayloadData, Target>, order: seq<PayloadData>,
                              shortName: PayloadData -> string, targetList: seq<Target>)
    requires forall p :: p in order <==> p in payloads
    requires forall p :: p in payloads ==> payloads[p].payloadData == p
    requires forall t :: t in targetList <==> t in Representatives(payloads, order, shortName).Values
    ensures (set t | t in targetList :: shortName(t.payloadData)) == (set p | p in payloads :: shortName(p))
    ensures forall t :: t in targetList ==> t.payloadData in payloads && payloads[t.payloadData] == t
    ensures forall t, p :: t in targetList && p in payloads && shortName(p) == shortName(t.payloadData) ==>
              payloads[p].lastUpdatedAt <= t.lastUpdatedAt
  {
    var m := Representatives(payloads, order, shortName);
    RepresentativesKeys(payloads, order, shortName);
    RepresentativesMostRecent(payloads, order, shortName);
    RepresentativesStored(payloads, order, shortName);
    forall t | t in targetList
      ensures shortName(t.payloadData) in m && m[shortName(t.payloadData)] == t
    {
      var n :| n in m && m[n] == t;
    }
    assert (set t | t in targetList :: shortName(t.payloadData)) == ShortNames(order, shortName) by {
      forall n | n in ShortNames(order, shortName)
        ensures n in (set t | t in targetList :: shortName(t.payloadData))
      {
        assert m[n] in m.Values;
      }
    }
  }

  /**
   * `updateTargets` is deterministic: any two target lists it may return for
   * the same registries and the same visiting order are the same list.
   */
  lemma TargetListDetermined(payloads: map<PayloadData, Target>, order: seq<PayloadData>,
                             shortName: PayloadData -> string, a: seq<Target>, b: seq<Target>)
    requires forall p :: p in order ==> p in payloads
    requires StrictlyAscending(a, DisplayKey(shortName)) && StrictlyAscending(b, DisplayKey(shortName))
    requires forall t :: t in a <==> t in Representatives(payloads, order, shortName).Values
    requires forall t :: t in b <==> t in Representatives(payloads, order, shortName).Values
    ensures a == b
  {
    AscendingUnique(a, b, DisplayKey(shortName));
  }

  /**
   * `new ArrayList<>(shortNames.values())` for a map whose every entry is
   * keyed by its own short name: the values, each once, in some order.
   */
  method ValuesOf(m: map<string, Target>, key: Target -> string) returns (values: seq<Target>)
    requires forall n :: n in m ==> key(m[n]) == n
    ensures forall t :: t in values <==> t in m.Values
    ensures DistinctKeys(values, key)
  {
    values := [];
    var remaining := m.Keys;
    while remaining != {}
      invariant remaining <= m.Keys
      invariant forall k :: 0 <= k < |values| ==> key(values[k]) in m.Keys - remaining && m[key(values[k])] == values[k]
      invariant forall n :: n in m.Keys - remaining ==> m[n] in values
      invariant DistinctKeys(values, key)
      decreases remaining
    {
      var n :| n in remaining;
      values := values + [m[n]];
      remaining := remaining - {n};
    }
  }

  // ---------------------------------------------------------------------------
  // The activity's state
  // ---------------------------------------------------------------------------

  class Contactlogs {
    /** Event counters (`long` in the application). */
    var didDetect: nat
    var didRead: nat
    var didMeasure: nat
    var didShare: nat
    var didReceive: nat
    var targetIdentifiers: map<TargetIdentifier, PayloadData>
    var payloads: map<PayloadData, Target>

    function Snapshot(): Tables
      reads this`targetIdentifiers, this`payloads
    {
      Tables(targetIdentifiers, payloads)
    }

    ghost predicate Valid()
      reads this`targetIdentifiers, this`payloads
    {
      WellFormed(Snapshot())
    }

    constructor ()
      ensures Valid()
      ensures didDetect == 0 && didRead == 0 && didMeasure == 0 && didShare == 0 && didReceive == 0
      ensures targetIdentifiers == map[] && payloads == map[]
    {
      didDetect, didRead, didMeasure, didShare, didReceive := 0, 0, 0, 0, 0;
      targetIdentifiers := map[];
      payloads := map[];
    }

    /** `sensor(sensor, didDetect)`: counts the detection. */
    method SensorDidDetect(id: TargetIdentifier)
      modifies this`didDetect
      ensures didDetect == old(didDetect) + 1
    {
      didDetect := didDetect + 1;
    }

    /** `sensor(sensor, didRead, fromTarget)` */
    method SensorDidRead(p: PayloadData, id: TargetIdentifier, now: int)
      requires Valid()
      modifies this`didRead, this`targetIdentifiers, this`payloads
      ensures Valid()
      ensures didRead == old(didRead) + 1
      ensures Snapshot() == RecordRead(old(Snapshot()), p, id, now)
    {
      didRead := didRead + 1;
      targetIdentifiers := targetIdentifiers[id := p];
      if p in payloads {
        var target := payloads[p];
        payloads := payloads[p := target.(lastUpdatedAt := now)];
      } else {
        payloads := payloads[p := NewTarget(id, p, now)];
      }
    }

    /** `sensor(sensor, didShare, fromTarget)`: no counter changes. */
    method SensorDidShare(shared: seq<PayloadData>, id: TargetIdentifier, now: int)
      requires Valid()
      modifies this`targetIdentifiers, this`payloads
      ensures Valid()
      ensures Snapshot() == RecordShare(old(Snapshot()), shared, id, now)
    {
      var i := 0;
      while i < |shared|
        invariant 0 <= i <= |shared|
        invariant Snapshot() == RecordShare(old(Snapshot()), shared[..i], id, now)
      {
        var p := shared[i];
        targetIdentifiers := targetIdentifiers[id := p];
        if p in payloads {
          var target := payloads[p];
          payloads := payloads[p := target.(lastUpdatedAt := now)];
        } else {
          payloads := payloads[p := NewTarget(id, p, now)];
        }
        assert shared[..i + 1][..i] == shared[..i];
        i := i + 1;
      }
      assert shared[..|shared|] == shared;
    }

    /** `sensor(sensor, didMeasure, fromTarget)` */
    method SensorDidMeasure(m: Proximity, id: TargetIdentifier)
      requires Valid()
      modifies this`didMeasure, this`payloads
      ensures Valid()
      ensures didMeasure == old(didMeasure) + 1
      ensures Snapshot() == RecordMeasure(old(Snapshot()), m, id)
    {
      didMeasure := didMeasure + 1;
      if id in targetIdentifiers {
        var p := targetIdentifiers[id];
        if p in payloads {
          var target := payloads[p];
          target := target.(targetIdentifier := id);
          target := target.(proximity := Some(m));
          payloads := payloads[p := target];
        }
      }
    }

    /** `sensor(sensor, didReceive, fromTarget)` */
    method SensorDidReceive(d: ImmediateSendData, id: TargetIdentifier)
      requires Valid()
      modifies this`didReceive, this`targetIdentifiers, this`payloads
      ensures Valid()
      ensures didReceive == old(didReceive) + 1
      ensures Snapshot() == RecordReceive(old(Snapshot()), d, id)
    {
      didReceive := didReceive + 1;
      var p := PayloadData(d.data.value);
      if p in payloads {
        targetIdentifiers := targetIdentifiers[id := p];
        var target := payloads[p];
        target := target.(targetIdentifier := id);
        target := target.(received := Some(d));
        payloads := payloads[p := target];
      }
    }

    /**
     * The de-duplicated target list of `updateTargets`, visiting the entries
     * of `payloads` in `order`: exactly the entries of the short-name map,
     * so one stored target per short name of a payload, the most recent of
     * its group, sorted ascending by short name.
     */
    method UpdateTargets(order: seq<PayloadData>, shortName: PayloadData -> string)
      returns (targetList: seq<Target>)
      requires Valid()
      requires forall p :: p in order <==> p in payloads
      ensures StrictlyAscending(targetList, DisplayKey(shortName))
      ensures forall t :: t in targetList <==> t in Representatives(payloads, order, shortName).Values
      ensures (set t | t in targetList :: shortName(t.payloadData)) == (set p | p in payloads :: shortName(p))
      ensures forall t :: t in targetList ==> t.payloadData in payloads && payloads[t.payloadData] == t
      ensures forall t, p :: t in targetList && p in payloads && shortName(p) == shortName(t.payloadData) ==>
                payloads[p].lastUpdatedAt <= t.lastUpdatedAt
    {
      var shortNames: map<string, Target> := map[];
      var i := 0;
      while i < |order|
        invariant 0 <= i <= |order|
        invariant shortNames == Representatives(payloads, order[..i], shortName)
      {
        var p := order[i];
        var name := shortName(p);
        var target := payloads[p];
        var duplicate := if name in shortNames then Some(shortNames[name]) else None;
        if duplicate.None? || duplicate.value.lastUpdatedAt < target.lastUpdatedAt {
          shortNames := shortNames[name := target];
        }
        assert order[..i + 1][..i] == order[..i];
        i := i + 1;
      }
      assert order[..|order|] == order;
      RepresentativesStored(payloads, order, shortName);
      var key := DisplayKey(shortName);
      var values := ValuesOf(shortNames, key);
      // Collections.sort by short name
      targetList := SortByKey(values, key);
      SortByKeyAscending(values, key);
      forall t
        ensures t in targetList <==> t in values
      {
        assert t in targetList <==> t in multiset(targetList);
        assert t in values <==> t in multiset(values);
      }
      ListedRepresentatives(payloads, order, shortName, targetList);
    }
  }
}
