/**
 * The older object generation step: every object covers its origin cell only, each group
 * first registers a parent object with the world generator, and the variant bag is
 * weighted by the variants' own frequencies.
 */
module LegacyObjectGeneration {
  import opened Grid
  import ObjectGeneration

  /** One visual variant; its `frequency` is its weight in the group's variant bag. */
  datatype ObjectVariant = ObjectVariant(frequency: int)

  /** A group of objects placed by the same rule: its variants and its spawn frequency in permille. */
  datatype ObjectGroup = ObjectGroup(variants: seq<ObjectVariant>, frequency: int)

  /** One instantiated object: its group, the cell it stands on, the draw that let it in and its variant. */
  datatype Spawn = Spawn(group: nat, origin: Cell, draw: int, variant: nat)

  /** The cells the spawns stand on, in spawn order. */
  function Origins(ps: seq<Spawn>): seq<Cell> {
    if ps == [] then [] else Origins(ps[..|ps| - 1]) + [ps[|ps| - 1].origin]
  }

  /** Position `i` of the list holds the cell of the `i`-th spawn. */
  lemma {:induction false} OriginsIndex(ps: seq<Spawn>)
    ensures |Origins(ps)| == |ps|
    ensures forall i | 0 <= i < |ps| :: Origins(ps)[i] == ps[i].origin
  {
    if ps != [] {
      OriginsIndex(ps[..|ps| - 1]);
    }
  }

  lemma OriginsMembers(ps: seq<Spawn>)
    ensures forall c :: c in Origins(ps) <==> exists i :: 0 <= i < |ps| && ps[i].origin == c
  {
    OriginsIndex(ps);
    forall c ensures c in Origins(ps) <==> exists i :: 0 <= i < |ps| && ps[i].origin == c {
      if c in Origins(ps) {
        var i :| 0 <= i < |Origins(ps)| && Origins(ps)[i] == c;
        assert ps[i].origin == c;
      }
    }
  }

  lemma {:induction false} OriginsAppend(ps: seq<Spawn>, qs: seq<Spawn>)
    ensures Origins(ps + qs) == Origins(ps) + Origins(qs)
    decreases |qs|
  {
    if qs == [] {
      assert ps + qs == ps;
    } else {
      var n := |qs| - 1;
      assert (ps + qs)[..|ps + qs| - 1] == ps + qs[..n];
      OriginsAppend(ps, qs[..n]);
      ObjectGeneration.AppendAssoc(Origins(ps), Origins(qs[..n]), [qs[n].origin]);
    }
  }

  /**
   * What happens at one scanned cell: nothing when it is already claimed or the draw
   * exceeds the group's frequency, otherwise one object standing on it.
   */
  function Attempt(occupied: seq<Cell>, gi: nat, group: ObjectGroup, origin: Cell, roll: ObjectGeneration.Roll): seq<Spawn> {
    if ObjectGeneration.AnyAt(occupied, origin) || roll.draw > group.frequency then []
    else [Spawn(gi, origin, roll.draw, roll.pick)]
  }

  /**
   * The spawns group `gi` makes while scanning `origins` in order, starting from the claimed
   * cells `occupied`; each cell consults the cells claimed before it.
   */
  function Placed(occupied: seq<Cell>, gi: nat, group: ObjectGroup, origins: seq<Cell>, rolls: ObjectGeneration.Rolls): seq<Spawn> {
    if origins == [] then []
    else
      var n := |origins| - 1;
      var before := Placed(occupied, gi, group, origins[..n], rolls);
      before + Attempt(occupied + Origins(before), gi, group, origins[n], rolls(gi, origins[n]))
  }

  /** Scanning one more cell appends that cell's attempt. */
  lemma PlacedStep(occupied: seq<Cell>, gi: nat, group: ObjectGroup, origins: seq<Cell>, c: Cell, rolls: ObjectGeneration.Rolls)
    ensures var before := Placed(occupied, gi, group, origins, rolls);
      Placed(occupied, gi, group, origins + [c], rolls) == before + Attempt(occupied + Origins(before), gi, group, c, rolls(gi, c))
  {
    assert (origins + [c])[..|origins|] == origins;
  }

  /**
   * How many of the spawns, made one after the other against `occupied`, stand on a cell of
   * `occupied` or of an earlier spawn.
   */
  function Overlaps(occupied: seq<Cell>, ps: seq<Spawn>): nat {
    if ps == [] then 0
    else
      var before := ps[..|ps| - 1];
      Overlaps(occupied, before) + if ObjectGeneration.AnyAt(occupied + Origins(before), ps[|ps| - 1].origin) then 1 else 0
  }

  /** Each spawn's cell was checked free against `occupied` and every earlier spawn. */
  predicate Separated(occupied: seq<Cell>, ps: seq<Spawn>) {
    Overlaps(occupied, ps) == 0
  }

  /** No cell is used twice: the spawns avoid `occupied` and no two stand on the same cell. */
  ghost predicate Disjoint(occupied: seq<Cell>, ps: seq<Spawn>) {
    (forall i | 0 <= i < |ps| :: ps[i].origin !in occupied) &&
    (forall i, j | 0 <= i < j < |ps| :: ps[i].origin != ps[j].origin)
  }

  /** Checking each spawn against everything claimed before it is exactly keeping the cells distinct. */
  lemma {:induction false} SeparatedMeans(occupied: seq<Cell>, ps: seq<Spawn>)
    ensures Separated(occupied, ps) <==> Disjoint(occupied, ps)
  {
    if ps != [] {
      var n := |ps| - 1;
      var before, last := ps[..n], ps[n];
      SeparatedMeans(occupied, before);
      OriginsMembers(before);
      ObjectGeneration.AnyAtMeans(occupied + Origins(before), last.origin);
      if Separated(occupied, ps) {
        forall i, j | 0 <= i < j < |ps|
          ensures ps[i].origin != ps[j].origin
        {
          if j == n {
            assert before[i].origin in Origins(before);
          } else {
            assert before[i] == ps[i] && before[j] == ps[j];
          }
        }
        forall i | 0 <= i < |ps|
          ensures ps[i].origin !in occupied
        {
          if i < n {
            assert before[i] == ps[i];
          }
        }
      }
      if Disjoint(occupied, ps) {
        forall i | 0 <= i < |before|
          ensures before[i].origin !in occupied
        {
          assert before[i] == ps[i];
        }
        forall i, j | 0 <= i < j < |before|
          ensures before[i].origin != before[j].origin
        {
          assert before[i] == ps[i] && before[j] == ps[j];
        }
        forall i | 0 <= i < n
          ensures before[i].origin != last.origin
        {
          assert before[i] == ps[i];
        }
      }
    }
  }

  /** Spawns checked against everything claimed before them can be appended in turn. */
  lemma {:induction false} SeparatedAppend(occupied: seq<Cell>, ps: seq<Spawn>, qs: seq<Spawn>)
    requires Separated(occupied, ps) && Separated(occupied + Origins(ps), qs)
    ensures Separated(occupied, ps + qs)
    decreases |qs|
  {
    if qs == [] {
      assert ps + qs == ps;
    } else {
      var n := |qs| - 1;
      SeparatedAppend(occupied, ps, qs[..n]);
      assert (ps + qs)[..|ps + qs| - 1] == ps + qs[..n];
      OriginsAppend(ps, qs[..n]);
      ObjectGeneration.AppendAssoc(occupied, Origins(ps), Origins(qs[..n]));
    }
  }

  /** The spawns of one scan were each checked against everything claimed before them. */
  lemma {:induction false} PlacedSeparated(occupied: seq<Cell>, gi: nat, group: ObjectGroup, origins: seq<Cell>, rolls: ObjectGeneration.Rolls)
    ensures Separated(occupied, Placed(occupied, gi, group, origins, rolls))
  {
    if origins != [] {
      var n := |origins| - 1;
      var before := Placed(occupied, gi, group, origins[..n], rolls);
      var a := Attempt(occupied + Origins(before), gi, group, origins[n], rolls(gi, origins[n]));
      PlacedSeparated(occupied, gi, group, origins[..n], rolls);
      if a == [] {
        assert before + a == before;
      } else {
        assert (before + a)[..|before|] == before;
      }
    }
  }

  /**
   * A spawn of a scan belongs to the group, stands on a scanned cell, and got in with a
   * draw in [0, frequency] and an existing variant.
   */
  ghost predicate Admitted(p: Spawn, gi: nat, group: ObjectGroup, scan: seq<Cell>) {
    p.group == gi && p.origin in scan && 0 <= p.draw <= group.frequency && p.variant < |group.variants|
  }

  ghost predicate AllAdmitted(ps: seq<Spawn>, gi: nat, group: ObjectGroup, scan: seq<Cell>) {
    forall i | 0 <= i < |ps| :: Admitted(ps[i], gi, group, scan)
  }

  lemma AdmittedAppend(ps: seq<Spawn>, qs: seq<Spawn>, gi: nat, group: ObjectGroup, scan: seq<Cell>)
    requires AllAdmitted(ps, gi, group, scan) && AllAdmitted(qs, gi, group, scan)
    ensures AllAdmitted(ps + qs, gi, group, scan)
  {
    forall i | 0 <= i < |ps + qs|
      ensures Admitted((ps + qs)[i], gi, group, scan)
    {
      if i < |ps| {
        assert (ps + qs)[i] == ps[i];
      } else {
        assert (ps + qs)[i] == qs[i - |ps|];
      }
    }
  }

  /** Every spawn made while scanning a prefix of `scan` is admitted by the group's rule. */
  lemma {:induction false} PlacedAdmitted(occupied: seq<Cell>, gi: nat, group: ObjectGroup, origins: seq<Cell>, rolls: ObjectGeneration.Rolls, scan: seq<Cell>)
    requires origins <= scan && ObjectGeneration.RollsInRange(rolls, gi, |group.variants|)
    ensures AllAdmitted(Placed(occupied, gi, group, origins, rolls), gi, group, scan)
  {
    if origins != [] {
      var n := |origins| - 1;
      var before := Placed(occupied, gi, group, origins[..n], rolls);
      var a := Attempt(occupied + Origins(before), gi, group, origins[n], rolls(gi, origins[n]));
      assert origins[..n] <= scan;
      PlacedAdmitted(occupied, gi, group, origins[..n], rolls, scan);
      assert origins[n] == scan[n];
      AdmittedAppend(before, a, gi, group, scan);
    }
  }

  /** A group whose frequency is negative never passes the draw, so it spawns nothing. */
  lemma {:induction false} NegativeFrequencyPlacesNothing(occupied: seq<Cell>, gi: nat, group: ObjectGroup, origins: seq<Cell>, rolls: ObjectGeneration.Rolls)
    requires ObjectGeneration.RollsInRange(rolls, gi, |group.variants|) && group.frequency < 0
    ensures Placed(occupied, gi, group, origins, rolls) == []
  {
    if origins != [] {
      var n := |origins| - 1;
      NegativeFrequencyPlacesNothing(occupied, gi, group, origins[..n], rolls);
      assert rolls(gi, origins[n]).draw >= 0;
    }
  }

  /** Placing only appends: the spawns of a shorter scan are a prefix of a longer one's. */
  lemma {:induction false} PlacedGrows(occupied: seq<Cell>, gi: nat, group: ObjectGroup, origins: seq<Cell>, rolls: ObjectGeneration.Rolls, k: nat)
    requires k <= |origins|
    ensures Placed(occupied, gi, group, origins[..k], rolls) <= Placed(occupied, gi, group, origins, rolls)
    decreases |origins| - k
  {
    if k < |origins| {
      var mid := Placed(occupied, gi, group, origins[..k], rolls);
      PlacedGrows(occupied, gi, group, origins, rolls, k + 1);
      ObjectGeneration.TakeOneMore(origins, k);
      PlacedStep(occupied, gi, group, origins[..k], origins[k], rolls);
      ObjectGeneration.PrefixExtends(mid, mid, Attempt(occupied + Origins(mid), gi, group, origins[k], rolls(gi, origins[k])));
      ObjectGeneration.PrefixTrans(mid, Placed(occupied, gi, group, origins[..k + 1], rolls), Placed(occupied, gi, group, origins, rolls));
    } else {
      assert origins[..k] == origins;
    }
  }

  /**
   * With a frequency of 1000 or more the draw always passes, so once the scan is over
   * every scanned cell is claimed: it was claimed before the scan, or an object stands on it.
   */
  lemma FullFrequencyClaimsAll(occupied: seq<Cell>, gi: nat, group: ObjectGroup, origins: seq<Cell>, rolls: ObjectGeneration.Rolls, k: nat)
    requires ObjectGeneration.RollsInRange(rolls, gi, |group.variants|) && group.frequency >= 1000 && k < |origins|
    ensures var all := Placed(occupied, gi, group, origins, rolls);
      origins[k] in occupied || exists i :: 0 <= i < |all| && all[i].origin == origins[k]
  {
    var all := Placed(occupied, gi, group, origins, rolls);
    var before := Placed(occupied, gi, group, origins[..k], rolls);
    ObjectGeneration.AnyAtMeans(occupied + Origins(before), origins[k]);
    if origins[k] in occupied + Origins(before) {
      if origins[k] !in occupied {
        OriginsMembers(before);
        var i :| 0 <= i < |before| && before[i].origin == origins[k];
        PlacedGrows(occupied, gi, group, origins, rolls, k);
        ObjectGeneration.PrefixIndex(before, all, i);
      }
    } else {
      OriginPlaced(occupied, gi, group, origins, rolls, k);
    }
  }

  /** A cell that is free when it is scanned, and whose draw passes, receives an object. */
  lemma OriginPlaced(occupied: seq<Cell>, gi: nat, group: ObjectGroup, origins: seq<Cell>, rolls: ObjectGeneration.Rolls, k: nat)
    requires k < |origins| && rolls(gi, origins[k]).draw <= group.frequency
    requires origins[k] !in occupied + Origins(Placed(occupied, gi, group, origins[..k], rolls))
    ensures var n, all := |Placed(occupied, gi, group, origins[..k], rolls)|, Placed(occupied, gi, group, origins, rolls);
      n < |all| && all[n].origin == origins[k]
  {
    var before := Placed(occupied, gi, group, origins[..k], rolls);
    var upto := Placed(occupied, gi, group, origins[..k + 1], rolls);
    var r := rolls(gi, origins[k]);
    ObjectGeneration.AnyAtMeans(occupied + Origins(before), origins[k]);
    ObjectGeneration.TakeOneMore(origins, k);
    PlacedStep(occupied, gi, group, origins[..k], origins[k], rolls);
    assert upto == before + [Spawn(gi, origins[k], r.draw, r.pick)];
    assert upto[|before|].origin == origins[k];
    PlacedGrows(occupied, gi, group, origins, rolls, k + 1);
    ObjectGeneration.PrefixIndex(upto, Placed(occupied, gi, group, origins, rolls), |before|);
  }

  /**
   * The spawns of a pass from group `g` on, when the groups before it spawned `placed`:
   * every group with at least one variant scans `scan` against the spawn area and
   * everything spawned so far.
   */
  function PassFrom(spawn: seq<Cell>, placed: seq<Spawn>, groups: seq<ObjectGroup>, scan: seq<Cell>, rolls: ObjectGeneration.Rolls, g: nat): seq<Spawn>
    requires g <= |groups|
    decreases |groups| - g
  {
    if g == |groups| then placed
    else if |groups[g].variants| == 0 then PassFrom(spawn, placed, groups, scan, rolls, g + 1)
    else PassFrom(spawn, placed + Placed(spawn + Origins(placed), g, groups[g], scan, rolls), groups, scan, rolls, g + 1)
  }

  /** The spawns of a whole pass over `groups`, in the order they are made. */
  function Pass(spawn: seq<Cell>, groups: seq<ObjectGroup>, scan: seq<Cell>, rolls: ObjectGeneration.Rolls): seq<Spawn> {
    PassFrom(spawn, [], groups, scan, rolls, 0)
  }

  /** Later groups only append: what earlier groups spawned stays, in place. */
  lemma {:induction false} PassFromKeeps(spawn: seq<Cell>, placed: seq<Spawn>, groups: seq<ObjectGroup>, scan: seq<Cell>, rolls: ObjectGeneration.Rolls, g: nat)
    requires g <= |groups|
    ensures placed <= PassFrom(spawn, placed, groups, scan, rolls, g)
    decreases |groups| - g
  {
    if g < |groups| {
      if |groups[g].variants| == 0 {
        PassFromKeeps(spawn, placed, groups, scan, rolls, g + 1);
      } else {
        var made := Placed(spawn + Origins(placed), g, groups[g], scan, rolls);
        PassFromKeeps(spawn, placed + made, groups, scan, rolls, g + 1);
        ObjectGeneration.PrefixTrans(placed, placed + made, PassFrom(spawn, placed + made, groups, scan, rolls, g + 1));
      }
    }
  }

  /** One group's scan, checked against everything spawned before it, keeps the spawns separated. */
  lemma PlacedAfterSeparated(spawn: seq<Cell>, before: seq<Spawn>, made: seq<Spawn>, all: seq<Spawn>, gi: nat, group: ObjectGroup, scan: seq<Cell>, rolls: ObjectGeneration.Rolls)
    requires Separated(spawn, before) && made == Placed(spawn + Origins(before), gi, group, scan, rolls) && all == before + made
    ensures Separated(spawn, all)
  {
    PlacedSeparated(spawn + Origins(before), gi, group, scan, rolls);
    SeparatedAppend(spawn, before, made);
  }

  lemma {:induction false} PassFromSeparated(spawn: seq<Cell>, placed: seq<Spawn>, groups: seq<ObjectGroup>, scan: seq<Cell>, rolls: ObjectGeneration.Rolls, g: nat)
    requires g <= |groups| && Separated(spawn, placed)
    ensures Separated(spawn, PassFrom(spawn, placed, groups, scan, rolls, g))
    decreases |groups| - g
  {
    if g < |groups| {
      if |groups[g].variants| == 0 {
        PassFromSeparated(spawn, placed, groups, scan, rolls, g + 1);
      } else {
        var made := Placed(spawn + Origins(placed), g, groups[g], scan, rolls);
        PlacedAfterSeparated(spawn, placed, made, placed + made, g, groups[g], scan, rolls);
        PassFromSeparated(spawn, placed + made, groups, scan, rolls, g + 1);
      }
    }
  }

  /** No cell receives two objects in a pass, and none stands on a cell of the spawn area. */
  lemma PassDisjoint(spawn: seq<Cell>, groups: seq<ObjectGroup>, scan: seq<Cell>, rolls: ObjectGeneration.Rolls)
    ensures Disjoint(spawn, Pass(spawn, groups, scan, rolls))
  {
    PassFromSeparated(spawn, [], groups, scan, rolls, 0);
    SeparatedMeans(spawn, Pass(spawn, groups, scan, rolls));
  }

  /** The spawn area is a square around the world centre; no object of a pass stands in it. */
  lemma SpawnAreaUnused(x0: int, x1: int, y0: int, y1: int, groups: seq<ObjectGroup>, scan: seq<Cell>, rolls: ObjectGeneration.Rolls)
    ensures var ps := Pass(Rect(x0, x1, y0, y1), groups, scan, rolls);
      forall i | 0 <= i < |ps| :: !InRect(ps[i].origin, x0, x1, y0, y1)
  {
    PassDisjoint(Rect(x0, x1, y0, y1), groups, scan, rolls);
    RectCells(x0, x1, y0, y1);
  }

  /** The spawns of the first `g` groups each come from one of those groups and obey its rule. */
  ghost predicate PassAdmitted(ps: seq<Spawn>, groups: seq<ObjectGroup>, scan: seq<Cell>, g: nat) {
    forall i | 0 <= i < |ps| :: ps[i].group < g <= |groups| && Admitted(ps[i], ps[i].group, groups[ps[i].group], scan)
  }

  lemma PassAdmittedAppend(before: seq<Spawn>, made: seq<Spawn>, groups: seq<ObjectGroup>, scan: seq<Cell>, g: nat)
    requires 0 < g <= |groups| && PassAdmitted(before, groups, scan, g - 1)
    requires AllAdmitted(made, g - 1, groups[g - 1], scan)
    ensures PassAdmitted(before + made, groups, scan, g)
  {
    forall i | 0 <= i < |before + made|
      ensures (before + made)[i].group < g && Admitted((before + made)[i], (before + made)[i].group, groups[(before + made)[i].group], scan)
    {
      if i < |before| {
        assert (before + made)[i] == before[i];
      } else {
        assert (before + made)[i] == made[i - |before|];
      }
    }
  }

  /** What group `g` spawns (nothing when it has no variant) is admitted by its rule. */
  lemma PlacedAfterAdmitted(spawn: seq<Cell>, placed: seq<Spawn>, made: seq<Spawn>, all: seq<Spawn>, groups: seq<ObjectGroup>, scan: seq<Cell>, rolls: ObjectGeneration.Rolls, g: nat)
    requires g < |groups| && ObjectGeneration.RollsInRange(rolls, g, |groups[g].variants|) && PassAdmitted(placed, groups, scan, g)
    requires made == (if |groups[g].variants| == 0 then [] else Placed(spawn + Origins(placed), g, groups[g], scan, rolls))
    requires all == placed + made
    ensures PassAdmitted(all, groups, scan, g + 1)
  {
    if |groups[g].variants| > 0 {
      PlacedAdmitted(spawn + Origins(placed), g, groups[g], scan, rolls, scan);
    }
    PassAdmittedAppend(placed, made, groups, scan, g + 1);
  }

  lemma {:induction false} PassFromAdmitted(spawn: seq<Cell>, placed: seq<Spawn>, groups: seq<ObjectGroup>, scan: seq<Cell>, rolls: ObjectGeneration.Rolls, g: nat)
    requires g <= |groups| && forall gi | 0 <= gi < |groups| :: ObjectGeneration.RollsInRange(rolls, gi, |groups[gi].variants|)
    requires PassAdmitted(placed, groups, scan, g)
    ensures PassAdmitted(PassFrom(spawn, placed, groups, scan, rolls, g), groups, scan, |groups|)
    decreases |groups| - g
  {
    if g < |groups| {
      var made := if |groups[g].variants| == 0 then [] else Placed(spawn + Origins(placed), g, groups[g], scan, rolls);
      PlacedAfterAdmitted(spawn, placed, made, placed + made, groups, scan, rolls, g);
      if |groups[g].variants| == 0 {
        assert placed + made == placed;
      }
      PassFromAdmitted(spawn, placed + made, groups, scan, rolls, g + 1);
    }
  }

  /**
   * Every object of a pass comes from a group with at least one variant, stands on a scanned
   * cell, passed the frequency draw and picked one of the group's variants.
   */
  lemma PassAllAdmitted(spawn: seq<Cell>, groups: seq<ObjectGroup>, scan: seq<Cell>, rolls: ObjectGeneration.Rolls)
    requires forall gi | 0 <= gi < |groups| :: ObjectGeneration.RollsInRange(rolls, gi, |groups[gi].variants|)
    ensures PassAdmitted(Pass(spawn, groups, scan, rolls), groups, scan, |groups|)
  {
    PassFromAdmitted(spawn, [], groups, scan, rolls, 0);
  }

  /** The indices, from `g` on, of the groups that have a variant, in order: the groups that get a parent object. */
  function WithVariantsFrom(groups: seq<ObjectGroup>, g: nat): seq<nat>
    requires g <= |groups|
    decreases |groups| - g
  {
    if g == |groups| then []
    else (if |groups[g].variants| > 0 then [g] else []) + WithVariantsFrom(groups, g + 1)
  }

  /** A group gets a parent object exactly when it has a variant, and parents are registered in group order. */
  lemma {:induction false} WithVariantsFromMeans(groups: seq<ObjectGroup>, g: nat)
    requires g <= |groups|
    ensures forall i :: i in WithVariantsFrom(groups, g) <==> g <= i < |groups| && |groups[i].variants| > 0
    ensures forall k, l | 0 <= k < l < |WithVariantsFrom(groups, g)| :: WithVariantsFrom(groups, g)[k] < WithVariantsFrom(groups, g)[l]
    decreases |groups| - g
  {
    if g < |groups| {
      WithVariantsFromMeans(groups, g + 1);
      var head, rest := if |groups[g].variants| > 0 then [g] else [], WithVariantsFrom(groups, g + 1);
      assert WithVariantsFrom(groups, g) == head + rest;
      forall k, l | 0 <= k < l < |head + rest|
        ensures (head + rest)[k] < (head + rest)[l]
      {
        if k < |head| {
          assert (head + rest)[l] in rest;
        } else {
          assert (head + rest)[k] == rest[k - |head|] && (head + rest)[l] == rest[l - |head|];
        }
      }
    }
  }

  /** The step's three lists: the objects spawned, the cells claimed and the parent objects registered. */
  datatype StepState = StepState(spawned: seq<Spawn>, occupied: seq<Cell>, parents: seq<nat>)

  /** The lists after the spawns `ps` are made: each is spawned and its cell claimed. */
  function Record(st: StepState, ps: seq<Spawn>): StepState {
    StepState(st.spawned + ps, st.occupied + Origins(ps), st.parents)
  }

  lemma RecordConcat(st: StepState, ps: seq<Spawn>, qs: seq<Spawn>)
    ensures Record(Record(st, ps), qs) == Record(st, ps + qs)
  {
    ObjectGeneration.AppendAssoc(st.spawned, ps, qs);
    OriginsAppend(ps, qs);
    ObjectGeneration.AppendAssoc(st.occupied, Origins(ps), Origins(qs));
  }

  lemma RecordNothing(st: StepState)
    ensures Record(st, []) == st
  {
    assert st.spawned + [] == st.spawned && st.occupied + [] == st.occupied;
  }

  /** Handling one scanned cell: when its attempt succeeds the object is spawned and the cell claimed. */
  function Visit(st: StepState, gi: nat, group: ObjectGroup, origin: Cell, roll: ObjectGeneration.Roll): StepState {
    if ObjectGeneration.AnyAt(st.occupied, origin) || roll.draw > group.frequency then st
    else StepState(st.spawned + [Spawn(gi, origin, roll.draw, roll.pick)], st.occupied + [origin], st.parents)
  }

  /** Visiting one more cell after the spawns `before` extends them by that cell's attempt. */
  lemma VisitAfter(st: StepState, before: seq<Spawn>, gi: nat, group: ObjectGroup, origin: Cell, roll: ObjectGeneration.Roll)
    ensures Visit(Record(st, before), gi, group, origin, roll) ==
            Record(st, before + Attempt(st.occupied + Origins(before), gi, group, origin, roll))
  {
    var mid := Record(st, before);
    var a := Attempt(mid.occupied, gi, group, origin, roll);
    if a == [] {
      RecordNothing(mid);
    } else {
      assert Origins(a) == [origin] by {
        assert a[..0] == [];
      }
    }
    RecordConcat(st, before, a);
  }

  /** The step's lists after visiting `origins` in order. */
  function ScanFrom(st: StepState, gi: nat, group: ObjectGroup, origins: seq<Cell>, rolls: ObjectGeneration.Rolls): StepState {
    if origins == [] then st
    else
      var n := |origins| - 1;
      Visit(ScanFrom(st, gi, group, origins[..n], rolls), gi, group, origins[n], rolls(gi, origins[n]))
  }

  lemma ScanFromStep(st: StepState, gi: nat, group: ObjectGroup, origins: seq<Cell>, c: Cell, rolls: ObjectGeneration.Rolls)
    ensures ScanFrom(st, gi, group, origins + [c], rolls) == Visit(ScanFrom(st, gi, group, origins, rolls), gi, group, c, rolls(gi, c))
  {
    assert (origins + [c])[..|origins|] == origins;
  }

  /** Visiting `origins` records the spawns the group makes there. */
  lemma {:induction false} ScanFromPlaced(st: StepState, gi: nat, group: ObjectGroup, origins: seq<Cell>, rolls: ObjectGeneration.Rolls)
    ensures ScanFrom(st, gi, group, origins, rolls) == Record(st, Placed(st.occupied, gi, group, origins, rolls))
  {
    if origins == [] {
      RecordNothing(st);
    } else {
      var n := |origins| - 1;
      var before := Placed(st.occupied, gi, group, origins[..n], rolls);
      ScanFromPlaced(st, gi, group, origins[..n], rolls);
      VisitAfter(st, before, gi, group, origins[n], rolls(gi, origins[n]));
    }
  }

  /** The step's lists after visiting column `x` from `y0` up to `y`. */
  function ColumnFrom(st: StepState, gi: nat, group: ObjectGroup, x: int, y0: int, y: int, rolls: ObjectGeneration.Rolls): StepState
    decreases y - y0
  {
    if y <= y0 then st
    else Visit(ColumnFrom(st, gi, group, x, y0, y - 1, rolls), gi, group, Cell(x, y - 1), rolls(gi, Cell(x, y - 1)))
  }

  lemma ColumnFromNext(st: StepState, gi: nat, group: ObjectGroup, x: int, y0: int, y: int, rolls: ObjectGeneration.Rolls)
    requires y0 <= y
    ensures ColumnFrom(st, gi, group, x, y0, y + 1, rolls) ==
            Visit(ColumnFrom(st, gi, group, x, y0, y, rolls), gi, group, Cell(x, y), rolls(gi, Cell(x, y)))
  {
  }

  lemma ColumnFromDone(st: StepState, gi: nat, group: ObjectGroup, x: int, y0: int, y: int, y1: int, rolls: ObjectGeneration.Rolls)
    requires y0 <= y && (y <= y1 || y == y0) && y1 <= y
    ensures ColumnFrom(st, gi, group, x, y0, y1, rolls) == ColumnFrom(st, gi, group, x, y0, y, rolls)
  {
  }

  /** Visiting a column after the cells `visited` continues the scan of `visited` with that column. */
  lemma {:induction false} ScanColumnFrom(st: StepState, gi: nat, group: ObjectGroup, visited: seq<Cell>, x: int, y0: int, y: int, rolls: ObjectGeneration.Rolls)
    ensures ScanFrom(st, gi, group, visited + Column(x, y0, y), rolls) ==
            ColumnFrom(ScanFrom(st, gi, group, visited, rolls), gi, group, x, y0, y, rolls)
    decreases y - y0
  {
    if y <= y0 {
      assert visited + Column(x, y0, y) == visited;
    } else {
      var prior, c := visited + Column(x, y0, y - 1), Cell(x, y - 1);
      calc {
        ScanFrom(st, gi, group, visited + Column(x, y0, y), rolls);
        { ColumnAppend(visited, x, y0, y - 1); }
        ScanFrom(st, gi, group, prior + [c], rolls);
        { ScanFromStep(st, gi, group, prior, c, rolls); }
        Visit(ScanFrom(st, gi, group, prior, rolls), gi, group, c, rolls(gi, c));
        { ScanColumnFrom(st, gi, group, visited, x, y0, y - 1, rolls); }
        Visit(ColumnFrom(ScanFrom(st, gi, group, visited, rolls), gi, group, x, y0, y - 1, rolls), gi, group, c, rolls(gi, c));
      }
    }
  }

  /** The step's lists after visiting the columns x0, ..., x - 1 of the rectangle, one after the other. */
  function RectFrom(st: StepState, gi: nat, group: ObjectGroup, x0: int, x: int, y0: int, y1: int, rolls: ObjectGeneration.Rolls): StepState
    decreases x - x0
  {
    if x <= x0 then st
    else ColumnFrom(RectFrom(st, gi, group, x0, x - 1, y0, y1, rolls), gi, group, x - 1, y0, y1, rolls)
  }

  lemma RectFromNext(st: StepState, gi: nat, group: ObjectGroup, x0: int, x: int, y0: int, y1: int, rolls: ObjectGeneration.Rolls)
    requires x0 <= x
    ensures RectFrom(st, gi, group, x0, x + 1, y0, y1, rolls) ==
            ColumnFrom(RectFrom(st, gi, group, x0, x, y0, y1, rolls), gi, group, x, y0, y1, rolls)
  {
  }

  /** Visiting the rectangle column by column is visiting its cells in scan order. */
  lemma {:induction false} RectFromScan(st: StepState, gi: nat, group: ObjectGroup, x0: int, x: int, y0: int, y1: int, rolls: ObjectGeneration.Rolls)
    ensures RectFrom(st, gi, group, x0, x, y0, y1, rolls) == ScanFrom(st, gi, group, Rect(x0, x, y0, y1), rolls)
    decreases x - x0
  {
    if x > x0 {
      ColumnDone(x0, y0, y1, x - 1);
      RectFromScan(st, gi, group, x0, x - 1, y0, y1, rolls);
      ScanColumnFrom(st, gi, group, Rect(x0, x - 1, y0, y1), x - 1, y0, y1, rolls);
    }
  }

  /** When the outer loop stops, the group has made its spawns over the whole rectangle. */
  lemma GroupScanned(st: StepState, now: StepState, gi: nat, group: ObjectGroup, x0: int, x1: int, y0: int, y1: int, x: int, rolls: ObjectGeneration.Rolls)
    requires x0 <= x && (x <= x1 || x == x0) && x1 <= x
    requires now == RectFrom(st, gi, group, x0, x, y0, y1, rolls)
    ensures now == Record(st, Placed(st.occupied, gi, group, Rect(x0, x1, y0, y1), rolls))
  {
    ScanDone(x0, x1, y0, y1, x);
    RectFromScan(st, gi, group, x0, x1, y0, y1, rolls);
    ScanFromPlaced(st, gi, group, Rect(x0, x1, y0, y1), rolls);
  }

  /**
   * The older generation step. `occupiedPositions` is the step's list of claimed cells;
   * `spawned` logs the objects instantiated and `parents` the groups whose parent object
   * was registered with the world generator, in registration order.
   */
  class ObjectGenerationStep {
    const worldWidth: int
    const worldHeight: int
    const spawnArea: int
    const excludedEdgeArea: int
    var occupiedPositions: seq<Cell>
    var spawned: seq<Spawn>
    var parents: seq<nat>

    constructor (worldWidth: int, worldHeight: int, spawnArea: int, excludedEdgeArea: int)
      ensures this.worldWidth == worldWidth && this.worldHeight == worldHeight
      ensures this.spawnArea == spawnArea && this.excludedEdgeArea == excludedEdgeArea
      ensures occupiedPositions == [] && spawned == [] && parents == []
    {
      this.worldWidth, this.worldHeight := worldWidth, worldHeight;
      this.spawnArea, this.excludedEdgeArea := spawnArea, excludedEdgeArea;
      occupiedPositions, spawned, parents := [], [], [];
    }

    function CenterX(): int { HalfTowardZero(worldWidth) }
    function CenterY(): int { HalfTowardZero(worldHeight) }

    /** The square kept free around the world centre, in the order it is claimed. */
    function SpawnArea(): seq<Cell> {
      Rect(CenterX() - spawnArea, CenterX() + spawnArea, CenterY() - spawnArea, CenterY() + spawnArea)
    }

    /** The candidate cells, away from the world's edges, in scan order. */
    function ScanArea(): seq<Cell> {
      Rect(excludedEdgeArea, worldWidth - excludedEdgeArea, excludedEdgeArea, worldHeight - excludedEdgeArea)
    }

    function State(): StepState
      reads this
    {
      StepState(spawned, occupiedPositions, parents)
    }

    /** Whether some claimed cell has the coordinates of `pos`. */
    function IsPositionOccupied(pos: Cell): (r: bool)
      reads this
      ensures r <==> pos in occupiedPositions
    {
      ObjectGeneration.AnyAtMeans(occupiedPositions, pos);
      ObjectGeneration.AnyAt(occupiedPositions, pos)
    }

    /**
     * One pass: forget the claimed cells, claim the spawn square, then let every group
     * with at least one variant register its parent object and scan the world in order.
     */
    method Generate(groups: seq<ObjectGroup>, rolls: ObjectGeneration.Rolls)
      modifies this
      ensures State() == Record(StepState(old(spawned), SpawnArea(), old(parents) + WithVariantsFrom(groups, 0)), Pass(SpawnArea(), groups, ScanArea(), rolls))
    {
      occupiedPositions := [];
      OccupySpawnArea();
      ghost var start := State();
      assert start.occupied == SpawnArea();
      RecordNothing(start);
      ghost var placed: seq<Spawn> := [];
      for g := 0 to |groups|
        invariant State() == Record(StepState(start.spawned, start.occupied, parents), placed)
        invariant parents + WithVariantsFrom(groups, g) == start.parents + WithVariantsFrom(groups, 0)
        invariant PassFrom(start.occupied, placed, groups, ScanArea(), rolls, g) == Pass(start.occupied, groups, ScanArea(), rolls)
      {
        if |groups[g].variants| > 0 {
          ghost var made := Placed(start.occupied + Origins(placed), g, groups[g], ScanArea(), rolls);
          ghost var before := parents;
          GenerateGroup(g, groups[g], rolls);
          RecordConcat(StepState(start.spawned, start.occupied, parents), placed, made);
          ObjectGeneration.AppendAssoc(before, [g], WithVariantsFrom(groups, g + 1));
          placed := placed + made;
        } else {
          assert WithVariantsFrom(groups, g) == [] + WithVariantsFrom(groups, g + 1);
        }
      }
      assert parents == start.parents + WithVariantsFrom(groups, 0);
    }

    method OccupySpawnArea()
      modifies this
      ensures occupiedPositions == old(occupiedPositions) + SpawnArea()
      ensures spawned == old(spawned) && parents == old(parents)
    {
      var x0, x1 := CenterX() - spawnArea, CenterX() + spawnArea;
      var y0, y1 := CenterY() - spawnArea, CenterY() + spawnArea;
      ghost var o0 := occupiedPositions;
      var x := x0;
      while x < x1
        invariant x0 <= x && (x <= x1 || x == x0)
        invariant occupiedPositions == o0 + Rect(x0, x, y0, y1)
        invariant spawned == old(spawned) && parents == old(parents)
        decreases x1 - x
      {
        OccupyColumn(x, y0, y1);
        RectAppend(o0, x0, x, y0, y1);
        x := x + 1;
      }
      ScanDone(x0, x1, y0, y1, x);
      assert SpawnArea() == Rect(x0, x1, y0, y1);
    }

    /** The inner loop of `OccupySpawnArea`: claims (x, y0), ..., (x, y1 - 1) in that order. */
    method OccupyColumn(x: int, y0: int, y1: int)
      modifies this
      ensures occupiedPositions == old(occupiedPositions) + Column(x, y0, y1)
      ensures spawned == old(spawned) && parents == old(parents)
    {
      ghost var p := occupiedPositions;
      var y := y0;
      while y < y1
        invariant y0 <= y && (y <= y1 || y == y0)
        invariant occupiedPositions == p + Column(x, y0, y)
        invariant spawned == old(spawned) && parents == old(parents)
        decreases y1 - y
      {
        ColumnAppend(p, x, y0, y);
        occupiedPositions := occupiedPositions + [Cell(x, y)];
        y := y + 1;
      }
      assert Column(x, y0, y) == Column(x, y0, y1);
    }

    /**
     * Registers the group's parent object, then scans the candidate cells, x outer and y
     * inner, recording the spawns the group makes over the scan area.
     */
    method GenerateGroup(gi: nat, group: ObjectGroup, rolls: ObjectGeneration.Rolls)
      requires |group.variants| > 0
      modifies this
      ensures State() == Record(StepState(old(spawned), old(occupiedPositions), old(parents) + [gi]),
                                Placed(old(occupiedPositions), gi, group, ScanArea(), rolls))
    {
      parents := parents + [gi];
      var x0, x1 := excludedEdgeArea, worldWidth - excludedEdgeArea;
      var y0, y1 := excludedEdgeArea, worldHeight - excludedEdgeArea;
      ghost var st0 := State();
      assert st0.occupied == old(occupiedPositions) && ScanArea() == Rect(x0, x1, y0, y1);
      var x := x0;
      while x < x1
        invariant x0 <= x && (x <= x1 || x == x0)
        invariant State() == RectFrom(st0, gi, group, x0, x, y0, y1, rolls)
        decreases x1 - x
      {
        RectFromNext(st0, gi, group, x0, x, y0, y1, rolls);
        ScanColumn(gi, group, rolls, x);
        x := x + 1;
      }
      GroupScanned(st0, State(), gi, group, x0, x1, y0, y1, x, rolls);
    }

    /** The inner loop of the scan: the candidate cells of column `x`, bottom to top. */
    method ScanColumn(gi: nat, group: ObjectGroup, rolls: ObjectGeneration.Rolls, x: int)
      modifies this
      ensures State() == ColumnFrom(old(State()), gi, group, x, excludedEdgeArea, worldHeight - excludedEdgeArea, rolls)
    {
      var y0, y1 := excludedEdgeArea, worldHeight - excludedEdgeArea;
      ghost var st0 := State();
      var y := y0;
      while y < y1
        invariant y0 <= y && (y <= y1 || y == y0)
        invariant State() == ColumnFrom(st0, gi, group, x, y0, y, rolls)
        decreases y1 - y
      {
        ColumnFromNext(st0, gi, group, x, y0, y, rolls);
        TryPlace(gi, group, x, y, rolls(gi, Cell(x, y)));
        y := y + 1;
      }
      ColumnFromDone(st0, gi, group, x, y0, y, y1, rolls);
    }

    /**
     * One scanned cell: skipped when it is claimed or the draw exceeds the frequency,
     * otherwise an object is instantiated on it and the cell claimed.
     */
    method TryPlace(gi: nat, group: ObjectGroup, x: int, y: int, roll: ObjectGeneration.Roll)
      modifies this
      ensures State() == Visit(old(State()), gi, group, Cell(x, y), roll)
    {
      var gridPos := Cell(x, y);
      if ObjectGeneration.AnyAt(occupiedPositions, gridPos) {
        return;
      }
      var r := roll.draw;
      if r > group.frequency {
        return;
      }
      spawned := spawned + [Spawn(gi, gridPos, r, roll.pick)];
      occupiedPositions := occupiedPositions + [gridPos];
    }
  }
}
