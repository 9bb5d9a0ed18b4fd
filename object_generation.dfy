/**
 * Object placement with footprint-aware occupancy tracking: the generation step that
 * scatters a season's object groups over the world grid.
 */
module ObjectGeneration {
  import opened Grid

  /** One visual variant of a group; only its weight in the variant bag matters here. */
  datatype ObjectVariant = ObjectVariant(weight: int)

  /**
   * A group of objects placed by the same rule: its variants, its spawn frequency in
   * permille and its footprint, the offsets from the origin that one placed object covers.
   */
  datatype ObjectGroup = ObjectGroup(variants: seq<ObjectVariant>, frequency: int, footprint: seq<Cell>)

  /**
   * The random outcomes for one scanned origin: the draw of `Random.Range(0, 1001)` and the
   * index the weighted variant bag hands back.
   */
  datatype Roll = Roll(draw: int, pick: nat)

  /**
   * The random outcomes of a pass: `rolls(gi, c)` is what group `gi` draws at origin `c`.
   * A group's scan visits every cell once, so every sequence the random generator can
   * return is described by some such function.
   */
  type Rolls = (nat, Cell) -> Roll

  /** Every draw of group `gi` is one `Random.Range(0, 1001)` can return and picks an existing variant. */
  ghost predicate RollsInRange(rolls: Rolls, gi: nat, variantCount: nat) {
    forall c :: 0 <= rolls(gi, c).draw <= 1000 && rolls(gi, c).pick < variantCount
  }

  /** One instantiated object: its group, origin, covered cells, the draw that let it in and its variant. */
  datatype Placement = Placement(group: nat, origin: Cell, cells: seq<Cell>, draw: int, variant: nat)

  /** One `AddPositionalObject(x, y, clone)` call; clones are numbered in the order they are created. */
  datatype Registration = Registration(cell: Cell, clone: nat)

  /** The cells `origin + offset` for each footprint offset, in footprint order. */
  function Footprint(origin: Cell, offsets: seq<Cell>): seq<Cell> {
    if offsets == [] then [] else Footprint(origin, offsets[..|offsets| - 1]) + [Offset(origin, offsets[|offsets| - 1])]
  }

  /** The footprint covers exactly the origin moved by each offset. */
  lemma {:induction false} FootprintCells(origin: Cell, offsets: seq<Cell>)
    ensures |Footprint(origin, offsets)| == |offsets|
    ensures forall i | 0 <= i < |offsets| :: Footprint(origin, offsets)[i] == Offset(origin, offsets[i])
  {
    if offsets != [] {
      FootprintCells(origin, offsets[..|offsets| - 1]);
    }
  }

  /** Whether some recorded cell has the coordinates of `p`, searching the list front to back. */
  function AnyAt(list: seq<Cell>, p: Cell): bool {
    if list == [] then false
    else (list[0].x == p.x && list[0].y == p.y) || AnyAt(list[1..], p)
  }

  /** The coordinate search finds `p` exactly when it is in the list. */
  lemma {:induction false} AnyAtMeans(list: seq<Cell>, p: Cell)
    ensures AnyAt(list, p) <==> p in list
  {
    if list != [] {
      AnyAtMeans(list[1..], p);
      assert list == [list[0]] + list[1..];
    }
  }

  /** Some of `cells` is recorded in `occupied`. */
  predicate Blocked(cells: seq<Cell>, occupied: seq<Cell>) {
    exists c :: c in cells && c in occupied
  }

  /** Whether some of `cells` is already recorded in `occupied`, checking the cells in order. */
  function AnyOccupied(cells: seq<Cell>, occupied: seq<Cell>): bool {
    if cells == [] then false
    else AnyAt(occupied, cells[0]) || AnyOccupied(cells[1..], occupied)
  }

  /** The cell-by-cell search reports a footprint blocked exactly when one of its cells is recorded. */
  lemma {:induction false} AnyOccupiedMeans(cells: seq<Cell>, occupied: seq<Cell>)
    ensures AnyOccupied(cells, occupied) <==> Blocked(cells, occupied)
  {
    if cells != [] {
      AnyAtMeans(occupied, cells[0]);
      AnyOccupiedMeans(cells[1..], occupied);
      assert cells == [cells[0]] + cells[1..];
    }
  }

  /** All cells covered by the placements, in placement order. */
  function AllCells(ps: seq<Placement>): seq<Cell> {
    if ps == [] then [] else AllCells(ps[..|ps| - 1]) + ps[|ps| - 1].cells
  }

  /** A cell is covered by the placements exactly when one of them covers it. */
  lemma {:induction false} AllCellsMembers(ps: seq<Placement>)
    ensures forall c :: c in AllCells(ps) <==> exists i :: 0 <= i < |ps| && c in ps[i].cells
  {
    if ps != [] {
      var n := |ps| - 1;
      AllCellsMembers(ps[..n]);
      forall c ensures c in AllCells(ps) <==> exists i :: 0 <= i < |ps| && c in ps[i].cells {
        if c in AllCells(ps[..n]) {
          var i :| 0 <= i < n && c in ps[..n][i].cells;
          assert c in ps[i].cells;
        }
        if exists i :: 0 <= i < |ps| && c in ps[i].cells {
          var i :| 0 <= i < |ps| && c in ps[i].cells;
          if i < n {
            assert c in ps[..n][i].cells;
          }
        }
      }
    }
  }

  lemma {:induction false} AllCellsAppend(ps: seq<Placement>, qs: seq<Placement>)
    ensures AllCells(ps + qs) == AllCells(ps) + AllCells(qs)
    decreases |qs|
  {
    if qs != [] {
      var n := |qs| - 1;
      assert (ps + qs)[..|ps + qs| - 1] == ps + qs[..n];
      AllCellsAppend(ps, qs[..n]);
      calc {
        AllCells(ps + qs);
        AllCells(ps + qs[..n]) + qs[n].cells;
        AllCells(ps) + AllCells(qs[..n]) + qs[n].cells;
        AllCells(ps) + (AllCells(qs[..n]) + qs[n].cells);
        { assert qs[..|qs| - 1] == qs[..n]; }
        AllCells(ps) + AllCells(qs);
      }
    } else {
      assert ps + qs == ps;
    }
  }

  /** The registrations of one clone: each covered cell, in footprint order. */
  function Tag(cells: seq<Cell>, clone: nat): seq<Registration> {
    if cells == [] then [] else Tag(cells[..|cells| - 1], clone) + [Registration(cells[|cells| - 1], clone)]
  }

  lemma {:induction false} TagCells(cells: seq<Cell>, clone: nat)
    ensures |Tag(cells, clone)| == |cells|
    ensures forall i | 0 <= i < |cells| :: Tag(cells, clone)[i] == Registration(cells[i], clone)
  {
    if cells != [] {
      TagCells(cells[..|cells| - 1], clone);
    }
  }

  /** The registrations made for placements numbered `base`, `base + 1`, ... */
  function Registrations(ps: seq<Placement>, base: nat): seq<Registration> {
    if ps == [] then [] else Tag(ps[0].cells, base) + Registrations(ps[1..], base + 1)
  }

  lemma {:induction false} RegistrationsConcat(ps: seq<Placement>, qs: seq<Placement>, base: nat)
    ensures Registrations(ps + qs, base) == Registrations(ps, base) + Registrations(qs, base + |ps|)
    decreases |ps|
  {
    if ps == [] {
      assert ps + qs == qs;
    } else {
      assert (ps + qs)[0] == ps[0] && (ps + qs)[1..] == ps[1..] + qs;
      RegistrationsConcat(ps[1..], qs, base + 1);
      AppendAssoc(Tag(ps[0].cells, base), Registrations(ps[1..], base + 1), Registrations(qs, base + |ps|));
    }
  }

  lemma RegistrationsOne(q: Placement, base: nat)
    ensures Registrations([q], base) == Tag(q.cells, base)
  {
    assert [q][1..] == [];
  }

  /** The registrations list exactly the covered cells, in placement order. */
  lemma {:induction false} RegistrationsCells(ps: seq<Placement>, base: nat)
    ensures |Registrations(ps, base)| == |AllCells(ps)|
    ensures forall k | 0 <= k < |AllCells(ps)| :: Registrations(ps, base)[k].cell == AllCells(ps)[k]
  {
    if ps != [] {
      var n := |ps| - 1;
      RegistrationsCells(ps[..n], base);
      assert ps == ps[..n] + [ps[n]];
      RegistrationsConcat(ps[..n], [ps[n]], base);
      RegistrationsOne(ps[n], base + n);
      TagCells(ps[n].cells, base + n);
      assert AllCells(ps) == AllCells(ps[..n]) + ps[n].cells;
    }
  }

  /** Each registration carries the number of a placement that covers its cell. */
  lemma {:induction false} RegistrationsClones(ps: seq<Placement>, base: nat)
    ensures forall r | r in Registrations(ps, base) :: base <= r.clone < base + |ps| && r.cell in ps[r.clone - base].cells
  {
    if ps != [] {
      RegistrationsClones(ps[1..], base + 1);
      var tag, rest := Tag(ps[0].cells, base), Registrations(ps[1..], base + 1);
      TagCells(ps[0].cells, base);
      forall r: Registration | r in tag + rest
        ensures base <= r.clone < base + |ps| && r.cell in ps[r.clone - base].cells
      {
        if r in rest {
          assert ps[1..][r.clone - (base + 1)] == ps[r.clone - base];
        } else {
          var k :| 0 <= k < |tag| && tag[k] == r;
        }
      }
    }
  }

  /**
   * What happens at one scanned origin: nothing when a footprint cell is occupied or
   * the draw exceeds the group's frequency, otherwise one placement covering the footprint.
   */
  function Attempt(occupied: seq<Cell>, gi: nat, group: ObjectGroup, origin: Cell, roll: Roll): seq<Placement> {
    var cells := Footprint(origin, group.footprint);
    if AnyOccupied(cells, occupied) || roll.draw > group.frequency then []
    else [Placement(gi, origin, cells, roll.draw, roll.pick)]
  }

  /**
   * The placements group `gi` makes while scanning `origins` in order, starting from the
   * recorded cells `occupied`; each origin consults the cells recorded before it.
   */
  function Placed(occupied: seq<Cell>, gi: nat, group: ObjectGroup, origins: seq<Cell>, rolls: Rolls): seq<Placement> {
    if origins == [] then []
    else
      var n := |origins| - 1;
      var before := Placed(occupied, gi, group, origins[..n], rolls);
      before + Attempt(occupied + AllCells(before), gi, group, origins[n], rolls(gi, origins[n]))
  }

  /**
   * How many of the placements, recorded one after the other against `occupied`, cover a
   * cell of `occupied` or of an earlier placement.
   */
  function Overlaps(occupied: seq<Cell>, ps: seq<Placement>): nat {
    if ps == [] then 0
    else
      var before := ps[..|ps| - 1];
      Overlaps(occupied, before) + if AnyOccupied(ps[|ps| - 1].cells, occupied + AllCells(before)) then 1 else 0
  }

  /** Each placement was checked free against `occupied` and everything recorded before it. */
  predicate Separated(occupied: seq<Cell>, ps: seq<Placement>) {
    Overlaps(occupied, ps) == 0
  }

  /** No cell is used twice: the placements avoid `occupied` and are pairwise disjoint. */
  ghost predicate Disjoint(occupied: seq<Cell>, ps: seq<Placement>) {
    (forall i, c | 0 <= i < |ps| && c in ps[i].cells :: c !in occupied) &&
    (forall i, j, c | 0 <= i < j < |ps| && c in ps[i].cells :: c !in ps[j].cells)
  }

  /** Recording placements one by one against what is already recorded is exactly keeping them disjoint. */
  lemma {:induction false} SeparatedMeans(occupied: seq<Cell>, ps: seq<Placement>)
    ensures Separated(occupied, ps) <==> Disjoint(occupied, ps)
  {
    if ps != [] {
      var n := |ps| - 1;
      var before, last := ps[..n], ps[n];
      SeparatedMeans(occupied, before);
      AllCellsMembers(before);
      AnyOccupiedMeans(last.cells, occupied + AllCells(before));
      assert ps == before + [last];
      if Separated(occupied, ps) {
        forall i, j, c | 0 <= i < j < |ps| && c in ps[i].cells
          ensures c !in ps[j].cells
        {
          if j == n {
            assert c in AllCells(before) by {
              assert c in before[i].cells;
            }
            assert c in occupied + AllCells(before);
          } else {
            assert before[i] == ps[i] && before[j] == ps[j];
          }
        }
        forall i, c | 0 <= i < |ps| && c in ps[i].cells
          ensures c !in occupied
        {
          if i == n {
            assert c in occupied ==> c in occupied + AllCells(before);
          } else {
            assert before[i] == ps[i];
          }
        }
      }
      if Disjoint(occupied, ps) {
        forall i, c | 0 <= i < |before| && c in before[i].cells
          ensures c !in occupied
        {
          assert before[i] == ps[i];
        }
        forall i, j, c | 0 <= i < j < |before| && c in before[i].cells
          ensures c !in before[j].cells
        {
          assert before[i] == ps[i] && before[j] == ps[j];
        }
      }
    }
  }

  /** Placements checked against everything recorded before them can be appended in turn. */
  lemma {:induction false} SeparatedAppend(occupied: seq<Cell>, ps: seq<Placement>, qs: seq<Placement>)
    requires Separated(occupied, ps) && Separated(occupied + AllCells(ps), qs)
    ensures Separated(occupied, ps + qs)
    decreases |qs|
  {
    if qs == [] {
      assert ps + qs == ps;
    } else {
      var n := |qs| - 1;
      SeparatedAppend(occupied, ps, qs[..n]);
      assert (ps + qs)[..|ps + qs| - 1] == ps + qs[..n];
      AllCellsAppend(ps, qs[..n]);
      AppendAssoc(occupied, AllCells(ps), AllCells(qs[..n]));
    }
  }

  /** The placements of one scan were each checked against everything recorded before them. */
  lemma {:induction false} PlacedSeparated(occupied: seq<Cell>, gi: nat, group: ObjectGroup, origins: seq<Cell>, rolls: Rolls)
    ensures Separated(occupied, Placed(occupied, gi, group, origins, rolls))
  {
    if origins != [] {
      var n := |origins| - 1;
      var before := Placed(occupied, gi, group, origins[..n], rolls);
      var a := Attempt(occupied + AllCells(before), gi, group, origins[n], rolls(gi, origins[n]));
      PlacedSeparated(occupied, gi, group, origins[..n], rolls);
      if a == [] {
        assert before + a == before;
      } else {
        assert (before + a)[..|before|] == before;
      }
    }
  }

  /**
   * A placement of a scan belongs to the group, stands at a scanned origin, covers exactly
   * that origin's footprint, and got in with a draw in [0, frequency] and an existing variant.
   */
  ghost predicate Admitted(p: Placement, gi: nat, group: ObjectGroup, scan: seq<Cell>) {
    p.group == gi && p.origin in scan && p.cells == Footprint(p.origin, group.footprint) &&
    0 <= p.draw <= group.frequency && p.variant < |group.variants|
  }

  ghost predicate AllAdmitted(ps: seq<Placement>, gi: nat, group: ObjectGroup, scan: seq<Cell>) {
    forall i | 0 <= i < |ps| :: Admitted(ps[i], gi, group, scan)
  }

  /** Every placement made while scanning a prefix of `scan` is admitted by the group's rule. */
  lemma {:induction false} PlacedAdmitted(occupied: seq<Cell>, gi: nat, group: ObjectGroup, origins: seq<Cell>, rolls: Rolls, scan: seq<Cell>)
    requires origins <= scan && RollsInRange(rolls, gi, |group.variants|)
    ensures AllAdmitted(Placed(occupied, gi, group, origins, rolls), gi, group, scan)
  {
    if origins != [] {
      var n := |origins| - 1;
      var before := Placed(occupied, gi, group, origins[..n], rolls);
      var a := Attempt(occupied + AllCells(before), gi, group, origins[n], rolls(gi, origins[n]));
      assert origins[..n] <= scan;
      PlacedAdmitted(occupied, gi, group, origins[..n], rolls, scan);
      assert origins[n] == scan[n];
      AdmittedAppend(before, a, gi, group, scan);
    }
  }

  lemma AdmittedAppend(ps: seq<Placement>, qs: seq<Placement>, gi: nat, group: ObjectGroup, scan: seq<Cell>)
    requires AllAdmitted(ps, gi, group, scan) && AllAdmitted(qs, gi, group, scan)
    ensures AllAdmitted(ps + qs, gi, group, scan)
  {
    forall i | 0 <= i < |ps + qs|
      ensures Admitted((ps + qs)[i], gi, group, scan)
    {
      if i < |ps| {
        assert (ps + qs)[i] == ps[i];
      } else {
        assert (ps + qs)[i] == qs[i - |ps|];
      }
    }
  }

  /** A group whose frequency is negative never passes the draw, so it places nothing. */
  lemma {:induction false} NegativeFrequencyPlacesNothing(occupied: seq<Cell>, gi: nat, group: ObjectGroup, origins: seq<Cell>, rolls: Rolls)
    requires RollsInRange(rolls, gi, |group.variants|) && group.frequency < 0
    ensures Placed(occupied, gi, group, origins, rolls) == []
  {
    if origins != [] {
      var n := |origins| - 1;
      NegativeFrequencyPlacesNothing(occupied, gi, group, origins[..n], rolls);
      assert rolls(gi, origins[n]).draw >= 0;
    }
  }

  /** Placing only appends: the placements of a shorter scan are a prefix of a longer one's. */
  lemma {:induction false} PlacedGrows(occupied: seq<Cell>, gi: nat, group: ObjectGroup, origins: seq<Cell>, rolls: Rolls, k: nat)
    requires k <= |origins|
    ensures Placed(occupied, gi, group, origins[..k], rolls) <= Placed(occupied, gi, group, origins, rolls)
    decreases |origins| - k
  {
    if k < |origins| {
      PlacedGrows(occupied, gi, group, origins, rolls, k + 1);
      PlacedOneMore(occupied, gi, group, origins, rolls, k);
      PrefixTrans(Placed(occupied, gi, group, origins[..k], rolls), Placed(occupied, gi, group, origins[..k + 1], rolls), Placed(occupied, gi, group, origins, rolls));
    } else {
      assert origins[..k] == origins;
    }
  }

  /** Scanning one more origin keeps the placements made so far. */
  lemma PlacedOneMore(occupied: seq<Cell>, gi: nat, group: ObjectGroup, origins: seq<Cell>, rolls: Rolls, k: nat)
    requires k < |origins|
    ensures Placed(occupied, gi, group, origins[..k], rolls) <= Placed(occupied, gi, group, origins[..k + 1], rolls)
  {
    var mid := Placed(occupied, gi, group, origins[..k], rolls);
    TakeOneMore(origins, k);
    PlacedStep(occupied, gi, group, origins[..k], origins[k], rolls);
    PrefixExtends(mid, mid, Attempt(occupied + AllCells(mid), gi, group, origins[k], rolls(gi, origins[k])));
  }

  lemma PrefixTrans<T>(a: seq<T>, b: seq<T>, c: seq<T>)
    requires a <= b && b <= c
    ensures a <= c
  {
  }

  lemma PrefixExtends<T>(short: seq<T>, mid: seq<T>, more: seq<T>)
    requires short <= mid
    ensures short <= mid + more
  {
    assert (mid + more)[..|short|] == mid[..|short|];
  }

  /**
   * With a frequency of 1000 or more the draw always passes: the `k`-th scanned origin either
   * receives an object or has a footprint cell that is occupied once the scan is over.
   */
  lemma FullFrequencyFillsOrigin(occupied: seq<Cell>, gi: nat, group: ObjectGroup, origins: seq<Cell>, rolls: Rolls, k: nat)
    requires RollsInRange(rolls, gi, |group.variants|) && group.frequency >= 1000 && k < |origins|
    ensures var all := Placed(occupied, gi, group, origins, rolls);
      (exists i :: 0 <= i < |all| && all[i].origin == origins[k]) ||
      Blocked(Footprint(origins[k], group.footprint), occupied + AllCells(all))
  {
    var all := Placed(occupied, gi, group, origins, rolls);
    var before := Placed(occupied, gi, group, origins[..k], rolls);
    var cells := Footprint(origins[k], group.footprint);
    AnyOccupiedMeans(cells, occupied + AllCells(before));
    if Blocked(cells, occupied + AllCells(before)) {
      PlacedGrows(occupied, gi, group, origins, rolls, k);
      BlockedStaysBlocked(occupied, before, all, cells);
    } else {
      OriginPlaced(occupied, gi, group, origins, rolls, k);
      assert all[|before|].origin == origins[k];
    }
  }

  /** An origin whose footprint is free when it is scanned, and whose draw passes, receives an object. */
  lemma OriginPlaced(occupied: seq<Cell>, gi: nat, group: ObjectGroup, origins: seq<Cell>, rolls: Rolls, k: nat)
    requires k < |origins| && rolls(gi, origins[k]).draw <= group.frequency
    requires !Blocked(Footprint(origins[k], group.footprint), occupied + AllCells(Placed(occupied, gi, group, origins[..k], rolls)))
    ensures var n, all := |Placed(occupied, gi, group, origins[..k], rolls)|, Placed(occupied, gi, group, origins, rolls);
      n < |all| && all[n].origin == origins[k]
  {
    var before := Placed(occupied, gi, group, origins[..k], rolls);
    var upto := Placed(occupied, gi, group, origins[..k + 1], rolls);
    var r := rolls(gi, origins[k]);
    AnyOccupiedMeans(Footprint(origins[k], group.footprint), occupied + AllCells(before));
    TakeOneMore(origins, k);
    PlacedStep(occupied, gi, group, origins[..k], origins[k], rolls);
    assert upto == before + [Placement(gi, origins[k], Footprint(origins[k], group.footprint), r.draw, r.pick)];
    assert upto[|before|].origin == origins[k];
    PlacedGrows(occupied, gi, group, origins, rolls, k + 1);
    PrefixIndex(upto, Placed(occupied, gi, group, origins, rolls), |before|);
  }

  /** Scanning one more origin appends that origin's attempt. */
  lemma PlacedStep(occupied: seq<Cell>, gi: nat, group: ObjectGroup, origins: seq<Cell>, c: Cell, rolls: Rolls)
    ensures var before := Placed(occupied, gi, group, origins, rolls);
      Placed(occupied, gi, group, origins + [c], rolls) == before + Attempt(occupied + AllCells(before), gi, group, c, rolls(gi, c))
  {
    assert (origins + [c])[..|origins|] == origins;
  }

  lemma PrefixIndex<T>(short: seq<T>, long: seq<T>, i: nat)
    requires short <= long && i < |short|
    ensures i < |long| && long[i] == short[i]
  {
    assert long[..|short|][i] == long[i];
  }

  /** A footprint blocked by the cells claimed so far stays blocked as more placements are made. */
  lemma BlockedStaysBlocked(occupied: seq<Cell>, short: seq<Placement>, long: seq<Placement>, cells: seq<Cell>)
    requires short <= long && Blocked(cells, occupied + AllCells(short))
    ensures Blocked(cells, occupied + AllCells(long))
  {
    var rest := long[|short|..];
    assert long == short + rest;
    AllCellsAppend(short, rest);
    var c :| c in cells && c in occupied + AllCells(short);
    assert c in occupied + AllCells(long);
  }

  /**
   * The placements of a pass from group `g` on, when the groups before it placed `placed`:
   * every group with at least one variant scans `scan` against the spawn area and
   * everything placed so far, and appends what it places.
   */
  function PassFrom(spawn: seq<Cell>, placed: seq<Placement>, groups: seq<ObjectGroup>, scan: seq<Cell>, rolls: Rolls, g: nat): seq<Placement>
    requires g <= |groups|
    decreases |groups| - g
  {
    if g == |groups| then placed
    else if |groups[g].variants| == 0 then PassFrom(spawn, placed, groups, scan, rolls, g + 1)
    else PassFrom(spawn, placed + Placed(spawn + AllCells(placed), g, groups[g], scan, rolls), groups, scan, rolls, g + 1)
  }

  /** The placements of a whole pass over `groups`, in the order they are made. */
  function Pass(spawn: seq<Cell>, groups: seq<ObjectGroup>, scan: seq<Cell>, rolls: Rolls): seq<Placement> {
    PassFrom(spawn, [], groups, scan, rolls, 0)
  }

  /** Later groups only append: what earlier groups placed stays, in place. */
  lemma {:induction false} PassFromKeeps(spawn: seq<Cell>, placed: seq<Placement>, groups: seq<ObjectGroup>, scan: seq<Cell>, rolls: Rolls, g: nat)
    requires g <= |groups|
    ensures placed <= PassFrom(spawn, placed, groups, scan, rolls, g)
    decreases |groups| - g
  {
    if g < |groups| {
      if |groups[g].variants| == 0 {
        PassFromKeeps(spawn, placed, groups, scan, rolls, g + 1);
      } else {
        var made := Placed(spawn + AllCells(placed), g, groups[g], scan, rolls);
        PassFromKeeps(spawn, placed + made, groups, scan, rolls, g + 1);
        PrefixTrans(placed, placed + made, PassFrom(spawn, placed + made, groups, scan, rolls, g + 1));
      }
    }
  }

  /** One group's scan, checked against everything placed before it, keeps the placements separated. */
  lemma PlacedAfterSeparated(spawn: seq<Cell>, before: seq<Placement>, made: seq<Placement>, all: seq<Placement>, gi: nat, group: ObjectGroup, scan: seq<Cell>, rolls: Rolls)
    requires Separated(spawn, before) && made == Placed(spawn + AllCells(before), gi, group, scan, rolls) && all == before + made
    ensures Separated(spawn, all)
  {
    PlacedSeparated(spawn + AllCells(before), gi, group, scan, rolls);
    SeparatedAppend(spawn, before, made);
  }

  /** Every group of a pass checks each footprint against the spawn area and all cells claimed before it. */
  lemma {:induction false} PassFromSeparated(spawn: seq<Cell>, placed: seq<Placement>, groups: seq<ObjectGroup>, scan: seq<Cell>, rolls: Rolls, g: nat)
    requires g <= |groups| && Separated(spawn, placed)
    ensures Separated(spawn, PassFrom(spawn, placed, groups, scan, rolls, g))
    decreases |groups| - g
  {
    if g < |groups| {
      if |groups[g].variants| == 0 {
        PassFromSeparated(spawn, placed, groups, scan, rolls, g + 1);
      } else {
        var made := Placed(spawn + AllCells(placed), g, groups[g], scan, rolls);
        PlacedAfterSeparated(spawn, placed, made, placed + made, g, groups[g], scan, rolls);
        PassFromSeparated(spawn, placed + made, groups, scan, rolls, g + 1);
      }
    }
  }

  /**
   * No cell is claimed twice in a pass: no footprint covers a cell of the spawn area, and the
   * footprints of any two placements are disjoint.
   */
  lemma PassDisjoint(spawn: seq<Cell>, groups: seq<ObjectGroup>, scan: seq<Cell>, rolls: Rolls)
    ensures Disjoint(spawn, Pass(spawn, groups, scan, rolls))
  {
    PassFromSeparated(spawn, [], groups, scan, rolls, 0);
    SeparatedMeans(spawn, Pass(spawn, groups, scan, rolls));
  }

  /** The placements of the first `g` groups each come from one of those groups and obey its rule. */
  ghost predicate PassAdmitted(ps: seq<Placement>, groups: seq<ObjectGroup>, scan: seq<Cell>, g: nat) {
    forall i | 0 <= i < |ps| :: ps[i].group < g <= |groups| && Admitted(ps[i], ps[i].group, groups[ps[i].group], scan)
  }

  lemma {:induction false} PassFromAdmitted(spawn: seq<Cell>, placed: seq<Placement>, groups: seq<ObjectGroup>, scan: seq<Cell>, rolls: Rolls, g: nat)
    requires g <= |groups| && forall gi | 0 <= gi < |groups| :: RollsInRange(rolls, gi, |groups[gi].variants|)
    requires PassAdmitted(placed, groups, scan, g)
    ensures PassAdmitted(PassFrom(spawn, placed, groups, scan, rolls, g), groups, scan, |groups|)
    decreases |groups| - g
  {
    if g < |groups| {
      var made := if |groups[g].variants| == 0 then [] else Placed(spawn + AllCells(placed), g, groups[g], scan, rolls);
      PlacedAfterAdmitted(spawn, placed, made, placed + made, groups, scan, rolls, g);
      if |groups[g].variants| == 0 {
        assert placed + made == placed;
      }
      PassFromAdmitted(spawn, placed + made, groups, scan, rolls, g + 1);
    }
  }

  /** What group `g` places (nothing when it has no variant) is admitted by its rule. */
  lemma PlacedAfterAdmitted(spawn: seq<Cell>, placed: seq<Placement>, made: seq<Placement>, all: seq<Placement>, groups: seq<ObjectGroup>, scan: seq<Cell>, rolls: Rolls, g: nat)
    requires g < |groups| && RollsInRange(rolls, g, |groups[g].variants|) && PassAdmitted(placed, groups, scan, g)
    requires made == (if |groups[g].variants| == 0 then [] else Placed(spawn + AllCells(placed), g, groups[g], scan, rolls))
    requires all == placed + made
    ensures PassAdmitted(all, groups, scan, g + 1)
  {
    if |groups[g].variants| > 0 {
      PlacedAdmitted(spawn + AllCells(placed), g, groups[g], scan, rolls, scan);
    }
    PassAdmittedAppend(placed, made, groups, scan, g + 1);
  }

  /**
   * Every placement of a pass comes from a group with at least one variant, has its origin in
   * the scanned area, covers exactly the group's footprint there, passed the frequency draw and
   * picked one of the group's variants.
   */
  lemma PassAllAdmitted(spawn: seq<Cell>, groups: seq<ObjectGroup>, scan: seq<Cell>, rolls: Rolls)
    requires forall gi | 0 <= gi < |groups| :: RollsInRange(rolls, gi, |groups[gi].variants|)
    ensures PassAdmitted(Pass(spawn, groups, scan, rolls), groups, scan, |groups|)
  {
    PassFromAdmitted(spawn, [], groups, scan, rolls, 0);
  }

  lemma PassAdmittedAppend(before: seq<Placement>, made: seq<Placement>, groups: seq<ObjectGroup>, scan: seq<Cell>, g: nat)
    requires 0 < g <= |groups| && PassAdmitted(before, groups, scan, g - 1)
    requires AllAdmitted(made, g - 1, groups[g - 1], scan)
    ensures PassAdmitted(before + made, groups, scan, g)
  {
    forall i | 0 <= i < |before + made|
      ensures (before + made)[i].group < g && Admitted((before + made)[i], (before + made)[i].group, groups[(before + made)[i].group], scan)
    {
      if i < |before| {
        assert (before + made)[i] == before[i];
      } else {
        assert (before + made)[i] == made[i - |before|];
      }
    }
  }

  /** The spawn area is a square around the world centre; no placement of a pass covers any of its cells. */
  lemma SpawnAreaUnused(x0: int, x1: int, y0: int, y1: int, groups: seq<ObjectGroup>, scan: seq<Cell>, rolls: Rolls)
    ensures var ps := Pass(Rect(x0, x1, y0, y1), groups, scan, rolls);
      forall i, c | 0 <= i < |ps| && c in ps[i].cells :: !InRect(c, x0, x1, y0, y1)
  {
    PassDisjoint(Rect(x0, x1, y0, y1), groups, scan, rolls);
    RectCells(x0, x1, y0, y1);
  }

  /** The step's three lists: the objects spawned, the cells claimed and the registry's entries. */
  datatype StepState = StepState(spawned: seq<Placement>, occupied: seq<Cell>, registered: seq<Registration>)

  /**
   * The lists after the placements `ps` are made: each is spawned, its cells are claimed,
   * and each cell is registered under the placement's clone number.
   */
  function Record(st: StepState, ps: seq<Placement>): StepState {
    StepState(st.spawned + ps, st.occupied + AllCells(ps), st.registered + Registrations(ps, |st.spawned|))
  }

  /** Recording placements in two batches is recording them at once, clones numbered on. */
  lemma RecordConcat(st: StepState, ps: seq<Placement>, qs: seq<Placement>)
    ensures Record(Record(st, ps), qs) == Record(st, ps + qs)
  {
    AppendAssoc(st.spawned, ps, qs);
    AllCellsAppend(ps, qs);
    AppendAssoc(st.occupied, AllCells(ps), AllCells(qs));
    RegistrationsConcat(ps, qs, |st.spawned|);
    AppendAssoc(st.registered, Registrations(ps, |st.spawned|), Registrations(qs, |st.spawned| + |ps|));
  }

  /** Recording nothing changes nothing. */
  lemma RecordNothing(st: StepState)
    ensures Record(st, []) == st
  {
    assert st.spawned + [] == st.spawned && st.occupied + [] == st.occupied && st.registered + [] == st.registered;
  }

  /** Handling one scanned origin: when its attempt succeeds the object is spawned, claimed and registered. */
  function Visit(st: StepState, gi: nat, group: ObjectGroup, origin: Cell, roll: Roll): StepState {
    var cells := Footprint(origin, group.footprint);
    if AnyOccupied(cells, st.occupied) || roll.draw > group.frequency then st
    else StepState(st.spawned + [Placement(gi, origin, cells, roll.draw, roll.pick)], st.occupied + cells, st.registered + Tag(cells, |st.spawned|))
  }

  /** A visit records exactly the origin's attempt. */
  lemma VisitAttempt(st: StepState, gi: nat, group: ObjectGroup, origin: Cell, roll: Roll)
    ensures Visit(st, gi, group, origin, roll) == Record(st, Attempt(st.occupied, gi, group, origin, roll))
  {
    var a := Attempt(st.occupied, gi, group, origin, roll);
    if a == [] {
      RecordNothing(st);
    } else {
      assert AllCells(a) == a[0].cells by {
        assert a[..0] == [];
      }
      RegistrationsOne(a[0], |st.spawned|);
    }
  }

  /** The step's lists after visiting `origins` in order. */
  function ScanFrom(st: StepState, gi: nat, group: ObjectGroup, origins: seq<Cell>, rolls: Rolls): StepState {
    if origins == [] then st
    else
      var n := |origins| - 1;
      Visit(ScanFrom(st, gi, group, origins[..n], rolls), gi, group, origins[n], rolls(gi, origins[n]))
  }

  lemma ScanFromStep(st: StepState, gi: nat, group: ObjectGroup, origins: seq<Cell>, c: Cell, rolls: Rolls)
    ensures ScanFrom(st, gi, group, origins + [c], rolls) == Visit(ScanFrom(st, gi, group, origins, rolls), gi, group, c, rolls(gi, c))
  {
    assert (origins + [c])[..|origins|] == origins;
  }

  /** Visiting `origins` records the placements the group makes there, clones numbered on from those already spawned. */
  lemma {:induction false} ScanFromPlaced(st: StepState, gi: nat, group: ObjectGroup, origins: seq<Cell>, rolls: Rolls)
    ensures ScanFrom(st, gi, group, origins, rolls) == Record(st, Placed(st.occupied, gi, group, origins, rolls))
  {
    if origins == [] {
      RecordNothing(st);
    } else {
      var n := |origins| - 1;
      var before := Placed(st.occupied, gi, group, origins[..n], rolls);
      ScanFromPlaced(st, gi, group, origins[..n], rolls);
      VisitAfter(st, before, gi, group, origins[n], rolls(gi, origins[n]));
    }
  }

  /** Visiting one more origin after the placements `before` extends them by that origin's attempt. */
  lemma VisitAfter(st: StepState, before: seq<Placement>, gi: nat, group: ObjectGroup, origin: Cell, roll: Roll)
    ensures Visit(Record(st, before), gi, group, origin, roll) ==
            Record(st, before + Attempt(st.occupied + AllCells(before), gi, group, origin, roll))
  {
    var mid := Record(st, before);
    VisitAttempt(mid, gi, group, origin, roll);
    RecordConcat(st, before, Attempt(mid.occupied, gi, group, origin, roll));
  }

  /** The step's lists after visiting column `x` from `y0` up to `y`. */
  function ColumnFrom(st: StepState, gi: nat, group: ObjectGroup, x: int, y0: int, y: int, rolls: Rolls): StepState
    decreases y - y0
  {
    if y <= y0 then st
    else Visit(ColumnFrom(st, gi, group, x, y0, y - 1, rolls), gi, group, Cell(x, y - 1), rolls(gi, Cell(x, y - 1)))
  }

  /** The inner loop's step: visiting (x, y) continues the column by one cell. */
  lemma ColumnFromNext(st: StepState, gi: nat, group: ObjectGroup, x: int, y0: int, y: int, rolls: Rolls)
    requires y0 <= y
    ensures ColumnFrom(st, gi, group, x, y0, y + 1, rolls) ==
            Visit(ColumnFrom(st, gi, group, x, y0, y, rolls), gi, group, Cell(x, y), rolls(gi, Cell(x, y)))
  {
  }

  /** A column loop that stopped at `y` has visited the whole column. */
  lemma ColumnFromDone(st: StepState, gi: nat, group: ObjectGroup, x: int, y0: int, y: int, y1: int, rolls: Rolls)
    requires y0 <= y && (y <= y1 || y == y0) && y1 <= y
    ensures ColumnFrom(st, gi, group, x, y0, y1, rolls) == ColumnFrom(st, gi, group, x, y0, y, rolls)
  {
  }

  /** Visiting a column after the origins `visited` continues the scan of `visited` with that column. */
  lemma {:induction false} ScanColumnFrom(st: StepState, gi: nat, group: ObjectGroup, visited: seq<Cell>, x: int, y0: int, y: int, rolls: Rolls)
    ensures ScanFrom(st, gi, group, visited + Column(x, y0, y), rolls) ==
            ColumnFrom(ScanFrom(st, gi, group, visited, rolls), gi, group, x, y0, y, rolls)
    decreases y - y0
  {
    if y <= y0 {
      assert visited + Column(x, y0, y) == visited;
    } else {
      var prior, c := visited + Column(x, y0, y - 1), Cell(x, y - 1);
      calc {
        ScanFrom(st, gi, group, visited + Column(x, y0, y), rolls);
        { ColumnAppend(visited, x, y0, y - 1); }
        ScanFrom(st, gi, group, prior + [c], rolls);
        { ScanFromStep(st, gi, group, prior, c, rolls); }
        Visit(ScanFrom(st, gi, group, prior, rolls), gi, group, c, rolls(gi, c));
        { ScanColumnFrom(st, gi, group, visited, x, y0, y - 1, rolls); }
        Visit(ColumnFrom(ScanFrom(st, gi, group, visited, rolls), gi, group, x, y0, y - 1, rolls), gi, group, c, rolls(gi, c));
      }
    }
  }

  /** The step's lists after visiting the columns x0, ..., x - 1 of the rectangle, one after the other. */
  function RectFrom(st: StepState, gi: nat, group: ObjectGroup, x0: int, x: int, y0: int, y1: int, rolls: Rolls): StepState
    decreases x - x0
  {
    if x <= x0 then st
    else ColumnFrom(RectFrom(st, gi, group, x0, x - 1, y0, y1, rolls), gi, group, x - 1, y0, y1, rolls)
  }

  /** The outer loop's step: visiting column `x` continues the rectangle by one column. */
  lemma RectFromNext(st: StepState, gi: nat, group: ObjectGroup, x0: int, x: int, y0: int, y1: int, rolls: Rolls)
    requires x0 <= x
    ensures RectFrom(st, gi, group, x0, x + 1, y0, y1, rolls) ==
            ColumnFrom(RectFrom(st, gi, group, x0, x, y0, y1, rolls), gi, group, x, y0, y1, rolls)
  {
  }

  /** Visiting the rectangle column by column is visiting its cells in scan order. */
  lemma {:induction false} RectFromScan(st: StepState, gi: nat, group: ObjectGroup, x0: int, x: int, y0: int, y1: int, rolls: Rolls)
    ensures RectFrom(st, gi, group, x0, x, y0, y1, rolls) == ScanFrom(st, gi, group, Rect(x0, x, y0, y1), rolls)
    decreases x - x0
  {
    if x > x0 {
      ColumnDone(x0, y0, y1, x - 1);
      RectFromScan(st, gi, group, x0, x - 1, y0, y1, rolls);
      ScanColumnFrom(st, gi, group, Rect(x0, x - 1, y0, y1), x - 1, y0, y1, rolls);
    }
  }

  /** When the outer loop stops, the group has made its placements over the whole rectangle. */
  lemma GroupScanned(st: StepState, now: StepState, gi: nat, group: ObjectGroup, x0: int, x1: int, y0: int, y1: int, x: int, rolls: Rolls)
    requires x0 <= x && (x <= x1 || x == x0) && x1 <= x
    requires now == RectFrom(st, gi, group, x0, x, y0, y1, rolls)
    ensures now == Record(st, Placed(st.occupied, gi, group, Rect(x0, x1, y0, y1), rolls))
  {
    ScanDone(x0, x1, y0, y1, x);
    RectFromScan(st, gi, group, x0, x1, y0, y1, rolls);
    ScanFromPlaced(st, gi, group, Rect(x0, x1, y0, y1), rolls);
  }

  lemma TakeOneMore<T>(s: seq<T>, k: nat)
    requires k < |s|
    ensures s[..k] + [s[k]] == s[..k + 1]
  {
  }

  lemma AppendAssoc<T>(p: seq<T>, q: seq<T>, r: seq<T>)
    ensures p + q + r == p + (q + r)
  {
  }

  /**
   * The generation step. `occupiedPositions` is the step's list of claimed cells;
   * `spawned` logs the objects instantiated and `registered` the cells handed to the
   * world generator's positional registry, clone numbers being indices into `spawned`.
   */
  class ObjectGenerationStep {
    const worldWidth: int
    const worldHeight: int
    const spawnArea: int
    const excludedEdgeArea: int
    var occupiedPositions: seq<Cell>
    var spawned: seq<Placement>
    var registered: seq<Registration>

    constructor (worldWidth: int, worldHeight: int, spawnArea: int, excludedEdgeArea: int)
      ensures this.worldWidth == worldWidth && this.worldHeight == worldHeight
      ensures this.spawnArea == spawnArea && this.excludedEdgeArea == excludedEdgeArea
      ensures occupiedPositions == [] && spawned == [] && registered == []
    {
      this.worldWidth, this.worldHeight := worldWidth, worldHeight;
      this.spawnArea, this.excludedEdgeArea := spawnArea, excludedEdgeArea;
      occupiedPositions, spawned, registered := [], [], [];
    }

    function CenterX(): int { HalfTowardZero(worldWidth) }
    function CenterY(): int { HalfTowardZero(worldHeight) }

    /** The square kept free around the world centre, in the order it is claimed. */
    function SpawnArea(): seq<Cell> {
      Rect(CenterX() - spawnArea, CenterX() + spawnArea, CenterY() - spawnArea, CenterY() + spawnArea)
    }

    /** The candidate origins, away from the world's edges, in scan order. */
    function ScanArea(): seq<Cell> {
      Rect(excludedEdgeArea, worldWidth - excludedEdgeArea, excludedEdgeArea, worldHeight - excludedEdgeArea)
    }

    /** The step's lists as one value. */
    function State(): StepState
      reads this
    {
      StepState(spawned, occupiedPositions, registered)
    }

    /** Whether some claimed cell has the coordinates of `pos`. */
    function IsPositionOccupied(pos: Cell): (r: bool)
      reads this
      ensures r <==> pos in occupiedPositions
    {
      AnyAtMeans(occupiedPositions, pos);
      AnyAt(occupiedPositions, pos)
    }

    /**
     * One pass: forget the claimed cells, claim the spawn square, then let every group
     * with at least one variant scan the world in order.
     */
    method Generate(groups: seq<ObjectGroup>, rolls: Rolls)
      modifies this
      ensures State() == Record(StepState(old(spawned), SpawnArea(), old(registered)), Pass(SpawnArea(), groups, ScanArea(), rolls))
    {
      occupiedPositions := [];
      OccupySpawnArea();
      ghost var start := State();
      assert start.occupied == SpawnArea();
      RecordNothing(start);
      ghost var placed: seq<Placement> := [];
      for g := 0 to |groups|
        invariant State() == Record(start, placed)
        invariant PassFrom(start.occupied, placed, groups, ScanArea(), rolls, g) == Pass(start.occupied, groups, ScanArea(), rolls)
      {
        if |groups[g].variants| > 0 {
          ghost var made := Placed(start.occupied + AllCells(placed), g, groups[g], ScanArea(), rolls);
          GenerateGroup(g, groups[g], rolls);
          RecordConcat(start, placed, made);
          placed := placed + made;
        }
      }
    }

    method OccupySpawnArea()
      modifies this
      ensures occupiedPositions == old(occupiedPositions) + SpawnArea()
      ensures spawned == old(spawned) && registered == old(registered)
    {
      var x0, x1 := CenterX() - spawnArea, CenterX() + spawnArea;
      var y0, y1 := CenterY() - spawnArea, CenterY() + spawnArea;
      ghost var o0 := occupiedPositions;
      var x := x0;
      while x < x1
        invariant x0 <= x && (x <= x1 || x == x0)
        invariant occupiedPositions == o0 + Rect(x0, x, y0, y1)
        invariant spawned == old(spawned) && registered == old(registered)
        decreases x1 - x
      {
        OccupyColumn(x, y0, y1);
        RectAppend(o0, x0, x, y0, y1);
        x := x + 1;
      }
      ScanDone(x0, x1, y0, y1, x);
      assert SpawnArea() == Rect(x0, x1, y0, y1);
    }

    /** The inner loop of `OccupySpawnArea`: claims (x, y0), ..., (x, y1 - 1) in that order. */
    method OccupyColumn(x: int, y0: int, y1: int)
      modifies this
      ensures occupiedPositions == old(occupiedPositions) + Column(x, y0, y1)
      ensures spawned == old(spawned) && registered == old(registered)
    {
      ghost var p := occupiedPositions;
      var y := y0;
      while y < y1
        invariant y0 <= y && (y <= y1 || y == y0)
        invariant occupiedPositions == p + Column(x, y0, y)
        invariant spawned == old(spawned) && registered == old(registered)
        decreases y1 - y
      {
        ColumnAppend(p, x, y0, y);
        occupiedPositions := occupiedPositions + [Cell(x, y)];
        y := y + 1;
      }
      assert Column(x, y0, y) == Column(x, y0, y1);
    }

    /**
     * Scans the candidate origins of one group, x outer and y inner, recording the
     * placements the group makes over the scan area.
     */
    method GenerateGroup(gi: nat, group: ObjectGroup, rolls: Rolls)
      requires |group.variants| > 0
      modifies this
      ensures State() == Record(old(State()), Placed(old(occupiedPositions), gi, group, ScanArea(), rolls))
    {
      var x0, x1 := excludedEdgeArea, worldWidth - excludedEdgeArea;
      var y0, y1 := excludedEdgeArea, worldHeight - excludedEdgeArea;
      ghost var st0 := State();
      assert st0.occupied == old(occupiedPositions) && ScanArea() == Rect(x0, x1, y0, y1);
      var x := x0;
      while x < x1
        invariant x0 <= x && (x <= x1 || x == x0)
        invariant State() == RectFrom(st0, gi, group, x0, x, y0, y1, rolls)
        decreases x1 - x
      {
        RectFromNext(st0, gi, group, x0, x, y0, y1, rolls);
        ScanColumn(gi, group, rolls, x);
        x := x + 1;
      }
      GroupScanned(st0, State(), gi, group, x0, x1, y0, y1, x, rolls);
    }

    /** The inner loop of the scan: the candidate origins of column `x`, bottom to top. */
    method ScanColumn(gi: nat, group: ObjectGroup, rolls: Rolls, x: int)
      modifies this
      ensures State() == ColumnFrom(old(State()), gi, group, x, excludedEdgeArea, worldHeight - excludedEdgeArea, rolls)
    {
      var y0, y1 := excludedEdgeArea, worldHeight - excludedEdgeArea;
      ghost var st0 := State();
      var y := y0;
      while y < y1
        invariant y0 <= y && (y <= y1 || y == y0)
        invariant State() == ColumnFrom(st0, gi, group, x, y0, y, rolls)
        decreases y1 - y
      {
        ColumnFromNext(st0, gi, group, x, y0, y, rolls);
        TryPlace(gi, group, x, y, rolls(gi, Cell(x, y)));
        y := y + 1;
      }
      ColumnFromDone(st0, gi, group, x, y0, y, y1, rolls);
    }

    /**
     * One scanned origin: skipped when a footprint cell is claimed or the draw exceeds the
     * frequency, otherwise an object is instantiated and its whole footprint claimed.
     */
    method TryPlace(gi: nat, group: ObjectGroup, x: int, y: int, roll: Roll)
      modifies this
      ensures State() == Visit(old(State()), gi, group, Cell(x, y), roll)
    {
      var basePos := Cell(x, y);
      var cells := Footprint(basePos, group.footprint);
      if AnyOccupied(cells, occupiedPositions) {
        return;
      }
      var r := roll.draw;
      if r > group.frequency {
        return;
      }
      var clone := |spawned|;
      spawned := spawned + [Placement(gi, basePos, cells, r, roll.pick)];
      OccupyFootprint(basePos, group.footprint, clone);
    }

    /** Claims and registers `basePos + offset` for every footprint offset, in order. */
    method OccupyFootprint(basePos: Cell, offsets: seq<Cell>, clone: nat)
      modifies this
      ensures occupiedPositions == old(occupiedPositions) + Footprint(basePos, offsets)
      ensures registered == old(registered) + Tag(Footprint(basePos, offsets), clone)
      ensures spawned == old(spawned)
    {
      for i := 0 to |offsets|
        invariant occupiedPositions == old(occupiedPositions) + Footprint(basePos, offsets[..i])
        invariant registered == old(registered) + Tag(Footprint(basePos, offsets[..i]), clone)
        invariant spawned == old(spawned)
      {
        var pos := Offset(basePos, offsets[i]);
        ghost var done := Footprint(basePos, offsets[..i]);
        assert offsets[..i + 1][..i] == offsets[..i];
        assert Footprint(basePos, offsets[..i + 1]) == done + [pos];
        assert (done + [pos])[..|done|] == done;
        occupiedPositions := occupiedPositions + [pos];
        registered := registered + [Registration(pos, clone)];
      }
      assert offsets[..|offsets|] == offsets;
    }
  }
}
