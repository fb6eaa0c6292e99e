/** A ship: its section cells, the cells hit so far and whether it is still afloat. */
module Ships {
  import opened Board

  /** The set of cells listed in s (Python's set(list)). */
  function Elements(s: seq<Location>): set<Location>
  {
    set p | p in s
  }

  /** Damage record of a ship as a value: the damaged-section list and the alive flag. */
  datatype ShipDamage = ShipDamage(damaged: seq<Location>, alive: bool)

  /** One call of take_damage on a ship with the given sections: the cell is
      recorded only when it is a section, and the ship is marked dead once the
      damaged cells, as a set, are exactly its sections. Firing at a dead ship
      or at a cell outside it is reported (printed) by the source and otherwise
      ignored, which is what this does. */
  function Damage(sections: seq<Location>, before: ShipDamage, loc: Location): (after: ShipDamage)
    ensures before.damaged <= after.damaged && |after.damaged| <= |before.damaged| + 1
    ensures after.damaged != before.damaged ==> after.damaged == before.damaged + [loc] && loc in sections
  {
    var damaged := if loc in sections then before.damaged + [loc] else before.damaged;
    ShipDamage(damaged, before.alive && Elements(damaged) != Elements(sections))
  }

  /** A series of take_damage calls, in order. */
  function DamageAll(sections: seq<Location>, before: ShipDamage, hits: seq<Location>): ShipDamage
    decreases |hits|
  {
    if hits == [] then before
    else DamageAll(sections, Damage(sections, before, hits[0]), hits[1..])
  }

  class Ship {
    const name: string
    const sectionLocationList: seq<Location>
    var damagedSectionList: seq<Location>
    var isAlive: bool

    function State(): ShipDamage
      reads this
    {
      ShipDamage(damagedSectionList, isAlive)
    }

    constructor (name: string, sectionLocationTupleList: seq<Location>)
      ensures this.name == name && sectionLocationList == sectionLocationTupleList
      ensures damagedSectionList == [] && isAlive
    {
      this.name := name;
      sectionLocationList := sectionLocationTupleList;
      damagedSectionList := [];
      isAlive := true;
    }

    method TakeDamage(gridLocation: Location)
      modifies this
      ensures State() == Damage(sectionLocationList, old(State()), gridLocation)
      ensures gridLocation !in sectionLocationList ==> damagedSectionList == old(damagedSectionList)
      ensures !old(isAlive) ==> !isAlive
    {
      if gridLocation in sectionLocationList {
        damagedSectionList := damagedSectionList + [gridLocation];
      }
      if Elements(damagedSectionList) == Elements(sectionLocationList) {
        isAlive := false;
      }
    }
  }

  /** Only section cells are ever recorded as damaged: a cell outside the ship
      leaves the record as it was, a section cell is added to it. */
  lemma DamageRecordsOnlySections(sections: seq<Location>, before: ShipDamage, loc: Location)
    ensures var after := Damage(sections, before, loc);
      Elements(after.damaged) == Elements(before.damaged) + (Elements(sections) * {loc})
  {
  }

  /** A dead ship stays dead. */
  lemma NeverRevived(sections: seq<Location>, before: ShipDamage, loc: Location)
    requires !before.alive
    ensures !Damage(sections, before, loc).alive
  {
  }

  /** Hitting the same cell twice changes neither the damaged set nor the
      alive flag after the first time. */
  lemma RepeatedHitIsIdempotent(sections: seq<Location>, before: ShipDamage, loc: Location)
    ensures var once := Damage(sections, before, loc);
      var twice := Damage(sections, once, loc);
      Elements(twice.damaged) == Elements(once.damaged) && twice.alive == once.alive
  {
    var once := Damage(sections, before, loc);
    var twice := Damage(sections, once, loc);
    if loc in sections {
      assert Elements(twice.damaged) == Elements(once.damaged) + {loc};
    }
  }

  /** After a series of hits the damaged set is what was damaged before plus
      the hit cells that are sections. */
  lemma {:induction false} DamageAllRecords(sections: seq<Location>, before: ShipDamage, hits: seq<Location>)
    ensures Elements(DamageAll(sections, before, hits).damaged)
         == Elements(before.damaged) + (Elements(hits) * Elements(sections))
    decreases |hits|
  {
    if hits != [] {
      var next := Damage(sections, before, hits[0]);
      DamageRecordsOnlySections(sections, before, hits[0]);
      DamageAllRecords(sections, next, hits[1..]);
      assert Elements(hits) == {hits[0]} + Elements(hits[1..]);
    }
  }

  /** A ship whose every section has been hit is sunk: if the damage so far
      lies within the ship and the hits cover all its sections, the ship is
      dead after the last of them. */
  lemma HittingEverySectionSinks(sections: seq<Location>, before: ShipDamage, hits: seq<Location>)
    requires Elements(before.damaged) <= Elements(sections)
    requires hits != [] && Elements(sections) <= Elements(hits)
    ensures !DamageAll(sections, before, hits).alive
  {
    var final := DamageAll(sections, before, hits);
    DamageAllSplit(sections, before, hits);
    DamageAllRecords(sections, before, hits);
    assert Elements(final.damaged) == Elements(sections);
  }

  /** Once dead, a series of further hits leaves the ship dead. */
  lemma {:induction false} NeverSunkBack(sections: seq<Location>, before: ShipDamage, hits: seq<Location>)
    requires !before.alive
    ensures !DamageAll(sections, before, hits).alive
    decreases |hits|
  {
    if hits != [] {
      NeverSunkBack(sections, Damage(sections, before, hits[0]), hits[1..]);
    }
  }

  /** The last hit of a series is applied last. */
  lemma {:induction false} DamageAllSplit(sections: seq<Location>, before: ShipDamage, hits: seq<Location>)
    requires hits != []
    ensures DamageAll(sections, before, hits)
         == Damage(sections, DamageAll(sections, before, hits[..|hits| - 1]), hits[|hits| - 1])
    decreases |hits|
  {
    if |hits| > 1 {
      DamageAllSplit(sections, Damage(sections, before, hits[0]), hits[1..]);
      assert hits[1..][..|hits[1..]| - 1] == hits[..|hits| - 1][1..];
    }
  }

  /** Conversely, a ship stays afloat while some section has not been hit. */
  lemma {:induction false} AfloatUntilEverySectionHit(sections: seq<Location>, before: ShipDamage, hits: seq<Location>)
    requires before.alive
    requires !(Elements(sections) <= Elements(before.damaged) + Elements(hits))
    ensures DamageAll(sections, before, hits).alive
    decreases |hits|
  {
    if hits != [] {
      var next := Damage(sections, before, hits[0]);
      DamageRecordsOnlySections(sections, before, hits[0]);
      assert Elements(hits) == {hits[0]} + Elements(hits[1..]);
      AfloatUntilEverySectionHit(sections, next, hits[1..]);
    }
  }
}
