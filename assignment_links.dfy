/** How the two sides of the emergency-unit link evolve. An emergency names
    its unit (`assignedUnit`), a unit names the emergency it serves
    (`assignedEmergencyId`), and the services write the two sides
    separately. The lemmas say which operations keep the sides in agreement,
    which break it, and how the per-unit counts move. */
module AssignmentLinks {
  import opened Common
  import opened Entities
  import opened Tables
  import opened EmergencyService
  import opened UnitService

  /** Unit `u`'s back-reference names exactly the open emergencies that name
      `u`: none when it is free, the one it serves otherwise. */
  ghost predicate UnitLinkOk(db: Db, u: int)
    requires u in db.units
  {
    var back := db.units[u].assignedEmergencyId;
    ActiveServedBy(db, u) == if back.None? then {} else {back.value}
  }

  ghost predicate LinksConsistent(db: Db)
  {
    forall u | u in db.units :: UnitLinkOk(db, u)
  }

  /** An emergency that no open-emergency count includes. */
  predicate Detached(e: Emergency)
  {
    e.assignedUnit.None? || e.status == Closed
  }

  /** A successful assignment adds the emergency to the target's counts. */
  lemma AssignCountsAtTarget(db: Db, e: int, u: int)
    requires e in db.emergencies && u in db.units
    ensures var db' := AssignUnit(db, e, u).0;
      && ServedBy(db', u) == ServedBy(db, u) + {e}
      && ActiveServedBy(db', u) == ActiveServedBy(db, u) + {e}
      && GetUnitStats(db', u).activeEmergencies >= 1
  {
    var db' := AssignUnit(db, e, u).0;
    assert e in ActiveServedBy(db', u);
  }

  /** ... and takes it out of every other unit's counts. */
  lemma AssignCountsElsewhere(db: Db, e: int, u: int, v: int)
    requires e in db.emergencies && u in db.units && v != u
    ensures var db' := AssignUnit(db, e, u).0;
      && ServedBy(db', v) == ServedBy(db, v) - {e}
      && ActiveServedBy(db', v) == ActiveServedBy(db, v) - {e}
  {
    var db' := AssignUnit(db, e, u).0;
    assert e !in ServedBy(db', v);
  }

  /** Closing an emergency takes it out of every active count and leaves
      every total count alone. */
  lemma CloseLeavesTotals(db: Db, e: int)
    requires e in db.emergencies
    ensures var db' := UpdateEmergency(db, e, EmergencyUpdate(None, Some(Closed))).0;
      forall v :: ServedBy(db', v) == ServedBy(db, v)
               && ActiveServedBy(db', v) == ActiveServedBy(db, v) - {e}
  {
    var db' := UpdateEmergency(db, e, EmergencyUpdate(None, Some(Closed))).0;
    forall v ensures ServedBy(db', v) == ServedBy(db, v) && ActiveServedBy(db', v) == ActiveServedBy(db, v) - {e} {
      assert ServedBy(db', v) == ServedBy(db, v);
    }
  }

  /** Assigning a detached emergency to a free unit keeps the links
      consistent. */
  lemma AssignFreeUnitKeepsLinks(db: Db, e: int, u: int)
    requires LinksConsistent(db)
    requires e in db.emergencies && u in db.units
    requires Detached(db.emergencies[e])
    requires db.units[u].assignedEmergencyId.None?
    ensures LinksConsistent(AssignUnit(db, e, u).0)
  {
    var db' := AssignUnit(db, e, u).0;
    forall v | v in db'.units ensures UnitLinkOk(db', v) {
      AssignKeepsUnitLink(db, e, u, v);
    }
  }

  lemma AssignKeepsUnitLink(db: Db, e: int, u: int, v: int)
    requires e in db.emergencies && u in db.units && v in db.units
    requires UnitLinkOk(db, v)
    requires Detached(db.emergencies[e])
    requires db.units[u].assignedEmergencyId.None?
    ensures UnitLinkOk(AssignUnit(db, e, u).0, v)
  {
    assert e !in ActiveServedBy(db, v);
    if v == u {
      AssignCountsAtTarget(db, e, u);
    } else {
      AssignCountsElsewhere(db, e, u, v);
    }
  }

  /** Closing an open emergency releases its unit and keeps the links
      consistent. */
  lemma CloseOpenKeepsLinks(db: Db, e: int)
    requires LinksConsistent(db)
    requires e in db.emergencies && db.emergencies[e].status != Closed
    ensures LinksConsistent(UpdateEmergency(db, e, EmergencyUpdate(None, Some(Closed))).0)
  {
    var patch := EmergencyUpdate(None, Some(Closed));
    var db' := UpdateEmergency(db, e, patch).0;
    CloseLeavesTotals(db, e);
    forall v | v in db'.units ensures UnitLinkOk(db', v) {
      assert UnitLinkOk(db, v);
      if db.emergencies[e].assignedUnit == Some(v) {
        assert e in ActiveServedBy(db, v);
        assert Releases(db, e, patch);
      }
    }
  }

  /** Creating a detached emergency keeps the links consistent. */
  lemma CreateDetachedKeepsLinks(db: Db, input: EmergencyCreate, now: Timestamp)
    requires Valid(db) && LinksConsistent(db)
    requires input.assignedUnit.None? || input.status == Closed
    ensures LinksConsistent(CreateEmergency(db, input, now).0)
  {
    var db' := CreateEmergency(db, input, now).0;
    forall v | v in db'.units ensures UnitLinkOk(db', v) {
      CreateDetachedKeepsCounts(db, input, now, v);
      assert UnitLinkOk(db, v);
    }
  }

  /** A detached emergency joins no unit's active count. */
  lemma CreateDetachedKeepsCounts(db: Db, input: EmergencyCreate, now: Timestamp, v: int)
    requires Valid(db)
    requires input.assignedUnit.None? || input.status == Closed
    ensures ActiveServedBy(CreateEmergency(db, input, now).0, v) == ActiveServedBy(db, v)
  {
    var (db', n) := CreateEmergency(db, input, now);
    if n.Ok? {
      assert n.value.id !in ActiveServedBy(db', v);
    }
  }

  // Concrete tables on which an operation breaks the agreement.

  function Report(id: int, unit: Option<int>, status: Status): Emergency
  {
    Emergency(id, 0, None, unit, 0.0, 0.0, None, status)
  }

  function Station(id: int, serving: Option<int>): Unit
  {
    Unit(id, "unit", 0.0, 0.0, serving)
  }

  /** Emergency 1 open on unit 1, emergency 2 pending and detached. */
  function OneBusyUnit(): Db
  {
    Db(map[1 := Report(1, Some(1), Assigned), 2 := Report(2, None, Pending)],
       map[1 := Station(1, Some(1)), 2 := Station(2, None)],
       map[], 3, 3, 1, 1)
  }

  lemma OneBusyUnitConsistent()
    ensures LinksConsistent(OneBusyUnit())
  {
    var db := OneBusyUnit();
    assert ActiveServedBy(db, 1) == {1} by {
      assert 1 in ActiveServedBy(db, 1) && 2 !in ActiveServedBy(db, 1);
    }
    assert ActiveServedBy(db, 2) == {} by {
      assert 1 !in ActiveServedBy(db, 2) && 2 !in ActiveServedBy(db, 2);
    }
  }

  /** Assigning to an occupied unit overwrites its back-reference while the
      emergency it served stays open on it. */
  lemma AssignOverwritesBusyUnit()
    ensures LinksConsistent(OneBusyUnit())
    ensures var db' := AssignUnit(OneBusyUnit(), 2, 1).0;
      && db'.units[1].assignedEmergencyId == Some(2)
      && db'.emergencies[1].assignedUnit == Some(1) && db'.emergencies[1].status == Assigned
      && !UnitLinkOk(db', 1)
  {
    OneBusyUnitConsistent();
    var db' := AssignUnit(OneBusyUnit(), 2, 1).0;
    assert 1 in ActiveServedBy(db', 1);
  }

  /** Reassigning an emergency leaves the previous unit's back-reference in
      place. */
  lemma ReassignLeavesStaleUnit()
    ensures var db' := AssignUnit(OneBusyUnit(), 1, 2).0;
      && db'.units[1].assignedEmergencyId == Some(1)
      && db'.emergencies[1].assignedUnit == Some(2)
      && !UnitLinkOk(db', 1)
  {
    var db' := AssignUnit(OneBusyUnit(), 1, 2).0;
    assert 1 !in ActiveServedBy(db', 1);
  }

  /** A patch of `assignedUnit` writes the emergency side only. */
  lemma PatchedUnitNotLinked()
    ensures var db' := UpdateEmergency(OneBusyUnit(), 2, EmergencyUpdate(Some(2), None)).0;
      && db'.units[2].assignedEmergencyId.None?
      && db'.emergencies[2].assignedUnit == Some(2)
      && !UnitLinkOk(db', 2)
  {
    var db' := UpdateEmergency(OneBusyUnit(), 2, EmergencyUpdate(Some(2), None)).0;
    assert 2 in ActiveServedBy(db', 2);
  }

  /** Creating an open emergency that names a unit does not link the unit. */
  lemma CreatedWithUnitNotLinked(now: Timestamp)
    ensures var (db', n) := CreateEmergency(OneBusyUnit(), EmergencyCreate(None, None, Some(2), 0.0, 0.0, None, Pending), now);
      && db'.units[2].assignedEmergencyId.None?
      && n.Ok? && db'.emergencies[n.value.id].assignedUnit == Some(2)
      && !UnitLinkOk(db', 2)
  {
    var (db', n) := CreateEmergency(OneBusyUnit(), EmergencyCreate(None, None, Some(2), 0.0, 0.0, None, Pending), now);
    assert n.value.id in ActiveServedBy(db', 2);
  }

  /** Emergency 1 closed but still naming unit 1, which now serves the open
      emergency 2. */
  function ClosedAndReused(): Db
  {
    Db(map[1 := Report(1, Some(1), Closed), 2 := Report(2, Some(1), Assigned)],
       map[1 := Station(1, Some(2))],
       map[], 3, 2, 1, 1)
  }

  /** Closing an emergency that is already closed still releases the unit it
      names, which may by then be serving another open emergency. */
  lemma ReclosingFreesBusyUnit()
    ensures LinksConsistent(ClosedAndReused())
    ensures var db' := UpdateEmergency(ClosedAndReused(), 1, EmergencyUpdate(None, Some(Closed))).0;
      && db'.units[1].assignedEmergencyId.None?
      && db'.emergencies[2].assignedUnit == Some(1) && db'.emergencies[2].status == Assigned
      && !UnitLinkOk(db', 1)
  {
    var db := ClosedAndReused();
    assert ActiveServedBy(db, 1) == {2} by {
      assert 2 in ActiveServedBy(db, 1) && 1 !in ActiveServedBy(db, 1);
    }
    var db' := UpdateEmergency(db, 1, EmergencyUpdate(None, Some(Closed))).0;
    assert 2 in ActiveServedBy(db', 1);
  }
}
