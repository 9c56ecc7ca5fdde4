/** `Army` of Characters/ScriptHelperCharacters/Army.cs: a list of units bounded by a
    capacity. */
module Army {
  import opened Lists

  /** A unit of Characters/ScriptHelperCharacters/Units/Unit.cs. It does not
      override `Equals`, so two units are the same only when they are the same
      object, which is Dafny's equality on class references. */
  class Unit {
    var Name: string

    constructor (name: string)
      ensures Name == name
    {
      Name := name;
    }
  }

  const DefaultMaxCapacity: int := 100

  /** The units after `AddUnit`: appended when there is room, otherwise unchanged. */
  function WithUnit(units: seq<Unit>, maxCapacity: int, unit: Unit): seq<Unit> {
    if |units| < maxCapacity then units + [unit] else units
  }

  /** `AddUnit` never takes an army past its capacity, adds exactly one unit
      precisely when there is room, and never reorders or drops a unit. */
  lemma AddUnitRespectsCapacity(units: seq<Unit>, maxCapacity: int, unit: Unit)
    ensures |units| <= maxCapacity ==> |WithUnit(units, maxCapacity, unit)| <= maxCapacity
    ensures WithUnit(units, maxCapacity, unit) == units + [unit] <==> |units| < maxCapacity
    ensures WithUnit(units, maxCapacity, unit) == units <==> |units| >= maxCapacity
  {
    if |units| < maxCapacity {
      assert |units + [unit]| != |units|;
    }
  }

  class Army {
    var Units: seq<Unit>
    var MaxCapacity: int

    constructor ()
      ensures Units == [] && MaxCapacity == DefaultMaxCapacity
    {
      Units := [];
      MaxCapacity := DefaultMaxCapacity;
    }

    predicate WithinCapacity()
      reads this
    {
      |Units| <= MaxCapacity
    }

    method AddUnit(unit: Unit)
      modifies this`Units
      ensures Units == WithUnit(old(Units), MaxCapacity, unit)
      ensures old(WithinCapacity()) ==> WithinCapacity()
    {
      if |Units| < MaxCapacity {
        Units := Units + [unit];
      }
    }

    /** `List.Remove` after a `Contains` test: the first occurrence goes, the rest
        keep their order; an absent unit leaves the list as it was. */
    method RemoveUnit(unit: Unit)
      modifies this`Units
      ensures Units == RemoveFirst(old(Units), unit)
      ensures unit !in old(Units) ==> Units == old(Units)
      ensures unit in old(Units) ==> |Units| == |old(Units)| - 1
      ensures WithinCapacity() <== old(WithinCapacity())
    {
      if unit in Units {
        RemoveFirstCutsFirstOccurrence(Units, unit);
        Units := RemoveFirst(Units, unit);
      } else {
        RemoveFirstAbsent(Units, unit);
      }
    }
  }
}
