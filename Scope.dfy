/**
 * The scope control: the option values offered after an upload ("ALL",
 * "AREA__<area>", "EQUIP__<equipment>") and how a chosen value is read back
 * into a selector (update_data and filter_df).
 */
module Scope {
  import opened Wrappers
  import opened Text
  import opened Ordering
  import opened WorkOrders

  const AllValue := "ALL"
  const AreaPrefix := "AREA__"
  const EquipmentPrefix := "EQUIP__"

  /** What a scope value selects: the whole plant, one area or one equipment unit. */
  datatype Selector = WholePlant | InArea(area: string) | OfEquipment(id: string)

  /** One entry of the scope dropdown. */
  datatype ScopeOption = ScopeOption(caption: string, value: string)

  const PlantOption := ScopeOption("Toda la Planta", AllValue)

  function EncodeArea(a: string): string
  {
    AreaPrefix + a
  }

  function EncodeEquipment(e: string): string
  {
    EquipmentPrefix + e
  }

  function AreaOption(a: string): ScopeOption
  {
    ScopeOption("Área: " + a, EncodeArea(a))
  }

  function EquipmentOption(e: string): ScopeOption
  {
    ScopeOption("Equipo: " + e, EncodeEquipment(e))
  }

  /**
   * Reads a scope value: a missing or empty value, "ALL" and a value with
   * neither prefix select the whole plant; otherwise the name is what
   * `value.split(prefix)[1]` gives.
   */
  function Decode(value: Option<string>): (s: Selector)
    ensures s.InArea? <==> value.Some? && StartsWith(value.value, AreaPrefix)
    ensures s.OfEquipment? <==> value.Some? && StartsWith(value.value, EquipmentPrefix)
    ensures s.WholePlant? <==> value.None? || (!StartsWith(value.value, AreaPrefix) && !StartsWith(value.value, EquipmentPrefix))
  {
    if value.None? || value.value == "" || value.value == AllValue then WholePlant
    else if StartsWith(value.value, AreaPrefix) then
      assert value.value[0] == AreaPrefix[0] != EquipmentPrefix[0];
      InArea(BeforeFirst(value.value[|AreaPrefix|..], AreaPrefix))
    else if StartsWith(value.value, EquipmentPrefix) then
      OfEquipment(BeforeFirst(value.value[|EquipmentPrefix|..], EquipmentPrefix))
    else WholePlant
  }

  /** The value offered for an area reads back as that area exactly when the name does not contain "AREA__". */
  lemma AreaRoundTrip(a: string)
    ensures Decode(Some(EncodeArea(a))) == InArea(BeforeFirst(a, AreaPrefix))
    ensures Decode(Some(EncodeArea(a))) == InArea(a) <==> !Contains(a, AreaPrefix)
  {
    assert EncodeArea(a)[|AreaPrefix|..] == a;
    assert EncodeArea(a)[1] != AllValue[1];
    BeforeFirstIsWholeIff(a, AreaPrefix);
  }

  /** The value offered for an equipment unit reads back as it exactly when the id does not contain "EQUIP__". */
  lemma EquipmentRoundTrip(e: string)
    ensures Decode(Some(EncodeEquipment(e))) == OfEquipment(BeforeFirst(e, EquipmentPrefix))
    ensures Decode(Some(EncodeEquipment(e))) == OfEquipment(e) <==> !Contains(e, EquipmentPrefix)
  {
    assert EncodeEquipment(e)[|EquipmentPrefix|..] == e;
    assert EncodeEquipment(e)[0] != AreaPrefix[0];
    BeforeFirstIsWholeIff(e, EquipmentPrefix);
  }

  /** An area whose name contains the prefix is cut at it: "L1AREA__B" reads back as "L1". */
  lemma TruncatedAreaName()
    ensures Decode(Some(EncodeArea("L1AREA__B"))) == InArea("L1")
  {
    var s := "L1AREA__B";
    assert s[2..][..6] == AreaPrefix;
    assert BeforeFirst(s[2..], AreaPrefix) == [];
    assert s[1..][1..] == s[2..];
    assert BeforeFirst(s[1..], AreaPrefix) == "1";
    assert BeforeFirst(s, AreaPrefix) == "L1";
    AreaRoundTrip(s);
  }

  /** Some row of t is in area a. */
  predicate RowInArea(t: Table, a: string)
  {
    exists i :: 0 <= i < |t| && t[i].area == Some(a)
  }

  /** Some row of t is about equipment unit e. */
  predicate RowOfUnit(t: Table, e: string)
  {
    exists i :: 0 <= i < |t| && t[i].equipment == Some(e)
  }

  /** The distinct areas of the table in sorted order; empty without an `area` column. */
  function AreaNames(t: Table): (names: seq<string>)
    ensures |names| <= |t|
    ensures forall a :: a in names <==> HasArea(t) && RowInArea(t, a)
  {
    if HasArea(t) then
      var c := AreaColumn(t);
      assert forall a :: a in c <==> exists i :: 0 <= i < |t| && t[i].area == Some(a) by {
        forall a ensures a in c <==> exists i :: 0 <= i < |t| && t[i].area == Some(a) {
          if a in c {
            var k :| 0 <= k < |c| && c[k] == a;
            assert t[k].area == Some(a);
          }
        }
      }
      SortedNames(c)
    else []
  }

  /** The distinct equipment ids of the table in sorted order; empty without an `equipment` column. */
  function EquipmentNames(t: Table): (names: seq<string>)
    ensures |names| <= |t|
    ensures forall e :: e in names <==> HasEquipment(t) && RowOfUnit(t, e)
  {
    if HasEquipment(t) then
      var c := EquipmentColumn(t);
      assert forall e :: e in c <==> exists i :: 0 <= i < |t| && t[i].equipment == Some(e) by {
        forall e ensures e in c <==> exists i :: 0 <= i < |t| && t[i].equipment == Some(e) {
          if e in c {
            var k :| 0 <= k < |c| && c[k] == e;
            assert t[k].equipment == Some(e);
          }
        }
      }
      SortedNames(c)
    else []
  }

  /** Each area of the table is listed exactly once, in increasing order. */
  lemma {:induction false} AreaNamesListEachAreaOnce(t: Table)
    ensures Increasing(AreaNames(t), StrLess)
    ensures forall i, j :: 0 <= i < j < |AreaNames(t)| ==> AreaNames(t)[i] != AreaNames(t)[j]
    ensures forall a :: a in AreaNames(t) <==> HasArea(t) && exists i :: 0 <= i < |t| && t[i].area == Some(a)
  {
    StrLessIsStrictTotalOrder();
    IncreasingIsDistinct(AreaNames(t), StrLess);
  }

  /** Each equipment id of the table is listed exactly once, in increasing order. */
  lemma {:induction false} EquipmentNamesListEachUnitOnce(t: Table)
    ensures Increasing(EquipmentNames(t), StrLess)
    ensures forall i, j :: 0 <= i < j < |EquipmentNames(t)| ==> EquipmentNames(t)[i] != EquipmentNames(t)[j]
    ensures forall e :: e in EquipmentNames(t) <==> HasEquipment(t) && exists i :: 0 <= i < |t| && t[i].equipment == Some(e)
  {
    StrLessIsStrictTotalOrder();
    IncreasingIsDistinct(EquipmentNames(t), StrLess);
  }

  /** The scope dropdown: the whole plant, then each area, then each equipment unit. */
  method ScopeOptions(t: Table) returns (options: seq<ScopeOption>)
    ensures |options| == 1 + |AreaNames(t)| + |EquipmentNames(t)|
    ensures options[0] == PlantOption
    ensures forall i :: 0 <= i < |AreaNames(t)| ==> options[1 + i] == AreaOption(AreaNames(t)[i])
    ensures forall j :: 0 <= j < |EquipmentNames(t)| ==>
              options[1 + |AreaNames(t)| + j] == EquipmentOption(EquipmentNames(t)[j])
  {
    ghost var areaNames, unitNames := AreaNames(t), EquipmentNames(t);
    options := [PlantOption];
    if HasArea(t) {
      var areas := SortedNames(AreaColumn(t));
      assert areas == areaNames;
      for i := 0 to |areas|
        invariant |options| == 1 + i
        invariant options[0] == PlantOption
        invariant forall k :: 0 <= k < i ==> options[1 + k] == AreaOption(areas[k])
      {
        options := options + [AreaOption(areas[i])];
      }
    }
    ghost var before := options;
    if HasEquipment(t) {
      var units := SortedNames(EquipmentColumn(t));
      assert units == unitNames;
      for j := 0 to |units|
        invariant |options| == |before| + j
        invariant options[..|before|] == before
        invariant forall k :: 0 <= k < j ==> options[|before| + k] == EquipmentOption(units[k])
      {
        options := options + [EquipmentOption(units[j])];
      }
    }
  }
}
