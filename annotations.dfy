/** The two annotation entities a record is built from: risk-factor conditions and medications. */
module Annotations {
  import opened Common
  import opened Xml

  /** The five risk-factor tags (`Record.c`), in the order the source lists them. */
  const RiskFactorTags: seq<string> := ["HYPERLIPIDEMIA", "OBESE", "HYPERTENSION", "DIABETES", "CAD"]

  predicate IsRiskFactorTag(tag: string) {
    tag in RiskFactorTags
  }

  /** Attributes a condition tag must carry, in the order they are looked up. */
  const ConditionKeys: seq<string> := ["id", "time", "indicator"]

  /** Attributes a MEDICATION tag must carry, in the order they are looked up. */
  const MedicationKeys: seq<string> := ["id", "time", "type1", "type2"]

  datatype Condition = Condition(name: string, id: string, time: string, indicator: string)

  datatype Medication = Medication(id: string, time: string, types: seq<string>)

  /** `Condition(tag)`: the tag name plus three required attributes. */
  function DecodeCondition(e: Element): (r: Result<Condition>)
    ensures r.Ok? <==> FirstMissing(e.attrib, ConditionKeys).None?
    ensures r.Ok? ==> && r.value.name == e.tag
                      && r.value.id == e.attrib["id"]
                      && r.value.time == e.attrib["time"]
                      && r.value.indicator == e.attrib["indicator"]
    ensures r.Err? ==> r.error == MissingAttribute(e.tag, FirstMissing(e.attrib, ConditionKeys).value)
  {
    match Attribute(e, "id")
    case Err(err) => Err(err)
    case Ok(id) =>
      match Attribute(e, "time")
      case Err(err) => Err(err)
      case Ok(time) =>
        match Attribute(e, "indicator")
        case Err(err) => Err(err)
        case Ok(indicator) => Ok(Condition(e.tag, id, time, indicator))
  }

  /** The list comprehension `[t for t in ts if t]`: the non-empty strings, in order. */
  function NonEmptyOnly(ts: seq<string>): (r: seq<string>)
    ensures |r| <= |ts|
    ensures forall t :: t in r <==> t in ts && t != ""
    ensures (forall i :: 0 <= i < |ts| ==> ts[i] != "") ==> r == ts
    decreases |ts|
  {
    if ts == [] then []
    else if ts[0] == "" then NonEmptyOnly(ts[1..])
    else [ts[0]] + NonEmptyOnly(ts[1..])
  }

  /** The filter keeps every non-empty string as often as it occurs, and drops only empty ones. */
  lemma {:induction false} NonEmptyOnlyCounts(ts: seq<string>)
    ensures multiset(NonEmptyOnly(ts)) == multiset(ts)["" := 0]
    decreases |ts|
  {
    if ts != [] {
      assert ts == [ts[0]] + ts[1..];
      NonEmptyOnlyCounts(ts[1..]);
    }
  }

  /** The filter works element by element: filtering a concatenation concatenates the
      filtered parts, so the kept strings stay in their original order. */
  lemma {:induction false} NonEmptyOnlyAppend(a: seq<string>, b: seq<string>)
    ensures NonEmptyOnly(a + b) == NonEmptyOnly(a) + NonEmptyOnly(b)
    decreases |a|
  {
    if a == [] {
      assert a + b == b;
    } else {
      assert (a + b)[0] == a[0] && (a + b)[1..] == a[1..] + b;
      NonEmptyOnlyAppend(a[1..], b);
    }
  }

  /** On one string the filter keeps it exactly when it is not empty. */
  lemma NonEmptyOnlySingle(t: string)
    ensures NonEmptyOnly([t]) == if t == "" then [] else [t]
  {
    assert [t][1..] == [];
  }

  /** `Medication(tag)`: both type attributes are looked up before empty ones are dropped. */
  function DecodeMedication(e: Element): (r: Result<Medication>)
    ensures r.Ok? <==> FirstMissing(e.attrib, MedicationKeys).None?
    ensures r.Ok? ==> && r.value.id == e.attrib["id"]
                      && r.value.time == e.attrib["time"]
                      && r.value.types == NonEmptyOnly([e.attrib["type1"], e.attrib["type2"]])
    ensures r.Err? ==> r.error == MissingAttribute(e.tag, FirstMissing(e.attrib, MedicationKeys).value)
  {
    match Attribute(e, "id")
    case Err(err) => Err(err)
    case Ok(id) =>
      match Attribute(e, "time")
      case Err(err) => Err(err)
      case Ok(time) =>
        match Attribute(e, "type1")
        case Err(err) => Err(err)
        case Ok(type1) =>
          match Attribute(e, "type2")
          case Err(err) => Err(err)
          case Ok(type2) => Ok(Medication(id, time, NonEmptyOnly([type1, type2])))
  }

  /** The types of a decoded medication: at most two, none empty, `type1` before `type2`. */
  lemma MedicationTypes(e: Element)
    requires DecodeMedication(e).Ok?
    ensures var types := DecodeMedication(e).value.types;
            var t1, t2 := e.attrib["type1"], e.attrib["type2"];
            && |types| <= 2
            && (forall t :: t in types ==> t != "")
            && (t1 != "" && t2 != "" ==> types == [t1, t2])
            && (t1 != "" && t2 == "" ==> types == [t1])
            && (t1 == "" && t2 != "" ==> types == [t2])
            && (t1 == "" && t2 == "" ==> types == [])
  {
    var t1, t2 := e.attrib["type1"], e.attrib["type2"];
    NonEmptyPair(t1, t2);
  }

  lemma NonEmptyPair(t1: string, t2: string)
    ensures NonEmptyOnly([t1, t2]) == (if t1 == "" then [] else [t1]) + (if t2 == "" then [] else [t2])
  {
    assert [t1, t2] == [t1] + [t2];
    NonEmptyOnlyAppend([t1], [t2]);
    NonEmptyOnlySingle(t1);
    NonEmptyOnlySingle(t2);
  }

  /** The element a condition would be decoded from. */
  function ConditionElement(c: Condition): Element {
    Element(c.name, map["id" := c.id, "time" := c.time, "indicator" := c.indicator], None, [])
  }

  /** Decoding inverts `ConditionElement`: every field survives the round trip. */
  lemma ConditionRoundTrip(c: Condition)
    ensures DecodeCondition(ConditionElement(c)) == Ok(c)
  {
  }

  /** The element a medication with at most two non-empty types would be decoded from;
      a missing second (or first) type is written as the empty attribute value. */
  function MedicationElement(m: Medication): Element
    requires |m.types| <= 2
  {
    var t1 := if |m.types| > 0 then m.types[0] else "";
    var t2 := if |m.types| > 1 then m.types[1] else "";
    Element("MEDICATION", map["id" := m.id, "time" := m.time, "type1" := t1, "type2" := t2], None, [])
  }

  /** Decoding inverts `MedicationElement` for every medication decoding can produce. */
  lemma MedicationRoundTrip(m: Medication)
    requires |m.types| <= 2 && forall t :: t in m.types ==> t != ""
    ensures DecodeMedication(MedicationElement(m)) == Ok(m)
  {
    var e := MedicationElement(m);
    var t1, t2 := e.attrib["type1"], e.attrib["type2"];
    assert FirstMissing(e.attrib, MedicationKeys).None?;
    NonEmptyPair(t1, t2);
    var types := NonEmptyOnly([t1, t2]);
    if |m.types| == 2 {
      assert m.types[0] in m.types && m.types[1] in m.types;
      assert types == [t1] + [t2] == m.types;
    } else if |m.types| == 1 {
      assert m.types[0] in m.types;
      assert types == [t1] == m.types;
    } else {
      assert types == [] == m.types;
    }
    assert DecodeMedication(e) == Ok(Medication(m.id, m.time, types));
  }
}
