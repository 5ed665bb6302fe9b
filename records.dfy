/** One visit record: the narrative, its date, and the annotations dispatched by tag. */
module Records {
  import opened Common
  import opened Xml
  import opened Annotations
  import opened Dates

  /** A parsed record; `text` is the narrative exactly as the file holds it. */
  datatype Record = Record(
    date: Option<Date>,
    text: string,
    factors: seq<Condition>,
    medicines: seq<Medication>,
    famHist: bool,
    smoker: string)

  /** The four fields the annotation loop updates. */
  datatype Fields = Fields(factors: seq<Condition>, medicines: seq<Medication>, famHist: bool, smoker: string)

  /** Their values before the first annotation is seen. */
  const Defaults: Fields := Fields([], [], false, "unknown")

  /** The tags the loop acts on; every other tag is skipped. */
  predicate IsRecognised(tag: string) {
    IsRiskFactorTag(tag) || tag == "MEDICATION" || tag == "SMOKER" || tag == "FAMILY_HIST"
  }

  /** The attributes an annotation with this tag must carry, in lookup order. */
  function RequiredKeys(tag: string): seq<string> {
    if IsRiskFactorTag(tag) then ConditionKeys
    else if tag == "MEDICATION" then MedicationKeys
    else if tag == "SMOKER" then ["status"]
    else if tag == "FAMILY_HIST" then ["indicator"]
    else []
  }

  predicate WellFormed(e: Element) {
    FirstMissing(e.attrib, RequiredKeys(e.tag)).None?
  }

  /** One pass of the loop body: what the annotation `e` does to the fields. */
  function Dispatch(f: Fields, e: Element): Result<Fields> {
    if IsRiskFactorTag(e.tag) then
      match DecodeCondition(e)
      case Err(err) => Err(err)
      case Ok(c) => Ok(f.(factors := f.factors + [c]))
    else if e.tag == "MEDICATION" then
      match DecodeMedication(e)
      case Err(err) => Err(err)
      case Ok(m) => Ok(f.(medicines := f.medicines + [m]))
    else if e.tag == "SMOKER" then
      match Attribute(e, "status")
      case Err(err) => Err(err)
      case Ok(status) => Ok(f.(smoker := status))
    else if e.tag == "FAMILY_HIST" then
      match Attribute(e, "indicator")
      case Err(err) => Err(err)
      case Ok(indicator) => Ok(f.(famHist := indicator == "present"))
    else
      Ok(f)
  }

  /** An annotation fails exactly when it lacks an attribute its tag requires, and then with
      the first such attribute in lookup order. */
  lemma DispatchOutcome(f: Fields, e: Element)
    ensures Dispatch(f, e).Ok? <==> WellFormed(e)
    ensures Dispatch(f, e).Err? ==>
              Dispatch(f, e).error == MissingAttribute(e.tag, FirstMissing(e.attrib, RequiredKeys(e.tag)).value)
  {
  }

  /** The whole loop over the annotation children, from the fields `f`, stopping at the
      first annotation that raises. */
  function DispatchAll(f: Fields, cs: seq<Element>): Result<Fields>
    decreases |cs|
  {
    if cs == [] then Ok(f)
    else
      match Dispatch(f, cs[0])
      case Err(err) => Err(err)
      case Ok(g) => DispatchAll(g, cs[1..])
  }

  /** `Record(filename)` on the parsed document `root`: element 0 is the narrative, element 1
      holds the annotations. The failures are raised in the order the constructor meets them. */
  function Parse(root: Element): Result<Record> {
    if |root.children| == 0 then Err(MissingChild(0))
    else
      match root.children[0].text
      case None => Err(NoNarrativeText)
      case Some(text) =>
        if |root.children| < 2 then Err(MissingChild(1))
        else
          match DispatchAll(Defaults, root.children[1].children)
          case Err(err) => Err(err)
          case Ok(f) => Ok(Record(ExtractDate(text), text, f.factors, f.medicines, f.famHist, f.smoker))
  }

  /** The constructor as the source runs it: the date first, then one loop over the annotations
      that appends to `factors`/`medicines` and overwrites `smoker`/`fam_hist`. */
  method ParseRecord(root: Element) returns (r: Result<Record>)
    ensures r == Parse(root)
  {
    if |root.children| == 0 {
      return Err(MissingChild(0));
    }
    if root.children[0].text.None? {
      return Err(NoNarrativeText);
    }
    var text := root.children[0].text.value;
    var date := ExtractDate(text);
    if |root.children| < 2 {
      return Err(MissingChild(1));
    }
    var factors: seq<Condition> := [];
    var medicines: seq<Medication> := [];
    var famHist := false;
    var smoker := "unknown";
    var annotations := root.children[1].children;
    var i := 0;
    while i < |annotations|
      invariant 0 <= i <= |annotations|
      invariant DispatchAll(Defaults, annotations) ==
                DispatchAll(Fields(factors, medicines, famHist, smoker), annotations[i..])
    {
      var annot := annotations[i];
      ghost var before := Fields(factors, medicines, famHist, smoker);
      assert annotations[i..][0] == annot && annotations[i..][1..] == annotations[i + 1..];
      if IsRiskFactorTag(annot.tag) {
        var c := DecodeCondition(annot);
        if c.Err? {
          return Err(c.error);
        }
        factors := factors + [c.value];
      } else if annot.tag == "MEDICATION" {
        var m := DecodeMedication(annot);
        if m.Err? {
          return Err(m.error);
        }
        medicines := medicines + [m.value];
      } else if annot.tag == "SMOKER" {
        var status := Attribute(annot, "status");
        if status.Err? {
          return Err(status.error);
        }
        smoker := status.value;
      } else if annot.tag == "FAMILY_HIST" {
        var indicator := Attribute(annot, "indicator");
        if indicator.Err? {
          return Err(indicator.error);
        }
        famHist := indicator.value == "present";
      }
      assert Dispatch(before, annot) == Ok(Fields(factors, medicines, famHist, smoker));
      i := i + 1;
    }
    return Ok(Record(date, text, factors, medicines, famHist, smoker));
  }

  /** The annotation children that become conditions, in document order. */
  function RiskFactorChildren(cs: seq<Element>): (r: seq<Element>)
    ensures |r| <= |cs|
    ensures forall k :: 0 <= k < |r| ==> IsRiskFactorTag(r[k].tag)
    decreases |cs|
  {
    if cs == [] then []
    else (if IsRiskFactorTag(cs[0].tag) then [cs[0]] else []) + RiskFactorChildren(cs[1..])
  }

  /** The annotation children that become medications, in document order. */
  function MedicationChildren(cs: seq<Element>): (r: seq<Element>)
    ensures |r| <= |cs|
    ensures forall k :: 0 <= k < |r| ==> r[k].tag == "MEDICATION"
    decreases |cs|
  {
    if cs == [] then []
    else (if cs[0].tag == "MEDICATION" then [cs[0]] else []) + MedicationChildren(cs[1..])
  }

  /** Decoding every element of `es` as a condition, in order, stopping at the first failure. */
  function DecodeConditions(es: seq<Element>): Result<seq<Condition>>
    decreases |es|
  {
    if es == [] then Ok([])
    else
      match DecodeCondition(es[0])
      case Err(err) => Err(err)
      case Ok(c) =>
        match DecodeConditions(es[1..])
        case Err(err) => Err(err)
        case Ok(cs) => Ok([c] + cs)
  }

  /** Decoding every element of `es` as a medication, in order, stopping at the first failure. */
  function DecodeMedications(es: seq<Element>): Result<seq<Medication>>
    decreases |es|
  {
    if es == [] then Ok([])
    else
      match DecodeMedication(es[0])
      case Err(err) => Err(err)
      case Ok(m) =>
        match DecodeMedications(es[1..])
        case Err(err) => Err(err)
        case Ok(ms) => Ok([m] + ms)
  }

  /** The loop succeeds exactly when every annotation carries the attributes its tag requires. */
  lemma {:induction false} DispatchAllSucceeds(f: Fields, cs: seq<Element>)
    ensures DispatchAll(f, cs).Ok? <==> forall k :: 0 <= k < |cs| ==> WellFormed(cs[k])
    decreases |cs|
  {
    if cs != [] {
      assert forall k :: 1 <= k < |cs| ==> cs[k] == cs[1..][k - 1];
      DispatchOutcome(f, cs[0]);
      if Dispatch(f, cs[0]).Ok? {
        DispatchAllSucceeds(Dispatch(f, cs[0]).value, cs[1..]);
      }
    }
  }

  /** When it fails, the error is the first missing attribute of the first ill-formed annotation. */
  lemma {:induction false} DispatchAllFirstError(f: Fields, cs: seq<Element>, k: nat)
    requires k < |cs| && !WellFormed(cs[k]) && forall j :: 0 <= j < k ==> WellFormed(cs[j])
    ensures DispatchAll(f, cs) == Err(MissingAttribute(cs[k].tag, FirstMissing(cs[k].attrib, RequiredKeys(cs[k].tag)).value))
    decreases k
  {
    DispatchOutcome(f, cs[0]);
    if k > 0 {
      assert forall j :: 0 <= j < k - 1 ==> cs[1..][j] == cs[j + 1];
      DispatchAllFirstError(Dispatch(f, cs[0]).value, cs[1..], k - 1);
    }
  }

  /** One annotation adds at most one condition to the fields. */
  lemma DispatchFactor(f: Fields, e: Element)
    requires Dispatch(f, e).Ok?
    ensures IsRiskFactorTag(e.tag) ==>
              DecodeCondition(e).Ok? && Dispatch(f, e).value.factors == f.factors + [DecodeCondition(e).value]
    ensures !IsRiskFactorTag(e.tag) ==> Dispatch(f, e).value.factors == f.factors
  {
  }

  /** One annotation adds at most one medication to the fields. */
  lemma DispatchMedicine(f: Fields, e: Element)
    requires Dispatch(f, e).Ok?
    ensures e.tag == "MEDICATION" ==>
              DecodeMedication(e).Ok? && Dispatch(f, e).value.medicines == f.medicines + [DecodeMedication(e).value]
    ensures e.tag != "MEDICATION" ==> Dispatch(f, e).value.medicines == f.medicines
  {
  }

  /** Unfolding the loop by its first annotation. */
  lemma DispatchAllFirst(f: Fields, cs: seq<Element>)
    requires cs != [] && DispatchAll(f, cs).Ok?
    ensures Dispatch(f, cs[0]).Ok? && DispatchAll(f, cs) == DispatchAll(Dispatch(f, cs[0]).value, cs[1..])
  {
  }

  /** `factors` gains exactly the risk-factor annotations, decoded, in document order. */
  lemma {:induction false} DispatchAllFactors(f: Fields, cs: seq<Element>)
    requires DispatchAll(f, cs).Ok?
    ensures DecodeConditions(RiskFactorChildren(cs)).Ok?
    ensures DispatchAll(f, cs).value.factors == f.factors + DecodeConditions(RiskFactorChildren(cs)).value
    decreases |cs|
  {
    if cs != [] {
      var e, rest := cs[0], cs[1..];
      DispatchAllFirst(f, cs);
      var g := Dispatch(f, e).value;
      DispatchAllFactors(g, rest);
      DispatchFactor(f, e);
      var tail := RiskFactorChildren(rest);
      var later := DecodeConditions(tail).value;
      assert DispatchAll(f, cs).value.factors == g.factors + later;
      if IsRiskFactorTag(e.tag) {
        var c := DecodeCondition(e).value;
        assert RiskFactorChildren(cs) == [e] + tail;
        DecodeConditionsCons(e, tail);
        assert DecodeConditions(RiskFactorChildren(cs)).value == [c] + later;
        assert g.factors + later == f.factors + ([c] + later);
      } else {
        assert RiskFactorChildren(cs) == tail;
      }
    }
  }

  /** `medicines` gains exactly the MEDICATION annotations, decoded, in document order. */
  lemma {:induction false} DispatchAllMedicines(f: Fields, cs: seq<Element>)
    requires DispatchAll(f, cs).Ok?
    ensures DecodeMedications(MedicationChildren(cs)).Ok?
    ensures DispatchAll(f, cs).value.medicines == f.medicines + DecodeMedications(MedicationChildren(cs)).value
    decreases |cs|
  {
    if cs != [] {
      var e, rest := cs[0], cs[1..];
      DispatchAllFirst(f, cs);
      var g := Dispatch(f, e).value;
      DispatchAllMedicines(g, rest);
      DispatchMedicine(f, e);
      var tail := MedicationChildren(rest);
      if e.tag == "MEDICATION" {
        assert MedicationChildren(cs) == [e] + tail;
        DecodeMedicationsCons(e, tail);
      } else {
        assert MedicationChildren(cs) == tail;
      }
    }
  }

  /** Every condition the loop collects is named by one of the five risk-factor tags. */
  lemma FactorNamesRecognised(f: Fields, cs: seq<Element>)
    requires DispatchAll(f, cs).Ok?
    requires forall c :: c in f.factors ==> IsRiskFactorTag(c.name)
    ensures forall c :: c in DispatchAll(f, cs).value.factors ==> IsRiskFactorTag(c.name)
  {
    DispatchAllFactors(f, cs);
    var es := RiskFactorChildren(cs);
    DecodeConditionsAt(es);
    var decoded := DecodeConditions(es).value;
    forall c | c in DispatchAll(f, cs).value.factors ensures IsRiskFactorTag(c.name) {
      if c !in f.factors {
        var k :| 0 <= k < |decoded| && decoded[k] == c;
        assert DecodeCondition(es[k]) == Ok(c);
        assert es[k] in es;
      }
    }
  }

  /** SMOKER is last-wins: `smoker` is the status of the last SMOKER annotation, and is left
      as it was when there is none. */
  lemma {:induction false} DispatchAllSmoker(f: Fields, cs: seq<Element>)
    requires DispatchAll(f, cs).Ok?
    ensures (forall k :: 0 <= k < |cs| ==> cs[k].tag != "SMOKER") ==> DispatchAll(f, cs).value.smoker == f.smoker
    ensures forall k :: 0 <= k < |cs| && cs[k].tag == "SMOKER" && (forall j :: k < j < |cs| ==> cs[j].tag != "SMOKER") ==>
              "status" in cs[k].attrib && DispatchAll(f, cs).value.smoker == cs[k].attrib["status"]
    decreases |cs|
  {
    if cs != [] {
      var e, rest := cs[0], cs[1..];
      var g := Dispatch(f, e).value;
      DispatchAllSmoker(g, rest);
      assert forall k :: 1 <= k < |cs| ==> cs[k] == rest[k - 1];
      forall k | 0 <= k < |cs| && cs[k].tag == "SMOKER" && (forall j :: k < j < |cs| ==> cs[j].tag != "SMOKER")
        ensures "status" in cs[k].attrib && DispatchAll(f, cs).value.smoker == cs[k].attrib["status"]
      {
        if k == 0 {
          assert forall j :: 0 <= j < |rest| ==> rest[j].tag != "SMOKER" by {
            forall j | 0 <= j < |rest| ensures rest[j].tag != "SMOKER" {
              assert rest[j] == cs[j + 1];
            }
          }
        } else {
          assert rest[k - 1] == cs[k];
          assert forall j :: k - 1 < j < |rest| ==> rest[j].tag != "SMOKER" by {
            forall j | k - 1 < j < |rest| ensures rest[j].tag != "SMOKER" {
              assert rest[j] == cs[j + 1];
            }
          }
        }
      }
    }
  }

  /** FAMILY_HIST is last-wins: `famHist` is whether the last FAMILY_HIST annotation's indicator
      is the literal "present", and is left as it was when there is none. */
  lemma {:induction false} DispatchAllFamilyHistory(f: Fields, cs: seq<Element>)
    requires DispatchAll(f, cs).Ok?
    ensures (forall k :: 0 <= k < |cs| ==> cs[k].tag != "FAMILY_HIST") ==> DispatchAll(f, cs).value.famHist == f.famHist
    ensures forall k :: 0 <= k < |cs| && cs[k].tag == "FAMILY_HIST" && (forall j :: k < j < |cs| ==> cs[j].tag != "FAMILY_HIST") ==>
              "indicator" in cs[k].attrib && DispatchAll(f, cs).value.famHist == (cs[k].attrib["indicator"] == "present")
    decreases |cs|
  {
    if cs != [] {
      var e, rest := cs[0], cs[1..];
      var g := Dispatch(f, e).value;
      DispatchAllFamilyHistory(g, rest);
      assert forall k :: 1 <= k < |cs| ==> cs[k] == rest[k - 1];
      forall k | 0 <= k < |cs| && cs[k].tag == "FAMILY_HIST" && (forall j :: k < j < |cs| ==> cs[j].tag != "FAMILY_HIST")
        ensures "indicator" in cs[k].attrib && DispatchAll(f, cs).value.famHist == (cs[k].attrib["indicator"] == "present")
      {
        if k == 0 {
          assert forall j :: 0 <= j < |rest| ==> rest[j].tag != "FAMILY_HIST" by {
            forall j | 0 <= j < |rest| ensures rest[j].tag != "FAMILY_HIST" {
              assert rest[j] == cs[j + 1];
            }
          }
        } else {
          assert rest[k - 1] == cs[k];
          assert forall j :: k - 1 < j < |rest| ==> rest[j].tag != "FAMILY_HIST" by {
            forall j | k - 1 < j < |rest| ensures rest[j].tag != "FAMILY_HIST" {
              assert rest[j] == cs[j + 1];
            }
          }
        }
      }
    }
  }

  /** An annotation whose tag is not recognised changes nothing, wherever it stands. */
  lemma {:induction false} UnrecognisedIgnored(f: Fields, xs: seq<Element>, e: Element, ys: seq<Element>)
    requires !IsRecognised(e.tag)
    ensures DispatchAll(f, xs + [e] + ys) == DispatchAll(f, xs + ys)
    decreases |xs|
  {
    if xs == [] {
      assert xs + [e] + ys == [e] + ys && xs + ys == ys;
      assert ([e] + ys)[0] == e && ([e] + ys)[1..] == ys;
      assert Dispatch(f, e) == Ok(f);
    } else {
      assert (xs + [e] + ys)[0] == (xs + ys)[0] == xs[0];
      assert (xs + [e] + ys)[1..] == xs[1..] + [e] + ys;
      assert (xs + ys)[1..] == xs[1..] + ys;
      if Dispatch(f, xs[0]).Ok? {
        UnrecognisedIgnored(Dispatch(f, xs[0]).value, xs[1..], e, ys);
      }
    }
  }

  /** The two last-wins rules on a concrete annotation list: two SMOKER tags give the second
      status, and a FAMILY_HIST tag counts only with indicator "present". */
  lemma LastWinsExample()
    ensures var cs := [Element("SMOKER", map["status" := "current"], None, []),
                       Element("FAMILY_HIST", map["indicator" := "present"], None, []),
                       Element("SMOKER", map["status" := "never"], None, [])];
            DispatchAll(Defaults, cs) == Ok(Fields([], [], true, "never"))
  {
  }

  /** The record keeps the narrative unstripped, while its date comes from the stripped text. */
  lemma ParseNarrative(root: Element)
    ensures Parse(root).Ok? ==>
              && |root.children| >= 2 && root.children[0].text.Some?
              && Parse(root).value.text == root.children[0].text.value
              && Parse(root).value.date == ExtractDate(root.children[0].text.value)
  {
  }

  /** When parsing a document fails, and with which error. */
  lemma ParseFailures(root: Element)
    ensures |root.children| == 0 ==> Parse(root) == Err(MissingChild(0))
    ensures |root.children| > 0 && root.children[0].text.None? ==> Parse(root) == Err(NoNarrativeText)
    ensures |root.children| == 1 && root.children[0].text.Some? ==> Parse(root) == Err(MissingChild(1))
    ensures Parse(root).Ok? <==>
              && |root.children| >= 2 && root.children[0].text.Some?
              && forall k :: 0 <= k < |root.children[1].children| ==> WellFormed(root.children[1].children[k])
  {
    if |root.children| >= 2 {
      DispatchAllSucceeds(Defaults, root.children[1].children);
    }
  }

  lemma DecodeConditionsCons(e: Element, es: seq<Element>)
    requires DecodeCondition(e).Ok? && DecodeConditions(es).Ok?
    ensures DecodeConditions([e] + es) == Ok([DecodeCondition(e).value] + DecodeConditions(es).value)
  {
    assert ([e] + es)[0] == e && ([e] + es)[1..] == es;
  }

  lemma DecodeMedicationsCons(e: Element, es: seq<Element>)
    requires DecodeMedication(e).Ok? && DecodeMedications(es).Ok?
    ensures DecodeMedications([e] + es) == Ok([DecodeMedication(e).value] + DecodeMedications(es).value)
  {
    assert ([e] + es)[0] == e && ([e] + es)[1..] == es;
  }

  /** Decoding a sequence of conditions succeeds iff each element decodes, and then decodes
      position by position. */
  lemma {:induction false} DecodeConditionsAt(es: seq<Element>)
    ensures DecodeConditions(es).Ok? <==> forall k :: 0 <= k < |es| ==> DecodeCondition(es[k]).Ok?
    ensures DecodeConditions(es).Ok? ==>
              && |DecodeConditions(es).value| == |es|
              && forall k :: 0 <= k < |es| ==> DecodeCondition(es[k]) == Ok(DecodeConditions(es).value[k])
    decreases |es|
  {
    if es != [] {
      assert forall k :: 1 <= k < |es| ==> es[k] == es[1..][k - 1];
      DecodeConditionsAt(es[1..]);
    }
  }

  /** Decoding a sequence of medications succeeds iff each element decodes, and then decodes
      position by position. */
  lemma {:induction false} DecodeMedicationsAt(es: seq<Element>)
    ensures DecodeMedications(es).Ok? <==> forall k :: 0 <= k < |es| ==> DecodeMedication(es[k]).Ok?
    ensures DecodeMedications(es).Ok? ==>
              && |DecodeMedications(es).value| == |es|
              && forall k :: 0 <= k < |es| ==> DecodeMedication(es[k]) == Ok(DecodeMedications(es).value[k])
    decreases |es|
  {
    if es != [] {
      assert forall k :: 1 <= k < |es| ==> es[k] == es[1..][k - 1];
      DecodeMedicationsAt(es[1..]);
    }
  }
}
