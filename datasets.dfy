/** The dataset: a directory of record files grouped into patients by file name. */
module Datasets {
  import opened Common
  import opened Xml
  import opened Records
  import opened Patients

  /** One directory entry: its file name, whether it is a regular file, and the parsed XML
      document (None when the file is not well-formed XML). */
  datatype Entry = Entry(name: string, isFile: bool, document: Option<Element>)

  /** `name.split('-')[0]`: the part of the file name before its first hyphen, or the whole name
      (extension included) when it has none. */
  function PatientKey(name: string): (key: string)
    ensures key <= name
    ensures '-' !in key
    ensures |key| < |name| ==> name[|key|] == '-'
    decreases |name|
  {
    if name == [] || name[0] == '-' then []
    else [name[0]] + PatientKey(name[1..])
  }

  /** `Record(file_path)` for one file. */
  function EntryRecord(e: Entry): Result<Record> {
    match e.document
    case None => Err(MalformedDocument(e.name))
    case Some(root) => Parse(root)
  }

  /** `Record(file_path)`, with the parse loop of `ParseRecord`. */
  method ReadEntry(e: Entry) returns (r: Result<Record>)
    ensures r == EntryRecord(e)
  {
    match e.document {
      case None =>
        r := Err(MalformedDocument(e.name));
      case Some(root) =>
        r := ParseRecord(root);
    }
  }

  /** A parsed file routed to the patient its name designates. */
  datatype Visit = Visit(patient: string, record: Record)

  /** The regular files among the entries, in listing order. */
  function Files(entries: seq<Entry>): seq<Entry>
    decreases |entries|
  {
    if entries == [] then []
    else
      var e := entries[|entries| - 1];
      Files(entries[..|entries| - 1]) + (if e.isFile then [e] else [])
  }

  /** The directory scan: every regular file parsed and routed, in listing order; the first file
      that fails to parse aborts the whole scan. */
  function Scan(entries: seq<Entry>): Result<seq<Visit>>
    decreases |entries|
  {
    if entries == [] then Ok([])
    else
      var e := entries[|entries| - 1];
      match Scan(entries[..|entries| - 1])
      case Err(err) => Err(err)
      case Ok(vs) =>
        if !e.isFile then Ok(vs)
        else
          match EntryRecord(e)
          case Err(err) => Err(err)
          case Ok(r) => Ok(vs + [Visit(PatientKey(e.name), r)])
  }

  /** An insertion-ordered dictionary from patient identifier to that patient's records. */
  datatype Grouping = Grouping(order: seq<string>, buckets: map<string, seq<Record>>)

  /** Filing one record: a new key is created on first sight, then the record is appended. */
  function Assign(g: Grouping, key: string, r: Record): Grouping {
    if key in g.buckets then Grouping(g.order, g.buckets[key := g.buckets[key] + [r]])
    else Grouping(g.order + [key], g.buckets[key := [r]])
  }

  /** The dictionary once `key` is present: a new key enters last with no records. */
  function Created(g: Grouping, key: string): Grouping {
    if key in g.buckets then g else Grouping(g.order + [key], g.buckets[key := []])
  }

  /** The dictionary with `r` appended to the records of the present `key`. */
  function Appended(g: Grouping, key: string, r: Record): Grouping
    requires key in g.buckets
  {
    Grouping(g.order, g.buckets[key := g.buckets[key] + [r]])
  }

  /** Creating the patient and then appending the record files it as `Assign` does. */
  lemma AssignInSteps(g: Grouping, key: string, r: Record)
    ensures key in Created(g, key).buckets
    ensures Appended(Created(g, key), key, r) == Assign(g, key, r)
  {
    if key !in g.buckets {
      assert [] + [r] == [r];
    }
  }

  function Group(vs: seq<Visit>): Grouping
    decreases |vs|
  {
    if vs == [] then Grouping([], map[])
    else
      var v := vs[|vs| - 1];
      Assign(Group(vs[..|vs| - 1]), v.patient, v.record)
  }

  lemma GroupSnoc(vs: seq<Visit>, v: Visit)
    ensures Group(vs + [v]) == Assign(Group(vs), v.patient, v.record)
  {
    assert (vs + [v])[..|vs|] == vs;
  }

  /** `[v.record for v in vs if v.patient == key]`. */
  function RecordsOf(vs: seq<Visit>, key: string): seq<Record>
    decreases |vs|
  {
    if vs == [] then []
    else
      var v := vs[|vs| - 1];
      RecordsOf(vs[..|vs| - 1], key) + (if v.patient == key then [v.record] else [])
  }

  /** The position of the first visit of `key`, or |vs| when it has none. */
  function FirstIndex(vs: seq<Visit>, key: string): (n: nat)
    ensures n <= |vs|
    ensures forall i :: 0 <= i < n ==> vs[i].patient != key
    ensures n < |vs| ==> vs[n].patient == key
    decreases |vs|
  {
    if vs == [] then 0
    else
      var init := vs[..|vs| - 1];
      var n := FirstIndex(init, key);
      assert forall i :: 0 <= i < |init| ==> vs[i] == init[i];
      if n < |init| then n else if vs[|vs| - 1].patient == key then |init| else |vs|
  }

  predicate Distinct(s: seq<string>) {
    forall i, j :: 0 <= i < j < |s| ==> s[i] != s[j]
  }

  /** The dictionary's shape: its keys are exactly the patients that have a visit, each once,
      in `order`. */
  lemma {:induction false} GroupShape(vs: seq<Visit>)
    ensures Distinct(Group(vs).order)
    ensures forall k :: k in Group(vs).buckets <==> k in Group(vs).order
    ensures forall k :: k in Group(vs).buckets <==> FirstIndex(vs, k) < |vs|
    decreases |vs|
  {
    if vs != [] {
      var init := vs[..|vs| - 1];
      GroupShape(init);
    }
  }

  /** Each patient's records are exactly its visits' records, in visit order, and a patient in
      the dictionary has at least one. */
  lemma {:induction false} GroupBuckets(vs: seq<Visit>)
    ensures forall k :: k in Group(vs).buckets ==> Group(vs).buckets[k] == RecordsOf(vs, k) != []
    ensures forall k :: k !in Group(vs).buckets ==> RecordsOf(vs, k) == []
    decreases |vs|
  {
    if vs != [] {
      var init := vs[..|vs| - 1];
      GroupBuckets(init);
    }
  }

  /** The keys are in order of each patient's first visit. */
  lemma {:induction false} GroupOrder(vs: seq<Visit>)
    ensures forall i, j :: 0 <= i < j < |Group(vs).order| ==>
              FirstIndex(vs, Group(vs).order[i]) < FirstIndex(vs, Group(vs).order[j])
    decreases |vs|
  {
    if vs != [] {
      var init := vs[..|vs| - 1];
      GroupOrder(init);
      GroupShape(init);
    }
  }

  class Dataset {
    /** The keys of `self.patients`, in insertion order. */
    var order: seq<string>
    var patients: map<string, Patient>
    /** The patient objects the dataset owns. */
    ghost var Repr: set<Patient>

    ghost predicate Valid()
      reads this, patients.Values
    {
      && Distinct(order)
      && (forall k :: k in patients <==> k in order)
      && (forall k :: k in patients ==> patients[k].id == k && patients[k] in Repr)
    }

    /** The dictionary as a value: key order and each patient's records. */
    ghost function Contents(): Grouping
      reads this, patients.Values
    {
      Grouping(order, map k | k in patients :: patients[k].records)
    }

    constructor Empty()
      ensures Valid() && order == [] && patients == map[] && Repr == {}
    {
      order := [];
      patients := map[];
      Repr := {};
    }

    /** `if pt_id not in self.patients: self.patients[pt_id] = Patient(pt_id)`: a patient
        with no records is created for a key on its first sight; a known key leaves the
        dictionary as it was. */
    method EnsurePatient(key: string)
      requires Valid()
      modifies this
      ensures Valid() && key in patients
      ensures Contents() == Created(old(Contents()), key)
      ensures old(key in patients) ==> patients == old(patients) && Repr == old(Repr)
      ensures old(key !in patients) ==> && fresh(patients[key]) && patients == old(patients)[key := patients[key]]
                                        && Repr == old(Repr) + {patients[key]}
    {
      ghost var before := Contents();
      if key !in patients {
        var p := new Patient(key);
        patients := patients[key := p];
        order := order + [key];
        Repr := Repr + {p};
        assert Contents().buckets == before.buckets[key := []];
      }
    }

    /** `self.patients[pt_id].add_record(...)`: the record is appended to that key's patient. */
    method Append(key: string, r: Record)
      requires Valid() && key in patients
      modifies patients[key]
      ensures Valid()
      ensures Contents() == Appended(old(Contents()), key, r)
    {
      ghost var before := Contents();
      patients[key].AddRecord(r);
      assert forall k :: k in patients && k != key ==> patients[k].records == before.buckets[k];
      assert Contents().buckets == before.buckets[key := before.buckets[key] + [r]];
    }

    /** The body of the constructor's loop over the directory, for one entry: a regular
        file's patient is created on first sight, then the file is parsed and its record
        appended; a parse error is returned with the patient already created. */
    method AddEntry(e: Entry) returns (err: Option<Error>)
      requires Valid()
      modifies this, Repr
      ensures Valid() && old(Repr) <= Repr && fresh(Repr - old(Repr))
      ensures err == if e.isFile && EntryRecord(e).Err? then Some(EntryRecord(e).error) else None
      ensures err.None? && e.isFile ==>
        Contents() == Assign(old(Contents()), PatientKey(e.name), EntryRecord(e).value)
      ensures !e.isFile ==> Contents() == old(Contents())
    {
      if e.isFile {
        var key := PatientKey(e.name);
        ghost var before := Contents();
        EnsurePatient(key);
        var rec := ReadEntry(e);
        if rec.Err? {
          return Some(rec.error);
        }
        Append(key, rec.value);
        AssignInSteps(before, key, rec.value);
      }
      return None;
    }

    /** `Dataset(directory)` on a given directory listing. */
    static method Load(entries: seq<Entry>) returns (r: Result<Dataset>)
      ensures r.Err? <==> Scan(entries).Err?
      ensures r.Err? ==> Scan(entries) == Err(r.error)
      ensures r.Ok? ==> && fresh(r.value) && fresh(r.value.Repr)
                        && r.value.Valid() && r.value.Contents() == Group(Scan(entries).value)
    {
      var ds := new Dataset.Empty();
      ghost var visits: seq<Visit> := [];
      var i := 0;
      while i < |entries|
        invariant 0 <= i <= |entries|
        invariant Scan(entries[..i]) == Ok(visits)
        invariant fresh(ds) && fresh(ds.Repr)
        invariant ds.Valid() && ds.Contents() == Group(visits)
      {
        var err := ds.AddEntry(entries[i]);
        if !entries[i].isFile {
          ScanSkip(entries, i, visits);
        } else {
          ScanFile(entries, i, visits);
          if err.Some? {
            ScanStopsAtError(entries, i + 1);
            return Err(err.value);
          }
          var v := Visit(PatientKey(entries[i].name), EntryRecord(entries[i]).value);
          GroupSnoc(visits, v);
          visits := visits + [v];
        }
        i := i + 1;
      }
      assert entries[..i] == entries;
      return Ok(ds);
    }

    /** `self.patients.values()[index]`, with Python's negative indices counting from the end. */
    function At(index: int): (r: Result<Patient>)
      reads this, patients.Values
      requires Valid()
      ensures r.Ok? <==> -|order| <= index < |order|
      ensures r.Ok? ==> r.value in patients.Values && r.value.id == order[if index < 0 then |order| + index else index]
      ensures r.Err? ==> r.error == IndexOutOfRange(index)
    {
      if 0 <= index < |order| then Ok(patients[order[index]])
      else if -|order| <= index < 0 then Ok(patients[order[|order| + index]])
      else Err(IndexOutOfRange(index))
    }

    function TextsOf(keys: seq<string>): (ts: seq<string>)
      reads this, patients.Values
      requires forall k :: k in keys ==> k in patients
      ensures |ts| == |keys|
      ensures forall i :: 0 <= i < |keys| ==> ts[i] == patients[keys[i]].Text()
      decreases |keys|
    {
      if keys == [] then [] else TextsOf(keys[..|keys| - 1]) + [patients[keys[|keys| - 1]].Text()]
    }

    /** `texts`: one aggregate narrative per patient, in the dictionary's key order. */
    function Texts(): (ts: seq<string>)
      reads this, patients.Values
      requires Valid()
      ensures |ts| == |order|
      ensures forall i :: 0 <= i < |ts| ==> At(i).Ok? && ts[i] == At(i).value.Text()
    {
      TextsOf(order)
    }

    function LabelsOf(keys: seq<string>, condition: string, indicator: string): (ls: seq<int>)
      reads this, patients.Values
      requires forall k :: k in keys ==> k in patients
      ensures |ls| == |keys|
      ensures forall i :: 0 <= i < |keys| ==>
                ls[i] == if Indicates(patients[keys[i]].records, condition, indicator) then 1 else 0
      decreases |keys|
    {
      if keys == [] then []
      else
        var p := patients[keys[|keys| - 1]];
        LabelsOf(keys[..|keys| - 1], condition, indicator) +
        [if Indicates(p.records, condition, indicator) then 1 else 0]
    }

    /** `labels(condition, indicator)`: per patient, in the same order as `texts`, 1 when the
        patient's factor indicator holds and 0 otherwise. */
    function Labels(condition: string, indicator: string): (ls: seq<int>)
      reads this, patients.Values
      requires Valid()
      ensures |ls| == |order|
      ensures forall i :: 0 <= i < |ls| ==>
                At(i).Ok? && ls[i] == if Indicates(At(i).value.records, condition, indicator) then 1 else 0
    {
      LabelsOf(order, condition, indicator)
    }
  }

  /** Visit files of one patient share the part of their names before the first hyphen. */
  lemma PatientKeyExample()
    ensures PatientKey("100-01.xml") == "100" && PatientKey("100-02.xml") == "100"
  {
    assert PatientKey("-01.xml") == [] && PatientKey("-02.xml") == [];
  }

  /** A name without a hyphen is its own key, extension included. */
  lemma PatientKeyWholeName()
    ensures PatientKey("200.xml") == "200.xml"
  {
    assert PatientKey("") == [];
  }

  /** Two visits of patient 100 and one of patient 200.xml: one key per patient, in order of
      first visit, with the records in discovery order. */
  lemma GroupingExample(r1: Record, r2: Record, r3: Record)
    ensures Group([Visit("100", r1), Visit("100", r2), Visit("200.xml", r3)]) ==
              Grouping(["100", "200.xml"], map["100" := [r1, r2], "200.xml" := [r3]])
  {
    var v1, v2, v3 := Visit("100", r1), Visit("100", r2), Visit("200.xml", r3);
    GroupSnoc([], v1);
    var g1 := Grouping(["100"], map["100" := [r1]]);
    assert Group([v1]) == g1 by {
      assert [] + [v1] == [v1];
    }
    GroupSnoc([v1], v2);
    var g2 := Grouping(["100"], map["100" := [r1, r2]]);
    assert Group([v1, v2]) == g2 by {
      assert [v1] + [v2] == [v1, v2];
      assert [r1] + [r2] == [r1, r2];
      assert g1.buckets["100" := [r1, r2]] == g2.buckets;
    }
    GroupSnoc([v1, v2], v3);
    assert [v1, v2] + [v3] == [v1, v2, v3];
    assert "200.xml" !in g2.buckets;
    assert ["100"] + ["200.xml"] == ["100", "200.xml"];
  }

  /** The scan succeeds exactly when every regular file parses. */
  lemma {:induction false} ScanSucceeds(entries: seq<Entry>)
    ensures Scan(entries).Ok? <==>
              forall i :: 0 <= i < |entries| && entries[i].isFile ==> EntryRecord(entries[i]).Ok?
    decreases |entries|
  {
    if entries != [] {
      var init := entries[..|entries| - 1];
      assert forall i :: 0 <= i < |init| ==> init[i] == entries[i];
      ScanSucceeds(init);
    }
  }

  /** A failed scan reports the error of the first regular file that does not parse. */
  lemma {:induction false} ScanFirstError(entries: seq<Entry>, k: nat)
    requires k < |entries| && entries[k].isFile && EntryRecord(entries[k]).Err?
    requires forall i :: 0 <= i < k && entries[i].isFile ==> EntryRecord(entries[i]).Ok?
    ensures Scan(entries) == Err(EntryRecord(entries[k]).error)
  {
    var before := entries[..k];
    assert forall i :: 0 <= i < k ==> before[i] == entries[i];
    ScanSucceeds(before);
    ScanFile(entries, k, Scan(before).value);
    ScanStopsAtError(entries, k + 1);
  }

  /** A successful scan has one visit per regular file, in listing order, filed under the key
      of the file's name. */
  lemma {:induction false} ScanVisits(entries: seq<Entry>)
    requires Scan(entries).Ok?
    ensures |Scan(entries).value| == |Files(entries)|
    ensures forall i :: 0 <= i < |Files(entries)| ==>
              var e := Files(entries)[i];
              EntryRecord(e).Ok? && Scan(entries).value[i] == Visit(PatientKey(e.name), EntryRecord(e).value)
    decreases |entries|
  {
    if entries != [] {
      ScanVisits(entries[..|entries| - 1]);
    }
  }

  /** A scan that fails on a prefix of the listing fails with the same error on the whole. */
  lemma {:induction false} ScanStopsAtError(entries: seq<Entry>, n: nat)
    requires n <= |entries| && Scan(entries[..n]).Err?
    ensures Scan(entries) == Scan(entries[..n])
    decreases |entries| - n
  {
    if n < |entries| {
      assert entries[..n + 1][..n] == entries[..n];
      ScanStopsAtError(entries, n + 1);
    } else {
      assert entries[..n] == entries;
    }
  }

  /** One more regular file: the scan either fails with its parse error or gains its visit. */
  lemma ScanFile(entries: seq<Entry>, i: nat, vs: seq<Visit>)
    requires i < |entries| && entries[i].isFile && Scan(entries[..i]) == Ok(vs)
    ensures Scan(entries[..i + 1]) ==
              match EntryRecord(entries[i])
              case Err(err) => Err(err)
              case Ok(r) => Ok(vs + [Visit(PatientKey(entries[i].name), r)])
  {
    assert entries[..i + 1][..i] == entries[..i];
  }

  /** An entry that is not a regular file leaves the scan as it was. */
  lemma ScanSkip(entries: seq<Entry>, i: nat, vs: seq<Visit>)
    requires i < |entries| && !entries[i].isFile && Scan(entries[..i]) == Ok(vs)
    ensures Scan(entries[..i + 1]) == Ok(vs)
  {
    assert entries[..i + 1][..i] == entries[..i];
  }
}
