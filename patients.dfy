/** A patient: the records filed under one patient identifier, in discovery order. */
module Patients {
  import opened Annotations
  import opened Records

  /** Whether some record of `rs` has a condition named `disease` with indicator `indicator`. */
  predicate Indicates(rs: seq<Record>, disease: string, indicator: string) {
    exists i, j :: 0 <= i < |rs| && 0 <= j < |rs[i].factors| &&
                   rs[i].factors[j].name == disease && rs[i].factors[j].indicator == indicator
  }

  /** `''.join(texts)`: the record narratives back to back, with no separator. */
  function JoinTexts(rs: seq<Record>): string
    decreases |rs|
  {
    if rs == [] then "" else JoinTexts(rs[..|rs| - 1]) + rs[|rs| - 1].text
  }

  /** The total length of the records' narratives. */
  function TextsLength(rs: seq<Record>): nat
    decreases |rs|
  {
    if rs == [] then 0 else TextsLength(rs[..|rs| - 1]) + |rs[|rs| - 1].text|
  }

  class Patient {
    const id: string
    var records: seq<Record>

    constructor (ptId: string)
      ensures id == ptId && records == []
    {
      id := ptId;
      records := [];
    }

    /** `add_record`: appends, with no deduplication. */
    method AddRecord(r: Record)
      modifies this
      ensures records == old(records) + [r]
    {
      records := records + [r];
    }

    /** `factor_indicator`: scans the records, then each record's factors, and returns on the
        first condition that matches both name and indicator. */
    method FactorIndicator(disease: string, indicator: string) returns (found: bool)
      ensures found <==> Indicates(records, disease, indicator)
    {
      var i := 0;
      while i < |records|
        invariant 0 <= i <= |records|
        invariant forall a, b :: 0 <= a < i && 0 <= b < |records[a].factors| ==>
                    !(records[a].factors[b].name == disease && records[a].factors[b].indicator == indicator)
      {
        var factors := records[i].factors;
        var j := 0;
        while j < |factors|
          invariant 0 <= j <= |factors|
          invariant forall b :: 0 <= b < j ==> !(factors[b].name == disease && factors[b].indicator == indicator)
        {
          if factors[j].name == disease && factors[j].indicator == indicator {
            return true;
          }
          j := j + 1;
        }
        i := i + 1;
      }
      return false;
    }

    /** The `text` property: the records' narratives back to back, in record order, with no
        separator: record k's narrative starts right after the narratives of records 0..k-1. */
    function Text(): (t: string)
      reads this
      ensures |t| == TextsLength(records)
      ensures forall k :: 0 <= k < |records| ==>
                var start := TextsLength(records[..k]);
                start + |records[k].text| <= |t| && t[start..start + |records[k].text|] == records[k].text
    {
      JoinTextsLayout(records);
      JoinTexts(records)
    }
  }

  /** A patient with no records indicates nothing. */
  lemma NoRecordsNoIndicator(disease: string, indicator: string)
    ensures !Indicates([], disease, indicator)
  {
  }

  /** The indicator does not depend on the order of the records. */
  lemma IndicatesPermutation(rs: seq<Record>, ts: seq<Record>, disease: string, indicator: string)
    requires multiset(rs) == multiset(ts)
    ensures Indicates(rs, disease, indicator) <==> Indicates(ts, disease, indicator)
  {
    if Indicates(rs, disease, indicator) {
      IndicatesMoved(rs, ts, disease, indicator);
    }
    if Indicates(ts, disease, indicator) {
      IndicatesMoved(ts, rs, disease, indicator);
    }
  }

  lemma IndicatesMoved(rs: seq<Record>, ts: seq<Record>, disease: string, indicator: string)
    requires multiset(rs) == multiset(ts) && Indicates(rs, disease, indicator)
    ensures Indicates(ts, disease, indicator)
  {
    var i, j :| 0 <= i < |rs| && 0 <= j < |rs[i].factors| &&
                rs[i].factors[j].name == disease && rs[i].factors[j].indicator == indicator;
    assert rs[i] in multiset(ts);
    var k :| 0 <= k < |ts| && ts[k] == rs[i];
    assert ts[k].factors[j] == rs[i].factors[j];
  }

  /** Adding a record can only turn an indicator on: after the append it holds iff it held
      before or the new record has a matching condition. */
  lemma IndicatesAppend(rs: seq<Record>, r: Record, disease: string, indicator: string)
    ensures Indicates(rs + [r], disease, indicator) <==>
              Indicates(rs, disease, indicator) || Indicates([r], disease, indicator)
  {
    var all := rs + [r];
    if Indicates(all, disease, indicator) {
      var i, j :| 0 <= i < |all| && 0 <= j < |all[i].factors| &&
                  all[i].factors[j].name == disease && all[i].factors[j].indicator == indicator;
      if i < |rs| {
        assert rs[i] == all[i];
      } else {
        assert [r][0] == all[i];
      }
    }
    if Indicates(rs, disease, indicator) {
      var i, j :| 0 <= i < |rs| && 0 <= j < |rs[i].factors| &&
                  rs[i].factors[j].name == disease && rs[i].factors[j].indicator == indicator;
      assert all[i] == rs[i];
    }
    if Indicates([r], disease, indicator) {
      var i, j :| 0 <= i < 1 && 0 <= j < |[r][i].factors| &&
                  [r][i].factors[j].name == disease && [r][i].factors[j].indicator == indicator;
      assert all[|rs|] == r;
    }
  }

  /** Joining distributes over concatenation of record sequences. */
  lemma {:induction false} JoinTextsAppend(rs: seq<Record>, ts: seq<Record>)
    ensures JoinTexts(rs + ts) == JoinTexts(rs) + JoinTexts(ts)
    decreases |ts|
  {
    if ts == [] {
      assert rs + ts == rs;
    } else {
      var init, all := ts[..|ts| - 1], rs + ts;
      assert all[..|all| - 1] == rs + init && all[|all| - 1] == ts[|ts| - 1];
      JoinTextsAppend(rs, init);
    }
  }

  /** Each record's narrative appears whole in the joined text, between the narratives of the
      records before it and those after it. */
  lemma {:induction false} JoinTextsSplit(rs: seq<Record>, k: nat)
    requires k < |rs|
    ensures JoinTexts(rs) == JoinTexts(rs[..k]) + rs[k].text + JoinTexts(rs[k + 1..])
  {
    var before, after := rs[..k], rs[k + 1..];
    var upTo := before + [rs[k]];
    assert rs == upTo + after;
    JoinTextsAppend(upTo, after);
    assert upTo[..|upTo| - 1] == before;
  }

  lemma {:induction false} JoinTextsLength(rs: seq<Record>)
    ensures |JoinTexts(rs)| == TextsLength(rs)
    decreases |rs|
  {
    if rs != [] {
      JoinTextsLength(rs[..|rs| - 1]);
    }
  }

  /** Where each narrative sits in the joined text. */
  lemma JoinTextsLayout(rs: seq<Record>)
    ensures |JoinTexts(rs)| == TextsLength(rs)
    ensures forall k :: 0 <= k < |rs| ==>
              var start := TextsLength(rs[..k]);
              start + |rs[k].text| <= |JoinTexts(rs)| &&
              JoinTexts(rs)[start..start + |rs[k].text|] == rs[k].text
  {
    JoinTextsLength(rs);
    forall k | 0 <= k < |rs|
      ensures TextsLength(rs[..k]) + |rs[k].text| <= |JoinTexts(rs)|
      ensures JoinTexts(rs)[TextsLength(rs[..k])..TextsLength(rs[..k]) + |rs[k].text|] == rs[k].text
    {
      JoinTextsSplit(rs, k);
      JoinTextsLength(rs[..k]);
    }
  }
}
