# CAD_RiskFactors ingestion core in Dafny

This project models the ingestion and aggregation layer of CAD_RiskFactors. That layer reads a directory of n2c2 2014 clinical-record XML files, one file per patient visit. It turns each file into a record, files the records under patients, and answers the two queries the training pipeline consumes:
- `texts`: one combined narrative per patient;
- `labels(condition, indicator)`: one 0/1 label per patient.

Each file's record holds:
- the narrative text;
- the visit date;
- the risk-factor conditions;
- the medications;
- the smoking status;
- the family-history flag.

`model/record.py` is a near-verbatim copy of the first half of `model/dataset.py`. Both are modelled by the same Dafny members, and the table below cites both files.

Modules, in dependency order:

- `Common`: `Option`, `Result`, and `Error`. `Error` has one constructor per exception the code lets escape:
  - `MissingAttribute` for `KeyError`;
  - `MissingChild` for `IndexError` on the root;
  - `NoNarrativeText` for the `AttributeError` raised by `None.strip()`;
  - `MalformedDocument` for a file `ElementTree` cannot parse;
  - `IndexOutOfRange` for `__getitem__`.
- `Xml`: a parsed element, given as its tag, attribute map, optional text and children, plus attribute lookup.
- `Annotations`: `Condition` and `Medication`, decoded from one annotation tag, and the five risk-factor tag names.
- `Dates`: Python's `str.strip()`, the clamped slice `[13:23]`, and `datetime.fromisoformat` on `YYYY-MM-DD` (proleptic Gregorian calendar, years 1 to 9999).
- `Records`:
  - `Record`, a value;
  - `Parse`, a function setting out the constructor's failure order;
  - `ParseRecord`, a method holding the constructor's dispatch loop, with local fields it mutates; it is proved equal to `Parse`.
- `Patients`: the class `Patient`, whose `records` field `add_record` appends to. `factor_indicator` is a nested loop with early return, proved equivalent to the predicate `Indicates`.
- `Datasets`:
  - the class `Dataset`, whose insertion-ordered dictionary is the fields `order` (key order) and `patients` (the map);
  - `Load`, the constructor's loop over a given directory listing, proved equal to the pure grouping `Group(Scan(entries))`;
  - the queries `At` (`__getitem__`), `Texts` and `Labels`.

The key of a file is `file_path.name.split('-')[0]`, so a name without a hyphen keeps its extension: `200.xml` is filed under `200.xml`, not `200`. `Datasets.PatientKeyWholeName` states this.

## Model

| member | source | states |
|---|---|---|
| Xml.FirstMissing | model/dataset.py:32-34 | None exactly when every required key is present; otherwise the first absent key in lookup order, all keys before it being present |
| Xml.Attribute | model/dataset.py:80 | `attrib[key]` succeeds exactly when the key is present, with its value; otherwise the `KeyError(key)` case, which the model also labels with the element's tag |
| Annotations.DecodeCondition | model/dataset.py:29-34 | succeeds exactly when `id`, `time` and `indicator` are present; name is the tag and the three fields are the attribute values; failure names the first missing attribute in that order |
| Annotations.ConditionRoundTrip | model/record.py:4-10 | decoding the element built from any condition gives that condition back |
| Annotations.DecodeMedication | model/dataset.py:42-46 | succeeds exactly when `id`, `time`, `type1`, `type2` are present; `types` is `[type1, type2]` with empty strings dropped; failure names the first missing attribute |
| Annotations.NonEmptyOnly | model/dataset.py:46 | keeps exactly the non-empty strings, is no longer than its input, and is the input itself when none is empty |
| Annotations.NonEmptyOnlyCounts | model/record.py:20 | every non-empty string is kept as many times as it occurs, and only empty strings are dropped |
| Annotations.NonEmptyOnlyAppend | model/dataset.py:46 | filtering a concatenation concatenates the filtered parts, so the kept strings stay in their original order |
| Annotations.MedicationTypes | model/record.py:20 | `types` has at most two entries, all non-empty, and is `[type1, type2]`, `[type1]`, `[type2]` or `[]` by which are empty, in that order |
| Annotations.MedicationRoundTrip | model/record.py:15-20 | decoding the element built from any medication with at most two non-empty types gives it back |
| Dates.Strip | model/dataset.py:63 | the result is a contiguous piece of the input with only whitespace (Python's `isspace` set) on either side, and neither of its ends is whitespace |
| Dates.Slice | model/record.py:35 | `s[lo:hi]` with Python's clamping: the characters from `lo` up to `hi` or the end of `s`, whichever comes first, and empty when `lo` is past either |
| Dates.ParseIsoDate | model/dataset.py:64 | Some(d) only for a valid calendar date whose `YYYY-MM-DD` form is the input; None exactly when no valid date has that form |
| Dates.FormatThenParse | model/record.py:36 | every valid date survives formatting and parsing |
| Dates.ExtractDate | model/dataset.py:62-66 | the date is Some(d) exactly when the stripped narrative's `[13:23]` window is the ISO form of the valid date d; otherwise None, with no error |
| Dates.DateAfterHeader | model/record.py:34-38 | leading whitespace, a 13-character header that does not start with whitespace, and then an ISO date always give that date, whatever follows |
| Dates.RecordDateExample | model/dataset.py:63-64 | `"\n\n\nRecord date: 2009-03-15\nHPI"` gives 2009-03-15 |
| Records.DispatchOutcome | model/dataset.py:75-82 | one annotation fails exactly when it lacks an attribute its tag requires, with the first such attribute |
| Records.DispatchAllSucceeds | model/record.py:46-54 | the loop succeeds exactly when every annotation carries the attributes its tag requires |
| Records.DispatchAllFirstError | model/dataset.py:74-82 | a failing loop reports the first missing attribute of the first ill-formed annotation |
| Records.DispatchAllFactors | model/dataset.py:74-76 | `factors` is exactly the decoded risk-factor-tagged children, in document order |
| Records.DecodeConditionsAt | model/record.py:47-48 | the decoded conditions correspond one to one, position by position, to the risk-factor children |
| Records.FactorNamesRecognised | model/dataset.py:55-76 | every factor's name is one of the five risk-factor tags |
| Records.DispatchAllMedicines | model/dataset.py:77-78 | `medicines` is exactly the decoded `MEDICATION` children, in document order |
| Records.DecodeMedicationsAt | model/record.py:49-50 | the decoded medications correspond one to one, position by position, to the `MEDICATION` children |
| Records.DispatchAllSmoker | model/dataset.py:79-80 | `smoker` is the `status` of the last `SMOKER` child, and stays as it was (`"unknown"`) when there is none |
| Records.DispatchAllFamilyHistory | model/dataset.py:81-82 | `fam_hist` is whether the last `FAMILY_HIST` child's `indicator` is exactly `"present"`, and stays as it was (false) when there is none |
| Records.UnrecognisedIgnored | model/record.py:46-54 | inserting an annotation with any other tag anywhere changes neither the outcome nor any field |
| Records.LastWinsExample | model/record.py:51-54 | `SMOKER current`, `FAMILY_HIST present`, `SMOKER never` give smoker `"never"` and family history true |
| Records.ParseRecord | model/dataset.py:57-82 | the constructor's loop, with the fields it appends to and overwrites, computes exactly `Parse(root)` |
| Records.ParseFailures | model/dataset.py:62-74 | missing narrative element, narrative without text and missing annotation element fail in that order; success exactly when all three are present and every annotation is well formed |
| Records.ParseNarrative | model/record.py:56-58 | the record's `text` is the narrative unstripped, and its date is the one extracted from that text |
| Patients.Patient.constructor | model/dataset.py:104-106 | a new patient has the given id and no records |
| Patients.Patient.AddRecord | model/dataset.py:108-109 | the record is appended at the end, nothing removed or deduplicated |
| Patients.Patient.FactorIndicator | model/dataset.py:111-120 | true exactly when some record has some factor with both the given name and the given indicator |
| Patients.NoRecordsNoIndicator | model/dataset.py:116-120 | a patient without records indicates nothing |
| Patients.IndicatesPermutation | model/dataset.py:113-115 | permuting the records does not change the indicator |
| Patients.IndicatesAppend | model/dataset.py:108-109 | after appending a record the indicator holds exactly when it held before or the new record matches |
| Patients.Patient.Text | model/dataset.py:122-125 | the narratives back to back, in record order, with no separator: the length is the sum of the narratives' lengths, and record k's narrative sits right after those of records 0..k-1 |
| Patients.JoinTextsAppend | model/dataset.py:122-125 | the joined text of two record lists is the concatenation of their joined texts |
| Patients.JoinTextsSplit | model/dataset.py:125 | each record's narrative appears whole in the patient text, between the texts of the records before and after it |
| Datasets.PatientKey | model/dataset.py:138 | the key is a prefix of the file name with no hyphen, and is followed in the name by a hyphen unless it is the whole name |
| Datasets.PatientKeyExample | model/dataset.py:138 | `100-01.xml` and `100-02.xml` both have key `100` |
| Datasets.PatientKeyWholeName | model/dataset.py:138 | `200.xml` has key `200.xml` |
| Datasets.ReadEntry | model/dataset.py:143 | `Record(file_path)` on one entry: `MalformedDocument` for a document that does not parse, otherwise the record parsed from its root |
| Datasets.Dataset.Empty | model/dataset.py:134 | the dictionary starts empty |
| Datasets.Dataset.EnsurePatient | model/dataset.py:140-141 | a new key gets a fresh patient with that id and no records, placed last in key order; a known key changes nothing |
| Datasets.Dataset.Append | model/dataset.py:143 | the record is appended to that key's patient, and every other patient and the key order are unchanged |
| Datasets.AssignInSteps | model/dataset.py:140-143 | creating on first sight and then appending files the record under its key, a new key being added last |
| Datasets.Dataset.AddEntry | model/dataset.py:137-143 | a non-file changes nothing; a file fails exactly when its record fails, with that error; otherwise its record is filed under its key |
| Datasets.Dataset.Load | model/dataset.py:133-143 | fails exactly when the scan fails, with the same error; otherwise the new dictionary is exactly the grouping of the scanned visits |
| Datasets.ScanSucceeds | model/dataset.py:136-143 | construction succeeds exactly when every regular file parses; sub-directories are skipped |
| Datasets.ScanFirstError | model/dataset.py:143 | construction fails with the error of the first regular file that does not parse |
| Datasets.ScanVisits | model/dataset.py:136-138 | a successful scan has one visit per regular file, in listing order, keyed by its name |
| Datasets.GroupShape | model/dataset.py:136-141 | the keys are distinct, are exactly the keys in `order`, and are exactly the patients with at least one file |
| Datasets.GroupBuckets | model/dataset.py:140-143 | every patient's records are exactly its files' records in discovery order, and there is at least one |
| Datasets.GroupOrder | model/dataset.py:140-141 | keys are in order of each patient's first file |
| Datasets.GroupingExample | model/dataset.py:138-143 | two visits of `100` and one of `200.xml` give keys `100`, `200.xml`, where `100` holds both records in order |
| Datasets.Dataset.At | model/dataset.py:146-147 | `list(values())[index]` succeeds exactly for `-n <= index < n`, counting negative indices from the end; otherwise `IndexError` |
| Datasets.Dataset.Texts | model/dataset.py:153-156 | one text per patient, in key order: the i-th is the text of patient i |
| Datasets.Dataset.Labels | model/dataset.py:149-151 | one label per patient, in the same key order as `Texts`: 1 when that patient has a factor with that name and indicator, else 0 |

## Left out

- The data model differs from the source in four ways:
  - A record is a value (`Records.Record`) rather than an object holding its parsed tree. Nothing mutates a record after construction, and `text` is read from the unchanged tree, so the narrative is kept as a field.
  - `Condition` and `Medication` are values for the same reason.
  - The insertion-ordered `dict` is a key sequence plus a map. `Dataset.Valid` keeps the two in step.
  - `Labels` and `Texts` are functions of the patients' records. `Labels` uses the predicate `Indicates`, and `Patient.FactorIndicator` is proved equivalent to it.
- `ET.parse` is a library call, and XML parsing is not modelled. A file arrives as its parsed root element, or as no element when it is not well-formed XML.
- `Path.iterdir` and `is_file` are I/O. The directory listing is a given sequence of entries, in the order the listing yields them.
- The `print` call in `Dataset.__init__`, `print_data`, and every `__repr__`/`__str__` are output formatting only.
- `model/model.py`, `model/visualizer.py` and `model/main.py` are not part of this model. They hold tokenisation, vectorisation, logistic regression over floating point, chart drawing and command-line plumbing.
- Dates.ParseIsoDate: accepts only `YYYY-MM-DD`. Newer Python versions of `fromisoformat` also accept the compact `YYYYMMDD` form and ISO week dates that fit in the 10-character window.
- Datasets.Dataset.At: takes an integer index only. A slice or a non-integer index passed to `__getitem__` is not modelled.
- A failing file aborts construction, as the uncaught exception does in the source. The partly built dictionary, including the patient just created for that file, is discarded and not observable.
- `Datasets.Dataset.Valid` does not itself require every patient to have a record. That fact holds after `Load` through `Datasets.GroupBuckets` applied to `Load`'s result.
