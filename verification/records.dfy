/** Appointment rows and the cleaning step in front of graph construction
    (`sample_data_for_network` and `clean_for_network`, which are identical in
    data_prep.py, data_prep_leiden.py and webapp.py). Rows arrive already
    coerced: codes are stripped strings, `AGE` is a number or missing. */
module Records {
  import opened Common

  /** One row of the extract after column coercion; every field may be missing. */
  datatype RawRecord = RawRecord(
    patientKey: Text,
    age: Option<real>,
    patientOrg: Text,
    attendance: Text,
    outcome: Text,
    postcode: Text,
    appointmentDate: Option<int>,   // an abstract day number; <NaT> is None
    providerOrg: Text,
    siteCode: Text,
    providerLocation: Text,
    treatmentFunction: Text,
    referringOrg: Text)

  /** A row that survived cleaning: both keys present, attendance code filled
      in; its DNA flag is derived from that code by `DnaFlagOf`. */
  datatype CleanRecord = CleanRecord(
    patient: string,
    site: string,
    age: Option<real>,
    patientOrg: Text,
    attendance: string,
    outcome: Text,
    postcode: Text,
    appointmentDate: Option<int>,
    providerOrg: Text,
    providerLocation: Text,
    treatmentFunction: Text,
    referringOrg: Text)

  /** The attendance codes that count as "did not attend": 3 (did not attend)
      and 7 (arrived late, could not be seen). */
  predicate IsDnaCode(code: string)
  {
    code == "3" || code == "7"
  }

  function DnaFlag(code: string): nat
  {
    if IsDnaCode(code) then 1 else 0
  }

  /** Of the NHS attendance vocabulary, exactly codes 3 and 7 raise the flag;
      cancellations (2, 4), attendances (5, 6) and the fill value 0 do not. */
  lemma DnaFlagVocabulary()
    ensures DnaFlag("3") == 1 && DnaFlag("7") == 1
    ensures DnaFlag("0") == 0 && DnaFlag("2") == 0 && DnaFlag("4") == 0
    ensures DnaFlag("5") == 0 && DnaFlag("6") == 0
  {
  }

  /** The `DNA_FLAG` column, derived from the filled attendance code. */
  function DnaFlagOf(r: CleanRecord): nat
  {
    DnaFlag(r.attendance)
  }

  predicate HasKeys(r: RawRecord)
  {
    r.patientKey.Some? && r.siteCode.Some?
  }

  function FillAttendance(code: Text): string
  {
    match code
    case None => "0"
    case Some(c) => c
  }

  function CleanRow(r: RawRecord): CleanRecord
    requires HasKeys(r)
  {
    var code := FillAttendance(r.attendance);
    CleanRecord(r.patientKey.value, r.siteCode.value, r.age, r.patientOrg, code,
                r.outcome, r.postcode, r.appointmentDate, r.providerOrg, r.providerLocation,
                r.treatmentFunction, r.referringOrg)
  }

  /** `clean_for_network`: drop rows missing a patient key or a site code, fill
      a missing attendance code with "0", and flag codes 3 and 7 as DNA. */
  function CleanForNetwork(rows: seq<RawRecord>): (out: seq<CleanRecord>)
    ensures |out| == Count(rows, HasKeys)
    ensures forall i :: 0 <= i < |out| ==> DnaFlagOf(out[i]) <= 1
    ensures forall i :: 0 <= i < |out| ==> (DnaFlagOf(out[i]) == 1 <==> IsDnaCode(out[i].attendance))
    ensures forall r :: r in rows && HasKeys(r) ==> CleanRow(r) in out
    ensures forall r :: r in rows && HasKeys(r) && r.attendance.None? ==>
              CleanRow(r).attendance == "0" && DnaFlagOf(CleanRow(r)) == 0
  {
    var kept := Filter(rows, HasKeys);
    var out := seq(|kept|, i requires 0 <= i < |kept| => CleanRow(kept[i]));
    assert forall r :: r in rows && HasKeys(r) ==> CleanRow(r) in out by {
      forall r | r in rows && HasKeys(r)
        ensures CleanRow(r) in out
      {
        assert r in kept;
        var i :| 0 <= i < |kept| && kept[i] == r;
        assert out[i] == CleanRow(r);
      }
    }
    out
  }

  /** Every cleaned record comes, in order, from a row that carried both keys
      and keeps that row's keys. */
  lemma CleanKeepsKeyedRowsInOrder(rows: seq<RawRecord>)
    ensures var out := CleanForNetwork(rows);
      var kept := Filter(rows, HasKeys);
      |out| == |kept| &&
      forall i :: 0 <= i < |out| ==>
        && kept[i].patientKey == Some(out[i].patient)
        && kept[i].siteCode == Some(out[i].site)
        && out[i].attendance == FillAttendance(kept[i].attendance)
  {
  }

  /** `sample_data_for_network`: a table within the bound is returned as is;
      otherwise `df.sample` draws `maxRecords` rows without replacement. The
      draw comes from a random number generator and is passed in as `drawn`. */
  function SampleForNetwork(rows: seq<RawRecord>, maxRecords: nat, drawn: seq<RawRecord>): (r: seq<RawRecord>)
    requires |rows| > maxRecords ==> |drawn| == maxRecords && multiset(drawn) <= multiset(rows)
    ensures |r| == if |rows| <= maxRecords then |rows| else maxRecords
    ensures multiset(r) <= multiset(rows)
    ensures |rows| <= maxRecords ==> r == rows
  {
    if |rows| <= maxRecords then rows else drawn
  }
}
