/**
 * `_ProcessAnalysisData`: merging the analysis descriptions of a JSON document into the
 * two-level store study -> analysis -> record that the rest of the pipeline fills in.
 */
module Store {
  import opened Wrappers
  import opened Text
  import opened OrderedDicts
  import opened DataTable
  import opened Frames

  /** A value of the analysis document: a string, an object, or anything else (kept as is). */
  datatype Json = JString(s: string) | JObject(members: Dict<string, Json>) | JOther(text: string)

  /** What the table step adds to a record: `class_names_to_nums` and `data_frame`. */
  datatype AnalysisResults = AnalysisResults(classNamesToNums: ClassMap, dataFrame: Frame)

  /** One analysis: its descriptive fields, and its results once its table is read. */
  datatype AnalysisRecord = AnalysisRecord(fields: Dict<string, Json>, results: Option<AnalysisResults>)

  type Analyses = Dict<string, AnalysisRecord>

  /** `StudiesResultsData`. */
  type Studies = Dict<string, Analyses>

  /** Both levels are well-formed dictionaries. */
  ghost predicate ValidStudies(st: Studies)
  {
    st.Valid() && forall s :: s in st.vals ==> st.vals[s].Valid()
  }

  /** An entry of the document: an object naming its study and its analysis by strings. */
  ghost predicate IsEntry(e: Json)
  {
    && e.JObject?
    && e.members.Valid()
    && "study_id" in e.members.vals && e.members.vals["study_id"].JString?
    && "analysis_id" in e.members.vals && e.members.vals["analysis_id"].JString?
  }

  function StudyOf(e: Json): string
    requires IsEntry(e)
  {
    e.members.vals["study_id"].s
  }

  function AnalysisOf(e: Json): string
    requires IsEntry(e)
  {
    e.members.vals["analysis_id"].s
  }

  /** A document with a top-level `study_id` is a single entry, filed under "1". */
  function EntryDict(doc: Dict<string, Json>): (d: Dict<string, Json>)
    requires doc.Valid()
    ensures d.Valid()
  {
    if "study_id" in doc.vals then Dict(["1"], map["1" := JObject(doc)]) else doc
  }

  /** The values of a dictionary, in key order. */
  function Values(d: Dict<string, Json>): (vs: seq<Json>)
    requires d.Valid()
    ensures |vs| == |d.keys|
  {
    seq(|d.keys|, i requires 0 <= i < |d.keys| => d.vals[d.keys[i]])
  }

  /** The entries the merge visits, in order. */
  function Entries(doc: Dict<string, Json>): seq<Json>
    requires doc.Valid()
  {
    Values(EntryDict(doc))
  }

  /** What the merge demands of its document: every entry names a study and an analysis. */
  ghost predicate WellFormedDoc(doc: Dict<string, Json>)
  {
    doc.Valid() && forall e :: e in Entries(doc) ==> IsEntry(e)
  }

  /** `re.match("^(study_id|analysis_id)$", DataType, re.I)`. */
  predicate IsIdField(name: string)
  {
    FullMatchIgnoringCase(name, "study_id") || FullMatchIgnoringCase(name, "analysis_id")
  }

  /** The keys among `keys` that do not name the study or the analysis, in order. */
  function NonIdKeys(keys: seq<string>): (r: seq<string>)
    ensures forall k :: k in r <==> k in keys && !IsIdField(k)
  {
    if |keys| == 0 then []
    else
      var init, k := keys[..|keys| - 1], keys[|keys| - 1];
      assert keys == init + [k];
      NonIdKeys(init) + (if IsIdField(k) then [] else [k])
  }

  /** The filter keeps the fields in their order: it works piece by piece. */
  lemma {:induction false} NonIdKeysAppend(a: seq<string>, b: seq<string>)
    ensures NonIdKeys(a + b) == NonIdKeys(a) + NonIdKeys(b)
  {
    if |b| == 0 {
      assert a + b == a;
    } else {
      var init, k := b[..|b| - 1], b[|b| - 1];
      assert b == init + [k];
      NonIdKeysAppend(a, init);
      NonIdKeysAppendStep(a, init, k);
    }
  }

  lemma NonIdKeysAppendStep(a: seq<string>, init: seq<string>, k: string)
    requires NonIdKeys(a + init) == NonIdKeys(a) + NonIdKeys(init)
    ensures NonIdKeys(a + (init + [k])) == NonIdKeys(a) + NonIdKeys(init + [k])
  {
    SeqConcatAssoc(a, init, [k]);
    NonIdKeysSnoc(a + init, k);
    NonIdKeysSnoc(init, k);
    SeqConcatAssoc(NonIdKeys(a), NonIdKeys(init), if IsIdField(k) then [] else [k]);
  }

  lemma SeqConcatAssoc<T>(x: seq<T>, y: seq<T>, z: seq<T>)
    ensures x + (y + z) == (x + y) + z
  {
  }

  lemma NonIdKeysSnoc(keys: seq<string>, k: string)
    ensures NonIdKeys(keys + [k]) == NonIdKeys(keys) + (if IsIdField(k) then [] else [k])
  {
    assert (keys + [k])[..|keys|] == keys;
  }

  /** One field: kept exactly when it names neither the study nor the analysis. */
  lemma NonIdKeysOne(k: string)
    ensures NonIdKeys([k]) == if IsIdField(k) then [] else [k]
  {
    assert [k][..0] == [];
  }

  /**
   * The record the loop over the first `n` fields of an entry builds: every field
   * except `study_id` and `analysis_id` (in any letter case), in order, with its value.
   */
  function AnalysisFields(fields: Dict<string, Json>, n: nat): (r: Dict<string, Json>)
    requires fields.Valid() && n <= |fields.keys|
    ensures r.Valid()
    ensures r.keys == NonIdKeys(fields.keys[..n])
    ensures forall k :: k in r.vals ==> k in fields.vals && r.vals[k] == fields.vals[k]
  {
    if n == 0 then Empty()
    else
      var r := AnalysisFields(fields, n - 1);
      var k := fields.keys[n - 1];
      assert fields.keys[..n] == fields.keys[..n - 1] + [k];
      assert k !in fields.keys[..n - 1];
      if IsIdField(k) then r else Put(r, k, fields.vals[k])
  }

  lemma AnalysisFieldsStep(fields: Dict<string, Json>, n: nat)
    requires fields.Valid() && n < |fields.keys|
    ensures var k := fields.keys[n];
      && k in fields.vals
      && AnalysisFields(fields, n + 1)
         == if IsIdField(k) then AnalysisFields(fields, n) else Put(AnalysisFields(fields, n), k, fields.vals[k])
  {
  }

  /** The record an entry is filed as: all its non-identifying fields, no results yet. */
  function RecordOf(e: Json): AnalysisRecord
    requires IsEntry(e)
  {
    AnalysisRecord(AnalysisFields(e.members, |e.members.keys|), None)
  }

  /** `StudiesResultsData[s][a] = rec`, creating an empty study `s` first when it is new. */
  function FileRecord(st: Studies, s: string, a: string, rec: AnalysisRecord): (r: Studies)
    requires ValidStudies(st)
    ensures ValidStudies(r)
  {
    var analyses: Analyses := if s in st.vals then st.vals[s] else Empty();
    Put(st, s, Put(analyses, a, rec))
  }

  /** One pass of the merge loop: the entry's record is filed under its study and analysis. */
  function MergeEntry(st: Studies, e: Json): (r: Studies)
    requires ValidStudies(st) && IsEntry(e)
    ensures ValidStudies(r)
  {
    FileRecord(st, StudyOf(e), AnalysisOf(e), RecordOf(e))
  }

  function MergeEntries(st: Studies, es: seq<Json>): (r: Studies)
    requires ValidStudies(st) && forall i :: 0 <= i < |es| ==> IsEntry(es[i])
    ensures ValidStudies(r)
  {
    if |es| == 0 then st
    else MergeEntry(MergeEntries(st, es[..|es| - 1]), es[|es| - 1])
  }

  /** What `_ProcessAnalysisData(StudiesResultsData, AnalysisData)` leaves in the store. */
  function MergeAnalysisData(st: Studies, doc: Dict<string, Json>): (r: Studies)
    requires ValidStudies(st) && WellFormedDoc(doc)
    ensures ValidStudies(r)
  {
    var es := Entries(doc);
    assert forall i :: 0 <= i < |es| ==> es[i] in es;
    MergeEntries(st, es)
  }

  /** Some entry names study `s`. */
  ghost predicate NamesStudy(es: seq<Json>, s: string)
  {
    exists i :: 0 <= i < |es| && IsEntry(es[i]) && StudyOf(es[i]) == s
  }

  /** The position of the last entry naming study `s` and analysis `a`, or -1. */
  function LastFor(es: seq<Json>, s: string, a: string): (k: int)
    requires forall i :: 0 <= i < |es| ==> IsEntry(es[i])
    ensures -1 <= k < |es|
    ensures k >= 0 ==> StudyOf(es[k]) == s && AnalysisOf(es[k]) == a
    ensures forall i :: k < i < |es| ==> !(StudyOf(es[i]) == s && AnalysisOf(es[i]) == a)
  {
    if |es| == 0 then -1
    else
      var e := es[|es| - 1];
      if StudyOf(e) == s && AnalysisOf(e) == a then |es| - 1
      else LastFor(es[..|es| - 1], s, a)
  }

  // ---------------------------------------------------------------------------
  // What the merge does, study by study and analysis by analysis
  // ---------------------------------------------------------------------------

  /** Filing a record touches only the study it names. */
  lemma FileRecordStudy(st: Studies, s: string, a: string, rec: AnalysisRecord, t: string)
    requires ValidStudies(st)
    ensures var r := FileRecord(st, s, a, rec);
      && (t in r.vals <==> t in st.vals || t == s)
      && (t != s && t in st.vals ==> r.vals[t] == st.vals[t])
  {
  }

  /** `StudiesResultsData[s][a]`, when both keys are present. */
  function Filed(st: Studies, s: string, a: string): Option<AnalysisRecord>
  {
    if s in st.vals && a in st.vals[s].vals then Some(st.vals[s].vals[a]) else None
  }

  /** Filing a record under `s` and `a` replaces that one record and no other. */
  lemma FileRecordFiled(st: Studies, s: string, a: string, rec: AnalysisRecord, t: string, b: string)
    requires ValidStudies(st)
    ensures Filed(FileRecord(st, s, a, rec), t, b) == if t == s && b == a then Some(rec) else Filed(st, t, b)
  {
  }

  /** The entries before the last one. */
  lemma MergeEntriesSnoc(st: Studies, es: seq<Json>)
    requires ValidStudies(st) && forall i :: 0 <= i < |es| ==> IsEntry(es[i])
    requires |es| > 0
    ensures forall i :: 0 <= i < |es| - 1 ==> es[..|es| - 1][i] == es[i]
    ensures MergeEntries(st, es) == MergeEntry(MergeEntries(st, es[..|es| - 1]), es[|es| - 1])
  {
  }

  /**
   * A study is in the merged store exactly when it was there already or an entry
   * names it; a study no entry names keeps all its analyses unchanged.
   */
  lemma {:induction false} MergedStudies(st: Studies, es: seq<Json>, s: string)
    requires ValidStudies(st) && forall i :: 0 <= i < |es| ==> IsEntry(es[i])
    ensures var r := MergeEntries(st, es);
      && (s in r.vals <==> s in st.vals || NamesStudy(es, s))
      && (s in st.vals && !NamesStudy(es, s) ==> r.vals[s] == st.vals[s])
  {
    if |es| > 0 {
      var init, e := es[..|es| - 1], es[|es| - 1];
      MergeEntriesSnoc(st, es);
      MergedStudies(st, init, s);
      FileRecordStudy(MergeEntries(st, init), StudyOf(e), AnalysisOf(e), RecordOf(e), s);
      NamesStudySnoc(es, s);
    }
  }

  lemma NamesStudySnoc(es: seq<Json>, s: string)
    requires forall i :: 0 <= i < |es| ==> IsEntry(es[i])
    requires |es| > 0
    ensures NamesStudy(es, s) <==> NamesStudy(es[..|es| - 1], s) || StudyOf(es[|es| - 1]) == s
  {
    var init := es[..|es| - 1];
    if NamesStudy(init, s) {
      var i :| 0 <= i < |init| && IsEntry(init[i]) && StudyOf(init[i]) == s;
      assert es[i] == init[i];
    }
    if NamesStudy(es, s) && StudyOf(es[|es| - 1]) != s {
      var i :| 0 <= i < |es| && IsEntry(es[i]) && StudyOf(es[i]) == s;
      assert i < |init|;
      assert init[i] == es[i];
    }
  }

  lemma LastForSnoc(es: seq<Json>, s: string, a: string)
    requires forall i :: 0 <= i < |es| ==> IsEntry(es[i])
    requires |es| > 0
    ensures var e := es[|es| - 1];
      LastFor(es, s, a) == if StudyOf(e) == s && AnalysisOf(e) == a then |es| - 1 else LastFor(es[..|es| - 1], s, a)
  {
  }

  /**
   * In the merged store, the record under study `s` and analysis `a` is that of the
   * last entry naming both; when no entry names them, it is what was there before
   * (or absent).
   */
  lemma {:induction false} MergedAnalyses(st: Studies, es: seq<Json>, s: string, a: string)
    requires ValidStudies(st) && forall i :: 0 <= i < |es| ==> IsEntry(es[i])
    ensures var k := LastFor(es, s, a);
      Filed(MergeEntries(st, es), s, a) == if k >= 0 then Some(RecordOf(es[k])) else Filed(st, s, a)
  {
    if |es| > 0 {
      var init, e := es[..|es| - 1], es[|es| - 1];
      MergeEntriesSnoc(st, es);
      MergedAnalyses(st, init, s, a);
      FileRecordFiled(MergeEntries(st, init), StudyOf(e), AnalysisOf(e), RecordOf(e), s, a);
      LastForSnoc(es, s, a);
    }
  }

  /** `a` is a prefix of `b`. */
  predicate IsPrefix<T(==)>(a: seq<T>, b: seq<T>)
  {
    |a| <= |b| && b[..|a|] == a
  }

  lemma PrefixTransitive(a: seq<string>, b: seq<string>, c: seq<string>)
    requires IsPrefix(a, b) && IsPrefix(b, c)
    ensures IsPrefix(a, c)
  {
    assert c[..|a|] == c[..|b|][..|a|];
  }

  /** Filing a record appends its study (if new) and its analysis (if new) at the end. */
  lemma FileRecordOrder(st: Studies, s: string, a: string, rec: AnalysisRecord, t: string)
    requires ValidStudies(st)
    ensures var r := FileRecord(st, s, a, rec);
      && IsPrefix(st.keys, r.keys)
      && (t in st.vals ==> t in r.vals && IsPrefix(st.vals[t].keys, r.vals[t].keys))
  {
    var analyses: Analyses := if s in st.vals then st.vals[s] else Empty();
    var inner := Put(analyses, a, rec);
    PutPrefix(st, s, inner);
    if t == s {
      PutPrefix(analyses, a, rec);
    }
  }

  /** `d[k] = v` keeps the existing keys at the front. */
  lemma PutPrefix<V>(d: Dict<string, V>, k: string, v: V)
    requires d.Valid()
    ensures IsPrefix(d.keys, Put(d, k, v).keys)
  {
    if k !in d.vals {
      assert (d.keys + [k])[..|d.keys|] == d.keys;
    }
  }

  /** The merge only appends studies: those already in the store keep their order at the front. */
  lemma {:induction false} MergeKeepsStudyOrder(st: Studies, es: seq<Json>)
    requires ValidStudies(st) && forall i :: 0 <= i < |es| ==> IsEntry(es[i])
    ensures IsPrefix(st.keys, MergeEntries(st, es).keys)
  {
    if |es| > 0 {
      var init, e := es[..|es| - 1], es[|es| - 1];
      MergeEntriesSnoc(st, es);
      MergeKeepsStudyOrder(st, init);
      var r0 := MergeEntries(st, init);
      FileRecordOrder(r0, StudyOf(e), AnalysisOf(e), RecordOf(e), "");
      PrefixTransitive(st.keys, r0.keys, MergeEntries(st, es).keys);
    }
  }

  /** The study IDs the entries name, in entry order. */
  function StudyIdsOf(es: seq<Json>): (ids: seq<string>)
    requires forall i :: 0 <= i < |es| ==> IsEntry(es[i])
    ensures |ids| == |es|
    ensures forall i :: 0 <= i < |es| ==> ids[i] == StudyOf(es[i])
  {
    if |es| == 0 then []
    else StudyIdsOf(es[..|es| - 1]) + [StudyOf(es[|es| - 1])]
  }

  /** The IDs of `ids` not in `known`, each once, in the order of their first appearance. */
  function FirstAppearances(known: seq<string>, ids: seq<string>): (r: seq<string>)
    ensures forall x :: x in r <==> x in ids && x !in known
    ensures forall i, j :: 0 <= i < j < |r| ==> r[i] != r[j]
    decreases |ids|
  {
    if |ids| == 0 then []
    else
      assert ids == [ids[0]] + ids[1..];
      if ids[0] in known then FirstAppearances(known, ids[1..])
      else
        var rest := FirstAppearances(known + [ids[0]], ids[1..]);
        assert forall j :: 0 <= j < |rest| ==> rest[j] in rest && rest[j] != ids[0];
        [ids[0]] + rest
  }

  /** Looking at one more ID appends it when it is neither known nor seen before. */
  lemma {:induction false} FirstAppearancesSnoc(known: seq<string>, ids: seq<string>, x: string)
    ensures var n := FirstAppearances(known, ids);
      FirstAppearances(known, ids + [x]) == n + (if x in known || x in n then [] else [x])
    decreases |ids|
  {
    if |ids| == 0 {
      assert [x][1..] == [];
    } else {
      assert (ids + [x])[0] == ids[0];
      assert (ids + [x])[1..] == ids[1..] + [x];
      if ids[0] in known {
        FirstAppearancesSnoc(known, ids[1..], x);
      } else {
        FirstAppearancesSnoc(known + [ids[0]], ids[1..], x);
      }
    }
  }

  /**
   * The merged store lists the studies it had, then the new studies in the order in
   * which the entries first name them.
   */
  lemma {:induction false} MergedStudyOrder(st: Studies, es: seq<Json>)
    requires ValidStudies(st) && forall i :: 0 <= i < |es| ==> IsEntry(es[i])
    ensures MergeEntries(st, es).keys == st.keys + FirstAppearances(st.keys, StudyIdsOf(es))
  {
    if |es| > 0 {
      var init, e := es[..|es| - 1], es[|es| - 1];
      MergeEntriesSnoc(st, es);
      StudyIdsOfSnoc(es);
      MergedStudyOrder(st, init);
      FileNewStudy(st.keys, StudyIdsOf(init), MergeEntries(st, init), StudyOf(e), AnalysisOf(e), RecordOf(e));
    }
  }

  /** One more entry: its study is appended when it is neither known nor named before. */
  lemma FileNewStudy(known: seq<string>, ids: seq<string>, r0: Studies, s: string, a: string, rec: AnalysisRecord)
    requires ValidStudies(r0) && r0.keys == known + FirstAppearances(known, ids)
    ensures FileRecord(r0, s, a, rec).keys == known + FirstAppearances(known, ids + [s])
  {
    FirstAppearancesSnoc(known, ids, s);
    FileRecordKeys(r0, s, a, rec);
    AppendNewStudy(known, FirstAppearances(known, ids), r0.keys, s);
  }

  lemma StudyIdsOfSnoc(es: seq<Json>)
    requires forall i :: 0 <= i < |es| ==> IsEntry(es[i])
    requires |es| > 0
    ensures StudyIdsOf(es) == StudyIdsOf(es[..|es| - 1]) + [StudyOf(es[|es| - 1])]
  {
  }

  /** Filing a record appends its study to the keys when the study is new. */
  lemma FileRecordKeys(st: Studies, s: string, a: string, rec: AnalysisRecord)
    requires ValidStudies(st)
    ensures FileRecord(st, s, a, rec).keys == if s in st.keys then st.keys else st.keys + [s]
  {
  }

  lemma AppendNewStudy(known: seq<string>, n: seq<string>, keys: seq<string>, s: string)
    requires keys == known + n
    ensures (if s in keys then keys else keys + [s])
      == known + (n + (if s in known || s in n then [] else [s]))
  {
  }

  /** The analyses already filed under a study keep their order at the front. */
  lemma {:induction false} MergeKeepsAnalysisOrder(st: Studies, es: seq<Json>, s: string)
    requires ValidStudies(st) && forall i :: 0 <= i < |es| ==> IsEntry(es[i])
    requires s in st.vals
    ensures s in MergeEntries(st, es).vals
    ensures IsPrefix(st.vals[s].keys, MergeEntries(st, es).vals[s].keys)
  {
    if |es| > 0 {
      var init, e := es[..|es| - 1], es[|es| - 1];
      MergeEntriesSnoc(st, es);
      MergeKeepsAnalysisOrder(st, init, s);
      var r0 := MergeEntries(st, init);
      FileRecordOrder(r0, StudyOf(e), AnalysisOf(e), RecordOf(e), s);
      PrefixTransitive(st.vals[s].keys, r0.vals[s].keys, MergeEntries(st, es).vals[s].keys);
    }
  }

  /** A document with a top-level `study_id` is merged as one single entry. */
  lemma SingleStudyDocument(st: Studies, doc: Dict<string, Json>)
    requires ValidStudies(st) && WellFormedDoc(doc) && "study_id" in doc.vals
    ensures IsEntry(JObject(doc))
    ensures MergeAnalysisData(st, doc) == MergeEntry(st, JObject(doc))
  {
    var es := Entries(doc);
    assert es == [JObject(doc)];
    assert MergeEntries(st, es[..0]) == st by { assert es[..0] == []; }
    assert MergeEntries(st, es) == MergeEntry(st, JObject(doc));
  }

  /**
   * Creating an empty study first and then filing the record under it gives the
   * store `MergeEntry` describes.
   */
  lemma FilingInTwoSteps(st: Studies, studyId: string, analysisId: string, record: AnalysisRecord)
    requires ValidStudies(st)
    ensures var st1 := if studyId in st.vals then st else Put(st, studyId, Empty());
      && ValidStudies(st1) && studyId in st1.vals
      && Put(st1, studyId, Put(st1.vals[studyId], analysisId, record)) == FileRecord(st, studyId, analysisId, record)
  {
    if studyId !in st.vals {
      var st1 := Put(st, studyId, Empty());
      var inner := Put(Empty<string, AnalysisRecord>(), analysisId, record);
      assert st1.vals[studyId] == Empty();
      assert st1.keys == st.keys + [studyId];
      assert Put(st1, studyId, inner).vals == st.vals[studyId := inner];
    }
  }

  lemma EntriesAreEntries(doc: Dict<string, Json>)
    requires WellFormedDoc(doc)
    ensures forall i :: 0 <= i < |Entries(doc)| ==> IsEntry(Entries(doc)[i])
  {
    var es := Entries(doc);
    forall i | 0 <= i < |es| ensures IsEntry(es[i]) {
      assert es[i] in es;
    }
  }

  lemma MergePrefixStep(st: Studies, es: seq<Json>, n: nat)
    requires ValidStudies(st) && forall i :: 0 <= i < |es| ==> IsEntry(es[i])
    requires n < |es|
    ensures MergeEntries(st, es[..n + 1]) == MergeEntry(MergeEntries(st, es[..n]), es[n])
  {
    assert es[..n + 1][..n] == es[..n];
  }

  /** The store `_ProcessAnalysisData` updates in place. */
  class StudyResultsStore {
    var studies: Studies

    ghost predicate Valid()
      reads this
    {
      ValidStudies(studies)
    }

    constructor ()
      ensures Valid() && studies == Empty()
    {
      studies := Empty();
    }

    /** `_ProcessAnalysisData(StudiesResultsData, AnalysisData)`. */
    method ProcessAnalysisData(analysisData: Dict<string, Json>)
      requires Valid() && WellFormedDoc(analysisData)
      modifies this
      ensures Valid()
      ensures studies == MergeAnalysisData(old(studies), analysisData)
    {
      var entries := analysisData;
      if "study_id" in analysisData.vals {
        entries := Dict(["1"], map["1" := JObject(analysisData)]);
      }
      ghost var es := Entries(analysisData);
      EntriesAreEntries(analysisData);
      assert Values(entries) == es;
      var n := 0;
      while n < |entries.keys|
        invariant n <= |entries.keys| && Valid()
        invariant studies == MergeEntries(old(studies), es[..n])
      {
        var entry := entries.vals[entries.keys[n]];
        MergePrefixStep(old(studies), es, n);
        FileEntry(entry);
        n := n + 1;
      }
      assert es[..n] == es;
    }

    /** One pass of the loop over the entries: file the entry's fields under its study and analysis. */
    method FileEntry(entry: Json)
      requires Valid() && IsEntry(entry)
      modifies this
      ensures Valid()
      ensures studies == MergeEntry(old(studies), entry)
    {
      var studyId := entry.members.vals["study_id"].s;
      var analysisId := entry.members.vals["analysis_id"].s;
      FilingInTwoSteps(studies, studyId, analysisId, RecordOf(entry));
      if studyId !in studies.vals {
        studies := Put(studies, studyId, Empty());
      }
      var fields := RecordFields(entry.members);
      studies := Put(studies, studyId, Put(studies.vals[studyId], analysisId, AnalysisRecord(fields, None)));
    }

    /** The loop over the fields of one entry. */
    static method RecordFields(members: Dict<string, Json>) returns (fields: Dict<string, Json>)
      requires members.Valid()
      ensures fields == AnalysisFields(members, |members.keys|)
    {
      fields := Empty();
      var k := 0;
      while k < |members.keys|
        invariant k <= |members.keys|
        invariant fields == AnalysisFields(members, k)
      {
        var dataType := members.keys[k];
        AnalysisFieldsStep(members, k);
        if !IsIdField(dataType) {
          fields := Put(fields, dataType, members.vals[dataType]);
        }
        k := k + 1;
      }
    }
  }
}
