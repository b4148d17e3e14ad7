/**
 * `SetupUIFDataForStudiesAnalysisAndResults`: choosing, from the store, the studies and
 * analyses the user interface offers, with the metabolite and class names of each.
 */
module Uif {
  import opened Wrappers
  import opened OrderedDicts
  import opened DataTable
  import opened Frames
  import opened Store

  /** `StudiesUIFData`: "StudyIDs", "AnalysisIDs", "MetaboliteIDs" and "ClassIDs". */
  datatype UifData = UifData(
    studyIds: seq<string>,
    analysisIds: map<string, seq<string>>,
    metaboliteIds: map<string, map<string, seq<string>>>,
    classIds: map<string, map<string, seq<string>>>)

  function EmptyUif(): UifData
  {
    UifData([], map[], map[], map[])
  }

  /**
   * An analysis is offered when it has a data frame with more than three columns and,
   * when a minimum class count is given, at least that many classes.
   */
  predicate Qualifies(rec: AnalysisRecord, minClassCount: Option<int>)
  {
    && rec.results.Some?
    && |rec.results.value.dataFrame.columns| > 3
    && (minClassCount.Some? ==> |rec.results.value.classNamesToNums| >= minClassCount.value)
  }

  /** `ColumnNames[3:]`: the columns after Class, ClassNum and the first feature. */
  function MetaboliteNames(rec: AnalysisRecord): (names: seq<string>)
    ensures rec.results.None? ==> names == []
    ensures rec.results.Some? ==>
      var columns := rec.results.value.dataFrame.columns;
      && |names| == (if |columns| > 3 then |columns| - 3 else 0)
      && names == columns[|columns| - |names|..]
  {
    if rec.results.None? then []
    else
      var columns := rec.results.value.dataFrame.columns;
      if |columns| <= 3 then [] else columns[3..]
  }

  /** `list(class_names_to_nums)`: the class names in dictionary order. */
  function ClassNames(rec: AnalysisRecord): (names: seq<string>)
    ensures rec.results.None? ==> names == []
    ensures rec.results.Some? ==> |names| == |rec.results.value.classNamesToNums|
    ensures rec.results.Some? ==>
      forall i :: 0 <= i < |names| ==> names[i] == rec.results.value.classNamesToNums[i].name
  {
    if rec.results.None? then []
    else
      var m := rec.results.value.classNamesToNums;
      seq(|m|, i requires 0 <= i < |m| => m[i].name)
  }

  /** The keys among the first `n` of `keys` that `keep` accepts, in order. */
  function KeysWhere(keys: seq<string>, n: nat, keep: string -> bool): seq<string>
    requires n <= |keys|
  {
    if n == 0 then []
    else KeysWhere(keys, n - 1, keep) + (if keep(keys[n - 1]) then [keys[n - 1]] else [])
  }

  /**
   * Of distinct keys, `KeysWhere` lists exactly the accepted ones among the first `n`,
   * in the order of `keys`.
   */
  lemma {:induction false} KeysWhereSound(keys: seq<string>, n: nat, keep: string -> bool)
    requires n <= |keys| && forall j, k :: 0 <= j < k < |keys| ==> keys[j] != keys[k]
    ensures var r := KeysWhere(keys, n, keep);
      && (forall x :: x in r <==> x in keys[..n] && keep(x))
      && InKeyOrder(keys, r, n)
  {
    if n > 0 {
      var r0, x := KeysWhere(keys, n - 1, keep), keys[n - 1];
      assert keys[..n] == keys[..n - 1] + [x];
      if keep(x) {
        assert KeysWhere(keys, n, keep) == r0 + [x];
        KeysWhereSound(keys, n - 1, keep);
        InKeyOrderSnoc(keys, r0, n - 1);
      } else {
        assert KeysWhere(keys, n, keep) == r0;
        KeysWhereSound(keys, n - 1, keep);
      }
    }
  }

  /** The qualifying analyses among the first `n` of a study, in order. */
  function QualifyingAnalyses(analyses: Analyses, n: nat, minClassCount: Option<int>): seq<string>
    requires n <= |analyses.keys|
  {
    KeysWhere(analyses.keys, n, a => a in analyses.vals && Qualifies(analyses.vals[a], minClassCount))
  }

  /**
   * `ids` are keys among the first `n` of `keys`, listed in the order in which they
   * stand in `keys`.
   */
  ghost predicate InKeyOrder(keys: seq<string>, ids: seq<string>, n: nat)
  {
    && n <= |keys|
    && (forall i :: 0 <= i < |ids| ==> ids[i] in keys[..n])
    && (forall i, j, p, r :: 0 <= i < j < |ids| && 0 <= p < |keys| && 0 <= r < |keys| && keys[p] == ids[i] && keys[r] == ids[j] ==> p < r)
  }

  /** Listing the key at position `n` after keys listed in order keeps them in order. */
  lemma InKeyOrderSnoc(keys: seq<string>, ids: seq<string>, n: nat)
    requires n < |keys| && forall j, k :: 0 <= j < k < |keys| ==> keys[j] != keys[k]
    requires InKeyOrder(keys, ids, n)
    ensures InKeyOrder(keys, ids + [keys[n]], n + 1)
  {
    var ids' := ids + [keys[n]];
    forall i | 0 <= i < |ids'|
      ensures ids'[i] in keys[..n + 1]
    {
      if i < |ids| {
        assert ids'[i] == ids[i] && ids[i] in keys[..n];
        var p :| 0 <= p < n && keys[..n][p] == ids[i];
        assert keys[..n + 1][p] == ids[i];
      } else {
        assert keys[..n + 1][n] == ids'[i];
      }
    }
    forall i, j, p, r | 0 <= i < j < |ids'| && 0 <= p < |keys| && 0 <= r < |keys| && keys[p] == ids'[i] && keys[r] == ids'[j]
      ensures p < r
    {
      assert ids'[i] == ids[i];
      if j < |ids| {
        assert ids'[j] == ids[j];
      } else {
        assert keys[r] == keys[n];
        assert ids[i] in keys[..n];
        var p' :| 0 <= p' < n && keys[..n][p'] == ids[i];
        assert keys[p'] == keys[p];
      }
    }
  }

  /** Keys listed in order are listed once each. */
  lemma InKeyOrderNoRepeats(keys: seq<string>, ids: seq<string>, n: nat)
    requires InKeyOrder(keys, ids, n)
    ensures forall i, j :: 0 <= i < j < |ids| ==> ids[i] != ids[j]
  {
    forall i, j | 0 <= i < j < |ids|
      ensures ids[i] != ids[j]
    {
      assert ids[i] in keys[..n];
      var p :| 0 <= p < n && keys[..n][p] == ids[i];
      assert keys[p] == ids[i];
    }
  }

  /** The qualifying analyses of a whole study. */
  function Qualifying(analyses: Analyses, minClassCount: Option<int>): seq<string>
  {
    QualifyingAnalyses(analyses, |analyses.keys|, minClassCount)
  }

  /** A study offers exactly its qualifying analyses, each once, in the order of the study. */
  lemma QualifyingSound(analyses: Analyses, minClassCount: Option<int>)
    requires analyses.Valid()
    ensures var q := Qualifying(analyses, minClassCount);
      && (forall a :: a in q <==> a in analyses.vals && Qualifies(analyses.vals[a], minClassCount))
      && InKeyOrder(analyses.keys, q, |analyses.keys|)
  {
    KeysWhereSound(analyses.keys, |analyses.keys|, a => a in analyses.vals && Qualifies(analyses.vals[a], minClassCount));
    assert analyses.keys[..|analyses.keys|] == analyses.keys;
  }

  /** "MetaboliteIDs" of one study: `columns[3:]` of each of the analyses `q`. */
  function MetaboliteTable(analyses: Analyses, q: seq<string>): map<string, seq<string>>
  {
    map a | a in q && a in analyses.vals :: MetaboliteNames(analyses.vals[a])
  }

  /** "ClassIDs" of one study: the class names of each of the analyses `q`. */
  function ClassTable(analyses: Analyses, q: seq<string>): map<string, seq<string>>
  {
    map a | a in q && a in analyses.vals :: ClassNames(analyses.vals[a])
  }

  /** The UIF data `u` with study `s` registered and its analyses `q` listed. */
  function WithStudy(u: UifData, s: string, analyses: Analyses, q: seq<string>): UifData
  {
    UifData(
      u.studyIds + [s],
      u.analysisIds[s := q],
      u.metaboliteIds[s := MetaboliteTable(analyses, q)],
      u.classIds[s := ClassTable(analyses, q)])
  }

  /** The tables of a study with one more analysis. */
  lemma TablesSnoc(analyses: Analyses, q: seq<string>, a: string)
    requires a in analyses.vals
    ensures MetaboliteTable(analyses, q + [a])
      == MetaboliteTable(analyses, q)[a := MetaboliteNames(analyses.vals[a])]
    ensures ClassTable(analyses, q + [a])
      == ClassTable(analyses, q)[a := ClassNames(analyses.vals[a])]
  {
    assert forall x :: x in q + [a] <==> x in q || x == a;
  }

  /** The tables of a study without analyses are empty. */
  lemma TablesEmpty(analyses: Analyses)
    ensures MetaboliteTable(analyses, []) == map[]
    ensures ClassTable(analyses, []) == map[]
  {
  }

  /** The UIF data built from the first `n` studies of the store. */
  function PlanStudies(studies: Studies, n: nat, minClassCount: Option<int>): UifData
    requires studies.Valid() && n <= |studies.keys|
  {
    if n == 0 then EmptyUif()
    else
      var s := studies.keys[n - 1];
      StudyStep(PlanStudies(studies, n - 1, minClassCount), s, studies.vals[s], minClassCount)
  }

  /** The UIF data `u` once study `s`, with analyses `analyses`, has been looked at. */
  function StudyStep(u: UifData, s: string, analyses: Analyses, minClassCount: Option<int>): UifData
  {
    var q := Qualifying(analyses, minClassCount);
    if |q| == 0 then u else WithStudy(u, s, analyses, q)
  }

  /** What `SetupUIFDataForStudiesAnalysisAndResults(StudiesResultsData, MinClassCount)` returns. */
  function PlanUif(studies: Studies, minClassCount: Option<int>): UifData
    requires studies.Valid()
  {
    PlanStudies(studies, |studies.keys|, minClassCount)
  }

  // ---------------------------------------------------------------------------
  // What the plan contains
  // ---------------------------------------------------------------------------

  /** Study `s` has an analysis that qualifies. */
  ghost predicate HasQualifyingAnalysis(studies: Studies, s: string, minClassCount: Option<int>)
  {
    && s in studies.vals
    && exists a :: a in studies.vals[s].vals && Qualifies(studies.vals[s].vals[a], minClassCount)
  }

  lemma QualifyingNonEmpty(studies: Studies, s: string, minClassCount: Option<int>)
    requires ValidStudies(studies) && s in studies.vals
    ensures |Qualifying(studies.vals[s], minClassCount)| > 0 <==> HasQualifyingAnalysis(studies, s, minClassCount)
  {
    var analyses := studies.vals[s];
    var q := Qualifying(analyses, minClassCount);
    QualifyingSound(analyses, minClassCount);
    if |q| > 0 {
      assert q[0] in q;
    }
  }

  /**
   * Study by study, for the first `n` studies: a study is listed exactly when it is
   * among them and one of its analyses qualifies; a listed study has all three tables
   * filled with its qualifying analyses, their `columns[3:]` and their class names.
   */
  lemma {:induction false} PlanStudiesContents(studies: Studies, n: nat, minClassCount: Option<int>, s: string)
    requires studies.Valid() && n <= |studies.keys|
    ensures var u := PlanStudies(studies, n, minClassCount);
      && (s in u.studyIds <==> s in studies.keys[..n] && |Qualifying(studies.vals[s], minClassCount)| > 0)
      && (s in u.analysisIds <==> s in u.studyIds)
      && (s in u.metaboliteIds <==> s in u.studyIds)
      && (s in u.classIds <==> s in u.studyIds)
      && (s in u.studyIds ==>
            var analyses, q := studies.vals[s], Qualifying(studies.vals[s], minClassCount);
            && u.analysisIds[s] == q
            && u.metaboliteIds[s] == MetaboliteTable(analyses, q)
            && u.classIds[s] == ClassTable(analyses, q))
  {
    if n > 0 {
      var t := studies.keys[n - 1];
      var u0 := PlanStudies(studies, n - 1, minClassCount);
      assert studies.keys[..n] == studies.keys[..n - 1] + [t];
      PlanStudiesUnfold(studies, n, minClassCount);
      PlanStudiesContents(studies, n - 1, minClassCount, s);
      if s == t {
        assert s !in studies.keys[..n - 1];
      }
      var q := Qualifying(studies.vals[t], minClassCount);
      if |q| == 0 {
        assert PlanStudies(studies, n, minClassCount) == u0;
      } else {
        assert PlanStudies(studies, n, minClassCount) == WithStudy(u0, t, studies.vals[t], q);
      }
    }
  }

  lemma PlanStudiesUnfold(studies: Studies, n: nat, minClassCount: Option<int>)
    requires studies.Valid() && 0 < n <= |studies.keys|
    ensures var u, t := PlanStudies(studies, n - 1, minClassCount), studies.keys[n - 1];
      var q := Qualifying(studies.vals[t], minClassCount);
      && t in studies.vals
      && PlanStudies(studies, n, minClassCount) == if |q| == 0 then u else WithStudy(u, t, studies.vals[t], q)
  {
  }

  lemma PlanStudiesStep(studies: Studies, n: nat, minClassCount: Option<int>)
    requires studies.Valid() && n < |studies.keys|
    ensures var t := studies.keys[n];
      && t in studies.vals
      && PlanStudies(studies, n + 1, minClassCount) == StudyStep(PlanStudies(studies, n, minClassCount), t, studies.vals[t], minClassCount)
  {
  }

  /** The studies among the first `n` that have a qualifying analysis, in order. */
  function OfferedStudies(studies: Studies, n: nat, minClassCount: Option<int>): seq<string>
    requires n <= |studies.keys|
  {
    KeysWhere(studies.keys, n, s => s in studies.vals && |Qualifying(studies.vals[s], minClassCount)| > 0)
  }

  lemma {:induction false} PlanStudyIds(studies: Studies, n: nat, minClassCount: Option<int>)
    requires studies.Valid() && n <= |studies.keys|
    ensures PlanStudies(studies, n, minClassCount).studyIds == OfferedStudies(studies, n, minClassCount)
  {
    if n > 0 {
      var t := studies.keys[n - 1];
      var offered := |Qualifying(studies.vals[t], minClassCount)| > 0;
      assert OfferedStudies(studies, n, minClassCount)
        == OfferedStudies(studies, n - 1, minClassCount) + (if offered then [t] else []);
      StudyStepIds(PlanStudies(studies, n - 1, minClassCount), t, studies.vals[t], minClassCount);
      PlanStudyIds(studies, n - 1, minClassCount);
    }
  }

  /** A study is appended to "StudyIDs" exactly when one of its analyses qualifies. */
  lemma StudyStepIds(u: UifData, s: string, analyses: Analyses, minClassCount: Option<int>)
    ensures StudyStep(u, s, analyses, minClassCount).studyIds
      == u.studyIds + (if |Qualifying(analyses, minClassCount)| > 0 then [s] else [])
  {
    if |Qualifying(analyses, minClassCount)| == 0 {
      assert u.studyIds + [] == u.studyIds;
    }
  }


  /**
   * `StudyIDs` lists a study exactly when it is in the store and one of its analyses
   * qualifies; each listed study has its qualifying analyses in "AnalysisIDs", and each
   * of those its `columns[3:]` in "MetaboliteIDs" and its class names in "ClassIDs".
   */
  lemma PlanContents(studies: Studies, minClassCount: Option<int>, s: string, a: string)
    requires ValidStudies(studies)
    ensures var u := PlanUif(studies, minClassCount);
      && (s in u.studyIds <==> HasQualifyingAnalysis(studies, s, minClassCount))
      && (s in u.studyIds ==>
            && s in u.analysisIds && s in u.metaboliteIds && s in u.classIds
            && (a in u.analysisIds[s] <==> a in studies.vals[s].vals && Qualifies(studies.vals[s].vals[a], minClassCount))
            && (a in u.analysisIds[s] ==>
                  && a in u.metaboliteIds[s] && u.metaboliteIds[s][a] == MetaboliteNames(studies.vals[s].vals[a])
                  && a in u.classIds[s] && u.classIds[s][a] == ClassNames(studies.vals[s].vals[a])))
  {
    var n := |studies.keys|;
    PlanStudiesContents(studies, n, minClassCount, s);
    assert studies.keys[..n] == studies.keys;
    if s in studies.vals {
      QualifyingNonEmpty(studies, s, minClassCount);
      QualifyingSound(studies.vals[s], minClassCount);
    }
  }

  /**
   * "StudyIDs" has no repetition and follows the order of the store, and each study's
   * "AnalysisIDs" follows the order of its analyses.
   */
  lemma PlanOrder(studies: Studies, minClassCount: Option<int>, s: string)
    requires ValidStudies(studies)
    ensures var u := PlanUif(studies, minClassCount);
      && InKeyOrder(studies.keys, u.studyIds, |studies.keys|)
      && (forall i, j :: 0 <= i < j < |u.studyIds| ==> u.studyIds[i] != u.studyIds[j])
      && (s in u.analysisIds ==> s in studies.vals && InKeyOrder(studies.vals[s].keys, u.analysisIds[s], |studies.vals[s].keys|))
  {
    var n := |studies.keys|;
    PlanStudyIds(studies, n, minClassCount);
    KeysWhereSound(studies.keys, n, s => s in studies.vals && |Qualifying(studies.vals[s], minClassCount)| > 0);
    InKeyOrderNoRepeats(studies.keys, PlanUif(studies, minClassCount).studyIds, n);
    PlanStudiesContents(studies, n, minClassCount, s);
    if s in studies.vals {
      QualifyingSound(studies.vals[s], minClassCount);
    }
  }

  /** An analysis whose frame has three columns or fewer is never offered. */
  lemma NarrowFramesNeverOffered(studies: Studies, minClassCount: Option<int>, s: string, a: string)
    requires ValidStudies(studies) && s in studies.vals && a in studies.vals[s].vals
    requires var rec := studies.vals[s].vals[a]; rec.results.Some? && |rec.results.value.dataFrame.columns| <= 3
    ensures var u := PlanUif(studies, minClassCount);
      s in u.analysisIds ==> a !in u.analysisIds[s]
  {
    PlanContents(studies, minClassCount, s, a);
    PlanStudiesContents(studies, |studies.keys|, minClassCount, s);
  }

  /** A minimum class count above every analysis's class count leaves nothing to offer. */
  lemma MinClassCountAboveAll(studies: Studies, min: int)
    requires ValidStudies(studies)
    requires forall s, a :: s in studies.vals && a in studies.vals[s].vals && studies.vals[s].vals[a].results.Some? ==>
      |studies.vals[s].vals[a].results.value.classNamesToNums| < min
    ensures PlanUif(studies, Some(min)).studyIds == []
  {
    var ids := PlanUif(studies, Some(min)).studyIds;
    if |ids| > 0 {
      PlanContents(studies, Some(min), ids[0], "");
      assert false;
    }
  }

  /** Registering a study with its first qualifying analysis, as the loop does it. */
  lemma WithFirstAnalysis(u0: UifData, w: UifData, s: string, analyses: Analyses, a: string)
    requires a in analyses.vals
    requires w == UifData(u0.studyIds + [s], u0.analysisIds[s := []], u0.metaboliteIds[s := map[]], u0.classIds[s := map[]])
    ensures UifData(w.studyIds, w.analysisIds[s := w.analysisIds[s] + [a]],
                    w.metaboliteIds[s := w.metaboliteIds[s][a := MetaboliteNames(analyses.vals[a])]],
                    w.classIds[s := w.classIds[s][a := ClassNames(analyses.vals[a])]])
      == WithStudy(u0, s, analyses, [a])
  {
    TablesSnoc(analyses, [], a);
    TablesEmpty(analyses);
    assert [] + [a] == [a];
    RegisterAnalysis(u0, w, s, [], a, map[], map[], MetaboliteNames(analyses.vals[a]), ClassNames(analyses.vals[a]));
  }

  /** Adding one more qualifying analysis to a registered study, as the loop does it. */
  lemma WithStudySnoc(u0: UifData, w: UifData, s: string, analyses: Analyses, q: seq<string>, a: string)
    requires a in analyses.vals
    requires w == WithStudy(u0, s, analyses, q)
    ensures UifData(w.studyIds, w.analysisIds[s := w.analysisIds[s] + [a]],
                    w.metaboliteIds[s := w.metaboliteIds[s][a := MetaboliteNames(analyses.vals[a])]],
                    w.classIds[s := w.classIds[s][a := ClassNames(analyses.vals[a])]])
      == WithStudy(u0, s, analyses, q + [a])
  {
    TablesSnoc(analyses, q, a);
    RegisterAnalysis(u0, w, s, q, a, MetaboliteTable(analyses, q), ClassTable(analyses, q),
                     MetaboliteNames(analyses.vals[a]), ClassNames(analyses.vals[a]));
  }

  /** Adding analysis `a` to the entries of study `s` updates them in place. */
  lemma RegisterAnalysis(u0: UifData, w: UifData, s: string, q: seq<string>, a: string,
                         mt: map<string, seq<string>>, ct: map<string, seq<string>>, mn: seq<string>, cn: seq<string>)
    requires w == UifData(u0.studyIds + [s], u0.analysisIds[s := q], u0.metaboliteIds[s := mt], u0.classIds[s := ct])
    ensures UifData(w.studyIds, w.analysisIds[s := w.analysisIds[s] + [a]],
                    w.metaboliteIds[s := w.metaboliteIds[s][a := mn]], w.classIds[s := w.classIds[s][a := cn]])
      == UifData(u0.studyIds + [s], u0.analysisIds[s := q + [a]], u0.metaboliteIds[s := mt[a := mn]], u0.classIds[s := ct[a := cn]])
  {
  }

  /** `SetupUIFDataForStudiesAnalysisAndResults(StudiesResultsData, MinClassCount)`. */
  method SetupUifData(studies: Studies, minClassCount: Option<int>) returns (uif: UifData)
    requires ValidStudies(studies)
    ensures uif == PlanUif(studies, minClassCount)
  {
    uif := EmptyUif();
    var i := 0;
    while i < |studies.keys|
      invariant i <= |studies.keys|
      invariant uif == PlanStudies(studies, i, minClassCount)
    {
      var studyId := studies.keys[i];
      PlanStudiesStep(studies, i, minClassCount);
      uif := AddStudy(uif, studyId, studies.vals[studyId], minClassCount);
      i := i + 1;
    }
  }

  /** One pass of the loop over the studies, with its `NewStudy` flag. */
  method AddStudy(u0: UifData, studyId: string, analyses: Analyses, minClassCount: Option<int>) returns (uif: UifData)
    requires analyses.Valid()
    ensures uif == StudyStep(u0, studyId, analyses, minClassCount)
  {
    uif := u0;
    var newStudy := true;
    var j := 0;
    while j < |analyses.keys|
      invariant j <= |analyses.keys|
      invariant newStudy <==> |QualifyingAnalyses(analyses, j, minClassCount)| == 0
      invariant newStudy ==> uif == u0
      invariant !newStudy ==> uif == WithStudy(u0, studyId, analyses, QualifyingAnalyses(analyses, j, minClassCount))
    {
      var analysisId := analyses.keys[j];
      var rec := analyses.vals[analysisId];
      ghost var q := QualifyingAnalyses(analyses, j, minClassCount);
      if Qualifies(rec, minClassCount) {
        assert QualifyingAnalyses(analyses, j + 1, minClassCount) == q + [analysisId];
        if newStudy {
          newStudy := false;
          uif := UifData(uif.studyIds + [studyId], uif.analysisIds[studyId := []],
                         uif.metaboliteIds[studyId := map[]], uif.classIds[studyId := map[]]);
          ghost var w := uif;
          uif := UifData(uif.studyIds,
                         uif.analysisIds[studyId := uif.analysisIds[studyId] + [analysisId]],
                         uif.metaboliteIds[studyId := uif.metaboliteIds[studyId][analysisId := MetaboliteNames(rec)]],
                         uif.classIds[studyId := uif.classIds[studyId][analysisId := ClassNames(rec)]]);
          WithFirstAnalysis(u0, w, studyId, analyses, analysisId);
          assert q + [analysisId] == [analysisId];
        } else {
          ghost var w := uif;
          uif := UifData(uif.studyIds,
                         uif.analysisIds[studyId := uif.analysisIds[studyId] + [analysisId]],
                         uif.metaboliteIds[studyId := uif.metaboliteIds[studyId][analysisId := MetaboliteNames(rec)]],
                         uif.classIds[studyId := uif.classIds[studyId][analysisId := ClassNames(rec)]]);
          WithStudySnoc(u0, w, studyId, analyses, q, analysisId);
        }
      } else {
        assert QualifyingAnalyses(analyses, j + 1, minClassCount) == q;
      }
      j := j + 1;
    }
  }
}
