/**
 * `_ProcessDataTableText`: the normaliser that turns a delimited results table into
 * the canonical text [sample, class, ClassNum, features...] and numbers the class
 * labels 1, 2, 3, ... in the order they first appear.
 */
module DataTable {
  import opened Wrappers
  import opened Text

  /** One entry of the class-name-to-number dictionary. */
  datatype ClassEntry = ClassEntry(name: string, code: nat)

  /** `ClassNamesMap`, a dictionary in insertion order, as an association list. */
  type ClassMap = seq<ClassEntry>

  /** `name in ClassNamesMap` / `ClassNamesMap[name]`. */
  function Lookup(m: ClassMap, name: string): (r: Option<nat>)
    ensures r.Some? <==> exists i :: 0 <= i < |m| && m[i].name == name
  {
    if |m| == 0 then None
    else if m[0].name == name then Some(m[0].code)
    else
      var r := Lookup(m[1..], name);
      assert r.Some? ==> exists i :: 0 <= i < |m| && m[i].name == name by {
        if r.Some? {
          var i :| 0 <= i < |m[1..]| && m[1..][i].name == name;
          assert m[i + 1].name == name;
        }
      }
      r
  }

  /** The header is too short: `LineWords[1]` raises an IndexError. */
  datatype ParseError = MissingClassLabel

  datatype ParsedTable = ParsedTable(text: string, classNamesToNums: ClassMap)

  /** The rows produced so far and the class dictionary built so far. */
  datatype Encoded = Encoded(rows: seq<seq<string>>, classMap: ClassMap)

  /** `Sep.split` applied to every line. */
  function Tokenize(lines: seq<string>, sep: char): (t: seq<seq<string>>)
    ensures |t| == |lines|
  {
    seq(|lines|, i requires 0 <= i < |lines| => Split(lines[i], sep))
  }

  /** `Sep.join` applied to every row. */
  function JoinEach(rows: seq<seq<string>>, sep: char): (t: seq<string>)
    ensures |t| == |rows|
  {
    seq(|rows|, i requires 0 <= i < |rows| => Join(rows[i], sep))
  }

  lemma JoinEachAppend(a: seq<seq<string>>, b: seq<seq<string>>, sep: char)
    ensures JoinEach(a + b, sep) == JoinEach(a, sep) + JoinEach(b, sep)
  {
    var l, r := JoinEach(a + b, sep), JoinEach(a, sep) + JoinEach(b, sep);
    forall i | 0 <= i < |l|
      ensures l[i] == r[i]
    {
      if i < |a| {
        assert (a + b)[i] == a[i];
      } else {
        assert (a + b)[i] == b[i - |a|];
      }
    }
  }

  /** The fields of every line of the table text, after line endings are normalised. */
  function TableLines(text: string, sep: char): (lines: seq<seq<string>>)
    ensures |lines| >= 1
  {
    Tokenize(Split(NormalizeNewlines(text), '\n'), sep)
  }

  /** Fields 2 onwards (`range(2, len(LineWords))`); empty when there are fewer fields. */
  function Features(words: seq<string>): seq<string>
  {
    if |words| > 2 then words[2..] else []
  }

  /** The new header: sample and class labels (renamed if asked), then `ClassNum`, then the features. */
  function HeaderLabels(words: seq<string>, newSample: Option<string>, newClass: Option<string>, addClassNum: bool)
    : Result<seq<string>, ParseError>
    requires |words| >= 1
  {
    if newClass.None? && |words| < 2 then Failure(MissingClassLabel)
    else
      Success([if newSample.Some? then newSample.value else words[0],
               if newClass.Some? then newClass.value else words[1]]
              + (if addClassNum then ["ClassNum"] else [])
              + Features(words))
  }

  /** A data line with its class code inserted as the third field. */
  function CodedRow(words: seq<string>, code: nat): seq<string>
    requires |words| > 2
  {
    words[..2] + [NatToString(code)] + words[2..]
  }

  /** The output row of a kept data line and the class dictionary after it. */
  function CodeLine(m: ClassMap, words: seq<string>, addClassNum: bool): (seq<string>, ClassMap)
    requires |words| > 2
  {
    if !addClassNum then (words, m)
    else
      match Lookup(m, words[1])
      case Some(code) => (CodedRow(words, code), m)
      case None =>
        var code := |m| + 1;
        (CodedRow(words, code), m + [ClassEntry(words[1], code)])
  }

  /** One pass of the data loop: lines with two fields or fewer are skipped. */
  function EncodeLine(e: Encoded, words: seq<string>, addClassNum: bool): Encoded
  {
    if |words| <= 2 then e
    else
      var (row, m) := CodeLine(e.classMap, words, addClassNum);
      Encoded(e.rows + [row], m)
  }

  /** The data loop over all data lines, in order. */
  function Encode(lines: seq<seq<string>>, addClassNum: bool): Encoded
  {
    if |lines| == 0 then Encoded([], [])
    else EncodeLine(Encode(lines[..|lines| - 1], addClassNum), lines[|lines| - 1], addClassNum)
  }

  /** What `_ProcessDataTableText` returns: the rebuilt text and the class dictionary. */
  function ParseDataTable(text: string, sep: char, newSample: Option<string>, newClass: Option<string>, addClassNum: bool)
    : Result<ParsedTable, ParseError>
  {
    var lines := TableLines(text, sep);
    match HeaderLabels(lines[0], newSample, newClass, addClassNum)
    case Failure(e) => Failure(e)
    case Success(labels) =>
      var enc := Encode(lines[1..], addClassNum);
      Success(ParsedTable(Join([Join(labels, sep)] + JoinEach(enc.rows, sep), '\n'), enc.classMap))
  }

  lemma EncodeSnoc(lines: seq<seq<string>>, i: nat, addClassNum: bool)
    requires i < |lines|
    ensures Encode(lines[..i + 1], addClassNum) == EncodeLine(Encode(lines[..i], addClassNum), lines[i], addClassNum)
  {
    assert lines[..i + 1][..i] == lines[..i];
  }

  lemma {:induction false} LookupAppend(m: ClassMap, e: ClassEntry, x: string)
    ensures Lookup(m + [e], x) == if Lookup(m, x).Some? then Lookup(m, x) else if e.name == x then Some(e.code) else None
  {
    if |m| > 0 {
      assert (m + [e])[1..] == m[1..] + [e];
      LookupAppend(m[1..], e, x);
    }
  }

  /** The header loop of `_ProcessDataTableText`. */
  method BuildHeader(lineWords: seq<string>, newSample: Option<string>, newClass: Option<string>, addClassNum: bool)
    returns (r: Result<seq<string>, ParseError>)
    requires |lineWords| >= 1
    ensures r == HeaderLabels(lineWords, newSample, newClass, addClassNum)
  {
    var dataLabels := [if newSample.Some? then newSample.value else lineWords[0]];
    if newClass.None? && |lineWords| < 2 {
      return Failure(MissingClassLabel);
    }
    dataLabels := dataLabels + [if newClass.Some? then newClass.value else lineWords[1]];
    if addClassNum {
      dataLabels := dataLabels + ["ClassNum"];
    }
    ghost var head := dataLabels;
    var index := 2;
    while index < |lineWords|
      invariant |lineWords| >= 2 ==> index <= |lineWords| && dataLabels == head + lineWords[2..index]
      invariant |lineWords| < 2 ==> dataLabels == head
    {
      assert lineWords[2..index + 1] == lineWords[2..index] + [lineWords[index]];
      dataLabels := dataLabels + [lineWords[index]];
      index := index + 1;
    }
    assert head == [if newSample.Some? then newSample.value else lineWords[0],
                    if newClass.Some? then newClass.value else lineWords[1]]
                   + (if addClassNum then ["ClassNum"] else []);
    assert dataLabels == head + Features(lineWords);
    r := Success(dataLabels);
  }

  /**
   * The body of the data loop for a line with more than two fields: look the class
   * label up, give it the next number if it is new, and copy the fields.
   */
  method BuildDataLine(lineWords: seq<string>, classNamesMap: ClassMap, classNum: nat, addClassNum: bool)
    returns (dataLine: seq<string>, newMap: ClassMap, newNum: nat)
    requires |lineWords| > 2 && classNum == |classNamesMap|
    ensures newNum == |newMap|
    ensures (dataLine, newMap) == CodeLine(classNamesMap, lineWords, addClassNum)
  {
    newMap, newNum := classNamesMap, classNum;
    dataLine := [lineWords[0], lineWords[1]];
    if addClassNum {
      var className := lineWords[1];
      if Lookup(newMap, className).None? {
        newNum := newNum + 1;
        LookupAppend(newMap, ClassEntry(className, newNum), className);
        newMap := newMap + [ClassEntry(className, newNum)];
      }
      dataLine := dataLine + [NatToString(Lookup(newMap, className).value)];
    }
    ghost var prefix := dataLine;
    var k := 2;
    while k < |lineWords|
      invariant 2 <= k <= |lineWords|
      invariant dataLine == prefix + lineWords[2..k]
    {
      assert lineWords[2..k + 1] == lineWords[2..k] + [lineWords[k]];
      dataLine := dataLine + [lineWords[k]];
      k := k + 1;
    }
    assert lineWords[..2] == [lineWords[0], lineWords[1]];
    assert dataLine == prefix + lineWords[2..];
    if addClassNum {
      var code := Lookup(newMap, lineWords[1]).value;
      assert dataLine == CodedRow(lineWords, code);
      if Lookup(classNamesMap, lineWords[1]).None? {
        assert code == |classNamesMap| + 1;
      }
    } else {
      assert dataLine == lineWords;
    }
  }

  /**
   * The data loop of `_ProcessDataTableText`: after the header line `header`, each line
   * with more than two fields is coded and joined again.
   */
  method EncodeDataLines(textLines: seq<string>, sep: char, header: string, addClassNum: bool)
    returns (dataLines: seq<string>, classNamesMap: ClassMap)
    requires |textLines| >= 1
    ensures var enc := Encode(Tokenize(textLines, sep)[1..], addClassNum);
      classNamesMap == enc.classMap && dataLines == [header] + JoinEach(enc.rows, sep)
  {
    ghost var data := Tokenize(textLines, sep)[1..];
    dataLines := [header];
    classNamesMap := [];
    var classNum: nat := 0;
    ghost var rows: seq<seq<string>> := [];
    var i := 1;
    while i < |textLines|
      invariant 1 <= i <= |textLines|
      invariant classNum == |classNamesMap|
      invariant Encode(data[..i - 1], addClassNum) == Encoded(rows, classNamesMap)
      invariant dataLines == [header] + JoinEach(rows, sep)
    {
      var lineWords := Split(textLines[i], sep);
      assert data[i - 1] == lineWords;
      EncodeSnoc(data, i - 1, addClassNum);
      if |lineWords| > 2 {
        var dataLine;
        dataLine, classNamesMap, classNum := BuildDataLine(lineWords, classNamesMap, classNum, addClassNum);
        JoinEachAppend(rows, [dataLine], sep);
        dataLines := dataLines + [Join(dataLine, sep)];
        rows := rows + [dataLine];
      }
      i := i + 1;
    }
    assert data[..i - 1] == data;
  }

  /**
   * `_ProcessDataTableText`: normalise line endings, rebuild the header, then walk the
   * data lines in order, numbering each new class label with the running counter.
   */
  method ProcessDataTableText(text: string, sep: char, newSample: Option<string>, newClass: Option<string>, addClassNum: bool)
    returns (r: Result<ParsedTable, ParseError>)
    ensures r == ParseDataTable(text, sep, newSample, newClass, addClassNum)
  {
    var textLines := Split(NormalizeNewlines(text), '\n');
    ghost var all := Tokenize(textLines, sep);
    assert all == TableLines(text, sep);
    var header := BuildHeader(Split(textLines[0], sep), newSample, newClass, addClassNum);
    assert header == HeaderLabels(all[0], newSample, newClass, addClassNum);
    if header.Failure? {
      return Failure(header.error);
    }
    var dataLabels := header.value;
    var dataLines, classNamesMap := EncodeDataLines(textLines, sep, Join(dataLabels, sep), addClassNum);
    r := Success(ParsedTable(Join(dataLines, '\n'), classNamesMap));
    assert all[1..] == Tokenize(textLines, sep)[1..];
  }

  // Properties of the normaliser.

  /**
   * The header fails only when the class label is neither supplied nor present; otherwise
   * it is the sample and class labels (renamed when asked), `ClassNum` third when asked,
   * and then every further token of the first line, unchanged and in order.
   */
  lemma HeaderShape(words: seq<string>, newSample: Option<string>, newClass: Option<string>, addClassNum: bool)
    requires |words| >= 1
    ensures var h := HeaderLabels(words, newSample, newClass, addClassNum);
      && (h.Failure? <==> newClass.None? && |words| < 2)
      && (h.Success? ==>
            var labels, c := h.value, if addClassNum then 3 else 2;
            && |labels| == c + (if |words| > 2 then |words| - 2 else 0)
            && labels[0] == (if newSample.Some? then newSample.value else words[0])
            && labels[1] == (if newClass.Some? then newClass.value else words[1])
            && (addClassNum ==> labels[2] == "ClassNum")
            && (forall k :: 2 <= k < |words| ==> labels[c + k - 2] == words[k]))
  {
    var h := HeaderLabels(words, newSample, newClass, addClassNum);
    if h.Success? {
      var c := if addClassNum then 3 else 2;
      var head := [if newSample.Some? then newSample.value else words[0],
                   if newClass.Some? then newClass.value else words[1]]
                  + (if addClassNum then ["ClassNum"] else []);
      assert |head| == c;
      assert h.value == head + Features(words);
      forall k | 2 <= k < |words| ensures h.value[c + k - 2] == words[k] {
        assert Features(words)[k - 2] == words[k];
      }
    }
  }

  /** A header of just two tokens yields no feature labels: "Samples", "Class", "ClassNum". */
  lemma TwoTokenHeaderHasNoFeatures()
    ensures HeaderLabels(["Samples", "Class"], None, None, true) == Success(["Samples", "Class", "ClassNum"])
  {
    var words := ["Samples", "Class"];
    assert Features(words) == [];
    var h := HeaderLabels(words, None, None, true);
    assert h.value == [words[0], words[1]] + ["ClassNum"] + [];
    assert h.value == ["Samples", "Class", "ClassNum"];
  }

  /** The data lines that yield a row, in order: those with more than two fields. */
  function Kept(lines: seq<seq<string>>): (ks: seq<seq<string>>)
    ensures |ks| <= |lines|
    ensures forall k :: 0 <= k < |ks| ==> |ks[k]| > 2 && ks[k] in lines
    ensures forall w :: w in lines && |w| > 2 ==> w in ks
  {
    if |lines| == 0 then []
    else
      var init := lines[..|lines| - 1];
      assert forall w :: w in lines ==> w in init || w == lines[|lines| - 1];
      Kept(init) + (if |lines[|lines| - 1]| > 2 then [lines[|lines| - 1]] else [])
  }

  /** The positions of the data lines with more than two fields, in increasing order. */
  function KeptPositions(lines: seq<seq<string>>): (ps: seq<nat>)
    ensures forall k :: 0 <= k < |ps| ==> ps[k] < |lines| && |lines[ps[k]]| > 2
    ensures forall k, l :: 0 <= k < l < |ps| ==> ps[k] < ps[l]
    ensures forall i :: 0 <= i < |lines| ==> (i in ps <==> |lines[i]| > 2)
  {
    if |lines| == 0 then []
    else KeptPositions(lines[..|lines| - 1]) + (if |lines[|lines| - 1]| > 2 then [|lines| - 1] else [])
  }

  /**
   * The kept lines are the lines at `KeptPositions`: every line with more than two
   * fields, each as often as it occurs, in the order of the text.
   */
  lemma {:induction false} KeptInOrder(lines: seq<seq<string>>)
    ensures var ks, ps := Kept(lines), KeptPositions(lines);
      |ks| == |ps| && forall k :: 0 <= k < |ps| ==> ks[k] == lines[ps[k]]
  {
    if |lines| > 0 {
      var n := |lines|;
      var init, w := lines[..n - 1], lines[n - 1];
      KeptInOrder(init);
      var ks0, ps0 := Kept(init), KeptPositions(init);
      assert forall k :: 0 <= k < |ps0| ==> ps0[k] < n - 1;
      assert Kept(lines) == ks0 + (if |w| > 2 then [w] else []);
      assert KeptPositions(lines) == ps0 + (if |w| > 2 then [n - 1] else []);
      AtPositionsSnoc(lines, ks0, ps0, |w| > 2);
    }
  }

  lemma AtPositionsSnoc(lines: seq<seq<string>>, ks0: seq<seq<string>>, ps0: seq<nat>, b: bool)
    requires |lines| > 0 && |ks0| == |ps0|
    requires forall k :: 0 <= k < |ps0| ==> ps0[k] < |lines| - 1 && ks0[k] == lines[..|lines| - 1][ps0[k]]
    ensures var ks, ps := ks0 + (if b then [lines[|lines| - 1]] else []), ps0 + (if b then [|lines| - 1] else []);
      |ks| == |ps| && forall k :: 0 <= k < |ps| ==> ks[k] == lines[ps[k]]
  {
  }

  /** The class label (second field) of every kept line, in order. */
  function ClassLabels(lines: seq<seq<string>>): (labels: seq<string>)
    ensures |labels| == |Kept(lines)|
  {
    var ks := Kept(lines);
    seq(|ks|, k requires 0 <= k < |ks| => ks[k][1])
  }

  /** Codes are 1, 2, 3, ... in dictionary order, and no label is listed twice. */
  ghost predicate WellNumbered(m: ClassMap)
  {
    && (forall i :: 0 <= i < |m| ==> m[i].code == i + 1)
    && (forall i, j :: 0 <= i < j < |m| ==> m[i].name != m[j].name)
  }

  lemma KeptSnoc(lines: seq<seq<string>>)
    requires |lines| > 0
    ensures var init, w := lines[..|lines| - 1], lines[|lines| - 1];
      && Kept(lines) == Kept(init) + (if |w| > 2 then [w] else [])
      && ClassLabels(lines) == ClassLabels(init) + (if |w| > 2 then [w[1]] else [])
  {
  }

  /** Each row is its kept line with the dictionary code of the line's label inserted third. */
  ghost predicate CodedRows(rows: seq<seq<string>>, ks: seq<seq<string>>, m: ClassMap)
  {
    && |rows| == |ks|
    && forall k :: 0 <= k < |ks| ==>
         |ks[k]| > 2 && Lookup(m, ks[k][1]).Some? && rows[k] == CodedRow(ks[k], Lookup(m, ks[k][1]).value)
  }

  /** Without class numbers, the rows are the kept lines unchanged and the dictionary stays empty. */
  lemma {:induction false} EncodeRowsUncoded(lines: seq<seq<string>>)
    ensures Encode(lines, false) == Encoded(Kept(lines), [])
  {
    if |lines| > 0 {
      EncodeRowsUncoded(lines[..|lines| - 1]);
      KeptSnoc(lines);
    }
  }

  /**
   * With class numbers, every kept line gives exactly one row, in order, with the code
   * of its label inserted as third field, and the dictionary numbers its labels 1, 2, 3, ...
   */
  lemma CodeLineKeepsRowsCoded(rows0: seq<seq<string>>, ks0: seq<seq<string>>, m0: ClassMap, w: seq<string>)
    requires |w| > 2 && WellNumbered(m0) && CodedRows(rows0, ks0, m0)
    ensures WellNumbered(CodeLine(m0, w, true).1)
    ensures CodedRows(rows0 + [CodeLine(m0, w, true).0], ks0 + [w], CodeLine(m0, w, true).1)
  {
    var (row, m) := CodeLine(m0, w, true);
    var rows, ks := rows0 + [row], ks0 + [w];
    if Lookup(m0, w[1]).None? {
      var entry := ClassEntry(w[1], |m0| + 1);
      assert m == m0 + [entry];
      forall x { LookupAppend(m0, entry, x); }
      forall i | 0 <= i < |m0| ensures m0[i].name != w[1] {
        assert Lookup(m0, w[1]).None?;
      }
    }
    forall k | 0 <= k < |ks|
      ensures |ks[k]| > 2 && Lookup(m, ks[k][1]).Some? && rows[k] == CodedRow(ks[k], Lookup(m, ks[k][1]).value)
    {
      if k < |ks0| { assert ks[k] == ks0[k] && rows[k] == rows0[k]; }
    }
  }

  /**
   * With class numbers, every kept line gives exactly one row, in order, with the code
   * of its label inserted as third field, and the dictionary numbers its labels 1, 2, 3, ...
   */
  lemma {:induction false} EncodeRowsCoded(lines: seq<seq<string>>)
    ensures WellNumbered(Encode(lines, true).classMap)
    ensures CodedRows(Encode(lines, true).rows, Kept(lines), Encode(lines, true).classMap)
  {
    if |lines| > 0 {
      var init, w := lines[..|lines| - 1], lines[|lines| - 1];
      EncodeRowsCoded(init);
      KeptSnoc(lines);
      var e0 := Encode(init, true);
      if |w| > 2 {
        CodeLineKeepsRowsCoded(e0.rows, Kept(init), e0.classMap, w);
      }
    }
  }

  /** The position of the first occurrence of `x` in `s`. */
  function FirstIndex(s: seq<string>, x: string): (i: nat)
    requires x in s
    ensures i < |s| && s[i] == x
    ensures forall j :: 0 <= j < i ==> s[j] != x
  {
    if s[0] == x then 0 else 1 + FirstIndex(s[1..], x)
  }

  lemma FirstIndexSnoc(s: seq<string>, y: string, x: string)
    requires x in s + [y]
    ensures x in s ==> FirstIndex(s + [y], x) == FirstIndex(s, x)
    ensures x !in s ==> FirstIndex(s + [y], x) == |s|
  {
    var i := FirstIndex(s + [y], x);
    if x in s {
      var i0 := FirstIndex(s, x);
      assert (s + [y])[i0] == x;
      assert i <= i0;
      assert i < |s| && s[i] == x;
    }
  }

  /**
   * `m` holds exactly the labels listed in `labels`, and a label listed earlier
   * first appears earlier in `labels`.
   */
  ghost predicate NumberedInOrder(m: ClassMap, labels: seq<string>)
  {
    && (forall i :: 0 <= i < |m| ==> m[i].name in labels)
    && (forall x :: x in labels ==> Lookup(m, x).Some?)
    && (forall i, j :: 0 <= i < j < |m| ==> FirstIndex(labels, m[i].name) < FirstIndex(labels, m[j].name))
  }

  lemma CodeLineKeepsOrder(m0: ClassMap, labels0: seq<string>, w: seq<string>)
    requires |w| > 2 && NumberedInOrder(m0, labels0)
    ensures NumberedInOrder(CodeLine(m0, w, true).1, labels0 + [w[1]])
  {
    var m, labels := CodeLine(m0, w, true).1, labels0 + [w[1]];
    forall x | x in labels0 { FirstIndexSnoc(labels0, w[1], x); }
    if Lookup(m0, w[1]).Some? {
      assert m == m0;
    } else {
      var entry := ClassEntry(w[1], |m0| + 1);
      assert m == m0 + [entry];
      forall x { LookupAppend(m0, entry, x); }
      assert w[1] !in labels0;
      FirstIndexSnoc(labels0, w[1], w[1]);
      forall i | 0 <= i < |m| ensures m[i].name in labels {
        if i < |m0| { assert m[i] == m0[i] && m0[i].name in labels0; }
      }
      forall i, j | 0 <= i < j < |m|
        ensures FirstIndex(labels, m[i].name) < FirstIndex(labels, m[j].name)
      {
        if j == |m0| {
          assert m[i] == m0[i];
          assert FirstIndex(labels, m[i].name) < |labels0|;
        }
      }
    }
  }

  /**
   * The dictionary holds exactly the labels of the kept lines, and a label listed
   * earlier first appears earlier: codes follow the order of first appearance.
   */
  lemma {:induction false} ClassCodesFollowFirstAppearance(lines: seq<seq<string>>)
    ensures NumberedInOrder(Encode(lines, true).classMap, ClassLabels(lines))
  {
    if |lines| > 0 {
      var init, w := lines[..|lines| - 1], lines[|lines| - 1];
      ClassCodesFollowFirstAppearance(init);
      ClassLabelsSnoc(lines);
      var e0 := Encode(init, true);
      assert Encode(lines, true) == EncodeLine(e0, w, true);
      if |w| > 2 {
        CodeLineKeepsOrder(e0.classMap, ClassLabels(init), w);
        assert ClassLabels(lines) == ClassLabels(init) + [w[1]];
        assert Encode(lines, true).classMap == CodeLine(e0.classMap, w, true).1;
      } else {
        assert ClassLabels(lines) == ClassLabels(init);
        assert Encode(lines, true) == e0;
      }
    }
  }

  lemma ClassLabelsSnoc(lines: seq<seq<string>>)
    requires |lines| > 0
    ensures var init, w := lines[..|lines| - 1], lines[|lines| - 1];
      ClassLabels(lines) == ClassLabels(init) + (if |w| > 2 then [w[1]] else [])
  {
    KeptSnoc(lines);
  }

  lemma {:induction false} DistinctNamesCount(m: ClassMap)
    requires forall i, j :: 0 <= i < j < |m| ==> m[i].name != m[j].name
    ensures |set i | 0 <= i < |m| :: m[i].name| == |m|
  {
    if |m| > 0 {
      var init := m[..|m| - 1];
      DistinctNamesCount(init);
      var s0 := set i | 0 <= i < |init| :: init[i].name;
      var s := set i | 0 <= i < |m| :: m[i].name;
      assert s == s0 + {m[|m| - 1].name};
      assert m[|m| - 1].name !in s0;
    }
  }

  /** The dictionary has one entry per distinct class label of the kept lines. */
  lemma ClassCountIsDistinctLabels(lines: seq<seq<string>>)
    ensures |Encode(lines, true).classMap| == |set x | x in ClassLabels(lines)|
  {
    var m, labels := Encode(lines, true).classMap, ClassLabels(lines);
    EncodeRowsCoded(lines);
    ClassCodesFollowFirstAppearance(lines);
    DistinctNamesCount(m);
    var names := set i | 0 <= i < |m| :: m[i].name;
    assert names == set x | x in labels by {
      forall x | x in labels ensures x in names {
        var i :| 0 <= i < |m| && m[i].name == x;
      }
    }
  }

  lemma {:induction false} LookupFirst(m: ClassMap, i: nat)
    requires i < |m|
    requires forall j :: 0 <= j < i ==> m[j].name != m[i].name
    ensures Lookup(m, m[i].name) == Some(m[i].code)
  {
    if i > 0 {
      LookupFirst(m[1..], i - 1);
    }
  }

  /**
   * Two kept rows carry the same code exactly when they carry the same label: the
   * same label always gets the same code, and the codes of distinct labels differ.
   */
  lemma SameCodeIffSameLabel(lines: seq<seq<string>>, k: nat, l: nat)
    requires k < |Kept(lines)| && l < |Kept(lines)|
    ensures var rows, ks := Encode(lines, true).rows, Kept(lines);
      && |rows| == |ks| && |rows[k]| > 2 && |rows[l]| > 2
      && (rows[k][2] == rows[l][2] <==> ks[k][1] == ks[l][1])
  {
    var e, ks := Encode(lines, true), Kept(lines);
    EncodeRowsCoded(lines);
    var x, y := ks[k][1], ks[l][1];
    var ck, cl := Lookup(e.classMap, x).value, Lookup(e.classMap, y).value;
    assert e.rows[k] == CodedRow(ks[k], ck) && e.rows[l] == CodedRow(ks[l], cl);
    CodedRowCode(ks[k], ck);
    CodedRowCode(ks[l], cl);
    if x != y {
      DistinctLabelsDistinctCodes(e.classMap, x, y);
      if NatToString(ck) == NatToString(cl) {
        NatToStringInjective(ck, cl);
      }
    }
  }

  lemma CodedRowCode(words: seq<string>, code: nat)
    requires |words| > 2
    ensures |CodedRow(words, code)| > 2 && CodedRow(words, code)[2] == NatToString(code)
  {
  }

  /** In a well-numbered dictionary, distinct labels have distinct codes. */
  lemma DistinctLabelsDistinctCodes(m: ClassMap, x: string, y: string)
    requires WellNumbered(m) && Lookup(m, x).Some? && Lookup(m, y).Some? && x != y
    ensures Lookup(m, x).value != Lookup(m, y).value
  {
    var i :| 0 <= i < |m| && m[i].name == x;
    var j :| 0 <= j < |m| && m[j].name == y;
    LookupFirst(m, i);
    LookupFirst(m, j);
  }

  /** No field of a row contains the separator or a line break. */
  predicate CleanRow(row: seq<string>, sep: char)
  {
    forall f :: 0 <= f < |row| ==> sep !in row[f] && '\n' !in row[f]
  }

  /** A table of clean, non-empty rows is read back unchanged from its joined text. */
  lemma JoinedTableRoundTrip(table: seq<seq<string>>, sep: char)
    requires sep != '\n' && |table| >= 1
    requires forall i :: 0 <= i < |table| ==> |table[i]| >= 1 && CleanRow(table[i], sep)
    ensures Tokenize(Split(Join(JoinEach(table, sep), '\n'), '\n'), sep) == table
  {
    var joined := JoinEach(table, sep);
    forall i | 0 <= i < |table| ensures Split(joined[i], sep) == table[i] && '\n' !in joined[i] {
      SplitJoin(table[i], sep);
      JoinAvoids(table[i], sep, '\n');
    }
    SplitJoin(joined, '\n');
  }

  lemma HeaderClean(lines: seq<seq<string>>, sep: char, newSample: Option<string>, newClass: Option<string>, addClassNum: bool)
    requires |lines| >= 1 && |lines[0]| >= 1 && CleanRow(lines[0], sep) && sep !in "ClassNum"
    requires newSample.Some? ==> sep !in newSample.value && '\n' !in newSample.value
    requires newClass.Some? ==> sep !in newClass.value && '\n' !in newClass.value
    requires HeaderLabels(lines[0], newSample, newClass, addClassNum).Success?
    ensures |HeaderLabels(lines[0], newSample, newClass, addClassNum).value| >= 2
    ensures CleanRow(HeaderLabels(lines[0], newSample, newClass, addClassNum).value, sep)
  {
    var labels := HeaderLabels(lines[0], newSample, newClass, addClassNum).value;
    forall f | 0 <= f < |labels| ensures sep !in labels[f] && '\n' !in labels[f] {
      if f >= 2 && !(addClassNum && f == 2) {
        var g := if addClassNum then f - 1 else f;
        assert labels[f] == lines[0][g];
      }
    }
  }

  lemma RowsClean(lines: seq<seq<string>>, sep: char, addClassNum: bool)
    requires forall i :: 0 <= i < |lines| ==> CleanRow(lines[i], sep)
    requires !IsDigit(sep)
    ensures forall k :: 0 <= k < |Encode(lines, addClassNum).rows| ==>
      |Encode(lines, addClassNum).rows[k]| > 2 && CleanRow(Encode(lines, addClassNum).rows[k], sep)
  {
    var e, ks := Encode(lines, addClassNum), Kept(lines);
    if addClassNum { EncodeRowsCoded(lines); } else { EncodeRowsUncoded(lines); }
    forall k | 0 <= k < |e.rows| ensures |e.rows[k]| > 2 && CleanRow(e.rows[k], sep) {
      assert ks[k] in lines;
      assert CleanRow(ks[k], sep);
      if addClassNum {
        var c := Lookup(e.classMap, ks[k][1]).value;
        var row := ks[k][..2] + [NatToString(c)] + ks[k][2..];
        assert e.rows[k] == row;
        forall f | 0 <= f < |row| ensures sep !in row[f] && '\n' !in row[f] {
          if f < 2 { assert row[f] == ks[k][f]; }
          else if f > 2 { assert row[f] == ks[k][f - 1]; }
          else { assert !IsDigit('\n'); }
        }
      }
    }
  }

  /**
   * Reading the produced text back, line by line and field by field, gives the new
   * header followed by the rows, provided the separator cannot occur inside a
   * field: it is not a line feed, a digit or a letter of "ClassNum", and does not
   * occur in the replacement column names.
   */
  lemma ParsedTextRoundTrip(text: string, sep: char, newSample: Option<string>, newClass: Option<string>, addClassNum: bool)
    requires sep != '\n' && !IsDigit(sep) && sep !in "ClassNum"
    requires newSample.Some? ==> sep !in newSample.value && '\n' !in newSample.value
    requires newClass.Some? ==> sep !in newClass.value && '\n' !in newClass.value
    requires ParseDataTable(text, sep, newSample, newClass, addClassNum).Success?
    ensures var lines := TableLines(text, sep);
      Tokenize(Split(ParseDataTable(text, sep, newSample, newClass, addClassNum).value.text, '\n'), sep)
        == [HeaderLabels(lines[0], newSample, newClass, addClassNum).value] + Encode(lines[1..], addClassNum).rows
  {
    var textLines := Split(NormalizeNewlines(text), '\n');
    var lines := TableLines(text, sep);
    forall i | 0 <= i < |lines| ensures CleanRow(lines[i], sep) {
      SplitPartsAvoid(textLines[i], sep, '\n');
    }
    HeaderClean(lines, sep, newSample, newClass, addClassNum);
    RowsClean(lines[1..], sep, addClassNum);
    var labels := HeaderLabels(lines[0], newSample, newClass, addClassNum).value;
    var rows := Encode(lines[1..], addClassNum).rows;
    var table := [labels] + rows;
    JoinEachAppend([labels], rows, sep);
    JoinedTableRoundTrip(table, sep);
  }
}
