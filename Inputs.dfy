/**
 * The two small input rules in front of the table pipeline: how a line of study
 * identifiers typed by the user is cut into identifiers, and which field separator an
 * uploaded file is read with, chosen from its file-name extension.
 */
module Inputs {
  import opened Text

  predicate NoDoubleSpace(s: string)
  {
    forall i :: 0 <= i < |s| - 1 ==> !(s[i] == ' ' && s[i + 1] == ' ')
  }

  /** `s` without its leading spaces. */
  function SkipSpaces(s: string): (r: string)
    ensures |r| <= |s| && r == s[|s| - |r|..]
    ensures |r| > 0 ==> r[0] != ' '
  {
    if |s| > 0 && s[0] == ' ' then SkipSpaces(s[1..]) else s
  }

  /** `re.sub("[ ]+", " ", s)`: every run of spaces becomes one space (tabs are untouched). */
  function CollapseSpaces(s: string): (r: string)
    ensures NoDoubleSpace(r)
    ensures |r| > 0 <==> |s| > 0
    ensures |r| > 0 ==> (r[0] == ' ' <==> s[0] == ' ')
    decreases |s|
  {
    if |s| == 0 then s
    else if s[0] == ' ' then
      var rest := SkipSpaces(s);
      assert |rest| < |s| by { assert SkipSpaces(s) == SkipSpaces(s[1..]); }
      [' '] + CollapseSpaces(rest)
    else [s[0]] + CollapseSpaces(s[1..])
  }

  /** `s` with every space removed. */
  function RemoveSpaces(s: string): string
  {
    if |s| == 0 then s
    else if s[0] == ' ' then RemoveSpaces(s[1..])
    else [s[0]] + RemoveSpaces(s[1..])
  }

  lemma {:induction false} RemoveSkippedSpaces(s: string)
    ensures RemoveSpaces(SkipSpaces(s)) == RemoveSpaces(s)
  {
    if |s| > 0 && s[0] == ' ' {
      RemoveSkippedSpaces(s[1..]);
    }
  }

  /** Collapsing keeps every character other than a space, in order. */
  lemma {:induction false} CollapseKeepsText(s: string)
    ensures RemoveSpaces(CollapseSpaces(s)) == RemoveSpaces(s)
    decreases |s|
  {
    if |s| > 0 {
      if s[0] == ' ' {
        var rest := SkipSpaces(s);
        assert SkipSpaces(s) == SkipSpaces(s[1..]);
        CollapseKeepsText(rest);
        RemoveSkippedSpaces(s);
        assert ([' '] + CollapseSpaces(rest))[1..] == CollapseSpaces(rest);
      } else {
        CollapseKeepsText(s[1..]);
        assert ([s[0]] + CollapseSpaces(s[1..]))[1..] == CollapseSpaces(s[1..]);
      }
    }
  }

  /** A string without runs of spaces is left as it is, so collapsing twice changes nothing. */
  lemma {:induction false} CollapseIdentity(s: string)
    requires NoDoubleSpace(s)
    ensures CollapseSpaces(s) == s
  {
    if |s| > 0 {
      assert NoDoubleSpace(s[1..]);
      CollapseIdentity(s[1..]);
      if s[0] == ' ' {
        assert |s| > 1 ==> s[1] != ' ';
        assert SkipSpaces(s) == s[1..];
      }
      assert s == [s[0]] + s[1..];
    }
  }

  /** `n` spaces. */
  function Spaces(n: nat): (r: string)
    ensures |r| == n && forall i :: 0 <= i < n ==> r[i] == ' '
  {
    seq(n, i => ' ')
  }

  /** Leading spaces of `a + b` are those of `a`, then those of `b` if `a` was all spaces. */
  lemma {:induction false} SkipSpacesAppend(a: string, b: string)
    requires |SkipSpaces(a)| > 0 || |b| == 0 || b[0] != ' '
    ensures SkipSpaces(a + b) == SkipSpaces(a) + b
  {
    if |a| == 0 {
      assert a + b == b;
    } else if a[0] == ' ' {
      var s := a + b;
      assert s[0] == ' ' && s[1..] == a[1..] + b;
      SkipSpacesAppend(a[1..], b);
    }
  }

  /**
   * Collapsing works piece by piece: the collapsed `a + b` is the collapsed `a` followed
   * by the collapsed `b`, unless the cut falls inside a run of spaces.
   */
  lemma {:induction false} CollapseAppend(a: string, b: string)
    requires |a| == 0 || |b| == 0 || a[|a| - 1] != ' ' || b[0] != ' '
    ensures CollapseSpaces(a + b) == CollapseSpaces(a) + CollapseSpaces(b)
    decreases |a|
  {
    if |a| == 0 {
      assert a + b == b;
    } else if a[0] == ' ' {
      var rest := SkipSpaces(a);
      if |rest| > 0 {
        assert rest[|rest| - 1] == a[|a| - 1];
        CollapseAppend(rest, b);
      } else {
        SkippedAllSpaces(a);
        assert rest + b == b;
      }
      CollapseAppendSpace(a, b);
    } else {
      CollapseAppend(a[1..], b);
      CollapseAppendOther(a, b);
    }
  }

  /** The step of CollapseAppend for `a` starting with a run of spaces. */
  lemma CollapseAppendSpace(a: string, b: string)
    requires |a| > 0 && a[0] == ' '
    requires |SkipSpaces(a)| > 0 || |b| == 0 || b[0] != ' '
    requires CollapseSpaces(SkipSpaces(a) + b) == CollapseSpaces(SkipSpaces(a)) + CollapseSpaces(b)
    ensures CollapseSpaces(a + b) == CollapseSpaces(a) + CollapseSpaces(b)
  {
    var rest := SkipSpaces(a);
    SkipSpacesAppend(a, b);
    assert SkipSpaces(a + b) == rest + b;
    assert CollapseSpaces(a + b) == " " + CollapseSpaces(rest + b);
    ConcatAssoc(" ", CollapseSpaces(rest), CollapseSpaces(b));
  }

  /** The step of CollapseAppend for `a` starting with another character. */
  lemma CollapseAppendOther(a: string, b: string)
    requires |a| > 0 && a[0] != ' '
    requires CollapseSpaces(a[1..] + b) == CollapseSpaces(a[1..]) + CollapseSpaces(b)
    ensures CollapseSpaces(a + b) == CollapseSpaces(a) + CollapseSpaces(b)
  {
    var s := a + b;
    assert s[0] == a[0] && s[1..] == a[1..] + b;
    ConcatAssoc([a[0]], CollapseSpaces(a[1..]), CollapseSpaces(b));
  }

  /** A non-empty string whose spaces-skipped rest is empty ends in a space. */
  lemma {:induction false} SkippedAllSpaces(a: string)
    requires |a| > 0 && SkipSpaces(a) == ""
    ensures a[|a| - 1] == ' '
  {
    if |a| > 1 {
      SkippedAllSpaces(a[1..]);
    }
  }

  /** A leading run of spaces becomes one space. */
  lemma CollapseLeadingRun(n: nat, b: string)
    requires n >= 1
    requires |b| == 0 || b[0] != ' '
    ensures CollapseSpaces(Spaces(n) + b) == " " + CollapseSpaces(b)
  {
    AllSpacesSkipped(Spaces(n));
    SkipSpacesAppend(Spaces(n), b);
  }

  /** A run of any number of spaces between two words becomes exactly one space. */
  lemma CollapseRun(a: string, n: nat, b: string)
    requires n >= 1
    requires |a| == 0 || a[|a| - 1] != ' '
    requires |b| == 0 || b[0] != ' '
    ensures CollapseSpaces(a + Spaces(n) + b) == CollapseSpaces(a) + " " + CollapseSpaces(b)
  {
    var t := Spaces(n) + b;
    assert a + Spaces(n) + b == a + t;
    CollapseAppend(a, t);
    CollapseLeadingRun(n, b);
    ConcatAssoc(CollapseSpaces(a), " ", CollapseSpaces(b));
  }

  lemma {:induction false} AllSpacesSkipped(s: string)
    requires forall i :: 0 <= i < |s| ==> s[i] == ' '
    ensures SkipSpaces(s) == ""
  {
    if |s| > 0 {
      AllSpacesSkipped(s[1..]);
    }
  }

  /** The study identifiers of `RetrieveStudiesAnalysisAndResultsData`: collapse, then split on a space. */
  function StudyIds(s: string): (ids: seq<string>)
    ensures |ids| >= 1
    ensures forall k :: 0 <= k < |ids| ==> ' ' !in ids[k]
  {
    Split(CollapseSpaces(s), ' ')
  }

  /** A word without spaces is one identifier. */
  lemma StudyIdsOfWord(w: string)
    requires ' ' !in w
    ensures StudyIds(w) == [w]
  {
    CollapseIdentity(w);
    SplitWithoutSeparator(w, ' ');
  }

  /**
   * A run of spaces of any length separates identifiers: the identifiers of
   * `a`, spaces, `b` are those of `a` followed by those of `b`.
   */
  lemma StudyIdsAtRun(a: string, n: nat, b: string)
    requires n >= 1
    requires |a| == 0 || a[|a| - 1] != ' '
    requires |b| == 0 || b[0] != ' '
    ensures StudyIds(a + Spaces(n) + b) == StudyIds(a) + StudyIds(b)
  {
    CollapseRun(a, n, b);
    assert CollapseSpaces(a) + " " + CollapseSpaces(b) == CollapseSpaces(a) + [' '] + CollapseSpaces(b);
    SplitAtSeparator(CollapseSpaces(a), CollapseSpaces(b), ' ');
  }

  function Concat(parts: seq<string>): string
  {
    if |parts| == 0 then "" else parts[0] + Concat(parts[1..])
  }

  lemma {:induction false} ConcatSplit(t: string)
    ensures Concat(Split(t, ' ')) == RemoveSpaces(t)
  {
    if |t| > 0 {
      ConcatSplit(t[1..]);
      var rest := Split(t[1..], ' ');
      if t[0] == ' ' {
        assert ([""] + rest)[1..] == rest;
      } else {
        var parts := [[t[0]] + rest[0]] + rest[1..];
        assert parts[1..] == rest[1..];
        assert Concat(rest) == rest[0] + Concat(rest[1..]);
      }
    }
  }

  lemma SplitFirstNonEmpty(t: string, sep: char)
    requires |t| > 0 && t[0] != sep
    ensures Split(t, sep)[0] != ""
  {
  }

  lemma {:induction false} SplitInteriorNonEmpty(t: string)
    requires NoDoubleSpace(t)
    ensures var p := Split(t, ' '); forall k :: 0 < k < |p| - 1 ==> p[k] != ""
  {
    if |t| > 0 {
      var rest := Split(t[1..], ' ');
      assert NoDoubleSpace(t[1..]);
      SplitInteriorNonEmpty(t[1..]);
      if t[0] == ' ' && |rest| >= 2 {
        assert |t| > 1 && t[1] != ' ';
        SplitFirstNonEmpty(t[1..], ' ');
        var p := Split(t, ' ');
        assert p == [""] + rest;
        forall k | 0 < k < |p| - 1 ensures p[k] != "" {
          assert p[k] == rest[k - 1];
        }
      }
    }
  }

  /**
   * The identifiers never contain a space, only the first and the last can be empty
   * (from a leading or trailing space), together they hold every non-space character
   * of the input in order, and joined with single spaces they give the collapsed input.
   */
  lemma StudyIdsShape(s: string)
    ensures var ids := StudyIds(s);
      && (forall k :: 0 <= k < |ids| ==> ' ' !in ids[k])
      && (forall k :: 0 < k < |ids| - 1 ==> ids[k] != "")
      && Concat(ids) == RemoveSpaces(s)
      && Join(ids, ' ') == CollapseSpaces(s)
  {
    SplitInteriorNonEmpty(CollapseSpaces(s));
    ConcatSplit(CollapseSpaces(s));
    CollapseKeepsText(s);
    JoinSplit(CollapseSpaces(s), ' ');
  }

  /** `s.rfind(c)`: the last position of `c` in `s`, or -1. */
  function LastIndexOf(s: string, c: char): (i: int)
    ensures -1 <= i < |s|
    ensures i >= 0 ==> s[i] == c
    ensures forall j :: i < j < |s| ==> s[j] != c
  {
    if |s| == 0 then -1
    else if s[|s| - 1] == c then |s| - 1
    else LastIndexOf(s[..|s| - 1], c)
  }

  /**
   * The extension part of `os.path.splitext(path)` (POSIX rules): from the last dot
   * of the last path component to the end, unless that component has nothing but dots
   * before that dot (".bashrc", "..txt"), in which case there is no extension.
   */
  function Extension(path: string): (ext: string)
    ensures |ext| <= |path| && ext == path[|path| - |ext|..]
    ensures |ext| > 0 ==> ext[0] == '.' && '.' !in ext[1..] && '/' !in ext
  {
    var sepIndex := LastIndexOf(path, '/');
    var dotIndex := LastIndexOf(path, '.');
    if dotIndex > sepIndex && exists i :: sepIndex < i < dotIndex && path[i] != '.'
    then path[dotIndex..]
    else ""
  }

  /**
   * `re.match("^(\.txt)|(\.tsv)$", ext)`.  The alternation is not grouped, so the
   * pattern reads "starts with .txt" or "is .tsv" (optionally followed by a final
   * newline); matching is case-sensitive.
   */
  predicate TabSeparatedExtension(ext: string)
  {
    (|ext| >= 4 && ext[..4] == ".txt") || ext == ".tsv" || ext == ".tsv\n"
  }

  /** The field separator `RetrieveUploadedData` reads an uploaded file with. */
  function UploadSeparator(name: string): (sep: char)
    ensures sep == '\t' || sep == ','
  {
    if TabSeparatedExtension(Extension(name)) then '\t' else ','
  }

  lemma {:induction false} LastIndexOfAppend(a: string, b: string, c: char)
    requires c in b
    ensures LastIndexOf(a + b, c) == |a| + LastIndexOf(b, c)
    decreases |b|
  {
    if b[|b| - 1] != c {
      assert (a + b)[..|a + b| - 1] == a + b[..|b| - 1];
      LastIndexOfAppend(a, b[..|b| - 1], c);
    }
  }

  lemma {:induction false} LastIndexOfAppendAbsent(a: string, b: string, c: char)
    requires c !in b
    ensures LastIndexOf(a + b, c) == LastIndexOf(a, c)
    decreases |b|
  {
    if |b| > 0 {
      assert (a + b)[..|a + b| - 1] == a + b[..|b| - 1];
      LastIndexOfAppendAbsent(a, b[..|b| - 1], c);
    } else {
      assert a + b == a;
    }
  }

  lemma {:induction false} LastIndexOfAbsent(s: string, c: char)
    requires c !in s
    ensures LastIndexOf(s, c) == -1
    decreases |s|
  {
    if |s| > 0 {
      LastIndexOfAbsent(s[..|s| - 1], c);
    }
  }

  /**
   * A file name made of a stem with some character other than a dot and no slash,
   * then a dot and a dot-free, slash-free suffix, has exactly ".suffix" as extension.
   */
  lemma ExtensionOfSimpleName(stem: string, suffix: string)
    requires '/' !in stem && '/' !in suffix && '.' !in suffix
    requires exists i :: 0 <= i < |stem| && stem[i] != '.'
    ensures Extension(stem + "." + suffix) == "." + suffix
  {
    var path := stem + "." + suffix;
    assert path == stem + ("." + suffix);
    LastIndexOfAppend(stem, "." + suffix, '.');
    LastIndexOfAbsent(suffix, '.');
    assert LastIndexOf("." + suffix, '.') == 0;
    assert '/' !in path;
    LastIndexOfAbsent(path, '/');
    var i :| 0 <= i < |stem| && stem[i] != '.';
    assert path[i] == stem[i];
  }

  /**
   * For a simple name `stem.suffix`, the separator is a tab exactly when the suffix
   * starts with "txt" or is "tsv" (optionally followed by a final newline): so "x.txt",
   * "x.tsv" and "x.txt2" are read with tabs, and "x.csv", "x.TXT" and "x.tsvx" with
   * commas, since the match is case-sensitive and ".tsv" must end the name.
   */
  lemma UploadSeparatorOfSimpleName(stem: string, suffix: string)
    requires '/' !in stem && '/' !in suffix && '.' !in suffix
    requires exists i :: 0 <= i < |stem| && stem[i] != '.'
    ensures UploadSeparator(stem + "." + suffix) ==
      if (|suffix| >= 3 && suffix[..3] == "txt") || suffix == "tsv" || suffix == "tsv\n" then '\t' else ','
  {
    ExtensionOfSimpleName(stem, suffix);
    var ext := "." + suffix;
    assert |ext| >= 4 ==> ext[..4] == "." + suffix[..3];
    assert |ext| >= 4 && ext[..4] == ".txt" <==> |suffix| >= 3 && suffix[..3] == "txt" by {
      if |ext| >= 4 && ext[..4] == ".txt" {
        assert suffix[..3] == ext[1..4];
      }
    }
    assert ext == ".tsv" <==> suffix == "tsv" by {
      if ext == ".tsv" { assert suffix == ext[1..]; }
    }
    assert ext == ".tsv\n" <==> suffix == "tsv\n" by {
      if ext == ".tsv\n" { assert suffix == ext[1..]; }
    }
  }

  /** A hidden file named ".txt" has no extension, so it is read with commas. */
  lemma HiddenTxtFileUsesComma()
    ensures Extension(".txt") == ""
    ensures UploadSeparator(".txt") == ','
  {
    LastIndexOfAppendAbsent(".", "txt", '.');
    assert "." + "txt" == ".txt";
    assert LastIndexOf(".txt", '.') == 0;
  }
}
