/**
  The error checker: a syntax check of the whole text, then a scan of every
  whitespace-separated word of every line for known misspellings and for
  words suspiciously close to a correct spelling. The parser and the fuzzy
  matcher are library code and enter the model as opaque functions.
 */
module ErrorChecker {
  import opened Wrappers
  import opened PyStr

  /** Known misspellings and their corrections. */
  const CommonMistakes: map<string, string> := map[
    "rnage" := "range",
    "pritn" := "print",
    "fucntion" := "function"
  ]

  /** What the parser reports about text it rejects. */
  datatype SyntaxError = SyntaxError(lineno: int, msg: string)

  /** One reported problem: a 1-based line number, a message and a hint. */
  datatype ErrorRecord = ErrorRecord(line: int, message: string, hint: string)

  const SyntaxHint := "Check syntax near this line"

  /** The record for a known misspelling `w` on line `lineNo`. */
  function TypoRecord(lineNo: int, w: string): ErrorRecord
    requires w in CommonMistakes
  {
    ErrorRecord(lineNo, "Possible typo: '" + w + "'", "Did you mean '" + CommonMistakes[w] + "'?")
  }

  /** The record for a word `w` that the fuzzy matcher relates to `m`. */
  function SuspiciousRecord(lineNo: int, w: string, m: string): ErrorRecord
  {
    ErrorRecord(lineNo, "Suspicious word: '" + w + "'", "Did you mean '" + m + "'?")
  }

  /** The fuzzy matcher answers with one of the correct spellings or with nothing. */
  ghost predicate MatchesCorrections(closeMatch: string -> Option<string>) {
    forall w :: closeMatch(w).Some? ==> closeMatch(w).value in CommonMistakes.Values
  }

  /** The records of one word: the exact typo first, then the fuzzy one. */
  function WordRecords(w: string, lineNo: int, closeMatch: string -> Option<string>): seq<ErrorRecord>
  {
    (if w in CommonMistakes then [TypoRecord(lineNo, w)] else []) +
    (if closeMatch(w).Some? && w !in CommonMistakes.Values
     then [SuspiciousRecord(lineNo, w, closeMatch(w).value)] else [])
  }

  /** The records of the words `ws` of line `lineNo`, in word order. */
  function WordsRecords(ws: seq<string>, lineNo: int, closeMatch: string -> Option<string>): seq<ErrorRecord>
    decreases |ws|
  {
    if ws == [] then []
    else WordsRecords(ws[..|ws| - 1], lineNo, closeMatch) + WordRecords(ws[|ws| - 1], lineNo, closeMatch)
  }

  /** The records of `lines`, numbered from 1, in line order. */
  function LinesRecords(lines: seq<string>, closeMatch: string -> Option<string>): seq<ErrorRecord>
    decreases |lines|
  {
    if lines == [] then []
    else
      LinesRecords(lines[..|lines| - 1], closeMatch) +
      WordsRecords(Words(lines[|lines| - 1]), |lines|, closeMatch)
  }

  /** The record of a failed parse, if any. */
  function SyntaxRecords(e: Option<SyntaxError>): seq<ErrorRecord>
  {
    match e
    case Some(err) => [ErrorRecord(err.lineno, err.msg, SyntaxHint)]
    case None => []
  }

  /** Everything the checker reports for `code`. */
  function Report(code: string, parse: string -> Option<SyntaxError>,
                  closeMatch: string -> Option<string>): seq<ErrorRecord>
  {
    SyntaxRecords(parse(code)) + LinesRecords(Split(code, '\n'), closeMatch)
  }

  /** The checker: parse, then scan every word of every line. */
  method CheckErrors(code: string, parse: string -> Option<SyntaxError>,
                     closeMatch: string -> Option<string>) returns (errors: seq<ErrorRecord>)
    ensures errors == Report(code, parse, closeMatch)
  {
    errors := [];
    match parse(code) {
      case Some(e) =>
        errors := errors + [ErrorRecord(e.lineno, e.msg, SyntaxHint)];
      case None =>
    }
    var lines := Split(code, '\n');
    var idx := 0;
    while idx < |lines|
      invariant 0 <= idx <= |lines|
      invariant errors == SyntaxRecords(parse(code)) + LinesRecords(lines[..idx], closeMatch)
    {
      ghost var done := errors;
      errors := ScanLine(errors, lines[idx], idx + 1, closeMatch);
      LinesRecordsSnoc(lines, idx, closeMatch);
      AppendAssoc(SyntaxRecords(parse(code)), LinesRecords(lines[..idx], closeMatch),
                  WordsRecords(Words(lines[idx]), idx + 1, closeMatch));
      idx := idx + 1;
    }
    assert lines[..idx] == lines;
  }

  /** The inner loop of the checker: append the records of every word of
      `line`, which is line `lineNo`. */
  method ScanLine(errors0: seq<ErrorRecord>, line: string, lineNo: int,
                  closeMatch: string -> Option<string>) returns (errors: seq<ErrorRecord>)
    ensures errors == errors0 + WordsRecords(Words(line), lineNo, closeMatch)
  {
    errors := errors0;
    var words := Words(line);
    var j := 0;
    while j < |words|
      invariant 0 <= j <= |words|
      invariant errors == errors0 + WordsRecords(words[..j], lineNo, closeMatch)
    {
      ghost var before := errors;
      errors := RecordWord(errors, words[j], lineNo, closeMatch);
      ScanStep(errors0, before, errors, words, j, lineNo, closeMatch);
      j := j + 1;
    }
    assert words[..j] == words;
  }

  /** The body of the inner loop for the word `w` of line `lineNo`: the
      exact-typo record, then the fuzzy one. */
  method RecordWord(errors0: seq<ErrorRecord>, w: string, lineNo: int,
                    closeMatch: string -> Option<string>) returns (errors: seq<ErrorRecord>)
    ensures errors == errors0 + WordRecords(w, lineNo, closeMatch)
  {
    errors := errors0;
    ghost var typo: seq<ErrorRecord> := if w in CommonMistakes then [TypoRecord(lineNo, w)] else [];
    if w in CommonMistakes {
      errors := errors + [TypoRecord(lineNo, w)];
    }
    assert errors == errors0 + typo;
    ghost var fuzzy: seq<ErrorRecord> :=
      if closeMatch(w).Some? && w !in CommonMistakes.Values
      then [SuspiciousRecord(lineNo, w, closeMatch(w).value)] else [];
    var matches := closeMatch(w);
    if matches.Some? && w !in CommonMistakes.Values {
      errors := errors + [SuspiciousRecord(lineNo, w, matches.value)];
    }
    assert errors == errors0 + typo + fuzzy;
    AppendAssoc(errors0, typo, fuzzy);
  }

  /** One word of the scan: appending its records extends the invariant by one word. */
  lemma ScanStep(errors0: seq<ErrorRecord>, before: seq<ErrorRecord>, after: seq<ErrorRecord>,
                 words: seq<string>, j: nat, lineNo: int, closeMatch: string -> Option<string>)
    requires j < |words|
    requires before == errors0 + WordsRecords(words[..j], lineNo, closeMatch)
    requires after == before + WordRecords(words[j], lineNo, closeMatch)
    ensures after == errors0 + WordsRecords(words[..j + 1], lineNo, closeMatch)
  {
    WordsRecordsSnoc(words, j, lineNo, closeMatch);
    AppendAssoc(errors0, WordsRecords(words[..j], lineNo, closeMatch), WordRecords(words[j], lineNo, closeMatch));
  }

  lemma AppendAssoc(a: seq<ErrorRecord>, b: seq<ErrorRecord>, c: seq<ErrorRecord>)
    ensures a + b + c == a + (b + c)
  {
  }

  lemma WordsRecordsSnoc(ws: seq<string>, j: nat, lineNo: int, closeMatch: string -> Option<string>)
    requires j < |ws|
    ensures WordsRecords(ws[..j + 1], lineNo, closeMatch) ==
            WordsRecords(ws[..j], lineNo, closeMatch) + WordRecords(ws[j], lineNo, closeMatch)
  {
    assert ws[..j + 1][..j] == ws[..j];
  }

  lemma LinesRecordsSnoc(lines: seq<string>, i: nat, closeMatch: string -> Option<string>)
    requires i < |lines|
    ensures LinesRecords(lines[..i + 1], closeMatch) ==
            LinesRecords(lines[..i], closeMatch) + WordsRecords(Words(lines[i]), i + 1, closeMatch)
  {
    assert lines[..i + 1][..i] == lines[..i];
  }

  /** A word yields at most two records: an exact typo, then a fuzzy match. */
  lemma AtMostTwoPerWord(ws: seq<string>, lineNo: int, closeMatch: string -> Option<string>)
    ensures |WordsRecords(ws, lineNo, closeMatch)| <= 2 * |ws|
    decreases |ws|
  {
    if ws != [] {
      AtMostTwoPerWord(ws[..|ws| - 1], lineNo, closeMatch);
    }
  }

  /** Every record of a line carries that line's number. */
  lemma {:induction false} WordsRecordsOnLine(ws: seq<string>, lineNo: int, closeMatch: string -> Option<string>)
    ensures forall r :: r in WordsRecords(ws, lineNo, closeMatch) ==> r.line == lineNo
    decreases |ws|
  {
    if ws != [] {
      WordsRecordsOnLine(ws[..|ws| - 1], lineNo, closeMatch);
    }
  }

  /** The records are in non-decreasing line order. */
  ghost predicate InLineOrder(rs: seq<ErrorRecord>) {
    forall i, j :: 0 <= i < j < |rs| ==> rs[i].line <= rs[j].line
  }

  lemma ConcatInLineOrder(before: seq<ErrorRecord>, last: seq<ErrorRecord>, n: int)
    requires InLineOrder(before)
    requires forall r :: r in before ==> r.line < n
    requires forall r :: r in last ==> r.line == n
    ensures InLineOrder(before + last)
  {
    var rs := before + last;
    forall i, j | 0 <= i < j < |rs| ensures rs[i].line <= rs[j].line {
      if j < |before| {
        assert rs[i] == before[i] && rs[j] == before[j];
      } else if i < |before| {
        assert rs[i] == before[i] && before[i] in before;
        assert rs[j] == last[j - |before|] && last[j - |before|] in last;
      } else {
        assert rs[i] == last[i - |before|] && last[i - |before|] in last;
        assert rs[j] == last[j - |before|] && last[j - |before|] in last;
      }
    }
  }

  /** Every record's line lies between 1 and the number of lines, and the
      records come in line order. */
  lemma {:induction false} LinesRecordsOrdered(lines: seq<string>, closeMatch: string -> Option<string>)
    ensures forall r :: r in LinesRecords(lines, closeMatch) ==> 1 <= r.line <= |lines|
    ensures InLineOrder(LinesRecords(lines, closeMatch))
    decreases |lines|
  {
    if lines != [] {
      var n := |lines|;
      var init := lines[..n - 1];
      LinesRecordsOrdered(init, closeMatch);
      var ws := Words(lines[n - 1]);
      WordsRecordsOnLine(ws, n, closeMatch);
      var before := LinesRecords(init, closeMatch);
      var last := WordsRecords(ws, n, closeMatch);
      assert LinesRecords(lines, closeMatch) == before + last;
      ConcatInLineOrder(before, last, n);
    }
  }

  /** Each record of a word is either the typo record of a known misspelling
      or a fuzzy record for a word that is not itself a correct spelling. */
  lemma WordRecordsExplained(w: string, lineNo: int, closeMatch: string -> Option<string>)
    ensures forall r :: r in WordRecords(w, lineNo, closeMatch) ==>
              (w in CommonMistakes && r == TypoRecord(lineNo, w)) ||
              (w !in CommonMistakes.Values && closeMatch(w).Some? &&
               r == SuspiciousRecord(lineNo, w, closeMatch(w).value))
  {
  }

  /** `r` is a record of the word at some position of `ws`. */
  ghost predicate FromSomeWord(ws: seq<string>, lineNo: int, closeMatch: string -> Option<string>, r: ErrorRecord) {
    exists k :: 0 <= k < |ws| && r in WordRecords(ws[k], lineNo, closeMatch)
  }

  /** Every record of the typo scan is explained by one word of its line. */
  lemma {:induction false} LinesRecordsExplained(lines: seq<string>, closeMatch: string -> Option<string>)
    ensures forall r :: r in LinesRecords(lines, closeMatch) ==>
              1 <= r.line <= |lines| && FromSomeWord(Words(lines[r.line - 1]), r.line, closeMatch, r)
    decreases |lines|
  {
    if lines != [] {
      var n := |lines|;
      var init := lines[..n - 1];
      LinesRecordsExplained(init, closeMatch);
      var ws := Words(lines[n - 1]);
      assert LinesRecords(lines, closeMatch) == LinesRecords(init, closeMatch) + WordsRecords(ws, n, closeMatch);
      forall r | r in LinesRecords(lines, closeMatch)
        ensures 1 <= r.line <= n && FromSomeWord(Words(lines[r.line - 1]), r.line, closeMatch, r)
      {
        if r in LinesRecords(init, closeMatch) {
          assert lines[r.line - 1] == init[r.line - 1];
        } else {
          assert r in WordsRecords(ws, n, closeMatch);
          WordsRecordsOnLine(ws, n, closeMatch);
          WordsRecordsExplained(ws, n, closeMatch, r);
        }
      }
    }
  }

  /** A record of a line's words comes from one of those words. */
  lemma {:induction false} WordsRecordsExplained(ws: seq<string>, lineNo: int, closeMatch: string -> Option<string>,
                                                 r: ErrorRecord)
    requires r in WordsRecords(ws, lineNo, closeMatch)
    ensures FromSomeWord(ws, lineNo, closeMatch, r)
    decreases |ws|
  {
    var init := ws[..|ws| - 1];
    if r in WordsRecords(init, lineNo, closeMatch) {
      WordsRecordsExplained(init, lineNo, closeMatch, r);
      var k :| 0 <= k < |init| && r in WordRecords(init[k], lineNo, closeMatch);
      assert ws[k] == init[k];
    } else {
      assert r in WordRecords(ws[|ws| - 1], lineNo, closeMatch);
    }
  }

  /** Every known misspelling among the words of line `i + 1` is reported,
      with its correction. */
  lemma {:induction false} EveryTypoReported(lines: seq<string>, closeMatch: string -> Option<string>, i: nat, k: nat)
    requires i < |lines| && k < |Words(lines[i])| && Words(lines[i])[k] in CommonMistakes
    ensures TypoRecord(i + 1, Words(lines[i])[k]) in LinesRecords(lines, closeMatch)
  {
    var rec := TypoRecord(i + 1, Words(lines[i])[k]);
    var line := WordsRecords(Words(lines[i]), i + 1, closeMatch);
    WordReported(Words(lines[i]), i + 1, closeMatch, k);
    LinesRecordsSnoc(lines, i, closeMatch);
    InConcat(rec, LinesRecords(lines[..i], closeMatch), line);
    LinesRecordsPrefix(lines, i + 1, closeMatch);
  }

  /** A known typo typed between two blanks of a line is reported on that line. */
  lemma TypoBetweenBlanksReported(lines: seq<string>, closeMatch: string -> Option<string>, i: nat,
                                  a: string, c: char, w: string, d: char, b: string)
    requires i < |lines| && lines[i] == a + [c] + w + [d] + b
    requires IsSpace(c) && IsSpace(d) && IsWord(w) && w in CommonMistakes
    ensures TypoRecord(i + 1, w) in LinesRecords(lines, closeMatch)
  {
    WordBetweenBlanks(a, c, w, d, b);
    var k := |Words(a)|;
    assert Words(lines[i])[k] == w;
    EveryTypoReported(lines, closeMatch, i, k);
  }

  /** The records of the first `m` lines begin the records of all lines. */
  lemma {:induction false} LinesRecordsPrefix(lines: seq<string>, m: nat, closeMatch: string -> Option<string>)
    requires m <= |lines|
    ensures LinesRecords(lines[..m], closeMatch) <= LinesRecords(lines, closeMatch)
    decreases |lines| - m
  {
    if m == |lines| {
      assert lines[..m] == lines;
    } else {
      LinesRecordsPrefix(lines, m + 1, closeMatch);
      LinesRecordsSnoc(lines, m, closeMatch);
    }
  }

  lemma InConcat(x: ErrorRecord, a: seq<ErrorRecord>, b: seq<ErrorRecord>)
    ensures x in a + b <==> x in a || x in b
  {
  }

  lemma {:induction false} WordReported(ws: seq<string>, lineNo: int, closeMatch: string -> Option<string>, k: nat)
    requires k < |ws| && ws[k] in CommonMistakes
    ensures TypoRecord(lineNo, ws[k]) in WordsRecords(ws, lineNo, closeMatch)
    decreases |ws|
  {
    if k < |ws| - 1 {
      var init := ws[..|ws| - 1];
      assert init[k] == ws[k];
      WordReported(init, lineNo, closeMatch, k);
    } else {
      assert TypoRecord(lineNo, ws[k]) in WordRecords(ws[k], lineNo, closeMatch);
    }
  }

  /** A correct spelling never draws a record, whatever the fuzzy matcher says. */
  lemma CorrectSpellingNeverFlagged(w: string, lineNo: int, closeMatch: string -> Option<string>)
    requires w in CommonMistakes.Values
    ensures WordRecords(w, lineNo, closeMatch) == []
  {
    assert "range" !in CommonMistakes && "print" !in CommonMistakes && "function" !in CommonMistakes;
  }

  /** The known misspellings are made of lower-case letters, so a word with
      punctuation attached (such as `pritn(`) is never an exact typo. */
  lemma PunctuatedWordNotTypo(w: string, i: nat)
    requires i < |w| && !('a' <= w[i] <= 'z')
    ensures w !in CommonMistakes
  {
  }

  /** With a well-behaved matcher, every hint names a correct spelling. */
  lemma HintsNameCorrections(w: string, lineNo: int, closeMatch: string -> Option<string>)
    requires MatchesCorrections(closeMatch)
    ensures forall r :: r in WordRecords(w, lineNo, closeMatch) ==>
              exists c :: c in CommonMistakes.Values && r.hint == "Did you mean '" + c + "'?"
  {
    if w in CommonMistakes {
      assert CommonMistakes[w] in CommonMistakes.Values;
    }
  }

  /** A rejected parse gives exactly one syntax record, and it comes first;
      an accepted parse gives none. */
  lemma SyntaxRecordFirst(code: string, parse: string -> Option<SyntaxError>,
                          closeMatch: string -> Option<string>)
    ensures var rs := Report(code, parse, closeMatch);
            parse(code).Some? ==>
              rs[0] == ErrorRecord(parse(code).value.lineno, parse(code).value.msg, SyntaxHint) &&
              forall i :: 1 <= i < |rs| ==> rs[i].hint != SyntaxHint
    ensures var rs := Report(code, parse, closeMatch);
            parse(code).None? ==> forall i :: 0 <= i < |rs| ==> rs[i].hint != SyntaxHint
  {
    var scan := LinesRecords(Split(code, '\n'), closeMatch);
    ScanHintsAreWordHints(Split(code, '\n'), closeMatch);
    var rs := Report(code, parse, closeMatch);
    assert rs == SyntaxRecords(parse(code)) + scan;
    if parse(code).Some? {
      assert forall i :: 1 <= i < |rs| ==> rs[i] == scan[i - 1];
    } else {
      assert rs == scan;
    }
  }

  /** No record of the typo scan carries the syntax hint. */
  lemma ScanHintsAreWordHints(lines: seq<string>, closeMatch: string -> Option<string>)
    ensures forall i :: 0 <= i < |LinesRecords(lines, closeMatch)| ==>
              LinesRecords(lines, closeMatch)[i].hint != SyntaxHint
  {
    var scan := LinesRecords(lines, closeMatch);
    LinesRecordsExplained(lines, closeMatch);
    forall i | 0 <= i < |scan| ensures scan[i].hint != SyntaxHint {
      var r := scan[i];
      assert r in scan;
      var ws := Words(lines[r.line - 1]);
      var k :| 0 <= k < |ws| && r in WordRecords(ws[k], r.line, closeMatch);
      WordHintIsNotSyntaxHint(ws[k], r.line, closeMatch, r);
    }
  }

  lemma WordHintIsNotSyntaxHint(w: string, lineNo: int, closeMatch: string -> Option<string>, r: ErrorRecord)
    requires r in WordRecords(w, lineNo, closeMatch)
    ensures r.hint != SyntaxHint
  {
    WordRecordsExplained(w, lineNo, closeMatch);
    assert r.hint[0] == 'D';
    assert SyntaxHint[0] == 'C';
  }
}
