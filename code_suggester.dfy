/**
  The code suggester: it takes the last line of the editor text, derives a
  token from it (a keyword the line starts with, else the last run of
  letters and underscores) and offers the templates filed under that token.
 */
module CodeSuggester {
  import opened PyStr

  /** The templates, by token. */
  const Templates: map<string, seq<string>> := map[
    "for" := ["for i in range():", "for i in range(1, 10):", "for i in range(len()):"],
    "if" := ["if condition:", "if x > y:"],
    "while" := ["while condition:"],
    "def" := ["def function_name():"],
    "print" := ["print(\"\")"]
  ]

  /** The keywords a line may start with, in the order they are tried. */
  const Keywords: seq<string> := ["for", "if", "while", "def", "print"]

  /** The character class `[a-zA-Z_]`. */
  predicate IsWordChar(c: char) {
    ('a' <= c <= 'z') || ('A' <= c <= 'Z') || c == '_'
  }

  /** A maximal match of `[a-zA-Z_]+` is a non-empty string of word characters. */
  predicate IsRun(w: string) {
    w != [] && forall i :: 0 <= i < |w| ==> IsWordChar(w[i])
  }

  predicate NoWordChar(s: string) {
    forall i :: 0 <= i < |s| ==> !IsWordChar(s[i])
  }

  /** `s` with its trailing non-word characters dropped. */
  function DropNonWordSuffix(s: string): (r: string)
    ensures |r| <= |s| && r == s[..|r|]
    ensures r == [] || IsWordChar(r[|r| - 1])
    ensures forall i :: |r| <= i < |s| ==> !IsWordChar(s[i])
    decreases |s|
  {
    if s != [] && !IsWordChar(s[|s| - 1]) then DropNonWordSuffix(s[..|s| - 1]) else s
  }

  /** Length of the longest suffix of `s` made of word characters. */
  function TrailingRunLength(s: string): (n: nat)
    ensures n <= |s|
    ensures forall i :: |s| - n <= i < |s| ==> IsWordChar(s[i])
    ensures n == |s| || !IsWordChar(s[|s| - n - 1])
    decreases |s|
  {
    if s == [] || !IsWordChar(s[|s| - 1]) then 0 else 1 + TrailingRunLength(s[..|s| - 1])
  }

  /** `re.findall(r"[a-zA-Z_]+", s)`: the maximal runs of word characters, in
      order. Defined from the right end, which yields the same list. */
  function WordRuns(s: string): (r: seq<string>)
    ensures forall k :: 0 <= k < |r| ==> IsRun(r[k])
    ensures r == [] <==> NoWordChar(s)
    decreases |s|
  {
    var t := DropNonWordSuffix(s);
    if t == [] then []
    else
      var n := TrailingRunLength(t);
      WordRuns(t[..|t| - n]) + [t[|t| - n..]]
  }

  /** `w` is the last maximal run of word characters of `s`: it ends where the
      trailing non-word characters begin and it cannot be extended leftwards. */
  predicate IsLastRun(s: string, w: string) {
    var t := DropNonWordSuffix(s);
    IsRun(w) && EndsWith(t, w) && (|w| == |t| || !IsWordChar(t[|t| - |w| - 1]))
  }

  /** The last line of the right-stripped text, stripped and lower-cased.
      Splitting never yields an empty list, so the last line always exists. */
  function LastLine(text: string): string
  {
    LastLineOf(RStrip(text))
  }

  /** The last line of `s`, stripped and lower-cased. */
  function LastLineOf(s: string): string
  {
    var lines := Split(s, '\n');
    Lower(Strip(lines[|lines| - 1]))
  }

  /** The token of the editor text. */
  function GetToken(text: string): string
  {
    LineToken(LastLine(text))
  }

  /** The token of a stripped, lower-cased line: a keyword it starts with,
      tried in order, else its last run of word characters, else empty. */
  function LineToken(line: string): string
  {
    if StartsWith(line, "for") then "for"
    else if StartsWith(line, "if") then "if"
    else if StartsWith(line, "while") then "while"
    else if StartsWith(line, "def") then "def"
    else if StartsWith(line, "print") then "print"
    else
      var words := WordRuns(line);
      if words == [] then "" else words[|words| - 1]
  }

  /** `xs[:n]` with Python's slice semantics (a negative `n` counts from the end). */
  function Take<T>(xs: seq<T>, n: int): (r: seq<T>)
    ensures |r| <= |xs| && r == xs[..|r|]
    ensures n >= 0 ==> |r| == if n < |xs| then n else |xs|
    ensures n < 0 ==> |r| == if |xs| + n > 0 then |xs| + n else 0
  {
    if n >= 0 then (if n < |xs| then xs[..n] else xs)
    else if |xs| + n > 0 then xs[..|xs| + n]
    else []
  }

  /** A suggester offering at most `maxSuggestions` templates. */
  datatype Suggester = Suggester(maxSuggestions: int)
  {
    /** The templates for the token of `text`, cut to the first `maxSuggestions`. */
    function Suggest(text: string): (r: seq<string>)
    {
      SuggestFor(GetToken(text))
    }

    /** The templates for `token`: a prefix of its list, at most
        `maxSuggestions` long, each beginning with the token; none for a
        token without templates. */
    function SuggestFor(token: string): (r: seq<string>)
      ensures token !in Templates ==> r == []
      ensures token in Templates ==> |r| <= |Templates[token]| && r == Templates[token][..|r|]
      ensures maxSuggestions >= 0 ==> |r| <= maxSuggestions
      ensures token in Templates && maxSuggestions >= 0 ==>
                |r| == if maxSuggestions < |Templates[token]| then maxSuggestions else |Templates[token]|
      ensures token in Templates && maxSuggestions < 0 ==>
                |r| == if |Templates[token]| + maxSuggestions > 0 then |Templates[token]| + maxSuggestions else 0
      ensures forall i :: 0 <= i < |r| ==> StartsWith(r[i], token)
    {
      if token in Templates then
        TemplatesStartWithKey(token);
        Take(Templates[token], maxSuggestions)
      else []
    }
  }

  /** The default suggester of the editor. */
  const DefaultSuggester := Suggester(5)

  /** Every template begins with the token it is filed under. */
  lemma TemplatesStartWithKey(token: string)
    requires token in Templates
    ensures forall i :: 0 <= i < |Templates[token]| ==> StartsWith(Templates[token][i], token)
  {
  }

  /** The keywords all begin with different letters, so no keyword is a
      prefix of another and the order in which they are tried does not
      matter: a line starting with a keyword yields that keyword. */
  lemma KeywordPrefixDecides(line: string, kw: string)
    requires kw in Keywords && StartsWith(line, kw)
    ensures LineToken(line) == kw
  {
    KeywordsDifferFirst();
    assert line[0] == kw[0];
  }

  lemma KeywordsDifferFirst()
    ensures forall i, j :: 0 <= i < j < |Keywords| ==> Keywords[i] != [] && Keywords[j] != [] && Keywords[i][0] != Keywords[j][0]
  {
  }

  /** Every keyword has a template list. */
  lemma KeywordsHaveTemplates()
    ensures forall kw :: kw in Keywords ==> kw in Templates
  {
  }

  /** Without a keyword prefix, the token is the last maximal run of word
      characters of the line, or empty when the line has none. */
  lemma LastRunToken(line: string)
    requires forall kw :: kw in Keywords ==> !StartsWith(line, kw)
    ensures LineToken(line) == [] <==> NoWordChar(line)
    ensures LineToken(line) != [] ==> IsLastRun(line, LineToken(line))
  {
    assert !StartsWith(line, Keywords[0]) && !StartsWith(line, Keywords[1]) && !StartsWith(line, Keywords[2]);
    assert !StartsWith(line, Keywords[3]) && !StartsWith(line, Keywords[4]);
    var words := WordRuns(line);
    if words != [] {
      var t := DropNonWordSuffix(line);
      var n := TrailingRunLength(t);
      assert words[|words| - 1] == t[|t| - n..];
    }
  }

  /** The token only depends on the last line that is not blank: whatever
      comes before it is ignored. */
  lemma TokenFromLastLineOnly(prefix: string, line: string)
    requires '\n' !in line && !AllSpace(line)
    ensures LastLine(prefix + "\n" + line) == LastLine(line)
  {
    var r := RStrip(line);
    RStripKeepsPrefix(prefix + "\n", line);
    assert prefix + "\n" + line == (prefix + "\n") + line;
    assert '\n' !in r by {
      RStripIsPrefix(line);
    }
    LastLineAfterSeparator(prefix, r);
  }

  /** The last line of `a + "\n" + b`, where `b` holds no newline, is `b`'s. */
  lemma LastLineAfterSeparator(a: string, b: string)
    requires '\n' !in b
    ensures LastLineOf(a + "\n" + b) == LastLineOf(b)
  {
    var s := a + "\n" + b;
    assert s == a + ['\n'] + b;
    SplitAfterSeparator(a, b, '\n');
    var lines := Split(s, '\n');
    var last := lines[|lines| - 1];
    assert last == b;
    assert LastLineOf(s) == Lower(Strip(last));
    assert Split(b, '\n') == [b];
    assert LastLineOf(b) == Lower(Strip(b));
  }

  /** So the suggestions only depend on that last line. */
  lemma SuggestFromLastLineOnly(s: Suggester, prefix: string, line: string)
    requires '\n' !in line && !AllSpace(line)
    ensures s.Suggest(prefix + "\n" + line) == s.Suggest(line)
  {
    TokenFromLastLineOnly(prefix, line);
  }

  /** Right-stripping `a + b` only touches `b` when `b` is not blank. */
  lemma {:induction false} RStripKeepsPrefix(a: string, b: string)
    requires !AllSpace(b)
    ensures RStrip(a + b) == a + RStrip(b)
    decreases |b|
  {
    var s := a + b;
    assert s[|s| - 1] == b[|b| - 1];
    if IsSpace(b[|b| - 1]) {
      assert s[..|s| - 1] == a + b[..|b| - 1];
      assert !AllSpace(b[..|b| - 1]) by {
        var i :| 0 <= i < |b| && !IsSpace(b[i]);
        assert b[..|b| - 1][i] == b[i];
      }
      RStripKeepsPrefix(a, b[..|b| - 1]);
    }
  }

  /** Splitting `a + sep + b` where `b` holds no separator ends with `b`. */
  lemma {:induction false} SplitAfterSeparator(a: string, b: string, sep: char)
    requires sep !in b
    ensures var r := Split(a + [sep] + b, sep); r[|r| - 1] == b
    decreases |a|
  {
    var s := a + [sep] + b;
    assert s == a + ([sep] + b);
    if sep in a {
      var j := IndexOf(a, sep);
      IndexOfInPrefix(a, [sep] + b, sep);
      assert s[j + 1..] == a[j + 1..] + [sep] + b;
      SplitAfterSeparator(a[j + 1..], b, sep);
      var rest := Split(s[j + 1..], sep);
      assert Split(s, sep) == [s[..j]] + rest;
    } else {
      IndexOfAfterPrefix(a, [sep] + b, sep);
      assert s[|a| + 1..] == b;
      assert Split(s, sep) == [s[..|a|]] + Split(b, sep);
      assert Split(b, sep) == [b];
    }
  }

  /** The first separator of `a + b` is the first one of `a`, if `a` has one. */
  lemma IndexOfInPrefix(a: string, b: string, c: char)
    requires c in a
    ensures IndexOf(a + b, c) == IndexOf(a, c)
  {
    var j := IndexOf(a, c);
    assert (a + b)[..j] == a[..j];
    IndexOfUnique(a + b, c, j);
  }

  /** When `a` has no separator, the first one of `a + b` is the first one of `b`. */
  lemma IndexOfAfterPrefix(a: string, b: string, c: char)
    requires c !in a && b != [] && b[0] == c
    ensures c in a + b && IndexOf(a + b, c) == |a|
  {
    assert (a + b)[|a|] == c;
    assert (a + b)[..|a|] == a;
    IndexOfUnique(a + b, c, |a|);
  }

  /** A position holding `c` with no `c` before it is the first index of `c`. */
  lemma {:induction false} IndexOfUnique(s: string, c: char, k: nat)
    requires k < |s| && s[k] == c && c !in s[..k]
    ensures c in s && IndexOf(s, c) == k
    decreases k
  {
    assert s[k] in s;
    if k > 0 {
      assert s[0] in s[..k];
      assert s[1..][k - 1] == c;
      assert s[1..][..k - 1] == s[1..k];
      assert c !in s[1..k] by {
        assert forall x :: 0 <= x < k - 1 ==> s[1..k][x] == s[..k][x + 1];
      }
      IndexOfUnique(s[1..], c, k - 1);
    }
  }

  /** The trailing newline that the editor always reports changes nothing. */
  lemma TrailingNewlineIgnored(text: string)
    ensures LastLine(text + "\n") == LastLine(text)
  {
    RStripDropsSpace(text, '\n');
  }

  /** The trailing newline that the editor always reports changes no suggestion. */
  lemma SuggestIgnoresTrailingNewline(s: Suggester, text: string)
    ensures s.Suggest(text + "\n") == s.Suggest(text)
  {
    TrailingNewlineIgnored(text);
  }

  /** An empty editor gets no suggestions. */
  lemma EmptyTextSuggestsNothing(s: Suggester)
    ensures GetToken("") == ""
    ensures s.Suggest("") == []
  {
    EmptyLastLine();
    EmptyLineToken();
    NoTemplatesForEmpty(s);
  }

  lemma NoTemplatesForEmpty(s: Suggester)
    ensures s.SuggestFor("") == []
  {
    assert "" !in Templates;
  }

  lemma EmptyLineToken()
    ensures LineToken("") == ""
  {
    assert WordRuns("") == [];
  }

  lemma EmptyLastLine()
    ensures LastLine("") == ""
  {
    assert RStrip("") == "";
    EmptyLastLineOf();
  }

  lemma EmptyLastLineOf()
    ensures LastLineOf("") == ""
  {
    assert Split("", '\n') == [""];
    assert Strip("") == "";
    assert |Lower("")| == 0;
  }

  /** "format(x" starts with "for", so it is offered the loop templates. */
  lemma FormatSuggestsLoops()
    ensures GetToken("format(x") == "for"
    ensures DefaultSuggester.Suggest("format(x") == Templates["for"]
  {
    FormatLastLine();
    FormatToken();
    DefaultForTemplates();
  }

  lemma FormatToken()
    ensures LineToken("format(x") == "for"
  {
    assert "format(x"[..3] == "for";
  }

  lemma DefaultForTemplates()
    ensures DefaultSuggester.SuggestFor("for") == Templates["for"]
  {
    assert |Templates["for"]| == 3;
  }

  lemma FormatLastLine()
    ensures LastLine("format(x") == "format(x"
  {
    FormatRStrip();
    FormatSplit();
    FormatStrip();
    FormatLower();
  }

  lemma FormatRStrip()
    ensures RStrip("format(x") == "format(x"
  {
    var s := "format(x";
    assert !IsSpace(s[|s| - 1]);
  }

  lemma FormatSplit()
    ensures Split("format(x", '\n') == ["format(x"]
  {
    var s := "format(x";
    assert forall i :: 0 <= i < |s| ==> s[i] != '\n';
  }

  lemma FormatStrip()
    ensures Strip("format(x") == "format(x"
  {
    var s := "format(x";
    assert !IsSpace(s[0]) && !IsSpace(s[|s| - 1]);
  }

  lemma FormatLower()
    ensures Lower("format(x") == "format(x"
  {
    var s := "format(x";
    assert forall i :: 0 <= i < |s| ==> !IsUpper(s[i]);
  }

  lemma TemplateListsAreShort(token: string)
    requires token in Templates
    ensures |Templates[token]| <= 3 && DefaultSuggester.SuggestFor(token) == Templates[token]
  {
  }

  /** With the default limit of five, a token's whole template list is offered. */
  lemma DefaultOffersAllTemplates(text: string)
    requires GetToken(text) in Templates
    ensures DefaultSuggester.Suggest(text) == Templates[GetToken(text)]
  {
    var token := GetToken(text);
    TemplateListsAreShort(token);
  }
}
