/**
  The editor window: a text buffer with an insert cursor, the on-screen
  keyboard, the suggestion list and the list of detected issues, and the
  handlers that edit the buffer on a virtual key, a spoken phrase or a
  chosen suggestion, plus the gaze step that drives the keyboard's hover.
 */
module UIManager {
  import opened Wrappers
  import opened PyStr
  import VirtualKeyboard
  import CodeSuggester
  import ErrorChecker

  /** The text of the editor (without the final newline the text widget
      always keeps) and the position of its insert cursor. */
  datatype Buffer = Buffer(text: string, cursor: nat)

  predicate Wellformed(b: Buffer) {
    b.cursor <= |b.text|
  }

  /** Index arithmetic of the text widget: positions before the start or past
      the end of the text are moved to the start or the end. */
  function Clamp(i: int, n: nat): (r: nat)
    ensures r <= n
    ensures 0 <= i <= n ==> r == i
    ensures i < 0 ==> r == 0
    ensures i > n ==> r == n
  {
    if i < 0 then 0 else if i > n then n else i
  }

  /** Insert `s` at the cursor; the cursor moves past it. */
  function InsertAt(b: Buffer, s: string): (r: Buffer)
    requires Wellformed(b)
    ensures Wellformed(r)
  {
    Buffer(b.text[..b.cursor] + s + b.text[b.cursor..], b.cursor + |s|)
  }

  /** Delete the characters in `[i, j)` after clamping both positions; a
      cursor inside the range moves to its start. */
  function DeleteBetween(b: Buffer, from: int, to: int): (r: Buffer)
    requires Wellformed(b)
    ensures Wellformed(r)
  {
    var i := Clamp(from, |b.text|);
    var j := Clamp(to, |b.text|);
    if i < j then
      Buffer(b.text[..i] + b.text[j..],
             if b.cursor >= j then b.cursor - (j - i) else if b.cursor > i then i else b.cursor)
    else b
  }

  /** Delete the single character at `index` after clamping it; past the end
      of the text there is nothing to delete. */
  function DeleteCharAt(b: Buffer, index: int): (r: Buffer)
    requires Wellformed(b)
    ensures Wellformed(r)
  {
    var i := Clamp(index, |b.text|);
    DeleteBetween(b, i, i + 1)
  }

  /** The text widget of the editor. */
  class Editor {
    var text: string
    var cursor: nat

    ghost predicate Valid()
      reads this
    {
      cursor <= |text|
    }

    function State(): (b: Buffer)
      reads this
      ensures Valid() ==> Wellformed(b)
    {
      Buffer(text, cursor)
    }

    /** What the widget reports as its whole contents: the text and the
        final newline. */
    function Contents(): (s: string)
      reads this
      ensures |s| == |text| + 1 && s[..|text|] == text && s[|text|] == '\n'
    {
      text + "\n"
    }

    constructor ()
      ensures Valid() && text == "" && cursor == 0
    {
      text := "";
      cursor := 0;
    }

    method Insert(s: string)
      requires Valid()
      modifies this
      ensures Valid()
      ensures State() == InsertAt(old(State()), s)
    {
      text := text[..cursor] + s + text[cursor..];
      cursor := cursor + |s|;
    }

    method Delete(from: int, to: int)
      requires Valid()
      modifies this
      ensures Valid()
      ensures State() == DeleteBetween(old(State()), from, to)
    {
      var i := Clamp(from, |text|);
      var j := Clamp(to, |text|);
      if i < j {
        text := text[..i] + text[j..];
        if cursor >= j {
          cursor := cursor - (j - i);
        } else if cursor > i {
          cursor := i;
        }
      }
    }

    method DeleteChar(index: int)
      requires Valid()
      modifies this
      ensures Valid()
      ensures State() == DeleteCharAt(old(State()), index)
    {
      var i := Clamp(index, |text|);
      Delete(i, i + 1);
    }
  }

  // ---------------------------------------------------------------------
  // Virtual keys

  /** The edit one virtual key makes. */
  function ApplyKey(b: Buffer, key: string): Buffer
    requires Wellformed(b)
  {
    if key == "SPACE" then InsertAt(b, " ")
    else if key == "ENTER" then InsertAt(b, "\n")
    else if key == "BACKSPACE" then DeleteCharAt(b, b.cursor - 1)
    else InsertAt(b, key)
  }

  /** The text a key other than BACKSPACE types. */
  function KeyText(key: string): string {
    if key == "SPACE" then " " else if key == "ENTER" then "\n" else key
  }

  /** Every key except BACKSPACE types its text at the cursor, leaving the
      text around the cursor unchanged; every other label, "TAB", "DEL" and
      "CAPSLOCK" included, is typed as it is written. */
  lemma KeyTypesItsText(b: Buffer, key: string)
    requires Wellformed(b) && key != "BACKSPACE"
    ensures var r := ApplyKey(b, key);
            |r.text| == |b.text| + |KeyText(key)| && r.cursor == b.cursor + |KeyText(key)| &&
            r.text[..b.cursor] == b.text[..b.cursor] &&
            r.text[b.cursor..r.cursor] == KeyText(key) &&
            r.text[r.cursor..] == b.text[b.cursor..]
    ensures key != "SPACE" && key != "ENTER" ==> KeyText(key) == key
  {
    var t := KeyText(key);
    var r := ApplyKey(b, key);
    assert r == InsertAt(b, t);
    assert r.text == b.text[..b.cursor] + t + b.text[b.cursor..];
  }

  /** BACKSPACE after the start of the text deletes the character before the cursor. */
  lemma BackspaceDeletesPrevious(b: Buffer)
    requires Wellformed(b) && b.cursor > 0
    ensures ApplyKey(b, "BACKSPACE") == Buffer(b.text[..b.cursor - 1] + b.text[b.cursor..], b.cursor - 1)
  {
  }

  /** BACKSPACE at the very start of the text: the widget moves the index
      `cursor - 1` to the start, so the character after the cursor goes. */
  lemma BackspaceAtStartDeletesNext(b: Buffer)
    requires Wellformed(b) && b.cursor == 0 && b.text != []
    ensures ApplyKey(b, "BACKSPACE") == Buffer(b.text[1..], 0)
  {
  }

  /** Typing a one-character key and then BACKSPACE gives the buffer back. */
  lemma BackspaceUndoesKey(b: Buffer, key: string)
    requires Wellformed(b) && key != "BACKSPACE" && |KeyText(key)| == 1
    ensures Wellformed(ApplyKey(b, key))
    ensures ApplyKey(ApplyKey(b, key), "BACKSPACE") == b
  {
    var r := ApplyKey(b, key);
    KeyTypesItsText(b, key);
    assert r.text[..r.cursor - 1] == b.text[..b.cursor];
    assert r.text[r.cursor..] == b.text[b.cursor..];
    assert b.text[..b.cursor] + b.text[b.cursor..] == b.text;
  }

  // ---------------------------------------------------------------------
  // Spoken phrases

  const ForTemplate := "for i in range():\n    "
  const WhileTemplate := "while condition:\n    "
  const IfTemplate := "if condition:\n    "
  const ElifTemplate := "elif condition:\n    "
  const ElseTemplate := "else:\n    "
  const FunctionTemplate := "def function_name():\n    "
  const ClassTemplate := "class ClassName:\n    def __init__(self):\n        "
  const PrintTemplate := "print(\"\")"
  const ImportTemplate := "import module_name"

  /** What a non-empty phrase inserts: a template chosen by the first test
      that the lower-cased, stripped phrase passes, else the phrase itself
      followed by a space. */
  function VoiceInsertion(text: string): string
  {
    var t := Strip(Lower(text));
    if Contains(t, "for loop") || Contains(t, "create a loop") then ForTemplate
    else if Contains(t, "while loop") then WhileTemplate
    else if StartsWith(t, "if") then IfTemplate
    else if Contains(t, "elif") then ElifTemplate
    else if StartsWith(t, "else") then ElseTemplate
    else if Contains(t, "function") then FunctionTemplate
    else if Contains(t, "class") then ClassTemplate
    else if Contains(t, "print") then PrintTemplate
    else if Contains(t, "import") then ImportTemplate
    else text + " "
  }

  /** A test on the normalised phrase. */
  datatype Pattern = Substring(s: string) | Prefix(s: string)

  predicate PatternMatches(p: Pattern, t: string) {
    match p
    case Substring(s) => Contains(t, s)
    case Prefix(s) => StartsWith(t, s)
  }

  /** A template and the patterns, any of which selects it. */
  datatype VoiceRule = VoiceRule(patterns: seq<Pattern>, template: string)

  predicate RuleMatches(r: VoiceRule, t: string) {
    exists i :: 0 <= i < |r.patterns| && PatternMatches(r.patterns[i], t)
  }

  /** The voice snippets as a table, tried in order. */
  const VoiceRules: seq<VoiceRule> := [
    VoiceRule([Substring("for loop"), Substring("create a loop")], ForTemplate),
    VoiceRule([Substring("while loop")], WhileTemplate),
    VoiceRule([Prefix("if")], IfTemplate),
    VoiceRule([Substring("elif")], ElifTemplate),
    VoiceRule([Prefix("else")], ElseTemplate),
    VoiceRule([Substring("function")], FunctionTemplate),
    VoiceRule([Substring("class")], ClassTemplate),
    VoiceRule([Substring("print")], PrintTemplate),
    VoiceRule([Substring("import")], ImportTemplate)
  ]

  /** The template of the first rule of `rules` that matches `t`. */
  function FirstMatch(rules: seq<VoiceRule>, t: string): (r: Option<string>)
    ensures r.None? <==> forall i :: 0 <= i < |rules| ==> !RuleMatches(rules[i], t)
    ensures r.Some? ==> exists i :: 0 <= i < |rules| && RuleMatches(rules[i], t) &&
                                    rules[i].template == r.value &&
                                    forall j :: 0 <= j < i ==> !RuleMatches(rules[j], t)
  {
    if rules == [] then None
    else if RuleMatches(rules[0], t) then
      Some(rules[0].template)
    else
      var r := FirstMatch(rules[1..], t);
      if r.Some? then
        var i :| 0 <= i < |rules[1..]| && RuleMatches(rules[1..][i], t) &&
                 rules[1..][i].template == r.value &&
                 forall j :: 0 <= j < i ==> !RuleMatches(rules[1..][j], t);
        assert rules[i + 1] == rules[1..][i];
        assert forall j :: 0 <= j < i + 1 ==> !RuleMatches(rules[j], t) by {
          forall j | 0 <= j < i + 1 ensures !RuleMatches(rules[j], t) {
            if j > 0 {
              assert rules[j] == rules[1..][j - 1];
            }
          }
        }
        r
      else
        assert forall i :: 0 <= i < |rules| ==> !RuleMatches(rules[i], t) by {
          forall i | 0 <= i < |rules| ensures !RuleMatches(rules[i], t) {
            if i > 0 {
              assert rules[i] == rules[1..][i - 1];
            }
          }
        }
        r
  }

  /** The if/elif chain is the ordered rule table: the first rule that
      matches decides, and a phrase that no rule matches is dictated. */
  lemma VoiceInsertionIsFirstRule(text: string)
    ensures var t := Strip(Lower(text));
            VoiceInsertion(text) == match FirstMatch(VoiceRules, t)
                                    case Some(s) => s
                                    case None => text + " "
  {
    var t := Strip(Lower(text));
    var rs := VoiceRules;
    RuleMatchesOne(rs[0], t);
    RuleMatchesOne(rs[1], t);
    RuleMatchesOne(rs[2], t);
    RuleMatchesOne(rs[3], t);
    RuleMatchesOne(rs[4], t);
    RuleMatchesOne(rs[5], t);
    RuleMatchesOne(rs[6], t);
    RuleMatchesOne(rs[7], t);
    RuleMatchesOne(rs[8], t);
    UnrollRules(t);
  }

  lemma RuleMatchesOne(r: VoiceRule, t: string)
    ensures |r.patterns| == 1 ==> (RuleMatches(r, t) <==> PatternMatches(r.patterns[0], t))
    ensures |r.patterns| == 2 ==> (RuleMatches(r, t) <==> PatternMatches(r.patterns[0], t) || PatternMatches(r.patterns[1], t))
  {
    if |r.patterns| == 1 && PatternMatches(r.patterns[0], t) {
      assert RuleMatches(r, t);
    }
    if |r.patterns| == 2 && PatternMatches(r.patterns[1], t) {
      assert RuleMatches(r, t);
    }
  }

  lemma UnrollRules(t: string)
    ensures FirstMatch(VoiceRules, t) ==
      if RuleMatches(VoiceRules[0], t) then Some(VoiceRules[0].template)
      else if RuleMatches(VoiceRules[1], t) then Some(VoiceRules[1].template)
      else if RuleMatches(VoiceRules[2], t) then Some(VoiceRules[2].template)
      else if RuleMatches(VoiceRules[3], t) then Some(VoiceRules[3].template)
      else if RuleMatches(VoiceRules[4], t) then Some(VoiceRules[4].template)
      else if RuleMatches(VoiceRules[5], t) then Some(VoiceRules[5].template)
      else if RuleMatches(VoiceRules[6], t) then Some(VoiceRules[6].template)
      else if RuleMatches(VoiceRules[7], t) then Some(VoiceRules[7].template)
      else if RuleMatches(VoiceRules[8], t) then Some(VoiceRules[8].template)
      else None
  {
    assert VoiceRules[0..] == VoiceRules;
    FirstMatchFrom(t, 0);
    FirstMatchFrom(t, 1);
    FirstMatchFrom(t, 2);
    FirstMatchFrom(t, 3);
    FirstMatchFrom(t, 4);
    FirstMatchFrom(t, 5);
    FirstMatchFrom(t, 6);
    FirstMatchFrom(t, 7);
    FirstMatchFrom(t, 8);
    FirstMatchFrom(t, 9);
  }

  /** One step down the rule table from rule `k`. */
  lemma FirstMatchFrom(t: string, k: nat)
    requires k <= |VoiceRules|
    ensures FirstMatch(VoiceRules[k..], t) ==
              if k == |VoiceRules| then None
              else if RuleMatches(VoiceRules[k], t) then Some(VoiceRules[k].template)
              else FirstMatch(VoiceRules[k + 1..], t)
  {
    if k < |VoiceRules| {
      var rest := VoiceRules[k..];
      assert rest[0] == VoiceRules[k] && rest[1..] == VoiceRules[k + 1..];
    }
  }

  /** A phrase mentioning a for loop always gets the for-loop template,
      whatever else it says. */
  lemma ForLoopPhraseWins(text: string)
    requires Contains(Strip(Lower(text)), "for loop")
    ensures VoiceInsertion(text) == ForTemplate
  {
  }

  /** A phrase that no rule matches is inserted as spoken (not lower-cased
      or stripped), followed by one space. */
  lemma UnmatchedPhraseIsDictated(text: string)
    requires forall i :: 0 <= i < |VoiceRules| ==> !RuleMatches(VoiceRules[i], Strip(Lower(text)))
    ensures VoiceInsertion(text) == text + " "
  {
    VoiceInsertionIsFirstRule(text);
  }

  // ---------------------------------------------------------------------
  // Suggestions

  /** The start of the line holding position `cursor`. */
  function LineStart(text: string, cursor: nat): (r: nat)
    requires cursor <= |text|
    ensures r <= cursor
    ensures forall i :: r <= i < cursor ==> text[i] != '\n'
    ensures r == 0 || text[r - 1] == '\n'
  {
    if cursor == 0 || text[cursor - 1] == '\n' then cursor else LineStart(text, cursor - 1)
  }

  /** The text of the cursor's line up to the cursor. */
  function Before(b: Buffer): (s: string)
    requires Wellformed(b)
    ensures |s| <= b.cursor
  {
    b.text[LineStart(b.text, b.cursor)..b.cursor]
  }

  lemma RStripIdempotent(s: string)
    ensures RStrip(RStrip(s)) == RStrip(s)
  {
  }

  /** The last word of `before.rstrip().split()`, or "" when there is none. */
  function LastWord(before: string): (w: string)
    ensures w == [] <==> Words(RStrip(before)) == []
    ensures w != [] ==> IsWord(w) && w == Words(RStrip(before))[|Words(RStrip(before))| - 1]
  {
    var parts := Words(RStrip(before));
    if parts == [] then [] else parts[|parts| - 1]
  }

  /** The last word ends the right-stripped text. */
  lemma LastWordEndsLine(before: string)
    ensures EndsWith(RStrip(before), LastWord(before))
  {
    var t := RStrip(before);
    if Words(t) != [] {
      LastWordIsSuffix(t);
      RStripIdempotent(before);
    }
  }

  /** The indentation inserted after a suggestion that opens a block. */
  function AutoIndent(suggestion: string): string {
    if EndsWith(Strip(suggestion), ":") then "\n    " else ""
  }

  /** Insert the suggestion, then a new indented line when it ends with a colon. */
  function Finish(b: Buffer, suggestion: string): (r: Buffer)
    requires Wellformed(b)
    ensures Wellformed(r)
  {
    var b2 := InsertAt(b, suggestion);
    if EndsWith(Strip(suggestion), ":") then InsertAt(b2, "\n    ") else b2
  }

  /** Deleting `[p, cursor)` and finishing with a suggestion replaces that
      range by the suggestion and its indentation. */
  lemma ReplaceBeforeCursor(b: Buffer, p: nat, suggestion: string)
    requires Wellformed(b) && p <= b.cursor
    ensures Wellformed(DeleteBetween(b, p, b.cursor))
    ensures Finish(DeleteBetween(b, p, b.cursor), suggestion) ==
            Buffer(b.text[..p] + suggestion + AutoIndent(suggestion) + b.text[b.cursor..],
                   p + |suggestion| + |AutoIndent(suggestion)|)
  {
    var b1 := DeleteBetween(b, p, b.cursor);
    assert b1 == Buffer(b.text[..p] + b.text[b.cursor..], p);
    assert b1.text[..p] == b.text[..p];
    assert b1.text[p..] == b.text[b.cursor..];
    var b2 := InsertAt(b1, suggestion);
    assert b2.text == b.text[..p] + suggestion + b.text[b.cursor..];
    var a := AutoIndent(suggestion);
    var b3 := InsertAt(b2, a);
    assert b2.text[..b2.cursor] == b.text[..p] + suggestion;
    assert b2.text[b2.cursor..] == b.text[b.cursor..];
    assert b3.text == b.text[..p] + suggestion + a + b.text[b.cursor..];
    assert a == "" ==> b3 == b2;
  }

  /** Where the edit as written starts deleting: as many characters before
      the cursor as the last word has. */
  function WrittenStart(b: Buffer): (p: nat)
    requires Wellformed(b)
    ensures p <= b.cursor
  {
    b.cursor - |LastWord(Before(b))|
  }

  /** Applying a chosen suggestion, as the editor does it: delete as many
      characters before the cursor as the last word of the line (up to the
      cursor, right-stripped) has, then finish with the suggestion. */
  function SuggestionEdit(b: Buffer, suggestion: string): (r: Buffer)
    requires Wellformed(b)
    ensures Wellformed(r)
  {
    Finish(DeleteBetween(b, WrittenStart(b), b.cursor), suggestion)
  }

  /** The edit as written replaces the text from `WrittenStart` to the
      cursor by the suggestion and its indentation. */
  lemma SuggestionEditShape(b: Buffer, suggestion: string)
    requires Wellformed(b)
    ensures SuggestionEdit(b, suggestion) ==
            Buffer(b.text[..WrittenStart(b)] + suggestion + AutoIndent(suggestion) + b.text[b.cursor..],
                   WrittenStart(b) + |suggestion| + |AutoIndent(suggestion)|)
  {
    ReplaceBeforeCursor(b, WrittenStart(b), suggestion);
  }

  /** When the cursor sits right after the last word, the edit as written
      deletes exactly that word. */
  lemma SuggestionReplacesWordAtCursor(b: Buffer)
    requires Wellformed(b)
    requires Before(b) != [] && !IsSpace(Before(b)[|Before(b)| - 1])
    ensures var w := LastWord(Before(b));
            w != [] && w == Words(Before(b))[|Words(Before(b))| - 1] &&
            WrittenStart(b) == b.cursor - |w| && b.text[WrittenStart(b)..b.cursor] == w
  {
    var before := Before(b);
    var ls := LineStart(b.text, b.cursor);
    assert RStrip(before) == before;
    assert !AllSpace(before);
    var w := LastWord(before);
    LineSlices(b.text, ls, b.cursor, before, |before|, |w|);
  }

  lemma SliceOfSlice(s: string, i: nat, j: nat, k: nat, l: nat)
    requires i <= j <= |s| && k <= l <= j - i
    ensures s[i..j][k..l] == s[i + k..i + l]
  {
    assert forall x :: 0 <= x < l - k ==> s[i..j][k..l][x] == s[i + k + x];
  }

  /** The start of the last word of the line before the cursor (the cursor
      itself when there is none). */
  function WordStart(b: Buffer): (p: nat)
    requires Wellformed(b)
    ensures LineStart(b.text, b.cursor) <= p <= b.cursor
  {
    LineStart(b.text, b.cursor) + WordOffset(Before(b))
  }

  /** The offset of the last word in the line before the cursor; its length
      when it holds no word. */
  function WordOffset(before: string): (k: nat)
    ensures k <= |before|
  {
    if LastWord(before) == [] then |before| else |RStrip(before)| - |LastWord(before)|
  }

  /** The suggestion edit as evidently intended: delete the last word and the
      blanks typed after it, up to the cursor. */
  function CorrectedSuggestionEdit(b: Buffer, suggestion: string): (r: Buffer)
    requires Wellformed(b)
    ensures Wellformed(r)
  {
    Finish(DeleteBetween(b, WordStart(b), b.cursor), suggestion)
  }

  /** In the line up to the cursor, the last word stands right before the
      trailing blanks. */
  lemma LastWordInLine(before: string)
    requires !AllSpace(before)
    ensures var t := RStrip(before);
            var w := LastWord(before);
            w != [] && |w| <= |t| <= |before| &&
            before[|t| - |w|..|t|] == w && AllSpace(before[|t|..])
  {
    var t := RStrip(before);
    RStripIsPrefix(before);
    RStripKeepsWords(before);
    RStripTailIsBlank(before);
    LastWordEndsLine(before);
    PrefixSlice(before, |t| - |LastWord(before)|, |t|);
  }

  /** Right-stripping a text that is not all blank leaves a text that is not all blank. */
  lemma RStripKeepsWords(before: string)
    requires !AllSpace(before)
    ensures !AllSpace(RStrip(before))
  {
    var t := RStrip(before);
    RStripIsPrefix(before);
    var i :| 0 <= i < |before| && !IsSpace(before[i]);
    assert i < |t|;
    assert t[i] == before[i];
  }

  /** What right-stripping removes is blank. */
  lemma RStripTailIsBlank(before: string)
    ensures AllSpace(before[|RStrip(before)|..])
  {
    var n := |RStrip(before)|;
    assert forall i :: 0 <= i < |before| - n ==> before[n..][i] == before[n + i];
  }

  lemma PrefixSlice(s: string, i: nat, n: nat)
    requires i <= n <= |s|
    ensures s[i..n] == s[..n][i..]
  {
  }

  /** The corrected edit replaces the text from `WordStart` to the cursor
      by the suggestion and its indentation. */
  lemma CorrectedEditShape(b: Buffer, suggestion: string)
    requires Wellformed(b)
    ensures CorrectedSuggestionEdit(b, suggestion) ==
            Buffer(b.text[..WordStart(b)] + suggestion + AutoIndent(suggestion) + b.text[b.cursor..],
                   WordStart(b) + |suggestion| + |AutoIndent(suggestion)|)
  {
    ReplaceBeforeCursor(b, WordStart(b), suggestion);
  }

  /** On a line with no word before the cursor, the corrected edit deletes
      nothing, just as the edit as written; indentation is kept. */
  lemma CorrectedAgreesWithoutWord(b: Buffer, suggestion: string)
    requires Wellformed(b) && AllSpace(Before(b))
    ensures WordStart(b) == b.cursor
    ensures CorrectedSuggestionEdit(b, suggestion) == SuggestionEdit(b, suggestion)
  {
    var before := Before(b);
    RStripIsPrefix(before);
    assert RStrip(before) == [];
    assert LineStart(b.text, b.cursor) + |before| == b.cursor;
  }

  /** What the corrected edit deletes is the end of the line before the
      cursor from the offset of its last word on. */
  lemma CorrectedDeletesFromWord(b: Buffer)
    requires Wellformed(b)
    ensures b.text[WordStart(b)..b.cursor] == Before(b)[WordOffset(Before(b))..]
  {
    var ls := LineStart(b.text, b.cursor);
    var k := WordOffset(Before(b));
    assert WordStart(b) == ls + k;
    SliceTail(b.text, ls, b.cursor, k);
  }

  lemma SliceTail(s: string, i: nat, j: nat, k: nat)
    requires i <= j <= |s| && k <= j - i
    ensures s[i + k..j] == s[i..j][k..]
  {
  }

  /** In the line before the cursor, the corrected edit deletes exactly the
      last word and the blanks after it. */
  lemma CorrectedDeletesLastWord(before: string)
    requires !AllSpace(before)
    ensures var w := LastWord(before);
            var k := WordOffset(before);
            w != [] && before[k..] == w + before[k + |w|..] && AllSpace(before[k + |w|..])
  {
    LastWordInLine(before);
    var w := LastWord(before);
    var t := RStrip(before);
    var k := WordOffset(before);
    assert k + |w| == |t|;
    assert before[k..|t|] == w;
    assert before[k..] == w + before[|t|..];
  }

  /** Slices of the line before the cursor are slices of the text. */
  lemma LineSlices(text: string, ls: nat, cursor: nat, before: string, tl: nat, wl: nat)
    requires ls <= cursor <= |text| && before == text[ls..cursor] && wl <= tl <= |before|
    ensures text[ls + tl - wl..ls + tl] == before[tl - wl..tl]
    ensures text[ls + tl..cursor] == before[tl..]
  {
    SliceOfSlice(text, ls, cursor, tl - wl, tl);
    SliceOfSlice(text, ls, cursor, tl, |before|);
  }

  /** With no blank between the last word and the cursor, the edit as
      written and the corrected edit agree. */
  lemma CorrectedAgreesAtWordEnd(b: Buffer, suggestion: string)
    requires Wellformed(b)
    requires Before(b) != [] && !IsSpace(Before(b)[|Before(b)| - 1])
    ensures CorrectedSuggestionEdit(b, suggestion) == SuggestionEdit(b, suggestion)
  {
    var before := Before(b);
    assert RStrip(before) == before;
    assert LineStart(b.text, b.cursor) + |before| == b.cursor;
    assert WordStart(b) == WrittenStart(b);
  }

  /** The edit as written, on the line "for " with the cursor after the
      blank: the last word "for" has three characters, so "or " is deleted
      and the choice of "for i in range():" leaves "ffor i in range():". */
  lemma TrailingBlankDeletesWrongText()
    ensures SuggestionEdit(Buffer("for ", 4), "for i in range():") ==
            Buffer("f" + "for i in range():" + "\n    ", 23)
  {
    var b := Buffer("for ", 4);
    var s := "for i in range():";
    ForLastWord();
    ColonTemplate(s);
    assert WrittenStart(b) == 1;
    ReplaceBeforeCursor(b, 1, s);
    assert b.text[..1] == "f" && b.text[4..] == "";
    assert "f" + s + "\n    " + b.text[4..] == "f" + s + "\n    ";
  }

  /** The corrected edit on the same line replaces "for " by the template. */
  lemma CorrectedTrailingBlank()
    ensures CorrectedSuggestionEdit(Buffer("for ", 4), "for i in range():") ==
            Buffer("for i in range():" + "\n    ", 22)
  {
    var b := Buffer("for ", 4);
    var s := "for i in range():";
    ForLastWord();
    ColonTemplate(s);
    assert WordStart(b) == 0;
    ReplaceBeforeCursor(b, 0, s);
    assert b.text[..0] == "" && b.text[4..] == "";
    assert b.text[..0] + s == s;
    assert s + "\n    " + b.text[4..] == s + "\n    ";
  }

  lemma ForLastWord()
    ensures Wellformed(Buffer("for ", 4)) && LineStart("for ", 4) == 0
    ensures Before(Buffer("for ", 4)) == "for "
    ensures RStrip("for ") == "for" && LastWord("for ") == "for"
  {
    ForBefore();
    ForBlankWords();
  }

  lemma ForBefore()
    ensures Wellformed(Buffer("for ", 4)) && LineStart("for ", 4) == 0
    ensures Before(Buffer("for ", 4)) == "for "
  {
    var s := "for ";
    assert s[3] != '\n' && s[2] != '\n' && s[1] != '\n' && s[0] != '\n';
    assert LineStart(s, 1) == 0;
    assert LineStart(s, 2) == 0;
    assert LineStart(s, 3) == 0;
    assert s[0..4] == s;
  }

  lemma ForBlankWords()
    ensures RStrip("for ") == "for"
    ensures Words("for") == ["for"]
  {
    var s := "for ";
    assert IsSpace(s[3]) && s[..3] == "for";
    assert !IsSpace("for"[2]);
    assert RStrip("for") == "for";
    assert TrailingWordLength("for") == 3 by {
      assert "for"[..2] == "fo" && "fo"[..1] == "f" && "f"[..0] == "";
      assert TrailingWordLength("f") == 1;
      assert TrailingWordLength("fo") == 2;
    }
    assert "for"[..0] == "";
    assert Words("") == [];
  }

  lemma ColonTemplate(s: string)
    requires s == "for i in range():"
    ensures AutoIndent(s) == "\n    "
  {
    assert !IsSpace(s[0]) && !IsSpace(s[|s| - 1]);
    assert Strip(s) == s;
  }

  // ---------------------------------------------------------------------
  // Gaze

  /** Python's `int()` of a number: truncation toward zero. */
  function Trunc(x: real): (r: int)
    ensures x >= 0.0 ==> r as real <= x < r as real + 1.0
    ensures x < 0.0 ==> r as real - 1.0 < x <= r as real
  {
    if x >= 0.0 then x.Floor else -((-x).Floor)
  }

  /** The screen point of the gaze over the keyboard's rectangle. */
  function GazePoint(gx: real, gy: real, kx: int, ky: int, kw: int, kh: int): (int, int)
  {
    (Trunc(kx as real + gx * kw as real), Trunc(ky as real + gy * kh as real))
  }

  /** A gaze point more than 40 pixels above the keyboard clears the hover. */
  predicate AboveKeyboard(sy: int, ky: int) {
    sy < ky - 40
  }

  /** Truncation toward zero: a gaze 40.5 pixels above a keyboard at the top
      of the screen lands at -40, which still counts as on the keyboard. */
  lemma TruncTowardZero()
    ensures Trunc(-40.5) == -40 && !AboveKeyboard(Trunc(-40.5), 0)
  {
  }

  // ---------------------------------------------------------------------
  // The window

  class UI {
    const editor: Editor
    const keyboard: VirtualKeyboard.Keyboard
    const suggester: CodeSuggester.Suggester
    const parse: string -> Option<ErrorChecker.SyntaxError>
    const closeMatch: string -> Option<string>
    /** The entries of the suggestion list. */
    var suggestions: seq<string>
    /** The entries of the issue list. */
    var errors: seq<ErrorChecker.ErrorRecord>

    ghost predicate Valid()
      reads this, editor, keyboard
    {
      editor.Valid() && keyboard.Valid()
    }

    constructor (setting: Option<int>, parse: string -> Option<ErrorChecker.SyntaxError>,
                 closeMatch: string -> Option<string>)
      ensures Valid() && fresh(editor) && fresh(keyboard)
      ensures editor.text == "" && editor.cursor == 0
      ensures keyboard.buttons == VirtualKeyboard.InitialButtons() && keyboard.hover == None
      ensures keyboard.dwell == VirtualKeyboard.InitialDwell(None, setting)
      ensures suggester == CodeSuggester.DefaultSuggester && suggestions == [] && errors == []
      ensures this.parse == parse && this.closeMatch == closeMatch
    {
      editor := new Editor();
      keyboard := new VirtualKeyboard.Keyboard(None, setting);
      suggester := CodeSuggester.DefaultSuggester;
      this.parse := parse;
      this.closeMatch := closeMatch;
      suggestions := [];
      errors := [];
    }

    /** Both lists show what the suggester and the checker make of the
        editor's whole contents. */
    ghost predicate ListsCurrent()
      reads this, editor
    {
      suggestions == suggester.Suggest(editor.Contents()) &&
      errors == ErrorChecker.Report(editor.Contents(), parse, closeMatch)
    }

    /** Recompute both lists from the editor's whole contents. */
    method Refresh()
      requires Valid()
      modifies this
      ensures Valid()
      ensures ListsCurrent()
    {
      suggestions := suggester.Suggest(editor.Contents());
      errors := ErrorChecker.CheckErrors(editor.Contents(), parse, closeMatch);
    }

    /** A virtual key was activated. */
    method OnKey(key: string)
      requires Valid()
      modifies this, editor
      ensures Valid()
      ensures editor.State() == ApplyKey(old(editor.State()), key)
      ensures ListsCurrent()
    {
      EditForKey(key);
      Refresh();
    }

    /** The edit of a virtual key: SPACE and ENTER type a blank and a newline,
        BACKSPACE deletes before the cursor, any other label is typed. */
    method EditForKey(key: string)
      requires Valid()
      modifies editor
      ensures Valid()
      ensures editor.State() == ApplyKey(old(editor.State()), key)
    {
      if key == "SPACE" {
        editor.Insert(" ");
      } else if key == "ENTER" {
        editor.Insert("\n");
      } else if key == "BACKSPACE" {
        editor.DeleteChar(editor.cursor - 1);
      } else {
        editor.Insert(key);
      }
    }

    /** A phrase was recognised; an empty one is ignored. */
    method OnVoiceText(text: string)
      requires Valid()
      modifies this, editor
      ensures Valid()
      ensures text == [] ==> editor.State() == old(editor.State()) &&
                             suggestions == old(suggestions) && errors == old(errors)
      ensures text != [] ==> editor.State() == InsertAt(old(editor.State()), VoiceInsertion(text))
      ensures text != [] ==> ListsCurrent()
    {
      if text == [] {
        return;
      }
      editor.Insert(VoiceInsertion(text));
      Refresh();
    }

    /** The insert button of the suggestion list; `selection` is the selected
        entry, if any. */
    method ApplySuggestion(selection: Option<nat>)
      requires Valid()
      requires selection.Some? ==> selection.value < |suggestions|
      modifies this, editor
      ensures Valid()
      ensures selection.None? ==> editor.State() == old(editor.State()) &&
                                  suggestions == old(suggestions) && errors == old(errors)
      ensures selection.Some? ==>
                editor.State() == CorrectedSuggestionEdit(old(editor.State()), old(suggestions)[selection.value])
      ensures selection.Some? ==> ListsCurrent()
    {
      if selection.None? {
        return;
      }
      var suggestion := suggestions[selection.value];
      EditWithSuggestion(suggestion);
      Refresh();
    }

    /** The edit of the insert button: remove the last typed word, insert the
        suggestion and indent after a colon. */
    method EditWithSuggestion(suggestion: string)
      requires Valid()
      modifies editor
      ensures Valid()
      ensures editor.State() == CorrectedSuggestionEdit(old(editor.State()), suggestion)
    {
      ghost var b := editor.State();
      DeleteLastWord();
      ghost var d := editor.State();
      InsertFinished(suggestion);
      assert editor.State() == Finish(d, suggestion);
    }

    /** Delete the last word of the line up to the cursor and the blanks
        typed after it; nothing when the line holds no word. */
    method DeleteLastWord()
      requires Valid()
      modifies editor
      ensures Valid()
      ensures editor.State() == DeleteBetween(old(editor.State()), WordStart(old(editor.State())), old(editor.cursor))
    {
      ghost var b := editor.State();
      var cursor := editor.cursor;
      var lineStart := LineStart(editor.text, cursor);
      var textBefore := editor.text[lineStart..cursor];
      assert textBefore == Before(b);
      if LastWord(textBefore) != [] {
        editor.Delete(lineStart + WordOffset(textBefore), cursor);
      } else {
        assert WordStart(b) == cursor;
        assert DeleteBetween(b, cursor, cursor) == b;
      }
    }

    /** Insert the suggestion at the cursor, then a new indented line when
        it ends with a colon. */
    method InsertFinished(suggestion: string)
      requires Valid()
      modifies editor
      ensures Valid()
      ensures editor.State() == Finish(old(editor.State()), suggestion)
    {
      editor.Insert(suggestion);
      if EndsWith(Strip(suggestion), ":") {
        editor.Insert("\n    ");
      }
    }

    /** One pass of the window loop over the keyboard: re-measure the buttons,
        map the gaze into screen coordinates, and either clear the hover (gaze
        well above the keyboard) or hit-test the point. */
    method GazeStep(gx: real, gy: real, kx: int, ky: int, kw: int, kh: int,
                    geometry: seq<Option<VirtualKeyboard.Rect>>)
      requires Valid()
      requires |geometry| == |keyboard.buttons|
      modifies keyboard
      ensures Valid()
      ensures |keyboard.buttons| == old(|keyboard.buttons|)
      ensures forall i :: 0 <= i < |keyboard.buttons| ==> keyboard.buttons[i].key == old(keyboard.buttons)[i].key
      ensures forall i :: 0 <= i < |keyboard.buttons| ==>
                match geometry[i]
                case Some(g) => keyboard.buttons[i] == VirtualKeyboard.Button(old(keyboard.buttons)[i].key, g.x, g.y, g.w, g.h)
                case None => keyboard.buttons[i] == old(keyboard.buttons)[i]
      ensures var (sx, sy) := GazePoint(gx, gy, kx, ky, kw, kh);
              if AboveKeyboard(sy, ky) then keyboard.hover == None && keyboard.progress == 0.0
              else VirtualKeyboard.IsFirstHit(keyboard.buttons, sx, sy, keyboard.hover) &&
                   (keyboard.hover == old(keyboard.hover) ==> keyboard.progress == old(keyboard.progress)) &&
                   (keyboard.hover != old(keyboard.hover) ==> keyboard.progress == 0.0)
    {
      keyboard.MeasureButtons(geometry);
      var sx := Trunc(kx as real + gx * kw as real);
      var sy := Trunc(ky as real + gy * kh as real);
      if sy < ky - 40 {
        keyboard.hover := None;
        keyboard.progress := 0.0;
      } else {
        keyboard.SetHoverByCoords(sx, sy);
      }
    }

    /** One tick of the keyboard's dwell loop; a fired key goes to `OnKey`. */
    method DwellTick() returns (fired: Option<string>)
      requires Valid()
      modifies this, editor, keyboard
      ensures Valid()
      ensures keyboard.buttons == old(keyboard.buttons) && keyboard.hover == old(keyboard.hover)
      ensures VirtualKeyboard.TickResult(keyboard.progress, fired) ==
              VirtualKeyboard.TickSpec(old(keyboard.HoveredKey()), old(keyboard.progress), keyboard.dwell)
      ensures fired.None? ==> editor.State() == old(editor.State())
      ensures fired.Some? ==> editor.State() == ApplyKey(old(editor.State()), fired.value)
      ensures fired.Some? ==> ListsCurrent()
      ensures fired.None? ==> suggestions == old(suggestions) && errors == old(errors)
    {
      fired := keyboard.Tick();
      if fired.Some? {
        OnKey(fired.value);
      }
    }
  }
}
