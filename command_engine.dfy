/**
  The voice-command interpreter: a deterministic classifier from a spoken
  phrase to an editor action, behind a "typing enabled" gate that only the
  pause and resume phrases can move.
 */
module CommandEngine {
  import opened Wrappers
  import opened PyStr

  /** The actions the interpreter hands to the editor. */
  datatype Action =
    | Insert(text: string)
    | Dedent
    | Backspace
    | DeleteLine
    | ClearLine
    | Pause(note: string)
    | Resume(note: string)
    | Blocked
    | Dictation(text: string)

  /** The `(kind, payload)` pair the interpreter returns for an action. */
  function AsPair(a: Action): (p: (string, Option<string>))
    ensures p.1.None? <==> (a.Dedent? || a.Backspace? || a.DeleteLine? || a.ClearLine? || a.Blocked?)
  {
    match a
    case Insert(s) => ("insert", Some(s))
    case Dedent => ("dedent", None)
    case Backspace => ("backspace", None)
    case DeleteLine => ("delete_line", None)
    case ClearLine => ("clear_line", None)
    case Pause(n) => ("pause", Some(n))
    case Resume(n) => ("resume", Some(n))
    case Blocked => ("blocked", None)
    case Dictation(s) => ("dictation", Some(s))
  }

  /** Lower-case, trim, then repair three common misrecognitions, in this order. */
  function Normalize(text: string): string
  {
    var t := Strip(Lower(text));
    var t := Replace(t, "inert", "insert");
    var t := Replace(t, "inside", "insert");
    Replace(t, "intend", "indent")
  }

  predicate IsPausePhrase(t: string) {
    t == "pause typing" || t == "stop typing"
  }

  predicate IsResumePhrase(t: string) {
    t == "resume typing" || t == "start typing"
  }

  predicate IsControlPhrase(t: string) {
    IsPausePhrase(t) || IsResumePhrase(t)
  }

  const PausedNote := "Typing paused"
  const ResumedNote := "Typing resumed"

  /** The spoken names of the single-character symbols. */
  const Symbols: map<string, char> := map[
    "open bracket" := '{',
    "close bracket" := '}',
    "open parenthesis" := '(',
    "close parenthesis" := ')',
    "open square bracket" := '[',
    "close square bracket" := ']',
    "colon" := ':',
    "comma" := ',',
    "dot" := '.',
    "equals" := '=',
    "plus" := '+',
    "minus" := '-',
    "multiply" := '*',
    "divide" := '/'
  ]

  /** What an open gate makes of the normalised phrase `t`: editing commands
      first, then symbols, then snippets, else the original `text` is dictated. */
  function Dispatch(t: string, text: string): Action
  {
    if t == "new line" || t == "next line" then Insert("\n")
    else if t == "indent" then Insert("    ")
    else if t == "dedent" then Dedent
    else if t == "backspace" then Backspace
    else if t == "delete line" then DeleteLine
    else if t == "clear line" then ClearLine
    else if t in Symbols then Insert([Symbols[t]])
    else if t == "insert for loop" then Insert("for i in range():\n    ")
    else if t == "insert while loop" then Insert("while condition:\n    ")
    else if t == "insert if condition" then Insert("if condition:\n    ")
    else if t == "insert else" then Insert("else:\n    ")
    else if t == "insert function" then Insert("def function_name():\n    ")
    else if t == "insert class" then Insert("class ClassName:\n    def __init__(self):\n        ")
    else if t == "insert print" then Insert("print()")
    else if t == "insert main" then Insert("if __name__ == '__main__':\n    ")
    else Dictation(text)
  }

  /** One interpretation: the action and the gate afterwards, from the gate before. */
  function Step(typingEnabled: bool, text: string): (Action, bool)
  {
    var t := Normalize(text);
    if IsPausePhrase(t) then (Pause(PausedNote), false)
    else if IsResumePhrase(t) then (Resume(ResumedNote), true)
    else if !typingEnabled then (Blocked, false)
    else (Dispatch(t, text), true)
  }

  /** The editing commands of the gate-open vocabulary. */
  const EditingCommands: map<string, Action> := map[
    "new line" := Insert("\n"),
    "next line" := Insert("\n"),
    "indent" := Insert("    "),
    "dedent" := Dedent,
    "backspace" := Backspace,
    "delete line" := DeleteLine,
    "clear line" := ClearLine
  ]

  /** Each symbol name inserts its character. */
  const SymbolInsertions: map<string, Action> := map k | k in Symbols :: Insert([Symbols[k]])

  /** The code snippets of the gate-open vocabulary. */
  const Snippets: map<string, Action> := map[
    "insert for loop" := Insert("for i in range():\n    "),
    "insert while loop" := Insert("while condition:\n    "),
    "insert if condition" := Insert("if condition:\n    "),
    "insert else" := Insert("else:\n    "),
    "insert function" := Insert("def function_name():\n    "),
    "insert class" := Insert("class ClassName:\n    def __init__(self):\n        "),
    "insert print" := Insert("print()"),
    "insert main" := Insert("if __name__ == '__main__':\n    ")
  ]

  /** The whole gate-open vocabulary as one table, written independently of
      the priority chain in `Dispatch`. */
  const Vocabulary: map<string, Action> := EditingCommands + SymbolInsertions + Snippets

  /** The interpreter with its gate, which starts open. */
  class Engine {
    var typingEnabled: bool

    constructor ()
      ensures typingEnabled
    {
      typingEnabled := true;
    }

    method Interpret(text: string) returns (a: Action)
      modifies this
      ensures (a, typingEnabled) == Step(old(typingEnabled), text)
    {
      var t := Normalize(text);
      if IsPausePhrase(t) {
        typingEnabled := false;
        return Pause(PausedNote);
      }
      if IsResumePhrase(t) {
        typingEnabled := true;
        return Resume(ResumedNote);
      }
      if !typingEnabled {
        return Blocked;
      }
      a := Dispatch(t, text);
    }
  }

  /** A pause phrase is honoured whatever the gate, and closes it. */
  lemma PauseAlwaysHonoured(gate: bool, text: string)
    requires IsPausePhrase(Normalize(text))
    ensures Step(gate, text) == (Pause("Typing paused"), false)
  {
  }

  /** A resume phrase is honoured whatever the gate, and opens it. */
  lemma ResumeAlwaysHonoured(gate: bool, text: string)
    requires IsResumePhrase(Normalize(text))
    ensures Step(gate, text) == (Resume("Typing resumed"), true)
  {
  }

  /** The result is `Blocked` exactly when the gate is closed and the phrase
      is not a pause or resume phrase. */
  lemma BlockedIffClosed(gate: bool, text: string)
    ensures Step(gate, text).0 == Blocked <==> !gate && !IsControlPhrase(Normalize(text))
  {
    if gate && !IsControlPhrase(Normalize(text)) {
      DispatchNeverBlocks(Normalize(text), text);
    }
  }

  lemma DispatchNeverBlocks(t: string, text: string)
    ensures !Dispatch(t, text).Blocked? && !Dispatch(t, text).Pause? && !Dispatch(t, text).Resume?
  {
  }

  /** Only the pause and resume phrases move the gate. */
  lemma GateMovesOnlyOnControl(gate: bool, text: string)
    ensures !IsControlPhrase(Normalize(text)) ==> Step(gate, text).1 == gate
    ensures Step(gate, text).1 != gate ==> (if gate then IsPausePhrase(Normalize(text)) else IsResumePhrase(Normalize(text)))
  {
  }

  /** With the gate open, the priority chain agrees with the vocabulary table,
      and everything outside the table is dictated verbatim. */
  lemma {:induction false} DispatchIsVocabulary(t: string, text: string)
    ensures Dispatch(t, text) == if t in Vocabulary then Vocabulary[t] else Dictation(text)
  {
    if t in EditingCommands {
      DispatchEditing(t, text);
    } else if t in Symbols {
      DispatchSymbol(t, text);
    } else if t in Snippets {
      DispatchSnippet(t, text);
    } else {
      assert t !in Vocabulary;
      DispatchOther(t, text);
    }
  }

  /** No phrase belongs to two of the three tables, so the order in which
      the chain tests them does not matter. */
  lemma GroupsDisjoint(t: string)
    ensures t in EditingCommands ==> t !in Symbols && t !in Snippets
    ensures t in Symbols ==> t !in Snippets
  {
    EditingNotSymbol(t);
    EditingNotSnippet(t);
    SymbolNotSnippet(t);
  }

  lemma EditingNotSymbol(t: string)
    ensures t in EditingCommands ==> t !in Symbols
  {
    if t in EditingCommands {
      if t == "new line" || t == "next line" || t == "indent" {
      } else if t == "dedent" || t == "backspace" {
      } else {
        assert t == "delete line" || t == "clear line";
      }
    }
  }

  lemma EditingNotSnippet(t: string)
    ensures t in EditingCommands ==> t !in Snippets
  {
  }

  lemma SymbolNotSnippet(t: string)
    ensures t in Symbols ==> t !in Snippets
  {
    SnippetInitial(t);
    SymbolInitial(t);
  }

  /** Every snippet phrase begins with "insert". */
  lemma SnippetInitial(t: string)
    ensures t in Snippets ==> |t| > 0 && t[0] == 'i'
  {
  }

  /** No symbol name begins with an "i". */
  lemma SymbolInitial(t: string)
    ensures t in Symbols ==> |t| > 0 && t[0] != 'i'
  {
  }

  lemma DispatchEditing(t: string, text: string)
    requires t in EditingCommands
    ensures t in Vocabulary && Dispatch(t, text) == Vocabulary[t]
  {
    GroupsDisjoint(t);
    assert Vocabulary[t] == EditingCommands[t];
    EditingChain(t, text);
  }

  /** The editing commands are the head of the chain. */
  lemma EditingChain(t: string, text: string)
    requires t in EditingCommands
    ensures Dispatch(t, text) == EditingCommands[t]
  {
    if t == "new line" {
    } else if t == "next line" {
    } else if t == "indent" {
    } else if t == "dedent" {
    } else if t == "backspace" {
    } else if t == "delete line" {
    } else {
      assert t == "clear line";
    }
  }

  lemma DispatchSymbol(t: string, text: string)
    requires t in Symbols
    ensures t in Vocabulary && Dispatch(t, text) == Vocabulary[t]
  {
    EditingNotSymbol(t);
    SymbolChain(t, text);
    SymbolEntries(t);
  }

  /** Past the editing commands, the chain tests the symbol names. */
  lemma SymbolChain(t: string, text: string)
    requires t in Symbols && t !in EditingCommands
    ensures Dispatch(t, text) == Insert([Symbols[t]])
  {
    assert t != "new line" && t != "next line" && t != "indent" && t != "dedent";
    assert t != "backspace" && t != "delete line" && t != "clear line";
  }

  lemma DispatchSnippet(t: string, text: string)
    requires t in Snippets
    ensures t in Vocabulary && Dispatch(t, text) == Vocabulary[t]
  {
    GroupsDisjoint(t);
    assert t !in EditingCommands && t !in Symbols;
    assert Vocabulary[t] == Snippets[t];
    SnippetChain(t, text);
  }

  /** Past the editing commands and the symbols, the chain tests the snippets. */
  lemma SnippetChain(t: string, text: string)
    requires t in Snippets && t !in EditingCommands && t !in Symbols
    ensures Dispatch(t, text) == Snippets[t]
  {
    if t == "insert for loop" || t == "insert while loop" || t == "insert if condition" || t == "insert else" {
      LoopSnippets(t, text);
    } else {
      DefinitionSnippets(t, text);
    }
  }

  lemma LoopSnippets(t: string, text: string)
    requires t !in EditingCommands && t !in Symbols
    requires t == "insert for loop" || t == "insert while loop" || t == "insert if condition" || t == "insert else"
    ensures t in Snippets && Dispatch(t, text) == Snippets[t]
  {
    if t == "insert for loop" {
    } else if t == "insert while loop" {
    } else if t == "insert if condition" {
    } else {
    }
  }

  lemma DefinitionSnippets(t: string, text: string)
    requires t !in EditingCommands && t !in Symbols
    requires t == "insert function" || t == "insert class" || t == "insert print" || t == "insert main"
    ensures t in Snippets && Dispatch(t, text) == Snippets[t]
  {
    if t == "insert function" {
    } else if t == "insert class" {
    } else if t == "insert print" {
    } else {
    }
  }

  lemma DispatchOther(t: string, text: string)
    requires t !in Vocabulary
    ensures Dispatch(t, text) == Dictation(text)
  {
  }

  /** Every symbol phrase inserts its one character. */
  lemma SymbolsInsertOneCharacter(gate: bool, text: string)
    requires gate
    requires Normalize(text) in Symbols
    ensures Step(gate, text) == (Insert([Symbols[Normalize(text)]]), true)
    ensures |Step(gate, text).0.text| == 1
  {
    var t := Normalize(text);
    SymbolIsNotControl(t);
    DispatchIsVocabulary(t, text);
    SymbolEntries(t);
  }

  lemma SymbolIsNotControl(t: string)
    requires t in Symbols
    ensures !IsControlPhrase(t)
  {
  }

  /** Each symbol phrase is in the vocabulary as the insertion of its character. */
  lemma SymbolEntries(t: string)
    requires t in Symbols
    ensures t in Vocabulary && Vocabulary[t] == Insert([Symbols[t]])
  {
    SymbolNotSnippet(t);
    assert SymbolInsertions[t] == Insert([Symbols[t]]);
  }

  /** A gate-open phrase outside the vocabulary is dictated with the original,
      un-normalised text. */
  lemma DictationFallback(gate: bool, text: string)
    requires gate
    requires !IsControlPhrase(Normalize(text)) && Normalize(text) !in Vocabulary
    ensures Step(gate, text) == (Dictation(text), true)
  {
    DispatchIsVocabulary(Normalize(text), text);
  }

  /** "  Intend " lower-cases and trims to "intend", which is repaired to
      "indent", which inserts four spaces. */
  lemma IntendExample()
    ensures Normalize("  Intend ") == "indent"
    ensures Step(true, "  Intend ") == (Insert("    "), true)
  {
    IntendNormalizes();
    IndentCommand("  Intend ");
  }

  lemma IndentCommand(text: string)
    ensures !IsControlPhrase("indent")
    ensures Dispatch("indent", text) == Insert("    ")
  {
  }

  lemma IntendNormalizes()
    ensures Normalize("  Intend ") == "indent"
  {
    IntendLowers();
    IntendStrips();
    IntendRepairs();
  }

  lemma IntendLowers()
    ensures Lower("  Intend ") == "  intend "
  {
  }

  lemma IntendLeftStrips()
    ensures LStrip("  intend ") == "intend "
  {
    var s0, s1, s2 := "  intend ", " intend ", "intend ";
    assert IsSpace(s0[0]) && s0[1..] == s1;
    assert IsSpace(s1[0]) && s1[1..] == s2;
    assert !IsSpace(s2[0]);
  }

  lemma IntendRightStrips()
    ensures RStrip("intend ") == "intend"
  {
    var s2 := "intend ";
    assert IsSpace(s2[6]) && s2[..6] == "intend";
  }

  lemma IntendStrips()
    ensures Strip("  intend ") == "intend"
  {
    IntendLeftStrips();
    IntendRightStrips();
  }

  lemma IntendRepairs()
    ensures Replace(Replace(Replace("intend", "inert", "insert"), "inside", "insert"), "intend", "indent") == "indent"
  {
    assert Replace("intend", "inert", "insert") == "intend" by {
      assert "intend"[..5][2] != "inert"[2];
      assert "intend"[1..] == "ntend";
      assert "ntend"[..5][0] != "inert"[0];
      assert "ntend"[1..] == "tend";
    }
    assert Replace("intend", "inside", "insert") == "intend" by {
      assert "intend"[..6][2] != "inside"[2];
      assert "intend"[1..] == "ntend";
    }
    assert Replace("intend", "intend", "indent") == "indent" by {
      assert "intend"[..6] == "intend";
      assert "intend"[6..] == "";
    }
  }
}
