# ECA editing core in Dafny

ECA, the Eye & Voice Coding Assistant, lets someone write code with a webcam gaze signal and spoken commands instead of a keyboard. This project models the sequential logic that ECA runs between the sensors and the text editor, and proves properties of it:

- **Voice-command interpreter** (`CommandEngine`). It normalises a phrase: lower-casing, stripping, then three fixed substring repairs. A typing gate is always opened by resume phrases and always closed by pause phrases. While the gate is closed, everything else is blocked. Otherwise the phrase is matched against the editing commands, then the symbol table, then the snippet templates, and falls back to dictation of the original text. `Engine` is a class with the one field `typingEnabled`; `Interpret` is specified by the pure `Step`.
- **On-screen keyboard** (`VirtualKeyboard`). It covers:
  - the 101-key layout and the unmeasured button records built from it;
  - the dwell setting;
  - re-measuring the buttons;
  - a first-match, inclusive rectangle hit test;
  - one tick of the dwell loop, over exact (real) progress.
  
  `Keyboard` is a class whose methods update `buttons`, `hover` and `progress` in place.
- **Editor window** (`UIManager`). The Tk text widget is modelled as an `Editor` class holding a text and an insert cursor. Over it, `UI` models:
  - the virtual-key handler;
  - the voice-snippet handler;
  - applying a chosen code suggestion;
  - the gaze branch of the polling loop;
  - the hand-off from a dwell tick to the key handler.
  
  After each edit, the suggestion and error lists are recomputed from the editor's contents.
- **Code suggester** (`CodeSuggester`). It covers the template table, the token taken from the last line, and the truncated lookup.
- **Error checker** (`ErrorChecker`). It covers the common-typo table and the report built by scanning lines and words. The Python parser and the fuzzy matcher are opaque function parameters.

`PyStr` gives the Python string operations these files use (`lower`, `strip`, `rstrip`, `split`, `split()`, `startswith`, `in`, `replace`), and `Wrappers` gives `Option`.

Three points of the program's behaviour worth noting:
- Progress grows on every tick while a key is hovered. Hit testing happens in a separate step, the UI loop, not inside the tick.
- The typing gate is not shared with the keyboard or the voice-snippet handler: the window stores a command engine but never calls it.
- Beyond the hit test, a gaze point more than 40 pixels above the keyboard also clears the hover.

## Model

| member | source | states |
|---|---|---|
| CommandEngine.Engine.constructor | eca/command_engine.py:2-4 | a new engine starts with typing enabled |
| CommandEngine.Engine.Interpret | eca/command_engine.py:6-93 | the returned action and the new gate are exactly what the interpreter step gives for the old gate and the phrase |
| CommandEngine.AsPair | eca/command_engine.py:17-93 | an action's payload is None exactly for dedent, backspace, delete line, clear line and blocked |
| CommandEngine.IntendExample | eca/command_engine.py:7-12 | "  Intend " normalises to "indent" and, with the gate open, inserts four spaces |
| CommandEngine.IntendNormalizes | eca/command_engine.py:7-12 | lower-casing, stripping and the three repairs, in that order, turn "  Intend " into "indent" |
| CommandEngine.IndentCommand | eca/command_engine.py:31-32 | "indent" is not a control phrase and dispatches to inserting four spaces |
| CommandEngine.PauseAlwaysHonoured | eca/command_engine.py:15-17 | a pause phrase returns ("pause", "Typing paused") and closes the gate, whatever the gate was |
| CommandEngine.ResumeAlwaysHonoured | eca/command_engine.py:19-21 | a resume phrase returns ("resume", "Typing resumed") and opens the gate, whatever the gate was |
| CommandEngine.BlockedIffClosed | eca/command_engine.py:23-25 | the result is "blocked" if and only if the gate is closed and the phrase is neither pause nor resume |
| CommandEngine.GateMovesOnlyOnControl | eca/command_engine.py:15-25 | only pause and resume phrases change the gate, and a change is toward what the phrase asks |
| CommandEngine.DispatchNeverBlocks | eca/command_engine.py:27-93 | with the gate open, the result is never blocked, pause or resume |
| CommandEngine.DispatchIsVocabulary | eca/command_engine.py:27-93 | with the gate open, dispatch is the lookup of the normalised phrase in editing commands, symbols and snippets, else dictation of the original text |
| CommandEngine.GroupsDisjoint | eca/command_engine.py:28-90 | no phrase is both an editing command and a symbol or snippet, nor both a symbol and a snippet, so the priority order never hides an entry |
| CommandEngine.DispatchEditing | eca/command_engine.py:28-44 | each editing command dispatches to its own action |
| CommandEngine.DispatchSymbol | eca/command_engine.py:46-65 | each symbol phrase dispatches to its table entry |
| CommandEngine.DispatchSnippet | eca/command_engine.py:67-90 | each of the eight snippet phrases dispatches to its fixed template |
| CommandEngine.DispatchOther | eca/command_engine.py:92-93 | a phrase outside the vocabulary dispatches to dictation of the original text |
| CommandEngine.SymbolsInsertOneCharacter | eca/command_engine.py:47-65 | with the gate open, a symbol phrase inserts exactly its single table character and keeps the gate open |
| CommandEngine.SymbolIsNotControl | eca/command_engine.py:15-21 | no symbol phrase is a pause or resume phrase |
| CommandEngine.SymbolChain | eca/command_engine.py:46-65 | a symbol phrase passes the editing-command tests and inserts its character |
| CommandEngine.SymbolEntries | eca/command_engine.py:64-65 | the vocabulary entry of a symbol phrase inserts its character |
| CommandEngine.DictationFallback | eca/command_engine.py:92-93 | with the gate open, a phrase that matches nothing returns dictation of the original, un-normalised text and keeps the gate open |
| VirtualKeyboard.Flatten | eca/virtual_keyboard.py:51-54 | every key of every row appears among the buttons, and every button key comes from some row |
| VirtualKeyboard.InitialButtons | eca/virtual_keyboard.py:50-72 | one button per layout key, in layout order, each with position and size 0 |
| VirtualKeyboard.LayoutHas101Keys | eca/virtual_keyboard.py:6-32 | the layout has 101 keys, so there are 101 buttons |
| VirtualKeyboard.FlattenLength | eca/virtual_keyboard.py:51-54 | the number of buttons is the sum of the row lengths |
| VirtualKeyboard.InitialDwell | eca/virtual_keyboard.py:41 | dwell is the explicit value if given, else the setting unless it is missing or 0, else 900 |
| VirtualKeyboard.FirstHitUnique | eca/virtual_keyboard.py:91-96 | the first-hit relation determines at most one result |
| VirtualKeyboard.HitTest | eca/virtual_keyboard.py:91-96 | the result is the first button whose closed rectangle holds the point, or none when no button does |
| VirtualKeyboard.StepSize | eca/virtual_keyboard.py:117-118 | the step is 50 / max(1, dwell), positive and at most 50 |
| VirtualKeyboard.TickKeepsProgressInRange | eca/virtual_keyboard.py:114-127 | a tick keeps progress in [0, 1); it fires exactly when hovering and the step brings progress to 1; it fires only the hovered key and then resets progress |
| VirtualKeyboard.Period | eca/virtual_keyboard.py:117-119 | the period is the least number of 50 ms steps that reach max(1, dwell) |
| VirtualKeyboard.TickAfterSteps | eca/virtual_keyboard.py:116-125 | one tick after m whole steps, m below the period, gives m+1 steps, or fires and resets at the period |
| VirtualKeyboard.StepsReachOne | eca/virtual_keyboard.py:118-119 | over exact reals, m steps reach progress 1 if and only if m is at least the period |
| VirtualKeyboard.HoldIsPeriodic | eca/virtual_keyboard.py:114-128 | after n ticks hovering one key, with n = q·period + r, progress is r steps and the key has fired q times |
| VirtualKeyboard.DefaultDwellFiresEvery18Ticks | eca/virtual_keyboard.py:41 | with the default 900 ms dwell the period is 18 ticks: no activation after 17 ticks, one after 18 |
| VirtualKeyboard.Keyboard.constructor | eca/virtual_keyboard.py:37-46 | a new keyboard has the unmeasured buttons, no hover, progress 0 and the initial dwell |
| VirtualKeyboard.Keyboard.HoveredKey | eca/virtual_keyboard.py:120 | the hovered key exists exactly when a button is hovered, and is that button's label |
| VirtualKeyboard.Keyboard.MeasureButtons | eca/virtual_keyboard.py:77-88 | each button takes its widget's position and size, or keeps its old record when measuring fails; labels, hover and progress are unchanged |
| VirtualKeyboard.Keyboard.SetHoverByCoords | eca/virtual_keyboard.py:90-112 | hover becomes the first hit; progress resets to 0 when the hover changes, including to or from none, and is kept otherwise |
| VirtualKeyboard.Keyboard.Tick | eca/virtual_keyboard.py:114-128 | one loop iteration updates progress and fires as the tick function says, leaving buttons and hover as they were |
| UIManager.Clamp | eca/ui_manager.py:211 | an editor index is clamped into the text |
| UIManager.Editor.Insert | eca/ui_manager.py:214 | inserting at the cursor puts the string there and moves the cursor past it |
| UIManager.Editor.Delete | eca/ui_manager.py:211 | deleting a clamped range removes it and moves the cursor as the text widget moves its mark |
| UIManager.Editor.DeleteChar | eca/ui_manager.py:231 | deleting one clamped index removes that character, if there is one |
| UIManager.Editor.Contents | eca/ui_manager.py:182 | the widget's contents are the text followed by the one newline the widget always keeps |
| UIManager.KeyTypesItsText | eca/ui_manager.py:225-233 | a key other than BACKSPACE inserts its text at the cursor and leaves the rest unchanged; SPACE types a blank, ENTER a newline, and any other label itself |
| UIManager.BackspaceDeletesPrevious | eca/ui_manager.py:230-231 | BACKSPACE removes the character before the cursor |
| UIManager.BackspaceAtStartDeletesNext | eca/ui_manager.py:230-231 | BACKSPACE at the very start removes the character after the cursor, as the index "insert-1c" clamps to the start |
| UIManager.BackspaceUndoesKey | eca/ui_manager.py:225-233 | BACKSPACE after a one-character key restores the buffer |
| UIManager.UI.OnKey | eca/ui_manager.py:225-235 | the editor changes by the key's edit, and the suggestion and error lists are recomputed from the new contents |
| UIManager.UI.EditForKey | eca/ui_manager.py:226-233 | the four-way branch on the key label makes the key's edit |
| UIManager.FirstMatch | eca/ui_manager.py:261-278 | the result is the template of the first rule that matches, or none exactly when no rule matches |
| UIManager.VoiceInsertionIsFirstRule | eca/ui_manager.py:259-280 | the inserted text is the template of the first matching substring or prefix rule over the lower-cased, stripped phrase, else the phrase followed by a space |
| UIManager.UnrollRules | eca/ui_manager.py:261-280 | the rule list is tried in source order: for loop or create a loop, while loop, prefix if, elif, prefix else, function, class, print, import |
| UIManager.RuleMatchesOne | eca/ui_manager.py:261 | a rule with one or two patterns matches exactly when one of its patterns does |
| UIManager.ForLoopPhraseWins | eca/ui_manager.py:261-262 | a phrase containing "for loop" inserts the for template whatever else it says |
| UIManager.UnmatchedPhraseIsDictated | eca/ui_manager.py:279-280 | a phrase no rule matches is inserted as spoken, followed by one space |
| UIManager.UI.OnVoiceText | eca/ui_manager.py:253-283 | empty text changes nothing; other text inserts the chosen snippet at the cursor and recomputes both lists |
| UIManager.LineStart | eca/ui_manager.py:202 | the line start is the position after the last newline before the cursor, or 0 |
| UIManager.Before | eca/ui_manager.py:203 | the line text before the cursor is no longer than the cursor offset |
| UIManager.LastWord | eca/ui_manager.py:206-209 | the last word is empty exactly when the right-stripped line has no words; otherwise it is the last whitespace-separated word |
| UIManager.WordStart | eca/ui_manager.py:202-209 | the start of the last word lies between the line start and the cursor |
| UIManager.Finish | eca/ui_manager.py:213-218 | inserting the suggestion, and a newline with four spaces after a trailing colon, keeps the buffer well formed |
| UIManager.ReplaceBeforeCursor | eca/ui_manager.py:211-218 | deleting a range ending at the cursor and finishing replaces that range by the suggestion and its indentation, with the cursor after them |
| UIManager.SuggestionEditShape | eca/ui_manager.py:201-218 | the edit as written replaces the last len(last_word) characters before the cursor by the suggestion and "\n    " exactly when the stripped suggestion ends with ":" |
| UIManager.SuggestionReplacesWordAtCursor | eca/ui_manager.py:201-211 | when the cursor sits right after a word, the characters deleted are exactly that last word |
| UIManager.TrailingBlankDeletesWrongText | eca/ui_manager.py:206-211 | on the line "for " with the cursor after the blank, choosing "for i in range():" leaves "ffor i in range():" and an indented line |
| UIManager.CorrectedSuggestionEdit | eca/ui_manager.py:201-218 | the intended edit, deleting from the start of the last word to the cursor, keeps the buffer well formed |
| UIManager.CorrectedEditShape | eca/ui_manager.py:201-218 | the intended edit replaces the last word and the blanks after it by the suggestion and its indentation |
| UIManager.CorrectedDeletesFromWord | eca/ui_manager.py:202-211 | the intended edit deletes the line text before the cursor from the offset of its last word on |
| UIManager.CorrectedDeletesLastWord | eca/ui_manager.py:206-211 | what the intended edit deletes is the last word followed only by blanks |
| UIManager.LastWordEndsLine | eca/ui_manager.py:206-209 | the last word ends the right-stripped line text before the cursor |
| UIManager.RStripKeepsWords | eca/ui_manager.py:206-207 | right-stripping a line that holds a word leaves text that still holds one |
| UIManager.RStripTailIsBlank | eca/ui_manager.py:206-207 | what the right strip removes from the line text is blank |
| UIManager.LastWordInLine | eca/ui_manager.py:206-209 | the last word stands just before the trailing blanks of the line text before the cursor |
| UIManager.CorrectedAgreesWithoutWord | eca/ui_manager.py:208-211 | on a line with no word before the cursor, the intended edit deletes nothing, as the written one does |
| UIManager.CorrectedAgreesAtWordEnd | eca/ui_manager.py:201-218 | when the cursor sits right after a word, the intended and the written edit agree |
| UIManager.CorrectedTrailingBlank | eca/ui_manager.py:206-211 | on the line "for " with the cursor after the blank, the intended edit leaves "for i in range():" and an indented line |
| UIManager.UI.ApplySuggestion | eca/ui_manager.py:193-222 | without a selection nothing changes; with one, the editor replaces the last word before the cursor by the selected entry, indenting after a colon, and both lists are recomputed |
| UIManager.UI.EditWithSuggestion | eca/ui_manager.py:200-218 | deleting the last word, then inserting the suggestion and its indentation, is the corrected suggestion edit |
| UIManager.UI.DeleteLastWord | eca/ui_manager.py:201-211 | the editor deletes from the start of the last word of the line up to the cursor, and nothing when the line has no word |
| UIManager.UI.InsertFinished | eca/ui_manager.py:213-218 | the suggestion is inserted, followed by "\n    " exactly when its stripped text ends with ":" |
| UIManager.UI.Refresh | eca/ui_manager.py:180-190 | the suggestion list and the error list are those computed from the editor's whole contents |
| UIManager.Trunc | eca/ui_manager.py:147-148 | int() of a real truncates toward zero |
| UIManager.TruncTowardZero | eca/ui_manager.py:147-150 | a gaze 40.5 pixels above a keyboard at the top of the screen lands at -40, which does not clear the hover |
| UIManager.UI.GazeStep | eca/ui_manager.py:143-155 | each button takes its new measured rectangle, or keeps its old one when it cannot be measured, with its key unchanged; then a gaze point more than 40 pixels above the keyboard clears hover and progress; otherwise hover is the first hit of the truncated point, with progress reset exactly on a change |
| UIManager.UI.DwellTick | eca/ui_manager.py:225-235 | a keyboard tick that fires passes the key to the `on_key` handler the keyboard was built with, which makes that key's edit and recomputes both lists; otherwise the editor and both lists are unchanged |
| CodeSuggester.Suggester.SuggestFor | eca/ai/code_suggester.py:56-59 | a token without templates gives nothing; otherwise exactly the first min(max_suggestions, list length) templates in table order, or all but the last -max_suggestions for a negative limit, each starting with the token |
| CodeSuggester.Take | eca/ai/code_suggester.py:57 | a Python slice [:n] keeps a prefix of length n, or all but -n items when n is negative |
| CodeSuggester.TemplatesStartWithKey | eca/ai/code_suggester.py:5-24 | every template starts with its key |
| CodeSuggester.KeywordsHaveTemplates | eca/ai/code_suggester.py:5-24 | each of the five fallback keywords has templates |
| CodeSuggester.KeywordsDifferFirst | eca/ai/code_suggester.py:38-47 | the five keywords differ in their first letter, so at most one prefix test passes |
| CodeSuggester.KeywordPrefixDecides | eca/ai/code_suggester.py:38-47 | a line starting with a keyword yields that keyword |
| CodeSuggester.DropNonWordSuffix | eca/ai/code_suggester.py:50 | dropping the trailing non-word characters leaves a prefix that is empty or ends in a word character |
| CodeSuggester.TrailingRunLength | eca/ai/code_suggester.py:50 | the trailing run of letters and underscores is maximal |
| CodeSuggester.WordRuns | eca/ai/code_suggester.py:50 | the regex finds only runs of letters and underscores, and finds none exactly when the line has no such character |
| CodeSuggester.LastRunToken | eca/ai/code_suggester.py:49-51 | without a keyword prefix, the token is the last maximal run of letters and underscores, or empty exactly when there is none |
| CodeSuggester.TokenFromLastLineOnly | eca/ai/code_suggester.py:31-35 | text before the last non-blank line does not change the line the token comes from |
| CodeSuggester.SuggestFromLastLineOnly | eca/ai/code_suggester.py:30-59 | suggestions depend only on the last non-blank line |
| CodeSuggester.TrailingNewlineIgnored | eca/ai/code_suggester.py:31 | a trailing newline, such as the one the editor widget keeps, does not change the last line |
| CodeSuggester.SuggestIgnoresTrailingNewline | eca/ai/code_suggester.py:31-59 | a trailing newline does not change the suggestions |
| CodeSuggester.EmptyTextSuggestsNothing | eca/ai/code_suggester.py:31-33 | empty text gives the empty token and no suggestions: splitting gives one empty line, so the "no lines" branch never runs |
| CodeSuggester.FormatSuggestsLoops | eca/ai/code_suggester.py:38-39 | "format(x" yields the token "for" and all three loop templates |
| CodeSuggester.TemplateListsAreShort | eca/ai/code_suggester.py:5-28 | every template list has at most 3 entries, so the default limit of 5 keeps them whole |
| CodeSuggester.DefaultOffersAllTemplates | eca/ai/code_suggester.py:26-28 | the default suggester offers the whole template list of a token that has one |
| ErrorChecker.CheckErrors | eca/ai/error_checker.py:17-53 | the records built by the loops are the syntax record, if any, then each line's word records, lines and words in order |
| ErrorChecker.RecordWord | eca/ai/error_checker.py:35-51 | one word of a line appends its exact-typo record, when it is a known typo, and then its fuzzy record, when it has a close match and is not itself a keyword |
| ErrorChecker.ScanLine | eca/ai/error_checker.py:33-51 | the inner loop appends, word by word, the exact-typo record and the fuzzy record of each word of the line |
| ErrorChecker.SyntaxRecordFirst | eca/ai/error_checker.py:20-28 | a failed parse gives exactly one syntax record, at the front; an accepted parse gives none |
| ErrorChecker.TypoBetweenBlanksReported | eca/ai/error_checker.py:31-40 | a known typo standing between two whitespace characters of a line is reported with that line's number |
| ErrorChecker.EveryTypoReported | eca/ai/error_checker.py:31-40 | every common-typo word on line i gives a record with line i+1 and its correction |
| ErrorChecker.WordReported | eca/ai/error_checker.py:34-40 | every common-typo word of a line gives a typo record for that line |
| ErrorChecker.LinesRecordsOrdered | eca/ai/error_checker.py:31-51 | every word record's line lies in 1 to the number of lines, and records come in line order |
| ErrorChecker.WordsRecordsOnLine | eca/ai/error_checker.py:33-51 | every record of a line's words carries that line's number |
| ErrorChecker.LinesRecordsExplained | eca/ai/error_checker.py:31-51 | every word record comes from a word on its own line |
| ErrorChecker.WordRecordsExplained | eca/ai/error_checker.py:35-51 | a word's records are its exact-typo record, when it is a typo, and a fuzzy record, when it is not a correct spelling and has a close match |
| ErrorChecker.AtMostTwoPerWord | eca/ai/error_checker.py:34-51 | each word contributes at most two records |
| ErrorChecker.CorrectSpellingNeverFlagged | eca/ai/error_checker.py:46 | a correct spelling gives no record |
| ErrorChecker.PunctuatedWordNotTypo | eca/ai/error_checker.py:33-35 | a word with any character outside a-z, such as "pritn(", is never an exact typo |
| ErrorChecker.HintsNameCorrections | eca/ai/error_checker.py:35-51 | when the matcher only offers corrections, every word hint names one of them |
| ErrorChecker.ScanHintsAreWordHints | eca/ai/error_checker.py:31-51 | no word record carries the syntax hint |
| PyStr.LowerChar | eca/ai/code_suggester.py:35 | lower() maps A-Z to a-z and leaves every other character alone |
| PyStr.Lower | eca/ai/code_suggester.py:35 | lower() maps each character and leaves no upper-case letter |
| PyStr.LStrip | eca/command_engine.py:7 | the left strip drops only whitespace and leaves nothing or a non-whitespace first character |
| PyStr.LStripIsSuffix | eca/command_engine.py:7 | the left strip is a suffix of its input |
| PyStr.RStrip | eca/ai/code_suggester.py:31 | rstrip() drops only trailing whitespace and leaves nothing or a non-whitespace last character |
| PyStr.RStripIsPrefix | eca/ai/code_suggester.py:31 | the right strip is a prefix of its input |
| PyStr.Strip | eca/ai/code_suggester.py:35 | strip() leaves no whitespace at either end and leaves text already without such whitespace unchanged |
| PyStr.ContainsAt | eca/ui_manager.py:261 | a substring test holds exactly when the text occurs at some position |
| PyStr.Replace | eca/command_engine.py:10-12 | replace() leaves a string without the pattern unchanged |
| PyStr.Split | eca/ai/code_suggester.py:31 | split() on a separator gives at least one piece, none containing it |
| PyStr.JoinSplit | eca/ai/error_checker.py:31 | joining the pieces of split() with the separator gives back the text |
| PyStr.Words | eca/ai/error_checker.py:33 | split() without arguments gives only non-empty whitespace-free words, and none exactly when the text is all whitespace |
| PyStr.WordsOfWord | eca/ai/error_checker.py:33 | split() of a single word is that word alone |
| PyStr.WordsAcrossSpace | eca/ai/error_checker.py:33 | a whitespace character separates words: split() of a + [c] + b is split() of a followed by split() of b |
| PyStr.WordsBlankTail | eca/ai/error_checker.py:33 | trailing whitespace adds no words |
| PyStr.WordsAfterLeadingBlank | eca/ai/error_checker.py:33 | leading whitespace adds no words |
| PyStr.WordsOfRStrip | eca/ai/error_checker.py:33 | split() of the right-stripped text is split() of the text |
| PyStr.WordBetweenBlanks | eca/ai/error_checker.py:33 | a word between two whitespace characters is one entry of split(), between the words before it and those after it |
| PyStr.LastWordIsSuffix | eca/ui_manager.py:206-209 | the last word of a line ends its right-stripped text |

## Left out

- The gaze tracker, the calibration, the voice engine, the settings and logger files, and the application wiring. These cover camera and microphone capture, landmark detection, least-squares fitting and JSON persistence. `eca/gaze_tracker.py`, `eca/calibration.py`, `eca/voice_engine.py`, `eca/settings.py`, `eca/logger.py` and `eca/app.py` are not part of this model.
- Tk widget construction, styling and rendering: button widths and relief, the camera preview, the status line, the error tags in the editor and the listbox contents. The model keeps the two lists the window shows, not how they are drawn.
- Threads, `time.sleep` and `root.after` scheduling. Each handler call and each tick is an atomic step, so the unsynchronised sharing of `hover` and `progress` between the Tk thread and the tick thread is not modelled.
- Floating point: progress and gaze coordinates are exact reals, so rounding of repeated float additions is not captured. `VirtualKeyboard.Period`, `VirtualKeyboard.TickAfterSteps`, `VirtualKeyboard.StepsReachOne` and `VirtualKeyboard.HoldIsPeriodic` are facts about exact reals. In IEEE doubles the program can fire one tick later than `Period`. For example, ten additions of 0.1 give 0.9999999999999999, so at a 500 ms dwell the key fires on the eleventh tick, not the tenth. The dwells of 300, 350, 650, 700, 750 and 950 ms lag by one tick in the same way. At the default 900 ms, eighteen additions reach 1.0000000000000002, so the 18-tick period holds there.
- The blanket `except Exception: pass` around Tk calls in the loop and in `on_key`. A failed measurement is modelled as an absent rectangle; other failures are not modelled.
- `_run_code`, `_toggle_voice`, `_start_calibration` and the physical-keyboard key-release handler, which only refreshes the two lists as `UIManager.UI.Refresh` does.
- The semantics of `ast.parse` and `difflib.get_close_matches`. They are opaque function parameters of the error checker. A syntax error's line is an integer, so a missing (`None`) line number is not modelled.
- The camera frame, confidence and fps read under the gaze lock in `_loop`: the gaze point is a parameter of `UIManager.UI.GazeStep`.
- The window's `CommandEngine`, which the window stores but never calls.
- PyStr.LowerChar: only A-Z are mapped to lower case; Python's full Unicode case mapping is not modelled.
- PyStr.Lower: only ASCII letters are lowered, through `PyStr.LowerChar`; Python's full Unicode case mapping is not modelled.
- PyStr.LStrip: that its result is a suffix of the input is stated by `PyStr.LStripIsSuffix`, not by its own contract.
- PyStr.RStrip: that its result is a prefix of the input is stated by `PyStr.RStripIsPrefix`, not by its own contract.
- PyStr.Replace: its contract states only that a string without the pattern is unchanged; the phrases where it matters are proved on concrete values.
- VirtualKeyboard.Keyboard.SetHoverByCoords: the hovered button is identified by its index in the list, not by object identity; the button list is never rebuilt, so the two agree.
- VirtualKeyboard.Keyboard.MeasureButtons: it takes exactly one measurement, or none, per button, which the caller supplies.
- UIManager.UI.OnVoiceText: the branch of the chain is chosen first and the snippet is inserted once; the source makes the insertion inside each branch, with the same effect.
- UIManager.UI.ApplySuggestion: the selected entry is an index into the suggestion list the window last computed; the listbox's own contents are not modelled. It makes the corrected edit of the finding below: on a line whose last word is followed by blanks, it deletes the word and the blanks, where the source deletes the wrong characters.
- UIManager.UI.EditWithSuggestion: it makes the corrected edit of the finding below. It removes the text from `UIManager.WordStart` to the cursor, so on the line "for " with the cursor at the end it removes "for ". `eca/ui_manager.py:211` instead removes `len(last_word)` characters before the cursor, which there is "or ".
- UIManager.UI.DeleteLastWord: it deletes from `UIManager.WordStart` up to the cursor, the last word and the blanks after it, as the corrected edit of the finding below needs. `eca/ui_manager.py:211` deletes `len(last_word)` characters before the cursor instead; on the line "for " that is "or " rather than "for ".

## Findings

| source | as written | input that shows it | evidently intended | confidence | as-written member | corrected member |
|---|---|---|---|---|---|---|
| eca/ui_manager.py:206-211 | the length of the last word of the right-stripped line is deleted from the cursor backwards, even when blanks follow the word | line "for " with the cursor after the blank, choosing "for i in range():", gives "ffor i in range():" and an indented line | delete the last word and the blanks after it, giving "for i in range():" and an indented line | not executed | UIManager.TrailingBlankDeletesWrongText | UIManager.CorrectedTrailingBlank |
