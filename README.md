# nuix bubble tagger — a Dafny model

nuix provides custom Qt line edit widgets for Nuix; its bubble tagger tags
lines in a Nuix case with labels. This project models two of the widgets:

- the **completer line edits** of `src/nuix/lineedit.py`;
- the **bubble tagger** of `src/nuix/bubble_edit.py`.

The bubble tagger is a line edit that turns the tokens a user types into
"bubbles" (tags). They sit in an ordered stack to the left of the text that
is still being typed.

The model has three modules:

- `PyStrings` (`py_strings.dfy`): the Python string operations the widgets
  rely on, with their edge cases:
  - `str.strip` over Python's whitespace set;
  - `str.replace(p, "")`, which removes every non-overlapping occurrence from
    the left and leaves the text alone for an empty `p`;
  - `re.split("[_]", s)`, which keeps empty pieces and always returns at
    least one piece;
  - `str.isdigit`, `int` and `str` on decimal numerals.
- `LineEdit` (`line_edit.dfy`):
  - `LineEditWithCompleter`: a text, a selection, the installed validator
    pattern and the candidate list. Its key handler rewrites the line for
    Backspace and for Up/Down, then hands the key to QLineEdit.
  - `LineEditWithInlineCompleter`: fills in the completer's closest match
    and selects the added suffix.
- `BubbleEdit` (`bubble_edit.dfy`):
  - the tag state as values: a `Tagger` is the tag stack plus the line;
  - one function per step: `Insert`, `Pop`, `PromoteFragments`,
    `PromoteSeparator`, `AfterKeystroke`;
  - the classes `LineEditWithBubbles` and `BubbleWrap`, whose methods are
    proved to take exactly those steps.

Some of what the widgets depend on is Qt's own behaviour or comes from
outside the widget. It enters the model as inputs fixed at construction or
passed to a call:

- QLineEdit's own key handling, which applies the validator pattern:
  `baseHandler`, a function of the line, the pattern and the key.
- The font's text measure `fontMetrics().width`: `measure`.
- The first row of the completion model: `closest`, an `Option<string>`.

A bubble is as wide as its measured text plus a padding of 20.
`tags_width` adds `TAG_PADDING` = 2 per bubble.

Facts about the code that shape the model:

- **Fragments are compared untrimmed.** `keyPressEvent` tests each
  `'_'`-separated fragment against `complete_items` exactly as it is
  (bubble_edit.py:124-125); only `insert_tag` strips (bubble_edit.py:105).
- **Every qualifying fragment is promoted.** The loop inserts every fragment
  that is a candidate and not yet a tag name, not just the first
  (bubble_edit.py:124-127). The fragment list is computed once, before the
  loop, while each insertion rewrites the text (bubble_edit.py:109).
- **`LIMIT` is tested as `LIMIT and len(tags) >= LIMIT`** (bubble_edit.py:102
  and 122). A limit of 0 never blocks and a negative limit always blocks.
- **The pop path skips the validator.** A Backspace that pops a bubble
  returns before `editing_finished_trigger` runs (bubble_edit.py:115-118), so
  the validator pattern is not recomputed.
- **`BubbleWrap` offers `get_tags` and `__contains__`** (bubble_edit.py:190-207)
  besides its constructor.
- **`insert_tag` takes a style** (bubble_edit.py:92), with no default. The
  widget's own calls pass one (bubble_edit.py:127, 135); the test file calls
  `insert_tag(text)` with the text alone (tests/test_bubble_edit.py:27-37 and
  others), which that signature rejects. The model always passes a style.
- **The defaults.** `LineEditWithBubbles` takes a limit of 10 unless given one
  (bubble_edit.py:80), as does `BubbleWrap` (bubble_edit.py:178); text, items
  and validator default to empty (lineedit.py:34, bubble_edit.py:177-180). The
  constructors carry the same defaults.

## Model

| member | source | states |
|---|---|---|
| PyStrings.Strip | src/nuix/bubble_edit.py:105 | `str.strip()`: drops Python whitespace from both ends (its meaning is stated by `StripIsTrim`) |
| PyStrings.StripIsTrim | src/nuix/bubble_edit.py:105 | `Strip(s)` is a slice `s[i..j]`: everything outside it is whitespace, and its ends are not whitespace |
| PyStrings.StripIdempotent | src/nuix/bubble_edit.py:109 | stripping a stripped text changes nothing |
| PyStrings.StripEmptyIff | src/nuix/bubble_edit.py:105 | a text strips to empty exactly when all its characters are whitespace |
| PyStrings.RemoveAll | src/nuix/bubble_edit.py:109 | `str.replace(p, "")`: removes non-overlapping occurrences from the left, and leaves the text alone for an empty `p` (stated by the lemmas below) |
| PyStrings.RemoveAllLength | src/nuix/bubble_edit.py:109 | for a non-empty `p`, `replace(p, "")` shortens the text by `len(p)` times the number of occurrences it removes |
| PyStrings.RemoveAllShrinks | src/nuix/lineedit.py:59 | removing a non-empty string that occurs shortens the text by at least its length |
| PyStrings.RemoveAllUnchangedIff | src/nuix/bubble_edit.py:109 | for a non-empty `p`, `replace(p, "")` leaves a text unchanged exactly when `p` does not occur in it |
| PyStrings.RemoveAllCharGone | src/nuix/lineedit.py:59 | after removing a one-character string, that character no longer occurs |
| PyStrings.RemoveAllSelf | src/nuix/bubble_edit.py:135 | removing a non-empty text from itself leaves the empty text |
| PyStrings.SplitOn | src/nuix/bubble_edit.py:124 | `re.split("[_]", s)`: always at least one piece, empty pieces kept |
| PyStrings.JoinSplit | src/nuix/bubble_edit.py:124 | joining the pieces of `re.split` with the separator gives back the text |
| PyStrings.SplitPiecesFree | src/nuix/bubble_edit.py:124 | no piece of the split contains the separator |
| PyStrings.SplitSingleton | src/nuix/bubble_edit.py:124 | the split is the one-element list `[s]` exactly when the separator does not occur in `s` |
| PyStrings.SplitTrailing | src/nuix/bubble_edit.py:124 | a separator-free word followed by the separator splits into the word and an empty piece |
| PyStrings.IsDigits | src/nuix/lineedit.py:70 | `str.isdigit()` on ASCII digits: non-empty and all characters '0'..'9' |
| PyStrings.DigitsValue | src/nuix/lineedit.py:72 | `int(text)` of an all-digit text (read back by `DecimalRoundTrip`, `CanonicalRoundTrip`) |
| PyStrings.IntToDecimal | src/nuix/lineedit.py:72 | `str(i)` of an integer: a '-' before the digits of a negative number |
| PyStrings.ParseInt | src/nuix/lineedit.py:72 | `int(text)` of an integer numeral with an optional '-'; `IntRoundTrip` inverts `IntToDecimal` with it |
| PyStrings.NatToDecimal | src/nuix/lineedit.py:72 | `str` of a natural number is all digits, and starts with '0' only for zero |
| PyStrings.DecimalRoundTrip | src/nuix/lineedit.py:72 | reading back the numeral `str` writes gives the same natural number |
| PyStrings.IntRoundTrip | src/nuix/lineedit.py:72 | `int(str(i)) == i` for every integer, negatives included |
| PyStrings.CanonicalRoundTrip | src/nuix/lineedit.py:70-72 | an all-digit text is `str(int(text))` exactly when it has no leading zero (or is "0") |
| LineEdit.Selected | src/nuix/lineedit.py:59 | `selectedText()`: the selected slice of the text |
| LineEdit.WithText | src/nuix/lineedit.py:45 | the line `setText` leaves: the new text, the cursor at its end, nothing selected |
| LineEdit.CompleterRewrite | src/nuix/lineedit.py:56-72 | the line rewrite before QLineEdit sees the key: Backspace removal of the selection, Up/Down nudge (stated by the lemmas below) |
| LineEdit.Nudged | src/nuix/lineedit.py:70-72 | `str(int(text) ± 1)` of an all-digit text (stated by `NudgeValue`) |
| LineEdit.InlineComplete | src/nuix/lineedit.py:107-117 | the inline completion of a line given the completer's first row (stated by `InlineHint`, `InlineOnlyOnMatch`) |
| LineEdit.BackspaceRemovesSelection | src/nuix/lineedit.py:56-62 | Backspace on a non-empty text drops the selection. With nothing selected the text is kept. Otherwise every occurrence of the selected string is removed, so the text gets strictly shorter, by the selection's length per occurrence. |
| LineEdit.SelectAllBackspace | tests/test_line_edits.py:76-79 | select-all then Backspace empties the text before QLineEdit sees the key |
| LineEdit.BackspaceSingleChar | src/nuix/lineedit.py:59 | a selected character is removed from every position in the text |
| LineEdit.NudgeValue | src/nuix/lineedit.py:70-72 | Up/Down on an all-digit text make it the integer numeral of its value plus/minus one, with no selection. Any other text is left unchanged. |
| LineEdit.NudgeUpCanonical | src/nuix/lineedit.py:70-72 | Up yields digits without leading zeros |
| LineEdit.NudgeUpThenDown | src/nuix/lineedit.py:70-72 | Down after Up gives the text's value without leading zeros, which is the text itself when it had none |
| LineEdit.ZeroDown | src/nuix/lineedit.py:70-72 | "0" goes down to "-1", after which Up no longer applies because "-1" is not all digits |
| LineEdit.InlineHint | src/nuix/lineedit.py:110-117 | when the match extends the typed text, the text becomes the match and exactly the added suffix is selected, up to the end |
| LineEdit.InlineOnlyOnMatch | src/nuix/lineedit.py:107-119 | inline completion changes the line only for a non-digit text whose non-empty match starts with it |
| LineEdit.CherryScenario | tests/test_line_edits.py:109-116 | with "erry" selected in "cherry", Backspace first leaves "ch"; "c" completes back to "cherry" with "herry" selected |
| LineEdit.LineEditWithCompleter.constructor | src/nuix/lineedit.py:34-48 | the text is set with the cursor at its end, and the validator pattern is the given one or else the class default; text, items and validator default to empty |
| LineEdit.LineEditWithCompleter.SetText | src/nuix/lineedit.py:59 | `setText`: the text is replaced, the cursor goes to its end, the validator stays |
| LineEdit.LineEditWithCompleter.SetValidator | src/nuix/lineedit.py:48 | `setValidator`: the installed pattern becomes the given one |
| LineEdit.LineEditWithCompleter.ForwardToBase | src/nuix/lineedit.py:74 | `super().keyPressEvent`: the line becomes QLineEdit's handling of the key under the installed pattern |
| LineEdit.LineEditWithCompleter.KeyPress | src/nuix/lineedit.py:50-76 | the new line is QLineEdit's handling of the key applied to the Backspace/nudge rewrite of the old line; the validator is unchanged |
| LineEdit.LineEditWithInlineCompleter.constructor | src/nuix/lineedit.py:85-95 | the wrapped completer line edit is built from the text, items and validator, with the same defaults |
| LineEdit.LineEditWithInlineCompleter.ActivateInlineComplete | src/nuix/lineedit.py:97-119 | returns false exactly for an all-digit text, and the line becomes the inline completion of the old line |
| LineEdit.LineEditWithInlineCompleter.KeyPress | src/nuix/lineedit.py:121-133 | Enter and Return run inline completion first, then the completer line edit handles the key |
| BubbleEdit.NewBubble | src/nuix/bubble_edit.py:26-29 | a bubble is as wide as its measured text plus the padding 20 |
| BubbleEdit.LimitReached | src/nuix/bubble_edit.py:102 | `LIMIT and len(tags) >= LIMIT` |
| BubbleEdit.NamesOf | src/nuix/bubble_edit.py:162 | `tag_names`: the tag texts in order, empty ones skipped (stated by `NamesOfSpec`, `NamesAppend`) |
| BubbleEdit.WidthOf | src/nuix/bubble_edit.py:170 | `tags_width`: the sum of each width plus 2 (stated by `WidthAppend`, `WidthBounds`) |
| BubbleEdit.ChosenPattern | src/nuix/bubble_edit.py:147-150 | the installed pattern always ends with the class pattern, and differs from it exactly when there are tags |
| BubbleEdit.Insert | src/nuix/bubble_edit.py:102-111 | one `insert_tag` call on the state (stated by `InsertOutcome`) |
| BubbleEdit.InsertAll | src/nuix/bubble_edit.py:92-111 | successive `insert_tag` calls with one style, in order (stated by `InsertAllCount`, `InsertAllNames`) |
| BubbleEdit.PopsTag | src/nuix/bubble_edit.py:115 | the pop guard: Backspace, some tags, and an empty text |
| BubbleEdit.Pop | src/nuix/bubble_edit.py:115-118 | the newest bubble leaves the stack, which is otherwise unchanged, and the line stays |
| BubbleEdit.PromoteStep | src/nuix/bubble_edit.py:125-127 | one pass of the fragment loop (stated by `StepGrows`) |
| BubbleEdit.PromoteFragments | src/nuix/bubble_edit.py:124-127 | the fragment loop over a list fixed beforehand (stated by `PromoteBounds`, `PromoteComplete`, `PromoteNoDuplicates`) |
| BubbleEdit.PromoteSeparator | src/nuix/bubble_edit.py:130-135 | a text still holding '_' becomes one more tag (stated by `SeparatorCommit`) |
| BubbleEdit.AfterKeystroke | src/nuix/bubble_edit.py:122-135 | the promotion after the base key handling (stated by the keystroke lemmas below) |
| BubbleEdit.WidthAppend | src/nuix/bubble_edit.py:164-170 | pushing a bubble adds its width plus `TAG_PADDING` to `tags_width` |
| BubbleEdit.WidthBounds | src/nuix/bubble_edit.py:164-170 | `tags_width` is at least 2 per tag, and 0 exactly when there are no tags |
| BubbleEdit.NamesAppend | src/nuix/bubble_edit.py:156-162 | pushing a bubble appends its text to `tag_names`, unless the text is empty |
| BubbleEdit.NamesOfSpec | src/nuix/bubble_edit.py:156-162 | every listed name is non-empty, there are no more names than tags, and a string is listed exactly when it is the non-empty text of some tag |
| BubbleEdit.InsertOutcome | src/nuix/bubble_edit.py:92-111 | Insertion succeeds exactly when the limit is 0 or the count is below a positive limit; a refused insertion changes nothing. A success pushes one bubble for the stripped argument and keeps the earlier ones. The name list grows by the stripped argument, unless it is all whitespace. The width grows by the bubble's width plus padding. The text never grows, and a pop restores the tag stack. |
| BubbleEdit.InsertAllCount | src/nuix/bubble_edit.py:102-103 | after n insertions the count is `count + n` with limit 0, unchanged with a negative limit, capped at a positive limit it started within, and unchanged when it already was at or above a positive limit |
| BubbleEdit.InsertAllNames | src/nuix/bubble_edit.py:92-111 | for arguments that are non-empty and already stripped, successive insertions list them in order after the earlier names; once one insertion is refused, every later one is |
| BubbleEdit.InsertNamesStep | src/nuix/bubble_edit.py:102-111 | one more insertion keeps the `InsertAllNames` relation between the arguments and the listed names |
| BubbleEdit.InsertLimitScenario | tests/test_bubble_edit.py:22-37 | with limit 5, "apple", "banana" and three "extra" are kept in order and "overflow" is refused |
| BubbleEdit.BackspacePopsLast | src/nuix/bubble_edit.py:115-118 | Backspace on an empty text removes exactly the newest bubble, keeps the line, and shrinks `tags_width` by that bubble's width plus padding |
| BubbleEdit.PromoteAtLimit | src/nuix/bubble_edit.py:122-127 | at the limit the fragment loop inserts nothing |
| BubbleEdit.PromoteBounds | src/nuix/bubble_edit.py:124-127 | The fragment loop keeps the earlier bubbles and adds at most one per fragment. Each added bubble is a default-style bubble for a fragment that is a candidate. A positive limit that held still holds, and the text never grows. |
| BubbleEdit.StepGrows | src/nuix/bubble_edit.py:125-127 | one pass of the fragment loop never drops a tag or a name, and a reached limit stays reached |
| BubbleEdit.FreshCandidates | src/nuix/bubble_edit.py:124-127 | the names the loop adds, as a reference list: each fragment that is a candidate and not yet listed, in split order |
| BubbleEdit.PromoteOrder | src/nuix/bubble_edit.py:124-127 | with non-empty, already-stripped candidates, the loop lists after the earlier names exactly a prefix of `FreshCandidates`, one tag per name, and stops short only at the limit |
| BubbleEdit.PromoteOrderStep | src/nuix/bubble_edit.py:125-127 | one more pass of the loop keeps the `PromoteOrder` relation between the fresh candidate fragments and the listed names |
| BubbleEdit.PromoteUnlimited | src/nuix/bubble_edit.py:124-127 | with limit 0 and non-empty, already-stripped candidates, the names after the loop are the earlier names followed by all of `FreshCandidates` |
| BubbleEdit.PromoteComplete | src/nuix/bubble_edit.py:124-127 | with non-empty, already-stripped candidates, every fragment that is a candidate is a tag name after the loop, unless the limit has been reached |
| BubbleEdit.PromoteNoDuplicates | src/nuix/bubble_edit.py:124-127 | with non-empty, already-stripped candidates, the fragment loop keeps the earlier names in front, adds each new name once, and never adds a name already listed |
| BubbleEdit.SeparatorCommit | src/nuix/bubble_edit.py:130-135 | a text holding '_' is committed whole as one named tag (syntax style for "_" alone, plain otherwise), and the text becomes empty |
| BubbleEdit.KeystrokeNoToken | src/nuix/bubble_edit.py:124-135 | a text with no '_' that is not a candidate produces no tag and is kept as it is |
| BubbleEdit.CandidateKeystroke | src/nuix/bubble_edit.py:124-127 | a typed whole candidate that is not yet a tag becomes a default-style tag, and the text is emptied |
| BubbleEdit.SeparatorKeystroke | src/nuix/bubble_edit.py:130-135 | typing "_" alone commits a syntax-style "_" tag |
| BubbleEdit.WordSeparatorKeystroke | src/nuix/bubble_edit.py:124-135 | typing a non-candidate word followed by '_' commits word-plus-separator as one plain-style tag |
| BubbleEdit.PlainSyntaxScenario | tests/test_bubble_edit.py:90-104 | the keystrokes that complete "apple", "_" and "textwithsyntax_" (each step starting from the whole word in the field) give the tags "apple", "_", "textwithsyntax_" in default, syntax and plain style |
| BubbleEdit.LineEditWithBubbles.constructor | src/nuix/bubble_edit.py:77-90 | no tags, margin 0, the given limit (10 by default), and the completer line edit set up with the text, candidates and validator |
| BubbleEdit.LineEditWithBubbles.TagNames | src/nuix/bubble_edit.py:156-162 | every name is non-empty, there are at most as many names as tags, and a string is a name exactly when some tag has it as its non-empty text |
| BubbleEdit.LineEditWithBubbles.TagsWidth | src/nuix/bubble_edit.py:164-170 | the width is 0 exactly when there are no tags, and at least 2 per tag |
| BubbleEdit.LineEditWithBubbles.InsertTag | src/nuix/bubble_edit.py:92-111 | returns whether the limit allowed the insertion; the new tag stack and line are `Insert` of the old ones (see `InsertOutcome`); the margin stays equal to `tags_width` |
| BubbleEdit.LineEditWithBubbles.EditingFinishedTrigger | src/nuix/bubble_edit.py:141-154 | returns true and installs `[_]?` before the class pattern when there are tags, and the class pattern alone otherwise |
| BubbleEdit.LineEditWithBubbles.PromoteLoop | src/nuix/bubble_edit.py:124-127 | the loop over the fragment list taken beforehand ends in `PromoteFragments` of the starting state |
| BubbleEdit.LineEditWithBubbles.KeyPress | src/nuix/bubble_edit.py:113-139 | A Backspace on an empty text with tags pops the newest tag and leaves the validator. Any other key: QLineEdit handles it, then `AfterKeystroke` gives the new state. The validator is recomputed only below the limit. The margin stays equal to `tags_width`. |
| BubbleEdit.BubbleWrap.constructor | src/nuix/bubble_edit.py:177-188 | the wrapped widget is built from the items, limit, text and validator, which default to none, 10, empty and empty |
| BubbleEdit.BubbleWrap.GetTags | src/nuix/bubble_edit.py:190-196 | the widget's tag names, none of them empty |
| BubbleEdit.BubbleWrap.Contains | src/nuix/bubble_edit.py:198-207 | an item is contained exactly when it is the non-empty text of one of the widget's tags |

## Left out

- QLineEdit's own key handling (insertion, deletion, cursor movement) and the regular-expression validator it applies are not modelled; they are the `baseHandler` input.
- The popup completer (`setCompletionPrefix`, `complete`, `completionCount`, showing the popup, lineedit.py:64-69) is left out: it changes no text.
- The completion model is not modelled: its first row is an input. A negative row count cannot occur, so that guard is never taken.
- Font metrics are an input (`measure`). Bubble height, content margins, style sheets, layouts and `deleteLater` are presentation only.
- The deferred `clear` that runs after the completer's `activated` signal (bubble_edit.py:90) is left out: it goes through Qt's event loop.
- `blockSignals` around the Backspace rewrite is not modelled, and neither are signals in general.
- Inline completion triggered by `textEdited` is left out: it runs inside Qt's key handling. Only the explicit call on Enter/Return is modelled.
- `str.isdigit` and `int` are modelled for the ASCII digits only. Python accepts other Unicode decimal digits too: Up on "３" gives "4" in the source, while the model leaves the text unchanged. Characters such as '²' pass `isdigit` yet make `int()` raise; the model does not capture that either.
- QLineEdit's `maxLength` and Qt's widget size limits are not modelled.
- `BubbleWrap`'s generated dataclass equality and ordering, and the throw-away default widget it builds before `__post_init__`, are not modelled.
- `DropDownTagger`, the `__main__` demo, `framing.py` and `LineEditValidator` on its own are not part of this model. Its constructor's effect is part of `LineEditWithCompleter.constructor`.
- Inheritance is modelled as composition: the richer widgets hold a `LineEditWithCompleter`.
- LineEdit.LineEditWithCompleter.KeyPress: does not model the popup being visible when Enter is pressed (lineedit.py:64), because it does not affect the text.
- BubbleEdit.PromoteComplete: stated for candidates that are non-empty and already stripped. With a candidate such as " a", the loop lists the tag "a", so the candidate itself never becomes a name.
- BubbleEdit.PromoteNoDuplicates: stated for candidates that are non-empty and already stripped. With a candidate " a" and the text " a_ a", the loop inserts " a" twice and lists "a" twice.
- BubbleEdit.InsertLimitScenario: proves what tests/test_bubble_edit.py:22-37 intends, for any given style. The test calls `insert_tag` with the text alone, which the signature at bubble_edit.py:92 rejects.
- BubbleEdit.PromoteOrder: stated for candidates that are non-empty and already stripped, for the reason given for PromoteComplete.
- BubbleEdit.PromoteUnlimited: stated for candidates that are non-empty and already stripped, for the reason given for PromoteComplete.
