/**
 * The completion-augmented line edits of lineedit.py.
 *
 * A line edit is its text and its selection. QLineEdit's own key handling
 * (which applies the validator pattern) is an abstract function fixed at
 * construction, and the completer's closest match is an input: the model is
 * what these classes do around those two.
 */
module LineEdit {
  import opened PyStrings

  /** LineEditValidator.VALIDATOR_PATTERN, the default validator pattern. */
  const VALIDATOR_PATTERN: string := "[a-zA-Z]+[a-zA-Z0-9_]+"

  datatype Option<T> = None | Some(value: T)

  /** The keys the handlers tell apart; every other key is `Other`. */
  datatype Key = Backspace | Up | Down | Enter | Return | Other(code: int)

  datatype LineState = LineState(text: string, selStart: nat, selLen: nat)

  /** A text and a selection inside it; an empty selection stands for the cursor. */
  type Line = l: LineState | l.selStart + l.selLen <= |l.text| witness LineState([], 0, 0)

  /** QLineEdit.selectedText. */
  function Selected(l: Line): string
  {
    l.text[l.selStart..l.selStart + l.selLen]
  }

  /** QLineEdit.setText: the selection is dropped and the cursor goes to the end. */
  function WithText(t: string): Line
  {
    LineState(t, |t|, 0)
  }

  /** `str(int(digits) + 1)` for Up, `str(int(digits) - 1)` for Down. */
  function Nudged(digits: string, up: bool): string
    requires IsDigits(digits)
  {
    IntToDecimal(DigitsValue(digits) + if up then 1 else -1)
  }

  /**
   * What LineEditWithCompleter.keyPressEvent does to the line before the key
   * reaches QLineEdit's own handler: Backspace on a non-empty text first drops
   * every occurrence of the selected text; Up and Down on an all-digit text
   * step its value by one.
   */
  function CompleterRewrite(l: Line, key: Key): Line
  {
    if key == Backspace && l.text != [] then WithText(RemoveAll(l.text, Selected(l)))
    else if (key == Up || key == Down) && IsDigits(l.text) then WithText(Nudged(l.text, key == Up))
    else l
  }

  /**
   * LineEditWithInlineCompleter.activate_inline_complete on a line, given the
   * first row of the completion model (None when it has no rows): when the
   * match extends the typed text, the text becomes the match and the added
   * suffix is selected. An all-digit text is left alone.
   */
  function InlineComplete(l: Line, closest: Option<string>): Line
  {
    if IsDigits(l.text) then l
    else
      match closest
      case Some(m) => if m != [] && l.text <= m then LineState(m, |l.text|, |m| - |l.text|) else l
      case None => l
  }

  // ---------------------------------------------------------------------------
  // Backspace
  // ---------------------------------------------------------------------------

  /**
   * Backspace on a non-empty text with nothing selected leaves the text as it
   * is; with a selection, the text loses every occurrence of the selected
   * string, so it gets strictly shorter. Either way the selection is dropped.
   */
  lemma BackspaceRemovesSelection(l: Line)
    requires l.text != []
    ensures var r := CompleterRewrite(l, Backspace);
      && Selected(r) == []
      && (Selected(l) == [] ==> r.text == l.text)
      && (Selected(l) != [] ==>
            |r.text| + |Selected(l)| * Occurrences(l.text, Selected(l)) == |l.text|
            && |r.text| < |l.text|)
  {
    var p := Selected(l);
    if p != [] {
      assert MatchAt(l.text, p, l.selStart);
      RemoveAllShrinks(l.text, p);
      RemoveAllLength(l.text, p);
    }
  }

  /** Select-all then Backspace empties the text before the base handler runs. */
  lemma SelectAllBackspace(l: Line)
    requires l.text != [] && l.selStart == 0 && l.selLen == |l.text|
    ensures CompleterRewrite(l, Backspace).text == []
  {
    assert Selected(l) == l.text;
    RemoveAllSelf(l.text);
  }

  /** A one-character selection is removed everywhere in the text. */
  lemma BackspaceSingleChar(l: Line)
    requires l.text != [] && l.selLen == 1
    ensures l.text[l.selStart] !in CompleterRewrite(l, Backspace).text
  {
    assert Selected(l) == [l.text[l.selStart]];
    RemoveAllCharGone(l.text, l.text[l.selStart]);
  }

  // ---------------------------------------------------------------------------
  // Up / Down nudge
  // ---------------------------------------------------------------------------

  /**
   * Up and Down on an all-digit text replace it with the numeral `str` writes
   * for its value plus or minus one; anything else is left alone.
   */
  lemma NudgeValue(l: Line, key: Key)
    requires key == Up || key == Down
    ensures var r := CompleterRewrite(l, key);
      && (IsDigits(l.text) ==>
            IsIntLiteral(r.text)
            && ParseInt(r.text) == DigitsValue(l.text) + (if key == Up then 1 else -1)
            && Selected(r) == [])
      && (!IsDigits(l.text) ==> r == l)
  {
    if IsDigits(l.text) {
      IntRoundTrip(DigitsValue(l.text) + if key == Up then 1 else -1);
    }
  }

  /** Up always yields digits without leading zeros. */
  lemma NudgeUpCanonical(l: Line)
    requires IsDigits(l.text)
    ensures IsCanonical(CompleterRewrite(l, Up).text)
  {
  }

  /**
   * Down undoes Up: an all-digit text stepped up and then down is its own
   * value written without leading zeros, which is the text itself when it has
   * none.
   */
  lemma NudgeUpThenDown(t: string)
    requires IsDigits(t)
    ensures IsDigits(Nudged(t, true))
    ensures Nudged(Nudged(t, true), false) == NatToDecimal(DigitsValue(t))
    ensures IsCanonical(t) ==> Nudged(Nudged(t, true), false) == t
  {
    DecimalRoundTrip(DigitsValue(t) + 1);
    CanonicalRoundTrip(t);
  }

  /** "0" stepped down is "-1", which is not all digits, so Up no longer applies. */
  lemma ZeroDown()
    ensures Nudged("0", false) == "-1"
    ensures CompleterRewrite(WithText("-1"), Up) == WithText("-1")
  {
    assert DigitsValue("0") == 0 by {
      assert "0"[..0] == [];
    }
    assert NatToDecimal(1) == "1";
  }

  // ---------------------------------------------------------------------------
  // Inline completion
  // ---------------------------------------------------------------------------

  /**
   * When the closest match extends the typed text, the new text is that
   * match: the typed text is its prefix and the selection is exactly the rest
   * of it, running to the end of the text.
   */
  lemma InlineHint(l: Line, m: string)
    requires !IsDigits(l.text) && m != [] && l.text <= m
    ensures var r := InlineComplete(l, Some(m));
      && r.text == m
      && r.selStart == |l.text|
      && r.text == l.text + Selected(r)
      && r.selStart + r.selLen == |r.text|
  {
    var r := InlineComplete(l, Some(m));
    assert Selected(r) == m[|l.text|..];
    assert m == m[..|l.text|] + m[|l.text|..];
  }

  /** Inline completion changes the line only for a match that extends the typed text. */
  lemma InlineOnlyOnMatch(l: Line, closest: Option<string>)
    ensures InlineComplete(l, closest) != l ==>
      !IsDigits(l.text) && closest.Some? && closest.value != [] && l.text <= closest.value
  {
  }

  /**
   * The session in which "ch" was completed to "cherry" and the last
   * character was then deleted: Backspace first drops the selected hint
   * "erry", and once QLineEdit has deleted one more character, Return
   * completes "c" back to "cherry" with "herry" selected.
   */
  lemma CherryScenario()
    ensures CompleterRewrite(LineState("cherry", 2, 4), Backspace) == WithText("ch")
    ensures InlineComplete(WithText("c"), Some("cherry")) == LineState("cherry", 1, 5)
  {
    var l: Line := LineState("cherry", 2, 4);
    assert Selected(l) == "erry";
    assert "cherry"[..4][0] != "erry"[0];
    assert "cherry"[1..][..4][0] != "erry"[0];
    assert "cherry"[2..][..4] == "erry";
    assert RemoveAll("cherry"[2..][4..], "erry") == [];
    assert RemoveAll("cherry", "erry") == "ch";
    assert !IsDigits("c");
  }

  // ---------------------------------------------------------------------------
  // The widgets
  // ---------------------------------------------------------------------------

  /** LineEditWithCompleter: a validated line edit with a candidate list. */
  class LineEditWithCompleter {
    var text: string
    var selStart: nat
    var selLen: nat
    /** The pattern of the QRegExpValidator currently installed. */
    var validator: string
    /** complete_items: the completer's candidate list. */
    const items: seq<string>
    /** QLineEdit.keyPressEvent: the line after a key, under a validator pattern. */
    const baseHandler: (Line, string, Key) -> Line

    ghost predicate Valid()
      reads this
    {
      selStart + selLen <= |text|
    }

    function Current(): Line
      reads this
      requires Valid()
    {
      LineState(text, selStart, selLen)
    }

    /**
     * The defaults are those of the widget: empty text, no candidates, no
     * pattern. An empty `validator0` stands for no pattern given, in which
     * case the default pattern is installed.
     */
    constructor (baseHandler0: (Line, string, Key) -> Line,
                 text0: string := "", items0: seq<string> := [], validator0: string := "")
      ensures Valid() && Current() == WithText(text0)
      ensures items == items0 && baseHandler == baseHandler0
      ensures validator == if validator0 == [] then VALIDATOR_PATTERN else validator0
    {
      text, selStart, selLen := text0, |text0|, 0;
      items := items0;
      baseHandler := baseHandler0;
      validator := if validator0 == [] then VALIDATOR_PATTERN else validator0;
    }

    method SetText(t: string)
      modifies this
      ensures Valid() && Current() == WithText(t)
      ensures validator == old(validator)
    {
      text, selStart, selLen := t, |t|, 0;
    }

    method SetValidator(pattern: string)
      modifies this`validator
      ensures validator == pattern
    {
      validator := pattern;
    }

    /** super().keyPressEvent: hand the key to QLineEdit. */
    method ForwardToBase(key: Key)
      requires Valid()
      modifies this
      ensures Valid() && validator == old(validator)
      ensures Current() == baseHandler(old(Current()), validator, key)
    {
      var l := baseHandler(Current(), validator, key);
      text, selStart, selLen := l.text, l.selStart, l.selLen;
    }

    /** keyPressEvent. The popup completer's visibility is not modelled. */
    method KeyPress(key: Key)
      requires Valid()
      modifies this
      ensures Valid() && validator == old(validator)
      ensures Current() == baseHandler(CompleterRewrite(old(Current()), key), validator, key)
    {
      if key == Backspace && text != [] {
        SetText(RemoveAll(text, text[selStart..selStart + selLen]));
        ForwardToBase(key);
        return;
      }
      if (key == Up || key == Down) && IsDigits(text) {
        SetText(Nudged(text, key == Up));
      }
      ForwardToBase(key);
    }
  }

  /** LineEditWithInlineCompleter: a completer line edit that fills in the closest match. */
  class LineEditWithInlineCompleter {
    const edit: LineEditWithCompleter

    constructor (baseHandler0: (Line, string, Key) -> Line,
                 text0: string := "", items0: seq<string> := [], validator0: string := "")
      ensures fresh(edit) && edit.Valid() && edit.Current() == WithText(text0)
      ensures edit.items == items0 && edit.baseHandler == baseHandler0
      ensures edit.validator == if validator0 == [] then VALIDATOR_PATTERN else validator0
    {
      edit := new LineEditWithCompleter(baseHandler0, text0, items0, validator0);
    }

    /**
     * activate_inline_complete, given the completion model's first row.
     * It declines (false, nothing changed) only on an all-digit text, since a
     * row count is never negative.
     */
    method ActivateInlineComplete(closest: Option<string>) returns (ok: bool)
      requires edit.Valid()
      modifies edit
      ensures edit.Valid() && edit.validator == old(edit.validator)
      ensures ok == !IsDigits(old(edit.text))
      ensures edit.Current() == InlineComplete(old(edit.Current()), closest)
    {
      if IsDigits(edit.text) {
        return false;
      }
      var typed := edit.text;
      if closest.Some? && closest.value != [] && typed <= closest.value {
        var hint := closest.value[|typed|..];
        assert typed + hint == closest.value;
        edit.SetText(typed + hint);
        edit.selStart, edit.selLen := |typed|, |hint|;
      }
      return true;
    }

    /** keyPressEvent: Enter and Return first complete inline, then the key goes on. */
    method KeyPress(key: Key, closest: Option<string>)
      requires edit.Valid()
      modifies edit
      ensures edit.Valid() && edit.validator == old(edit.validator)
      ensures var before := if key == Enter || key == Return
                            then InlineComplete(old(edit.Current()), closest)
                            else old(edit.Current());
        edit.Current() == edit.baseHandler(CompleterRewrite(before, key), edit.validator, key)
    {
      if key == Enter || key == Return {
        var _ := ActivateInlineComplete(closest);
      }
      edit.KeyPress(key);
    }
  }
}
