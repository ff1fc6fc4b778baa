/**
 * The bubble tagger of bubble_edit.py: a completer line edit whose committed
 * tokens become tag bubbles, kept as an ordered stack beside the pending text.
 *
 * The first half states the tag state as values (a `Tagger` is the tag stack
 * plus the line) with one function per step of the widget; the classes at the
 * end are the widgets, whose methods are proved to take exactly those steps.
 */
module BubbleEdit {
  import opened PyStrings
  import opened LineEdit

  /**
   * LineEditWithBubbles.SEPARATOR is the regular expression "[_]", a character
   * class: splitting and matching on it work on the single character '_'.
   */
  const SEPARATOR: char := '_'
  /** The text of that expression, as it is spliced into the validator pattern. */
  const SEPARATOR_PATTERN: string := "[_]"
  /** LineEditWithBubbles.TAG_PADDING: the spacing counted after each bubble. */
  const TAG_PADDING: nat := 2
  /** The horizontal padding a bubble adds to its measured text. */
  const BUBBLE_PADDING: nat := 20

  /** The three Bubbles constructors: Bubbles, Bubbles.syntax_label, Bubbles.plain_label. */
  datatype Style = Default | Syntax | Plain

  /** A tag bubble: its text, its style and its fixed width. */
  datatype Bubble = Bubble(text: string, style: Style, width: nat)

  /** Bubbles(text): as wide as the measured text plus the padding. */
  function NewBubble(text: string, style: Style, measure: string -> nat): Bubble
  {
    Bubble(text, style, measure(text) + BUBBLE_PADDING)
  }

  ghost predicate Measured(tags: seq<Bubble>, measure: string -> nat)
  {
    forall k :: 0 <= k < |tags| ==> tags[k].width == measure(tags[k].text) + BUBBLE_PADDING
  }

  /** `LIMIT and len(tags) >= LIMIT`: 0 never blocks, a negative limit always does. */
  predicate LimitReached(limit: int, count: nat)
  {
    limit != 0 && count >= limit
  }

  /** tag_names: the tag texts in order, empty ones skipped. */
  function NamesOf(tags: seq<Bubble>): seq<string>
  {
    if tags == [] then []
    else (if tags[0].text == [] then [] else [tags[0].text]) + NamesOf(tags[1..])
  }

  /** tags_width: the sum over the tags of their width plus TAG_PADDING. */
  function WidthOf(tags: seq<Bubble>): nat
  {
    if tags == [] then 0 else tags[0].width + TAG_PADDING + WidthOf(tags[1..])
  }

  /**
   * The pattern editing_finished_trigger installs: the class pattern, behind
   * an optional separator once there is a tag.
   */
  function ChosenPattern(tags: seq<Bubble>): (p: string)
    ensures |VALIDATOR_PATTERN| <= |p| && p[|p| - |VALIDATOR_PATTERN|..] == VALIDATOR_PATTERN
    ensures tags != [] <==> p != VALIDATOR_PATTERN
  {
    if tags != [] then SEPARATOR_PATTERN + "?" + VALIDATOR_PATTERN else VALIDATOR_PATTERN
  }

  predicate Distinct(xs: seq<string>)
  {
    forall i, j :: 0 <= i < j < |xs| ==> xs[i] != xs[j]
  }

  // ---------------------------------------------------------------------------
  // The tag state and its steps
  // ---------------------------------------------------------------------------

  /** What LineEditWithBubbles holds: the tag stack and the line edit's line. */
  datatype Tagger = Tagger(tags: seq<Bubble>, line: Line)

  /** What the steps read: LIMIT, complete_items and the font's text measure. */
  datatype Config = Config(limit: int, items: seq<string>, measure: string -> nat)

  /**
   * insert_tag(arg, style): unless the limit is reached, push a bubble for the
   * stripped argument, then drop every occurrence of the argument from the
   * text and strip what is left.
   */
  function Insert(s: Tagger, cfg: Config, arg: string, style: Style): Tagger
  {
    if LimitReached(cfg.limit, |s.tags|) then s
    else Tagger(s.tags + [NewBubble(Strip(arg), style, cfg.measure)],
                WithText(Strip(RemoveAll(s.line.text, arg))))
  }

  /** A sequence of insert_tag calls with the same style, in order. */
  function InsertAll(s: Tagger, cfg: Config, args: seq<string>, style: Style): Tagger
  {
    if args == [] then s
    else Insert(InsertAll(s, cfg, args[..|args| - 1], style), cfg, args[|args| - 1], style)
  }

  /** Backspace on an empty text pops the newest bubble. */
  predicate PopsTag(key: Key, s: Tagger)
  {
    key == Backspace && s.tags != [] && s.line.text == []
  }

  /** The newest bubble leaves the stack; the line stays. */
  function Pop(s: Tagger): (r: Tagger)
    requires s.tags != []
    ensures r.tags + [s.tags[|s.tags| - 1]] == s.tags && r.line == s.line
  {
    Tagger(s.tags[..|s.tags| - 1], s.line)
  }

  /** One pass of the fragment loop: a candidate not yet a tag name is inserted. */
  function PromoteStep(s: Tagger, cfg: Config, frag: string): Tagger
  {
    if frag in cfg.items && frag !in NamesOf(s.tags) then Insert(s, cfg, frag, Default) else s
  }

  /**
   * The fragment loop over a list fixed beforehand, while each insertion
   * rewrites the text.
   */
  function PromoteFragments(s: Tagger, cfg: Config, frags: seq<string>): Tagger
  {
    if frags == [] then s
    else PromoteStep(PromoteFragments(s, cfg, frags[..|frags| - 1]), cfg, frags[|frags| - 1])
  }

  /**
   * A text still holding the separator becomes one more tag: syntax style
   * when it is the separator alone, plain style otherwise.
   */
  function PromoteSeparator(s: Tagger, cfg: Config): Tagger
  {
    if s.line.text != [] && SEPARATOR in s.line.text
    then Insert(s, cfg, s.line.text, if s.line.text == [SEPARATOR] then Syntax else Plain)
    else s
  }

  /**
   * The tag promotion that follows the base key handling: nothing at the
   * limit, else the fragment loop over the text's '_'-pieces and then the
   * separator rule.
   */
  function AfterKeystroke(s: Tagger, cfg: Config): Tagger
  {
    if LimitReached(cfg.limit, |s.tags|) then s
    else PromoteSeparator(PromoteFragments(s, cfg, SplitOn(s.line.text, SEPARATOR)), cfg)
  }

  // ---------------------------------------------------------------------------
  // tags_width and tag_names
  // ---------------------------------------------------------------------------

  /** Pushing a bubble adds its width plus the spacing to the total. */
  lemma {:induction false} WidthAppend(tags: seq<Bubble>, b: Bubble)
    ensures WidthOf(tags + [b]) == WidthOf(tags) + b.width + TAG_PADDING
  {
    if tags == [] {
      assert [b][1..] == [];
    } else {
      assert (tags + [b])[1..] == tags[1..] + [b];
      WidthAppend(tags[1..], b);
    }
  }

  /** The total is 0 exactly for no tags, and each tag adds at least the spacing. */
  lemma {:induction false} WidthBounds(tags: seq<Bubble>)
    ensures WidthOf(tags) >= TAG_PADDING * |tags|
    ensures WidthOf(tags) == 0 <==> tags == []
  {
    if tags != [] {
      WidthBounds(tags[1..]);
    }
  }

  /** Pushing a bubble lists its text after the others, unless the text is empty. */
  lemma {:induction false} NamesAppend(tags: seq<Bubble>, b: Bubble)
    ensures NamesOf(tags + [b]) == NamesOf(tags) + (if b.text == [] then [] else [b.text])
  {
    if tags == [] {
      assert [b][1..] == [];
    } else {
      assert (tags + [b])[1..] == tags[1..] + [b];
      NamesAppend(tags[1..], b);
    }
  }

  /** A name is listed exactly when it is the non-empty text of some tag. */
  lemma {:induction false} NamesOfSpec(tags: seq<Bubble>)
    ensures |NamesOf(tags)| <= |tags|
    ensures forall k :: 0 <= k < |NamesOf(tags)| ==> NamesOf(tags)[k] != []
    ensures forall x :: x in NamesOf(tags) <==> x != [] && exists k :: 0 <= k < |tags| && tags[k].text == x
  {
    if tags != [] {
      NamesOfSpec(tags[1..]);
      forall x
        ensures x in NamesOf(tags) <==> x != [] && exists k :: 0 <= k < |tags| && tags[k].text == x
      {
        if x != [] && exists k :: 0 <= k < |tags| && tags[k].text == x {
          var k :| 0 <= k < |tags| && tags[k].text == x;
          if k > 0 {
            assert tags[1..][k - 1].text == x;
          }
        }
      }
    }
  }

  // ---------------------------------------------------------------------------
  // insert_tag and Backspace
  // ---------------------------------------------------------------------------

  /**
   * insert_tag succeeds exactly when the limit is 0, or the tag count is below
   * a positive limit. A refused insertion changes nothing. A successful one
   * pushes exactly one bubble with the stripped argument, keeps the earlier
   * bubbles, lists the stripped argument unless it is empty (so an all-space
   * argument takes a slot without a name), widens the total by the new
   * bubble, never lengthens the text, and is undone by a pop.
   */
  lemma InsertOutcome(s: Tagger, cfg: Config, arg: string, style: Style)
    ensures var r := Insert(s, cfg, arg, style);
      && (|r.tags| == |s.tags| + 1 <==> cfg.limit == 0 || |s.tags| < cfg.limit)
      && (|r.tags| != |s.tags| + 1 ==> r == s)
      && (|r.tags| == |s.tags| + 1 ==>
            && r.tags[..|s.tags|] == s.tags
            && r.tags[|s.tags|] == NewBubble(Strip(arg), style, cfg.measure)
            && r.line.text == Strip(RemoveAll(s.line.text, arg))
            && NamesOf(r.tags) == NamesOf(s.tags) + (if Strip(arg) == [] then [] else [Strip(arg)])
            && ((forall k :: 0 <= k < |arg| ==> IsSpace(arg[k])) ==> NamesOf(r.tags) == NamesOf(s.tags))
            && WidthOf(r.tags) == WidthOf(s.tags) + cfg.measure(Strip(arg)) + BUBBLE_PADDING + TAG_PADDING
            && Pop(r).tags == s.tags)
      && |r.line.text| <= |s.line.text|
  {
    var r := Insert(s, cfg, arg, style);
    if !LimitReached(cfg.limit, |s.tags|) {
      var b := NewBubble(Strip(arg), style, cfg.measure);
      NamesAppend(s.tags, b);
      WidthAppend(s.tags, b);
      StripEmptyIff(arg);
      assert r.tags[..|s.tags|] == s.tags;
      StripShortens(RemoveAll(s.line.text, arg));
      RemoveAllShortens(s.line.text, arg);
    }
  }

  lemma StripShortens(t: string)
    ensures |Strip(t)| <= |t|
  {
    var i, j := StripIsTrim(t);
  }

  lemma RemoveAllShortens(t: string, p: string)
    ensures |RemoveAll(t, p)| <= |t|
  {
    if p != [] {
      RemoveAllLength(t, p);
    }
  }

  /**
   * Successive insertions: with limit 0 every one succeeds, with a negative
   * limit none does, and with a positive limit they succeed until the count
   * reaches the limit; a count already at or above a positive limit (the
   * limit lowered after insertions) stays as it is.
   */
  lemma {:induction false} InsertAllCount(s: Tagger, cfg: Config, args: seq<string>, style: Style)
    ensures var n := |InsertAll(s, cfg, args, style).tags|;
      && (cfg.limit == 0 ==> n == |s.tags| + |args|)
      && (cfg.limit < 0 ==> n == |s.tags|)
      && (0 < cfg.limit && |s.tags| <= cfg.limit ==>
            n == if |s.tags| + |args| <= cfg.limit then |s.tags| + |args| else cfg.limit)
      && (0 < cfg.limit <= |s.tags| ==> n == |s.tags|)
  {
    if args != [] {
      InsertAllCount(s, cfg, args[..|args| - 1], style);
    }
  }

  /**
   * The inductive step of InsertAllNames: one more insertion of a non-empty
   * stripped text after insertions that kept the names in order.
   */
  lemma InsertNamesStep(s: Tagger, prev: Tagger, r: Tagger, cfg: Config,
                         init: seq<string>, a: string, args: seq<string>, style: Style)
    requires a != [] && Strip(a) == a
    requires |s.tags| <= |prev.tags| <= |s.tags| + |init|
    requires NamesOf(prev.tags) == NamesOf(s.tags) + init[..|prev.tags| - |s.tags|]
    requires |prev.tags| < |s.tags| + |init| ==> LimitReached(cfg.limit, |prev.tags|)
    requires r == Insert(prev, cfg, a, style) && args == init + [a]
    ensures && |s.tags| <= |r.tags| <= |s.tags| + |args|
      && NamesOf(r.tags) == NamesOf(s.tags) + args[..|r.tags| - |s.tags|]
      && (|r.tags| < |s.tags| + |args| ==> LimitReached(cfg.limit, |r.tags|))
  {
    var m := |prev.tags| - |s.tags|;
    if LimitReached(cfg.limit, |prev.tags|) {
      assert init[..m] == args[..m];
    } else {
      NamesAppend(prev.tags, NewBubble(a, style, cfg.measure));
      assert m == |init|;
      assert args[..m + 1] == init + [a];
    }
  }

  /**
   * The names after successive insertions of non-empty stripped texts are the
   * earlier names followed by the arguments that were inserted, in order; the
   * insertions that succeed come first, and once one fails, every later one
   * fails.
   */
  lemma {:induction false} InsertAllNames(s: Tagger, cfg: Config, args: seq<string>, style: Style)
    requires forall k :: 0 <= k < |args| ==> args[k] != [] && Strip(args[k]) == args[k]
    ensures var r := InsertAll(s, cfg, args, style);
      && |s.tags| <= |r.tags| <= |s.tags| + |args|
      && NamesOf(r.tags) == NamesOf(s.tags) + args[..|r.tags| - |s.tags|]
      && (|r.tags| < |s.tags| + |args| ==> LimitReached(cfg.limit, |r.tags|))
  {
    if args != [] {
      var init := args[..|args| - 1];
      var a := args[|args| - 1];
      assert args == init + [a];
      InsertAllNames(s, cfg, init, style);
      var prev := InsertAll(s, cfg, init, style);
      var r := InsertAll(s, cfg, args, style);
      assert r == Insert(prev, cfg, a, style);
      InsertNamesStep(s, prev, r, cfg, init, a, args, style);
    }
  }

  /**
   * With limit 5, inserting "apple", "banana", "extra" three times and then
   * "overflow" keeps five tags in that order and refuses the last one.
   */
  lemma InsertLimitScenario(line: Line, cfg: Config, style: Style)
    requires cfg.limit == 5
    ensures var args := ["apple", "banana", "extra", "extra", "extra", "overflow"];
      var r := InsertAll(Tagger([], line), cfg, args, style);
      && |r.tags| == 5
      && NamesOf(r.tags) == ["apple", "banana", "extra", "extra", "extra"]
      && Insert(r, cfg, "overflow", style) == r
  {
    var args := ["apple", "banana", "extra", "extra", "extra", "overflow"];
    StripTrimmed("apple");
    StripTrimmed("banana");
    StripTrimmed("extra");
    StripTrimmed("overflow");
    InsertAllCount(Tagger([], line), cfg, args, style);
    InsertAllNames(Tagger([], line), cfg, args, style);
    assert args[..5] == ["apple", "banana", "extra", "extra", "extra"];
  }

  /**
   * Backspace on an empty text removes exactly the newest bubble, keeps the
   * line, and shrinks the total width by that bubble's width plus the spacing.
   */
  lemma BackspacePopsLast(s: Tagger)
    requires s.tags != []
    ensures var r := Pop(s);
      var last := s.tags[|s.tags| - 1];
      && r.tags + [last] == s.tags
      && r.line == s.line
      && WidthOf(r.tags) + last.width + TAG_PADDING == WidthOf(s.tags)
      && WidthOf(r.tags) < WidthOf(s.tags)
  {
    var last := s.tags[|s.tags| - 1];
    assert Pop(s).tags + [last] == s.tags;
    WidthAppend(Pop(s).tags, last);
  }

  // ---------------------------------------------------------------------------
  // The promotion after a keystroke
  // ---------------------------------------------------------------------------

  /** At the limit the fragment loop inserts nothing. */
  lemma {:induction false} PromoteAtLimit(s: Tagger, cfg: Config, frags: seq<string>)
    requires LimitReached(cfg.limit, |s.tags|)
    ensures PromoteFragments(s, cfg, frags) == s
  {
    if frags != [] {
      PromoteAtLimit(s, cfg, frags[..|frags| - 1]);
    }
  }

  /**
   * The fragment loop only pushes: the earlier bubbles stay, at most one
   * bubble comes per fragment, each new one is a default-style bubble for a
   * fragment that is a candidate, a positive limit that held still holds,
   * and the text never grows.
   */
  lemma {:induction false} PromoteBounds(s: Tagger, cfg: Config, frags: seq<string>)
    ensures var r := PromoteFragments(s, cfg, frags);
      && |s.tags| <= |r.tags| <= |s.tags| + |frags|
      && r.tags[..|s.tags|] == s.tags
      && (forall k :: |s.tags| <= k < |r.tags| ==>
            r.tags[k].style == Default && exists f :: f in frags && f in cfg.items && r.tags[k].text == Strip(f))
      && (cfg.limit > 0 && |s.tags| <= cfg.limit ==> |r.tags| <= cfg.limit)
      && |r.line.text| <= |s.line.text|
  {
    if frags != [] {
      var prev := PromoteFragments(s, cfg, frags[..|frags| - 1]);
      var f := frags[|frags| - 1];
      PromoteBounds(s, cfg, frags[..|frags| - 1]);
      InsertOutcome(prev, cfg, f, Default);
      var r := PromoteFragments(s, cfg, frags);
      if r != prev {
        assert r.tags[..|prev.tags|] == prev.tags;
        assert r.tags[..|s.tags|] == prev.tags[..|s.tags|];
        forall k | |s.tags| <= k < |r.tags|
          ensures r.tags[k].style == Default && exists g :: g in frags && g in cfg.items && r.tags[k].text == Strip(g)
        {
          if k < |prev.tags| {
            assert r.tags[k] == prev.tags[k];
            var g :| g in frags[..|frags| - 1] && g in cfg.items && prev.tags[k].text == Strip(g);
            assert g in frags;
          } else {
            assert r.tags[k].text == Strip(f);
          }
        }
      }
    }
  }

  /**
   * One pass of the fragment loop only adds: the count does not drop, every
   * listed name stays listed, and a reached limit stays reached.
   */
  lemma StepGrows(s: Tagger, cfg: Config, f: string)
    ensures var r := PromoteStep(s, cfg, f);
      && |s.tags| <= |r.tags|
      && (forall x :: x in NamesOf(s.tags) ==> x in NamesOf(r.tags))
      && (LimitReached(cfg.limit, |s.tags|) ==> LimitReached(cfg.limit, |r.tags|))
  {
    if f in cfg.items && f !in NamesOf(s.tags) && !LimitReached(cfg.limit, |s.tags|) {
      NamesAppend(s.tags, NewBubble(Strip(f), Default, cfg.measure));
    }
  }

  /**
   * With candidates that are non-empty and already stripped, the fragment
   * loop misses no candidate: after it, every fragment that is a candidate is
   * listed as a tag name, unless the limit has been reached.
   */
  lemma {:induction false} PromoteComplete(s: Tagger, cfg: Config, frags: seq<string>)
    requires forall c :: c in cfg.items ==> c != [] && Strip(c) == c
    ensures var r := PromoteFragments(s, cfg, frags);
      forall f :: f in frags && f in cfg.items ==> f in NamesOf(r.tags) || LimitReached(cfg.limit, |r.tags|)
  {
    if frags != [] {
      var init := frags[..|frags| - 1];
      var g := frags[|frags| - 1];
      var prev := PromoteFragments(s, cfg, init);
      var r := PromoteFragments(s, cfg, frags);
      PromoteComplete(s, cfg, init);
      StepGrows(prev, cfg, g);
      assert r == PromoteStep(prev, cfg, g);
      assert frags == init + [g];
      forall f | f in frags && f in cfg.items
        ensures f in NamesOf(r.tags) || LimitReached(cfg.limit, |r.tags|)
      {
        if f != g {
          assert f in init;
        } else if f !in NamesOf(prev.tags) && !LimitReached(cfg.limit, |prev.tags|) {
          NamesAppend(prev.tags, NewBubble(Strip(f), Default, cfg.measure));
        }
      }
    }
  }

  /**
   * With candidates that are non-empty and already stripped, the fragment
   * loop lists each name it adds once, and never one that was listed before:
   * a repeated fragment yields no second tag. The earlier names stay in front.
   */
  lemma {:induction false} PromoteNoDuplicates(s: Tagger, cfg: Config, frags: seq<string>)
    requires forall c :: c in cfg.items ==> c != [] && Strip(c) == c
    ensures var o := NamesOf(s.tags);
      var nw := NamesOf(PromoteFragments(s, cfg, frags).tags);
      && |o| <= |nw| && nw[..|o|] == o
      && Distinct(nw[|o|..])
      && forall x :: x in nw[|o|..] ==> x !in o
  {
    if frags != [] {
      var init := frags[..|frags| - 1];
      var f := frags[|frags| - 1];
      var prev := PromoteFragments(s, cfg, init);
      PromoteNoDuplicates(s, cfg, init);
      var o := NamesOf(s.tags);
      var p := NamesOf(prev.tags);
      if f in cfg.items && f !in p && !LimitReached(cfg.limit, |prev.tags|) {
        NamesAppend(prev.tags, NewBubble(Strip(f), Default, cfg.measure));
        var d := p[|o|..];
        var nw := p + [f];
        assert nw[..|o|] == o;
        assert nw[|o|..] == d + [f];
        assert f !in o && f !in d;
        forall i, j | 0 <= i < j < |d| + 1 ensures (d + [f])[i] != (d + [f])[j] {
          if j == |d| {
            assert (d + [f])[i] == d[i];
          }
        }
      }
    }
  }

  /**
   * The names the fragment loop is meant to add, in split order: each
   * fragment that is a candidate, not listed in `o` and not kept already.
   */
  function FreshCandidates(frags: seq<string>, items: seq<string>, o: seq<string>): seq<string>
  {
    if frags == [] then []
    else
      var kept := FreshCandidates(frags[..|frags| - 1], items, o);
      var f := frags[|frags| - 1];
      if f in items && f !in o && f !in kept then kept + [f] else kept
  }

  /**
   * With candidates that are non-empty and already stripped, the fragment
   * loop lists after the earlier names exactly a prefix of the fresh
   * candidate fragments, in split order, one tag per name; it stops short
   * only when the limit is reached.
   */
  lemma {:induction false} PromoteOrder(s: Tagger, cfg: Config, frags: seq<string>)
    requires forall c :: c in cfg.items ==> c != [] && Strip(c) == c
    ensures var o := NamesOf(s.tags);
      var fc := FreshCandidates(frags, cfg.items, o);
      var r := PromoteFragments(s, cfg, frags);
      && |s.tags| <= |r.tags| <= |s.tags| + |fc|
      && NamesOf(r.tags) == o + fc[..|r.tags| - |s.tags|]
      && (|r.tags| < |s.tags| + |fc| ==> LimitReached(cfg.limit, |r.tags|))
  {
    if frags != [] {
      var init := frags[..|frags| - 1];
      var f := frags[|frags| - 1];
      var o := NamesOf(s.tags);
      var prev := PromoteFragments(s, cfg, init);
      var fc0 := FreshCandidates(init, cfg.items, o);
      var fc := FreshCandidates(frags, cfg.items, o);
      PromoteOrder(s, cfg, init);
      assert PromoteFragments(s, cfg, frags) == PromoteStep(prev, cfg, f);
      assert fc == if f in cfg.items && f !in o && f !in fc0 then fc0 + [f] else fc0;
      PromoteOrderStep(s, cfg, prev, f, fc0, fc);
    }
  }

  /** The inductive step of PromoteOrder: one more pass of the fragment loop. */
  lemma PromoteOrderStep(s: Tagger, cfg: Config, prev: Tagger, f: string, fc0: seq<string>, fc: seq<string>)
    requires forall c :: c in cfg.items ==> c != [] && Strip(c) == c
    requires |s.tags| <= |prev.tags| <= |s.tags| + |fc0|
    requires NamesOf(prev.tags) == NamesOf(s.tags) + fc0[..|prev.tags| - |s.tags|]
    requires |prev.tags| < |s.tags| + |fc0| ==> LimitReached(cfg.limit, |prev.tags|)
    requires fc == if f in cfg.items && f !in NamesOf(s.tags) && f !in fc0 then fc0 + [f] else fc0
    ensures var r := PromoteStep(prev, cfg, f);
      && |s.tags| <= |r.tags| <= |s.tags| + |fc|
      && NamesOf(r.tags) == NamesOf(s.tags) + fc[..|r.tags| - |s.tags|]
      && (|r.tags| < |s.tags| + |fc| ==> LimitReached(cfg.limit, |r.tags|))
  {
    var o := NamesOf(s.tags);
    var r := PromoteStep(prev, cfg, f);
    var m := |prev.tags| - |s.tags|;
    if LimitReached(cfg.limit, |prev.tags|) {
      assert r == prev;
      assert fc[..m] == fc0[..m];
    } else {
      assert m == |fc0| && fc0[..m] == fc0;
      if f in cfg.items && f !in o + fc0 {
        NamesAppend(prev.tags, NewBubble(f, Default, cfg.measure));
        assert fc[..m + 1] == fc0 + [f];
      } else {
        assert r == prev && fc == fc0;
      }
    }
  }

  /** With no limit the loop lists every fresh candidate fragment, in split order. */
  lemma PromoteUnlimited(s: Tagger, cfg: Config, frags: seq<string>)
    requires cfg.limit == 0
    requires forall c :: c in cfg.items ==> c != [] && Strip(c) == c
    ensures NamesOf(PromoteFragments(s, cfg, frags).tags) ==
      NamesOf(s.tags) + FreshCandidates(frags, cfg.items, NamesOf(s.tags))
  {
    PromoteOrder(s, cfg, frags);
    var fc := FreshCandidates(frags, cfg.items, NamesOf(s.tags));
    assert fc[..|fc|] == fc;
  }

  /**
   * The separator rule commits the whole text as one named tag, syntax style
   * for the bare separator and plain style otherwise, and empties the text.
   */
  lemma SeparatorCommit(s: Tagger, cfg: Config)
    requires !LimitReached(cfg.limit, |s.tags|) && SEPARATOR in s.line.text
    ensures var t := s.line.text;
      var r := PromoteSeparator(s, cfg);
      && r.tags == s.tags + [NewBubble(Strip(t), if t == [SEPARATOR] then Syntax else Plain, cfg.measure)]
      && NamesOf(r.tags) == NamesOf(s.tags) + [Strip(t)]
      && r.line.text == []
  {
    var t := s.line.text;
    RemoveAllSelf(t);
    StripEmptyIff(t);
    assert !IsSpace(SEPARATOR);
    NamesAppend(s.tags, NewBubble(Strip(t), if t == [SEPARATOR] then Syntax else Plain, cfg.measure));
  }

  /** A keystroke leaving a separator-free text that is not a candidate creates no tag. */
  lemma KeystrokeNoToken(s: Tagger, cfg: Config)
    requires SEPARATOR !in s.line.text && s.line.text !in cfg.items
    ensures AfterKeystroke(s, cfg) == s
  {
    var t := s.line.text;
    SplitSingleton(t, SEPARATOR);
    assert [t][..0] == [];
    assert PromoteFragments(s, cfg, [t]) == PromoteStep(s, cfg, t) == s;
    assert PromoteSeparator(s, cfg) == s;
  }

  /**
   * Typing a whole candidate that is free of separators, already stripped
   * and not yet a tag makes it a default-style tag and empties the text.
   */
  lemma CandidateKeystroke(s: Tagger, cfg: Config)
    requires !LimitReached(cfg.limit, |s.tags|)
    requires s.line.text in cfg.items && s.line.text !in NamesOf(s.tags)
    requires SEPARATOR !in s.line.text && Strip(s.line.text) == s.line.text
    ensures AfterKeystroke(s, cfg) ==
      Tagger(s.tags + [NewBubble(s.line.text, Default, cfg.measure)], WithText([]))
  {
    var t := s.line.text;
    SplitSingleton(t, SEPARATOR);
    assert [t][..0] == [];
    if t != [] {
      RemoveAllSelf(t);
    }
    assert PromoteFragments(s, cfg, [t]) == Insert(s, cfg, t, Default);
  }

  /**
   * Typing the bare separator, when no candidate is empty, commits a
   * syntax-style "_" tag and empties the text.
   */
  lemma SeparatorKeystroke(s: Tagger, cfg: Config)
    requires !LimitReached(cfg.limit, |s.tags|) && [] !in cfg.items
    requires s.line.text == [SEPARATOR]
    ensures AfterKeystroke(s, cfg) ==
      Tagger(s.tags + [NewBubble([SEPARATOR], Syntax, cfg.measure)], WithText([]))
  {
    var empty: string := [];
    assert SplitOn([SEPARATOR], SEPARATOR) == [empty, empty];
    assert [empty, empty][..1] == [empty] && [empty][..0] == [];
    assert PromoteFragments(s, cfg, [empty]) == s;
    assert PromoteFragments(s, cfg, [empty, empty]) == s;
    SeparatorCommit(s, cfg);
    StripTrimmed([SEPARATOR]);
  }

  /**
   * Typing a separator after a word that is neither empty nor a candidate
   * and has no separator of its own commits the word with its separator as
   * one plain-style tag and empties the text.
   */
  lemma WordSeparatorKeystroke(s: Tagger, cfg: Config, w: string)
    requires !LimitReached(cfg.limit, |s.tags|) && [] !in cfg.items
    requires w != [] && SEPARATOR !in w && w !in cfg.items
    requires !IsSpace(w[0]) && s.line.text == w + [SEPARATOR]
    ensures AfterKeystroke(s, cfg) ==
      Tagger(s.tags + [NewBubble(w + [SEPARATOR], Plain, cfg.measure)], WithText([]))
  {
    var t := w + [SEPARATOR];
    var empty: string := [];
    SplitTrailing(w, SEPARATOR);
    assert [w, empty][..1] == [w] && [w][..0] == [];
    assert PromoteFragments(s, cfg, [w]) == s;
    assert PromoteFragments(s, cfg, [w, empty]) == s;
    assert t[0] == w[0] && t[|t| - 1] == SEPARATOR;
    StripTrimmed(t);
    assert t != [SEPARATOR];
    SeparatorCommit(s, cfg);
  }

  /** The four fruit candidates with limit 5. */
  function FruitConfig(measure: string -> nat): Config
  {
    Config(5, ["apple", "banana", "cherry", "date"], measure)
  }

  lemma AppleStep(measure: string -> nat)
    ensures AfterKeystroke(Tagger([], WithText("apple")), FruitConfig(measure)) ==
      Tagger([NewBubble("apple", Default, measure)], WithText([]))
  {
    StripTrimmed("apple");
    CandidateKeystroke(Tagger([], WithText("apple")), FruitConfig(measure));
  }

  lemma UnderscoreStep(measure: string -> nat, tags: seq<Bubble>)
    requires |tags| < 5
    ensures AfterKeystroke(Tagger(tags, WithText("_")), FruitConfig(measure)) ==
      Tagger(tags + [NewBubble("_", Syntax, measure)], WithText([]))
  {
    SeparatorKeystroke(Tagger(tags, WithText("_")), FruitConfig(measure));
  }

  lemma WordStep(measure: string -> nat, tags: seq<Bubble>)
    requires |tags| < 5
    ensures AfterKeystroke(Tagger(tags, WithText("textwithsyntax_")), FruitConfig(measure)) ==
      Tagger(tags + [NewBubble("textwithsyntax_", Plain, measure)], WithText([]))
  {
    var w := "textwithsyntax";
    assert w + [SEPARATOR] == "textwithsyntax_";
    WordSeparatorKeystroke(Tagger(tags, WithText("textwithsyntax_")), FruitConfig(measure), w);
  }

  /**
   * The keystrokes that finish "apple", then "_", then "textwithsyntax_",
   * with the four fruit candidates and limit 5, commit a default tag, a
   * syntax tag and a plain tag, in that order. Each step starts from the
   * line QLineEdit leaves once the whole word is in the field (the word, the
   * cursor at its end); the character-by-character typing before that, and
   * QLineEdit's handling of each key, are not part of this lemma.
   */
  lemma PlainSyntaxScenario(measure: string -> nat)
    ensures var cfg := FruitConfig(measure);
      var s1 := AfterKeystroke(Tagger([], WithText("apple")), cfg);
      var s2 := AfterKeystroke(Tagger(s1.tags, WithText("_")), cfg);
      var s3 := AfterKeystroke(Tagger(s2.tags, WithText("textwithsyntax_")), cfg);
      && s3.line.text == []
      && NamesOf(s3.tags) == ["apple", "_", "textwithsyntax_"]
      && s3.tags == [NewBubble("apple", Default, measure), NewBubble("_", Syntax, measure),
                     NewBubble("textwithsyntax_", Plain, measure)]
  {
    var a := NewBubble("apple", Default, measure);
    var u := NewBubble("_", Syntax, measure);
    var p := NewBubble("textwithsyntax_", Plain, measure);
    AppleStep(measure);
    UnderscoreStep(measure, [a]);
    WordStep(measure, [a, u]);
    PushTwice(a, u, p);
    ScenarioNames(a, u, p);
  }

  /** Two concatenations of one-element sequences written as displays. */
  lemma PushTwice(a: Bubble, u: Bubble, p: Bubble)
    ensures [a] + [u] == [a, u] && [a, u] + [p] == [a, u, p]
  {
  }

  lemma ScenarioNames(a: Bubble, u: Bubble, p: Bubble)
    requires a.text == "apple" && u.text == "_" && p.text == "textwithsyntax_"
    ensures NamesOf([a, u, p]) == ["apple", "_", "textwithsyntax_"]
  {
    NamesAppend([a, u], p);
    NamesAppend([a], u);
    NamesAppend([], a);
    assert [] + [a] == [a] && [a] + [u] == [a, u] && [a, u] + [p] == [a, u, p];
  }

  // ---------------------------------------------------------------------------
  // The widgets
  // ---------------------------------------------------------------------------

  /** LineEditWithBubbles: a completer line edit that turns tokens into bubbles. */
  class LineEditWithBubbles {
    /** The completer line edit holding the pending text and the validator. */
    const edit: LineEditWithCompleter
    /** fontMetrics().width: the width of a text in the bubbles' font. */
    const measure: string -> nat
    /** LIMIT: the maximum number of tags; 0 means none. */
    var limit: int
    var tags: seq<Bubble>
    /** The left text margin. */
    var margin: int

    ghost predicate Valid()
      reads this, edit
    {
      edit.Valid() && margin == WidthOf(tags) && Measured(tags, measure)
    }

    function State(): Tagger
      reads this, edit
      requires edit.Valid()
    {
      Tagger(tags, edit.Current())
    }

    function Settings(): Config
      reads this
    {
      Config(limit, edit.items, measure)
    }

    /** The defaults are those of the widget: no candidates, empty text, no pattern, limit 10. */
    constructor (measure0: string -> nat, baseHandler0: (Line, string, Key) -> Line,
                 items0: seq<string> := [], text0: string := "", validator0: string := "",
                 limit0: int := 10)
      ensures Valid() && fresh(edit)
      ensures tags == [] && margin == 0 && limit == limit0 && measure == measure0
      ensures edit.Current() == WithText(text0) && edit.items == items0
      ensures edit.baseHandler == baseHandler0
      ensures edit.validator == if validator0 == [] then VALIDATOR_PATTERN else validator0
    {
      edit := new LineEditWithCompleter(baseHandler0, text0, items0, validator0);
      measure := measure0;
      limit := limit0;
      tags := [];
      margin := 0;
    }

    /** tag_names */
    function TagNames(): (names: seq<string>)
      reads this
      ensures |names| <= |tags|
      ensures forall k :: 0 <= k < |names| ==> names[k] != []
      ensures forall x :: x in names <==> x != [] && exists k :: 0 <= k < |tags| && tags[k].text == x
    {
      NamesOfSpec(tags);
      NamesOf(tags)
    }

    /** tags_width */
    function TagsWidth(): (w: nat)
      reads this
      ensures w == 0 <==> tags == []
      ensures w >= TAG_PADDING * |tags|
    {
      WidthBounds(tags);
      WidthOf(tags)
    }

    /** insert_tag: true when the tag was pushed. */
    method InsertTag(arg: string, style: Style) returns (ok: bool)
      requires Valid()
      modifies this, edit
      ensures Valid() && limit == old(limit) && edit.validator == old(edit.validator)
      ensures ok == !LimitReached(limit, |old(tags)|)
      ensures State() == Insert(old(State()), Settings(), arg, style)
    {
      if LimitReached(limit, |tags|) {
        return false;
      }
      tags := tags + [NewBubble(Strip(arg), style, measure)];
      margin := WidthOf(tags);
      edit.SetText(Strip(RemoveAll(edit.text, arg)));
      return true;
    }

    /**
     * editing_finished_trigger: install the pattern for the current tags;
     * always true.
     */
    method EditingFinishedTrigger() returns (done: bool)
      modifies edit`validator
      ensures done
      ensures edit.validator == ChosenPattern(tags)
    {
      edit.SetValidator(ChosenPattern(tags));
      done := true;
    }

    /** The fragment loop of keyPressEvent, over a fragment list taken beforehand. */
    method PromoteLoop(frags: seq<string>)
      requires Valid()
      modifies this, edit
      ensures Valid() && limit == old(limit) && edit.validator == old(edit.validator)
      ensures State() == PromoteFragments(old(State()), Settings(), frags)
    {
      ghost var start := State();
      var i := 0;
      while i < |frags|
        invariant 0 <= i <= |frags|
        invariant Valid() && limit == old(limit) && edit.validator == old(edit.validator)
        invariant State() == PromoteFragments(start, Settings(), frags[..i])
      {
        assert frags[..i + 1][..i] == frags[..i];
        if frags[i] in edit.items && frags[i] !in NamesOf(tags) {
          var _ := InsertTag(frags[i], Default);
        }
        i := i + 1;
      }
      assert frags[..|frags|] == frags;
    }

    /**
     * keyPressEvent. Backspace on an empty text with tags pops the newest
     * tag and stops there (the validator is left as it was). Otherwise the
     * completer line edit handles the key, and then, below the limit, the
     * fragments and the separator rule are promoted and the validator
     * pattern is recomputed.
     */
    method KeyPress(key: Key)
      requires Valid()
      modifies this, edit
      ensures Valid() && limit == old(limit)
      ensures PopsTag(key, old(State())) ==>
        State() == Pop(old(State())) && edit.validator == old(edit.validator)
      ensures !PopsTag(key, old(State())) ==>
        var typed := edit.baseHandler(CompleterRewrite(old(edit.Current()), key), old(edit.validator), key);
        && State() == AfterKeystroke(Tagger(old(tags), typed), Settings())
        && edit.validator == if LimitReached(limit, |old(tags)|) then old(edit.validator) else ChosenPattern(tags)
    {
      if key == Backspace && tags != [] && edit.text == [] {
        tags := tags[..|tags| - 1];
        margin := WidthOf(tags);
        return;
      }
      edit.KeyPress(key);
      if LimitReached(limit, |tags|) {
        return;
      }
      PromoteLoop(SplitOn(edit.text, SEPARATOR));
      if edit.text != [] && SEPARATOR in edit.text {
        var style := if edit.text == [SEPARATOR] then Syntax else Plain;
        var _ := InsertTag(edit.text, style);
      }
      var _ := EditingFinishedTrigger();
    }
  }

  /** BubbleWrap: one LineEditWithBubbles built from its settings. */
  class BubbleWrap {
    const widget: LineEditWithBubbles

    /** The dataclass defaults: no items, limit 10, empty text, no pattern. */
    constructor (measure0: string -> nat, baseHandler0: (Line, string, Key) -> Line,
                 items0: seq<string> := [], limit0: int := 10, text0: string := "",
                 validator0: string := "")
      ensures fresh(widget) && fresh(widget.edit) && widget.Valid()
      ensures widget.tags == [] && widget.limit == limit0 && widget.measure == measure0
      ensures widget.edit.Current() == WithText(text0) && widget.edit.items == items0
      ensures widget.edit.baseHandler == baseHandler0
      ensures widget.edit.validator == if validator0 == [] then VALIDATOR_PATTERN else validator0
    {
      widget := new LineEditWithBubbles(measure0, baseHandler0, items0, text0, validator0, limit0);
    }

    /** get_tags: the widget's tag names. */
    function GetTags(): (names: seq<string>)
      reads widget
      ensures names == widget.TagNames()
      ensures forall k :: 0 <= k < |names| ==> names[k] != []
    {
      widget.TagNames()
    }

    /** __contains__: an item is in the wrap when it is the non-empty text of a tag. */
    function Contains(item: string): (b: bool)
      reads widget
      ensures b <==> item != [] && exists k :: 0 <= k < |widget.tags| && widget.tags[k].text == item
    {
      item in GetTags()
    }
  }
}
