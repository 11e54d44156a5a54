/**
 * The KeyDown event: what a key press carries, the finished and discarded flags that
 * handlers set, and the diagnostic text of its String method. The target's `%v` text and
 * the modifiers' text come from code that is not part of this model and are parameters.
 */
module KeyDownEvent {
  import opened Wrappers
  import opened Events

  /** The text of KeyDown.String for the given fields. */
  function KeyDownText(discarded: bool, code: int, ch: int, targetText: string,
                       modsText: string, repeat: bool, finished: bool): string
  {
    KeyDownHead(discarded, code, ch, targetText, modsText)
      + Flag(repeat, ", Auto-Repeat") + Flag(finished, ", Finished") + "]"
  }

  /** Everything up to the repeat and finished fields. */
  function KeyDownHead(discarded: bool, code: int, ch: int, targetText: string, modsText: string): string
  {
    KeyDownLead(discarded, code, ch) + (", Target: " + targetText) + Flag(modsText != "", ", " + modsText)
  }

  /** The fields before the target: the discarded mark, the code and the rune. */
  function KeyDownLead(discarded: bool, code: int, ch: int): string
  {
    KeyDownOpening(discarded, code) + Flag(ch != 0, ", Rune: " + Decimal(ch) + " (" + RuneText(ch) + ")")
  }

  class KeyDown {
    const target: TargetId
    const code: int
    const ch: int
    const modifiers: nat
    const repeat: bool
    var finished: bool
    var discarded: bool

    /** A discarded event is always finished. */
    ghost predicate Valid()
      reads this
    {
      discarded ==> finished
    }

    /** NewKeyDown: a fresh event, neither finished nor discarded. */
    constructor (target: TargetId, code: int, ch: int, modifiers: nat, autoRepeat: bool)
      ensures this.target == target && this.code == code && this.ch == ch
      ensures this.modifiers == modifiers && this.repeat == autoRepeat
      ensures !finished && !discarded && Valid()
    {
      this.target := target;
      this.code := code;
      this.ch := ch;
      this.modifiers := modifiers;
      this.repeat := autoRepeat;
      finished := false;
      discarded := false;
    }

    function Type(): (t: EventType)
      ensures t == KeyDownType
    {
      KeyDownType
    }

    /** An unfinished KeyDown goes on to its target's parent. */
    function Cascade(): (r: bool)
      ensures r
    {
      true
    }

    /** Marks the event handled; a second call changes nothing more. */
    method Finish()
      modifies this`finished
      ensures finished && discarded == old(discarded) && Valid()
    {
      finished := true;
    }

    /** Marks the event to be thrown away, which also finishes it. */
    method Discard()
      modifies this`finished, this`discarded
      ensures finished && discarded && Valid()
    {
      discarded := true;
      finished := true;
    }

    /** String, built by appending to a buffer. */
    method String(targetText: string, modsText: string) returns (s: string)
      ensures s == KeyDownText(discarded, code, ch, targetText, modsText, repeat, finished)
    {
      var buffer := "KeyDown[";
      if discarded {
        buffer := buffer + "Discarded, ";
      }
      assert buffer == "KeyDown[" + Flag(discarded, "Discarded, ");
      buffer := buffer + ("Code: " + Decimal(code));
      if ch != 0 {
        buffer := buffer + (", Rune: " + Decimal(ch) + " (" + RuneText(ch) + ")");
      }
      assert buffer == KeyDownLead(discarded, code, ch);
      buffer := buffer + (", Target: " + targetText);
      if modsText != "" {
        buffer := buffer + (", " + modsText);
      }
      assert buffer == KeyDownHead(discarded, code, ch, targetText, modsText);
      if repeat {
        buffer := buffer + ", Auto-Repeat";
      }
      assert buffer == KeyDownHead(discarded, code, ch, targetText, modsText) + Flag(repeat, ", Auto-Repeat");
      if finished {
        buffer := buffer + ", Finished";
      }
      assert buffer == KeyDownHead(discarded, code, ch, targetText, modsText) + Flag(repeat, ", Auto-Repeat")
                       + Flag(finished, ", Finished");
      buffer := buffer + "]";
      s := buffer;
    }
  }

  /** The fields up to the code. */
  function KeyDownOpening(discarded: bool, code: int): string
  {
    "KeyDown[" + Flag(discarded, "Discarded, ") + ("Code: " + Decimal(code))
  }

  /** Whether the text starts with a word no longer than its opening is decided by that opening. */
  lemma TextPrefix(discarded: bool, code: int, ch: int, t: string, m: string, repeat: bool, finished: bool, w: string)
    requires |w| <= |KeyDownOpening(discarded, code)|
    ensures StartsWith(KeyDownText(discarded, code, ch, t, m, repeat, finished), w)
            <==> StartsWith(KeyDownOpening(discarded, code), w)
  {
    var lead := KeyDownLead(discarded, code, ch);
    var head := KeyDownHead(discarded, code, ch, t, m);
    StartsWithAppend(KeyDownOpening(discarded, code), Flag(ch != 0, ", Rune: " + Decimal(ch) + " (" + RuneText(ch) + ")"), w);
    StartsWithAppend(lead, ", Target: " + t, w);
    StartsWithAppend(lead + (", Target: " + t), Flag(m != "", ", " + m), w);
    StartsWithAppend(head, Flag(repeat, ", Auto-Repeat"), w);
    StartsWithAppend(head + Flag(repeat, ", Auto-Repeat"), Flag(finished, ", Finished"), w);
    StartsWithAppend(head + Flag(repeat, ", Auto-Repeat") + Flag(finished, ", Finished"), "]", w);
  }

  /** The text is bracketed by "KeyDown[" and "]". */
  lemma KeyDownFramed(discarded: bool, code: int, ch: int, t: string, m: string, repeat: bool, finished: bool)
    ensures var s := KeyDownText(discarded, code, ch, t, m, repeat, finished);
      StartsWith(s, "KeyDown[") && EndsWith(s, "]")
  {
    var head := KeyDownHead(discarded, code, ch, t, m);
    var rest := Flag(discarded, "Discarded, ") + ("Code: " + Decimal(code));
    StartsWithAppend("KeyDown[", Flag(discarded, "Discarded, "), "KeyDown[");
    StartsWithAppend("KeyDown[" + Flag(discarded, "Discarded, "), "Code: " + Decimal(code), "KeyDown[");
    TextPrefix(discarded, code, ch, t, m, repeat, finished, "KeyDown[");
    EndsWithAppend(head + Flag(repeat, ", Auto-Repeat") + Flag(finished, ", Finished"), "]", "]");
  }

  /** The text opens with "Discarded, " exactly when the event was discarded. */
  lemma KeyDownShowsDiscarded(discarded: bool, code: int, ch: int, t: string, m: string, repeat: bool, finished: bool)
    ensures StartsWith(KeyDownText(discarded, code, ch, t, m, repeat, finished), "KeyDown[Discarded, ")
            <==> discarded
  {
    var w := "KeyDown[Discarded, ";
    var s := KeyDownText(discarded, code, ch, t, m, repeat, finished);
    var o := KeyDownOpening(discarded, code);
    if discarded {
      OpeningLabels();
      assert o == w + ("Code: " + Decimal(code));
      StartsWithAppend(w, "Code: " + Decimal(code), w);
      TextPrefix(discarded, code, ch, t, m, repeat, finished, w);
    } else {
      assert o == "KeyDown[" + ("Code: " + Decimal(code));
      assert o[..9] == "KeyDown[C";
      TextPrefix(discarded, code, ch, t, m, repeat, finished, "KeyDown[C");
      StartsWithClash(s, "KeyDown[C", w, 8);
    }
  }

  lemma OpeningLabels()
    ensures "KeyDown[" + "Discarded, " == "KeyDown[Discarded, "
  {
  }

  /** The labelled fields, split after their ", ". */
  lemma FieldLabels(t: string)
    ensures ", Finished" == ", " + "Finished" && ", Auto-Repeat" == ", " + "Auto-Repeat"
    ensures ", Target: " + t == ", " + ("Target: " + t)
    ensures "Target: " + t != "Finished" && "Target: " + t != "Auto-Repeat"
  {
    assert ("Target: " + t)[0] == 'T';
  }

  /** The head ends in ", " and a comma-free last field. */
  lemma HeadShape(discarded: bool, code: int, ch: int, t: string, m: string, x: string)
    requires ',' !in t && ',' !in m && ',' !in x
    ensures EndsWith(KeyDownHead(discarded, code, ch, t, m), ", " + x) <==>
              x == (if m != "" then m else "Target: " + t)
  {
    var lead := KeyDownLead(discarded, code, ch);
    var head := KeyDownHead(discarded, code, ch, t, m);
    if m != "" {
      assert head == (lead + (", Target: " + t)) + (", " + m);
      CommaTail(lead + (", Target: " + t), m, x);
    } else {
      FieldLabels(t);
      assert head == lead + (", " + ("Target: " + t));
      CommaTail(lead, "Target: " + t, x);
    }
  }

  /** The repeat and finished fields are told apart by the text's last fields. */
  lemma TailShows(h: string, repeat: bool, finished: bool)
    requires !EndsWith(h, ", Finished") && !EndsWith(h, ", Auto-Repeat")
    ensures var s := h + Flag(repeat, ", Auto-Repeat") + Flag(finished, ", Finished") + "]";
      && (EndsWith(s, ", Finished]") <==> finished)
      && ((EndsWith(s, ", Auto-Repeat]") || EndsWith(s, ", Auto-Repeat, Finished]")) <==> repeat)
  {
    var r := Flag(repeat, ", Auto-Repeat");
    var f := Flag(finished, ", Finished");
    var hr := h + r;
    var hrf := hr + f;
    EndsWithBoth(hrf, ", Finished", "]");
    EndsWithBoth(hrf, ", Auto-Repeat", "]");
    EndsWithBoth(hrf, ", Auto-Repeat, Finished", "]");
    assert ", Finished" + "]" == ", Finished]";
    assert ", Auto-Repeat" + "]" == ", Auto-Repeat]";
    assert ", Auto-Repeat, Finished" + "]" == ", Auto-Repeat, Finished]";
    assert ", Auto-Repeat" + ", Finished" == ", Auto-Repeat, Finished";
    if finished {
      EndsWithAppend(hr, f, ", Finished");
      if EndsWith(hrf, ", Auto-Repeat") {
        EndsWithLast(hrf, ", Auto-Repeat");
        assert false;
      }
      EndsWithBoth(h, ", Auto-Repeat", ", Finished");
      if !repeat {
        assert hr == h;
      }
    } else {
      assert hrf == hr;
      if repeat {
        EndsWithAppend(h, r, ", Auto-Repeat");
        if EndsWith(hr, ", Finished") {
          EndsWithLast(hr, ", Finished");
          assert false;
        }
        if EndsWith(hr, ", Auto-Repeat, Finished") {
          EndsWithLast(hr, ", Auto-Repeat, Finished");
          assert false;
        }
      } else {
        assert hr == h;
        if EndsWith(h, ", Auto-Repeat, Finished") {
          EndsWithSuffix(h, ", Auto-Repeat", ", Finished");
        }
      }
    }
  }

  /**
   * The text ends in ", Finished]" exactly when the event is finished, and shows
   * ", Auto-Repeat" as its last field, or last but the finished one, exactly when the key
   * repeats, provided the target's and the modifiers' texts hold no comma and the modifiers'
   * text is neither "Finished" nor "Auto-Repeat".
   */
  lemma KeyDownShowsFlags(discarded: bool, code: int, ch: int, t: string, m: string, repeat: bool, finished: bool)
    requires ',' !in t && ',' !in m && m != "Finished" && m != "Auto-Repeat"
    ensures var s := KeyDownText(discarded, code, ch, t, m, repeat, finished);
      && (EndsWith(s, ", Finished]") <==> finished)
      && ((EndsWith(s, ", Auto-Repeat]") || EndsWith(s, ", Auto-Repeat, Finished]")) <==> repeat)
  {
    var h := KeyDownHead(discarded, code, ch, t, m);
    HeadShape(discarded, code, ch, t, m, "Finished");
    HeadShape(discarded, code, ch, t, m, "Auto-Repeat");
    FieldLabels(t);
    TailShows(h, repeat, finished);
  }
}
