/**
 * The FocusLost event: the widget losing the keyboard focus, the finished flag, and the text
 * of its String method. The target's `%v` text is a parameter.
 */
module FocusLostEvent {
  import opened Events

  /** The text of FocusLost.String. */
  function FocusLostText(targetText: string, finished: bool): string
  {
    "FocusLost[Target: " + targetText + Flag(finished, ", Finished") + "]"
  }

  class FocusLost {
    const target: TargetId
    var finished: bool

    /** NewFocusLost: an unfinished event for `target`. */
    constructor (target: TargetId)
      ensures this.target == target && !finished
    {
      this.target := target;
      finished := false;
    }

    function Type(): (t: EventType)
      ensures t == FocusLostType
    {
      FocusLostType
    }

    /** A FocusLost never goes on to its target's parent. */
    function Cascade(): (r: bool)
      ensures !r
    {
      false
    }

    /** Marks the event handled; a second call changes nothing more. */
    method Finish()
      modifies this`finished
      ensures finished
    {
      finished := true;
    }

    /** String, built by appending to a buffer. */
    method String(targetText: string) returns (s: string)
      ensures s == FocusLostText(targetText, finished)
    {
      var buffer := "FocusLost[Target: " + targetText;
      if finished {
        buffer := buffer + ", Finished";
      }
      assert buffer == "FocusLost[Target: " + targetText + Flag(finished, ", Finished");
      buffer := buffer + "]";
      s := buffer;
    }
  }

  lemma Labels()
    ensures ", Finished" + "]" == ", Finished]"
    ensures ',' !in "FocusLost[Target: "
  {
  }

  /**
   * The text starts with "FocusLost[Target: ", ends with "]", and ends with ", Finished]"
   * exactly when the event is finished, provided the target's text holds no comma.
   */
  lemma FocusLostShows(t: string, finished: bool)
    ensures var s := FocusLostText(t, finished);
      StartsWith(s, "FocusLost[Target: ") && EndsWith(s, "]")
    ensures ',' !in t ==> (EndsWith(FocusLostText(t, finished), ", Finished]") <==> finished)
  {
    var h := "FocusLost[Target: " + t;
    var f := Flag(finished, ", Finished");
    StartsWithAppend("FocusLost[Target: ", t, "FocusLost[Target: ");
    StartsWithAppend(h, f, "FocusLost[Target: ");
    StartsWithAppend(h + f, "]", "FocusLost[Target: ");
    EndsWithAppend(h + f, "]", "]");
    Labels();
    EndsWithBoth(h + f, ", Finished", "]");
    if finished {
      EndsWithAppend(h, f, ", Finished");
    } else if ',' !in t {
      assert h + f == h;
      assert ',' !in h by {
        forall i | 0 <= i < |h| ensures h[i] != ',' {
          if i >= 18 {
            assert h[i] == t[i - 18];
          }
        }
      }
      NoCommaTail(h, " Finished");
      assert ", Finished" == "," + " Finished";
    }
  }
}
