/**
 * What the event package's String methods share: the event type identifiers, Go's `%d`
 * formatting of an integer, `string(rune)`, and the facts about trailing ", Word" fields
 * that let a reader of such a text tell which flags were set.
 */
module Events {
  import opened Wrappers

  /** The event type identifiers used by the modelled events and handler registrations. */
  datatype EventType =
    | KeyDownType | FocusLostType | PaintType
    | MouseDownType | MouseDraggedType | MouseUpType | MouseEnteredType | MouseMovedType | MouseExitedType
    | SelectionType | ValidateType | ClosingType

  /** The object an event is aimed at, by identity. */
  type TargetId = nat

  /** An event handler, by name: a Go function value has no identity of its own. */
  datatype Handler = Handler(name: string)

  /** event.Handlers: every registration, in the order it was made. */
  class Handlers {
    var entries: seq<(EventType, Handler)>

    constructor ()
      ensures entries == []
    {
      entries := [];
    }

    method Add(t: EventType, h: Handler)
      modifies this
      ensures entries == old(entries) + [(t, h)]
    {
      entries := entries + [(t, h)];
    }
  }

  predicate StartsWith(s: string, w: string)
  {
    |w| <= |s| && s[..|w|] == w
  }

  predicate EndsWith(s: string, w: string)
  {
    |w| <= |s| && s[|s| - |w|..] == w
  }

  /** A field that is written only when `b` holds. */
  function Flag(b: bool, s: string): string
  {
    if b then s else ""
  }

  function DigitChar(d: nat): (c: char)
    requires d < 10
    ensures '0' <= c <= '9'
  {
    ('0' as int + d) as char
  }

  function DigitValue(c: char): (d: nat)
    requires '0' <= c <= '9'
    ensures d < 10 && DigitChar(d) == c
  {
    c as int - '0' as int
  }

  predicate AllDigits(s: string)
  {
    forall i | 0 <= i < |s| :: '0' <= s[i] <= '9'
  }

  /** The decimal digits of `n`, most significant first, with no leading zero. */
  function Digits(n: nat): (s: string)
    ensures |s| >= 1 && AllDigits(s)
    ensures |s| > 1 ==> s[0] != '0'
    decreases n
  {
    if n < 10 then [DigitChar(n)] else Digits(n / 10) + [DigitChar(n % 10)]
  }

  /** The number a string of decimal digits denotes. */
  function DigitsValue(s: string): nat
    requires AllDigits(s)
    decreases |s|
  {
    if s == [] then 0 else DigitsValue(s[..|s| - 1]) * 10 + DigitValue(s[|s| - 1])
  }

  /** `%d`: an optional minus sign, then the digits of the magnitude. */
  function Decimal(i: int): (s: string)
    ensures |s| >= 1 && ',' !in s
    ensures i < 0 <==> s[0] == '-'
    ensures i >= 0 ==> AllDigits(s)
  {
    var s := if i < 0 then "-" + Digits(-i) else Digits(i);
    assert forall k | 0 <= k < |s| :: s[k] == '-' || '0' <= s[k] <= '9';
    s
  }

  /** Reads back a `%d` text. */
  function ParseDecimal(s: string): Option<int>
  {
    if |s| >= 1 && s[0] == '-' && AllDigits(s[1..]) && |s[1..]| >= 1 then Some(-(DigitsValue(s[1..]) as int))
    else if |s| >= 1 && AllDigits(s) then Some(DigitsValue(s))
    else None
  }

  lemma {:induction false} DigitsRoundTrip(n: nat)
    ensures DigitsValue(Digits(n)) == n
    decreases n
  {
    if n >= 10 {
      var s := Digits(n);
      var t := Digits(n / 10);
      assert s == t + [DigitChar(n % 10)];
      assert s[..|s| - 1] == t;
      DigitsRoundTrip(n / 10);
      assert DigitsValue(s) == DigitsValue(t) * 10 + n % 10;
    }
  }

  /** A minus sign and digits read back as the negated value of the digits. */
  lemma ParseNegative(d: string)
    requires AllDigits(d) && |d| >= 1
    ensures ParseDecimal("-" + d) == Some(-(DigitsValue(d) as int))
  {
    var s := "-" + d;
    assert s[0] == '-' && s[1..] == d;
  }

  /** Digits alone read back as their value. */
  lemma ParseDigits(d: string)
    requires AllDigits(d) && |d| >= 1
    ensures ParseDecimal(d) == Some(DigitsValue(d) as int)
  {
    assert '0' <= d[0] <= '9';
  }

  /** The digits of a magnitude, behind a minus sign, read back as the negated magnitude. */
  lemma NegativeRoundTrip(n: nat)
    ensures ParseDecimal("-" + Digits(n)) == Some(-(n as int))
  {
    ParseNegative(Digits(n));
    DigitsRoundTrip(n);
  }

  /** The digits of a number read back as the number. */
  lemma DigitsParseRoundTrip(n: nat)
    ensures ParseDecimal(Digits(n)) == Some(n)
  {
    ParseDigits(Digits(n));
    DigitsRoundTrip(n);
  }

  /** `%d` loses nothing: the text reads back as the number that was formatted. */
  lemma DecimalRoundTrip(i: int)
    ensures ParseDecimal(Decimal(i)) == Some(i)
  {
    if i < 0 {
      assert Decimal(i) == "-" + Digits(-i);
      NegativeRoundTrip(-i);
    } else {
      assert Decimal(i) == Digits(i);
      DigitsParseRoundTrip(i);
    }
  }

  /** Go's `string(r)`: the rune itself, or U+FFFD when it is not a Unicode scalar value. */
  function RuneText(r: int): (s: string)
    ensures |s| == 1
    ensures (0 <= r < 0xD800 || 0xE000 <= r < 0x11_0000) ==> s[0] as int == r
    ensures !(0 <= r < 0xD800 || 0xE000 <= r < 0x11_0000) ==> s == "�"
  {
    if 0 <= r < 0xD800 || 0xE000 <= r < 0x11_0000 then [r as char] else "�"
  }

  /** A word that fits in the second part of a text ends the text iff it ends that part. */
  lemma EndsWithAppend(a: string, b: string, w: string)
    requires |w| <= |b|
    ensures EndsWith(a + b, w) <==> EndsWith(b, w)
  {
    assert (a + b)[|a + b| - |w|..] == b[|b| - |w|..];
  }

  /** Appending the same text to a word and a text keeps whether the one ends the other. */
  lemma EndsWithBoth(a: string, w: string, x: string)
    ensures EndsWith(a + x, w + x) <==> EndsWith(a, w)
  {
    if EndsWith(a + x, w + x) {
      assert (a + x)[|a + x| - |w + x|..] == a[|a| - |w|..] + x;
      assert a[|a| - |w|..] == (w + x)[..|w|];
    }
    if EndsWith(a, w) {
      assert (a + x)[|a + x| - |w + x|..] == a[|a| - |w|..] + x;
    }
  }

  /** A text that ends in `a + b` ends in `b`. */
  lemma EndsWithSuffix(s: string, a: string, b: string)
    requires EndsWith(s, a + b)
    ensures EndsWith(s, b)
  {
    assert s[|s| - |b|..] == (a + b)[|a|..];
  }

  /** A word that fits in the first part of a text starts the text iff it starts that part. */
  lemma StartsWithAppend(a: string, b: string, w: string)
    requires |w| <= |a|
    ensures StartsWith(a + b, w) <==> StartsWith(a, w)
  {
    assert (a + b)[..|w|] == a[..|w|];
  }

  /** A text that starts with `a` does not start with a word that differs from `a` at some position. */
  lemma StartsWithClash(s: string, a: string, w: string, i: nat)
    requires StartsWith(s, a) && i < |a| && i < |w| && a[i] != w[i]
    ensures !StartsWith(s, w)
  {
    assert s[..|a|][i] == s[i] == a[i];
  }

  /**
   * A text that ends in ", " and then a comma-free `q` ends in ", " and a comma-free `x`
   * exactly when `x` is `q`: the comma can only be the one before `q`.
   */
  lemma CommaTail(p: string, q: string, x: string)
    requires ',' !in q && ',' !in x
    ensures EndsWith(p + (", " + q), ", " + x) <==> x == q
  {
    var s := p + (", " + q);
    var w := ", " + x;
    if EndsWith(s, w) {
      var k := |s| - |w|;
      assert s[k..][0] == s[k] == w[0] == ',';
      forall j | |p| < j < |s|
        ensures s[j] != ','
      {
        if j == |p| + 1 {
          assert s[j] == ' ';
        } else {
          assert s[j] == q[j - |p| - 2];
        }
      }
      forall i | 0 < i < |w|
        ensures w[i] != ','
      {
        if i == 1 {
          assert w[i] == ' ';
        } else {
          assert w[i] == x[i - 2];
        }
      }
      assert k <= |p|;
      assert s[k..][|p| - k] == s[|p|] == ',';
      assert s[k..] == ", " + q;
      assert x == w[2..] == (", " + q)[2..] == q;
    }
    if x == q {
      assert s == p + w;
    }
  }

  /** A text that ends with `w` ends with the last character of `w`. */
  lemma EndsWithLast(s: string, w: string)
    requires EndsWith(s, w) && |w| > 0
    ensures s[|s| - 1] == w[|w| - 1]
  {
    assert s[|s| - |w|..][|w| - 1] == s[|s| - 1];
  }

  /** A comma-free text ends in no comma-led word. */
  lemma NoCommaTail(s: string, v: string)
    requires ',' !in s
    ensures !EndsWith(s, "," + v)
  {
    if |v| + 1 <= |s| {
      var k := |s| - |v| - 1;
      assert s[k..][0] == s[k] && s[k] in s;
    }
  }
}
