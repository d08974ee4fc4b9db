/**
 * `scale_drawing`: a drawing command string is split on spaces, every
 * token that looks like a number is replaced by its scaled value, every
 * other token (the path commands `m`, `l`, ...) is kept, and the tokens
 * are joined with spaces again.
 */
module Drawing {
  import opened Text

  /** `s.replace(c, "", 1)`: the first occurrence of `c` removed. */
  function RemoveFirst(s: string, c: char): (r: string)
    ensures c in s ==> |r| == |s| - 1
    ensures c !in s ==> r == s
  {
    if s == [] then s
    else if s[0] == c then s[1..]
    else [s[0]] + RemoveFirst(s[1..], c)
  }

  /** The character removed is the first occurrence of `c`: everything before and after it is kept. */
  lemma {:induction false} RemoveFirstAt(s: string, c: char, i: nat)
    requires i < |s| && s[i] == c && c !in s[..i]
    ensures RemoveFirst(s, c) == s[..i] + s[i + 1..]
  {
    if i == 0 {
      assert s[..0] + s[1..] == s[1..];
    } else {
      assert s[0] == s[..i][0];
      assert s[1..][..i - 1] == s[1..i];
      RemoveFirstAt(s[1..], c, i - 1);
      assert s[..i] == [s[0]] + s[1..i];
      assert s[1..][i..] == s[i + 1..];
    }
  }

  /** `str.isdigit` restricted to ASCII digits: non-empty and digits only. */
  predicate IsDigits(s: string)
  {
    s != [] && forall i :: 0 <= i < |s| ==> '0' <= s[i] <= '9'
  }

  /** The source's number test: with one `.` and then one `-` removed, only digits remain. */
  predicate IsNumericToken(t: string)
  {
    IsDigits(RemoveFirst(RemoveFirst(t, '.'), '-'))
  }

  /** One token of the drawing: numbers become `scaled(t)`, the text of `float(t) * scale`; the rest is kept. */
  function ScaleToken(t: string, scaled: string -> string): string
  {
    if IsNumericToken(t) then scaled(t) else t
  }

  /** `scale_drawing(scale, drawing)`, with the scaling and float printing given as `scaled`. */
  function ScaleDrawing(drawing: string, scaled: string -> string): string
  {
    var tokens := Split(drawing, ' ');
    Join(seq(|tokens|, i requires 0 <= i < |tokens| => ScaleToken(tokens[i], scaled)), ' ')
  }

  /**
   * When a scaled number never prints with a space, scaling keeps the
   * token structure: the same number of space-separated tokens, each command
   * token unchanged in its place and each number token replaced in its place.
   */
  lemma ScaleDrawingKeepsTokens(drawing: string, scaled: string -> string)
    requires forall t :: IsNumericToken(t) ==> ' ' !in scaled(t)
    ensures
      var before := Split(drawing, ' ');
      var after := Split(ScaleDrawing(drawing, scaled), ' ');
      && |after| == |before|
      && forall i :: 0 <= i < |before| ==>
           after[i] == (if IsNumericToken(before[i]) then scaled(before[i]) else before[i])
  {
    var tokens := Split(drawing, ' ');
    var mapped := seq(|tokens|, i requires 0 <= i < |tokens| => ScaleToken(tokens[i], scaled));
    assert forall i :: 0 <= i < |mapped| ==> ' ' !in mapped[i];
    SplitJoin(mapped, ' ');
  }

  /** Numbers of the icon path, with or without sign and decimal point, pass the test. */
  lemma NumericTokenExamples()
    ensures IsNumericToken("4.15") && IsNumericToken("-4.15")
  {
    assert RemoveFirst(".15", '.') == "15";
    assert RemoveFirst("4.15", '.') == "415";
    assert RemoveFirst("415", '-') == "415";
    assert RemoveFirst("-4.15", '.') == "-415";
    assert RemoveFirst("-415", '-') == "415";
  }

  /** Path commands fail the test, and so does a second decimal point; a sign in the middle passes. */
  lemma NonNumericTokenExamples()
    ensures !IsNumericToken("m") && !IsNumericToken("l")
    ensures !IsNumericToken("1.2.3")
    ensures IsNumericToken("4-1")
  {
    assert RemoveFirst("m", '.') == "m" && RemoveFirst("m", '-') == "m";
    assert RemoveFirst("l", '.') == "l" && RemoveFirst("l", '-') == "l";
    assert RemoveFirst(".2.3", '.') == "2.3";
    assert RemoveFirst("1.2.3", '.') == "12.3";
    assert RemoveFirst("12.3", '-') == "12.3";
    assert RemoveFirst("4-1", '.') == "4-1";
    assert RemoveFirst("-1", '-') == "1";
    assert RemoveFirst("4-1", '-') == "41";
  }
}
