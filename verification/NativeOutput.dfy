/** The diagnostic line a native workload prints, and the retained result. */
module NativeOutput {
  import opened Words

  const LINE_BYTES: nat := 96
  const RETAINED: nat := 16

  /** "RESULT: PASS" as the workload prints it. */
  const PASS_TEXT: seq<byte> := [82, 69, 83, 85, 76, 84, 58, 32, 80, 65, 83, 83]

  datatype Console = Console(line: seq<byte>, output: seq<byte>, pass: bool, any: bool, truncated: bool)

  const BLANK: Console := Console([], [], false, false, false)

  /** A C string ends at its first zero byte. */
  function CString(s: seq<byte>): seq<byte> {
    if s == [] || s[0] == 0 then [] else [s[0]] + CString(s[1..])
  }

  /** `flush_diagnostic_line`. */
  function Flush(c: Console): Console {
    if c.line == [] then c
    else Console([], c.line[..if |c.line| < RETAINED then |c.line| else RETAINED],
                 CString(c.line) == PASS_TEXT, true, |c.line| > RETAINED)
  }

  /** A carriage return or a line feed ends a line. */
  predicate Breaks(character: byte) { character == 13 || character == 10 }

  function Print(c: Console, character: byte): Console {
    if Breaks(character) then Flush(c)
    else if |c.line| + 1 < LINE_BYTES then c.(line := c.line + [character])
    else c
  }

  function PrintAll(c: Console, text: seq<byte>): Console
    decreases text
  {
    if text == [] then c else PrintAll(Print(c, text[0]), text[1..])
  }

  /** The last non-empty line that was ended, and the line still open. */
  datatype Lines = Lines(ended: seq<byte>, open: seq<byte>)

  function Split(text: seq<byte>): Lines {
    if text == [] then Lines([], [])
    else
      var n := |text| - 1;
      var before := Split(text[..n]);
      if !Breaks(text[n]) then before.(open := before.open + [text[n]])
      else if before.open == [] then before
      else Lines(before.open, [])
  }

  function Cut(s: seq<byte>, n: nat): seq<byte> { s[..if |s| < n then |s| else n] }

  lemma {:induction false} PrintLast(c: Console, text: seq<byte>, character: byte)
    ensures PrintAll(c, text + [character]) == Print(PrintAll(c, text), character)
    decreases text
  {
    if text == [] {
      assert text + [character] == [character] && [character][1..] == [];
    } else {
      assert (text + [character])[1..] == text[1..] + [character];
      PrintLast(Print(c, text[0]), text[1..], character);
    }
  }

  /** After any text, from a blank console: the result is that of the last
      ended line, cut at 95 characters; PASS is reported exactly if that line,
      as a C string, is the pass text. */
  lemma {:induction false} ResultOfText(text: seq<byte>)
    ensures var c, lines := PrintAll(BLANK, text), Split(text);
            var last := Cut(lines.ended, LINE_BYTES - 1);
            && c.line == Cut(lines.open, LINE_BYTES - 1)
            && c.any == (lines.ended != [])
            && c.output == Cut(last, RETAINED)
            && c.pass == (CString(last) == PASS_TEXT)
            && c.truncated == (|last| > RETAINED)
    decreases |text|
  {
    if text != [] {
      var n := |text| - 1;
      ResultOfText(text[..n]);
      assert text == text[..n] + [text[n]];
      PrintLast(BLANK, text[..n], text[n]);
      hide CString; hide PrintAll;
    }
  }

  /** A C string equals a text without zeros exactly if the buffer is that text,
      or continues it with a zero byte. */
  lemma {:induction false} CStringIs(s: seq<byte>, text: seq<byte>)
    requires forall i :: 0 <= i < |text| ==> text[i] != 0
    ensures CString(s) == text <==> s == text || (|s| > |text| && s[..|text| + 1] == text + [0])
    decreases text
  {
    if text != [] && s != [] && s[0] == text[0] {
      CStringIs(s[1..], text[1..]);
      assert text == [text[0]] + text[1..] && s == [s[0]] + s[1..];
      if |s| > |text| {
        assert s[..|text| + 1] == [s[0]] + s[1..][..|text|];
        assert text + [0] == [text[0]] + (text[1..] + [0]);
      }
    }
  }

  /** The line begins with the pass text and a zero byte. */
  predicate HiddenTail(line: seq<byte>) { |line| > |PASS_TEXT| && line[..|PASS_TEXT| + 1] == PASS_TEXT + [0] }

  /** What the pass test of the firmware says of a line, cut or not. */
  lemma PassTest(line: seq<byte>)
    ensures CString(Cut(line, LINE_BYTES - 1)) == PASS_TEXT <==> line == PASS_TEXT || HiddenTail(line)
  {
    hide CString;
    var last := Cut(line, LINE_BYTES - 1);
    CStringIs(last, PASS_TEXT);
    if |line| > |PASS_TEXT| { assert last[..|PASS_TEXT| + 1] == line[..|PASS_TEXT| + 1]; }
  }

  /** The line a result comes from: the last one ended, or, once a stop has
      flushed the console, the line still open if there is one. */
  function Judged(text: seq<byte>, stopped: bool): seq<byte> {
    if stopped && Split(text).open != [] then Split(text).open else Split(text).ended
  }

  function Result(text: seq<byte>, stopped: bool): Console {
    if stopped then Flush(PrintAll(BLANK, text)) else PrintAll(BLANK, text)
  }

  /** After any text, before and after a stop: PASS is reported exactly when the
      judged line is the pass text, if and only if that line does not hide a tail
      behind it. */
  lemma PassExactly(text: seq<byte>, stopped: bool)
    ensures var line := Judged(text, stopped);
            (Result(text, stopped).pass <==> line == PASS_TEXT) <==> !HiddenTail(line)
    ensures HiddenTail(Judged(text, stopped)) ==> Result(text, stopped).pass
  {
    hide PrintAll; hide Split; hide CString;
    ResultOfText(text);
    PassTest(Split(text).ended);
    PassTest(Split(text).open);
  }

  lemma {:induction false} SplitPlain(s: seq<byte>)
    requires forall i :: 0 <= i < |s| ==> !Breaks(s[i])
    ensures Split(s) == Lines([], s)
  {
    if s != [] {
      SplitPlain(s[..|s| - 1]);
      assert s == s[..|s| - 1] + [s[|s| - 1]];
    }
  }

  /** And there are such texts: the console passes a line that goes on. */
  lemma PassWithTail(tail: seq<byte>)
    requires forall i :: 0 <= i < |tail| ==> !Breaks(tail[i])
    ensures var line := PASS_TEXT + [0] + tail;
            && Judged(line + [10], false) == Judged(line, true) == line && line != PASS_TEXT
            && Result(line + [10], false).pass && Result(line, true).pass
  {
    var line := PASS_TEXT + [0] + tail;
    forall i | 0 <= i < |line|
      ensures !Breaks(line[i])
    {
      if i > |PASS_TEXT| { assert line[i] == tail[i - |PASS_TEXT| - 1]; }
    }
    SplitPlain(line);
    assert (line + [10])[..|line|] == line;
    assert line[..|PASS_TEXT| + 1] == PASS_TEXT + [0];
    PassExactly(line + [10], false);
    PassExactly(line, true);
  }
}
