/** The server-port line of server.properties: written into whatever the file holds, and read back.
    daemon/internal/supervisor/properties.go:14-73 */
module Properties {
  import opened Numerals
  import opened Options
  import opened Rules

  const PORT_KEY := "server-port="

  // ----- lines

  /** Lines end at "\n"; a "\r" right before it belongs to the line end. */
  function SplitLines(text: string): (lines: seq<string>)
    ensures |lines| > 0
  {
    if text == [] then [""]
    else if text[0] == '\n' then [""] + SplitLines(text[1..])
    else if |text| > 1 && text[0] == '\r' && text[1] == '\n' then [""] + SplitLines(text[2..])
    else var rest := SplitLines(text[1..]); [[text[0]] + rest[0]] + rest[1..]
  }

  function Join(lines: seq<string>, newline: string): string
    requires |lines| > 0
  {
    if |lines| == 1 then lines[0] else lines[0] + newline + Join(lines[1..], newline)
  }

  predicate IsLine(line: string) {
    '\n' !in line
  }

  /** Whether splitting finds the line whole in front of the line end. */
  predicate Survives(line: string, newline: string) {
    IsLine(line) && (newline == "\n" ==> line == "" || line[|line| - 1] != '\r')
  }

  lemma {:induction false} SplitsOff(line: string, newline: string, rest: string)
    requires (newline == "\n" || newline == "\r\n") && Survives(line, newline)
    ensures SplitLines(line + newline + rest) == [line] + SplitLines(rest)
    decreases |line|
  {
    var text := line + newline + rest;
    if line == "" {
      assert text == newline + rest;
      assert text[|newline|..] == rest;
    } else {
      SplitsOff(line[1..], newline, rest);
      assert text[1..] == line[1..] + newline + rest;
      assert text[0] == line[0];
      assert line[0] in line;
      assert |line| > 1 ==> text[1] == line[1] && line[1] in line;
      assert |line| == 1 ==> text[1] == newline[0];
      assert [line[0]] + line[1..] == line;
    }
  }

  lemma {:induction false} SplitLast(line: string)
    requires IsLine(line)
    ensures SplitLines(line) == [line]
    decreases |line|
  {
    if line != "" {
      SplitLast(line[1..]);
      assert |line| > 1 ==> line[1] in line;
      assert line[0] in line;
      assert [line[0]] + line[1..] == line;
    }
  }

  /** Joining and splitting are inverse on lines that survive; the last one only needs to be a line. */
  lemma {:induction false} SplitUndoesJoin(lines: seq<string>, newline: string)
    requires |lines| > 0 && (newline == "\n" || newline == "\r\n")
    requires forall i :: 0 <= i < |lines| - 1 ==> Survives(lines[i], newline)
    requires IsLine(lines[|lines| - 1])
    ensures SplitLines(Join(lines, newline)) == lines
    decreases |lines|
  {
    if |lines| == 1 {
      SplitLast(lines[0]);
    } else {
      SplitUndoesJoin(lines[1..], newline);
      SplitsOff(lines[0], newline, Join(lines[1..], newline));
    }
  }

  predicate HasCrLf(text: string) {
    exists i :: 0 <= i < |text| - 1 && text[i] == '\r' && text[i + 1] == '\n'
  }

  lemma {:induction false} SplitGivesLines(text: string)
    ensures forall i :: 0 <= i < |SplitLines(text)| ==> IsLine(SplitLines(text)[i])
    decreases |text|
  {
    var lines := SplitLines(text);
    if text == [] {
    } else if text[0] == '\n' {
      SplitGivesLines(text[1..]);
      assert forall i :: 0 < i < |lines| ==> lines[i] == SplitLines(text[1..])[i - 1];
    } else if |text| > 1 && text[0] == '\r' && text[1] == '\n' {
      SplitGivesLines(text[2..]);
      assert forall i :: 0 < i < |lines| ==> lines[i] == SplitLines(text[2..])[i - 1];
    } else {
      SplitGivesLines(text[1..]);
      var rest := SplitLines(text[1..]);
      assert lines[0] == [text[0]] + rest[0];
      assert forall i :: 0 < i < |lines| ==> lines[i] == rest[i];
    }
  }

  /** A line that is followed by another began right before a line end if it is empty. */
  lemma FirstLineEmpty(text: string)
    ensures |SplitLines(text)| > 1 && SplitLines(text)[0] == "" ==> text != [] && (text[0] == '\n' || HasCrLf(text))
  {
    if |text| > 1 && text[0] == '\r' && text[1] == '\n' { assert HasCrLf(text); }
  }

  /** Without "\r\n" in the text, every line but the last survives "\n". */
  lemma {:induction false} PlainLinesSurvive(text: string)
    requires !HasCrLf(text)
    ensures forall i :: 0 <= i < |SplitLines(text)| - 1 ==> Survives(SplitLines(text)[i], "\n")
    decreases |text|
  {
    var lines := SplitLines(text);
    SplitGivesLines(text);
    if text != [] {
      SubText(text, 1);
      PlainLinesSurvive(text[1..]);
      FirstLineEmpty(text[1..]);
      var rest := SplitLines(text[1..]);
      if text[0] == '\n' {
        assert forall i :: 0 < i < |lines| ==> lines[i] == rest[i - 1];
      } else {
        assert !(|text| > 1 && text[0] == '\r' && text[1] == '\n');
        assert lines[0] == [text[0]] + rest[0];
        assert forall i :: 0 < i < |lines| ==> lines[i] == rest[i];
        assert rest[0] != "" ==> lines[0][|lines[0]| - 1] == rest[0][|rest[0]| - 1];
      }
    }
  }

  lemma SubText(text: string, k: nat)
    requires k <= |text|
    ensures HasCrLf(text[k..]) ==> HasCrLf(text)
  {
    if HasCrLf(text[k..]) {
      var i :| 0 <= i < |text[k..]| - 1 && text[k..][i] == '\r' && text[k..][i + 1] == '\n';
      assert text[k + i] == '\r' && text[k + i + 1] == '\n';
    }
  }

  // ----- the port line

  function PortLine(port: nat): string {
    PORT_KEY + Decimal(port)
  }

  predicate IsPortLine(line: string) {
    PORT_KEY <= TrimSpace(line)
  }

  /** The lines with every port line replaced, or with one added before a final empty line. */
  function WithPort(lines: seq<string>, port: nat): (result: seq<string>)
    requires |lines| > 0
    ensures |result| > 0
  {
    if exists i :: 0 <= i < |lines| && IsPortLine(lines[i]) then
      seq(|lines|, i requires 0 <= i < |lines| => if IsPortLine(lines[i]) then PortLine(port) else lines[i])
    else
      (if lines[|lines| - 1] == "" then lines[..|lines| - 1] else lines) + [PortLine(port), ""]
  }

  function Newline(contents: string): string {
    if HasCrLf(contents) then "\r\n" else "\n"
  }

  /** What writeServerPort leaves in the file. */
  function Rewritten(contents: string, port: nat): string {
    Join(WithPort(SplitLines(contents), port), Newline(contents))
  }

  method WriteServerPort(contents: string, port: nat) returns (output: string)
    ensures output == Rewritten(contents, port)
  {
    hide IsPortLine, PortLine, SplitLines, Join, HasCrLf;
    var newline := if HasCrLf(contents) then "\r\n" else "\n";
    var original := SplitLines(contents);
    var lines, replaced := original, false;
    for index := 0 to |original|
      invariant |lines| == |original|
      invariant forall i :: 0 <= i < index ==> lines[i] == if IsPortLine(original[i]) then PortLine(port) else original[i]
      invariant forall i :: index <= i < |original| ==> lines[i] == original[i]
      invariant replaced <==> exists i :: 0 <= i < index && IsPortLine(original[i])
    {
      if IsPortLine(original[index]) {
        lines := lines[index := PortLine(port)];
        replaced := true;
      }
    }
    if !replaced {
      assert lines == original;
      if lines[|lines| - 1] == "" {
        lines := lines[..|lines| - 1];
      }
      lines := lines + [PortLine(port), ""];
    }
    assert lines == WithPort(original, port);
    output := Join(lines, newline);
  }

  /** readServerPort: the first port line decides. */
  function PortOf(lines: seq<string>): Option<int> {
    if lines == [] then None
    else if IsPortLine(lines[0]) then Atoi(TrimSpace(TrimSpace(lines[0])[|PORT_KEY|..]))
    else PortOf(lines[1..])
  }

  function ReadServerPort(contents: string): Option<int> {
    PortOf(SplitLines(contents))
  }

  lemma TrimLeaves(s: string)
    requires s != "" && !IsSpace(s[0]) && !IsSpace(s[|s| - 1])
    ensures TrimSpace(s) == s
  {
  }

  lemma PortLineEnds(port: nat)
    ensures var line, digits := PortLine(port), Decimal(port);
      && line[0] == 's' && line[|line| - 1] == digits[|digits| - 1] && line[|PORT_KEY|..] == digits && PORT_KEY <= line
      && '0' <= digits[0] <= '9' && '0' <= digits[|digits| - 1] <= '9'
  {
    hide Decimal;
    ParseUndoesDecimal(port);
  }

  lemma PortLineIsLine(port: nat)
    ensures IsLine(PortLine(port))
  {
    var line, digits := PortLine(port), Decimal(port);
    hide Decimal;
    ParseUndoesDecimal(port);
    forall i | 0 <= i < |line| ensures line[i] != '\n' {
      if i >= |PORT_KEY| { assert line[i] == digits[i - |PORT_KEY|]; }
    }
  }

  lemma PortLineReads(port: nat)
    ensures IsLine(PortLine(port)) && IsPortLine(PortLine(port)) && Survives(PortLine(port), "\n")
    ensures PortOf([PortLine(port)]) == Some(port)
  {
    var line, digits := PortLine(port), Decimal(port);
    PortLineEnds(port);
    PortLineIsLine(port);
    ParseUndoesDecimal(port);
    hide PORT_KEY, PortLine, Decimal, Parse, IsLine;
    TrimLeaves(line);
    TrimLeaves(digits);
    assert TrimSpace(TrimSpace(line)[|PORT_KEY|..]) == digits;
    assert Atoi(digits) == Some(port);
    assert PortOf([line]) == Atoi(digits);
  }

  lemma {:induction false} FirstPortLine(lines: seq<string>, i: nat, port: nat)
    requires i < |lines| && lines[i] == PortLine(port)
    requires forall j :: 0 <= j < i && IsPortLine(lines[j]) ==> lines[j] == PortLine(port)
    ensures PortOf(lines) == Some(port)
  {
    hide PORT_KEY, PortLine, IsPortLine, IsLine, Survives, Atoi, TrimSpace;
    PortLineReads(port);
    if !IsPortLine(lines[0]) { FirstPortLine(lines[1..], i - 1, port); }
  }

  lemma {:induction false} TrimLeftCr(s: string)
    ensures TrimLeft(s + "\r") == if TrimLeft(s) == "" then "" else TrimLeft(s) + "\r"
  {
    if s == "" {
      assert s + "\r" == "\r";
      assert TrimLeft("\r") == TrimLeft("");
    } else if IsSpace(s[0]) {
      TrimLeftCr(s[1..]);
      assert (s + "\r")[1..] == s[1..] + "\r";
    }
  }

  lemma {:induction false} TrimLeftTwice(s: string)
    ensures TrimLeft(TrimLeft(s)) == TrimLeft(s)
  {
    if s != "" && IsSpace(s[0]) { TrimLeftTwice(s[1..]); }
  }

  lemma TrimDropsCr(s: string)
    ensures TrimSpace(s + "\r") == TrimSpace(s)
  {
    TrimLeftCr(s);
    TrimLeftTwice(s);
    var t := TrimLeft(s + "\r");
    if t != "" { assert t[..|t| - 1] == TrimLeft(s); }
  }

  /** The lines of the rewritten text: those that were written, but for a "\r" that stood alone at
      the end of the old text and now ends a line. */
  function LinesAfter(contents: string, port: nat): seq<string> {
    var lines := SplitLines(contents);
    var n := |lines|;
    if (exists i :: 0 <= i < n && IsPortLine(lines[i])) || HasCrLf(contents) || Survives(lines[n - 1], "\n") then
      WithPort(lines, port)
    else lines[..n - 1] + [lines[n - 1][..|lines[n - 1]| - 1], PortLine(port), ""]
  }

  lemma {:induction false} SplitsOffAll(front: seq<string>, newline: string, text: string)
    requires (newline == "\n" || newline == "\r\n") && forall i :: 0 <= i < |front| ==> Survives(front[i], newline)
    ensures SplitLines(Prefixed(front, newline, text)) == front + SplitLines(text)
    decreases |front|
  {
    hide SplitLines, Survives;
    if front == [] {
      assert front + SplitLines(text) == SplitLines(text);
    } else {
      SplitsOffAll(front[1..], newline, text);
      SplitsOff(front[0], newline, Prefixed(front[1..], newline, text));
      assert front == [front[0]] + front[1..];
      assert [front[0]] + (front[1..] + SplitLines(text)) == front + SplitLines(text);
    }
  }

  /** Lines with their line ends, in front of a text. */
  function Prefixed(front: seq<string>, newline: string, text: string): string {
    if front == [] then text else front[0] + newline + Prefixed(front[1..], newline, text)
  }

  lemma {:induction false} JoinIsPrefixed(front: seq<string>, back: seq<string>, newline: string)
    requires |back| > 0
    ensures Join(front + back, newline) == Prefixed(front, newline, Join(back, newline))
    decreases |front|
  {
    if front == [] {
      assert front + back == back;
    } else {
      assert (front + back)[1..] == front[1..] + back;
      JoinIsPrefixed(front[1..], back, newline);
    }
  }

  lemma OldLinesSurvive(contents: string, lines: seq<string>)
    requires lines == SplitLines(contents)
    ensures forall i :: 0 <= i < |lines| ==> IsLine(lines[i])
    ensures forall i :: 0 <= i < |lines| - 1 ==> Survives(lines[i], Newline(contents))
  {
    SplitGivesLines(contents);
    if !HasCrLf(contents) { PlainLinesSurvive(contents); }
  }

  lemma WithPortSurvives(lines: seq<string>, port: nat, newline: string)
    requires |lines| > 0 && (newline == "\n" || newline == "\r\n")
    requires forall i :: 0 <= i < |lines| ==> IsLine(lines[i])
    requires forall i :: 0 <= i < |lines| - 1 ==> Survives(lines[i], newline)
    requires (exists i :: 0 <= i < |lines| && IsPortLine(lines[i])) || Survives(lines[|lines| - 1], newline)
    ensures SplitLines(Join(WithPort(lines, port), newline)) == WithPort(lines, port)
  {
    var result := WithPort(lines, port);
    PortLineReads(port);
    hide PORT_KEY, PortLine, PortOf, IsPortLine;
    forall i | 0 <= i < |result| - 1 ensures Survives(result[i], newline) {
      assert i < |lines| ==> result[i] == PortLine(port) || result[i] == lines[i];
    }
    assert IsLine(result[|result| - 1]);
    SplitUndoesJoin(result, newline);
  }

  lemma RewrittenLines(contents: string, port: nat)
    ensures SplitLines(Rewritten(contents, port)) == LinesAfter(contents, port)
  {
    hide PORT_KEY, PortLine, PortOf, IsPortLine, HasCrLf, SplitLines, Join, IsLine, WithPort;
    var lines, newline := SplitLines(contents), Newline(contents);
    var n := |lines|;
    OldLinesSurvive(contents, lines);
    if (exists i :: 0 <= i < n && IsPortLine(lines[i])) || Survives(lines[n - 1], newline) {
      WithPortSurvives(lines, port, newline);
    } else {
      StrayLines(lines, port);
    }
  }

  lemma StrayLines(lines: seq<string>, port: nat)
    requires |lines| > 0 && !(exists i :: 0 <= i < |lines| && IsPortLine(lines[i]))
    requires forall i :: 0 <= i < |lines| - 1 ==> Survives(lines[i], "\n")
    requires IsLine(lines[|lines| - 1]) && !Survives(lines[|lines| - 1], "\n")
    ensures var n := |lines|;
      SplitLines(Join(WithPort(lines, port), "\n")) == lines[..n - 1] + [lines[n - 1][..|lines[n - 1]| - 1], PortLine(port), ""]
  {
    hide PORT_KEY, PortLine, IsPortLine, SplitLines, Join;
    var n := |lines|;
    StrayCr(lines[..n - 1], lines[n - 1], port);
    assert WithPort(lines, port) == lines[..n - 1] + [lines[n - 1], PortLine(port), ""];
  }

  lemma StrayCr(front: seq<string>, last: string, port: nat)
    requires forall i :: 0 <= i < |front| ==> Survives(front[i], "\n")
    requires IsLine(last) && !Survives(last, "\n")
    ensures SplitLines(Join(front + [last, PortLine(port), ""], "\n")) == front + [last[..|last| - 1], PortLine(port), ""]
  {
    var tail := [PortLine(port), ""];
    var back := [last, PortLine(port), ""];
    JoinIsPrefixed(front, back, "\n");
    SplitsOffAll(front, "\n", Join(back, "\n"));
    StrayTail(last, port);
  }

  lemma StrayTail(last: string, port: nat)
    requires IsLine(last) && !Survives(last, "\n")
    ensures SplitLines(Join([last, PortLine(port), ""], "\n")) == [last[..|last| - 1], PortLine(port), ""]
  {
    hide PORT_KEY, PortLine, PortOf, IsPortLine, SplitLines;
    var body, tail := last[..|last| - 1], [PortLine(port), ""];
    PortLineReads(port);
    SplitUndoesJoin(tail, "\n");
    assert [last, PortLine(port), ""][1..] == tail;
    assert last == body + "\r";
    assert Join([last, PortLine(port), ""], "\n") == body + "\r\n" + Join(tail, "\n");
    SplitsOff(body, "\r\n", Join(tail, "\n"));
  }

  lemma TailPort(front: seq<string>, port: nat)
    requires forall i :: 0 <= i < |front| ==> !IsPortLine(front[i])
    ensures PortOf(front + [PortLine(port), ""]) == Some(port)
  {
    FirstPortLine(front + [PortLine(port), ""], |front|, port);
  }

  /** Reading the port after writing it gives it back, whatever the file held. */
  lemma PortReadsBack(contents: string, port: nat)
    ensures ReadServerPort(Rewritten(contents, port)) == Some(port)
  {
    hide PORT_KEY, PortLine, HasCrLf, Rewritten, SplitLines, TrimLeft, PortOf, IsLine;
    var lines := SplitLines(contents);
    var n := |lines|;
    RewrittenLines(contents, port);
    if exists i :: 0 <= i < n && IsPortLine(lines[i]) {
      var i :| 0 <= i < n && IsPortLine(lines[i]);
      FirstPortLine(WithPort(lines, port), i, port);
    } else if LinesAfter(contents, port) == WithPort(lines, port) {
      var front := if lines[n - 1] == "" then lines[..n - 1] else lines;
      TailPort(front, port);
      assert front + [PortLine(port), ""] == WithPort(lines, port);
    } else {
      var last := lines[n - 1];
      OldLinesSurvive(contents, lines);
      assert !Survives(last, "\n") && IsLine(last);
      TrimDropsCr(last[..|last| - 1]);
      assert last == last[..|last| - 1] + "\r";
      var front := lines[..n - 1] + [last[..|last| - 1]];
      TailPort(front, port);
      assert front + [PortLine(port), ""] == LinesAfter(contents, port);
    }
  }

  /** Every line that is no port line stays where it was, line ends included. When there is no port line,
      one is put behind them all, in place of a final empty line; then a "\r" that stood alone at the
      end of the file becomes part of the line end behind it. */
  lemma OtherLinesStay(contents: string, port: nat)
    ensures var lines, after := SplitLines(contents), SplitLines(Rewritten(contents, port));
      if exists j :: 0 <= j < |lines| && IsPortLine(lines[j]) then
        && |after| == |lines|
        && forall i :: 0 <= i < |lines| ==> after[i] == if IsPortLine(lines[i]) then PortLine(port) else lines[i]
      else
        var last := lines[|lines| - 1];
        var kept := if last == "" then |lines| - 1 else |lines|;
        && |after| == kept + 2 && after[kept..] == [PortLine(port), ""]
        && (forall i :: 0 <= i < |lines| - 1 ==> after[i] == lines[i])
        && (last != "" ==>
             after[|lines| - 1] == if last[|last| - 1] == '\r' && !HasCrLf(contents) then last[..|last| - 1] else last)
  {
    hide PORT_KEY, PortLine, HasCrLf, Rewritten, SplitLines, IsPortLine;
    SplitGivesLines(contents);
    RewrittenLines(contents, port);
  }
}
