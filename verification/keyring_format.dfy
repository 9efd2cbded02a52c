/** The text transformation at the centre of `_keyring_write`: split the
    content on newlines, strip each line, drop blank lines, keep section
    headers (`[...]`) as they are, indent every other line with one tab, and
    end every written line with a newline. */
module KeyringFormat {
  import opened PyStr

  /** How one non-blank stripped line is written, before its newline. */
  function FormatLine(stripped: string): string
    requires |stripped| > 0
  {
    if stripped[0] == '[' then stripped else ['\t'] + stripped
  }

  /** The shape of every written line: a stripped section header, or a tab
      followed by a stripped body that is not a header. */
  predicate IsEmitted(line: string) {
    || (|line| > 0 && line[0] == '[' && IsStripped(line))
    || (|line| > 1 && line[0] == '\t' && line[1] != '[' && IsStripped(line[1..]))
  }

  /** The lines the write loop emits for the given input lines, in order. */
  function EmitLines(lines: seq<string>): (out: seq<string>)
    ensures |out| <= |lines|
  {
    if |lines| == 0 then [] else Emitted(lines[0]) + EmitLines(lines[1..])
  }

  /** What one input line contributes: nothing when it strips to nothing,
      otherwise its written form. */
  function Emitted(line: string): seq<string> {
    var s := Strip(line);
    if |s| == 0 then [] else [FormatLine(s)]
  }

  /** Every written line is a stripped header, or a tab followed by a
      stripped line that is not a header. */
  lemma {:induction false} EmitLinesForm(lines: seq<string>)
    ensures forall k :: 0 <= k < |EmitLines(lines)| ==> IsEmitted(EmitLines(lines)[k])
  {
    if |lines| > 0 {
      EmitLinesForm(lines[1..]);
      var s := Strip(lines[0]);
      if |s| > 0 {
        assert IsEmitted(FormatLine(s)) by {
          if s[0] != '[' {
            assert (['\t'] + s)[1..] == s;
          }
        }
      }
    }
  }

  /** Writes each line followed by a newline. */
  function Render(out: seq<string>): string {
    if |out| == 0 then "" else out[0] + "\n" + Render(out[1..])
  }

  /** The file text `_keyring_write` produces for `content`: the written
      lines, each ended by one newline, with nothing after the last. */
  function Serialize(content: string): (text: string)
    ensures Split(text, '\n') == EmitLines(Split(content, '\n')) + [""]
  {
    var out := EmitLines(Split(content, '\n'));
    EmitLinesKeepsOut(Split(content, '\n'), '\n');
    RenderIsJoin(out);
    SplitJoin(out + [""], '\n');
    Render(out)
  }

  // ---------------------------------------------------------------------
  // The write loop, as `_keyring_write` runs it

  /** The loop of `_keyring_write`, appending to the output one input line
      at a time; its result is the serialised text. */
  method WriteLines(content: string) returns (text: string)
    ensures text == Serialize(content)
  {
    var lines := Split(content, '\n');
    text := "";
    var i := 0;
    while i < |lines|
      invariant 0 <= i <= |lines|
      invariant text == Render(EmitLines(lines[..i]))
    {
      RenderEmitNext(lines, i);
      text := WriteLine(text, lines[i]);
      i := i + 1;
    }
    assert lines[..|lines|] == lines;
    assert text == Render(EmitLines(lines));
  }

  /** One pass of the write loop: a blank line is skipped, a header is
      written as it is, anything else after a tab, each with a newline. */
  method WriteLine(text: string, line: string) returns (text': string)
    ensures text' == text + Piece(Strip(line))
  {
    var stripped := Strip(line);
    if |stripped| == 0 {
      return text;
    }
    if stripped[0] == '[' {
      return text + (stripped + "\n");
    }
    return text + ("\t" + stripped + "\n");
  }

  /** What the write loop appends for one stripped line. */
  function Piece(stripped: string): string {
    if |stripped| == 0 then "" else FormatLine(stripped) + "\n"
  }

  /** One more input line adds its written form, if any, to the end of the text. */
  lemma RenderEmitNext(lines: seq<string>, i: int)
    requires 0 <= i < |lines|
    ensures Render(EmitLines(lines[..i + 1])) == Render(EmitLines(lines[..i])) + Piece(Strip(lines[i]))
  {
    var line := lines[i];
    var s := Strip(line);
    assert lines[..i + 1] == lines[..i] + [line];
    EmitLinesAppend(lines[..i], [line]);
    var one := if |s| == 0 then [] else [FormatLine(s)];
    assert EmitLines([line]) == one + EmitLines([]) by {
      assert [line][1..] == [];
    }
    assert one + [] == one;
    RenderAppend(EmitLines(lines[..i]), one);
  }

  // ---------------------------------------------------------------------
  // Order and selection: the output is exactly the non-blank input lines

  /** A line that `_keyring_write` skips: nothing is left once stripped. */
  predicate Blank(line: string) {
    |Strip(line)| == 0
  }

  /** The positions of the input lines that are not blank. */
  ghost function NonBlankSet(lines: seq<string>): set<int> {
    set i | 0 <= i < |lines| && !Blank(lines[i])
  }

  /** Appending a line adds its position to the non-blank positions exactly
      when it is not blank. */
  lemma NonBlankSetSnoc(lines: seq<string>, line: string)
    ensures NonBlankSet(lines + [line])
            == NonBlankSet(lines) + (if Blank(line) then {} else {|lines|})
    ensures |lines| !in NonBlankSet(lines)
  {
    var all := lines + [line];
    forall i | 0 <= i < |lines|
      ensures all[i] == lines[i]
    {
    }
  }

  /** The number of written lines is the number of non-blank input lines. */
  lemma {:induction false} EmitLinesCount(lines: seq<string>)
    ensures |EmitLines(lines)| == |NonBlankSet(lines)|
    decreases |lines|
  {
    if |lines| > 0 {
      var init := lines[..|lines| - 1];
      var last := lines[|lines| - 1];
      assert lines == init + [last];
      EmitLinesCount(init);
      EmitLinesAppend(init, [last]);
      NonBlankSetSnoc(init, last);
      assert [last][1..] == [];
    }
  }

  /** Each non-blank input line is written, formatted, at the position given
      by the number of non-blank lines before it. With `EmitLinesCount` this
      pins the output down: it is the non-blank lines, in input order, each
      written once, and nothing else. */
  lemma EmitLinesPlacement(lines: seq<string>, i: int)
    requires 0 <= i < |lines| && !Blank(lines[i])
    ensures |NonBlankSet(lines[..i])| < |EmitLines(lines)|
    ensures EmitLines(lines)[|NonBlankSet(lines[..i])|] == FormatLine(Strip(lines[i]))
  {
    var before := lines[..i];
    var after := lines[i + 1..];
    assert lines == before + ([lines[i]] + after);
    EmitLinesAppend(before, [lines[i]] + after);
    assert ([lines[i]] + after)[1..] == after;
    EmitLinesCount(before);
  }

  // ---------------------------------------------------------------------
  // Lines, newlines and the fixed point

  lemma {:induction false} EmitLinesAppend(a: seq<string>, b: seq<string>)
    ensures EmitLines(a + b) == EmitLines(a) + EmitLines(b)
  {
    if |a| > 0 {
      var h, t := a[0], a[1..];
      assert (a + b)[1..] == t + b;
      assert EmitLines(a + b) == Emitted(h) + EmitLines(t + b);
      EmitLinesAppend(t, b);
    } else {
      assert a + b == b;
    }
  }

  lemma {:induction false} RenderAppend(a: seq<string>, b: seq<string>)
    ensures Render(a + b) == Render(a) + Render(b)
  {
    if |a| > 0 {
      RenderAppend(a[1..], b);
      assert (a + b)[1..] == a[1..] + b;
    } else {
      assert a + b == b;
    }
  }

  /** Rendering is joining with newlines after appending an empty last piece:
      every written line, the last one included, ends with a newline. */
  lemma {:induction false} RenderIsJoin(out: seq<string>)
    ensures Render(out) == Join(out + [""], '\n')
  {
    if |out| > 0 {
      RenderIsJoin(out[1..]);
      assert (out + [""])[1..] == out[1..] + [""];
    }
  }

  /** Written lines contain no character other than a tab that the input
      lines lack; in particular no newline. */
  lemma {:induction false} EmitLinesKeepsOut(lines: seq<string>, x: char)
    requires x != '\t'
    requires forall k :: 0 <= k < |lines| ==> x !in lines[k]
    ensures forall k :: 0 <= k < |EmitLines(lines)| ==> x !in EmitLines(lines)[k]
  {
    if |lines| > 0 {
      EmitLinesKeepsOut(lines[1..], x);
      StripKeepsOut(lines[0], x);
    }
  }

  /** Rendering adds only newlines. */
  lemma {:induction false} RenderKeepsOut(out: seq<string>, x: char)
    requires x != '\n'
    requires forall k :: 0 <= k < |out| ==> x !in out[k]
    ensures x !in Render(out)
  {
    if |out| > 0 {
      RenderKeepsOut(out[1..], x);
    }
  }

  /** Serialising adds only tabs and newlines to the characters of the content. */
  lemma SerializeKeepsOut(content: string, x: char)
    requires x != '\t' && x != '\n' && x !in content
    ensures x !in Serialize(content)
  {
    var lines := Split(content, '\n');
    JoinKeepsOut(lines, '\n', x);
    EmitLinesKeepsOut(lines, x);
    RenderKeepsOut(EmitLines(lines), x);
  }

  /** A written line, read back, strips to the text it was made from and is
      written again unchanged. */
  lemma EmittedLineStable(line: string)
    requires IsEmitted(line)
    ensures |Strip(line)| > 0 && FormatLine(Strip(line)) == line
  {
    if line[0] == '[' {
      StripStable(line);
    } else {
      assert line == ['\t'] + line[1..];
      StripSkipsLeadingSpace('\t', line[1..]);
      StripStable(line[1..]);
    }
  }

  /** Lines already in written form pass through the line rules unchanged. */
  lemma {:induction false} EmitLinesFixpoint(out: seq<string>)
    requires forall k :: 0 <= k < |out| ==> IsEmitted(out[k])
    ensures EmitLines(out) == out
  {
    if |out| > 0 {
      EmittedLineStable(out[0]);
      EmitLinesFixpoint(out[1..]);
    }
  }

  /** Serialising already serialised text gives the same text. */
  lemma SerializeIdempotent(content: string)
    ensures Serialize(Serialize(content)) == Serialize(content)
  {
    var out := EmitLines(Split(content, '\n'));
    var text := Render(out);
    assert text == Serialize(content);
    assert Split(text, '\n') == out + [""];
    EmitLinesAppend(out, [""]);
    assert EmitLines([""]) == [] by {
      assert [""][1..] == [];
    }
    assert out + [] == out;
    EmitLinesForm(Split(content, '\n'));
    EmitLinesFixpoint(out);
    assert EmitLines(out + [""]) == out;
  }

  /** A header, an indented key line, a blank line and a capability line
      with stray spaces serialise to the header and two tab-indented lines. */
  lemma SerializeShape(header: string, key: string, caps: string)
    requires |header| > 0 && header[0] == '[' && IsStripped(header)
    requires |key| > 0 && key[0] != '[' && IsStripped(key)
    requires |caps| > 0 && caps[0] != '[' && IsStripped(caps)
    requires '\n' !in header && '\n' !in key && '\n' !in caps
    ensures Serialize(Join([header, "  " + key + " ", "", " " + caps, ""], '\n'))
         == Render([header, "\t" + key, "\t" + caps])
  {
    var lines := [header, "  " + key + " ", "", " " + caps, ""];
    assert Split(Join(lines, '\n'), '\n') == lines by {
      SplitJoin(lines, '\n');
    }
    ShapeLines(header, key, caps);
  }

  /** The line rules applied to the lines of `SerializeShape`. */
  lemma ShapeLines(header: string, key: string, caps: string)
    requires |header| > 0 && header[0] == '[' && IsStripped(header)
    requires |key| > 0 && key[0] != '[' && IsStripped(key)
    requires |caps| > 0 && caps[0] != '[' && IsStripped(caps)
    ensures EmitLines([header, "  " + key + " ", "", " " + caps, ""]) == [header, "\t" + key, "\t" + caps]
  {
    var t4: seq<string> := [""];
    var t3 := [" " + caps] + t4;
    var t2 := [""] + t3;
    var t1 := ["  " + key + " "] + t2;
    assert [header, "  " + key + " ", "", " " + caps, ""] == [header] + t1;
    StripPadded(key);
    StripIndented(caps);
    StripStable(header);
    EmitLinesCons("", []);
    EmitLinesCons(" " + caps, t4);
    EmitLinesCons("", t3);
    EmitLinesCons("  " + key + " ", t2);
    EmitLinesCons(header, t1);
  }

  lemma StripPadded(key: string)
    requires IsStripped(key)
    ensures Strip("  " + key + " ") == key
  {
    StripStable(key);
    assert "  " + key + " " == [' '] + ([' '] + (key + " "));
    StripSkipsLeadingSpace(' ', [' '] + (key + " "));
    StripSkipsLeadingSpace(' ', key + " ");
    assert (key + " ")[..|key|] == key;
  }

  lemma StripIndented(caps: string)
    requires IsStripped(caps)
    ensures Strip(" " + caps) == caps
  {
    StripStable(caps);
    assert " " + caps == [' '] + caps;
    StripSkipsLeadingSpace(' ', caps);
  }

  /** The worked case itself: the blank line is dropped, surrounding
      whitespace is trimmed and the non-header lines are tab-indented. */
  lemma SerializeExample()
    ensures Serialize("[mon.]\n  key = AQ== \n\n caps mon = r\n")
         == "[mon.]\n\tkey = AQ==\n\tcaps mon = r\n"
  {
    var header, key, caps := "[mon.]", "key = AQ==", "caps mon = r";
    SerializeShape(header, key, caps);
    var l1, l3 := "  " + key + " ", " " + caps;
    JoinCons(l3, [""], '\n');
    JoinCons("", [l3, ""], '\n');
    JoinCons(l1, ["", l3, ""], '\n');
    JoinCons(header, [l1, "", l3, ""], '\n');
    ExampleInput();
    var k1, c1 := "\t" + key, "\t" + caps;
    assert Render([c1]) == c1 + "\n" + "";
    assert Render([k1, c1]) == k1 + "\n" + Render([c1]);
    assert Render([header, k1, c1]) == header + "\n" + Render([k1, c1]);
    ExampleOutput();
  }

  lemma JoinCons(x: string, rest: seq<string>, sep: char)
    requires |rest| >= 1
    ensures Join([x] + rest, sep) == x + [sep] + Join(rest, sep)
  {
    assert ([x] + rest)[1..] == rest;
  }

  lemma ExampleInput()
    ensures "[mon.]" + ['\n'] + ("  " + "key = AQ==" + " " + ['\n']
              + ("" + ['\n'] + (" " + "caps mon = r" + ['\n'] + "")))
         == "[mon.]\n  key = AQ== \n\n caps mon = r\n"
  {
  }

  lemma ExampleOutput()
    ensures "[mon.]" + "\n" + ("\t" + "key = AQ==" + "\n" + ("\t" + "caps mon = r" + "\n" + ""))
         == "[mon.]\n\tkey = AQ==\n\tcaps mon = r\n"
  {
  }

  lemma EmitLinesCons(line: string, rest: seq<string>)
    ensures EmitLines([line] + rest)
         == (if Blank(line) then [] else [FormatLine(Strip(line))]) + EmitLines(rest)
  {
    assert ([line] + rest)[1..] == rest;
  }
}
