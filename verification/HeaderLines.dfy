/** Header sections as lists of lines: which headers they hold, and where their content stands. */
module HeaderLines {
  import opened CStrings
  import opened HeaderText
  import opened Framing

  // ---------------------------------------------------------------- lines

  /** A header, with blanks around its name and its value, or a line without a colon. */
  datatype Line =
    | Field(before: string, name: string, gap: string, lead: string, value: string, after: string)
    | Bare(before: string, name: string, after: string)

  predicate Blanks(w: string) {
    forall i | 0 <= i < |w| :: w[i] == ' ' || w[i] == '\t' || w[i] == '\r'
  }

  /** Text that holds no blank at either end, and neither a line's end nor a terminator. */
  predicate Trimmed(s: string) {
    && NulFree(s) && '\n' !in s
    && (s != "" ==> s[0] !in {' ', '\t', '\r'} && s[|s| - 1] !in {' ', '\t', '\r'})
  }

  predicate WellLine(l: Line) {
    && Blanks(l.before) && Blanks(l.after) && Trimmed(l.name) && ':' !in l.name
    && (l.Field? ==> Blanks(l.gap) && Blanks(l.lead) && Trimmed(l.value))
  }

  function LineText(l: Line): string {
    match l
    case Field(before, name, gap, lead, value, after) => before + ((name + gap) + (":" + (lead + value))) + after
    case Bare(before, name, after) => before + name + after
  }

  function Section(lines: seq<Line>): string {
    if lines == [] then "" else LineText(lines[0]) + if |lines| > 1 then "\n" + Section(lines[1..]) else ""
  }

  /** The line is a header of that name; an empty line is none. */
  predicate Names(l: Line, name: string) {
    l.name == name && (l.Bare? ==> name != "")
  }

  function ValueOf(l: Line): string {
    if l.Field? then l.value else ""
  }

  /** Line `i` is the first header of that name. */
  predicate First(lines: seq<Line>, i: int, name: string) {
    0 <= i < |lines| && Names(lines[i], name) && forall j | 0 <= j < i :: !Names(lines[j], name)
  }

  // ---------------------------------------------------------------- trimming

  lemma {:induction false} LTrimBlanks(w: string, s: string)
    requires Blanks(w)
    ensures LTrim(w + s) == LTrim(s)
  {
    if w == "" {
      assert w + s == s;
    } else {
      assert (w + s)[1..] == w[1..] + s;
      LTrimBlanks(w[1..], s);
    }
  }

  lemma {:induction false} RTrimBlanks(s: string, w: string)
    requires Blanks(w)
    ensures RTrim(s + w) == RTrim(s)
    decreases |w|
  {
    if w == "" {
      assert s + w == s;
    } else {
      var n := |w| - 1;
      assert (s + w)[..|s + w| - 1] == s + w[..n];
      RTrimBlanks(s, w[..n]);
    }
  }

  lemma TrimAround(w: string, s: string, x: string)
    requires Blanks(w) && Blanks(x) && Trimmed(s)
    ensures Trim(w + s + x) == s
  {
    Assoc(w, s, x);
    LTrimBlanks(w, s + x);
    if s == "" {
      assert s + x == x && x + "" == x;
      LTrimBlanks(x, "");
    } else {
      assert s[0] in s && s[|s| - 1] in s;
      assert LTrim(s + x) == s + x;
      RTrimBlanks(s, x);
    }
  }

  /** What Trim leaves of a header line: a name with the gap behind it, and a value with blanks in front. */
  function Core(l: Line): string
    requires l.Field?
  {
    (if l.name == "" then "" else l.name + l.gap) + ":" + (if l.value == "" then "" else l.lead + l.value)
  }

  lemma TrimFront(l: Line, s: string)
    requires WellLine(l) && l.Field?
    ensures LTrim(l.before + ((l.name + l.gap) + (":" + s))) ==
      (if l.name == "" then "" else l.name + l.gap) + (":" + s)
  {
    var t := ":" + s;
    LTrimBlanks(l.before, (l.name + l.gap) + t);
    if l.name == "" {
      assert l.name + l.gap == l.gap;
      LTrimBlanks(l.gap, t);
      assert "" + t == t;
    } else {
      LTrimNothing((l.name + l.gap) + t);
    }
  }

  lemma LTrimNothing(s: string)
    requires s != "" && !IsBlank(s[0])
    ensures LTrim(s) == s
  {
  }

  lemma TrimBack(s: string, lead: string, value: string, after: string)
    requires Blanks(lead) && Blanks(after) && Trimmed(value)
    ensures RTrim(s + ":" + (lead + value) + after) == s + ":" + if value == "" then "" else lead + value
  {
    RTrimBlanks(s + ":" + (lead + value), after);
    if value == "" {
      assert lead + value == lead;
      RTrimBlanks(s + ":", lead);
      assert s + ":" + "" == s + ":";
    } else {
      assert value[|value| - 1] in value;
    }
  }

  lemma TrimLine(l: Line)
    requires WellLine(l) && l.Field?
    ensures Trim(LineText(l)) == Core(l)
  {
    hide LTrim, RTrim;
    var head := if l.name == "" then "" else l.name + l.gap;
    var tail := (l.lead + l.value) + l.after;
    Assoc(l.before, (l.name + l.gap) + (":" + (l.lead + l.value)), l.after);
    Assoc(l.name + l.gap, ":" + (l.lead + l.value), l.after);
    Assoc(":", l.lead + l.value, l.after);
    TrimFront(l, tail);
    Assoc(head, ":", tail);
    Assoc(head + ":", l.lead + l.value, l.after);
    TrimBack(head, l.lead, l.value, l.after);
  }

  lemma CutAt(head: string, tail: string)
    requires ':' !in head
    ensures BeforeFirst(head + ":" + tail, ':') == head && AfterFirst(head + ":" + tail, ':') == tail
  {
    var s := head + ":" + tail;
    Assoc(head, ":", tail);
    FindBehind(head, ":" + tail, ':');
    assert Find(":" + tail, ':') == 0;
    hide Find;
    assert s[..|head|] == head && s[|head| + 1..] == tail;
  }

  lemma NameBack(name: string, gap: string)
    requires Trimmed(name) && Blanks(gap)
    ensures Trim(if name == "" then "" else name + gap) == name
  {
    TrimAround("", name, gap);
    assert "" + name + gap == name + gap;
    TrimAround("", "", "");
    assert "" + "" + "" == "";
  }

  lemma ValueBack(lead: string, value: string)
    requires Trimmed(value) && Blanks(lead)
    ensures Trim(if value == "" then "" else lead + value) == value
  {
    TrimAround(lead, value, "");
    assert lead + value + "" == lead + value;
    TrimAround("", "", "");
    assert "" + "" + "" == "";
  }

  lemma CutCore(l: Line)
    requires WellLine(l) && l.Field?
    ensures Trim(BeforeFirst(Core(l), ':')) == l.name && Trim(AfterFirst(Core(l), ':')) == l.value
  {
    var head := if l.name == "" then "" else l.name + l.gap;
    var tail := if l.value == "" then "" else l.lead + l.value;
    assert ':' !in head;
    hide Trim, BeforeFirst, AfterFirst, Trimmed, Blanks;
    CutAt(head, tail);
    NameBack(l.name, l.gap);
    ValueBack(l.lead, l.value);
  }

  lemma CutBare(name: string)
    requires Trimmed(name) && ':' !in name
    ensures Trim(BeforeFirst(name, ':')) == name && Trim(AfterFirst(name, ':')) == ""
  {
    FindBehind(name, "", ':');
    assert name + "" == name && name[..|name|] == name;
    hide Find;
    NameBack(name, "");
    NameBack("", "");
  }

  /** What Trim leaves of a line. */
  function Header(l: Line): string {
    if l.Field? then Core(l) else l.name
  }

  lemma HeaderIsCut(l: Line)
    requires WellLine(l) && !(l.Bare? && l.name == "")
    ensures Trim(LineText(l)) == Header(l) == Trim(Header(l)) && Header(l) != ""
    ensures Trim(BeforeFirst(Header(l), ':')) == l.name && Trim(AfterFirst(Header(l), ':')) == ValueOf(l)
  {
    hide Trim, BeforeFirst, AfterFirst, Core, Trimmed;
    if l.Field? {
      TrimLine(l);
      CutCore(l);
      TrimCore(l);
    } else {
      TrimAround(l.before, l.name, l.after);
      CutBare(l.name);
      NameBack(l.name, "");
      assert l.name + "" == l.name;
    }
  }

  /** One line adds its header to those before it. */
  lemma LineAdds(l: Line, headers: Headers, more: seq<string>)
    requires WellLine(l) && !(l.Bare? && l.name == "")
    ensures Trim(LineText(l)) != ""
    ensures AddLine(headers, Trim(LineText(l)), more) ==
      AddLines(if l.name in headers then headers else headers[l.name := ValueOf(l)], more)
  {
    hide Trim, BeforeFirst, AfterFirst, Header, LineText, AddLines;
    HeaderIsCut(l);
  }

  /** Trimming twice changes nothing. */
  lemma TrimCore(l: Line)
    requires WellLine(l) && l.Field?
    ensures Core(l) != "" && Trim(Core(l)) == Core(l)
  {
    var c := Core(l);
    if l.name != "" {
      assert l.name[0] in l.name;
    }
    if l.value != "" {
      assert l.value[|l.value| - 1] in l.value;
    }
    assert c[0] == (if l.name == "" then ':' else l.name[0]);
    assert c[|c| - 1] == (if l.value == "" then ':' else l.value[|l.value| - 1]);
  }

  // ---------------------------------------------------------------- the headers of a section

  lemma LineIsWhole(l: Line)
    requires WellLine(l)
    ensures NulFree(LineText(l)) && '\n' !in LineText(l)
  {
  }

  lemma {:induction false} SectionIsWhole(lines: seq<Line>)
    requires forall l | l in lines :: WellLine(l)
    ensures NulFree(Section(lines))
  {
    if lines != [] {
      LineIsWhole(lines[0]);
      SectionIsWhole(lines[1..]);
    }
  }

  lemma SplitAtEnd(text: string, more: string)
    requires '\n' !in text
    ensures var s := text + ("\n" + more); BeforeFirst(s, '\n') == text && AfterFirst(s, '\n') == more
    ensures BeforeFirst(text, '\n') == text && AfterFirst(text, '\n') == ""
  {
    var s := text + ("\n" + more);
    FindBehind(text, "\n" + more, '\n');
    assert Find("\n" + more, '\n') == 0;
    FindBehind(text, "", '\n');
    hide Find;
    assert text + "" == text && text[..|text|] == text;
    assert s[..|text|] == text && s[|text| + 1..] == more;
  }

  lemma SplitLine(text: string, more: string)
    requires '\n' !in text
    ensures var token := Trim(text);
      && Split(text, '\n') == (if token == "" then [] else [token])
      && Split(text + ("\n" + more), '\n') == (if token == "" then [] else [token]) + Split(more, '\n')
  {
    SplitAtEnd(text, more);
    hide BeforeFirst, AfterFirst, Trim;
    assert Split("", '\n') == [];
    assert Trim("") == "" by {
      TrimAround("", "", "");
    }
  }

  /** `table` is `headers` with the headers of `lines`, of each name not there yet the first. */
  ghost predicate IsTable(headers: Headers, lines: seq<Line>, table: Headers) {
    && (forall name | name in headers :: name in table && table[name] == headers[name])
    && (forall name, i | First(lines, i, name) && name !in headers ::
          name in table && table[name] == ValueOf(lines[i]))
    && (forall name | name in table && name !in headers :: exists i :: First(lines, i, name))
  }

  lemma FirstBehind(lines: seq<Line>, i: int, name: string)
    requires lines != [] && i >= 0 && !Names(lines[0], name)
    ensures First(lines[1..], i, name) <==> First(lines, i + 1, name)
  {
    if First(lines[1..], i, name) {
      forall j | 0 <= j < i + 1 ensures !Names(lines[j], name) {
        assert j > 0 ==> lines[j] == lines[1..][j - 1];
      }
    }
    if First(lines, i + 1, name) {
      assert forall j | 0 <= j < i :: lines[1..][j] == lines[j + 1];
    }
  }

  lemma TableGrows(headers: Headers, lines: seq<Line>, table: Headers)
    requires lines != []
    requires var l := lines[0];
      IsTable(if (l.Bare? && l.name == "") || l.name in headers then headers else headers[l.name := ValueOf(l)],
              lines[1..], table)
    ensures IsTable(headers, lines, table)
  {
    var l := lines[0];
    var next := if (l.Bare? && l.name == "") || l.name in headers then headers else headers[l.name := ValueOf(l)];
    forall name, i | First(lines, i, name) && name !in headers
      ensures name in table && table[name] == ValueOf(lines[i])
    {
      if i > 0 {
        FirstBehind(lines, i - 1, name);
      }
    }
    forall name | name in table && name !in headers ensures exists i :: First(lines, i, name) {
      if Names(l, name) {
        assert First(lines, 0, name);
      } else {
        var i :| First(lines[1..], i, name);
        FirstBehind(lines, i, name);
        assert First(lines, i + 1, name);
      }
    }
  }

  lemma NoLines(headers: Headers)
    ensures IsTable(headers, [], headers) && Split(Section([]), '\n') == []
  {
  }

  lemma SectionSplits(lines: seq<Line>)
    requires lines != [] && WellLine(lines[0])
    ensures var token := Trim(LineText(lines[0]));
      Split(Section(lines), '\n') == (if token == "" then [] else [token]) + Split(Section(lines[1..]), '\n')
  {
    var text, more := LineText(lines[0]), Section(lines[1..]);
    LineIsWhole(lines[0]);
    SplitLine(text, more);
    hide Trim, Split, LineText;
    if |lines| == 1 {
      NoLines(map[]);
      assert lines[1..] == [] && text + "" == text;
      var tokens := Split(text, '\n');
      assert tokens + [] == tokens;
    }
  }

  lemma {:induction false} LinesAreAdded(headers: Headers, lines: seq<Line>)
    requires forall l | l in lines :: WellLine(l)
    ensures IsTable(headers, lines, AddLines(headers, Split(Section(lines), '\n')))
    decreases |lines|
  {
    hide IsTable, Trim, Split, Section;
    if lines == [] {
      NoLines(headers);
    } else {
      var l, more := lines[0], Split(Section(lines[1..]), '\n');
      var next := if (l.Bare? && l.name == "") || l.name in headers then headers else headers[l.name := ValueOf(l)];
      LinesAreAdded(next, lines[1..]);
      SectionSplits(lines);
      if l.Bare? && l.name == "" {
        TrimAround(l.before, l.name, l.after);
        assert [] + more == more;
      } else {
        LineAdds(l, headers, more);
        assert ([Trim(LineText(l))] + more)[1..] == more;
      }
      TableGrows(headers, lines, AddLines(next, more));
    }
  }

  /** The headers of a section are the names that occur in it, each with the value of its first line. */
  lemma HeadersAreFirst(lines: seq<Line>)
    requires forall l | l in lines :: WellLine(l)
    ensures var headers := HeadersOf(Section(lines));
      && (forall name, i | First(lines, i, name) :: name in headers && headers[name] == ValueOf(lines[i]))
      && (forall name | name in headers :: exists i :: First(lines, i, name))
  {
    SectionIsWhole(lines);
    NulFreeIsWhole(Section(lines));
    LinesAreAdded(map[], lines);
  }

  // ---------------------------------------------------------------- the section in the buffer

  /** The separator stands at `i`. */
  predicate SeparatorAt(s: string, i: int) {
    0 <= i && i + 4 <= |s| && s[i..i + 4] == "\r\n\r\n"
  }

  /** The separator is looked for from the front, and found if there is one. */
  lemma {:induction false} SeparatorIsFirst(s: string)
    ensures FindSeparator(s) >= 0 ==> SeparatorAt(s, FindSeparator(s))
    ensures forall j | SeparatorAt(s, j) :: 0 <= FindSeparator(s) <= j
  {
    if |s| >= 4 {
      var t := s[1..];
      SeparatorIsFirst(t);
      forall j | SeparatorAt(s, j) ensures 0 <= FindSeparator(s) <= j {
        if j > 0 {
          assert t[j - 1..j + 3] == s[j..j + 4];
          assert SeparatorAt(t, j - 1);
        }
      }
      var i := FindSeparator(t);
      if i >= 0 {
        assert s[i + 1..i + 5] == t[i..i + 4];
      }
    }
  }

  /** A line that is not empty and has a carriage return at its end at most. */
  predicate Inner(text: string) {
    text != "" && text[0] != '\r' && forall i | 0 <= i < |text| - 1 :: text[i] != '\r'
  }

  /** The next line, or the separator. */
  predicate Continues(s: string) {
    SEPARATOR <= s || (|s| > 1 && s[0] == '\n' && s[1] != '\r')
  }

  lemma NotHere(c: char, s: string)
    requires if c == '\r' then s != "" && (s[0] != '\n' || (|s| > 1 && s[1] != '\r')) else true
    requires |s| >= 3 && FindSeparator(s) >= 0
    ensures FindSeparator([c] + s) == 1 + FindSeparator(s)
  {
    var t := [c] + s;
    assert t[1..] == s && t[..4][0] == c && t[..4][1] == s[0] && t[..4][2] == s[1];
  }

  lemma ContinuesStart(s: string)
    requires Continues(s)
    ensures s != "" && (s[0] != '\n' || (|s| > 1 && s[1] != '\r'))
  {
    if SEPARATOR <= s {
      assert s[..4] == SEPARATOR;
    }
  }

  lemma {:induction false} NoneInside(text: string, s: string)
    requires forall i | 0 <= i < |text| - 1 :: text[i] != '\r'
    requires Continues(s) && FindSeparator(s) >= 0
    ensures FindSeparator(text + s) == |text| + FindSeparator(s)
    decreases |text|
  {
    if text == "" {
      assert text + s == s;
    } else {
      assert text + s == [text[0]] + (text[1..] + s);
      NoneInside(text[1..], s);
      ContinuesStart(s);
      assert |text| == 1 ==> text[1..] + s == s;
      NotHere(text[0], text[1..] + s);
    }
  }

  lemma {:induction false} SectionEnds(lines: seq<Line>, content: string)
    requires forall l | l in lines :: Inner(LineText(l))
    ensures FindSeparator(Section(lines) + (SEPARATOR + content)) == |Section(lines)|
  {
    var tail := SEPARATOR + content;
    assert tail[..4] == SEPARATOR;
    if lines == [] {
      assert Section(lines) + tail == tail;
    } else {
      var text, more := LineText(lines[0]), Section(lines[1..]);
      if |lines| == 1 {
        assert Section(lines) == text + "" == text;
        NoneInside(text, tail);
      } else {
        SectionEnds(lines[1..], content);
        var next := "\n" + (more + tail);
        Assoc(text, "\n" + more, tail);
        Assoc("\n", more, tail);
        assert next[1..] == more + tail;
        assert next[..4][0] == '\n';
        SectionStart(lines[1..]);
        NoneInside(text, next);
      }
    }
  }

  lemma SectionStart(lines: seq<Line>)
    requires lines != [] && Inner(LineText(lines[0]))
    ensures Section(lines) != "" && Section(lines)[0] != '\r'
  {
  }

  /** Lines that a section may be made of. */
  predicate WellSection(lines: seq<Line>) {
    forall l | l in lines :: WellLine(l) && Inner(LineText(l))
  }

  lemma LookBehindSection(lines: seq<Line>, content: string)
    requires WellSection(lines)
    ensures var s := Section(lines) + (SEPARATOR + content);
      var size := |Section(lines)| + 4;
      && LookAt(s) == LookBehind(s, HeadersOf(Section(lines)), size)
      && s[size..] == content && |s| == size + |content|
  {
    SectionEnds(lines, content);
    var s := Section(lines) + (SEPARATOR + content);
    assert s[..|Section(lines)|] == Section(lines);
  }

  lemma LengthDecides(s: string, headers: Headers, size: nat)
    requires 4 <= size <= |s| && "Content-Length" in headers
    ensures var len, content := Atol(headers["Content-Length"]), s[size..];
      LookBehind(s, headers, size) ==
        if len <= 0 then BadLength
        else if len > |content| then Wait
        else Frame(content[..len], content[len..])
  {
    var len := Atol(headers["Content-Length"]);
    hide Atol;
    if 0 < len && size + len <= |s| {
      assert s[size..size + len] == s[size..][..len] && s[size + len..] == s[size..][len..];
    }
  }

  /** What one look finds behind any header section, by the first Content-Length in it. */
  lemma SectionIsRead(lines: seq<Line>, i: int, content: string)
    requires WellSection(lines) && First(lines, i, "Content-Length")
    ensures var len := Atol(ValueOf(lines[i]));
      LookAt(Section(lines) + (SEPARATOR + content)) ==
        if len <= 0 then BadLength
        else if len > |content| then Wait
        else Frame(content[..len], content[len..])
  {
    var headers := HeadersOf(Section(lines));
    HeadersAreFirst(lines);
    assert "Content-Length" in headers && headers["Content-Length"] == ValueOf(lines[i]);
    hide *;
    LookBehindSection(lines, content);
    LengthDecides(Section(lines) + (SEPARATOR + content), headers, |Section(lines)| + 4);
  }

  lemma SectionWithoutLength(lines: seq<Line>, content: string)
    requires WellSection(lines) && forall i :: !First(lines, i, "Content-Length")
    ensures LookAt(Section(lines) + (SEPARATOR + content)) == NoLength(|Section(lines)| + 4)
  {
    LookBehindSection(lines, content);
    HeadersAreFirst(lines);
  }

  /** A frame is found whole wherever its length stands among other headers. */
  lemma FrameIsFound(lines: seq<Line>, i: int, payload: string, rest: string)
    requires WellSection(lines) && First(lines, i, "Content-Length") && ValueOf(lines[i]) == Digits(|payload|)
    requires payload != ""
    ensures LookAt(Section(lines) + (SEPARATOR + (payload + rest))) == Frame(payload, rest)
  {
    AtolOfDigits(|payload|);
    SectionIsRead(lines, i, payload + rest);
  }
}
