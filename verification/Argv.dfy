/** The command-line tokenizer and quoter of dap/StringUtils.cpp. */
module Argv {
  import opened CStrings

  // ---------------------------------------------------------------- the grammar

  predicate IsBlank(c: char) {
    c == ' ' || c == '\t'
  }

  predicate IsQuote(c: char) {
    c == QUOTE || c == '\'' || c == '`'
  }

  function Push(token: string): seq<string> {
    if token == "" then [] else [token]
  }

  /** What a backslash and the character behind it stand for between quotes `q`. */
  function EscapePair(c: char, q: char): string {
    if c == q then [q] else [BACKSLASH, c]
  }

  /** The text behind an opening quote: what it adds to the token, the closing quote
      included, and the rest.  A quotation that is never closed ends with the text. */
  function Quotation(s: string, q: char): (r: (string, string))
    ensures |r.1| <= |s|
    decreases |s|
  {
    if s == "" then ("", "")
    else if s[0] == q then ([q], s[1..])
    else if s[0] != BACKSLASH then
      var (body, rest) := Quotation(s[1..], q);
      ([s[0]] + body, rest)
    else if |s| == 1 then ("", "")
    else
      var (body, rest) := Quotation(s[2..], q);
      (EscapePair(s[1], q) + body, rest)
  }

  /** The tokens of `s` when `token` has been read of the first one. */
  function Tokens(s: string, token: string): seq<string>
    decreases |s|
  {
    if s == "" then Push(token)
    else if IsBlank(s[0]) then Push(token) + Tokens(s[1..], "")
    else if IsQuote(s[0]) then
      var (body, rest) := Quotation(s[1..], s[0]);
      Tokens(rest, token + [s[0]] + body)
    else Tokens(s[1..], token + [s[0]])
  }

  // ---------------------------------------------------------------- the state machine

  datatype State = Normal | DoubleQuote | SingleQuote | Escape | Backtick

  predicate InQuotes(state: State) {
    state.DoubleQuote? || state.SingleQuote? || state.Backtick?
  }

  function Mark(state: State): char
    requires InQuotes(state)
  {
    match state
    case DoubleQuote => QUOTE
    case SingleQuote => '\''
    case Backtick => '`'
  }

  /** An escape has saved the quotation it stands in; every other state has saved `Normal`. */
  predicate Nested(state: State, saved: State) {
    if state.Escape? then InQuotes(saved) else saved.Normal?
  }

  /** The tokens the machine will have found when it has read `s` as well. */
  ghost function Resume(state: State, saved: State, tokens: seq<string>, current: string, s: string): seq<string>
    requires Nested(state, saved)
  {
    match state
    case Normal => tokens + Tokens(s, current)
    case Escape =>
      if s == "" then tokens + Push(current)
      else
        var (body, rest) := Quotation(s[1..], Mark(saved));
        tokens + Tokens(rest, current + EscapePair(s[0], Mark(saved)) + body)
    case _ =>
      var (body, rest) := Quotation(s, Mark(state));
      tokens + Tokens(rest, current + body)
  }

  lemma Start(str: string)
    ensures Resume(Normal, Normal, [], "", str[0..]) == Tokens(str, "")
  {
    assert str[0..] == str;
  }

  lemma Stop(state: State, saved: State, tokens: seq<string>, current: string)
    requires Nested(state, saved)
    ensures Resume(state, saved, tokens, current, "") == tokens + Push(current)
  {
    assert current + "" == current;
  }

  lemma StepNormal(tokens: seq<string>, current: string, s: string)
    requires s != ""
    ensures IsBlank(s[0]) ==>
      Resume(Normal, Normal, tokens, current, s) == Resume(Normal, Normal, tokens + Push(current), "", s[1..])
    ensures !IsBlank(s[0]) && !IsQuote(s[0]) ==>
      Resume(Normal, Normal, tokens, current, s) == Resume(Normal, Normal, tokens, current + [s[0]], s[1..])
    ensures forall state | InQuotes(state) && Mark(state) == s[0] ::
      Resume(Normal, Normal, tokens, current, s) == Resume(state, Normal, tokens, current + [s[0]], s[1..])
  {
  }

  lemma StepQuoted(state: State, tokens: seq<string>, current: string, s: string)
    requires s != "" && InQuotes(state)
    ensures s[0] == Mark(state) ==>
      Resume(state, Normal, tokens, current, s) == Resume(Normal, Normal, tokens, current + [s[0]], s[1..])
    ensures s[0] == BACKSLASH ==>
      Resume(state, Normal, tokens, current, s) == Resume(Escape, state, tokens, current, s[1..])
    ensures s[0] != Mark(state) && s[0] != BACKSLASH ==>
      Resume(state, Normal, tokens, current, s) == Resume(state, Normal, tokens, current + [s[0]], s[1..])
  {
    if s[0] == BACKSLASH {
      if |s| == 1 {
        assert current + "" == current;
      } else {
        var (body, _) := Quotation(s[2..], Mark(state));
        assert s[1..][1..] == s[2..];
        Assoc(current, EscapePair(s[1], Mark(state)), body);
      }
    } else if s[0] != Mark(state) {
      var (body, _) := Quotation(s[1..], Mark(state));
      Assoc(current, [s[0]], body);
    }
  }

  lemma StepEscape(saved: State, tokens: seq<string>, current: string, s: string)
    requires s != "" && InQuotes(saved)
    ensures Resume(Escape, saved, tokens, current, s) ==
      Resume(saved, Normal, tokens, current + EscapePair(s[0], Mark(saved)), s[1..])
  {
  }

  /** The loop of BuildArgv. */
  method Tokenize(str: string) returns (tokens: seq<string>)
    ensures tokens == Tokens(str, "")
  {
    hide Resume, Tokens;
    Start(str);
    tokens := [];
    var state, saved, current := Normal, Normal, "";
    for i := 0 to |str|
      invariant Nested(state, saved)
      invariant Resume(state, saved, tokens, current, str[i..]) == Tokens(str, "")
    {
      var c := str[i];
      ghost var s := str[i..];
      assert s[0] == c && s[1..] == str[i + 1..];
      match state
      case Normal =>
        StepNormal(tokens, current, s);
        match c {
          case ' ' | '\t' =>
            if current != "" {
              tokens := tokens + [current];
              current := "";
            } else {
              assert tokens + [] == tokens;
            }
          case '\'' =>
            saved, state := state, SingleQuote;
            current := current + [c];
          case '\"' =>
            saved, state := state, DoubleQuote;
            current := current + [c];
          case '`' =>
            saved, state := state, Backtick;
            current := current + [c];
          case _ =>
            current := current + [c];
        }
      case Escape =>
        StepEscape(saved, tokens, current, s);
        if saved == DoubleQuote {
          current := current + if c == '\"' then "\"" else [BACKSLASH, c];
        } else if saved == Backtick {
          current := current + if c == '`' then "`" else [BACKSLASH, c];
        } else {
          current := current + if c == '\'' then "'" else [BACKSLASH, c];
        }
        state, saved := saved, Normal;
      case DoubleQuote =>
        StepQuoted(state, tokens, current, s);
        match c {
          case '\\' =>
            saved, state := state, Escape;
          case '\"' =>
            current := current + [c];
            state, saved := saved, Normal;
          case _ =>
            current := current + [c];
        }
      case SingleQuote =>
        StepQuoted(state, tokens, current, s);
        match c {
          case '\\' =>
            saved, state := state, Escape;
          case '\'' =>
            current := current + [c];
            state, saved := saved, Normal;
          case _ =>
            current := current + [c];
        }
      case Backtick =>
        StepQuoted(state, tokens, current, s);
        match c {
          case '\\' =>
            saved, state := state, Escape;
          case '`' =>
            current := current + [c];
            state, saved := saved, Normal;
          case _ =>
            current := current + [c];
        }
    }
    Stop(state, saved, tokens, current);
    if current != "" {
      tokens := tokens + [current];
    }
  }

  // ---------------------------------------------------------------- what is kept

  /** Where a character stands: outside quotes, between quotes `q`, or behind a backslash there. */
  datatype Place = Outside | Within(q: char) | Behind(q: char)

  function Enter(at: Place, c: char): Place {
    match at
    case Outside => if IsQuote(c) then Within(c) else Outside
    case Within(q) => if c == q then Outside else if c == BACKSLASH then Behind(q) else at
    case Behind(q) => Within(q)
  }

  /** The first character of `s` goes into no token: a blank outside quotes, or between quotes a
      backslash that escapes the closing quote or ends the text. */
  predicate Dropped(s: string, at: Place)
    requires s != ""
  {
    match at
    case Outside => IsBlank(s[0])
    case Within(q) => s[0] != q && s[0] == BACKSLASH && (|s| == 1 || s[1] == q)
    case Behind(_) => false
  }

  function Kept(s: string, at: Place): string {
    if s == "" then ""
    else (if Dropped(s, at) then "" else [s[0]]) + Kept(s[1..], Enter(at, s[0]))
  }

  lemma ConcatPush(token: string, tokens: seq<string>)
    ensures Concat(Push(token) + tokens) == token + Concat(tokens)
  {
    if token == "" {
      assert Push(token) + tokens == tokens;
    } else {
      assert (Push(token) + tokens)[1..] == tokens;
    }
  }

  lemma {:induction false} QuotationKeeps(s: string, q: char)
    requires IsQuote(q)
    ensures var (body, rest) := Quotation(s, q); Kept(s, Within(q)) == body + Kept(rest, Outside)
    decreases |s|
  {
    if s != "" && s[0] != q {
      if s[0] != BACKSLASH {
        QuotationKeeps(s[1..], q);
        Assoc([s[0]], Quotation(s[1..], q).0, Kept(Quotation(s[1..], q).1, Outside));
      } else if |s| > 1 {
        QuotationKeeps(s[2..], q);
        assert s[1..][1..] == s[2..];
        assert Kept(s[1..], Behind(q)) == [s[1]] + Kept(s[2..], Within(q));
        Assoc(EscapePair(s[1], q), Quotation(s[2..], q).0, Kept(Quotation(s[2..], q).1, Outside));
      }
    }
  }

  /** Put together, the tokens are the input in order without the characters that are dropped. */
  lemma {:induction false} TokensKeep(s: string, token: string)
    ensures Concat(Tokens(s, token)) == token + Kept(s, Outside)
    decreases |s|
  {
    if s == "" {
      ConcatPush(token, []);
      assert Push(token) + [] == Push(token);
    } else if IsBlank(s[0]) {
      TokensKeep(s[1..], "");
      ConcatPush(token, Tokens(s[1..], ""));
    } else if IsQuote(s[0]) {
      var (body, rest) := Quotation(s[1..], s[0]);
      QuotationKeeps(s[1..], s[0]);
      TokensKeep(rest, token + [s[0]] + body);
      Assoc(token + [s[0]], body, Kept(rest, Outside));
      Assoc(token, [s[0]], body + Kept(rest, Outside));
    } else {
      TokensKeep(s[1..], token + [s[0]]);
      Assoc(token, [s[0]], Kept(s[1..], Outside));
    }
  }

  /** No token is empty, and none holds a terminator that was not in the input. */
  lemma {:induction false} TokensAreWhole(s: string, token: string)
    requires NulFree(s) && NulFree(token)
    ensures forall t | t in Tokens(s, token) :: t != "" && NulFree(t)
    decreases |s|
  {
    if s != "" {
      if IsBlank(s[0]) {
        TokensAreWhole(s[1..], "");
      } else if IsQuote(s[0]) {
        var (body, rest) := Quotation(s[1..], s[0]);
        QuotationIsWhole(s[1..], s[0]);
        TokensAreWhole(rest, token + [s[0]] + body);
      } else {
        TokensAreWhole(s[1..], token + [s[0]]);
      }
    }
  }

  lemma {:induction false} QuotationIsWhole(s: string, q: char)
    requires NulFree(s) && q != '\0'
    ensures var (body, rest) := Quotation(s, q); NulFree(body) && NulFree(rest)
    decreases |s|
  {
    if s != "" && s[0] != q {
      if s[0] != BACKSLASH {
        QuotationIsWhole(s[1..], q);
      } else if |s| > 1 {
        QuotationIsWhole(s[2..], q);
      }
    }
  }

  // ---------------------------------------------------------------- arguments

  /** A token in double quotes loses them. */
  function Strip(token: string): string {
    if |token| > 1 && token[0] == QUOTE && token[|token| - 1] == QUOTE then token[1..|token| - 1] else token
  }

  function Arguments(tokens: seq<string>): seq<string> {
    if tokens == [] then [] else [Strip(CStr(tokens[0]))] + Arguments(tokens[1..])
  }

  /** What BuildArgv makes of a command line. */
  function Argv(str: string): seq<string> {
    Arguments(Tokens(str, ""))
  }

  /** strdup of each token; no token at all gives the null pointer and a count of 0. */
  function Copies(tokens: seq<string>): seq<string> {
    if tokens == [] then [] else [CStr(tokens[0])] + Copies(tokens[1..])
  }

  lemma {:induction false} CopiesAt(tokens: seq<string>)
    ensures |Copies(tokens)| == |tokens| == |Arguments(tokens)|
    ensures forall i | 0 <= i < |tokens| ::
      Copies(tokens)[i] == CStr(tokens[i]) && Arguments(tokens)[i] == Strip(CStr(tokens[i]))
  {
    if tokens != [] {
      CopiesAt(tokens[1..]);
      forall i | 0 < i < |tokens|
        ensures Copies(tokens)[i] == CStr(tokens[i]) && Arguments(tokens)[i] == Strip(CStr(tokens[i]))
      {
        assert tokens[i] == tokens[1..][i - 1];
      }
    }
  }

  /** BuildArgv, both overloads */
  method BuildArgv(str: string) returns (args: seq<string>)
    ensures args == Argv(str)
  {
    hide Tokens, CStr;
    var tokens := Tokenize(str);
    CopiesAt(tokens);
    args := Copies(tokens);
    for i := 0 to |args|
      invariant |args| == |tokens|
      invariant forall k | 0 <= k < i :: args[k] == Strip(CStr(tokens[k]))
      invariant forall k | i <= k < |args| :: args[k] == CStr(tokens[k])
    {
      var s := args[i];
      if |s| > 1 && s[0] == '\"' && s[|s| - 1] == '\"' {
        s := s[..|s| - 1];
        s := s[1..];
        args := args[i := s];
      }
    }
    assert args == Arguments(tokens);
  }

  /** WrapWithQuotes */
  function Wrap(s: string): string {
    if s == "" || ' ' !in s then s else [QUOTE] + s + [QUOTE]
  }

  /** The command line that StdoutTransport::Execute joins. */
  function Join(args: seq<string>): string {
    if args == [] then "" else Wrap(args[0]) + " " + Join(args[1..])
  }

  method JoinCommand(command: seq<string>) returns (line: string)
    ensures line == Join(command)
  {
    hide Wrap;
    line := "";
    for i := 0 to |command|
      invariant line + Join(command[i..]) == Join(command)
    {
      assert command[i..][1..] == command[i + 1..];
      Assoc(line + Wrap(command[i]), " ", Join(command[i + 1..]));
      Assoc(line, Wrap(command[i]), " " + Join(command[i + 1..]));
      Assoc(Wrap(command[i]), " ", Join(command[i + 1..]));
      line := line + Wrap(command[i]) + " ";
    }
  }

  // ---------------------------------------------------------------- the round trip

  function TrailingBackslashes(s: string): (n: nat)
    ensures n <= |s|
  {
    if s != "" && s[|s| - 1] == BACKSLASH then 1 + TrailingBackslashes(s[..|s| - 1]) else 0
  }

  /** Every backslash escapes a character of `s`. */
  predicate Complete(s: string)
    decreases |s|
  {
    s == "" || (if s[0] == BACKSLASH then |s| > 1 && Complete(s[2..]) else Complete(s[1..]))
  }

  lemma {:induction false} TrailOfTail(s: string)
    requires s != ""
    ensures TrailingBackslashes(s) ==
      TrailingBackslashes(s[1..]) + if s[0] == BACKSLASH && TrailingBackslashes(s[1..]) == |s| - 1 then 1 else 0
    decreases |s|
  {
    if |s| > 1 {
      TrailOfTail(s[..|s| - 1]);
      assert s[..|s| - 1][1..] == s[1..][..|s| - 2];
    }
  }

  lemma {:induction false} CompleteIsEven(s: string)
    ensures Complete(s) <==> TrailingBackslashes(s) % 2 == 0
    decreases |s|
  {
    if s != "" {
      TrailOfTail(s);
      if s[0] != BACKSLASH {
        CompleteIsEven(s[1..]);
      } else if |s| > 1 {
        TrailOfTail(s[1..]);
        assert s[1..][1..] == s[2..];
        CompleteIsEven(s[2..]);
      }
    }
  }

  lemma {:induction false} PlainRun(s: string, rest: string, token: string)
    requires forall c | c in s :: !IsBlank(c) && !IsQuote(c)
    ensures Tokens(s + rest, token) == Tokens(rest, token + s)
  {
    if s == "" {
      assert s + rest == rest && token + s == token;
    } else {
      assert (s + rest)[1..] == s[1..] + rest;
      PlainRun(s[1..], rest, token + [s[0]]);
      assert token + [s[0]] + s[1..] == token + s;
    }
  }

  lemma Rejoin(s: string, n: nat, body: string)
    requires 0 < n <= |s|
    ensures s[..n] + (s[n..] + [QUOTE]) == s + [QUOTE]
    ensures n < |s| ==> s[..n] + (s[n..][..|s| - n - 1] + [QUOTE] + body) == s[..|s| - 1] + [QUOTE] + body
  {
  }

  /** A text without double quotes is read to its end; if its last backslash is not escaped
      it takes the closing quote in and the quotation goes on. */
  lemma {:induction false} QuotedRun(s: string, rest: string)
    requires QUOTE !in s
    ensures Quotation(s + [QUOTE] + rest, QUOTE) ==
      if Complete(s) then (s + [QUOTE], rest)
      else (s[..|s| - 1] + [QUOTE] + Quotation(rest, QUOTE).0, Quotation(rest, QUOTE).1)
    decreases |s|
  {
    var text := s + [QUOTE] + rest;
    if s == "" {
      assert text[1..] == rest && s + [QUOTE] == [QUOTE];
    } else if s[0] != BACKSLASH {
      assert text[1..] == s[1..] + [QUOTE] + rest;
      QuotedRun(s[1..], rest);
      assert s[..1] == [s[0]];
      Rejoin(s, 1, Quotation(rest, QUOTE).0);
    } else if |s| == 1 {
      assert text[2..] == rest;
      assert s[..0] + [QUOTE] == [QUOTE];
    } else {
      assert text[2..] == s[2..] + [QUOTE] + rest;
      QuotedRun(s[2..], rest);
      assert s[..2] == EscapePair(s[1], QUOTE);
      Rejoin(s, 2, Quotation(rest, QUOTE).0);
    }
  }

  /** Arguments without double quotes; the other quotes only beside a space. */
  predicate Quotable(a: string) {
    NulFree(a) && QUOTE !in a && (' ' in a || ('\'' !in a && '`' !in a))
  }

  /** Not empty, no tab unless there is a space, and with a space no odd run of backslashes at the end. */
  predicate Safe(a: string) {
    a != "" && if ' ' in a then TrailingBackslashes(a) % 2 == 0 else '\t' !in a
  }

  lemma SafeIsOneToken(a: string, rest: string)
    requires Quotable(a) && Safe(a)
    ensures Tokens(Wrap(a) + " " + rest, "") == [Wrap(a)] + Tokens(rest, "")
  {
    if ' ' in a {
      CompleteIsEven(a);
      QuotedIsToken(a, rest);
    } else {
      PlainRun(a, " " + rest, "");
      Assoc(a, " ", rest);
      assert "" + a == a;
    }
  }

  lemma QuotedIsToken(a: string, rest: string)
    requires QUOTE !in a && Complete(a)
    ensures Tokens([QUOTE] + a + [QUOTE] + " " + rest, "") == [[QUOTE] + a + [QUOTE]] + Tokens(rest, "")
  {
    var text := [QUOTE] + a + [QUOTE] + " " + rest;
    assert text[1..] == a + [QUOTE] + (" " + rest);
    QuotedRun(a, " " + rest);
    assert "" + [QUOTE] + (a + [QUOTE]) == [QUOTE] + a + [QUOTE];
    assert (" " + rest)[1..] == rest;
  }

  lemma SafeIsRead(a: string, rest: string)
    requires Quotable(a) && Safe(a)
    ensures Argv(Wrap(a) + " " + rest) == [a] + Argv(rest)
  {
    hide Tokens, Safe, CStr;
    SafeIsOneToken(a, rest);
    NulFreeIsWhole(Wrap(a));
    assert ([Wrap(a)] + Tokens(rest, ""))[1..] == Tokens(rest, "");
  }

  lemma {:induction false} FirstGrows(s: string, token: string)
    requires token != ""
    ensures Tokens(s, token) != [] && token <= Tokens(s, token)[0]
    decreases |s|
  {
    if s != "" && !IsBlank(s[0]) {
      if IsQuote(s[0]) {
        var (body, rest) := Quotation(s[1..], s[0]);
        FirstGrows(rest, token + [s[0]] + body);
      } else {
        FirstGrows(s[1..], token + [s[0]]);
      }
    }
  }

  /** With an odd run of backslashes at its end, a quoted argument takes in what follows it. */
  lemma OpenIsToken(a: string, rest: string)
    requires QUOTE !in a && !Complete(a)
    ensures var tokens := Tokens([QUOTE] + a + [QUOTE] + " " + rest, "");
      tokens != [] && [QUOTE] + a[..|a| - 1] + [QUOTE] + " " <= tokens[0]
  {
    var text := [QUOTE] + a + [QUOTE] + " " + rest;
    assert text[1..] == a + [QUOTE] + (" " + rest);
    QuotedRun(a, " " + rest);
    var (body, behind) := Quotation(" " + rest, QUOTE);
    assert " " <= body;
    var token := "" + [QUOTE] + (a[..|a| - 1] + [QUOTE] + body);
    FirstGrows(behind, token);
    assert [QUOTE] + a[..|a| - 1] + [QUOTE] + " " <= token;
  }

  /** What an argument cannot be read as unless it is one of these. */
  predicate Readable(x: string) {
    x != "" && (' ' in x || '\t' !in x)
  }

  lemma OpenEnds(a: string)
    requires ' ' in a && !Complete(a)
    ensures ' ' in a[..|a| - 1]
  {
    CompleteIsEven(a);
    var k :| 0 <= k < |a| && a[k] == ' ';
    assert a[..|a| - 1][k] == ' ';
  }

  lemma OpenIsMisread(b: string, t: string)
    requires ' ' in b && [QUOTE] + b + [QUOTE] + " " <= t
    ensures Readable(Strip(t)) && QUOTE in Strip(t)
  {
    var k :| 0 <= k < |b| && b[k] == ' ';
    var start := [QUOTE] + b + [QUOTE] + " ";
    assert start[k + 1] == ' ' && start[|b| + 1] == QUOTE;
    assert t[k + 1] == ' ' && t[|b| + 1] == QUOTE;
    var inner := t[1..|t| - 1];
    assert inner[k] == ' ' && inner[|b|] == QUOTE;
  }

  /** An argument without spaces and quotes, split at its tabs. */
  lemma {:induction false} TabbedRun(a: string, rest: string, token: string)
    requires forall c | c in a + token :: c != ' ' && !IsQuote(c)
    requires '\t' !in token
    ensures var tokens := Tokens(a + " " + rest, token);
      if token == "" && forall c | c in a :: c == '\t' then tokens == Tokens(rest, "")
      else tokens != [] && tokens[0] != "" && '\t' !in tokens[0] && QUOTE !in tokens[0]
  {
    var text := a + " " + rest;
    assert forall c | c in token :: c in a + token;
    if a == "" {
      assert text[1..] == rest;
      assert [] + Tokens(rest, "") == Tokens(rest, "");
    } else {
      assert text[1..] == a[1..] + " " + rest;
      assert a[0] in a + token && forall c | c in a[1..] :: c in a + token;
      if a[0] == '\t' {
        TabbedRun(a[1..], rest, "");
        var tail := Tokens(a[1..] + " " + rest, "");
        assert [] + tail == tail;
        assert forall c | c in a :: c == a[0] || c in a[1..];
      } else {
        TabbedRun(a[1..], rest, token + [a[0]]);
      }
    }
  }

  lemma FirstIsReadable(a: string, rest: string)
    requires Quotable(a) && NulFree(rest)
    ensures var tokens := Tokens(Wrap(a) + " " + rest, "");
      || (' ' !in a && tokens == Tokens(rest, ""))
      || (tokens != [] && Readable(Strip(CStr(tokens[0]))) && (Safe(a) || Strip(CStr(tokens[0])) != a))
  {
    hide Tokens, Complete, TrailingBackslashes, CStr;
    var tokens := Tokens(Wrap(a) + " " + rest, "");
    TokensAreWhole(Wrap(a) + " " + rest, "");
    if ' ' !in a {
      TabbedRun(a, rest, "");
      if tokens != Tokens(rest, "") {
        NulFreeIsWhole(tokens[0]);
      }
    } else {
      CompleteIsEven(a);
      if Complete(a) {
        QuotedIsToken(a, rest);
      } else {
        OpenIsToken(a, rest);
        OpenEnds(a);
        OpenIsMisread(a[..|a| - 1], tokens[0]);
      }
      NulFreeIsWhole(tokens[0]);
    }
  }

  lemma {:induction false} JoinIsWhole(args: seq<string>)
    requires forall a | a in args :: Quotable(a)
    ensures NulFree(Join(args))
  {
    if args != [] {
      JoinIsWhole(args[1..]);
      assert Quotable(args[0]);
    }
  }

  lemma {:induction false} FirstArgument(args: seq<string>)
    requires forall a | a in args :: Quotable(a)
    ensures Argv(Join(args)) == [] || Readable(Argv(Join(args))[0])
  {
    if args != [] {
      FirstArgument(args[1..]);
      JoinIsWhole(args[1..]);
      FirstIsReadable(args[0], Join(args[1..]));
    }
  }

  /** BuildArgv gives back the list that was quoted and joined exactly when every argument is safe. */
  lemma {:induction false} ListRoundTrip(args: seq<string>)
    requires forall a | a in args :: Quotable(a)
    ensures Argv(Join(args)) == args <==> forall a | a in args :: Safe(a)
  {
    if args != [] {
      var a, rest := args[0], Join(args[1..]);
      if Safe(a) {
        SafeIsRead(a, rest);
        ListRoundTrip(args[1..]);
        assert args == [a] + args[1..];
      } else {
        JoinIsWhole(args[1..]);
        FirstArgument(args);
        FirstIsReadable(a, rest);
      }
    }
  }
}
