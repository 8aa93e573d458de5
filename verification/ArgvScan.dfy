/** Which arguments survive quoting and tokenizing, quotes of every kind included. */
module ArgvScan {
  import opened CStrings
  import opened CommandLine = Argv

  /** Read from `at`, every character of `s` goes into the token, and the text ends outside quotes. */
  predicate Whole(s: string, at: Place) {
    if s == "" then at.Outside? else !Dropped(s, at) && Whole(s[1..], Enter(at, s[0]))
  }

  /** Quoted, the argument is one token, and without a space it does not bring a pair of double
      quotes of its own that would be taken off. */
  predicate Scans(a: string) {
    && a != "" && Whole(Wrap(a), Outside)
    && (' ' !in a ==> !(|a| >= 2 && a[0] == '\"' && a[|a| - 1] == '\"'))
  }

  /** Empty or only tabs: such an argument leaves nothing on the command line. */
  predicate Blank(a: string) {
    forall c | c in a :: c == '\t'
  }

  /** What the tokenizer makes of `w` and a space when `token` has been read: the token with `w` if
      `w` is whole, else another token; one without spaces is not longer than that. */
  ghost predicate Outcome(tokens: seq<string>, token: string, w: string, whole: bool, rest: string) {
    && tokens != []
    && (if whole then tokens == [token + w] + Tokens(rest, "") else tokens[0] != token + w)
    && (' ' in tokens[0] || |tokens[0]| <= |token + w|)
  }

  lemma Regroup(token: string, c: char, w: string)
    requires w != "" && w[0] == c
    ensures token + [c] + w[1..] == token + w
  {
  }

  lemma {:induction false} OutsideOutcome(token: string, w: string, rest: string)
    requires if token == "" then w != "" && !IsBlank(w[0]) else true
    ensures Outcome(Tokens(w + " " + rest, token), token, w, Whole(w, Outside), rest)
    decreases |w|
  {
    var text := w + " " + rest;
    if w == "" {
      assert text[1..] == rest && token + w == token;
    } else {
      assert text[1..] == w[1..] + " " + rest;
      Regroup(token, w[0], w);
      if IsBlank(w[0]) {
        assert Tokens(text, token)[0] == token;
      } else if IsQuote(w[0]) {
        WithinOutcome(token + [w[0]], w[1..], rest, w[0]);
      } else {
        OutsideOutcome(token + [w[0]], w[1..], rest);
      }
    }
  }

  lemma {:induction false} WithinOutcome(token: string, w: string, rest: string, q: char)
    requires token != "" && IsQuote(q)
    ensures var (body, behind) := Quotation(w + " " + rest, q);
      Outcome(Tokens(behind, token + body), token, w, Whole(w, Within(q)), rest)
    decreases |w|
  {
    var text := w + " " + rest;
    var (body, behind) := Quotation(text, q);
    FirstGrows(behind, token + body);
    var first := Tokens(behind, token + body)[0];
    if w == "" {
      assert text[0] == ' ' && first[|token|] == ' ';
    } else {
      Regroup(token, w[0], w);
      assert text[1..] == w[1..] + " " + rest;
      if w[0] == q {
        OutsideOutcome(token + [q], w[1..], rest);
      } else if w[0] != BACKSLASH {
        WithinOutcome(token + [w[0]], w[1..], rest, q);
        Assoc(token, [w[0]], Quotation(text[1..], q).0);
      } else {
        EscapeOutcome(token, w, rest, q);
      }
    }
  }

  lemma {:induction false} EscapeOutcome(token: string, w: string, rest: string, q: char)
    requires token != "" && IsQuote(q) && w != "" && w[0] == BACKSLASH
    ensures var (body, behind) := Quotation(w + " " + rest, q);
      Outcome(Tokens(behind, token + body), token, w, Whole(w, Within(q)), rest)
    decreases |w|, 0
  {
    var text := w + " " + rest;
    var (body, behind) := Quotation(text, q);
    FirstGrows(behind, token + body);
    var first := Tokens(behind, token + body)[0];
    if |w| == 1 {
      assert text[1] == ' ' && first[|token| + 1] == ' ';
    } else {
      assert text[2..] == w[2..] + " " + rest;
      var pair := EscapePair(w[1], q);
      WithinOutcome(token + pair, w[2..], rest, q);
      Assoc(token, pair, Quotation(text[2..], q).0);
      if w[1] == q {
        assert first[|token|] == q && (token + w)[|token|] == BACKSLASH;
      } else {
        assert token + pair + w[2..] == token + w;
        assert w[1..][1..] == w[2..];
        assert Whole(w, Within(q)) == Whole(w[1..], Behind(q)) == Whole(w[2..], Within(q));
      }
    }
  }

  /** An argument that scans is read back in front of any rest. */
  lemma ScannedIsRead(a: string, rest: string)
    requires NulFree(a) && Scans(a)
    ensures Argv(Wrap(a) + " " + rest) == [a] + Argv(rest)
  {
    OutsideOutcome("", Wrap(a), rest);
    NulFreeIsWhole(Wrap(a));
    assert "" + Wrap(a) == Wrap(a);
    assert ([Wrap(a)] + Tokens(rest, ""))[1..] == Tokens(rest, "");
  }

  /** The double quotes at the front go into the first token. */
  lemma {:induction false} QuotesStay(s: string, k: nat, token: string)
    requires k <= |s| && (token != "" || k > 0)
    requires forall i | 0 <= i < k :: s[i] == QUOTE
    ensures Tokens(s, token) != [] && token + s[..k] <= Tokens(s, token)[0]
    decreases k
  {
    if k == 0 {
      FirstGrows(s, token);
    } else if k == 1 {
      var (body, rest) := Quotation(s[1..], QUOTE);
      FirstGrows(rest, token + [QUOTE] + body);
      assert s[..1] == [QUOTE];
    } else {
      assert Quotation(s[1..], QUOTE) == ([QUOTE], s[2..]) by {
        assert s[1..][0] == QUOTE && s[1..][1..] == s[2..];
      }
      QuotesStay(s[2..], k - 2, token + [QUOTE] + [QUOTE]);
      assert s[..k] == [QUOTE] + [QUOTE] + s[2..][..k - 2];
    }
  }

  lemma {:induction false} LeadingQuotes(a: string) returns (k: nat)
    requires exists c | c in a :: c != QUOTE
    ensures k < |a| && a[k] != QUOTE && forall i | 0 <= i < k :: a[i] == QUOTE
    decreases |a|
  {
    if a[0] != QUOTE {
      k := 0;
    } else {
      var c :| c in a && c != QUOTE;
      assert c in a[1..];
      k := LeadingQuotes(a[1..]);
      k := k + 1;
    }
  }

  /** The token that starts with the quote put around an argument is never the bare argument. */
  lemma QuotedIsNotBare(a: string, rest: string)
    requires ' ' in a
    ensures var tokens := Tokens([QUOTE] + a + [QUOTE] + " " + rest, ""); tokens != [] && tokens[0] != a
  {
    var text := [QUOTE] + a + [QUOTE] + " " + rest;
    var k := LeadingQuotes(a);
    assert forall i | 0 <= i < k + 1 :: text[i] == QUOTE;
    QuotesStay(text, k + 1, "");
    assert text[..k + 1][k] == QUOTE;
  }

  /** The first token of an argument without spaces: it starts with no blank, and without spaces it
      is not longer than the argument. */
  lemma {:induction false} BareFirst(w: string, rest: string)
    requires ' ' !in w && !Blank(w)
    ensures var tokens := Tokens(w + " " + rest, "");
      && tokens != [] && tokens[0] != "" && !IsBlank(tokens[0][0])
      && (' ' in tokens[0] || |tokens[0]| <= |w|)
    decreases |w|
  {
    var text := w + " " + rest;
    assert text[1..] == w[1..] + " " + rest;
    if w[0] == '\t' {
      assert !Blank(w[1..]) by {
        var c :| c in w && c != '\t';
        assert c in w[1..];
      }
      BareFirst(w[1..], rest);
      assert Tokens(text, "") == [] + Tokens(text[1..], "");
    } else {
      assert w[0] in w;
      OutsideOutcome("", w, rest);
      assert "" + w == w;
      FirstStarts(text);
    }
  }

  lemma FirstStarts(s: string)
    requires s != "" && !IsBlank(s[0])
    ensures Tokens(s, "") != [] && [s[0]] <= Tokens(s, "")[0]
  {
    if IsQuote(s[0]) {
      var (body, rest) := Quotation(s[1..], s[0]);
      FirstGrows(rest, "" + [s[0]] + body);
    } else {
      FirstGrows(s[1..], "" + [s[0]]);
    }
  }

  lemma StripUndone(t: string, a: string)
    requires Strip(t) == a
    ensures t == a || t == [QUOTE] + a + [QUOTE]
  {
  }

  lemma SpacedFirst(a: string, rest: string)
    requires ' ' in a
    ensures var tokens := Tokens([QUOTE] + a + [QUOTE] + " " + rest, "");
      tokens != [] && (Strip(tokens[0]) == a ==> Whole([QUOTE] + a + [QUOTE], Outside))
  {
    var w := [QUOTE] + a + [QUOTE];
    OutsideOutcome("", w, rest);
    QuotedIsNotBare(a, rest);
    assert "" + w == w;
    var t := Tokens(w + " " + rest, "")[0];
    hide *;
    if Strip(t) == a {
      StripUndone(t, a);
    }
  }

  lemma BareIsScanned(a: string, rest: string)
    requires ' ' !in a && !Blank(a)
    ensures var tokens := Tokens(a + " " + rest, "");
      tokens != [] && (Strip(tokens[0]) == a ==> Whole(a, Outside) && tokens[0] == a)
  {
    BareFirst(a, rest);
    var t := Tokens(a + " " + rest, "")[0];
    if a[0] != '\t' {
      assert a[0] in a;
      OutsideOutcome("", a, rest);
      assert "" + a == a;
    }
    hide *;
    if Strip(t) == a {
      StripUndone(t, a);
      assert forall c | c in [QUOTE] + a + [QUOTE] :: c == QUOTE || c in a;
    }
  }

  /** An argument that does not scan is not what its first token is read as. */
  lemma FirstIsScanned(a: string, rest: string)
    requires !Blank(a) && NulFree(a) && NulFree(rest)
    ensures var tokens := Tokens(Wrap(a) + " " + rest, "");
      tokens != [] && (Strip(CStr(tokens[0])) == a ==> Scans(a))
  {
    hide Tokens, CStr, Whole;
    TokensAreWhole(Wrap(a) + " " + rest, "");
    if ' ' in a {
      SpacedFirst(a, rest);
    } else {
      BareIsScanned(a, rest);
    }
    NulFreeIsWhole(Tokens(Wrap(a) + " " + rest, "")[0]);
  }

  lemma {:induction false} JoinedIsWhole(args: seq<string>)
    requires forall a | a in args :: NulFree(a)
    ensures NulFree(Join(args))
  {
    if args != [] {
      JoinedIsWhole(args[1..]);
      assert NulFree(args[0]);
    }
  }

  /** Without arguments that are empty or only tabs, BuildArgv gives back the list that was quoted and
      joined exactly when every argument scans. */
  lemma {:induction false} ScannedRoundTrip(args: seq<string>)
    requires forall a | a in args :: NulFree(a) && !Blank(a)
    ensures Argv(Join(args)) == args <==> forall a | a in args :: Scans(a)
  {
    if args != [] {
      var a, rest := args[0], Join(args[1..]);
      if Scans(a) {
        ScannedIsRead(a, rest);
        ScannedRoundTrip(args[1..]);
        assert args == [a] + args[1..];
      } else {
        JoinedIsWhole(args[1..]);
        FirstIsScanned(a, rest);
      }
    }
  }

  function Visible(args: seq<string>): seq<string> {
    if args == [] then [] else (if Blank(args[0]) then [] else [args[0]]) + Visible(args[1..])
  }

  lemma BlankVanishes(a: string, rest: string)
    requires Blank(a)
    ensures Argv(Wrap(a) + " " + rest) == Argv(rest)
  {
    assert ' ' !in a && forall c | c in a + "" :: c in a;
    TabbedRun(a, rest, "");
  }

  /** Where every argument scans or is empty or only tabs, those that scan are what is read. */
  lemma {:induction false} VisibleIsRead(args: seq<string>)
    requires forall a | a in args :: NulFree(a) && (Blank(a) || Scans(a))
    ensures Argv(Join(args)) == Visible(args)
    ensures Argv(Join(args)) == args <==> forall a | a in args :: !Blank(a)
  {
    VisibleIsAll(args);
    if args != [] {
      var a, rest := args[0], Join(args[1..]);
      VisibleIsRead(args[1..]);
      if Blank(a) {
        BlankVanishes(a, rest);
        assert [] + Visible(args[1..]) == Visible(args[1..]);
      } else {
        ScannedIsRead(a, rest);
      }
    }
  }

  lemma {:induction false} VisibleIsAll(args: seq<string>)
    ensures |Visible(args)| <= |args|
    ensures Visible(args) == args <==> forall a | a in args :: !Blank(a)
  {
    if args != [] {
      VisibleIsAll(args[1..]);
      if Blank(args[0]) {
        assert |Visible(args)| < |args|;
      } else {
        assert args == [args[0]] + args[1..];
        assert Visible(args)[1..] == Visible(args[1..]);
      }
    }
  }

  lemma ReadIsSafe(a: string)
    requires Quotable(a) && Argv(Wrap(a) + " ") == [a]
    ensures Safe(a)
  {
    FirstIsReadable(a, "");
    assert Wrap(a) + " " + "" == Wrap(a) + " ";
    assert Argv(Wrap(a) + " ")[0] == a;
  }

  /** Where double quotes are excluded as well, scanning is being safe. */
  lemma ScansIsSafe(a: string)
    requires Quotable(a)
    ensures Scans(a) <==> Safe(a)
  {
    if Safe(a) {
      SafeIsOneToken(a, "");
      if ' ' !in a {
        assert a[0] in a;
      }
      OutsideOutcome("", Wrap(a), "");
      assert "" + Wrap(a) == Wrap(a);
    }
    if Scans(a) {
      ScannedIsRead(a, "");
      assert Wrap(a) + " " + "" == Wrap(a) + " " && [a] + [] == [a];
      ReadIsSafe(a);
    }
  }

  lemma OpenQuotation(c: char)
    requires c != QUOTE && c != BACKSLASH
    ensures Quotation([c], QUOTE) == ([c], "") && Tokens([QUOTE, c], "") == [[QUOTE, c]]
  {
    assert [c][1..] == "" && Quotation("", QUOTE) == ("", "") && [c] + "" == [c];
    assert [QUOTE, c][1..] == [c];
    assert "" + [QUOTE] + [c] == [QUOTE, c];
  }

  lemma ClosedQuotation(s: string)
    requires s != "" && IsBlank(s[0])
    ensures Tokens([QUOTE, QUOTE] + s, "") == [[QUOTE, QUOTE]] + Tokens(s[1..], "")
  {
    var text := [QUOTE, QUOTE] + s;
    assert text[1..][0] == QUOTE && text[1..][1..] == s;
    assert "" + [QUOTE] + [QUOTE] == [QUOTE, QUOTE];
  }

  lemma QuoteLine()
    ensures Join(["", "\" "]) == " \"\" \" "
  {
    assert Wrap("\" ") == "\"\" \"";
    assert ["", "\" "][1..] == ["\" "] && ["\" "][1..] == [];
  }

  lemma QuoteTokens()
    ensures Tokens(" \"\" \" ", "") == ["\"\"", "\" "]
  {
    assert " \"\" \" "[1..] == [QUOTE, QUOTE] + " \" ";
    ClosedQuotation(" \" ");
    assert " \" "[1..] == [QUOTE, ' '];
    OpenQuotation(' ');
    assert [] + ([[QUOTE, QUOTE]] + [[QUOTE, ' ']]) == ["\"\"", "\" "];
  }

  /** An empty argument beside one that does not scan can come back: here the quotes put around the
      second argument are read as the first, and its own quote opens the second. */
  lemma BlankCanReturn()
    ensures Argv(Join(["", "\" "])) == ["", "\" "] && !Scans("")
  {
    hide Tokens, Join, CStr;
    QuoteLine();
    QuoteTokens();
    var tokens := ["\"\"", "\" "];
    NulFreeIsWhole(tokens[0]);
    NulFreeIsWhole(tokens[1]);
    assert tokens[1..] == ["\" "] && tokens[1..][1..] == [];
  }
}
