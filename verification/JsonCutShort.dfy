/** The parser has no verdict only on texts in which an escape is cut short. */
module JsonCutShort {
  import opened CStrings
  import opened JsonParser
  import opened JsonGrammar
  import opened JsonReading
  import opened Utf8

  // ---------------------------------------------------------------- what is left is behind what was read

  predicate Suffix(t: string, s: string) {
    |t| <= |s| && s[|s| - |t|..] == t
  }

  lemma Behind(front: string, t: string)
    ensures Suffix(t, front + t)
  {
  }

  lemma Further(r: string, t: string, s: string)
    requires Suffix(r, t) && Suffix(t, s)
    ensures Suffix(r, s)
  {
    assert s[|s| - |r|..] == t[|t| - |r|..];
  }

  lemma Onward(k: nat, s: string)
    requires k <= |s|
    ensures Suffix(s[k..], s)
  {
  }

  lemma {:induction false} PiecesEnd(ps: seq<Piece>, end: string)
    ensures Suffix(end, PiecesText(ps, end))
  {
    if ps != [] {
      PiecesEnd(ps[1..], end);
      Behind(PieceText(ps[0]), PiecesText(ps[1..], end));
      Further(end, PiecesText(ps[1..], end), PiecesText(ps, end));
    }
  }

  lemma LiteralEnds(ps: seq<Piece>, closed: bool, rest: string)
    ensures Suffix(rest, LiteralText(ps, closed, rest))
  {
    var end := if closed then "\"" + rest else rest;
    PiecesEnd(ps, end);
    Behind("\"", rest);
    Further(rest, end, PiecesText(ps, end));
    Behind("\"", PiecesText(ps, end));
    Further(rest, PiecesText(ps, end), LiteralText(ps, closed, rest));
  }

  lemma {:induction false} SkipEnds(s: string)
    ensures Suffix(Skip(s), s)
  {
    var w := WhiteFront(s);
    Behind(w, Skip(s));
  }

  lemma NumeralEnds(n: Numeral, rest: string)
    ensures Suffix(rest, NumeralText(n, rest))
  {
    var e := ExponentText(n.exponent, rest);
    var f := FractionText(n.fraction, e);
    if n.exponent.Exponent? {
      Assoc(n.exponent.sign, n.exponent.digits, rest);
      Assoc([n.exponent.mark], n.exponent.sign + n.exponent.digits, rest);
      Behind([n.exponent.mark] + (n.exponent.sign + n.exponent.digits), rest);
    }
    Assoc(".", n.fraction, e);
    Behind("." + n.fraction, e);
    Further(rest, e, f);
    Behind(n.whole, f);
    Further(rest, f, n.whole + f);
    Behind("-", n.whole + f);
    Further(rest, n.whole + f, "-" + (n.whole + f));
  }

  lemma {:induction false} SpellEnds(sp: Spelling, rest: string)
    ensures Suffix(rest, Spell(sp, rest))
    decreases sp, 1
  {
    match sp
    case Num(n) => NumeralEnds(n, rest);
    case Str(ps, closed) => LiteralEnds(ps, closed, rest);
    case Arr(inner, entries) =>
      EntriesEnd(entries, "]" + rest);
      BehindBracket("[", inner, EntriesText(entries, "]" + rest), "]", rest);
    case Obj(inner, fields) =>
      FieldsEnd(fields, "}" + rest);
      BehindBracket("{", inner, FieldsText(fields, "}" + rest), "}", rest);
    case _ =>
  }

  lemma BehindBracket(open: string, inner: string, body: string, close: string, rest: string)
    requires Suffix(close + rest, body)
    ensures Suffix(rest, open + (inner + body))
  {
    Behind(close, rest);
    Further(rest, close + rest, body);
    Behind(inner, body);
    Further(rest, body, inner + body);
    Behind(open, inner + body);
    Further(rest, inner + body, open + (inner + body));
  }

  lemma {:induction false} EntryEndsWith(e: Entry, rest: string)
    ensures Suffix(rest, EntryText(e, rest))
    decreases e, 2
  {
    SpellEnds(e.value, e.after + rest);
    BehindBracket("", e.before, Spell(e.value, e.after + rest), e.after, rest);
    assert "" + EntryText(e, rest) == EntryText(e, rest);
  }

  lemma {:induction false} EntriesEnd(es: seq<Entry>, rest: string)
    ensures Suffix(rest, EntriesText(es, rest))
    decreases es, 0
  {
    if es != [] {
      EntriesEnd(es[1..], rest);
      var next := if |es| > 1 then "," + EntriesText(es[1..], rest) else rest;
      Behind(",", EntriesText(es[1..], rest));
      if |es| > 1 {
        Further(rest, EntriesText(es[1..], rest), next);
      }
      EntryEndsWith(es[0], next);
      Further(rest, next, EntryText(es[0], next));
    }
  }

  lemma {:induction false} FieldsEnd(fs: seq<Field>, rest: string)
    ensures Suffix(rest, FieldsText(fs, rest))
    decreases fs, 0
  {
    if fs != [] {
      FieldsEnd(fs[1..], rest);
      var next := if |fs| > 1 then "," + FieldsText(fs[1..], rest) else rest;
      Behind(",", FieldsText(fs[1..], rest));
      if |fs| > 1 {
        Further(rest, FieldsText(fs[1..], rest), next);
      }
      FieldEndsWith(fs[0], next);
      Further(rest, next, FieldText(fs[0], next));
    }
  }

  lemma {:induction false} FieldEndsWith(f: Field, rest: string)
    ensures Suffix(rest, FieldText(f, rest))
    decreases f, 3
  {
    var entry := EntryText(f.entry, rest);
    var colon := f.gap + (":" + entry);
    EntryEndsWith(f.entry, rest);
    BehindBracket(f.gap, ":", entry, "", rest);
    assert "" + rest == rest;
    LiteralEnds(f.name, true, colon);
    Further(rest, colon, LiteralText(f.name, true, colon));
    Behind(f.before, LiteralText(f.name, true, colon));
    Further(rest, LiteralText(f.name, true, colon), FieldText(f, rest));
  }

  // ---------------------------------------------------------------- cut short

  /** A backslash with the text's end behind it, or with a `u` and fewer than four hexadecimal digits, or
      with a high surrogate and another `\u` that has fewer. */
  predicate CutShort(s: string) {
    && |s| >= 1 && s[0] == '\\'
    && (|s| == 1 || s[1] == '\0' || (s[1] == 'u' && (NoHex(s[2..])
        || (IsHighSurrogate(CodeUnit(s[2..][..4])) && |s| >= 8 && s[6] == '\\' && s[7] == 'u' && NoHex(s[8..])))))
  }

  predicate NoHex(s: string) {
    |s| < 4 || !IsHex(s[..4])
  }

  lemma EscapeIsCut(s: string)
    requires Peek(s) == BACKSLASH && !Escape(s[1..]).Ok?
    ensures CutShort(s)
  {
    if |s| > 1 && s[1] == 'u' {
      var t := s[2..];
      assert s[1..][1..] == t;
      UnitIsRead(t);
      if HasHex4(t) {
        var u := t[4..];
        assert u[2..] == s[8..];
        UnitIsRead(u[2..]);
      }
    }
  }

  lemma {:induction false} LiteralIsCut(s: string) returns (cut: string)
    requires Unescape(s).Unspecified?
    ensures Suffix(cut, s) && CutShort(cut)
    decreases |s|
  {
    if s[0] == BACKSLASH && !Escape(s[1..]).Ok? {
      cut := s;
      EscapeIsCut(s);
    } else {
      var p := PieceFound(s);
      var rest := if s[0] == BACKSLASH then Escape(s[1..]).rest else s[1..];
      cut := LiteralIsCut(rest);
      Behind(PieceText(p), rest);
      Further(cut, rest, s);
    }
  }

  lemma StringIsCut(s: string) returns (cut: string)
    requires ParseString(s).Unspecified?
    ensures Suffix(cut, s) && CutShort(cut)
  {
    cut := LiteralIsCut(s[1..]);
    Onward(1, s);
    Further(cut, s[1..], s);
  }

  /** The parser has no verdict only where an escape is cut short. */
  lemma {:induction false} ValueIsCut(s: string) returns (cut: string)
    requires ParseValue(s).Unspecified?
    ensures Suffix(cut, s) && CutShort(cut)
    decreases |s|, 1
  {
    if Peek(s) == QUOTE {
      cut := StringIsCut(s);
    } else {
      Onward(1, s);
      SkipEnds(s[1..]);
      Further(Skip(s[1..]), s[1..], s);
      if Peek(s) == '[' {
        cut := ItemsAreCut(Skip(s[1..]));
      } else {
        cut := MembersAreCut(Skip(s[1..]));
      }
      Further(cut, Skip(s[1..]), s);
    }
  }

  lemma {:induction false} ItemsAreCut(s: string) returns (cut: string)
    requires ParseItems(s).Unspecified?
    ensures Suffix(cut, s) && CutShort(cut)
    decreases |s|, 2
  {
    SkipEnds(s);
    if ParseValue(Skip(s)).Unspecified? {
      cut := ValueIsCut(Skip(s));
      Further(cut, Skip(s), s);
    } else {
      var rest := ParseValue(Skip(s)).rest;
      ValueEnds(Skip(s));
      SkipEnds(rest);
      Onward(1, Skip(rest));
      cut := ItemsAreCut(Skip(rest)[1..]);
      Further(cut, Skip(rest)[1..], Skip(rest));
      Further(cut, Skip(rest), rest);
      Further(cut, rest, Skip(s));
      Further(cut, Skip(s), s);
    }
  }

  lemma ValueEnds(s: string)
    requires ParseValue(s).Ok?
    ensures Suffix(ParseValue(s).rest, s)
  {
    var sp := SpellingFound(s);
    SpellEnds(sp, ParseValue(s).rest);
  }

  lemma ColonEnds(s: string)
    requires ParseString(Skip(s)).Ok?
    ensures var colon := Skip(ParseString(Skip(s)).rest);
      Suffix(colon, s) && (colon != "" ==> Suffix(Skip(colon[1..]), s))
  {
    var ps, closed := LiteralFound(Skip(s));
    var rest := ParseString(Skip(s)).rest;
    var colon := Skip(rest);
    LiteralEnds(ps, closed, rest);
    SkipEnds(s);
    SkipEnds(rest);
    hide *;
    Further(colon, rest, Skip(s));
    Further(colon, Skip(s), s);
    if colon != "" {
      Onward(1, colon);
      SkipEnds(colon[1..]);
      Further(Skip(colon[1..]), colon[1..], colon);
      Further(Skip(colon[1..]), colon, s);
    }
  }

  lemma {:induction false} MemberIsCut(s: string) returns (cut: string)
    requires ParseMember(s).Unspecified?
    ensures Suffix(cut, s) && CutShort(cut)
    decreases |s|, 2
  {
    if ParseString(Skip(s)).Unspecified? {
      SkipEnds(s);
      cut := StringIsCut(Skip(s));
      Further(cut, Skip(s), s);
    } else {
      ColonEnds(s);
      var value := Skip(Skip(ParseString(Skip(s)).rest)[1..]);
      cut := ValueIsCut(value);
      Further(cut, value, s);
    }
  }

  lemma {:induction false} MembersAreCut(s: string) returns (cut: string)
    requires ParseMembers(s).Unspecified?
    ensures Suffix(cut, s) && CutShort(cut)
    decreases |s|, 3
  {
    if ParseMember(s).Unspecified? {
      cut := MemberIsCut(s);
    } else {
      var rest := ParseMember(s).rest;
      MemberEnds(s);
      SkipEnds(rest);
      Onward(1, Skip(rest));
      cut := MembersAreCut(Skip(rest)[1..]);
      Further(cut, Skip(rest)[1..], Skip(rest));
      Further(cut, Skip(rest), rest);
      Further(cut, rest, s);
    }
  }

  lemma MemberEnds(s: string)
    requires ParseMember(s).Ok?
    ensures Suffix(ParseMember(s).rest, s)
  {
    ColonEnds(s);
    var value := Skip(Skip(ParseString(Skip(s)).rest)[1..]);
    ValueEnds(value);
    Further(ParseMember(s).rest, value, s);
  }
}
