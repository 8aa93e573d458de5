/** How print_array and print_object size their output buffer and then fill it.  Every write,
    the terminators in between included, is checked against the size (dap/cJSON.cpp). */
module PrintBuffers {
  import opened CStrings
  import opened JsonPrinter

  // ---------------------------------------------------------------- text from parts

  /** The entries of an array, already printed, with what stands between them. */
  function JoinItems(texts: seq<string>, fmt: bool): string {
    if texts == [] then "" else texts[0] + (ItemEnd(|texts| > 1, fmt) + JoinItems(texts[1..], fmt))
  }

  /** The members of an object: quoted names and printed values. */
  function JoinMembers(names: seq<string>, texts: seq<string>, depth: nat, fmt: bool): string
    requires |names| == |texts|
  {
    if names == [] then ""
    else
      Indent(fmt, depth) + (names[0] + (":" + (Pretty(fmt, " ") + (texts[0]
      + (MemberEnd(|names| > 1, fmt) + JoinMembers(names[1..], texts[1..], depth, fmt))))))
  }

  /** `fmt ? n : 0` */
  function IfPretty(fmt: bool, n: nat): nat {
    if fmt then n else 0
  }

  function ArrayText(texts: seq<string>, fmt: bool): string {
    "[" + (JoinItems(texts, fmt) + "]")
  }

  function ObjectText(names: seq<string>, texts: seq<string>, depth: nat, fmt: bool): string
    requires |names| == |texts|
  {
    "{" + (Pretty(fmt, "\n") + (JoinMembers(names, texts, depth + 1, fmt) + (Indent(fmt, depth) + "}")))
  }

  // ---------------------------------------------------------------- sizes

  /** The length print_array computes. */
  function ArrayLength(texts: seq<string>, fmt: bool): nat {
    if texts == [] then 5 else |texts[0]| + 2 + IfPretty(fmt, 1) + ArrayLength(texts[1..], fmt)
  }

  /** The length print_object computes, at the depth of its members. */
  function ObjectLength(names: seq<string>, texts: seq<string>, depth: nat, fmt: bool): nat
    requires |names| == |texts|
  {
    if names == [] then 7 + IfPretty(fmt, depth)
    else
      |texts[0]| + |names[0]| + 2 + IfPretty(fmt, 2 + depth)
      + ObjectLength(names[1..], texts[1..], depth, fmt)
  }

  lemma {:induction false} JoinItemsLength(texts: seq<string>, fmt: bool)
    ensures ArrayLength(texts, fmt) ==
      |JoinItems(texts, fmt)| + 5 + |texts| + (if texts == [] then 0 else 1 + IfPretty(fmt, 1))
  {
    if texts != [] {
      JoinItemsLength(texts[1..], fmt);
    }
  }

  /** What is left over of an array's buffer behind the text and its terminator: one byte an
      entry, and a constant. */
  lemma ArrayFits(texts: seq<string>, fmt: bool)
    ensures ArrayLength(texts, fmt) ==
      |ArrayText(texts, fmt)| + 1 + 2 + |texts| + (if texts == [] then 0 else 1 + IfPretty(fmt, 1))
  {
    JoinItemsLength(texts, fmt);
  }

  lemma {:induction false} JoinMembersLength(names: seq<string>, texts: seq<string>, depth: nat, fmt: bool)
    requires |names| == |texts|
    ensures ObjectLength(names, texts, depth, fmt) ==
      |JoinMembers(names, texts, depth, fmt)| + 7 + IfPretty(fmt, depth) + (if names == [] then 0 else 1)
  {
    if names != [] {
      JoinMembersLength(names[1..], texts[1..], depth, fmt);
    }
  }

  /** What is left over of an object's buffer: five bytes, four if it is empty, at any depth. */
  lemma ObjectFits(names: seq<string>, texts: seq<string>, depth: nat, fmt: bool)
    requires |names| == |texts|
    ensures ObjectLength(names, texts, depth + 1, fmt) ==
      |ObjectText(names, texts, depth, fmt)| + 1 + (if names == [] then 4 else 5)
  {
    JoinMembersLength(names, texts, depth + 1, fmt);
  }

  // ---------------------------------------------------------------- writing

  /** `*ptr++ = c` */
  method PutChar(out: array<char>, at: nat, c: char) returns (end: nat)
    requires at < out.Length
    modifies out
    ensures end == at + 1 && out[..end] == old(out[..at]) + [c]
  {
    out[at] := c;
    end := at + 1;
  }

  /** `strcpy(ptr, text)`, terminator included, and `ptr += strlen(text)` */
  method StrCpy(out: array<char>, at: nat, text: string) returns (end: nat)
    requires at + |text| < out.Length
    modifies out
    ensures end == at + |text| && out[..end] == old(out[..at]) + text && out[end] == '\0'
  {
    end := at;
    while end < at + |text|
      invariant at <= end <= at + |text|
      invariant out[..end] == old(out[..at]) + text[..end - at]
    {
      out[end] := text[end - at];
      end := end + 1;
    }
    out[end] := '\0';
    assert text[..end - at] == text;
  }

  /** `for(j = 0; j < n; j++) *ptr++ = ' '` */
  method PutSpaces(out: array<char>, at: nat, n: nat) returns (end: nat)
    requires at + n <= out.Length
    modifies out
    ensures end == at + n && out[..end] == old(out[..at]) + Spaces(n)
  {
    end := at;
    var j := 0;
    while j < n
      invariant j <= n && end == at + j
      invariant out[..end] == old(out[..at]) + Spaces(j)
    {
      MoreSpaces(j);
      out[end] := ' ';
      end, j := end + 1, j + 1;
    }
  }

  lemma {:induction false} MoreSpaces(n: nat)
    ensures Spaces(n + 1) == Spaces(n) + " "
  {
    if n > 0 {
      MoreSpaces(n - 1);
    }
  }

  /** The separator behind entry `i` and the terminator behind it. */
  method PutItemEnd(out: array<char>, at: nat, more: bool, fmt: bool) returns (end: nat)
    requires at + |ItemEnd(more, fmt)| < out.Length
    modifies out
    ensures end == at + |ItemEnd(more, fmt)| && out[..end] == old(out[..at]) + ItemEnd(more, fmt)
  {
    end := at;
    if more {
      end := PutChar(out, end, ',');
      if fmt {
        end := PutChar(out, end, ' ');
      }
      out[end] := '\0';
      assert out[..end] == old(out[..at]) + ItemEnd(more, fmt);
    }
  }

  lemma NextItem(texts: seq<string>, i: nat, fmt: bool, before: string)
    requires i < |texts|
    ensures before + JoinItems(texts[i..], fmt)
         == ((before + texts[i]) + ItemEnd(i + 1 < |texts|, fmt)) + JoinItems(texts[i + 1..], fmt)
  {
    assert texts[i..][1..] == texts[i + 1..];
    Assoc(before + texts[i], ItemEnd(i + 1 < |texts|, fmt), JoinItems(texts[i + 1..], fmt));
    Assoc(before, texts[i], ItemEnd(i + 1 < |texts|, fmt) + JoinItems(texts[i + 1..], fmt));
  }

  /** The second half of print_array: compose the output in a buffer of the computed length. */
  method ComposeArray(texts: seq<string>, fmt: bool, len: nat) returns (out: array<char>)
    requires len == ArrayLength(texts, fmt)
    ensures fresh(out) && out.Length == len && Holds(out, ArrayText(texts, fmt))
  {
    ArrayFits(texts, fmt);
    out := new char[len];
    out[0] := '[';
    out[1] := '\0';
    var ptr, i := 1, 0;
    assert out[..1] == "[";
    while i < |texts|
      invariant 0 <= i <= |texts|
      invariant 0 <= ptr && ptr + |JoinItems(texts[i..], fmt)| == 1 + |JoinItems(texts, fmt)|
      invariant out[..ptr] + JoinItems(texts[i..], fmt) == "[" + JoinItems(texts, fmt)
    {
      NextItem(texts, i, fmt, out[..ptr]);
      assert texts[i..][1..] == texts[i + 1..];
      ptr := StrCpy(out, ptr, texts[i]);
      ptr := PutItemEnd(out, ptr, i != |texts| - 1, fmt);
      i := i + 1;
    }
    assert out[..ptr] == "[" + JoinItems(texts, fmt);
    ptr := PutChar(out, ptr, ']');
    Assoc("[", JoinItems(texts, fmt), "]");
    out[ptr] := '\0';
  }

  // ---------------------------------------------------------------- objects

  method PutMemberEnd(out: array<char>, at: nat, more: bool, fmt: bool) returns (end: nat)
    requires at + |MemberEnd(more, fmt)| < out.Length
    modifies out
    ensures end == at + |MemberEnd(more, fmt)| && out[..end] == old(out[..at]) + MemberEnd(more, fmt)
  {
    end := at;
    if more {
      end := PutChar(out, end, ',');
    }
    if fmt {
      end := PutChar(out, end, '\n');
    }
    out[end] := '\0';
    assert out[..end] == old(out[..at]) + MemberEnd(more, fmt);
  }

  /** One turn of the loop over the members. */
  method PutMember(out: array<char>, at: nat, name: string, text: string, depth: nat, fmt: bool, more: bool)
    returns (end: nat)
    requires at + IfPretty(fmt, depth + 1) + |name| + 1 + |text| + |MemberEnd(more, fmt)| < out.Length
    modifies out
    ensures end == at + IfPretty(fmt, depth + 1) + |name| + 1 + |text| + |MemberEnd(more, fmt)|
    ensures out[..end] ==
      old(out[..at]) + Indent(fmt, depth) + name + ":" + Pretty(fmt, " ") + text + MemberEnd(more, fmt)
  {
    end := at;
    if fmt {
      end := PutSpaces(out, end, depth);
    }
    assert out[..end] == old(out[..at]) + Indent(fmt, depth);
    end := StrCpy(out, end, name);
    end := PutChar(out, end, ':');
    if fmt {
      end := PutChar(out, end, ' ');
    }
    assert out[..end] == old(out[..at]) + Indent(fmt, depth) + name + ":" + Pretty(fmt, " ");
    end := StrCpy(out, end, text);
    end := PutMemberEnd(out, end, more, fmt);
  }

  lemma NextMember(names: seq<string>, texts: seq<string>, i: nat, depth: nat, fmt: bool, before: string)
    requires |names| == |texts| && i < |names|
    ensures before + JoinMembers(names[i..], texts[i..], depth, fmt)
         == (((((before + Indent(fmt, depth)) + names[i]) + ":") + Pretty(fmt, " ")) + texts[i])
            + MemberEnd(i + 1 < |names|, fmt) + JoinMembers(names[i + 1..], texts[i + 1..], depth, fmt)
  {
    assert names[i..][1..] == names[i + 1..] && texts[i..][1..] == texts[i + 1..];
    var a, b, c, d, e := Indent(fmt, depth), names[i], Pretty(fmt, " "), texts[i], MemberEnd(i + 1 < |names|, fmt);
    var f := JoinMembers(names[i + 1..], texts[i + 1..], depth, fmt);
    Assoc(before + a + b + ":" + c + d, e, f);
    Assoc(before + a + b + ":" + c, d, e + f);
    Assoc(before + a + b + ":", c, d + (e + f));
    Assoc(before + a + b, ":", c + (d + (e + f)));
    Assoc(before + a, b, ":" + (c + (d + (e + f))));
    Assoc(before, a, b + (":" + (c + (d + (e + f)))));
  }

  lemma MemberLength(names: seq<string>, texts: seq<string>, i: nat, depth: nat, fmt: bool)
    requires |names| == |texts| && i < |names|
    ensures |JoinMembers(names[i..], texts[i..], depth, fmt)| ==
      IfPretty(fmt, depth + 1) + |names[i]| + 1 + |texts[i]| + |MemberEnd(i + 1 < |names|, fmt)|
      + |JoinMembers(names[i + 1..], texts[i + 1..], depth, fmt)|
  {
    assert names[i..][1..] == names[i + 1..] && texts[i..][1..] == texts[i + 1..];
  }

  lemma NoMembers(depth: nat, fmt: bool)
    ensures JoinMembers([], [], depth, fmt) == ""
  {
  }

  /** The members, at depth `depth`. */
  method PutMembers(out: array<char>, at: nat, names: seq<string>, texts: seq<string>, depth: nat, fmt: bool)
    returns (end: nat)
    requires |names| == |texts| && at + |JoinMembers(names, texts, depth, fmt)| < out.Length
    modifies out
    ensures end == at + |JoinMembers(names, texts, depth, fmt)|
    ensures out[..end] == old(out[..at]) + JoinMembers(names, texts, depth, fmt)
  {
    hide JoinMembers;
    NoMembers(depth, fmt);
    end := at;
    var i := 0;
    ghost var whole := out[..at] + JoinMembers(names, texts, depth, fmt);
    while i < |names|
      invariant 0 <= i <= |names|
      invariant 0 <= end && end + |JoinMembers(names[i..], texts[i..], depth, fmt)| == |whole|
      invariant out[..end] + JoinMembers(names[i..], texts[i..], depth, fmt) == whole
    {
      NextMember(names, texts, i, depth, fmt, out[..end]);
      MemberLength(names, texts, i, depth, fmt);
      end := PutMember(out, end, names[i], texts[i], depth, fmt, i != |names| - 1);
      i := i + 1;
    }
    assert out[..end] == whole;
  }

  /** The second half of print_object, for an object at `depth`. */
  method ComposeObject(names: seq<string>, texts: seq<string>, depth: nat, fmt: bool, len: nat)
    returns (out: array<char>)
    requires |names| == |texts| && len == ObjectLength(names, texts, depth + 1, fmt)
    ensures fresh(out) && out.Length == len && Holds(out, ObjectText(names, texts, depth, fmt))
  {
    ObjectFits(names, texts, depth, fmt);
    ghost var members := JoinMembers(names, texts, depth + 1, fmt);
    out := new char[len];
    out[0] := '{';
    var ptr := 1;
    assert out[..1] == "{";
    if fmt {
      ptr := PutChar(out, ptr, '\n');
    }
    out[ptr] := '\0';
    assert out[..ptr] == "{" + Pretty(fmt, "\n");
    ptr := PutMembers(out, ptr, names, texts, depth + 1, fmt);
    if fmt {
      ptr := PutSpaces(out, ptr, depth);
    }
    assert out[..ptr] == "{" + Pretty(fmt, "\n") + members + Indent(fmt, depth);
    ptr := PutChar(out, ptr, '}');
    Assoc("{" + Pretty(fmt, "\n") + members, Indent(fmt, depth), "}");
    Assoc("{" + Pretty(fmt, "\n"), members, Indent(fmt, depth) + "}");
    Assoc("{", Pretty(fmt, "\n"), members + (Indent(fmt, depth) + "}"));
    out[ptr] := '\0';
  }
}
