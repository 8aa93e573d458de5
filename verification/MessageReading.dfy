/** What a message is read as, member by member: of each name the first counts, and what is missing
    or of another type keeps the value that a new object has (dap/dap.cpp). */
module MessageReading {
  import opened Wrappers
  import opened JsonValues
  import opened JsonAccess
  import opened Messages

  /** The first member of that name has that value. */
  predicate Has(members: seq<Member>, name: string, value: Json) {
    exists i :: 0 <= i < |members| && members[i] == Member(name, value) && Absent(members[..i], name)
  }

  predicate Absent(members: seq<Member>, name: string) {
    forall i | 0 <= i < |members| :: members[i].name != name
  }

  lemma {:induction false} Finds(members: seq<Member>, name: string)
    ensures FindMember(members, name) == None <==> Absent(members, name)
    ensures forall value :: FindMember(members, name) == Some(value) <==> Has(members, name, value)
  {
    forall value | Has(members, name, value) ensures FindMember(members, name) == Some(value) {
      var i :| 0 <= i < |members| && members[i] == Member(name, value) && Absent(members[..i], name);
      assert forall j | 0 <= j < i :: members[j] == members[..i][j];
      FindAt(members, i);
    }
    FoundIsFirst(members, name);
  }

  lemma {:induction false} FoundIsFirst(members: seq<Member>, name: string)
    ensures FindMember(members, name) == None ==> Absent(members, name)
    ensures Absent(members, name) ==> FindMember(members, name) == None
    ensures FindMember(members, name).Some? ==> Has(members, name, FindMember(members, name).value)
  {
    if members != [] {
      var rest := members[1..];
      FoundIsFirst(rest, name);
      assert forall i | 0 < i < |members| :: members[i] == rest[i - 1];
      if members[0].name == name {
        assert Absent(members[..0], name);
      } else if FindMember(rest, name).Some? {
        var value := FindMember(rest, name).value;
        var i :| 0 <= i < |rest| && rest[i] == Member(name, value) && Absent(rest[..i], name);
        var front := members[..i + 1];
        forall j | 0 <= j < |front| ensures front[j].name != name {
          assert j > 0 ==> front[j] == rest[..i][j - 1];
        }
        assert members[i + 1] == Member(name, value);
      }
    }
  }

  /** `s` is the text of the member, or the default where it is missing or no string. */
  ghost predicate IsText(members: seq<Member>, name: string, s: string, default: string) {
    && (forall text | Has(members, name, String(text)) :: s == text)
    && ((forall text :: !Has(members, name, String(text))) ==> s == default)
  }

  /** `n` is `r` without its fraction: 2.5 gives 2 and -2.5 gives -2. */
  predicate IsTruncated(n: int, r: real) {
    if r >= 0.0 then 0.0 <= n as real <= r < n as real + 1.0 else n as real - 1.0 < r <= n as real <= 0.0
  }

  /** `n` is the number of the member, or the default where it is missing or no number. */
  ghost predicate IsNumber(members: seq<Member>, name: string, n: int, default: int) {
    && (forall r | Has(members, name, Number(r)) :: IsTruncated(n, r))
    && ((forall r :: !Has(members, name, Number(r))) ==> n == default)
  }

  lemma StringIsRead(members: seq<Member>, name: string, default: string)
    ensures IsText(members, name, GetString(Property(Some(Object(members)), name), default), default)
  {
    Finds(members, name);
  }

  lemma TowardZero(r: real)
    ensures IsTruncated(Truncate(r), r)
  {
  }

  lemma IntegerIsRead(members: seq<Member>, name: string, default: int)
    ensures IsNumber(members, name, GetInteger(Property(Some(Object(members)), name), default), default)
  {
    Finds(members, name);
    var v := FindMember(members, name);
    if v.Some? && v.value.Number? {
      TowardZero(v.value.value);
    }
    hide IsTruncated, Truncate, Has, FindMember;
  }

  lemma BoolIsRead(members: seq<Member>, name: string)
    ensures GetBool(Property(Some(Object(members)), name), false) <==> Has(members, name, True)
  {
    Finds(members, name);
  }

  /** The elements of a member; there are none where it is missing. */
  lemma ElementsAreRead(members: seq<Member>, name: string)
    ensures var items := Children(Property(Some(Object(members)), name));
      && (Absent(members, name) ==> items == [])
      && (forall values | Has(members, name, Array(values)) :: items == values)
      && (forall ms: seq<Member> | Has(members, name, Object(ms)) ::
            |items| == |ms| && forall i | 0 <= i < |ms| :: items[i] == ms[i].value)
  {
    Finds(members, name);
  }

  // ---------------------------------------------------------------- the parts of a message

  /** A source: name and path are empty and the reference is 0 where they are missing. */
  lemma SourceIsRead(members: seq<Member>)
    ensures var s := SourceFrom(Some(Object(members)));
      && IsText(members, "name", s.name, "")
      && IsText(members, "path", s.path, "")
      && IsNumber(members, "sourceReference", s.sourceReference, 0)
  {
    StringIsRead(members, "name", "");
    StringIsRead(members, "path", "");
    IntegerIsRead(members, "sourceReference", 0);
    hide GetString, GetInteger, Property, Has, IsText, IsNumber;
  }

  lemma FrameIsRead(members: seq<Member>)
    ensures var f := StackFrameFrom(Some(Object(members)));
      && IsNumber(members, "id", f.id, -1)
      && IsNumber(members, "line", f.line, -1)
      && IsText(members, "name", f.name, "")
      && (Absent(members, "source") ==> f.source == Source("", "", 0))
      && (forall v | Has(members, "source", v) :: f.source == SourceFrom(Some(v)))
  {
    IntegerIsRead(members, "id", -1);
    IntegerIsRead(members, "line", -1);
    StringIsRead(members, "name", "");
    Finds(members, "source");
    hide GetString, GetInteger, Has, IsText, IsNumber, Absent, FindMember;
    assert SourceFrom(None) == Source("", "", 0) by {
      NoSource();
    }
  }

  lemma NoSource()
    ensures SourceFrom(None) == Source("", "", 0)
  {
  }

  lemma BreakpointIsRead(members: seq<Member>)
    ensures var b := SourceBreakpointFrom(Some(Object(members)));
      && IsNumber(members, "line", b.line, -1)
      && IsText(members, "condition", b.condition, "")
  {
    IntegerIsRead(members, "line", -1);
    StringIsRead(members, "condition", "");
    hide GetString, GetInteger, Property, Has, IsText, IsNumber;
  }

  // ---------------------------------------------------------------- messages

  /** The object says that it is a message of that type and command. */
  predicate Says(v: Json, type_: string, command: string) {
    v.Object? && Has(v.members, "type", String(type_)) && Has(v.members, "command", String(command))
  }

  lemma TypeIsRead(members: seq<Member>)
    ensures var type_ := GetString(Property(Some(Object(members)), "type"), "");
      var command := GetString(Property(Some(Object(members)), "command"), "");
      && (type_ == "request" <==> Has(members, "type", String("request")))
      && (type_ == "response" <==> Has(members, "type", String("response")))
      && (command == "setBreakpoints" <==> Has(members, "command", String("setBreakpoints")))
      && (command == "stackTrace" <==> Has(members, "command", String("stackTrace")))
  {
    StringIsRead(members, "type", "");
    StringIsRead(members, "command", "");
    Finds(members, "type");
    Finds(members, "command");
    hide Has, FindMember;
  }

  /** Of the classes modelled here an object is made exactly for these two. */
  lemma DispatchIs(v: Json)
    ensures FromJson(Some(v)).Some? <==> Says(v, "request", "setBreakpoints") || Says(v, "response", "stackTrace")
    ensures FromJson(None) == None
    ensures Says(v, "request", "setBreakpoints") ==> FromJson(Some(v)) == Some(RequestFrom(Some(v)))
    ensures Says(v, "response", "stackTrace") ==> FromJson(Some(v)) == Some(ResponseFrom(Some(v)))
  {
    hide Has, RequestFrom, ResponseFrom;
    if v.Object? {
      TypeIsRead(v.members);
      hide GetString, Property;
    }
  }

  /** A stack trace response, with whatever members it has. */
  lemma ResponseIsRead(members: seq<Member>)
    requires Says(Object(members), "response", "stackTrace")
    ensures FromJson(Some(Object(members))).Some? && FromJson(Some(Object(members))).value.StackTraceResponse?
    ensures var m := FromJson(Some(Object(members))).value;
      && IsNumber(members, "seq", m.number, -1)
      && IsNumber(members, "request_seq", m.request_seq, -1)
      && (m.success <==> Has(members, "success", True))
      && IsText(members, "message", m.message, "")
  {
    DispatchIs(Object(members));
    IntegerIsRead(members, "seq", -1);
    IntegerIsRead(members, "request_seq", -1);
    BoolIsRead(members, "success");
    StringIsRead(members, "message", "");
    hide GetString, GetInteger, GetBool, Property, Has, IsText, IsNumber, FromJson;
  }

  /** Its frames are those of the body, one for each element, and none without a body. */
  lemma FramesAreRead(members: seq<Member>)
    requires Says(Object(members), "response", "stackTrace")
    ensures FromJson(Some(Object(members))) == Some(ResponseFrom(Some(Object(members))))
    ensures var frames := ResponseFrom(Some(Object(members))).stackFrames;
      && (Absent(members, "body") ==> frames == [])
      && (forall body | Has(members, "body", Object(body)) && Absent(body, "stackFrames") :: frames == [])
      && (forall body, items | Has(members, "body", Object(body)) && Has(body, "stackFrames", Array(items)) ::
            |frames| == |items| && forall i | 0 <= i < |items| :: frames[i] == StackFrameFrom(Some(items[i])))
  {
    DispatchIs(Object(members));
    Finds(members, "body");
    forall body | Has(members, "body", Object(body)) && Absent(body, "stackFrames")
      ensures Property(Property(Some(Object(members)), "body"), "stackFrames") == None
    {
      Finds(body, "stackFrames");
    }
    forall body, items | Has(members, "body", Object(body)) && Has(body, "stackFrames", Array(items))
      ensures Children(Property(Property(Some(Object(members)), "body"), "stackFrames")) == items
    {
      Finds(body, "stackFrames");
    }
    hide Has, FindMember, FromJson, StackFrameFrom;
  }

  /** A setBreakpoints request, likewise. */
  lemma RequestIsRead(members: seq<Member>)
    requires Says(Object(members), "request", "setBreakpoints")
    ensures FromJson(Some(Object(members))) == Some(RequestFrom(Some(Object(members))))
    ensures var m := RequestFrom(Some(Object(members)));
      && IsNumber(members, "seq", m.number, -1)
      && (Absent(members, "arguments") ==> m.source == Source("", "", 0) && m.breakpoints == [])
      && (forall args, v | Has(members, "arguments", Object(args)) && Has(args, "source", v) ::
            m.source == SourceFrom(Some(v)))
      && (forall args | Has(members, "arguments", Object(args)) && Absent(args, "source") ::
            m.source == Source("", "", 0))
      && (forall args | Has(members, "arguments", Object(args)) && Absent(args, "breakpoints") :: m.breakpoints == [])
      && (forall args, items | Has(members, "arguments", Object(args)) && Has(args, "breakpoints", Array(items)) ::
            |m.breakpoints| == |items|
            && forall i | 0 <= i < |items| :: m.breakpoints[i] == SourceBreakpointFrom(Some(items[i])))
  {
    DispatchIs(Object(members));
    IntegerIsRead(members, "seq", -1);
    Finds(members, "arguments");
    NoSource();
    forall args | Has(members, "arguments", Object(args))
      ensures var v := Property(Some(Object(members)), "arguments");
        && (Absent(args, "source") ==> Property(v, "source") == None)
        && (Absent(args, "breakpoints") ==> Property(v, "breakpoints") == None)
    {
      Finds(args, "source");
      Finds(args, "breakpoints");
    }
    forall args, v | Has(members, "arguments", Object(args)) && Has(args, "source", v)
      ensures Property(Property(Some(Object(members)), "arguments"), "source") == Some(v)
    {
      Finds(args, "source");
    }
    forall args, items | Has(members, "arguments", Object(args)) && Has(args, "breakpoints", Array(items))
      ensures Children(Property(Property(Some(Object(members)), "arguments"), "breakpoints")) == items
    {
      Finds(args, "breakpoints");
    }
    hide Has, FindMember, FromJson, SourceFrom, SourceBreakpointFrom, GetInteger, IsNumber;
  }
}
