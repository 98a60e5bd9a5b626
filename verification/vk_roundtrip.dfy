/** The registry parser reads back what the registry writer produces, at every level: struct
    members and command parameters in document order, type definitions by category, commands,
    the registry and the whole document. Also the cases it refuses or skips. */
module VkRoundTrip {
  import opened Wrappers
  import opened XmlEvents
  import opened VkParse
  import opened VkRender
  import SkipProperties

  /** The stream after an end of element. */
  predicate EndsWithEnd(tail: seq<Item>)
  {
    |tail| > 0 && IsEnd(tail[0])
  }

  lemma AllWritableTail(fs: seq<TypedName>)
    requires AllWritable(fs) && |fs| > 0
    ensures AllWritable(fs[1..]) && Writable(fs[0].ty)
  {
    assert forall i | 0 <= i < |fs[1..]| :: fs[1..][i] == fs[i + 1];
  }

  /** One `<member>` element read by `StructFields`. */
  lemma StructFieldsMember(s: seq<Item>, acc: seq<TypedName>, t: TypedName, rest: seq<Item>)
    requires |s| > 0 && s[0] == StartTag("member", [])
    requires ParseTyName(s[1..]) == Success(Parsed(t, rest))
    ensures StructFields(s, acc) == StructFields(rest, acc + [t])
  {
  }

  lemma StructFieldsEnd(tail: seq<Item>, acc: seq<TypedName>)
    requires EndsWithEnd(tail)
    ensures StructFields(tail, acc) == Success(Parsed(acc, tail[1..]))
  {
  }

  /** The members of a struct are read in document order. */
  lemma {:induction false} StructFieldsRoundTrip(fs: seq<TypedName>, acc: seq<TypedName>, tail: seq<Item>)
    requires AllWritable(fs) && EndsWithEnd(tail)
    ensures StructFields(RenderFields(fs, "member") + tail, acc) == Success(Parsed(acc + fs, tail[1..]))
    decreases |fs|
  {
    if |fs| == 0 {
      assert RenderFields(fs, "member") + tail == tail;
      assert acc + fs == acc;
      StructFieldsEnd(tail, acc);
    } else {
      AllWritableTail(fs);
      var after := RenderFields(fs[1..], "member") + tail;
      var s := RenderFields(fs, "member") + tail;
      FieldsUnfold(fs, "member", tail);
      ParseTyNameRoundTrip(fs[0], "member", after);
      StructFieldsMember(s, acc, fs[0], after);
      StructFieldsRoundTrip(fs[1..], acc + [fs[0]], tail);
      AppendHead(acc, fs);
    }
  }

  /** Appending the head of `xs`, then its tail, appends `xs`. */
  lemma AppendHead<T>(acc: seq<T>, xs: seq<T>)
    requires |xs| > 0
    ensures acc + [xs[0]] + xs[1..] == acc + xs
  {
    assert [xs[0]] + xs[1..] == xs;
    assert acc + [xs[0]] + xs[1..] == acc + ([xs[0]] + xs[1..]);
  }

  /** Splitting off the head of a concatenation, whatever its parts are. */
  lemma ConsConcat<T>(a: T, x: seq<T>, y: seq<T>, z: seq<T>)
    ensures var s := [a] + x + y + z; |s| > 0 && s[0] == a && s[1..] == x + (y + z)
  {
    var s := [a] + x + y + z;
    assert s == [a] + (x + (y + z));
  }

  /** Unfolding the first of the fields written before `tail`. */
  lemma FieldsUnfold(fs: seq<TypedName>, elem: string, tail: seq<Item>)
    requires AllWritable(fs) && |fs| > 0
    ensures AllWritable(fs[1..]) && Writable(fs[0].ty)
    ensures var s := RenderFields(fs, elem) + tail;
      |s| > 0 && s[0] == StartTag(elem, []) && s[1..] == RenderTyName(fs[0], elem) + (RenderFields(fs[1..], elem) + tail)
  {
    AllWritableTail(fs);
    ConsConcat(StartTag(elem, []), RenderTyName(fs[0], elem), RenderFields(fs[1..], elem), tail);
  }

  /** One `<param>` element read by `CommandLoop`. */
  lemma CommandLoopParam(s: seq<Item>, st: CommandState, t: TypedName, rest: seq<Item>)
    requires |s| > 0 && s[0] == StartTag("param", [])
    requires ParseTyName(s[1..]) == Success(Parsed(t, rest))
    ensures CommandLoop(s, st) == CommandLoop(rest, st.(params := st.params + [t]))
  {
  }

  lemma CommandLoopEnd(tail: seq<Item>, st: CommandState)
    requires EndsWithEnd(tail)
    ensures CommandLoop(tail, st) == Success(Parsed(st, tail[1..]))
  {
  }

  /** The parameters of a command are read in document order. */
  lemma {:induction false} ParamsRoundTrip(ps: seq<TypedName>, st: CommandState, tail: seq<Item>)
    requires AllWritable(ps) && EndsWithEnd(tail)
    ensures CommandLoop(RenderFields(ps, "param") + tail, st) == Success(Parsed(st.(params := st.params + ps), tail[1..]))
    decreases |ps|
  {
    if |ps| == 0 {
      assert RenderFields(ps, "param") + tail == tail;
      assert st.params + ps == st.params;
      CommandLoopEnd(tail, st);
    } else {
      var after := RenderFields(ps[1..], "param") + tail;
      var s := RenderFields(ps, "param") + tail;
      FieldsUnfold(ps, "param", tail);
      ParseTyNameRoundTrip(ps[0], "param", after);
      CommandLoopParam(s, st, ps[0], after);
      ParamsRoundTrip(ps[1..], st.(params := st.params + [ps[0]]), tail);
      AppendHead(st.params, ps);
    }
  }

  /** The attributes written for each category are found where the parser looks for them. */
  lemma WrittenAttributes(d: VkTypeDef)
    ensures FindAttr(TypeAttrs(d), "category") == Some(
      match d
      case Enum(_) => "enum"
      case Bitmask(_) => "bitmask"
      case Handle(_) => "handle"
      case Struct(_, _) => "struct")
    ensures (d.Enum? || d.Struct?) ==> FindAttr(TypeAttrs(d), "name") == Some(d.name)
  {
    var attrs := TypeAttrs(d);
    assert attrs[0].name == Local("category");
    if d.Enum? || d.Struct? {
      assert attrs[1].name == Local("name");
      assert attrs[0].name != Local("name");
    }
  }

  /** How `parse_type` reads each kept category, given what its readers return. */
  lemma ParseTypeEnum(s: seq<Item>, attrs: seq<Attribute>, n: string, rest: seq<Item>)
    requires FindAttr(attrs, "category") == Some("enum") && FindAttr(attrs, "name") == Some(n)
    requires SkipElement(s, Local("type")) == Success(rest)
    ensures ParseType(s, attrs) == Success(Parsed(Some(Enum(n)), rest))
  {
  }

  lemma ParseTypeBitmask(s: seq<Item>, attrs: seq<Attribute>, t: TypedName, rest: seq<Item>)
    requires FindAttr(attrs, "category") == Some("bitmask")
    requires ParseTyName(s) == Success(Parsed(t, rest))
    ensures ParseType(s, attrs) == Success(Parsed(Some(Bitmask(t.name)), rest))
  {
  }

  lemma ParseTypeHandle(s: seq<Item>, attrs: seq<Attribute>, t: TypedName, rest: seq<Item>)
    requires FindAttr(attrs, "category") == Some("handle")
    requires ParseTyName(s) == Success(Parsed(t, rest))
    ensures ParseType(s, attrs) == Success(Parsed(Some(Handle(t.name)), rest))
  {
  }

  lemma ParseTypeStruct(s: seq<Item>, attrs: seq<Attribute>, n: string, fs: seq<TypedName>, rest: seq<Item>)
    requires FindAttr(attrs, "category") == Some("struct") && FindAttr(attrs, "name") == Some(n)
    requires StructFields(s, []) == Success(Parsed(fs, rest))
    ensures ParseType(s, attrs) == Success(Parsed(Some(Struct(n, fs)), rest))
  {
  }

  lemma EnumRoundTrip(n: string, rest: seq<Item>)
    ensures ParseType([EndTag("type")] + rest, TypeAttrs(Enum(n))) == Success(Parsed(Some(Enum(n)), rest))
  {
    WrittenAttributes(Enum(n));
    SkipProperties.SkipRendered([], Local("type"), rest);
    assert SkipProperties.RenderAll([]) + [EndTag("type")] + rest == [EndTag("type")] + rest;
    ParseTypeEnum([EndTag("type")] + rest, TypeAttrs(Enum(n)), n, rest);
  }

  lemma BitmaskRoundTrip(n: string, rest: seq<Item>)
    ensures ParseType(TypeBody(Bitmask(n)) + rest, TypeAttrs(Bitmask(n))) == Success(Parsed(Some(Bitmask(n)), rest))
  {
    var t := TypedName(Ident("VkFlags"), n);
    WrittenAttributes(Bitmask(n));
    ParseTyNameRoundTrip(t, "type", rest);
    ParseTypeBitmask(RenderTyName(t, "type") + rest, TypeAttrs(Bitmask(n)), t, rest);
  }

  lemma HandleRoundTrip(n: string, rest: seq<Item>)
    ensures ParseType(TypeBody(Handle(n)) + rest, TypeAttrs(Handle(n))) == Success(Parsed(Some(Handle(n)), rest))
  {
    var t := TypedName(Ident("VK_DEFINE_HANDLE"), n);
    WrittenAttributes(Handle(n));
    ParseTyNameRoundTrip(t, "type", rest);
    ParseTypeHandle(RenderTyName(t, "type") + rest, TypeAttrs(Handle(n)), t, rest);
  }

  lemma StructRoundTrip(n: string, fs: seq<TypedName>, rest: seq<Item>)
    requires AllWritable(fs)
    ensures ParseType(TypeBody(Struct(n, fs)) + rest, TypeAttrs(Struct(n, fs))) == Success(Parsed(Some(Struct(n, fs)), rest))
  {
    var s := RenderFields(fs, "member") + [EndTag("type")] + rest;
    assert s == RenderFields(fs, "member") + ([EndTag("type")] + rest);
    WrittenAttributes(Struct(n, fs));
    StructFieldsRoundTrip(fs, [], [EndTag("type")] + rest);
    assert [] + fs == fs;
    ParseTypeStruct(s, TypeAttrs(Struct(n, fs)), n, fs, rest);
  }

  /** `parse_type` reads back each kept definition. */
  lemma ParseTypeRoundTrip(d: VkTypeDef, rest: seq<Item>)
    requires WritableDef(d)
    ensures ParseType(TypeBody(d) + rest, TypeAttrs(d)) == Success(Parsed(Some(d), rest))
  {
    match d
    case Enum(n) => EnumRoundTrip(n, rest);
    case Bitmask(n) => BitmaskRoundTrip(n, rest);
    case Handle(n) => HandleRoundTrip(n, rest);
    case Struct(n, fs) => StructRoundTrip(n, fs, rest);
  }

  /** A `<type>` of a category that is not kept is skipped whole, whatever it contains. */
  lemma IgnoredTypeSkipped(category: string, children: seq<SkipProperties.Node>, rest: seq<Item>)
    requires Ignored(category)
    requires SkipProperties.AllWellFormed(children)
    ensures ParseType(SkipProperties.RenderAll(children) + [EndTag("type")] + rest, [Attr("category", category)])
      == Success(Parsed(None, rest))
  {
    assert FindAttr([Attr("category", category)], "category") == Some(category) by {
      assert [Attr("category", category)][0].name == Local("category");
    }
    SkipProperties.SkipRendered(children, Local("type"), rest);
  }

  /** A `<type>` whose category the parser does not know is refused. */
  lemma UnknownCategoryRefused(category: string, s: seq<Item>)
    requires !Ignored(category) && category !in {"enum", "bitmask", "handle", "struct"}
    ensures ParseType(s, [Attr("category", category)]) == Failure(UnexpectedCategory(Some(category)))
  {
    assert FindAttr([Attr("category", category)], "category") == Some(category) by {
      assert [Attr("category", category)][0].name == Local("category");
    }
  }

  lemma AllWritableDefsTail(ds: seq<VkTypeDef>)
    requires AllWritableDefs(ds) && |ds| > 0
    ensures AllWritableDefs(ds[1..]) && WritableDef(ds[0])
  {
    assert forall i | 0 <= i < |ds[1..]| :: ds[1..][i] == ds[i + 1];
  }

  /** The stream after the end of element `n`. */
  predicate ClosedBy(tail: seq<Item>, n: string)
  {
    |tail| > 0 && tail[0] == EndTag(n)
  }

  /** One kept `<type>` element read by `parse_types`. */
  lemma ParseTypesType(s: seq<Item>, out: seq<VkTypeDef>, attrs: seq<Attribute>, d: VkTypeDef, rest: seq<Item>)
    requires |s| > 0 && s[0] == StartTag("type", attrs)
    requires ParseType(s[1..], attrs) == Success(Parsed(Some(d), rest))
    ensures ParseTypes(s, out) == ParseTypes(rest, out + [d])
  {
  }

  lemma ParseTypesEnd(tail: seq<Item>, out: seq<VkTypeDef>)
    requires ClosedBy(tail, "types")
    ensures ParseTypes(tail, out) == Success(Parsed(out, tail[1..]))
  {
  }

  /** Unfolding the first of the definitions written before `tail`. */
  lemma TypesUnfold(ds: seq<VkTypeDef>, tail: seq<Item>)
    requires AllWritableDefs(ds) && |ds| > 0
    ensures AllWritableDefs(ds[1..]) && WritableDef(ds[0])
    ensures var s := RenderTypeDefs(ds) + tail;
      |s| > 0 && s[0] == StartTag("type", TypeAttrs(ds[0])) && s[1..] == TypeBody(ds[0]) + (RenderTypeDefs(ds[1..]) + tail)
  {
    AllWritableDefsTail(ds);
    ConsConcat(StartTag("type", TypeAttrs(ds[0])), TypeBody(ds[0]), RenderTypeDefs(ds[1..]), tail);
  }

  /** A written `<type>` element is read by `parse_types` and appended. */
  lemma TypeThen(s: seq<Item>, d: VkTypeDef, after: seq<Item>, acc: seq<VkTypeDef>)
    requires WritableDef(d)
    requires |s| > 0 && s[0] == StartTag("type", TypeAttrs(d)) && s[1..] == TypeBody(d) + after
    ensures ParseTypes(s, acc) == ParseTypes(after, acc + [d])
  {
    ParseTypeRoundTrip(d, after);
    ParseTypesType(s, acc, TypeAttrs(d), d, after);
  }

  lemma TypesStep(ds: seq<VkTypeDef>, acc: seq<VkTypeDef>, tail: seq<Item>)
    requires AllWritableDefs(ds) && |ds| > 0
    ensures AllWritableDefs(ds[1..])
    ensures ParseTypes(RenderTypeDefs(ds) + tail, acc) == ParseTypes(RenderTypeDefs(ds[1..]) + tail, acc + [ds[0]])
  {
    TypesUnfold(ds, tail);
    TypeThen(RenderTypeDefs(ds) + tail, ds[0], RenderTypeDefs(ds[1..]) + tail, acc);
  }

  /** `parse_types` reads the definitions in document order. */
  lemma {:induction false} ParseTypesRoundTrip(ds: seq<VkTypeDef>, acc: seq<VkTypeDef>, tail: seq<Item>)
    requires AllWritableDefs(ds) && ClosedBy(tail, "types")
    ensures ParseTypes(RenderTypeDefs(ds) + tail, acc) == Success(Parsed(acc + ds, tail[1..]))
    decreases |ds|
  {
    if |ds| == 0 {
      assert RenderTypeDefs(ds) + tail == tail;
      assert acc + ds == acc;
      ParseTypesEnd(tail, acc);
    } else {
      TypesStep(ds, acc, tail);
      ParseTypesRoundTrip(ds[1..], acc + [ds[0]], tail);
      AppendHead(acc, ds);
    }
  }

  /** The `<proto>` element read by `CommandLoop`. */
  lemma CommandLoopProto(s: seq<Item>, st: CommandState, t: TypedName, rest: seq<Item>)
    requires |s| > 0 && s[0] == StartTag("proto", [])
    requires ParseTyName(s[1..]) == Success(Parsed(t, rest))
    ensures CommandLoop(s, st) == CommandLoop(rest, st.(name := t.name, retTy := t.ty))
  {
  }

  /** `parse_command` keeps what its loop collected once it has a name and a return type. */
  lemma ParseCommandOf(s: seq<Item>, attrs: seq<Attribute>, st: CommandState, rest: seq<Item>)
    requires CommandLoop(s, EmptyCommand) == Success(Parsed(st, rest))
    requires st.name != "" && st.retTy != Ident("")
    ensures ParseCommand(s, attrs) == Success(Parsed(Some(VkCommand(st.name, st.retTy, st.params)), rest))
  {
  }

  /** Associating the parts of a written element. */
  lemma ConcatEnd<T>(a: T, x: seq<T>, y: seq<T>, e: T, rest: seq<T>)
    ensures var s := [a] + x + y + [e] + rest; |s| > 0 && s[0] == a && s[1..] == x + (y + ([e] + rest))
  {
    var s := [a] + x + y + [e] + rest;
    assert s == [a] + (x + (y + ([e] + rest)));
  }

  lemma ConsEnd<T>(a: T, x: seq<T>, e: T, rest: seq<T>)
    ensures var s := [a] + x + [e] + rest; |s| > 0 && s[0] == a && s[1..] == x + ([e] + rest)
  {
    var s := [a] + x + [e] + rest;
    assert s == [a] + (x + ([e] + rest));
  }

  /** `parse_command` reads back a command with its parameters in document order. */
  lemma ParseCommandRoundTrip(c: VkCommand, attrs: seq<Attribute>, rest: seq<Item>)
    requires WritableCommand(c)
    ensures ParseCommand(CommandBody(c) + rest, attrs) == Success(Parsed(Some(c), rest))
  {
    var t := TypedName(c.retTy, c.name);
    var end := [EndTag("command")] + rest;
    var params := RenderFields(c.params, "param") + end;
    var s := CommandBody(c) + rest;
    ConcatEnd(StartTag("proto", []), RenderTyName(t, "proto"), RenderFields(c.params, "param"), EndTag("command"), rest);
    ParseTyNameRoundTrip(t, "proto", params);
    CommandLoopProto(s, EmptyCommand, t, params);
    var st := EmptyCommand.(name := c.name, retTy := c.retTy);
    ParamsRoundTrip(c.params, st, end);
    assert st.params + c.params == c.params;
    assert end[1..] == rest;
    ParseCommandOf(s, attrs, st.(params := c.params), rest);
  }

  /** A command without a prototype is an alias: kept out when it says so, refused otherwise. */
  lemma AliasCommand(attrs: seq<Attribute>, rest: seq<Item>)
    ensures ParseCommand([EndTag("command")] + rest, attrs)
      == if FindAttr(attrs, "alias").Some? then Success(Parsed(None, rest)) else Failure(MissingAlias)
  {
    assert ([EndTag("command")] + rest)[1..] == rest;
    CommandLoopEnd([EndTag("command")] + rest, EmptyCommand);
  }

  lemma AllWritableCommandsTail(cs: seq<VkCommand>)
    requires AllWritableCommands(cs) && |cs| > 0
    ensures AllWritableCommands(cs[1..]) && WritableCommand(cs[0])
  {
    assert forall i | 0 <= i < |cs[1..]| :: cs[1..][i] == cs[i + 1];
  }

  /** One kept `<command>` element read by `parse_commands`. */
  lemma ParseCommandsCommand(s: seq<Item>, out: seq<VkCommand>, c: VkCommand, rest: seq<Item>)
    requires |s| > 0 && s[0] == StartTag("command", [])
    requires ParseCommand(s[1..], []) == Success(Parsed(Some(c), rest))
    ensures ParseCommands(s, out) == ParseCommands(rest, out + [c])
  {
  }

  lemma ParseCommandsEnd(tail: seq<Item>, out: seq<VkCommand>)
    requires EndsWithEnd(tail)
    ensures ParseCommands(tail, out) == Success(Parsed(out, tail[1..]))
  {
  }

  /** Unfolding the first of the commands written before `tail`. */
  lemma CommandsUnfold(cs: seq<VkCommand>, tail: seq<Item>)
    requires AllWritableCommands(cs) && |cs| > 0
    ensures AllWritableCommands(cs[1..]) && WritableCommand(cs[0])
    ensures var s := RenderCommands(cs) + tail;
      |s| > 0 && s[0] == StartTag("command", []) && s[1..] == CommandBody(cs[0]) + (RenderCommands(cs[1..]) + tail)
  {
    AllWritableCommandsTail(cs);
    ConsConcat(StartTag("command", []), CommandBody(cs[0]), RenderCommands(cs[1..]), tail);
  }

  /** A written `<command>` element is read by `parse_commands` and appended. */
  lemma CommandThen(s: seq<Item>, c: VkCommand, after: seq<Item>, acc: seq<VkCommand>)
    requires WritableCommand(c)
    requires |s| > 0 && s[0] == StartTag("command", []) && s[1..] == CommandBody(c) + after
    ensures ParseCommands(s, acc) == ParseCommands(after, acc + [c])
  {
    ParseCommandRoundTrip(c, [], after);
    ParseCommandsCommand(s, acc, c, after);
  }

  /** `parse_commands` reads the commands in document order. */
  lemma {:induction false} ParseCommandsRoundTrip(cs: seq<VkCommand>, acc: seq<VkCommand>, tail: seq<Item>)
    requires AllWritableCommands(cs) && EndsWithEnd(tail)
    ensures ParseCommands(RenderCommands(cs) + tail, acc) == Success(Parsed(acc + cs, tail[1..]))
    decreases |cs|
  {
    if |cs| == 0 {
      assert RenderCommands(cs) + tail == tail;
      assert acc + cs == acc;
      ParseCommandsEnd(tail, acc);
    } else {
      CommandsUnfold(cs, tail);
      CommandThen(RenderCommands(cs) + tail, cs[0], RenderCommands(cs[1..]) + tail, acc);
      ParseCommandsRoundTrip(cs[1..], acc + [cs[0]], tail);
      AppendHead(acc, cs);
    }
  }

  /** A `<types>` section read by `parse_registry`: kept when none was kept before, refused
      otherwise. */
  lemma RegistryTypes(s: seq<Item>, out: VkRegistry, ds: seq<VkTypeDef>, rest: seq<Item>)
    requires |s| > 0 && s[0] == StartTag("types", [])
    requires ParseTypes(s[1..], []) == Success(Parsed(ds, rest))
    ensures ParseRegistry(s, out)
      == if out.typeDefs != [] then Failure(TypesAlreadySet) else ParseRegistry(rest, out.(typeDefs := ds))
  {
  }

  /** A `<commands>` section read by `parse_registry`. */
  lemma RegistryCommands(s: seq<Item>, out: VkRegistry, cs: seq<VkCommand>, rest: seq<Item>)
    requires |s| > 0 && s[0] == StartTag("commands", [])
    requires ParseCommands(s[1..], []) == Success(Parsed(cs, rest))
    ensures ParseRegistry(s, out)
      == if out.commands != [] then Failure(CommandsAlreadySet) else ParseRegistry(rest, out.(commands := cs))
  {
  }

  lemma RegistryEnd(tail: seq<Item>, out: VkRegistry)
    requires EndsWithEnd(tail) && out.commands != [] && out.typeDefs != []
    ensures ParseRegistry(tail, out) == Success(Parsed(out, tail[1..]))
  {
  }

  /** Reading a written `<types>` section. */
  lemma TypesSection(ds: seq<VkTypeDef>, tail: seq<Item>)
    requires AllWritableDefs(ds)
    ensures var s := [StartTag("types", [])] + RenderTypeDefs(ds) + [EndTag("types")] + tail;
      |s| > 0 && s[0] == StartTag("types", []) && ParseTypes(s[1..], []) == Success(Parsed(ds, tail))
  {
    ConsEnd(StartTag("types", []), RenderTypeDefs(ds), EndTag("types"), tail);
    ParseTypesRoundTrip(ds, [], [EndTag("types")] + tail);
    assert [] + ds == ds;
    assert ([EndTag("types")] + tail)[1..] == tail;
  }

  /** Reading a written `<commands>` section. */
  lemma CommandsSection(cs: seq<VkCommand>, tail: seq<Item>)
    requires AllWritableCommands(cs)
    ensures var s := [StartTag("commands", [])] + RenderCommands(cs) + [EndTag("commands")] + tail;
      |s| > 0 && s[0] == StartTag("commands", []) && ParseCommands(s[1..], []) == Success(Parsed(cs, tail))
  {
    ConsEnd(StartTag("commands", []), RenderCommands(cs), EndTag("commands"), tail);
    ParseCommandsRoundTrip(cs, [], [EndTag("commands")] + tail);
    assert [] + cs == cs;
    assert ([EndTag("commands")] + tail)[1..] == tail;
  }

  /** Grouping a written registry body section by section. */
  lemma Regroup<T>(a: T, x: seq<T>, b: T, c: T, y: seq<T>, d: T, e: T, rest: seq<T>)
    ensures [a] + x + [b] + [c] + y + [d] + [e] + rest == [a] + x + [b] + ([c] + y + [d] + ([e] + rest))
  {
  }

  /** `parse_registry` reads back a registry with both sections non-empty. */
  lemma ParseRegistryRoundTrip(r: VkRegistry, rest: seq<Item>)
    requires WritableRegistry(r) && r.commands != [] && r.typeDefs != []
    ensures ParseRegistry(RegistryBody(r) + rest, VkRegistry([], [])) == Success(Parsed(r, rest))
  {
    var end := [EndTag("registry")] + rest;
    var commands := [StartTag("commands", [])] + RenderCommands(r.commands) + [EndTag("commands")] + end;
    var s := RegistryBody(r) + rest;
    Regroup(StartTag("types", []), RenderTypeDefs(r.typeDefs), EndTag("types"),
      StartTag("commands", []), RenderCommands(r.commands), EndTag("commands"), EndTag("registry"), rest);
    TypesSection(r.typeDefs, commands);
    RegistryTypes(s, VkRegistry([], []), r.typeDefs, commands);
    CommandsSection(r.commands, end);
    RegistryCommands(commands, VkRegistry([], r.typeDefs), r.commands, end);
    RegistryEnd(end, r);
    assert end[1..] == rest;
  }

  /** `parse` once the registry has been read: the trailer must end the document and the
      stream. */
  lemma ParseOf(s: seq<Item>, r: VkRegistry, rest: seq<Item>)
    requires |s| >= 2 && s[0] == Success(StartDocument) && s[1] == StartTag("registry", [])
    requires ParseRegistry(s[2..], VkRegistry([], [])) == Success(Parsed(r, rest))
    ensures Parse(s) == match Trailer(rest)
      case Failure(f) => Failure(f)
      case Success(after) => if |after| == 0 then Success(r) else Failure(Unexpected(Some(after[0])))
  {
  }

  /** The stream after the start of the document and of `<registry>`. */
  lemma DocumentSplit<T>(a: T, b: T, body: seq<T>, trailer: seq<T>, extra: seq<T>)
    ensures var s := [a, b] + body + trailer + extra;
      |s| >= 2 && s[0] == a && s[1] == b && s[2..] == body + (trailer + extra)
  {
    var s := [a, b] + body + trailer + extra;
    assert s == [a, b] + (body + (trailer + extra));
  }

  /** The trailer a document is written with, followed by `extra`. */
  lemma ReadTrailer(extra: seq<Item>)
    ensures Trailer([Success(Whitespace("\n")), Success(EndDocument)] + extra) == Success(extra)
  {
    var t := [Success(Whitespace("\n")), Success(EndDocument)] + extra;
    assert t[1..] == [Success(EndDocument)] + extra;
    assert t[1..][1..] == extra;
  }

  /** A written document followed by `extra`: read back when `extra` is empty, refused at
      its first item otherwise. */
  lemma ParseDocument(r: VkRegistry, extra: seq<Item>)
    requires WritableRegistry(r) && r.commands != [] && r.typeDefs != []
    ensures Parse(RenderDocument(r) + extra)
      == if |extra| == 0 then Success(r) else Failure(Unexpected(Some(extra[0])))
  {
    var trailer: seq<Item> := [Success(Whitespace("\n")), Success(EndDocument)];
    var s := RenderDocument(r) + extra;
    DocumentSplit(Success(StartDocument), StartTag("registry", []), RegistryBody(r), trailer, extra);
    ParseRegistryRoundTrip(r, trailer + extra);
    ReadTrailer(extra);
    ParseOf(s, r, trailer + extra);
  }

  /** `parse` reads back a whole registry document. */
  lemma ParseRoundTrip(r: VkRegistry)
    requires WritableRegistry(r) && r.commands != [] && r.typeDefs != []
    ensures Parse(RenderDocument(r)) == Success(r)
  {
    ParseDocument(r, []);
    assert RenderDocument(r) + [] == RenderDocument(r);
  }

  /** Anything after the end of the document is refused. */
  lemma ParseRefusesTrailingItem(r: VkRegistry, x: Item)
    requires WritableRegistry(r) && r.commands != [] && r.typeDefs != []
    ensures Parse(RenderDocument(r) + [x]) == Failure(Unexpected(Some(x)))
  {
    ParseDocument(r, [x]);
  }

  /** A second `<types>` section is refused once the first one defined something. */
  lemma SecondTypesSectionRefused(ds1: seq<VkTypeDef>, ds2: seq<VkTypeDef>, rest: seq<Item>)
    requires AllWritableDefs(ds1) && AllWritableDefs(ds2) && ds1 != []
    ensures
      var second := [StartTag("types", [])] + RenderTypeDefs(ds2) + [EndTag("types")] + rest;
      ParseRegistry([StartTag("types", [])] + RenderTypeDefs(ds1) + [EndTag("types")] + second, VkRegistry([], []))
        == Failure(TypesAlreadySet)
  {
    var second := [StartTag("types", [])] + RenderTypeDefs(ds2) + [EndTag("types")] + rest;
    var s := [StartTag("types", [])] + RenderTypeDefs(ds1) + [EndTag("types")] + second;
    TypesSection(ds1, second);
    RegistryTypes(s, VkRegistry([], []), ds1, second);
    TypesSection(ds2, rest);
    RegistryTypes(second, VkRegistry([], ds1), ds2, rest);
  }

  /** Reading a `<types>` section that defines nothing. */
  lemma EmptyTypesSection(tail: seq<Item>)
    ensures var s := [StartTag("types", []), EndTag("types")] + tail;
      |s| > 0 && s[0] == StartTag("types", []) && ParseTypes(s[1..], []) == Success(Parsed([], tail))
  {
    var s := [StartTag("types", []), EndTag("types")] + tail;
    assert s[1..] == [EndTag("types")] + tail;
    ParseTypesEnd(s[1..], []);
  }

  /** The check before assigning a section is that the value it replaces is empty: after a
      `<types>` section that defined nothing, a second one is accepted and kept. */
  lemma EmptyTypesSectionReplaced(ds2: seq<VkTypeDef>, rest: seq<Item>)
    requires AllWritableDefs(ds2)
    ensures
      var second := [StartTag("types", [])] + RenderTypeDefs(ds2) + [EndTag("types")] + rest;
      ParseRegistry([StartTag("types", []), EndTag("types")] + second, VkRegistry([], []))
        == ParseRegistry(rest, VkRegistry([], ds2))
  {
    var second := [StartTag("types", [])] + RenderTypeDefs(ds2) + [EndTag("types")] + rest;
    var s := [StartTag("types", []), EndTag("types")] + second;
    EmptyTypesSection(second);
    RegistryTypes(s, VkRegistry([], []), [], second);
    TypesSection(ds2, rest);
    RegistryTypes(second, VkRegistry([], []), ds2, rest);
  }
}
