/** The parser of the Vulkan API registry (`vk.xml`): a recursive descent over the XML event
    stream that keeps the commands and the enum, bitmask, handle and struct type definitions.

    Every parsing function takes the remaining stream and, on success, returns its value with
    the stream left after the element it parsed. A panic of the parser is a `Failure` naming
    the reason; an unexpected event carries the item (or `None` at the end of the stream). */
module VkParse {
  import opened Wrappers
  import opened Seqs
  import opened XmlEvents

  datatype VkType =
    | Ident(ident: string)
    | MutPointer(pointee: VkType)
    | ConstPointer(pointee: VkType)
    | Array(element: VkType, length: string)

  /** A struct field, command parameter or prototype: a type and a name. */
  datatype TypedName = TypedName(ty: VkType, name: string)

  datatype VkTypeDef =
    | Enum(name: string)
    | Bitmask(name: string)
    | Handle(name: string)
    | Struct(name: string, fields: seq<TypedName>)

  datatype VkCommand = VkCommand(name: string, retTy: VkType, params: seq<TypedName>)

  datatype VkRegistry = VkRegistry(commands: seq<VkCommand>, typeDefs: seq<VkTypeDef>)

  datatype ParseFailure =
    | Unexpected(got: Option<Item>)
    | UnknownArrayLength
    | MissingNameAttribute
    | UnexpectedCategory(category: Option<string>)
    | TypesEndMismatch(end: Name)
    | MissingAlias
    | TypesAlreadySet
    | CommandsAlreadySet
    | NoCommands
    | NoTypeDefs

  /** A parsed value and the stream after it. */
  datatype Parsed<T> = Parsed(value: T, rest: seq<Item>)

  /** The failure for the item at the head of `s`, or for the end of the stream. */
  function UnexpectedAt(s: seq<Item>): ParseFailure
  {
    Unexpected(if |s| == 0 then None else Some(s[0]))
  }

  /** `name_equals`: the name is unqualified and its local part is `expected`. */
  function NameEquals(name: Name, expected: string): (r: bool)
    ensures r <==> name == Local(expected)
  {
    name.namespace.None? && name.prefix.None? && name.localName == expected
  }

  /** `find_attr`: the value of the first attribute named `name`. */
  function FindAttr(attrs: seq<Attribute>, name: string): (r: Option<string>)
    ensures r.None? <==> forall i | 0 <= i < |attrs| :: attrs[i].name != Local(name)
    ensures r.Some? ==> exists i | 0 <= i < |attrs| ::
      && attrs[i].name == Local(name) && attrs[i].value == r.value
      && forall j | 0 <= j < i :: attrs[j].name != Local(name)
  {
    match FirstIndex(attrs, (a: Attribute) => NameEquals(a.name, name))
    case None => None
    case Some(i) => Some(attrs[i].value)
  }

  /** `advance_until_elem_end`: skips to just after the end of element `elem`, skipping any
      nested element whole and any text event. */
  function SkipElement(s: seq<Item>, elem: Name): (r: Result<seq<Item>, ParseFailure>)
    ensures r.Success? ==> |r.value| < |s|
    ensures r.Failure? ==> r.error.Unexpected?
    decreases |s|
  {
    if |s| == 0 then Failure(Unexpected(None))
    else if IsStart(s[0]) then
      match SkipElement(s[1..], s[0].value.name)
      case Failure(f) => Failure(f)
      case Success(rest) => SkipElement(rest, elem)
    else if IsEnd(s[0]) then
      if s[0].value.name == elem then Success(s[1..]) else Failure(UnexpectedAt(s))
    else if IsText(s[0]) then SkipElement(s[1..], elem)
    else Failure(UnexpectedAt(s))
  }

  /** `expect_characters_elem`: the texts up to the first end of element, concatenated; any
      other event before it is a failure. */
  function ExpectCharacters(s: seq<Item>): (r: Result<Parsed<string>, ParseFailure>)
    ensures r.Success? <==> TextRun(s) < |s| && IsEnd(s[TextRun(s)])
    ensures r.Success? ==> r.value.value == Texts(s[..TextRun(s)]) && r.value.rest == s[TextRun(s) + 1..]
    ensures r.Failure? ==> r.error == UnexpectedAt(s[TextRun(s)..])
  {
    if |s| == 0 then Failure(Unexpected(None))
    else if IsEnd(s[0]) then Success(Parsed("", s[1..]))
    else if IsText(s[0]) then
      match ExpectCharacters(s[1..])
      case Failure(f) => Failure(f)
      case Success(p) =>
        assert s[1..][..TextRun(s[1..])] == s[..TextRun(s)][1..];
        Success(Parsed(TextOf(s[0]) + p.value, p.rest))
    else Failure(UnexpectedAt(s))
  }

  /** What `parse_ty_name` has collected so far: the `<type>`, `<name>` and `<enum>` texts,
      and every text around them. */
  datatype TyNameState = TyNameState(ty: string, name: string, enumContent: string, surrounding: string)

  const EmptyTyName := TyNameState("", "", "", "")

  function TyNameLoop(s: seq<Item>, st: TyNameState): (r: Result<Parsed<TyNameState>, ParseFailure>)
    ensures r.Success? ==> |r.value.rest| < |s|
    ensures r.Failure? ==> r.error.Unexpected?
    decreases |s|
  {
    if |s| == 0 then Failure(Unexpected(None))
    else if IsStart(s[0]) then
      var n := s[0].value.name;
      if NameEquals(n, "name") || NameEquals(n, "type") || NameEquals(n, "enum") then
        match ExpectCharacters(s[1..])
        case Failure(f) => Failure(f)
        case Success(p) =>
          TyNameLoop(p.rest,
            if NameEquals(n, "name") then st.(name := p.value)
            else if NameEquals(n, "type") then st.(ty := p.value)
            else st.(enumContent := p.value))
      else if NameEquals(n, "comment") then
        match SkipElement(s[1..], n)
        case Failure(f) => Failure(f)
        case Success(rest) => TyNameLoop(rest, st)
      else Failure(UnexpectedAt(s))
    else if IsEnd(s[0]) then Success(Parsed(st, s[1..]))
    else if IsText(s[0]) then TyNameLoop(s[1..], st.(surrounding := st.surrounding + TextOf(s[0])))
    else Failure(UnexpectedAt(s))
  }

  /** The type described by the text around `<type>`: a pointer when it holds `*` (to const
      data when it also holds `const`), otherwise an array when it holds `[`, whose length
      is the `<enum>` text or, without one, a literal `[2]`, `[3]` or `[4]`. */
  function Classify(surrounding: string, ty: string, enumContent: string): (r: Result<VkType, ParseFailure>)
    ensures r.Success? ==> r.value in {Ident(ty), MutPointer(Ident(ty)), ConstPointer(Ident(ty))} || (r.value.Array? && r.value.element == Ident(ty))
    ensures r.Success? && r.value.Ident? ==> r.value == Ident(ty) && !Contains(surrounding, "*") && !Contains(surrounding, "[")
    ensures r.Success? && r.value.MutPointer? <==> Contains(surrounding, "*") && !Contains(surrounding, "const")
    ensures r.Success? && r.value.ConstPointer? <==> Contains(surrounding, "*") && Contains(surrounding, "const")
    ensures r.Success? && r.value.Array? ==> !Contains(surrounding, "*") && Contains(surrounding, "[")
    ensures r.Success? && r.value.Array? && enumContent != "" ==> r.value.length == enumContent
    ensures r.Success? && r.value.Array? && enumContent == "" ==> r.value.length in {"2", "3", "4"}
    ensures r.Success? && r.value.Array? && enumContent == "" ==>
      && (r.value.length == "2" <==> Contains(surrounding, "[2]"))
      && (r.value.length == "3" <==> !Contains(surrounding, "[2]") && Contains(surrounding, "[3]"))
    ensures r.Failure? <==> (!Contains(surrounding, "*") && Contains(surrounding, "[") && enumContent == ""
      && !Contains(surrounding, "[2]") && !Contains(surrounding, "[3]") && !Contains(surrounding, "[4]"))
    ensures r.Failure? ==> r.error == UnknownArrayLength
  {
    if Contains(surrounding, "*") then
      if Contains(surrounding, "const") then Success(ConstPointer(Ident(ty))) else Success(MutPointer(Ident(ty)))
    else if Contains(surrounding, "[") then
      if enumContent == "" then
        if Contains(surrounding, "[2]") then Success(Array(Ident(ty), "2"))
        else if Contains(surrounding, "[3]") then Success(Array(Ident(ty), "3"))
        else if Contains(surrounding, "[4]") then Success(Array(Ident(ty), "4"))
        else Failure(UnknownArrayLength)
      else Success(Array(Ident(ty), enumContent))
    else Success(Ident(ty))
  }

  /** `parse_ty_name`: the type and name of the element just opened. */
  function ParseTyName(s: seq<Item>): (r: Result<Parsed<TypedName>, ParseFailure>)
    ensures r.Success? ==> |r.value.rest| < |s|
    ensures r.Failure? ==> r.error.Unexpected? || r.error == UnknownArrayLength
    ensures r.Success? ==>
      && TyNameLoop(s, EmptyTyName).Success?
      && var st := TyNameLoop(s, EmptyTyName).value.value;
      && r.value.value.name == st.name
      && Classify(st.surrounding, st.ty, st.enumContent) == Success(r.value.value.ty)
  {
    match TyNameLoop(s, EmptyTyName)
    case Failure(f) => Failure(f)
    case Success(p) =>
      match Classify(p.value.surrounding, p.value.ty, p.value.enumContent)
      case Failure(f) => Failure(f)
      case Success(ty) => Success(Parsed(TypedName(ty, p.value.name), p.rest))
  }

  /** The fields of a struct, in document order, up to the end of the `<type>` element. */
  function StructFields(s: seq<Item>, fields: seq<TypedName>): (r: Result<Parsed<seq<TypedName>>, ParseFailure>)
    ensures r.Success? ==> |r.value.rest| < |s|
    ensures r.Failure? ==> r.error.Unexpected? || r.error == UnknownArrayLength
    ensures r.Success? ==> |fields| <= |r.value.value| && r.value.value[..|fields|] == fields
    decreases |s|
  {
    if |s| == 0 then Failure(Unexpected(None))
    else if IsStart(s[0]) then
      var n := s[0].value.name;
      if NameEquals(n, "member") then
        match ParseTyName(s[1..])
        case Failure(f) => Failure(f)
        case Success(p) =>
          var r := StructFields(p.rest, fields + [p.value]);
          assert r.Success? ==> r.value.value[..|fields|] == r.value.value[..|fields| + 1][..|fields|];
          r
      else if NameEquals(n, "comment") then
        match SkipElement(s[1..], n)
        case Failure(f) => Failure(f)
        case Success(rest) => StructFields(rest, fields)
      else Failure(UnexpectedAt(s))
    else if IsEnd(s[0]) then Success(Parsed(fields, s[1..]))
    else if IsText(s[0]) then StructFields(s[1..], fields)
    else Failure(UnexpectedAt(s))
  }

  /** The categories whose definitions are skipped. */
  predicate Ignored(category: string)
  {
    category in {"include", "define", "basetype", "funcpointer", "union"}
  }

  /** `parse_type`: the definition in the `<type>` element just opened with `attrs`, or
      `None` for a category that is not kept. */
  function ParseType(s: seq<Item>, attrs: seq<Attribute>): (r: Result<Parsed<Option<VkTypeDef>>, ParseFailure>)
    ensures r.Success? ==> |r.value.rest| < |s|
    ensures r.Success? && r.value.value.Some? ==>
      var d := r.value.value.value;
      && (d.Enum? <==> FindAttr(attrs, "category") == Some("enum"))
      && (d.Bitmask? <==> FindAttr(attrs, "category") == Some("bitmask"))
      && (d.Handle? <==> FindAttr(attrs, "category") == Some("handle"))
      && (d.Struct? <==> FindAttr(attrs, "category") == Some("struct"))
      && ((d.Enum? || d.Struct?) ==> FindAttr(attrs, "name") == Some(d.name))
    ensures r.Success? && r.value.value.None? ==>
      match FindAttr(attrs, "category")
      case Some(c) => Ignored(c)
      case None => FindAttr(attrs, "requires").Some? || FindAttr(attrs, "name") == Some("int")
    ensures r.Failure? && r.error.UnexpectedCategory? ==>
      && r.error.category == FindAttr(attrs, "category")
      && match r.error.category
         case Some(c) => !Ignored(c) && c !in {"enum", "bitmask", "handle", "struct"}
         case None => FindAttr(attrs, "requires").None? && FindAttr(attrs, "name") != Some("int")
    ensures r.Failure? && r.error == MissingNameAttribute ==>
      FindAttr(attrs, "category") in {Some("enum"), Some("struct")} && FindAttr(attrs, "name").None?
  {
    var typeName := Local("type");
    match FindAttr(attrs, "category")
    case Some(category) =>
      if category == "enum" then
        match FindAttr(attrs, "name")
        case None => Failure(MissingNameAttribute)
        case Some(name) =>
          match SkipElement(s, typeName)
          case Failure(f) => Failure(f)
          case Success(rest) => Success(Parsed(Some(Enum(name)), rest))
      else if category == "bitmask" || category == "handle" then
        match ParseTyName(s)
        case Failure(f) => Failure(f)
        case Success(p) =>
          Success(Parsed(Some(if category == "bitmask" then Bitmask(p.value.name) else Handle(p.value.name)), p.rest))
      else if Ignored(category) then
        match SkipElement(s, typeName)
        case Failure(f) => Failure(f)
        case Success(rest) => Success(Parsed(None, rest))
      else if category == "struct" then
        match FindAttr(attrs, "name")
        case None => Failure(MissingNameAttribute)
        case Some(name) =>
          match StructFields(s, [])
          case Failure(f) => Failure(f)
          case Success(p) => Success(Parsed(Some(Struct(name, p.value)), p.rest))
      else Failure(UnexpectedCategory(Some(category)))
    case None =>
      if FindAttr(attrs, "requires").Some? || FindAttr(attrs, "name") == Some("int") then
        match SkipElement(s, typeName)
        case Failure(f) => Failure(f)
        case Success(rest) => Success(Parsed(None, rest))
      else Failure(UnexpectedCategory(None))
  }

  /** `parse_types`: the kept definitions of the `<types>` element just opened, in document
      order, appended to `out`. */
  function ParseTypes(s: seq<Item>, out: seq<VkTypeDef>): (r: Result<Parsed<seq<VkTypeDef>>, ParseFailure>)
    ensures r.Success? ==> |r.value.rest| < |s|
    ensures r.Success? ==> |out| <= |r.value.value| && r.value.value[..|out|] == out
    ensures r.Failure? && r.error.TypesEndMismatch? ==> r.error.end != Local("types")
    decreases |s|
  {
    if |s| == 0 then Failure(Unexpected(None))
    else if IsStart(s[0]) then
      var n := s[0].value.name;
      if NameEquals(n, "type") then
        match ParseType(s[1..], s[0].value.attributes)
        case Failure(f) => Failure(f)
        case Success(p) =>
          var out' := if p.value.Some? then out + [p.value.value] else out;
          var r := ParseTypes(p.rest, out');
          assert r.Success? ==> r.value.value[..|out|] == r.value.value[..|out'|][..|out|];
          r
      else if NameEquals(n, "comment") then
        match SkipElement(s[1..], n)
        case Failure(f) => Failure(f)
        case Success(rest) => ParseTypes(rest, out)
      else Failure(UnexpectedAt(s))
    else if IsEnd(s[0]) then
      if NameEquals(s[0].value.name, "types") then Success(Parsed(out, s[1..])) else Failure(TypesEndMismatch(s[0].value.name))
    else if IsText(s[0]) then ParseTypes(s[1..], out)
    else Failure(UnexpectedAt(s))
  }

  /** What `parse_command` has collected so far. */
  datatype CommandState = CommandState(name: string, retTy: VkType, params: seq<TypedName>)

  const EmptyCommand := CommandState("", Ident(""), [])

  function CommandLoop(s: seq<Item>, st: CommandState): (r: Result<Parsed<CommandState>, ParseFailure>)
    ensures r.Success? ==> |r.value.rest| < |s|
    ensures r.Failure? ==> r.error.Unexpected? || r.error == UnknownArrayLength
    ensures r.Success? ==> |st.params| <= |r.value.value.params| && r.value.value.params[..|st.params|] == st.params
    decreases |s|
  {
    if |s| == 0 then Failure(Unexpected(None))
    else if IsStart(s[0]) then
      var n := s[0].value.name;
      if NameEquals(n, "proto") then
        match ParseTyName(s[1..])
        case Failure(f) => Failure(f)
        case Success(p) => CommandLoop(p.rest, st.(name := p.value.name, retTy := p.value.ty))
      else if NameEquals(n, "param") then
        match ParseTyName(s[1..])
        case Failure(f) => Failure(f)
        case Success(p) =>
          var st' := st.(params := st.params + [p.value]);
          var r := CommandLoop(p.rest, st');
          assert r.Success? ==> r.value.value.params[..|st.params|] == r.value.value.params[..|st'.params|][..|st.params|];
          r
      else if NameEquals(n, "implicitexternsyncparams") then
        match SkipElement(s[1..], n)
        case Failure(f) => Failure(f)
        case Success(rest) => CommandLoop(rest, st)
      else Failure(UnexpectedAt(s))
    else if IsEnd(s[0]) then Success(Parsed(st, s[1..]))
    else if IsText(s[0]) then CommandLoop(s[1..], st)
    else Failure(UnexpectedAt(s))
  }

  /** `parse_command`: the command in the `<command>` element just opened with `attrs`, or
      `None` for an alias, which has no prototype. */
  function ParseCommand(s: seq<Item>, attrs: seq<Attribute>): (r: Result<Parsed<Option<VkCommand>>, ParseFailure>)
    ensures r.Success? ==> |r.value.rest| < |s|
    ensures r.Success? && r.value.value.Some? ==> r.value.value.value.name != "" && r.value.value.value.retTy != Ident("")
    ensures r.Success? && r.value.value.None? ==> FindAttr(attrs, "alias").Some?
    ensures r.Failure? && r.error == MissingAlias ==> FindAttr(attrs, "alias").None?
    ensures r.Success? || r.error == MissingAlias <==> CommandLoop(s, EmptyCommand).Success?
    ensures CommandLoop(s, EmptyCommand).Success? ==>
      var st := CommandLoop(s, EmptyCommand).value.value;
      && ((r.Success? && r.value.value.None?) || (r.Failure? && r.error == MissingAlias) <==> st.name == "" || st.retTy == Ident(""))
      && (r.Success? && r.value.value.Some? ==> r.value.value.value == VkCommand(st.name, st.retTy, st.params))
  {
    match CommandLoop(s, EmptyCommand)
    case Failure(f) => Failure(f)
    case Success(p) =>
      if p.value.name == "" || p.value.retTy == Ident("") then
        if FindAttr(attrs, "alias").Some? then Success(Parsed(None, p.rest)) else Failure(MissingAlias)
      else Success(Parsed(Some(VkCommand(p.value.name, p.value.retTy, p.value.params)), p.rest))
  }

  /** `parse_commands`: the commands of the `<commands>` element just opened, in document
      order, appended to `out`. */
  function ParseCommands(s: seq<Item>, out: seq<VkCommand>): (r: Result<Parsed<seq<VkCommand>>, ParseFailure>)
    ensures r.Success? ==> |r.value.rest| < |s|
    ensures r.Success? ==> |out| <= |r.value.value| && r.value.value[..|out|] == out
    decreases |s|
  {
    if |s| == 0 then Failure(Unexpected(None))
    else if IsStart(s[0]) then
      var n := s[0].value.name;
      if NameEquals(n, "command") then
        match ParseCommand(s[1..], s[0].value.attributes)
        case Failure(f) => Failure(f)
        case Success(p) =>
          var out' := if p.value.Some? then out + [p.value.value] else out;
          var r := ParseCommands(p.rest, out');
          assert r.Success? ==> r.value.value[..|out|] == r.value.value[..|out'|][..|out|];
          r
      else if NameEquals(n, "comment") then
        match SkipElement(s[1..], n)
        case Failure(f) => Failure(f)
        case Success(rest) => ParseCommands(rest, out)
      else Failure(UnexpectedAt(s))
    else if IsEnd(s[0]) then Success(Parsed(out, s[1..]))
    else if IsText(s[0]) then ParseCommands(s[1..], out)
    else Failure(UnexpectedAt(s))
  }

  /** The sections of the registry whose content is not needed. */
  predicate SkippedSection(n: Name)
  {
    exists section | section in {"enums", "comment", "platforms", "tags", "feature", "extensions"} :: n == Local(section)
  }

  /** `parse_registry`: the content of the `<registry>` element just opened, added to `out`.
      A section is only assigned while the value it replaces is still empty, and the
      registry must end with both non-empty. */
  function ParseRegistry(s: seq<Item>, out: VkRegistry): (r: Result<Parsed<VkRegistry>, ParseFailure>)
    ensures r.Success? ==> |r.value.rest| < |s|
    ensures r.Success? ==> r.value.value.commands != [] && r.value.value.typeDefs != []
    ensures r.Success? && out.commands != [] ==> r.value.value.commands == out.commands
    ensures r.Success? && out.typeDefs != [] ==> r.value.value.typeDefs == out.typeDefs
    decreases |s|
  {
    if |s| == 0 then Failure(Unexpected(None))
    else if IsStart(s[0]) then
      var n := s[0].value.name;
      if NameEquals(n, "types") then
        match ParseTypes(s[1..], [])
        case Failure(f) => Failure(f)
        case Success(p) =>
          if out.typeDefs != [] then Failure(TypesAlreadySet) else ParseRegistry(p.rest, out.(typeDefs := p.value))
      else if NameEquals(n, "commands") then
        match ParseCommands(s[1..], [])
        case Failure(f) => Failure(f)
        case Success(p) =>
          if out.commands != [] then Failure(CommandsAlreadySet) else ParseRegistry(p.rest, out.(commands := p.value))
      else if SkippedSection(n) then
        match SkipElement(s[1..], n)
        case Failure(f) => Failure(f)
        case Success(rest) => ParseRegistry(rest, out)
      else Failure(UnexpectedAt(s))
    else if IsEnd(s[0]) then
      if out.commands == [] then Failure(NoCommands)
      else if out.typeDefs == [] then Failure(NoTypeDefs)
      else Success(Parsed(out, s[1..]))
    else if IsText(s[0]) then ParseRegistry(s[1..], out)
    else Failure(UnexpectedAt(s))
  }

  /** Whitespace up to the end of the document; the stream after it. */
  function Trailer(s: seq<Item>): (r: Result<seq<Item>, ParseFailure>)
    ensures r.Success? <==> exists i | 0 <= i < |s| :: EndsDocumentAt(s, i)
    ensures r.Success? ==> exists i | 0 <= i < |s| :: EndsDocumentAt(s, i) && r.value == s[i + 1..]
  {
    if |s| == 0 then Failure(Unexpected(None))
    else if s[0] == Success(EndDocument) then
      assert EndsDocumentAt(s, 0);
      Success(s[1..])
    else if s[0].Success? && s[0].value.Whitespace? then
      var r := Trailer(s[1..]);
      if r.Success? then
        var i :| 0 <= i < |s[1..]| && EndsDocumentAt(s[1..], i) && r.value == s[1..][i + 1..];
        assert EndsDocumentAt(s, i + 1);
        r
      else
        forall i | 0 <= i < |s| && EndsDocumentAt(s, i) ensures false {
          assert EndsDocumentAt(s[1..], i - 1);
        }
        r
    else
      Failure(UnexpectedAt(s))
  }

  /** `s[i]` ends the document and only whitespace comes before it. */
  predicate EndsDocumentAt(s: seq<Item>, i: int)
  {
    && 0 <= i < |s| && s[i] == Success(EndDocument)
    && forall j | 0 <= j < i :: s[j].Success? && s[j].value.Whitespace?
  }

  /** `parse`: the whole document. It is exactly a start of document, a `<registry>`
      element, whitespace, the end of the document and then the end of the stream. */
  function Parse(s: seq<Item>): (r: Result<VkRegistry, ParseFailure>)
    ensures r.Success? ==>
      && 3 <= |s| && s[0] == Success(StartDocument)
      && s[1].Success? && s[1].value.StartElement? && s[1].value.name == Local("registry")
      && ParseRegistry(s[2..], VkRegistry([], [])).Success?
      && var p := ParseRegistry(s[2..], VkRegistry([], [])).value;
      && r.value == p.value
      && EndsDocumentAt(p.rest, |p.rest| - 1)
  {
    if |s| == 0 then Failure(Unexpected(None))
    else if s[0] != Success(StartDocument) then Failure(UnexpectedAt(s))
    else if |s| == 1 then Failure(Unexpected(None))
    else if !IsStart(s[1]) || !NameEquals(s[1].value.name, "registry") then Failure(UnexpectedAt(s[1..]))
    else
          match ParseRegistry(s[2..], VkRegistry([], []))
          case Failure(f) => Failure(f)
          case Success(p) =>
            match Trailer(p.rest)
            case Failure(f) => Failure(f)
            case Success(after) =>
              if |after| != 0 then Failure(UnexpectedAt(after))
              else Success(p.value)
  }
}
