/** The registry as `vk.xml` writes it: event sequences for type-and-name pairs, type
    definitions, commands and the whole registry document. Each is read back by the parser
    into the value it was written from. */
module VkRender {
  import opened Wrappers
  import opened Seqs
  import opened XmlEvents
  import opened VkParse

  function StartTag(n: string, attrs: seq<Attribute>): Item
  {
    Success(StartElement(Local(n), attrs))
  }

  function EndTag(n: string): Item
  {
    Success(EndElement(Local(n)))
  }

  function Chars(x: string): Item
  {
    Success(Characters(x))
  }

  function Attr(n: string, v: string): Attribute
  {
    Attribute(Local(n), v)
  }

  /** `<n>x</n>` */
  function TextElem(n: string, x: string): seq<Item>
  {
    [StartTag(n, []), Chars(x), EndTag(n)]
  }

  /** The types a `<type>`/`<name>` pair can describe: an identifier, or a pointer to or an
      array of one; an array written with an `<enum>` length. */
  predicate Writable(t: VkType)
  {
    match t
    case Ident(_) => true
    case MutPointer(p) => p.Ident?
    case ConstPointer(p) => p.Ident?
    case Array(e, length) => e.Ident? && length != ""
  }

  /** The identifier a writable type is built on. */
  function BaseIdent(t: VkType): string
    requires Writable(t)
  {
    match t
    case Ident(x) => x
    case MutPointer(p) => p.ident
    case ConstPointer(p) => p.ident
    case Array(e, _) => e.ident
  }

  /** The content of a `<member>`, `<param>` or `<proto>` element, ended by `</close>`:
      `const <type>T</type>* <name>N</name>`, `<type>T</type> <name>N</name>[<enum>L</enum>]`
      and so on. */
  function RenderTyName(t: TypedName, close: string): seq<Item>
    requires Writable(t.ty)
  {
    var ty := BaseIdent(t.ty);
    match t.ty
    case Ident(_) => TextElem("type", ty) + (TextElem("name", t.name) + [EndTag(close)])
    case MutPointer(_) => TextElem("type", ty) + ([Chars("* ")] + (TextElem("name", t.name) + [EndTag(close)]))
    case ConstPointer(_) =>
      [Chars("const ")] + (TextElem("type", ty) + ([Chars("* ")] + (TextElem("name", t.name) + [EndTag(close)])))
    case Array(_, length) =>
      TextElem("type", ty) + (TextElem("name", t.name) + ([Chars("[")] + (TextElem("enum", length) + ([Chars("]")] + [EndTag(close)]))))
  }

  /** The state after reading `<n>x</n>` inside a type-and-name element. */
  function Collect(st: TyNameState, n: string, x: string): TyNameState
  {
    if n == "name" then st.(name := x) else if n == "type" then st.(ty := x) else st.(enumContent := x)
  }

  lemma ReadTextElem(n: string, x: string, s: seq<Item>, st: TyNameState)
    requires n in {"name", "type", "enum"}
    ensures TyNameLoop(TextElem(n, x) + s, st) == TyNameLoop(s, Collect(st, n, x))
  {
    var t := TextElem(n, x) + s;
    assert t[1..] == [Chars(x)] + ([EndTag(n)] + s);
    assert t[1..][1..] == [EndTag(n)] + s;
    assert ExpectCharacters(t[1..][1..]) == Success(Parsed("", s));
    assert x + "" == x;
  }

  lemma ReadText(x: string, s: seq<Item>, st: TyNameState)
    ensures TyNameLoop([Chars(x)] + s, st) == TyNameLoop(s, st.(surrounding := st.surrounding + x))
  {
    assert ([Chars(x)] + s)[1..] == s;
  }

  lemma ReadEnd(close: string, s: seq<Item>, st: TyNameState)
    ensures TyNameLoop([EndTag(close)] + s, st) == Success(Parsed(st, s))
  {
    assert ([EndTag(close)] + s)[1..] == s;
  }

  /** How each written form of the text around `<type>` is classified. */
  lemma ClassifyWritten(ty: string, length: string)
    requires length != ""
    ensures Classify("", ty, "") == Success(Ident(ty))
    ensures Classify("* ", ty, "") == Success(MutPointer(Ident(ty)))
    ensures Classify("const * ", ty, "") == Success(ConstPointer(Ident(ty)))
    ensures Classify("[]", ty, length) == Success(Array(Ident(ty), length))
  {
    assert "* "[..1] == "*";
    assert "const * "[..5] == "const";
    assert "const * "[1..][1..][1..][1..][1..][1..][..1] == "*";
    assert "[]"[..1] == "[";
    assert "]"[..1] == "]" && "]"[1..] == "";
    assert !Contains("]", "*");
    assert "[]"[1..] == "]";
  }

  /** Finishing `parse_ty_name` once the element has been read. */
  lemma FinishTyName(s: seq<Item>, st: TyNameState, rest: seq<Item>, ty: VkType)
    requires TyNameLoop(s, EmptyTyName) == Success(Parsed(st, rest))
    requires Classify(st.surrounding, st.ty, st.enumContent) == Success(ty)
    ensures ParseTyName(s) == Success(Parsed(TypedName(ty, st.name), rest))
  {
  }

  /** `parse_ty_name` reads back the type and name it was written from. */
  lemma ParseTyNameRoundTrip(t: TypedName, close: string, rest: seq<Item>)
    requires Writable(t.ty)
    ensures ParseTyName(RenderTyName(t, close) + rest) == Success(Parsed(t, rest))
  {
    match t.ty
    case Ident(ty) => ReadIdent(ty, t.name, close, rest);
    case MutPointer(p) => ReadMutPointer(p.ident, t.name, close, rest);
    case ConstPointer(p) => ReadConstPointer(p.ident, t.name, close, rest);
    case Array(e, length) => ReadArray(e.ident, t.name, length, close, rest);
  }

  lemma ReadIdent(ty: string, name: string, close: string, rest: seq<Item>)
    ensures ParseTyName(RenderTyName(TypedName(Ident(ty), name), close) + rest)
      == Success(Parsed(TypedName(Ident(ty), name), rest))
  {
    var tail := [EndTag(close)] + rest;
    var s1 := TextElem("name", name) + tail;
    var s := RenderTyName(TypedName(Ident(ty), name), close) + rest;
    assert s == TextElem("type", ty) + s1;
    ReadTextElem("type", ty, s1, EmptyTyName);
    ReadTextElem("name", name, tail, TyNameState(ty, "", "", ""));
    ReadEnd(close, rest, TyNameState(ty, name, "", ""));
    ClassifyWritten(ty, "1");
    FinishTyName(s, TyNameState(ty, name, "", ""), rest, Ident(ty));
  }

  lemma ReadMutPointer(ty: string, name: string, close: string, rest: seq<Item>)
    ensures ParseTyName(RenderTyName(TypedName(MutPointer(Ident(ty)), name), close) + rest)
      == Success(Parsed(TypedName(MutPointer(Ident(ty)), name), rest))
  {
    LoopMutPointer(ty, name, close, rest);
    ClassifyWritten(ty, "1");
    FinishTyName(RenderTyName(TypedName(MutPointer(Ident(ty)), name), close) + rest,
      TyNameState(ty, name, "", "* "), rest, MutPointer(Ident(ty)));
  }

  lemma LoopMutPointer(ty: string, name: string, close: string, rest: seq<Item>)
    ensures TyNameLoop(RenderTyName(TypedName(MutPointer(Ident(ty)), name), close) + rest, EmptyTyName)
      == Success(Parsed(TyNameState(ty, name, "", "* "), rest))
  {
    var tail := [EndTag(close)] + rest;
    var s2 := TextElem("name", name) + tail;
    var s1 := [Chars("* ")] + s2;
    var s := RenderTyName(TypedName(MutPointer(Ident(ty)), name), close) + rest;
    assert s == TextElem("type", ty) + s1;
    var st1 := TyNameState(ty, "", "", "");
    var st2 := TyNameState(ty, "", "", "* ");
    ReadTextElem("type", ty, s1, EmptyTyName);
    ReadText("* ", s2, st1);
    assert st1.surrounding + "* " == "* ";
    ReadTextElem("name", name, tail, st2);
    ReadEnd(close, rest, TyNameState(ty, name, "", "* "));
  }

  lemma ReadConstPointer(ty: string, name: string, close: string, rest: seq<Item>)
    ensures ParseTyName(RenderTyName(TypedName(ConstPointer(Ident(ty)), name), close) + rest)
      == Success(Parsed(TypedName(ConstPointer(Ident(ty)), name), rest))
  {
    LoopConstPointer(ty, name, close, rest);
    ClassifyWritten(ty, "1");
    FinishTyName(RenderTyName(TypedName(ConstPointer(Ident(ty)), name), close) + rest,
      TyNameState(ty, name, "", "const * "), rest, ConstPointer(Ident(ty)));
  }

  lemma LoopConstPointer(ty: string, name: string, close: string, rest: seq<Item>)
    ensures TyNameLoop(RenderTyName(TypedName(ConstPointer(Ident(ty)), name), close) + rest, EmptyTyName)
      == Success(Parsed(TyNameState(ty, name, "", "const * "), rest))
  {
    var tail := [EndTag(close)] + rest;
    var s3 := TextElem("name", name) + tail;
    var s2 := [Chars("* ")] + s3;
    var s1 := TextElem("type", ty) + s2;
    var s := RenderTyName(TypedName(ConstPointer(Ident(ty)), name), close) + rest;
    assert s == [Chars("const ")] + s1;
    var st1 := TyNameState("", "", "", "const ");
    var st2 := TyNameState(ty, "", "", "const ");
    var st3 := TyNameState(ty, "", "", "const * ");
    ReadText("const ", s1, EmptyTyName);
    assert EmptyTyName.surrounding + "const " == "const ";
    ReadTextElem("type", ty, s2, st1);
    ReadText("* ", s3, st2);
    assert st2.surrounding + "* " == "const * ";
    ReadTextElem("name", name, tail, st3);
    ReadEnd(close, rest, TyNameState(ty, name, "", "const * "));
  }

  lemma ReadArray(ty: string, name: string, length: string, close: string, rest: seq<Item>)
    requires length != ""
    ensures ParseTyName(RenderTyName(TypedName(Array(Ident(ty), length), name), close) + rest)
      == Success(Parsed(TypedName(Array(Ident(ty), length), name), rest))
  {
    LoopArray(ty, name, length, close, rest);
    ClassifyWritten(ty, length);
    FinishTyName(RenderTyName(TypedName(Array(Ident(ty), length), name), close) + rest,
      TyNameState(ty, name, length, "[]"), rest, Array(Ident(ty), length));
  }

  lemma LoopArray(ty: string, name: string, length: string, close: string, rest: seq<Item>)
    requires length != ""
    ensures TyNameLoop(RenderTyName(TypedName(Array(Ident(ty), length), name), close) + rest, EmptyTyName)
      == Success(Parsed(TyNameState(ty, name, length, "[]"), rest))
  {
    var tail := [EndTag(close)] + rest;
    var s5 := [Chars("]")] + tail;
    var s4 := TextElem("enum", length) + s5;
    var s3 := [Chars("[")] + s4;
    var s2 := TextElem("name", name) + s3;
    var s := RenderTyName(TypedName(Array(Ident(ty), length), name), close) + rest;
    assert s == TextElem("type", ty) + s2;
    var st2 := TyNameState(ty, name, "", "");
    var st3 := TyNameState(ty, name, "", "[");
    var st4 := TyNameState(ty, name, length, "[");
    ReadTextElem("type", ty, s2, EmptyTyName);
    ReadTextElem("name", name, s3, TyNameState(ty, "", "", ""));
    ReadText("[", s4, st2);
    assert st2.surrounding + "[" == "[";
    ReadTextElem("enum", length, s5, st3);
    ReadText("]", tail, st4);
    assert st4.surrounding + "]" == "[]";
    ReadEnd(close, rest, TyNameState(ty, name, length, "[]"));
  }
  predicate AllWritable(fs: seq<TypedName>)
  {
    forall i | 0 <= i < |fs| :: Writable(fs[i].ty)
  }

  /** `<elem>…</elem>` for each of `fs`, in order: the members of a struct or the parameters
      of a command. */
  function RenderFields(fs: seq<TypedName>, elem: string): seq<Item>
    requires AllWritable(fs)
  {
    if |fs| == 0 then [] else [StartTag(elem, [])] + RenderTyName(fs[0], elem) + RenderFields(fs[1..], elem)
  }

  predicate WritableDef(d: VkTypeDef)
  {
    d.Struct? ==> AllWritable(d.fields)
  }

  /** The attributes of the `<type>` element defining `d`. */
  function TypeAttrs(d: VkTypeDef): seq<Attribute>
  {
    match d
    case Enum(n) => [Attr("category", "enum"), Attr("name", n)]
    case Bitmask(_) => [Attr("category", "bitmask")]
    case Handle(_) => [Attr("category", "handle")]
    case Struct(n, _) => [Attr("category", "struct"), Attr("name", n)]
  }

  /** The content of the `<type>` element defining `d`, up to and including its end. */
  function TypeBody(d: VkTypeDef): seq<Item>
    requires WritableDef(d)
  {
    match d
    case Enum(_) => [EndTag("type")]
    case Bitmask(n) => RenderTyName(TypedName(Ident("VkFlags"), n), "type")
    case Handle(n) => RenderTyName(TypedName(Ident("VK_DEFINE_HANDLE"), n), "type")
    case Struct(_, fs) => RenderFields(fs, "member") + [EndTag("type")]
  }

  predicate AllWritableDefs(ds: seq<VkTypeDef>)
  {
    forall i | 0 <= i < |ds| :: WritableDef(ds[i])
  }

  /** The content of `<types>`: one `<type>` element per definition, in order. */
  function RenderTypeDefs(ds: seq<VkTypeDef>): seq<Item>
    requires AllWritableDefs(ds)
  {
    if |ds| == 0 then [] else [StartTag("type", TypeAttrs(ds[0]))] + TypeBody(ds[0]) + RenderTypeDefs(ds[1..])
  }

  /** A command the parser keeps: it has a name and a return type. */
  predicate WritableCommand(c: VkCommand)
  {
    c.name != "" && c.retTy != Ident("") && Writable(c.retTy) && AllWritable(c.params)
  }

  /** The content of `<command>`: the prototype, then the parameters, then the end. */
  function CommandBody(c: VkCommand): seq<Item>
    requires WritableCommand(c)
  {
    [StartTag("proto", [])] + RenderTyName(TypedName(c.retTy, c.name), "proto")
      + RenderFields(c.params, "param") + [EndTag("command")]
  }

  predicate AllWritableCommands(cs: seq<VkCommand>)
  {
    forall i | 0 <= i < |cs| :: WritableCommand(cs[i])
  }

  /** The content of `<commands>`: one `<command>` element per command, in order. */
  function RenderCommands(cs: seq<VkCommand>): seq<Item>
    requires AllWritableCommands(cs)
  {
    if |cs| == 0 then [] else [StartTag("command", [])] + CommandBody(cs[0]) + RenderCommands(cs[1..])
  }

  predicate WritableRegistry(r: VkRegistry)
  {
    AllWritableDefs(r.typeDefs) && AllWritableCommands(r.commands)
  }

  /** The content of `<registry>`: a `<types>` section, a `<commands>` section, the end. */
  function RegistryBody(r: VkRegistry): seq<Item>
    requires WritableRegistry(r)
  {
    [StartTag("types", [])] + RenderTypeDefs(r.typeDefs) + [EndTag("types")]
      + [StartTag("commands", [])] + RenderCommands(r.commands) + [EndTag("commands")]
      + [EndTag("registry")]
  }

  /** A whole registry document. */
  function RenderDocument(r: VkRegistry): seq<Item>
    requires WritableRegistry(r)
  {
    [Success(StartDocument), StartTag("registry", [])] + RegistryBody(r)
      + [Success(Whitespace("\n")), Success(EndDocument)]
  }
}
