/** What the registry parser passes over. Every loop of the parser ignores text events and
    skips some elements whole: `<comment>` among the type definitions, struct members and
    commands, `<implicitexternsyncparams>` inside a command, and the sections of the registry
    it does not read. Such filler, however its elements nest, leaves each loop where it was.
    `parse_ty_name` is the exception: it collects the texts, and what it collects from any
    mix of texts, `<name>`, `<type>`, `<enum>` and `<comment>` elements is stated here too. */
module VkSkipping {
  import opened Wrappers
  import opened XmlEvents
  import opened VkParse
  import opened VkRender
  import opened SkipProperties

  /** `node` is a text event, or a well-formed element whose unqualified name is in `names`. */
  predicate SkippedBy(node: Node, names: set<string>)
  {
    && WellFormed(node)
    && (node.Element? ==> node.name == Local(node.name.localName) && node.name.localName in names)
  }

  /** Nodes a loop passes over when it skips the elements named in `names`. */
  predicate Filler(nodes: seq<Node>, names: set<string>)
  {
    forall i | 0 <= i < |nodes| :: SkippedBy(nodes[i], names)
  }

  /** The text of a text node; an element contributes nothing. */
  function TextOfNode(node: Node): string
  {
    if node.Text? && IsText(node.item) then TextOf(node.item) else ""
  }

  /** The texts of the text nodes among `nodes`, in order. */
  function TextsOf(nodes: seq<Node>): string
  {
    if |nodes| == 0 then "" else TextOfNode(nodes[0]) + TextsOf(nodes[1..])
  }

  /** The events of a list of nodes: those of the first node, then those of the others. */
  lemma RenderHead(nodes: seq<Node>, rest: seq<Item>)
    requires |nodes| > 0
    ensures RenderAll(nodes) + rest == Render(nodes[0]) + (RenderAll(nodes[1..]) + rest)
  {
  }

  /** A text node is its one event. */
  lemma RenderedText(node: Node, after: seq<Item>)
    requires node.Text?
    ensures var s := Render(node) + after; |s| > 0 && s[0] == node.item && s[1..] == after
  {
    assert Render(node) + after == [node.item] + after;
  }

  /** A well-formed element starts with its start event, and skipping consumes the rest of it. */
  lemma RenderedElement(node: Node, after: seq<Item>)
    requires node.Element? && WellFormed(node)
    ensures var s := Render(node) + after;
      && |s| > 0 && s[0] == Success(StartElement(node.name, node.attributes))
      && SkipElement(s[1..], node.name) == Success(after)
  {
    var children := node.children;
    assert AllWellFormed(children);
    var inner := RenderAll(children) + [Success(EndElement(node.name))] + after;
    assert Render(node) + after == [Success(StartElement(node.name, node.attributes))] + inner;
    SkipRendered(children, node.name, after);
  }

  lemma FillerTail(nodes: seq<Node>, names: set<string>)
    requires Filler(nodes, names) && |nodes| > 0
    ensures Filler(nodes[1..], names) && SkippedBy(nodes[0], names)
  {
    assert forall i | 0 <= i < |nodes[1..]| :: nodes[1..][i] == nodes[i + 1];
  }

  /** The first node of some filler, as a loop meets it: a text event, or the start of an
      element whose content and end skipping consumes. */
  lemma FillerHead(nodes: seq<Node>, names: set<string>, rest: seq<Item>)
    requires Filler(nodes, names) && |nodes| > 0
    ensures Filler(nodes[1..], names)
    ensures var s := RenderAll(nodes) + rest;
      && |s| > 0
      && (nodes[0].Text? ==> IsText(s[0]) && s[1..] == RenderAll(nodes[1..]) + rest)
      && (nodes[0].Element? ==>
        && IsStart(s[0]) && s[0].value.name == Local(nodes[0].name.localName)
        && nodes[0].name.localName in names
        && SkipElement(s[1..], s[0].value.name) == Success(RenderAll(nodes[1..]) + rest))
  {
    FillerTail(nodes, names);
    RenderHead(nodes, rest);
    if nodes[0].Text? {
      RenderedText(nodes[0], RenderAll(nodes[1..]) + rest);
    } else {
      RenderedElement(nodes[0], RenderAll(nodes[1..]) + rest);
    }
  }

  lemma NoFiller(nodes: seq<Node>, rest: seq<Item>)
    requires |nodes| == 0
    ensures RenderAll(nodes) + rest == rest
  {
  }

  /** `parse_types` passes over text events and `<comment>` elements. */
  lemma {:induction false} ParseTypesSkipsFiller(nodes: seq<Node>, rest: seq<Item>, out: seq<VkTypeDef>)
    requires Filler(nodes, {"comment"})
    ensures ParseTypes(RenderAll(nodes) + rest, out) == ParseTypes(rest, out)
    decreases |nodes|
  {
    if |nodes| == 0 {
      NoFiller(nodes, rest);
    } else {
      FillerHead(nodes, {"comment"}, rest);
      ParseTypesSkipsFiller(nodes[1..], rest, out);
    }
  }

  /** The member loop of a struct passes over text events and `<comment>` elements. */
  lemma {:induction false} StructFieldsSkipsFiller(nodes: seq<Node>, rest: seq<Item>, fields: seq<TypedName>)
    requires Filler(nodes, {"comment"})
    ensures StructFields(RenderAll(nodes) + rest, fields) == StructFields(rest, fields)
    decreases |nodes|
  {
    if |nodes| == 0 {
      NoFiller(nodes, rest);
    } else {
      FillerHead(nodes, {"comment"}, rest);
      StructFieldsSkipsFiller(nodes[1..], rest, fields);
    }
  }

  /** `parse_command` passes over text events and `<implicitexternsyncparams>` elements. */
  lemma {:induction false} CommandLoopSkipsFiller(nodes: seq<Node>, rest: seq<Item>, st: CommandState)
    requires Filler(nodes, {"implicitexternsyncparams"})
    ensures CommandLoop(RenderAll(nodes) + rest, st) == CommandLoop(rest, st)
    decreases |nodes|
  {
    if |nodes| == 0 {
      NoFiller(nodes, rest);
    } else {
      FillerHead(nodes, {"implicitexternsyncparams"}, rest);
      CommandLoopSkipsFiller(nodes[1..], rest, st);
    }
  }

  /** `parse_commands` passes over text events and `<comment>` elements. */
  lemma {:induction false} ParseCommandsSkipsFiller(nodes: seq<Node>, rest: seq<Item>, out: seq<VkCommand>)
    requires Filler(nodes, {"comment"})
    ensures ParseCommands(RenderAll(nodes) + rest, out) == ParseCommands(rest, out)
    decreases |nodes|
  {
    if |nodes| == 0 {
      NoFiller(nodes, rest);
    } else {
      FillerHead(nodes, {"comment"}, rest);
      ParseCommandsSkipsFiller(nodes[1..], rest, out);
    }
  }

  /** The registry sections the parser skips whole. */
  const SkippedSections: set<string> := {"enums", "comment", "platforms", "tags", "feature", "extensions"}

  lemma SkippedSectionNamed(x: string)
    requires x in SkippedSections
    ensures SkippedSection(Local(x))
  {
  }

  /** `parse_registry` passes over text events and the `<enums>`, `<comment>`, `<platforms>`,
      `<tags>`, `<feature>` and `<extensions>` sections, whatever they hold. */
  lemma {:induction false} ParseRegistrySkipsFiller(nodes: seq<Node>, rest: seq<Item>, out: VkRegistry)
    requires Filler(nodes, SkippedSections)
    ensures ParseRegistry(RenderAll(nodes) + rest, out) == ParseRegistry(rest, out)
    decreases |nodes|
  {
    if |nodes| == 0 {
      NoFiller(nodes, rest);
    } else {
      FillerHead(nodes, SkippedSections, rest);
      if nodes[0].Element? {
        SkippedSectionNamed(nodes[0].name.localName);
      }
      ParseRegistrySkipsFiller(nodes[1..], rest, out);
    }
  }

  /** A piece of a type-and-name element: a text event, a `<name>`, `<type>` or `<enum>`
      element holding only text, or a well-formed `<comment>` element. */
  predicate TyNamePiece(node: Node)
  {
    && WellFormed(node)
    && (node.Element? ==>
      || node.name == Local("comment")
      || (node.name.localName in {"name", "type", "enum"} && node.name == Local(node.name.localName)
          && forall j | 0 <= j < |node.children| :: node.children[j].Text?))
  }

  predicate TyNamePieces(nodes: seq<Node>)
  {
    forall i | 0 <= i < |nodes| :: TyNamePiece(nodes[i])
  }

  /** What `parse_ty_name` holds after `node`: the text of a `<name>`, `<type>` or `<enum>`
      element replaces what was held for that tag, a text event is added to the text around
      the type, and a comment changes nothing. */
  function CollectNode(st: TyNameState, node: Node): TyNameState
  {
    match node
    case Text(_) => st.(surrounding := st.surrounding + TextOfNode(node))
    case Element(n, _, children) =>
      if n == Local("comment") then st else Collect(st, n.localName, TextsOf(children))
  }

  function CollectAll(st: TyNameState, nodes: seq<Node>): TyNameState
    decreases |nodes|
  {
    if |nodes| == 0 then st else CollectAll(CollectNode(st, nodes[0]), nodes[1..])
  }

  /** The events of text-only children are text events, and their texts are the children's. */
  lemma {:induction false} TextChildren(children: seq<Node>)
    requires forall j | 0 <= j < |children| :: children[j].Text? && IsText(children[j].item)
    ensures forall j | 0 <= j < |RenderAll(children)| :: IsText(RenderAll(children)[j])
    ensures Texts(RenderAll(children)) == TextsOf(children)
    decreases |children|
  {
    if |children| > 0 {
      var tail := children[1..];
      assert forall j | 0 <= j < |tail| :: tail[j] == children[j + 1];
      TextChildren(tail);
      assert RenderAll(children) == [children[0].item] + RenderAll(tail);
      assert RenderAll(children)[1..] == RenderAll(tail);
    }
  }

  /** Reading one `<name>`, `<type>` or `<enum>` element inside a type-and-name element. */
  lemma TaggedPiece(node: Node, after: seq<Item>, st: TyNameState)
    requires TyNamePiece(node) && node.Element? && node.name != Local("comment")
    ensures TyNameLoop(Render(node) + after, st) == TyNameLoop(after, CollectNode(st, node))
  {
    var children := node.children;
    forall j | 0 <= j < |children|
      ensures children[j].Text? && IsText(children[j].item)
    {
      assert WellFormed(children[j]);
    }
    TextChildren(children);
    var s := Render(node) + after;
    assert s == [Success(StartElement(node.name, node.attributes))] + (RenderAll(children) + [Success(EndElement(node.name))] + after);
    ExpectCharactersRoundTrip(RenderAll(children), node.name, after);
  }

  /** Reading one piece inside a type-and-name element. */
  lemma PieceStep(node: Node, after: seq<Item>, st: TyNameState)
    requires TyNamePiece(node)
    ensures TyNameLoop(Render(node) + after, st) == TyNameLoop(after, CollectNode(st, node))
  {
    if node.Text? {
      RenderedText(node, after);
    } else if node.name == Local("comment") {
      RenderedElement(node, after);
    } else {
      TaggedPiece(node, after, st);
    }
  }

  lemma PiecesTail(nodes: seq<Node>)
    requires TyNamePieces(nodes) && |nodes| > 0
    ensures TyNamePieces(nodes[1..]) && TyNamePiece(nodes[0])
  {
    assert forall i | 0 <= i < |nodes[1..]| :: nodes[1..][i] == nodes[i + 1];
  }

  /** `parse_ty_name`'s loop on any mix of pieces, up to the end of the element, holds what
      the pieces give in order: the last text of each tag, and every text around them. */
  lemma {:induction false} TyNameLoopReads(nodes: seq<Node>, st: TyNameState, close: Name, rest: seq<Item>)
    requires TyNamePieces(nodes)
    ensures TyNameLoop(RenderAll(nodes) + ([Success(EndElement(close))] + rest), st)
      == Success(Parsed(CollectAll(st, nodes), rest))
    decreases |nodes|
  {
    var end := [Success(EndElement(close))] + rest;
    if |nodes| == 0 {
      NoFiller(nodes, end);
      assert end[1..] == rest;
    } else {
      PiecesTail(nodes);
      RenderHead(nodes, end);
      PieceStep(nodes[0], RenderAll(nodes[1..]) + end, st);
      TyNameLoopReads(nodes[1..], CollectNode(st, nodes[0]), close, rest);
    }
  }

  /** `parse_ty_name` on any mix of pieces: the name is the last `<name>` text, and the type
      is what `Classify` makes of the texts around the type, the last `<type>` text and the
      last `<enum>` text. */
  lemma ParseTyNameReads(nodes: seq<Node>, close: Name, rest: seq<Item>)
    requires TyNamePieces(nodes)
    ensures var st := CollectAll(EmptyTyName, nodes);
      ParseTyName(RenderAll(nodes) + ([Success(EndElement(close))] + rest))
      == match Classify(st.surrounding, st.ty, st.enumContent)
         case Success(ty) => Success(Parsed(TypedName(ty, st.name), rest))
         case Failure(f) => Failure(f)
  {
    TyNameLoopReads(nodes, EmptyTyName, close, rest);
  }
}
