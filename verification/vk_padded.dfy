/** Registry documents laid out the way `vk.xml` is: whitespace, comments and the sections the
    parser does not read (`<enums>`, `<feature>`, `<extensions>` and so on) may come before,
    between and after the `<types>` and `<commands>` sections, and whitespace and comments
    before each type definition, each command and the end of each list. Such a document reads
    back as the registry it was written from. */
module VkPadded {
  import opened Wrappers
  import opened XmlEvents
  import opened VkParse
  import opened VkRender
  import opened VkRoundTrip
  import opened SkipProperties
  import opened VkSkipping

  /** Filler before each of `n` items of a list and before its end. */
  predicate Pads(pads: seq<seq<Node>>, n: nat, names: set<string>)
  {
    |pads| == n + 1 && forall i | 0 <= i < |pads| :: Filler(pads[i], names)
  }

  lemma PadsTail(pads: seq<seq<Node>>, n: nat, names: set<string>)
    requires Pads(pads, n, names) && n > 0
    ensures Pads(pads[1..], n - 1, names) && Filler(pads[0], names)
  {
    assert forall i | 0 <= i < |pads[1..]| :: pads[1..][i] == pads[i + 1];
  }

  /** The definitions, each after its filler, then the last filler, then `tail`. */
  function PaddedTypeDefs(ds: seq<VkTypeDef>, pads: seq<seq<Node>>, tail: seq<Item>): seq<Item>
    requires AllWritableDefs(ds) && |pads| == |ds| + 1
    decreases |ds|
  {
    if |ds| == 0 then RenderAll(pads[0]) + tail
    else RenderAll(pads[0]) + ([StartTag("type", TypeAttrs(ds[0]))] + (TypeBody(ds[0]) + PaddedTypeDefs(ds[1..], pads[1..], tail)))
  }

  /** The commands, each after its filler, then the last filler, then `tail`. */
  function PaddedCommands(cs: seq<VkCommand>, pads: seq<seq<Node>>, tail: seq<Item>): seq<Item>
    requires AllWritableCommands(cs) && |pads| == |cs| + 1
    decreases |cs|
  {
    if |cs| == 0 then RenderAll(pads[0]) + tail
    else RenderAll(pads[0]) + ([StartTag("command", [])] + (CommandBody(cs[0]) + PaddedCommands(cs[1..], pads[1..], tail)))
  }

  /** Where a registry document has filler, and what it holds. */
  datatype Layout = Layout(
    beforeTypes: seq<Node>, types: seq<seq<Node>>, between: seq<Node>, commands: seq<seq<Node>>, after: seq<Node>)

  predicate FitsLayout(r: VkRegistry, l: Layout)
  {
    && WritableRegistry(r)
    && Filler(l.beforeTypes, SkippedSections) && Filler(l.between, SkippedSections) && Filler(l.after, SkippedSections)
    && Pads(l.types, |r.typeDefs|, {"comment"}) && Pads(l.commands, |r.commands|, {"comment"})
  }

  /** The content of `<registry>` laid out by `l`, up to and including its end, then `tail`. */
  function PaddedRegistry(r: VkRegistry, l: Layout, tail: seq<Item>): seq<Item>
    requires FitsLayout(r, l)
  {
    var afterCommands := RenderAll(l.after) + ([EndTag("registry")] + tail);
    var commands := [StartTag("commands", [])] + PaddedCommands(r.commands, l.commands, [EndTag("commands")] + afterCommands);
    var afterTypes := RenderAll(l.between) + commands;
    RenderAll(l.beforeTypes) + ([StartTag("types", [])] + PaddedTypeDefs(r.typeDefs, l.types, [EndTag("types")] + afterTypes))
  }

  /** A whole registry document laid out by `l`. */
  function PaddedDocument(r: VkRegistry, l: Layout): seq<Item>
    requires FitsLayout(r, l)
  {
    [Success(StartDocument), StartTag("registry", [])] + PaddedRegistry(r, l, [Success(Whitespace("\n")), Success(EndDocument)])
  }

  /** `parse_types` reads the definitions in document order, whatever filler lies between them. */
  lemma {:induction false} ParseTypesPadded(ds: seq<VkTypeDef>, pads: seq<seq<Node>>, acc: seq<VkTypeDef>, tail: seq<Item>)
    requires AllWritableDefs(ds) && Pads(pads, |ds|, {"comment"}) && ClosedBy(tail, "types")
    ensures ParseTypes(PaddedTypeDefs(ds, pads, tail), acc) == Success(Parsed(acc + ds, tail[1..]))
    decreases |ds|
  {
    if |ds| == 0 {
      assert Filler(pads[0], {"comment"});
      ParseTypesSkipsFiller(pads[0], tail, acc);
      ParseTypesEnd(tail, acc);
      assert acc + ds == acc;
    } else {
      PadsTail(pads, |ds|, {"comment"});
      AllWritableDefsTail(ds);
      var after := PaddedTypeDefs(ds[1..], pads[1..], tail);
      var s := [StartTag("type", TypeAttrs(ds[0]))] + (TypeBody(ds[0]) + after);
      ParseTypesSkipsFiller(pads[0], s, acc);
      TypeThen(s, ds[0], after, acc);
      ParseTypesPadded(ds[1..], pads[1..], acc + [ds[0]], tail);
      AppendHead(acc, ds);
    }
  }

  /** `parse_commands` reads the commands in document order, whatever filler lies between them. */
  lemma {:induction false} ParseCommandsPadded(cs: seq<VkCommand>, pads: seq<seq<Node>>, acc: seq<VkCommand>, tail: seq<Item>)
    requires AllWritableCommands(cs) && Pads(pads, |cs|, {"comment"}) && EndsWithEnd(tail)
    ensures ParseCommands(PaddedCommands(cs, pads, tail), acc) == Success(Parsed(acc + cs, tail[1..]))
    decreases |cs|
  {
    if |cs| == 0 {
      assert Filler(pads[0], {"comment"});
      ParseCommandsSkipsFiller(pads[0], tail, acc);
      ParseCommandsEnd(tail, acc);
      assert acc + cs == acc;
    } else {
      PadsTail(pads, |cs|, {"comment"});
      AllWritableCommandsTail(cs);
      var after := PaddedCommands(cs[1..], pads[1..], tail);
      var s := [StartTag("command", [])] + (CommandBody(cs[0]) + after);
      ParseCommandsSkipsFiller(pads[0], s, acc);
      CommandThen(s, cs[0], after, acc);
      ParseCommandsPadded(cs[1..], pads[1..], acc + [cs[0]], tail);
      AppendHead(acc, cs);
    }
  }

  /** A `<types>` section laid out with filler, then `after`. */
  lemma PaddedTypesSection(ds: seq<VkTypeDef>, pads: seq<seq<Node>>, after: seq<Item>)
    requires AllWritableDefs(ds) && Pads(pads, |ds|, {"comment"})
    ensures var s := [StartTag("types", [])] + PaddedTypeDefs(ds, pads, [EndTag("types")] + after);
      |s| > 0 && s[0] == StartTag("types", []) && ParseTypes(s[1..], []) == Success(Parsed(ds, after))
  {
    ParseTypesPadded(ds, pads, [], [EndTag("types")] + after);
    assert [] + ds == ds;
    assert ([EndTag("types")] + after)[1..] == after;
  }

  /** A `<commands>` section laid out with filler, then `after`. */
  lemma PaddedCommandsSection(cs: seq<VkCommand>, pads: seq<seq<Node>>, after: seq<Item>)
    requires AllWritableCommands(cs) && Pads(pads, |cs|, {"comment"})
    ensures var s := [StartTag("commands", [])] + PaddedCommands(cs, pads, [EndTag("commands")] + after);
      |s| > 0 && s[0] == StartTag("commands", []) && ParseCommands(s[1..], []) == Success(Parsed(cs, after))
  {
    ParseCommandsPadded(cs, pads, [], [EndTag("commands")] + after);
    assert [] + cs == cs;
    assert ([EndTag("commands")] + after)[1..] == after;
  }

  /** `parse_registry` reads back a registry with both sections non-empty, whatever filler
      and skipped sections surround them. */
  lemma ParseRegistryPadded(r: VkRegistry, l: Layout, tail: seq<Item>)
    requires FitsLayout(r, l) && r.commands != [] && r.typeDefs != []
    ensures ParseRegistry(PaddedRegistry(r, l, tail), VkRegistry([], [])) == Success(Parsed(r, tail))
  {
    var end := [EndTag("registry")] + tail;
    var afterCommands := RenderAll(l.after) + end;
    var commands := [StartTag("commands", [])] + PaddedCommands(r.commands, l.commands, [EndTag("commands")] + afterCommands);
    var afterTypes := RenderAll(l.between) + commands;
    var types := [StartTag("types", [])] + PaddedTypeDefs(r.typeDefs, l.types, [EndTag("types")] + afterTypes);
    ParseRegistrySkipsFiller(l.beforeTypes, types, VkRegistry([], []));
    PaddedTypesSection(r.typeDefs, l.types, afterTypes);
    RegistryTypes(types, VkRegistry([], []), r.typeDefs, afterTypes);
    ParseRegistrySkipsFiller(l.between, commands, VkRegistry([], r.typeDefs));
    PaddedCommandsSection(r.commands, l.commands, afterCommands);
    RegistryCommands(commands, VkRegistry([], r.typeDefs), r.commands, afterCommands);
    ParseRegistrySkipsFiller(l.after, end, r);
    RegistryEnd(end, r);
    assert end[1..] == tail;
  }

  /** `parse` reads back a whole registry document laid out with filler. */
  lemma ParsePaddedRoundTrip(r: VkRegistry, l: Layout)
    requires FitsLayout(r, l) && r.commands != [] && r.typeDefs != []
    ensures Parse(PaddedDocument(r, l)) == Success(r)
  {
    var trailer: seq<Item> := [Success(Whitespace("\n")), Success(EndDocument)];
    var s := PaddedDocument(r, l);
    assert s[2..] == PaddedRegistry(r, l, trailer);
    ParseRegistryPadded(r, l, trailer);
    ReadTrailer([]);
    assert trailer + [] == trailer;
    ParseOf(s, r, trailer);
  }
}
