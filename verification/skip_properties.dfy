/** Properties of the two low-level readers of the registry parser: skipping an element and
    collecting an element's text. Skipping is compared with a stack machine that tracks the
    open elements, and with the events of a rendered element tree; text collection with the
    events of a run of text. */
module SkipProperties {
  import opened Wrappers
  import opened XmlEvents
  import opened VkParse

  /** A reference for skipping: `open` lists the elements still open, innermost first; an end
      of element must close the innermost one, and skipping stops once none is left. */
  function StackSkip(s: seq<Item>, open: seq<Name>): Result<seq<Item>, ParseFailure>
    requires |open| > 0
    decreases |s|
  {
    if |s| == 0 then Failure(Unexpected(None))
    else if IsStart(s[0]) then StackSkip(s[1..], [s[0].value.name] + open)
    else if IsEnd(s[0]) then
      if s[0].value.name != open[0] then Failure(UnexpectedAt(s))
      else if |open| == 1 then Success(s[1..])
      else StackSkip(s[1..], open[1..])
    else if IsText(s[0]) then StackSkip(s[1..], open)
    else Failure(UnexpectedAt(s))
  }

  /** How the stack machine goes on once element `n`, on top of `below`, has been skipped. */
  function Continue(skipped: Result<seq<Item>, ParseFailure>, below: seq<Name>): Result<seq<Item>, ParseFailure>
  {
    match skipped
    case Failure(f) => Failure(f)
    case Success(rest) => if below == [] then Success(rest) else StackSkip(rest, below)
  }

  /** Skipping element `n` by recursion and with an explicit stack agree, failures included. */
  lemma {:induction false} SkipIsStackSkip(s: seq<Item>, n: Name, below: seq<Name>)
    ensures StackSkip(s, [n] + below) == Continue(SkipElement(s, n), below)
    decreases |s|
  {
    if |s| == 0 {
    } else if IsStart(s[0]) {
      var m := s[0].value.name;
      assert [m] + ([n] + below) == [m] + [n] + below;
      SkipIsStackSkip(s[1..], m, [n] + below);
      match SkipElement(s[1..], m)
      case Failure(_) =>
      case Success(rest) =>
        SkipIsStackSkip(rest, n, below);
    } else if IsEnd(s[0]) {
      assert ([n] + below)[1..] == below;
    } else if IsText(s[0]) {
      SkipIsStackSkip(s[1..], n, below);
    }
  }

  /** In particular, `advance_until_elem_end` is the stack machine started with one open element. */
  lemma SkipElementMatchesStack(s: seq<Item>, elem: Name)
    ensures SkipElement(s, elem) == StackSkip(s, [elem])
  {
    SkipIsStackSkip(s, elem, []);
    assert [elem] + [] == [elem];
    match SkipElement(s, elem)
    case Failure(_) =>
    case Success(_) =>
  }

  /** A well-formed piece of XML: an element with its children, or a text event. */
  datatype Node =
    | Element(name: Name, attributes: seq<Attribute>, children: seq<Node>)
    | Text(item: Item)

  predicate WellFormed(node: Node)
  {
    match node
    case Element(_, _, children) => forall i | 0 <= i < |children| :: WellFormed(children[i])
    case Text(item) => IsText(item)
  }

  predicate AllWellFormed(nodes: seq<Node>)
  {
    forall i | 0 <= i < |nodes| :: WellFormed(nodes[i])
  }

  /** The events a reader produces for `node`. */
  function Render(node: Node): seq<Item>
    decreases node
  {
    match node
    case Element(name, attributes, children) =>
      [Success(StartElement(name, attributes))] + RenderAll(children) + [Success(EndElement(name))]
    case Text(item) => [item]
  }

  function RenderAll(nodes: seq<Node>): seq<Item>
    decreases nodes
  {
    if |nodes| == 0 then [] else Render(nodes[0]) + RenderAll(nodes[1..])
  }

  /** Skipping an element consumes exactly its content and its end, however deeply the
      content nests. */
  lemma {:induction false} SkipRendered(nodes: seq<Node>, n: Name, rest: seq<Item>)
    requires AllWellFormed(nodes)
    ensures SkipElement(RenderAll(nodes) + [Success(EndElement(n))] + rest, n) == Success(rest)
    decreases nodes
  {
    var s := RenderAll(nodes) + [Success(EndElement(n))] + rest;
    if |nodes| == 0 {
      assert s == [Success(EndElement(n))] + rest;
    } else {
      var after := RenderAll(nodes[1..]) + [Success(EndElement(n))] + rest;
      assert AllWellFormed(nodes[1..]) by {
        forall i | 0 <= i < |nodes[1..]| ensures WellFormed(nodes[1..][i]) {
          assert nodes[1..][i] == nodes[i + 1];
        }
      }
      SkipRendered(nodes[1..], n, rest);
      assert WellFormed(nodes[0]);
      assert RenderAll(nodes) == Render(nodes[0]) + RenderAll(nodes[1..]);
      match nodes[0]
      case Text(item) =>
        assert s == [item] + after;
        assert s[1..] == after;
      case Element(m, attrs, children) =>
        var inner := RenderAll(children) + [Success(EndElement(m))] + after;
        assert s == [Success(StartElement(m, attrs))] + inner;
        assert s[1..] == inner;
        SkipRendered(children, m, after);
    }
  }

  /** A run of text events ends where the first other event is. */
  lemma {:induction false} TextRunOfRun(ts: seq<Item>, tail: seq<Item>)
    requires forall j | 0 <= j < |ts| :: IsText(ts[j])
    requires |tail| > 0 && !IsText(tail[0])
    ensures TextRun(ts + tail) == |ts|
    decreases |ts|
  {
    if |ts| > 0 {
      assert (ts + tail)[1..] == ts[1..] + tail;
      TextRunOfRun(ts[1..], tail);
    }
  }

  /** `expect_characters_elem` on a run of text events and an end of element returns their
      texts in order and the stream after the end. */
  lemma ExpectCharactersRoundTrip(ts: seq<Item>, n: Name, rest: seq<Item>)
    requires forall j | 0 <= j < |ts| :: IsText(ts[j])
    ensures ExpectCharacters(ts + [Success(EndElement(n))] + rest) == Success(Parsed(Texts(ts), rest))
  {
    var s := ts + [Success(EndElement(n))] + rest;
    assert s == ts + ([Success(EndElement(n))] + rest);
    TextRunOfRun(ts, [Success(EndElement(n))] + rest);
    assert s[..|ts|] == ts;
    assert s[|ts| + 1..] == rest;
  }

  /** A start of element inside a text-only element is refused, and is the event reported. */
  lemma ExpectCharactersRefusesNesting(ts: seq<Item>, m: Name, attrs: seq<Attribute>, rest: seq<Item>)
    requires forall j | 0 <= j < |ts| :: IsText(ts[j])
    ensures ExpectCharacters(ts + [Success(StartElement(m, attrs))] + rest) == Failure(Unexpected(Some(Success(StartElement(m, attrs)))))
  {
    var s := ts + [Success(StartElement(m, attrs))] + rest;
    assert s == ts + ([Success(StartElement(m, attrs))] + rest);
    TextRunOfRun(ts, [Success(StartElement(m, attrs))] + rest);
    assert s[|ts|..][0] == Success(StartElement(m, attrs));
  }
}
