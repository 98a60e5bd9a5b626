/** The stream of events a streaming XML reader produces, as the Vulkan registry parser
    consumes it. The reader itself is not modelled: a document is given as the sequence of
    items it yields, each an event or a read error, and the end of the sequence is the end
    of the stream. */
module XmlEvents {
  import opened Wrappers

  /** A qualified element or attribute name. */
  datatype Name = Name(localName: string, namespace: Option<string>, prefix: Option<string>)

  datatype Attribute = Attribute(name: Name, value: string)

  datatype XmlEvent =
    | StartDocument
    | EndDocument
    | ProcessingInstruction(target: string)
    | StartElement(name: Name, attributes: seq<Attribute>)
    | EndElement(name: Name)
    | CData(text: string)
    | Comment(text: string)
    | Characters(text: string)
    | Whitespace(text: string)

  datatype ReadError = ReadError(message: string)

  /** One item of the stream. */
  type Item = Result<XmlEvent, ReadError>

  /** The name an unqualified tag such as `<type>` carries. */
  function Local(s: string): Name
  {
    Name(s, None, None)
  }

  /** A text event: character data, a comment, characters or whitespace. */
  predicate IsText(it: Item)
  {
    it.Success? && (it.value.CData? || it.value.Comment? || it.value.Characters? || it.value.Whitespace?)
  }

  function TextOf(it: Item): string
    requires IsText(it)
  {
    it.value.text
  }

  /** The texts of a run of text events, concatenated in order. */
  function Texts(s: seq<Item>): string
    requires forall j | 0 <= j < |s| :: IsText(s[j])
  {
    if |s| == 0 then "" else TextOf(s[0]) + Texts(s[1..])
  }

  /** The length of the run of text events that `s` starts with. */
  function TextRun(s: seq<Item>): (n: nat)
    ensures n <= |s|
    ensures forall j | 0 <= j < n :: IsText(s[j])
    ensures n < |s| ==> !IsText(s[n])
  {
    if |s| == 0 || !IsText(s[0]) then 0 else 1 + TextRun(s[1..])
  }

  predicate IsStart(it: Item)
  {
    it.Success? && it.value.StartElement?
  }

  predicate IsEnd(it: Item)
  {
    it.Success? && it.value.EndElement?
  }
}
