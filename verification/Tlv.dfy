/** TLV as this server uses it: a stream of tagged tokens, and the elements that
    a reader sees in it (Matter Core Specification Appendix A). */
module Tlv {
  import opened Json
  import opened Utf8
  import opened Wrappers

  type u8 = x: int | 0 <= x < 256

  datatype Tag = Anonymous | Context(number: u8)

  datatype Scalar =
    | Signed(signed: int)
    | Unsigned(unsigned: u64)
    | Boolean(flag: bool)
    | Floating(bits: u64)
    | Utf8String(text: string)
    | OctetString(bytes: seq<byte>)
    | Nothing

  datatype Token =
    | Leaf(tag: Tag, value: Scalar)
    | Open(tag: Tag, positional: bool)
    | Close

  /** An element as a reader walks it: an array is positional, a structure or a
      list is not. */
  datatype Element = Single(value: Scalar) | Container(positional: bool, children: seq<Child>)

  datatype Child = Child(tag: Tag, element: Element)

  /** The first element of a token stream, and what is left after it. */
  function ReadElement(tokens: seq<Token>): (r: Option<(Child, seq<Token>)>)
    ensures r.Some? ==> |r.value.1| < |tokens|
    decreases |tokens|, 0
  {
    if tokens == [] then None
    else
      match tokens[0]
      case Leaf(tag, value) => Some((Child(tag, Single(value)), tokens[1..]))
      case Close => None
      case Open(tag, positional) =>
        var (children, rest) :- ReadChildren(tokens[1..]);
        Some((Child(tag, Container(positional, children)), rest))
  }

  /** The elements up to the end of a container. */
  function ReadChildren(tokens: seq<Token>): (r: Option<(seq<Child>, seq<Token>)>)
    ensures r.Some? ==> |r.value.1| < |tokens|
    decreases |tokens|, 1
  {
    if tokens == [] then None
    else if tokens[0] == Close then Some(([], tokens[1..]))
    else
      var (child, rest) :- ReadElement(tokens);
      var (children, after) :- ReadChildren(rest);
      Some(([child] + children, after))
  }
}
