/** The element tree produced by the XML parser and the generator's own serialiser
    (`generateAttributes` and `jsNode2xml` in plugin/generator.ts). */
module Xml {
  import opened Wrappers
  import opened Text
  import opened Dict

  /** Attribute name to value, in document order. */
  type Attributes = Dict<string, string>

  /** An element: name, attributes, child elements and the text before the first child.
      `content` is `None` where the parser leaves it undefined (self-closing tags). */
  datatype Node = Node(name: string, attributes: Attributes, children: seq<Node>, content: Option<string>)

  const InvalidNode := "invalid node"

  /** ` k="v"` for one attribute; neither part is escaped. */
  function AttributeText(a: (string, string)): string {
    " " + a.0 + "=\"" + a.1 + "\""
  }

  /** The attribute list of an opening tag: one ` k="v"` per attribute in key order, `""` when empty. */
  function AttributesText(attrs: Attributes): (r: string)
    ensures r == "" <==> |attrs| == 0
  {
    if |attrs| == 0 then "" else AttributeText(attrs[0]) + AttributesText(attrs[1..])
  }

  /** Attributes whose text can be read back: no `=` in a name, no `"` in a value. */
  predicate Printable(attrs: Attributes) {
    forall i :: 0 <= i < |attrs| ==> '=' !in attrs[i].0 && '"' !in attrs[i].1
  }

  /** The longest prefix of `s` free of `c`, and the rest. */
  function Span(s: string, c: char): (r: (string, string))
    ensures r.0 + r.1 == s
    ensures c !in r.0
    ensures |r.1| > 0 ==> r.1[0] == c
    decreases |s|
  {
    if |s| == 0 then ("", "")
    else if s[0] == c then ("", s)
    else
      var t := Span(s[1..], c);
      var head := [s[0]] + t.0;
      assert head + t.1 == [s[0]] + s[1..] == s;
      assert c !in head;
      (head, t.1)
  }

  lemma {:induction false} SpanStopsAt(x: string, c: char, y: string)
    requires c !in x
    ensures Span(x + [c] + y, c) == (x, [c] + y)
    decreases |x|
  {
    if |x| == 0 {
      assert x + [c] + y == [c] + y;
    } else {
      assert (x + [c] + y)[1..] == x[1..] + [c] + y;
      SpanStopsAt(x[1..], c, y);
      assert [x[0]] + x[1..] == x;
    }
  }

  /** Reads an attribute list printed by `AttributesText` back into its pairs. */
  function ParseAttributes(s: string): Option<Attributes>
    decreases |s|
  {
    if |s| == 0 then Some([])
    else if s[0] != ' ' then None
    else
      var afterKey := Span(s[1..], '=').1;
      if !("=\"" <= afterKey) then None
      else
        var afterValue := Span(afterKey[2..], '"').1;
        if |afterValue| == 0 then None
        else
          match ParseAttributes(afterValue[1..])
          case None => None
          case Some(rest) => Some([(Span(s[1..], '=').0, Span(afterKey[2..], '"').0)] + rest)
  }

  /** Printable attributes survive printing and reading back. */
  lemma {:induction false} ParsePrinted(attrs: Attributes)
    requires Printable(attrs)
    ensures ParseAttributes(AttributesText(attrs)) == Some(attrs)
    decreases |attrs|
  {
    if |attrs| != 0 {
      var k := attrs[0].0;
      var v := attrs[0].1;
      var tail := AttributesText(attrs[1..]);
      var s := AttributesText(attrs);
      var y := ['"'] + v + ['"'] + tail;
      var afterKey := ['='] + y;
      assert s == [' '] + (k + ['='] + y);
      assert s[0] == ' ';
      assert s[1..] == k + ['='] + y;
      SpanStopsAt(k, '=', y);
      assert Span(s[1..], '=') == (k, afterKey);
      assert "=\"" <= afterKey;
      assert afterKey[2..] == v + ['"'] + tail;
      SpanStopsAt(v, '"', tail);
      assert Span(afterKey[2..], '"') == (v, ['"'] + tail);
      assert (['"'] + tail)[1..] == tail;
      ParsePrinted(attrs[1..]);
      assert ParseAttributes(s) == Some([(k, v)] + attrs[1..]);
      assert [(k, v)] + attrs[1..] == attrs;
    }
  }

  /** Puts a parsed attribute and the text after it back together. */
  lemma Reassemble(s: string, key: string, afterKey: string, value: string, restText: string)
    requires |s| > 0 && s[0] == ' '
    requires s[1..] == key + afterKey
    requires "=\"" <= afterKey
    requires afterKey[2..] == value + ['"'] + restText
    ensures s == AttributeText((key, value)) + restText
  {
    assert afterKey == "=\"" + afterKey[2..];
    assert s == [' '] + s[1..];
  }

  /** Whatever text reads as an attribute list is exactly the printing of what it reads as,
      and what it reads as is printable. */
  lemma {:induction false} PrintParsed(s: string, attrs: Attributes)
    requires ParseAttributes(s) == Some(attrs)
    ensures AttributesText(attrs) == s
    ensures Printable(attrs)
    decreases |s|
  {
    if |s| != 0 {
      var key, value, restText := ParseStep(s);
      var rest := ParseAttributes(restText).value;
      PrintParsed(restText, rest);
      assert attrs[0] == (key, value) && attrs[1..] == rest;
      assert AttributesText(attrs) == AttributeText((key, value)) + AttributesText(rest);
      PrintableCons(key, value, rest);
    }
  }

  /** The first attribute a successful read takes off the text, and the text after it. */
  lemma ParseStep(s: string) returns (key: string, value: string, restText: string)
    requires |s| != 0 && ParseAttributes(s).Some?
    ensures |restText| < |s| && ParseAttributes(restText).Some?
    ensures ParseAttributes(s).value == [(key, value)] + ParseAttributes(restText).value
    ensures s == AttributeText((key, value)) + restText
    ensures '=' !in key && '"' !in value
  {
    var sk := Span(s[1..], '=');
    var afterKey := sk.1;
    key := sk.0;
    var sv := Span(afterKey[2..], '"');
    var afterValue := sv.1;
    value := sv.0;
    restText := afterValue[1..];
    assert afterValue == ['"'] + restText;
    Reassemble(s, key, afterKey, value, restText);
  }

  /** A printable attribute in front of printable attributes. */
  lemma PrintableCons(key: string, value: string, rest: Attributes)
    requires '=' !in key && '"' !in value && Printable(rest)
    ensures Printable([(key, value)] + rest)
  {
    var attrs := [(key, value)] + rest;
    forall i | 0 <= i < |attrs|
      ensures '=' !in attrs[i].0 && '"' !in attrs[i].1
    {
      if i > 0 {
        assert attrs[i] == rest[i - 1];
      }
    }
  }

  /** JavaScript truthiness of `content`: set and non-empty. */
  predicate HasText(n: Node) {
    n.content.Some? && n.content.value != ""
  }

  /** Trees the serialiser accepts: no element has both text and children. */
  predicate Valid(n: Node) {
    && !(HasText(n) && |n.children| > 0)
    && forall i :: 0 <= i < |n.children| ==> Valid(n.children[i])
  }

  function OpenTag(n: Node): string {
    "<" + n.name + AttributesText(n.attributes) + ">"
  }

  function CloseTag(n: Node): string {
    "</" + n.name + ">"
  }

  /** A template literal's rendering of `content`; an undefined one prints as `undefined`. */
  function ContentText(content: Option<string>): string {
    match content
    case Some(t) => t
    case None => "undefined"
  }

  /** An element at `indent` around already printed content: the content goes on lines of its
      own unless it is empty, and the closing tag is always explicit. */
  function Element(indent: string, n: Node, content: string): string {
    var body := if |content| != 0 then "\n" + content + "\n" + indent else "";
    indent + OpenTag(n) + body + CloseTag(n)
  }

  /** `jsNode2xml(indent, n)`: the element at `indent` with its children one per line two spaces
      deeper, or its text; an element with both is rejected. */
  function NodeToXml(indent: string, n: Node): (r: Result<string, string>)
    ensures r.Success? ==> indent + OpenTag(n) <= r.value && EndsWith(r.value, CloseTag(n))
    ensures r.Failure? ==> r.error == InvalidNode
    decreases n, 1
  {
    if HasText(n) && |n.children| > 0 then Failure(InvalidNode)
    else if |n.children| > 0 then
      match ChildrenToXml(indent + "  ", n, 0)
      case Failure(e) => Failure(e)
      case Success(texts) => Success(Element(indent, n, Join(texts, "\n")))
    else Success(Element(indent, n, ContentText(n.content)))
  }

  /** The texts of `parent.children[i..]`, each at `indent`; fails when any of them does. */
  function ChildrenToXml(indent: string, parent: Node, i: nat): (r: Result<seq<string>, string>)
    requires i <= |parent.children|
    ensures r.Success? ==> |r.value| == |parent.children| - i
    ensures r.Failure? ==> r.error == InvalidNode
    decreases parent, 0, |parent.children| - i
  {
    if i == |parent.children| then Success([])
    else
      match NodeToXml(indent, parent.children[i])
      case Failure(e) => Failure(e)
      case Success(first) =>
        match ChildrenToXml(indent, parent, i + 1)
        case Failure(e) => Failure(e)
        case Success(rest) => Success([first] + rest)
  }

  /** The serialiser rejects a tree exactly when some element has both text and children. */
  lemma {:induction false} PrintsIffValid(indent: string, n: Node)
    ensures NodeToXml(indent, n).Success? <==> Valid(n)
    decreases n, 1
  {
    if !(HasText(n) && |n.children| > 0) && |n.children| > 0 {
      ChildrenPrintIffValid(indent + "  ", n, 0);
    }
  }

  lemma {:induction false} ChildrenPrintIffValid(indent: string, parent: Node, i: nat)
    requires i <= |parent.children|
    ensures ChildrenToXml(indent, parent, i).Success? <==>
            forall j :: i <= j < |parent.children| ==> Valid(parent.children[j])
    decreases parent, 0, |parent.children| - i
  {
    if i < |parent.children| {
      PrintsIffValid(indent, parent.children[i]);
      ChildrenPrintIffValid(indent, parent, i + 1);
    }
  }

  /** Each printed child is the child's own text at the deeper indent, in child order. */
  lemma {:induction false} ChildTexts(indent: string, parent: Node, i: nat)
    requires i <= |parent.children|
    requires ChildrenToXml(indent, parent, i).Success?
    ensures forall j :: i <= j < |parent.children| ==>
              NodeToXml(indent, parent.children[j]) == Success(ChildrenToXml(indent, parent, i).value[j - i])
    decreases |parent.children| - i
  {
    if i < |parent.children| {
      ChildTexts(indent, parent, i + 1);
    }
  }

  /** An element with children prints its opening tag, its children's texts (each two spaces
      deeper, see `ChildTexts`) one per line, then its closing tag on a line at its own indent. */
  lemma ElementLayout(indent: string, n: Node)
    requires Valid(n) && |n.children| > 0
    ensures ChildrenToXml(indent + "  ", n, 0).Success?
    ensures NodeToXml(indent, n) ==
            Success(indent + OpenTag(n) + "\n" + Join(ChildrenToXml(indent + "  ", n, 0).value, "\n")
                    + "\n" + indent + CloseTag(n))
  {
    ChildrenPrintIffValid(indent + "  ", n, 0);
    var texts := ChildrenToXml(indent + "  ", n, 0).value;
    var first := NodeToXml(indent + "  ", n.children[0]).value;
    assert texts[0] == first;
    assert |first| != 0 by {
      assert indent + "  " + OpenTag(n.children[0]) <= first;
    }
    assert |Join(texts, "\n")| != 0 by {
      if |texts| > 1 {
        assert Join(texts, "\n") == texts[0] + "\n" + Join(texts[1..], "\n");
      }
    }
    var j := Join(texts, "\n");
    assert Element(indent, n, j) == indent + OpenTag(n) + ("\n" + j + "\n" + indent) + CloseTag(n);
    assert Element(indent, n, j) == indent + OpenTag(n) + "\n" + j + "\n" + indent + CloseTag(n);
  }

  /** An element without children or text is never self-closed. */
  lemma EmptyElement(indent: string, n: Node)
    requires |n.children| == 0 && n.content == Some("")
    ensures NodeToXml(indent, n) == Success(indent + "<" + n.name + AttributesText(n.attributes) + "></" + n.name + ">")
  {
    var e := Element(indent, n, ContentText(n.content));
    assert e == indent + OpenTag(n) + "" + CloseTag(n);
    assert ">" + "</" == "></";
    assert e == indent + "<" + n.name + AttributesText(n.attributes) + (">" + "</") + n.name + ">";
  }

  /** An element the parser left without content prints the word `undefined` as its text. */
  lemma UndefinedContent(indent: string, n: Node)
    requires |n.children| == 0 && n.content == None
    ensures NodeToXml(indent, n) == Success(indent + OpenTag(n) + "\nundefined\n" + indent + CloseTag(n))
  {
    var e := Element(indent, n, ContentText(n.content));
    assert e == indent + OpenTag(n) + ("\n" + "undefined" + "\n" + indent) + CloseTag(n);
    assert "\n" + "undefined" + "\n" == "\nundefined\n";
    assert e == indent + OpenTag(n) + "\nundefined\n" + indent + CloseTag(n);
  }
}
