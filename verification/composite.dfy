/** The composite sprite sheet document (`generateSpriteSvg` in plugin/generator.ts). */
module Composite {
  import opened Wrappers
  import opened Text
  import opened Dict
  import opened Xml
  import opened Sprite

  /** The id prefix of every nested icon; fixed, whatever class prefix is configured. */
  const IdPrefix := "client-"

  const XmlDeclaration := "<?xml version=\"1.0\" encoding=\"utf-8\"?>\n"

  const SvgNamespace := "http://www.w3.org/2000/svg"
  const XlinkNamespace := "http://www.w3.org/1999/xlink"

  /** The root attributes the composer deletes or sets; all others it leaves alone. */
  const RewrittenKeys := {"xmlns", "xmlns:xlink", "id", "x", "y", "width", "height"}

  /** The attributes of the outer `<svg>`: namespaces, the sheet size, and a view box over all of it. */
  function OuterAttributes(js: Foreign, sprite: GeneratedSprite): Attributes {
    var w := js.numberToString(sprite.width);
    var h := js.numberToString(sprite.height);
    [("xmlns", SvgNamespace), ("xmlns:xlink", XlinkNamespace),
     ("width", w), ("height", h), ("viewBox", "0 0 " + w + " " + h)]
  }

  /** The opening tag of the outer `<svg>`. */
  function OuterOpenTag(js: Foreign, sprite: GeneratedSprite): string {
    "<svg" + AttributesText(OuterAttributes(js, sprite)) + ">"
  }

  /** The outer `<svg>` is as wide and high as the sheet and its view box starts at the origin and
      spans the sheet. */
  lemma OuterAttributesSpec(js: Foreign, sprite: GeneratedSprite)
    ensures var a := OuterAttributes(js, sprite);
            && Get(a, "width") == Some(js.numberToString(sprite.width))
            && Get(a, "height") == Some(js.numberToString(sprite.height))
            && Get(a, "viewBox") == Some("0 0 " + js.numberToString(sprite.width) + " " + js.numberToString(sprite.height))
  {
    var a := OuterAttributes(js, sprite);
    assert "xmlns"[0] != "width"[0] && "xmlns:xlink"[0] != "width"[0];
    assert "xmlns"[0] != "height"[0] && "xmlns:xlink"[0] != "height"[0] && "width"[0] != "height"[0];
    assert "xmlns"[0] != "viewBox"[0] && "xmlns:xlink"[0] != "viewBox"[0] && "width"[0] != "viewBox"[0];
    assert "height"[0] != "viewBox"[0];
    assert Get(a[4..], "viewBox") == Some(a[4].1);
    assert Get(a[3..], "viewBox") == Some(a[4].1);
    assert Get(a[2..], "viewBox") == Some(a[4].1);
    assert Get(a[1..], "viewBox") == Some(a[4].1);
    assert Get(a[3..], "height") == Some(a[3].1);
    assert Get(a[2..], "height") == Some(a[3].1);
    assert Get(a[1..], "height") == Some(a[3].1);
    assert Get(a[2..], "width") == Some(a[2].1);
    assert Get(a[1..], "width") == Some(a[2].1);
  }

  /** The first three lines: XML declaration, icon count comment, outer opening tag. */
  function Prologue(js: Foreign, sprite: GeneratedSprite): string {
    XmlDeclaration
      + "<!-- " + js.numberToString(|sprite.entries| as real) + " icons packed -->\n"
      + OuterOpenTag(js, sprite) + "\n"
  }

  lemma PrologueStart(js: Foreign, sprite: GeneratedSprite)
    ensures XmlDeclaration <= Prologue(js, sprite)
  {
    var rest := "<!-- " + js.numberToString(|sprite.entries| as real) + " icons packed -->\n"
                + OuterOpenTag(js, sprite) + "\n";
    assert Prologue(js, sprite) == XmlDeclaration + rest;
  }

  lemma Framed(prologue: string, body: string)
    requires XmlDeclaration <= prologue
    ensures XmlDeclaration <= prologue + body + "</svg>"
    ensures EndsWith(prologue + body + "</svg>", "</svg>")
  {
    var t := prologue + body + "</svg>";
    assert t[..|XmlDeclaration|] == prologue[..|XmlDeclaration|];
    assert t[|t| - 6..] == "</svg>";
  }

  /** An icon's root with the namespace declarations deleted and its id and placement set. */
  function RewriteRoot(js: Foreign, e: SvgFile): Node {
    var a := e.root.attributes;
    var a := Remove(a, "xmlns");
    var a := Remove(a, "xmlns:xlink");
    var a := Put(a, "id", IdPrefix + e.name);
    var a := Put(a, "x", js.numberToString(e.bounds.x));
    var a := Put(a, "y", js.numberToString(e.bounds.y));
    var a := Put(a, "width", js.numberToString(e.bounds.w));
    var a := Put(a, "height", js.numberToString(e.bounds.h));
    e.root.(attributes := a)
  }

  /** The attribute list of a rewritten root reads, key by key, as the original one with the
      namespace declarations deleted and the id and the icon's bounds set. */
  lemma {:induction false} RewrittenAttribute(js: Foreign, e: SvgFile, k: string)
    ensures Get(RewriteRoot(js, e).attributes, k) ==
              if k == "height" then Some(js.numberToString(e.bounds.h))
              else if k == "width" then Some(js.numberToString(e.bounds.w))
              else if k == "y" then Some(js.numberToString(e.bounds.y))
              else if k == "x" then Some(js.numberToString(e.bounds.x))
              else if k == "id" then Some(IdPrefix + e.name)
              else if k == "xmlns:xlink" || k == "xmlns" then None
              else Get(e.root.attributes, k)
  {
    var a0 := e.root.attributes;
    var a1 := Remove(a0, "xmlns");
    var a2 := Remove(a1, "xmlns:xlink");
    var a3 := Put(a2, "id", IdPrefix + e.name);
    var a4 := Put(a3, "x", js.numberToString(e.bounds.x));
    var a5 := Put(a4, "y", js.numberToString(e.bounds.y));
    var a6 := Put(a5, "width", js.numberToString(e.bounds.w));
    RemoveGet(a0, "xmlns", k);
    RemoveGet(a1, "xmlns:xlink", k);
    PutGet(a2, "id", IdPrefix + e.name, k);
    PutGet(a3, "x", js.numberToString(e.bounds.x), k);
    PutGet(a4, "y", js.numberToString(e.bounds.y), k);
    PutGet(a5, "width", js.numberToString(e.bounds.w), k);
    PutGet(a6, "height", js.numberToString(e.bounds.h), k);
  }

  /** The rewritten root loses `xmlns` and `xmlns:xlink`, carries id `client-<name>` and the icon's
      bounds as x, y, width and height, and keeps every other attribute, its name, children and text. Their order
      is stated by `RewriteRootKeys`. */
  lemma RewriteRootSpec(js: Foreign, e: SvgFile)
    ensures var r := RewriteRoot(js, e);
            && r.name == e.root.name && r.children == e.root.children && r.content == e.root.content
            && Get(r.attributes, "xmlns") == None
            && Get(r.attributes, "xmlns:xlink") == None
            && Get(r.attributes, "id") == Some(IdPrefix + e.name)
            && Get(r.attributes, "x") == Some(js.numberToString(e.bounds.x))
            && Get(r.attributes, "y") == Some(js.numberToString(e.bounds.y))
            && Get(r.attributes, "width") == Some(js.numberToString(e.bounds.w))
            && Get(r.attributes, "height") == Some(js.numberToString(e.bounds.h))
            && (forall k :: k !in RewrittenKeys ==> Get(r.attributes, k) == Get(e.root.attributes, k))
  {
    var r := RewriteRoot(js, e);
    assert "x"[0] != "y"[0] && "width"[0] != "xmlns"[0];
    RewrittenAttribute(js, e, "xmlns");
    RewrittenAttribute(js, e, "xmlns:xlink");
    RewrittenAttribute(js, e, "id");
    RewrittenAttribute(js, e, "x");
    RewrittenAttribute(js, e, "y");
    RewrittenAttribute(js, e, "width");
    RewrittenAttribute(js, e, "height");
    forall k | k !in RewrittenKeys
      ensures Get(r.attributes, k) == Get(e.root.attributes, k)
    {
      RewrittenAttribute(js, e, k);
    }
  }

  /** The assignments the rewrite makes after the deletions, in source order. */
  function PlacementAttributes(js: Foreign, e: SvgFile): Attributes {
    [("id", IdPrefix + e.name),
     ("x", js.numberToString(e.bounds.x)),
     ("y", js.numberToString(e.bounds.y)),
     ("width", js.numberToString(e.bounds.w)),
     ("height", js.numberToString(e.bounds.h))]
  }

  /** The rewrite is the two deletions followed by the run of placement assignments. */
  lemma RewriteIsPutAll(js: Foreign, e: SvgFile)
    ensures RewriteRoot(js, e).attributes ==
              PutAll(Remove(Remove(e.root.attributes, "xmlns"), "xmlns:xlink"), PlacementAttributes(js, e))
  {
    var ps := PlacementAttributes(js, e);
    var a2 := Remove(Remove(e.root.attributes, "xmlns"), "xmlns:xlink");
    var a3 := Put(a2, ps[0].0, ps[0].1);
    var a4 := Put(a3, ps[1].0, ps[1].1);
    var a5 := Put(a4, ps[2].0, ps[2].1);
    var a6 := Put(a5, ps[3].0, ps[3].1);
    var a7 := Put(a6, ps[4].0, ps[4].1);
    assert PutAll(a2, ps) == PutAll(a3, ps[1..]);
    assert PutAll(a3, ps[1..]) == PutAll(a4, ps[2..]);
    assert PutAll(a4, ps[2..]) == PutAll(a5, ps[3..]);
    assert PutAll(a5, ps[3..]) == PutAll(a6, ps[4..]);
    assert PutAll(a6, ps[4..]) == PutAll(a7, ps[5..]);
  }

  /** The names the placement assigns, which are distinct. */
  const PlacementNames := ["id", "x", "y", "width", "height"]

  lemma PlacementKeys(js: Foreign, e: SvgFile)
    ensures Keys(PlacementAttributes(js, e)) == PlacementNames
    ensures DistinctKeys(PlacementAttributes(js, e))
  {
    assert "x"[0] != "y"[0] && "width"[0] != "xmlns"[0];
  }

  /** No placement name is a namespace declaration, so the deletions do not decide which of them
      are new. */
  lemma PlacementNamesSurviveDeletion(a0: Attributes)
    ensures KeysNotIn(PlacementNames, Keys(Remove(Remove(a0, "xmlns"), "xmlns:xlink"))) ==
              KeysNotIn(PlacementNames, Keys(a0))
  {
    var a1 := Remove(a0, "xmlns");
    var a2 := Remove(a1, "xmlns:xlink");
    forall k | k in PlacementNames
      ensures k in Keys(a2) <==> k in Keys(a0)
    {
      assert k != "xmlns" && k != "xmlns:xlink" by {
        assert "width"[0] != "xmlns"[0];
      }
      RemoveGet(a0, "xmlns", k);
      RemoveGet(a1, "xmlns:xlink", k);
    }
    KeysNotInAgree(PlacementNames, Keys(a2), Keys(a0));
  }

  /** The rewritten root lists its attributes in the order the source assigns them: the original
      ones except the namespace declarations, each in its old place, then those of `id`, `x`, `y`,
      `width` and `height` that it did not already have, in that order. */
  lemma RewriteRootKeys(js: Foreign, e: SvgFile)
    ensures Keys(RewriteRoot(js, e).attributes) ==
              KeysNotIn(Keys(e.root.attributes), ["xmlns", "xmlns:xlink"]) +
              KeysNotIn(["id", "x", "y", "width", "height"], Keys(e.root.attributes))
  {
    var a0 := e.root.attributes;
    var a1 := Remove(a0, "xmlns");
    var a2 := Remove(a1, "xmlns:xlink");
    var ps := PlacementAttributes(js, e);
    assert Keys(a2) == KeysNotIn(Keys(a0), ["xmlns", "xmlns:xlink"]) by {
      RemoveKeys(a0, "xmlns");
      RemoveKeys(a1, "xmlns:xlink");
      KeysNotInTwice(Keys(a0), ["xmlns"], ["xmlns:xlink"]);
      assert ["xmlns"] + ["xmlns:xlink"] == ["xmlns", "xmlns:xlink"];
    }
    assert Keys(RewriteRoot(js, e).attributes) == Keys(a2) + KeysNotIn(PlacementNames, Keys(a2)) by {
      PlacementKeys(js, e);
      RewriteIsPutAll(js, e);
      PutAllKeys(a2, ps);
    }
    PlacementNamesSurviveDeletion(a0);
  }

  /** A rewritten root still has distinct attribute names. */
  lemma RewriteRootDistinct(js: Foreign, e: SvgFile)
    requires DistinctKeys(e.root.attributes)
    ensures DistinctKeys(RewriteRoot(js, e).attributes)
  {
    var a0 := e.root.attributes;
    var a1 := Remove(a0, "xmlns");
    var a2 := Remove(a1, "xmlns:xlink");
    var a3 := Put(a2, "id", IdPrefix + e.name);
    var a4 := Put(a3, "x", js.numberToString(e.bounds.x));
    var a5 := Put(a4, "y", js.numberToString(e.bounds.y));
    var a6 := Put(a5, "width", js.numberToString(e.bounds.w));
    RemoveDistinct(a0, "xmlns");
    RemoveDistinct(a1, "xmlns:xlink");
    PutDistinct(a2, "id", IdPrefix + e.name);
    PutDistinct(a3, "x", js.numberToString(e.bounds.x));
    PutDistinct(a4, "y", js.numberToString(e.bounds.y));
    PutDistinct(a5, "width", js.numberToString(e.bounds.w));
    PutDistinct(a6, "height", js.numberToString(e.bounds.h));
  }

  /** Rewriting a root touches only its attributes, so it prints exactly when the original does. */
  lemma RewriteKeepsValid(js: Foreign, entries: seq<SvgFile>)
    ensures forall j :: 0 <= j < |entries| ==> (Valid(RewriteRoot(js, entries[j])) <==> Valid(entries[j].root))
  {
    forall j | 0 <= j < |entries|
      ensures Valid(RewriteRoot(js, entries[j])) <==> Valid(entries[j].root)
    {
      RewriteRootSpec(js, entries[j]);
    }
  }

  /** The rewritten roots, in entry order. */
  function RewrittenRoots(js: Foreign, entries: seq<SvgFile>): (r: seq<Node>)
    ensures |r| == |entries| && forall j :: 0 <= j < |entries| ==> r[j] == RewriteRoot(js, entries[j])
  {
    seq(|entries|, j requires 0 <= j < |entries| => RewriteRoot(js, entries[j]))
  }

  /** The lines of `roots[i..]`: each root at an indent of two spaces, newline-terminated. */
  function NestedTexts(roots: seq<Node>, i: nat): (r: Result<seq<string>, string>)
    requires i <= |roots|
    ensures r.Success? <==> forall j :: i <= j < |roots| ==> Valid(roots[j])
    ensures r.Success? ==> |r.value| == |roots| - i
    ensures r.Success? ==> forall j :: i <= j < |roots| ==>
              NodeToXml("  ", roots[j]).Success? && r.value[j - i] == NodeToXml("  ", roots[j]).value + "\n"
    decreases |roots| - i
  {
    if i == |roots| then Success([])
    else
      PrintsIffValid("  ", roots[i]);
      match NodeToXml("  ", roots[i])
      case Failure(e) => Failure(e)
      case Success(text) =>
        match NestedTexts(roots, i + 1)
        case Failure(e) => Failure(e)
        case Success(rest) => Success([text + "\n"] + rest)
  }

  /** `generateSpriteSvg(sprite)`: the XML declaration, a comment with the icon count, the outer
      `<svg>` spanning the sheet, every icon's rewritten root nested in entry order, and `</svg>`;
      it fails exactly when some icon has an element with both text and children. */
  function SpriteSvg(js: Foreign, sprite: GeneratedSprite): (r: Result<string, string>)
    ensures r.Success? <==> forall j :: 0 <= j < |sprite.entries| ==> Valid(sprite.entries[j].root)
    ensures r.Success? ==> XmlDeclaration <= r.value && EndsWith(r.value, "</svg>")
  {
    RewriteKeepsValid(js, sprite.entries);
    match NestedTexts(RewrittenRoots(js, sprite.entries), 0)
    case Failure(e) => Failure(e)
    case Success(texts) =>
      PrologueStart(js, sprite);
      Framed(Prologue(js, sprite), Concat(texts));
      Success(Prologue(js, sprite) + Concat(texts) + "</svg>")
  }

  /** The composite is the prologue, then line by line each icon's rewritten root printed two
      spaces deep, in entry order, then `</svg>`. */
  lemma SpriteSvgLayout(js: Foreign, sprite: GeneratedSprite)
    requires forall j :: 0 <= j < |sprite.entries| ==> Valid(sprite.entries[j].root)
    ensures var texts := NestedTexts(RewrittenRoots(js, sprite.entries), 0);
            && texts.Success?
            && |texts.value| == |sprite.entries|
            && (forall j :: 0 <= j < |sprite.entries| ==>
                  texts.value[j] == NodeToXml("  ", RewriteRoot(js, sprite.entries[j])).value + "\n")
            && SpriteSvg(js, sprite) == Success(Prologue(js, sprite) + Concat(texts.value) + "</svg>")
  {
    RewriteKeepsValid(js, sprite.entries);
  }
}
