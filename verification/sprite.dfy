/** The generated sprite (`SVGFile` and `GeneratedSprite` in plugin/generator.ts) and the
    JavaScript functions and libraries the generator calls but whose code the model leaves open. */
module Sprite {
  import opened Wrappers
  import opened Xml

  /** A box handed to the packer. */
  datatype Size = Size(w: real, h: real)

  /** An icon's size and its place in the sprite sheet. */
  datatype Bounds = Bounds(w: real, h: real, x: real, y: real) {
    function BoxSize(): Size {
      Size(w, h)
    }
  }

  /** One icon: its bounds, its name (file name without extension) and its parsed root element. */
  datatype SvgFile = SvgFile(bounds: Bounds, name: string, root: Node)

  /** The sprite sheet: its size and the icons in input order. */
  datatype GeneratedSprite = GeneratedSprite(width: real, height: real, entries: seq<SvgFile>)

  datatype Position = Position(x: real, y: real)

  /** What the packer returns: one position per box, in box order, and the sheet size. */
  datatype Packing = Packing(positions: seq<Position>, w: real, h: real)

  /** The rectangle packer (the `potpack` library). Its algorithm is not part of this model; all
      the generator relies on is that it places every box it is given. */
  type Packer = pack: seq<Size> -> Packing | forall boxes :: |pack(boxes).positions| == |boxes|
    witness (boxes: seq<Size>) => Packing(seq(|boxes|, _ => Position(0.0, 0.0)), 0.0, 0.0)

  /** JavaScript built-ins and libraries the generator calls: number formatting (`Number#toString`
      and template literals), `parseFloat` (`None` for `NaN`), `pascalCase` from change-case,
      `sha1`, and `encodeURIComponent`. */
  datatype Foreign = Foreign(
    numberToString: real -> string,
    parseFloat: string -> Option<real>,
    pascalCase: string -> string,
    sha1: string -> string,
    encodeUriComponent: string -> string)

  /** The class name and published identifier of an icon: the configured prefix and its name. */
  function ClassName(prefix: string, e: SvgFile): string {
    prefix + e.name
  }
}
