/** The sprite stylesheet (`generateSpriteCss` in plugin/generator.ts): one rule for the base
    selector that puts the sprite sheet behind every icon, then one rule per icon that moves the
    sheet to the icon's place and, for icons whose size is not the canonical one, resizes it. */
module Css {
  import opened Wrappers
  import opened Text
  import opened Sprite
  import opened Geometry

  /** One `property:value` declaration. */
  datatype Decl = Decl(property: string, value: string)

  /** One rule: a selector and its declarations, in order. */
  datatype Rule = Rule(selector: string, decls: seq<Decl>)

  function DeclText(d: Decl): string {
    d.property + ":" + d.value
  }

  function DeclTexts(ds: seq<Decl>): seq<string> {
    seq(|ds|, i requires 0 <= i < |ds| => DeclText(ds[i]))
  }

  /** The text of a rule as the generator writes it: no spaces, `;` between declarations and none
      after the last. */
  function RuleText(r: Rule): string {
    r.selector + "{" + Join(DeclTexts(r.decls), ";") + "}"
  }

  /** A length: the number followed by the unit. */
  function Length(js: Foreign, u: Unit, v: real): string {
    js.numberToString(v) + UnitName(u)
  }

  /** `unit(value)`: an offset, written without a unit when it is zero. */
  function Offset(js: Foreign, u: Unit, v: real): string {
    if v == 0.0 then js.numberToString(v) else Length(js, u, v)
  }

  /** Whatever text the number prints as, an offset starts with it, and what follows is empty for
      a zero and the unit name otherwise. */
  lemma OffsetText(js: Foreign, u: Unit, v: real)
    ensures js.numberToString(v) <= Offset(js, u, v)
    ensures var suffix := Offset(js, u, v)[|js.numberToString(v)|..];
            && (suffix == "" <==> v == 0.0)
            && (v != 0.0 ==> suffix == UnitName(u))
  {
    var n := js.numberToString(v);
    if v != 0.0 {
      assert (n + UnitName(u))[|n|..] == UnitName(u);
    } else {
      assert n[|n|..] == "";
    }
  }

  /** The sizes of the sprite's icons, in entry order. */
  function EntrySizes(entries: seq<SvgFile>): (r: seq<Size>)
    ensures |r| == |entries|
    ensures forall i :: 0 <= i < |entries| ==> r[i] == entries[i].bounds.BoxSize()
  {
    seq(|entries|, i requires 0 <= i < |entries| => entries[i].bounds.BoxSize())
  }

  /** `background-size`: the whole sheet, scaled. */
  function SheetSize(js: Foreign, o: CssOptions, sprite: GeneratedSprite, s: Scale): Decl {
    Decl("background-size", Length(js, o.unit, Scaled(sprite.width, s.x)) + " " + Length(js, o.unit, Scaled(sprite.height, s.y)))
  }

  /** The rule for the configured selector itself. */
  function BaseRule(js: Foreign, o: CssOptions, sprite: GeneratedSprite, c: Size, s: Scale, url: string): Rule {
    Rule(o.selector, [
      Decl("display", "inline-block"),
      Decl("background", "url(\"" + url + "\") no-repeat"),
      SheetSize(js, o, sprite, s),
      Decl("height", Length(js, o.unit, Scaled(c.h, s.y))),
      Decl("width", Length(js, o.unit, Scaled(c.w, s.x)))])
  }

  /** The rule for one icon. The width of an icon that is not of the canonical size is scaled by
      the vertical factor and its height by the horizontal one, exactly as the generator does. */
  function IconRule(js: Foreign, o: CssOptions, prefix: string, sprite: GeneratedSprite, c: Size, s: Scale, e: SvgFile): Rule {
    var position := Decl("background-position",
      Offset(js, o.unit, Scaled(-e.bounds.x, s.x)) + " " + Offset(js, o.unit, Scaled(-e.bounds.y, s.y)));
    var selector := o.selector + "." + ClassName(prefix, e);
    if e.bounds.w != c.w || e.bounds.h != c.h then
      Rule(selector, [
        position,
        SheetSize(js, o, sprite, s),
        Decl("width", Length(js, o.unit, Scaled(e.bounds.w, s.y))),
        Decl("height", Length(js, o.unit, Scaled(e.bounds.h, s.x)))])
    else
      Rule(selector, [position])
  }

  /** Why no stylesheet can be produced: a sprite without icons has no canonical size (the
      generator throws), and an `em` stylesheet needs a canonical size with no zero side. */
  datatype CssError = EmptySprite | ZeroCanonicalSide

  /** The canonical size of a non-empty sprite. */
  function Canonical(sprite: GeneratedSprite): Size
    requires |sprite.entries| > 0
  {
    CanonicalSize(EntrySizes(sprite.entries))
  }

  /** The rules of the stylesheet, in the order they are written. */
  function CssRules(js: Foreign, o: CssOptions, prefix: string, sprite: GeneratedSprite, url: string): Result<seq<Rule>, CssError> {
    if |sprite.entries| == 0 then Failure(EmptySprite)
    else
      var c := Canonical(sprite);
      match ScaleFactors(o, c)
      case None => Failure(ZeroCanonicalSide)
      case Some(s) =>
        Success([BaseRule(js, o, sprite, c, s, url)] +
          seq(|sprite.entries|, i requires 0 <= i < |sprite.entries| => IconRule(js, o, prefix, sprite, c, s, sprite.entries[i])))
  }

  /** The rules of a successful stylesheet: the base rule and the icon rules under the canonical
      size and its scale factors. */
  lemma RulesUnfold(js: Foreign, o: CssOptions, prefix: string, sprite: GeneratedSprite, url: string, j: nat)
    requires CssRules(js, o, prefix, sprite, url).Success? && j < |sprite.entries|
    ensures ScaleFactors(o, Canonical(sprite)).Some?
    ensures var c := Canonical(sprite);
            var s := ScaleFactors(o, c).value;
            var rules := CssRules(js, o, prefix, sprite, url).value;
            && |rules| == |sprite.entries| + 1
            && rules[0] == BaseRule(js, o, sprite, c, s, url)
            && rules[j + 1] == IconRule(js, o, prefix, sprite, c, s, sprite.entries[j])
  {
  }

  /** The size declarations of the base rule. */
  lemma BaseRuleDecls(js: Foreign, o: CssOptions, sprite: GeneratedSprite, c: Size, s: Scale, url: string)
    ensures BaseRule(js, o, sprite, c, s, url).decls[3] == Decl("height", Length(js, o.unit, Scaled(c.h, s.y)))
    ensures BaseRule(js, o, sprite, c, s, url).decls[4] == Decl("width", Length(js, o.unit, Scaled(c.w, s.x)))
  {
  }

  /** The size declarations of an icon rule that is not of the canonical size. */
  lemma IconRuleDecls(js: Foreign, o: CssOptions, prefix: string, sprite: GeneratedSprite, c: Size, s: Scale, e: SvgFile)
    requires e.bounds.w != c.w || e.bounds.h != c.h
    ensures |IconRule(js, o, prefix, sprite, c, s, e).decls| == 4
    ensures IconRule(js, o, prefix, sprite, c, s, e).decls[2] == Decl("width", Length(js, o.unit, Scaled(e.bounds.w, s.y)))
    ensures IconRule(js, o, prefix, sprite, c, s, e).decls[3] == Decl("height", Length(js, o.unit, Scaled(e.bounds.h, s.x)))
  {
  }

  /** Does the icon have the canonical size? */
  predicate IsCanonical(sprite: GeneratedSprite, e: SvgFile)
    requires |sprite.entries| > 0
  {
    e.bounds.BoxSize() == Canonical(sprite)
  }

  /** The stylesheet exists unless the sprite is empty or an `em` sheet meets a zero canonical side;
      it has the base rule and then one rule per icon, in icon order, selecting the icon's class
      under the configured selector; the icons of canonical size get their position only, the
      others also the sheet size of the base rule and their own width and height. */
  lemma CssRulesSpec(js: Foreign, o: CssOptions, prefix: string, sprite: GeneratedSprite, url: string)
    ensures CssRules(js, o, prefix, sprite, url).Failure? <==>
              |sprite.entries| == 0 ||
              (o.unit == Em && (Canonical(sprite).w == 0.0 || Canonical(sprite).h == 0.0))
    ensures |sprite.entries| == 0 ==> CssRules(js, o, prefix, sprite, url) == Failure(EmptySprite)
    ensures CssRules(js, o, prefix, sprite, url).Success? ==>
              var rules := CssRules(js, o, prefix, sprite, url).value;
              && |rules| == |sprite.entries| + 1
              && rules[0].selector == o.selector
              && |rules[0].decls| == 5
              && (forall j :: 0 <= j < |sprite.entries| ==>
                    && rules[j + 1].selector == o.selector + "." + prefix + sprite.entries[j].name
                    && rules[j + 1].decls[0].property == "background-position"
                    && (|rules[j + 1].decls| == 1 <==> IsCanonical(sprite, sprite.entries[j]))
                    && (!IsCanonical(sprite, sprite.entries[j]) ==>
                          |rules[j + 1].decls| == 4 && rules[j + 1].decls[1] == rules[0].decls[2]))
  {
    if |sprite.entries| != 0 {
      var c := Canonical(sprite);
      ScaleFactorsSpec(o, c);
      if CssRules(js, o, prefix, sprite, url).Success? {
        var rules := CssRules(js, o, prefix, sprite, url).value;
        RulesUnfold(js, o, prefix, sprite, url, 0);
        forall j | 0 <= j < |sprite.entries|
          ensures && rules[j + 1].selector == o.selector + "." + prefix + sprite.entries[j].name
                  && rules[j + 1].decls[0].property == "background-position"
                  && (|rules[j + 1].decls| == 1 <==> IsCanonical(sprite, sprite.entries[j]))
                  && (!IsCanonical(sprite, sprite.entries[j]) ==>
                        |rules[j + 1].decls| == 4 && rules[j + 1].decls[1] == rules[0].decls[2])
        {
          IconRuleShape(js, o, prefix, sprite, url, j);
        }
      }
    }
  }

  /** The rule of icon `j`: its class under the selector, its position first, and the extra size
      declarations exactly when the icon is off-size. */
  lemma IconRuleShape(js: Foreign, o: CssOptions, prefix: string, sprite: GeneratedSprite, url: string, j: nat)
    requires CssRules(js, o, prefix, sprite, url).Success? && j < |sprite.entries|
    ensures var rules := CssRules(js, o, prefix, sprite, url).value;
            && rules[j + 1].selector == o.selector + "." + prefix + sprite.entries[j].name
            && rules[j + 1].decls[0].property == "background-position"
            && (|rules[j + 1].decls| == 1 <==> IsCanonical(sprite, sprite.entries[j]))
            && (!IsCanonical(sprite, sprite.entries[j]) ==>
                  |rules[j + 1].decls| == 4 && rules[j + 1].decls[1] == rules[0].decls[2])
  {
    RulesUnfold(js, o, prefix, sprite, url, j);
  }

  /** The base rule shows the sheet at `url`, once, and sizes it as the sprite's width and height
      times the horizontal and vertical factors (`scale` in `px`, `scale` over the canonical width
      and height in `em`). In `em`, an icon of the canonical size measures exactly `scale` em each
      way; in `px`, the canonical size times `scale`. */
  lemma BaseRuleSize(js: Foreign, o: CssOptions, prefix: string, sprite: GeneratedSprite, url: string)
    requires CssRules(js, o, prefix, sprite, url).Success?
    ensures var base := CssRules(js, o, prefix, sprite, url).value[0];
            var c := Canonical(sprite);
            var sx := if o.unit == Em then o.scale / c.w else o.scale;
            var sy := if o.unit == Em then o.scale / c.h else o.scale;
            && base.decls[0] == Decl("display", "inline-block")
            && base.decls[1] == Decl("background", "url(\"" + url + "\") no-repeat")
            && base.decls[2] == Decl("background-size",
                 Length(js, o.unit, Scaled(sprite.width, sx)) + " " + Length(js, o.unit, Scaled(sprite.height, sy)))
            && base.decls[3] == Decl("height", Length(js, o.unit, if o.unit == Em then o.scale else Scaled(c.h, o.scale)))
            && base.decls[4] == Decl("width", Length(js, o.unit, if o.unit == Em then o.scale else Scaled(c.w, o.scale)))
  {
    RulesUnfold(js, o, prefix, sprite, url, 0);
    var c := Canonical(sprite);
    var s := ScaleFactors(o, c).value;
    ScaleFactorsSpec(o, c);
    BaseRuleDecls(js, o, sprite, c, s, url);
    if o.unit == Em {
      assert Scaled(c.h, s.y) == o.scale && Scaled(c.w, s.x) == o.scale;
    } else {
      assert s == Scale(o.scale, o.scale);
    }
  }

  /** The background position moves the sheet up and left by the icon's scaled offset, and a
      zero offset carries no unit. */
  lemma IconPosition(js: Foreign, o: CssOptions, prefix: string, sprite: GeneratedSprite, url: string, j: nat)
    requires CssRules(js, o, prefix, sprite, url).Success? && j < |sprite.entries|
    ensures var e := sprite.entries[j];
            var s := ScaleFactors(o, Canonical(sprite)).value;
            var p := CssRules(js, o, prefix, sprite, url).value[j + 1].decls[0].value;
            && (e.bounds.x == 0.0 ==> p == js.numberToString(0.0) + " " + Offset(js, o.unit, Scaled(-e.bounds.y, s.y)))
            && (e.bounds.x != 0.0 && s.x != 0.0 ==>
                  p == js.numberToString(Scaled(-e.bounds.x, s.x)) + UnitName(o.unit) + " " + Offset(js, o.unit, Scaled(-e.bounds.y, s.y)))
  {
    RulesUnfold(js, o, prefix, sprite, url, j);
    var e := sprite.entries[j];
    var s := ScaleFactors(o, Canonical(sprite)).value;
    if e.bounds.x == 0.0 {
      assert Scaled(-e.bounds.x, s.x) == 0.0;
    } else if s.x != 0.0 {
      assert Scaled(-e.bounds.x, s.x) != 0.0;
    }
  }

  /** The size of an icon that is not of the canonical size: in `px` its own size times `scale`; in
      `em` its width is divided by the canonical HEIGHT and its height by the canonical WIDTH, so
      the axes are swapped whenever the canonical size is not square. */
  lemma IconOverrideSize(js: Foreign, o: CssOptions, prefix: string, sprite: GeneratedSprite, url: string, j: nat)
    requires CssRules(js, o, prefix, sprite, url).Success? && j < |sprite.entries|
    requires !IsCanonical(sprite, sprite.entries[j])
    ensures var e := sprite.entries[j];
            var c := Canonical(sprite);
            var ds := CssRules(js, o, prefix, sprite, url).value[j + 1].decls;
            && |ds| == 4
            && (o.unit == Px ==>
                  ds[2] == Decl("width", Length(js, Px, Scaled(e.bounds.w, o.scale))) &&
                  ds[3] == Decl("height", Length(js, Px, Scaled(e.bounds.h, o.scale))))
            && (o.unit == Em ==>
                  ds[2] == Decl("width", Length(js, Em, Scaled(e.bounds.w, o.scale / c.h))) &&
                  ds[3] == Decl("height", Length(js, Em, Scaled(e.bounds.h, o.scale / c.w))))
  {
    RulesUnfold(js, o, prefix, sprite, url, j);
    var c := Canonical(sprite);
    ScaleFactorsSpec(o, c);
    var s := ScaleFactors(o, c).value;
    var e := sprite.entries[j];
    IconRuleDecls(js, o, prefix, sprite, c, s, e);
    if o.unit == Px {
      assert s == Scale(o.scale, o.scale);
    } else {
      assert s == Scale(o.scale / c.w, o.scale / c.h);
    }
  }

  /** `generateSpriteCss`: the rules written one after the other. */
  function SpriteCss(js: Foreign, o: CssOptions, prefix: string, sprite: GeneratedSprite, url: string): (r: Result<string, CssError>)
    ensures r.Failure? <==> CssRules(js, o, prefix, sprite, url).Failure?
    ensures r.Failure? ==> r.error == CssRules(js, o, prefix, sprite, url).error
  {
    match CssRules(js, o, prefix, sprite, url)
    case Failure(err) => Failure(err)
    case Success(rules) =>
      Success(Concat(seq(|rules|, i requires 0 <= i < |rules| => RuleText(rules[i]))))
  }

  /** The texts of the icon rules, in icon order. */
  function IconTexts(rules: seq<Rule>): (r: seq<string>)
    requires |rules| > 0
    ensures |r| == |rules| - 1
  {
    seq(|rules| - 1, i requires 0 <= i < |rules| - 1 => RuleText(rules[i + 1]))
  }

  /** The stylesheet is the base selector's block followed by each icon's block in turn. */
  lemma SpriteCssLayout(js: Foreign, o: CssOptions, prefix: string, sprite: GeneratedSprite, url: string)
    requires SpriteCss(js, o, prefix, sprite, url).Success?
    ensures var rules := CssRules(js, o, prefix, sprite, url).value;
            && |rules| == |sprite.entries| + 1
            && SpriteCss(js, o, prefix, sprite, url).value == RuleText(rules[0]) + Concat(IconTexts(rules))
  {
    var rules := CssRules(js, o, prefix, sprite, url).value;
    RulesUnfold(js, o, prefix, sprite, url, 0);
    RulesText(rules);
  }

  /** Each block opens with its selector and `{` and closes with `}`: the base selector first,
      then each icon's class under it. */
  lemma RuleFrames(js: Foreign, o: CssOptions, prefix: string, sprite: GeneratedSprite, url: string)
    requires CssRules(js, o, prefix, sprite, url).Success?
    ensures var rules := CssRules(js, o, prefix, sprite, url).value;
            && |rules| == |sprite.entries| + 1
            && o.selector + "{" <= RuleText(rules[0])
            && forall j :: 0 <= j < |sprite.entries| ==>
                 && o.selector + "." + prefix + sprite.entries[j].name + "{" <= RuleText(rules[j + 1])
                 && RuleText(rules[j + 1])[|RuleText(rules[j + 1])| - 1] == '}'
  {
    var rules := CssRules(js, o, prefix, sprite, url).value;
    RulesUnfold(js, o, prefix, sprite, url, 0);
    RuleTextFrame(rules[0]);
    forall j | 0 <= j < |sprite.entries|
      ensures o.selector + "." + prefix + sprite.entries[j].name + "{" <= RuleText(rules[j + 1])
      ensures RuleText(rules[j + 1])[|RuleText(rules[j + 1])| - 1] == '}'
    {
      RulesUnfold(js, o, prefix, sprite, url, j);
      RuleTextFrame(rules[j + 1]);
    }
  }

  /** Writing the rules one after the other: the first rule, then the rest. */
  lemma RulesText(rules: seq<Rule>)
    requires |rules| > 0
    ensures Concat(seq(|rules|, i requires 0 <= i < |rules| => RuleText(rules[i]))) == RuleText(rules[0]) + Concat(IconTexts(rules))
  {
    var texts := seq(|rules|, i requires 0 <= i < |rules| => RuleText(rules[i]));
    ConcatCons(texts);
    assert texts[1..] == IconTexts(rules);
  }

  /** A rule's text opens with its selector and `{` and closes with `}`. */
  lemma RuleTextFrame(r: Rule)
    ensures r.selector + "{" <= RuleText(r)
    ensures |RuleText(r)| > 0 && RuleText(r)[|RuleText(r)| - 1] == '}'
  {
    var t := RuleText(r);
    var head := r.selector + "{";
    assert t == head + (Join(DeclTexts(r.decls), ";") + "}");
    assert t[..|head|] == head;
  }
}
