/** The canonical icon size and the scale factors of one stylesheet configuration
    (the first part of `generateSpriteCss` in plugin/generator.ts). */
module Geometry {
  import opened Wrappers
  import opened Dict
  import opened Sprite

  /** How often `x` occurs in `sizes`. */
  function Count(sizes: seq<Size>, x: Size): nat
  {
    multiset(sizes)[x]
  }

  /** The position of the first `x` in `sizes`. */
  function FirstIndex(sizes: seq<Size>, x: Size): (i: nat)
    requires x in sizes
    ensures i < |sizes| && sizes[i] == x && x !in sizes[..i]
  {
    if sizes[0] == x then 0
    else
      var i := 1 + FirstIndex(sizes[1..], x);
      assert sizes[..i] == [sizes[0]] + sizes[1..][..i - 1];
      i
  }

  lemma FirstIndexIs(sizes: seq<Size>, x: Size, i: nat)
    requires i < |sizes| && sizes[i] == x && x !in sizes[..i]
    ensures FirstIndex(sizes, x) == i
  {
    var f := FirstIndex(sizes, x);
  }

  /** `boundsMap`: each size seen, in first-seen order, with `(boundsMap[key] | 0) + 1` per sighting. */
  function Tally(sizes: seq<Size>): Dict<Size, nat>
    decreases |sizes|
  {
    if |sizes| == 0 then []
    else
      Bump(Tally(sizes[..|sizes| - 1]), sizes[|sizes| - 1])
  }

  /** `boundsMap[key] = (boundsMap[key] | 0) + 1` */
  function Bump(t: Dict<Size, nat>, x: Size): (r: Dict<Size, nat>)
  {
    Put(t, x, Get(t, x).GetOr(0) + 1)
  }

  /** The tally never lists a size twice. */
  lemma {:induction false} TallyDistinct(sizes: seq<Size>)
    ensures DistinctKeys(Tally(sizes))
    decreases |sizes|
  {
    if |sizes| != 0 {
      var t := Tally(sizes[..|sizes| - 1]);
      var x := sizes[|sizes| - 1];
      TallyDistinct(sizes[..|sizes| - 1]);
      PutDistinct(t, x, Get(t, x).GetOr(0) + 1);
    }
  }

  /** The tally of a nonempty list is the tally of its front, bumped at its last size. */
  lemma TallyLast(sizes: seq<Size>, k: Size)
    requires |sizes| != 0
    ensures Get(Tally(sizes), k) == Get(Bump(Tally(sizes[..|sizes| - 1]), sizes[|sizes| - 1]), k)
  {
  }

  /** Bumping `x` adds one to its count, starting from zero, and leaves every other entry alone. */
  lemma BumpGet(t: Dict<Size, nat>, x: Size, k: Size)
    ensures Get(Bump(t, x), x) == Some(Get(t, x).GetOr(0) + 1)
    ensures k != x ==> Get(Bump(t, x), k) == Get(t, k)
  {
    PutGet(t, x, Get(t, x).GetOr(0) + 1, x);
    PutGet(t, x, Get(t, x).GetOr(0) + 1, k);
  }

  /** The tally holds exactly the sizes seen, each with its number of occurrences. */
  lemma {:induction false} TallyCounts(sizes: seq<Size>, k: Size)
    ensures Get(Tally(sizes), k) == if k in sizes then Some(Count(sizes, k)) else None
    decreases |sizes|
  {
    if |sizes| != 0 {
      var n := |sizes| - 1;
      var front := sizes[..n];
      var x := sizes[n];
      TallyCounts(front, k);
      CountSnoc(sizes, k);
      TallyLast(sizes, k);
      BumpGet(Tally(front), x, k);
    }
  }

  /** One more size adds one to its own count and nothing to the others. */
  lemma CountSnoc(sizes: seq<Size>, k: Size)
    requires |sizes| != 0
    ensures var front := sizes[..|sizes| - 1];
            var x := sizes[|sizes| - 1];
            && Count(sizes, k) == Count(front, k) + (if k == x then 1 else 0)
            && (k in sizes <==> k in front || k == x)
            && (k !in front ==> Count(front, k) == 0)
  {
    var front := sizes[..|sizes| - 1];
    var x := sizes[|sizes| - 1];
    assert sizes == front + [x];
    assert multiset(sizes) == multiset(front) + multiset{x};
  }

  /** Each size in the tally was seen; the tally lists sizes in order of first sighting. */
  lemma {:induction false} TallyOrder(sizes: seq<Size>)
    ensures forall i :: 0 <= i < |Tally(sizes)| ==> Tally(sizes)[i].0 in sizes
    ensures forall i, j :: 0 <= i < j < |Tally(sizes)| ==>
              FirstIndex(sizes, Tally(sizes)[i].0) < FirstIndex(sizes, Tally(sizes)[j].0)
    decreases |sizes|
  {
    if |sizes| != 0 {
      var n := |sizes| - 1;
      var front := sizes[..n];
      var x := sizes[n];
      var t := Tally(front);
      TallyOrder(front);
      var r := Bump(t, x);
      assert sizes == front + [x];
      forall k | k in front
        ensures FirstIndex(sizes, k) == FirstIndex(front, k)
      {
        var f := FirstIndex(front, k);
        assert sizes[..f] == front[..f];
        FirstIndexIs(sizes, k, f);
      }
      PutKeys(t, x, Get(t, x).GetOr(0) + 1);
      TallyCounts(front, x);
      assert Tally(sizes) == r;
      assert |r| == |t| || (|r| == |t| + 1 && r[|t|].0 == x && x !in front) by {
        if x !in front {
          assert Keys(r) == Keys(t) + [x];
          assert Keys(r)[|t|] == x;
        }
      }
      forall i | 0 <= i < |t|
        ensures r[i].0 == t[i].0
      {
        assert Keys(r)[i] == Keys(t)[i];
      }
      if x !in front {
        assert x !in sizes[..n];
        FirstIndexIs(sizes, x, n);
      }
      forall i | 0 <= i < |r|
        ensures r[i].0 in sizes
      {
        if i < |t| {
          assert t[i].0 in front;
        }
      }
      forall i, j | 0 <= i < j < |r|
        ensures FirstIndex(sizes, r[i].0) < FirstIndex(sizes, r[j].0)
      {
        assert t[i].0 in front;
        if j < |t| {
          assert t[j].0 in front;
        }
      }
    }
  }

  /** The head of `Object.keys(boundsMap).sort((a, b) => boundsMap[b] - boundsMap[a])`: the sort is
      stable, so it is the first entry whose count is the highest. */
  function MostFrequent(t: Dict<Size, nat>): (i: nat)
    requires |t| > 0
    ensures i < |t|
    ensures forall j :: 0 <= j < |t| ==> t[j].1 <= t[i].1
    ensures forall j :: 0 <= j < i ==> t[j].1 < t[i].1
    decreases |t|
  {
    if |t| == 1 then 0
    else
      var i := MostFrequent(t[..|t| - 1]);
      if t[|t| - 1].1 > t[i].1 then |t| - 1 else i
  }

  /** The canonical (default) icon size: the most frequent size, ties going to the size seen first. */
  function CanonicalSize(sizes: seq<Size>): Size
    requires |sizes| > 0
  {
    var t := Tally(sizes);
    assert Get(t, sizes[0]).Some? by { TallyCounts(sizes, sizes[0]); }
    t[MostFrequent(t)].0
  }

  /** The canonical size occurs in the input, no size occurs more often, and every size seen
      before its first occurrence occurs strictly less often. */
  lemma CanonicalSizeSpec(sizes: seq<Size>)
    requires |sizes| > 0
    ensures CanonicalSize(sizes) in sizes
    ensures forall j :: 0 <= j < |sizes| ==> Count(sizes, sizes[j]) <= Count(sizes, CanonicalSize(sizes))
    ensures forall j :: 0 <= j < FirstIndex(sizes, CanonicalSize(sizes)) ==>
              Count(sizes, sizes[j]) < Count(sizes, CanonicalSize(sizes))
  {
    var t := Tally(sizes);
    TallyDistinct(sizes);
    TallyOrder(sizes);
    TallyCounts(sizes, sizes[0]);
    var i := MostFrequent(t);
    var c := t[i].0;
    TallyCounts(sizes, c);
    GetDistinct(t, i);
    forall j | 0 <= j < |sizes|
      ensures Count(sizes, sizes[j]) <= t[i].1
      ensures j < FirstIndex(sizes, c) ==> Count(sizes, sizes[j]) < t[i].1
    {
      var y := sizes[j];
      TallyCounts(sizes, y);
      assert y in Keys(t);
      var m :| 0 <= m < |t| && t[m].0 == y;
      GetDistinct(t, m);
      if j < FirstIndex(sizes, c) {
        assert FirstIndex(sizes, y) <= j;
        assert m != i;
        assert !(i < m);
      }
    }
  }

  /** Three icons of 24×24 and one of 32×32 give a canonical size of 24×24. */
  lemma CanonicalSizeExample()
    ensures CanonicalSize([Size(24.0, 24.0), Size(32.0, 32.0), Size(24.0, 24.0), Size(24.0, 24.0)]) == Size(24.0, 24.0)
  {
    var sizes := [Size(24.0, 24.0), Size(32.0, 32.0), Size(24.0, 24.0), Size(24.0, 24.0)];
    CanonicalSizeSpec(sizes);
    var c := CanonicalSize(sizes);
    var a, b := Size(24.0, 24.0), Size(32.0, 32.0);
    assert sizes == [a] + [b] + [a] + [a];
    assert Count(sizes, a) == 3 && Count(sizes, b) == 1;
  }

  /** With equal counts the size seen first wins. */
  lemma CanonicalSizeTie(a: Size, b: Size)
    ensures CanonicalSize([a, b]) == a
  {
    var sizes := [a, b];
    CanonicalSizeSpec(sizes);
    assert sizes[..1] == [a];
    if a != b {
      assert Count(sizes[..1], a) == 1 && Count(sizes[..1], b) == 0;
      assert Count(sizes, a) == 1 && Count(sizes, b) == 1;
      assert FirstIndex(sizes, b) == 1;
    }
  }

  datatype Unit = Px | Em

  /** The CSS unit suffix. */
  function UnitName(u: Unit): string {
    match u
    case Px => "px"
    case Em => "em"
  }

  /** One stylesheet configuration (`SpriteCssOptions`). */
  datatype CssOptions = CssOptions(selector: string, scale: real, unit: Unit)

  /** Horizontal and vertical factors from sprite-sheet pixels to CSS units. */
  datatype Scale = Scale(x: real, y: real)

  /** A length in sprite-sheet pixels times a scale factor. */
  function Scaled(v: real, factor: real): real {
    v * factor
  }

  /** `scaleX`/`scaleY`: `scale` itself in `px`; in `em`, `scale` divided by the canonical width and
      height, so that a canonical icon measures `scale` em. `None` where that division is by zero. */
  function ScaleFactors(o: CssOptions, canonical: Size): Option<Scale> {
    if o.unit == Px then Some(Scale(o.scale, o.scale))
    else if canonical.w == 0.0 || canonical.h == 0.0 then None
    else Some(Scale(o.scale / canonical.w, o.scale / canonical.h))
  }

  /** In `px` both factors are the configured scale; in `em` a canonical icon is exactly `scale` em
      wide and high, and the factors exist exactly when the canonical size has no zero side. */
  lemma ScaleFactorsSpec(o: CssOptions, canonical: Size)
    ensures o.unit == Px ==> ScaleFactors(o, canonical) == Some(Scale(o.scale, o.scale))
    ensures o.unit == Em ==> (ScaleFactors(o, canonical).Some? <==> canonical.w != 0.0 && canonical.h != 0.0)
    ensures o.unit == Em && ScaleFactors(o, canonical).Some? ==>
              canonical.w * ScaleFactors(o, canonical).value.x == o.scale &&
              canonical.h * ScaleFactors(o, canonical).value.y == o.scale
  {
  }
}
