/**
 * Colour ordering of collage items: the RGB to HSV conversion, the two
 * in-place sorts (by brightness r+g+b, by hue) and `sortImages`, which
 * attaches an average colour to every item, sorts, and projects back to
 * `{link, title}`.
 *
 * The average colour of an image comes from a foreign library after the
 * image has loaded; here it is an input, one `Option<Rgb>` per item, where
 * `None` stands for a failed load or a failed extraction.  The HSV maths is
 * done over exact reals.
 */
module ColorSort {
  import opened Wrappers

  /** A collage item as the generator passes it around. */
  datatype Item = Item(link: string, title: string)

  /** An average colour, one integer per channel. */
  datatype Rgb = Rgb(r: int, g: int, b: int)

  datatype Hsv = Hsv(h: real, s: real, v: real)

  /** An item with its colour attached (`ImgWithColor`). */
  datatype Colored = Colored(src: string, color: Rgb, link: string, title: string)

  function Max3(a: real, b: real, c: real): (m: real)
    ensures (m == a || m == b || m == c) && a <= m && b <= m && c <= m
  {
    if a >= b && a >= c then a else if b >= c then b else c
  }

  function Min3(a: real, b: real, c: real): (m: real)
    ensures (m == a || m == b || m == c) && m <= a && m <= b && m <= c
  {
    if a <= b && a <= c then a else if b <= c then b else c
  }

  function Channel(x: int): real { x as real / 255.0 }

  /** The hexcone hue of scaled channels r, g, b whose largest is mx and
      spread is d, as a fraction of a turn. */
  function HueOf(r: real, g: real, b: real, mx: real, d: real): real {
    if d == 0.0 then 0.0
    else (if mx == r then (g - b) / d + (if g < b then 6.0 else 0.0)
          else if mx == g then (b - r) / d + 2.0
          else (r - g) / d + 4.0) / 6.0
  }

  /** Saturation of a colour whose largest scaled channel is mx and smallest mn. */
  function SaturationOf(mx: real, mn: real): real {
    if mx == 0.0 then 0.0 else (mx - mn) / mx
  }

  /** `rgbToHsv`: the hexcone conversion on channels scaled to [0, 1]. */
  function RgbToHsv(c: Rgb): Hsv {
    var r, g, b := Channel(c.r), Channel(c.g), Channel(c.b);
    var mx := Max3(r, g, b);
    var mn := Min3(r, g, b);
    Hsv(HueOf(r, g, b, mx, mx - mn), SaturationOf(mx, mn), mx)
  }

  /** Grey colours (all channels equal) have hue 0 and saturation 0. */
  lemma AchromaticHue(c: Rgb)
    requires c.r == c.g == c.b
    ensures RgbToHsv(c).h == 0.0 && RgbToHsv(c).s == 0.0
  {
  }

  lemma QuotientBounds(x: real, d: real)
    requires 0.0 < d && -d <= x <= d
    ensures -1.0 <= x / d <= 1.0
    ensures x < 0.0 ==> x / d < 0.0
  {
    assert x / d * d == x;
  }

  /** The hue always lies in [0, 1). */
  lemma HueRange(c: Rgb)
    ensures 0.0 <= RgbToHsv(c).h < 1.0
  {
    var r, g, b := Channel(c.r), Channel(c.g), Channel(c.b);
    var mx := Max3(r, g, b);
    var d := mx - Min3(r, g, b);
    if d != 0.0 {
      if mx == r {
        QuotientBounds(g - b, d);
      } else if mx == g {
        QuotientBounds(b - r, d);
      } else {
        QuotientBounds(r - g, d);
      }
    }
  }

  lemma ChannelOrder(x: int, y: int)
    ensures x <= y <==> Channel(x) <= Channel(y)
    ensures Channel(x) * 255.0 == x as real
  {
  }

  /** Scaling to [0, 1] commutes with taking the largest and smallest channel. */
  lemma ExtremesScale(c: Rgb)
    ensures Max3(Channel(c.r), Channel(c.g), Channel(c.b)) * 255.0 == Max3(c.r as real, c.g as real, c.b as real)
    ensures Min3(Channel(c.r), Channel(c.g), Channel(c.b)) * 255.0 == Min3(c.r as real, c.g as real, c.b as real)
  {
    ChannelOrder(c.r, c.g);
    ChannelOrder(c.g, c.b);
    ChannelOrder(c.r, c.b);
    ChannelOrder(c.g, c.r);
    ChannelOrder(c.b, c.g);
    ChannelOrder(c.b, c.r);
  }

  /** Saturation of a largest value mx and smallest mn, 0 <= mn <= mx. */
  lemma SaturationBounds(mx: real, mn: real)
    requires 0.0 <= mn <= mx
    ensures var s := SaturationOf(mx, mn);
      0.0 <= s <= 1.0 && (1.0 - s) * mx == mn
  {
    if mx != 0.0 {
      var s := (mx - mn) / mx;
      assert s * mx == mx - mn;
      QuotientBounds(mx - mn, mx);
    }
  }

  /** The same, rescaled to 0..255. */
  lemma SaturationRescaled(s: real, v: real, mn: real, top: real, bottom: real)
    requires 0.0 <= mn <= v <= 1.0 && s == SaturationOf(v, mn) && v * 255.0 == top && mn * 255.0 == bottom
    ensures 0.0 <= s <= 1.0 && 0.0 <= v <= 1.0 && v * 255.0 == top && (1.0 - s) * v * 255.0 == bottom
  {
    SaturationBounds(v, mn);
  }

  lemma ChannelRange(x: int)
    requires 0 <= x <= 255
    ensures 0.0 <= Channel(x) <= 1.0
  {
  }

  /** For channels in 0..255, the saturation s and value v of the colour
      lie in [0, 1], and they give back the largest and the smallest channel. */
  lemma SaturationValue(c: Rgb, s: real, v: real)
    requires 0 <= c.r <= 255 && 0 <= c.g <= 255 && 0 <= c.b <= 255
    requires s == RgbToHsv(c).s && v == RgbToHsv(c).v
    ensures 0.0 <= s <= 1.0 && 0.0 <= v <= 1.0
    ensures v * 255.0 == Max3(c.r as real, c.g as real, c.b as real)
    ensures (1.0 - s) * v * 255.0 == Min3(c.r as real, c.g as real, c.b as real)
  {
    var mn := HsvExtremes(c);
    SaturationRescaled(s, v, mn, Max3(c.r as real, c.g as real, c.b as real), Min3(c.r as real, c.g as real, c.b as real));
  }

  /** The value, the scaled smallest channel `mn` and the saturation of a colour. */
  lemma HsvExtremes(c: Rgb) returns (mn: real)
    requires 0 <= c.r <= 255 && 0 <= c.g <= 255 && 0 <= c.b <= 255
    ensures var hsv := RgbToHsv(c);
      && 0.0 <= mn <= hsv.v <= 1.0 && hsv.s == SaturationOf(hsv.v, mn)
      && hsv.v * 255.0 == Max3(c.r as real, c.g as real, c.b as real)
      && mn * 255.0 == Min3(c.r as real, c.g as real, c.b as real)
  {
    mn := Min3(Channel(c.r), Channel(c.g), Channel(c.b));
    ExtremesRange(c);
    HsvParts(c);
    ExtremesScale(c);
  }

  lemma ExtremesRange(c: Rgb)
    requires 0 <= c.r <= 255 && 0 <= c.g <= 255 && 0 <= c.b <= 255
    ensures var r, g, b := Channel(c.r), Channel(c.g), Channel(c.b);
      0.0 <= Min3(r, g, b) <= Max3(r, g, b) <= 1.0
  {
    ChannelRange(c.r);
    ChannelRange(c.g);
    ChannelRange(c.b);
  }

  lemma HsvParts(c: Rgb)
    ensures var r, g, b := Channel(c.r), Channel(c.g), Channel(c.b);
      RgbToHsv(c).s == SaturationOf(Max3(r, g, b), Min3(r, g, b)) && RgbToHsv(c).v == Max3(r, g, b)
  {
  }

  // ---------------------------------------------------------------------
  // Sorting

  /** The two orderings; any name other than "hue" means brightness. */
  datatype SortMethod = Brightness | Hue

  function MethodOf(name: string): (m: SortMethod)
    ensures m == Hue <==> name == "hue"
  {
    if name == "hue" then Hue else Brightness
  }

  /** The sort key: r+g+b for brightness, the HSV hue for hue. */
  function Key(m: SortMethod, x: Colored): real {
    match m
    case Brightness => (x.color.r + x.color.g + x.color.b) as real
    case Hue => RgbToHsv(x.color).h
  }

  ghost predicate SortedOn(s: seq<Colored>, key: Colored -> real) {
    forall i, j :: 0 <= i < j < |s| ==> key(s[i]) <= key(s[j])
  }

  ghost predicate SortedBy(s: seq<Colored>, m: SortMethod) {
    SortedOn(s, x => Key(m, x))
  }

  /** Exchange two neighbouring elements. */
  method SwapDown(a: array<Colored>, j: nat)
    requires 0 < j < a.Length
    modifies a
    ensures a[j - 1] == old(a[j]) && a[j] == old(a[j - 1])
    ensures forall k :: 0 <= k < a.Length && k != j - 1 && k != j ==> a[k] == old(a[k])
    ensures multiset(a[..]) == multiset(old(a[..]))
  {
    a[j - 1], a[j] := a[j], a[j - 1];
    assert a[..] == old(a[..])[j - 1 := old(a[j])][j := old(a[j - 1])];
  }

  /** One insertion step: move `a[i]` down past the larger keys before it. */
  method InsertAt(a: array<Colored>, i: nat, key: Colored -> real)
    requires i < a.Length
    requires SortedOn(a[..i], key)
    modifies a
    ensures SortedOn(a[..i + 1], key)
    ensures a[i + 1..] == old(a[i + 1..])
    ensures multiset(a[..]) == multiset(old(a[..]))
  {
    var j := i;
    while j > 0 && key(a[j - 1]) > key(a[j])
      invariant 0 <= j <= i
      invariant forall p, q :: 0 <= p < q <= i && p != j && q != j ==> key(a[p]) <= key(a[q])
      invariant forall q :: j < q <= i ==> key(a[j]) < key(a[q])
      invariant forall k :: i < k < a.Length ==> a[k] == old(a[k])
      invariant multiset(a[..]) == multiset(old(a[..]))
    {
      SwapDown(a, j);
      j := j - 1;
    }
    assert a[i + 1..] == old(a[i + 1..]);
  }

  /** `Array.prototype.sort` with the key-difference comparator, in place:
      afterwards the keys are non-decreasing and the elements are the same. */
  method SortOn(a: array<Colored>, key: Colored -> real)
    modifies a
    ensures SortedOn(a[..], key)
    ensures multiset(a[..]) == multiset(old(a[..]))
  {
    var i := 0;
    while i < a.Length
      invariant 0 <= i <= a.Length
      invariant SortedOn(a[..i], key)
      invariant multiset(a[..]) == multiset(old(a[..]))
    {
      InsertAt(a, i, key);
      i := i + 1;
    }
    assert a[..a.Length] == a[..];
  }

  /** `sortByBrightness` (brightness) and `sortByHue` (hue). */
  method SortBy(a: array<Colored>, m: SortMethod)
    modifies a
    ensures SortedBy(a[..], m)
    ensures multiset(a[..]) == multiset(old(a[..]))
  {
    SortOn(a, x => Key(m, x));
  }

  // ---------------------------------------------------------------------
  // sortImages

  predicate AllColored(colors: seq<Option<Rgb>>) {
    forall i :: 0 <= i < |colors| ==> colors[i].Some?
  }

  /** `items.map(...)` once every colour is known: item i with colour i. */
  function Attach(items: seq<Item>, colors: seq<Option<Rgb>>): (w: seq<Colored>)
    requires |colors| == |items| && AllColored(colors)
    ensures |w| == |items|
    ensures forall i :: 0 <= i < |w| ==> w[i].link == items[i].link && w[i].title == items[i].title
    ensures forall i :: 0 <= i < |w| ==> w[i].color == colors[i].value && w[i].src == items[i].link
  {
    seq(|items|, i requires 0 <= i < |items| => Colored(items[i].link, colors[i].value, items[i].link, items[i].title))
  }

  function Strip(x: Colored): Item { Item(x.link, x.title) }

  /** The final `map` back to `{link, title}`. */
  function Project(w: seq<Colored>): (r: seq<Item>)
    ensures |r| == |w| && forall i :: 0 <= i < |w| ==> r[i] == Strip(w[i])
  {
    seq(|w|, i requires 0 <= i < |w| => Strip(w[i]))
  }

  /** Attaching colours and projecting them away gives the items back. */
  lemma ProjectAttach(items: seq<Item>, colors: seq<Option<Rgb>>)
    requires |colors| == |items| && AllColored(colors)
    ensures Project(Attach(items, colors)) == items
  {
  }

  lemma ProjectConcat(a: seq<Colored>, b: seq<Colored>)
    ensures Project(a + b) == Project(a) + Project(b)
  {
  }

  /** Projection maps a permutation to a permutation. */
  lemma {:induction false} ProjectPermutation(w: seq<Colored>, v: seq<Colored>)
    requires multiset(w) == multiset(v)
    ensures multiset(Project(w)) == multiset(Project(v))
    decreases |w|
  {
    if |w| == 0 {
      assert v == [] by {
        assert |multiset(v)| == 0;
      }
    } else {
      var k := PositionOf(v, w[0]);
      var v' := v[..k] + v[k + 1..];
      assert multiset(Project(w[1..])) == multiset(Project(v')) by {
        TailPermutation(w, v, k);
        ProjectPermutation(w[1..], v');
      }
      assert multiset(Project(w)) == multiset(Project(w[1..])) + multiset{Strip(w[0])} by {
        assert w[..0] + w[1..] == w[1..];
        ProjectRemoveAt(w, 0);
      }
      assert multiset(Project(v)) == multiset(Project(v')) + multiset{Strip(w[0])} by {
        ProjectRemoveAt(v, k);
      }
    }
  }

  /** A position of an element of the multiset of a list. */
  lemma PositionOf<T>(v: seq<T>, x: T) returns (k: nat)
    requires x in multiset(v)
    ensures k < |v| && v[k] == x
  {
    assert x in v;
    k :| 0 <= k < |v| && v[k] == x;
  }

  /** Taking the first element out of one list and an equal one out of a
      permutation of it leaves permutations of each other. */
  lemma TailPermutation<T>(w: seq<T>, v: seq<T>, k: nat)
    requires multiset(w) == multiset(v) && 0 < |w| && k < |v| && v[k] == w[0]
    ensures multiset(w[1..]) == multiset(v[..k] + v[k + 1..])
  {
    RemoveAt(v, k);
    RemoveAt(w, 0);
    assert w[..0] + w[1..] == w[1..];
    Cancel(multiset(w[1..]), multiset(v[..k] + v[k + 1..]), w[0]);
  }

  /** Taking element k out of a list takes one copy of it out of its multiset. */
  lemma RemoveAt<T>(v: seq<T>, k: nat)
    requires k < |v|
    ensures multiset(v) == multiset(v[..k] + v[k + 1..]) + multiset{v[k]}
  {
    assert v == v[..k] + [v[k]] + v[k + 1..];
  }

  lemma Cancel<T>(a: multiset<T>, b: multiset<T>, x: T)
    requires a + multiset{x} == b + multiset{x}
    ensures a == b
  {
    forall y ensures a[y] == b[y] {
      assert (a + multiset{x})[y] == (b + multiset{x})[y];
    }
  }

  /** The projection of a list with element k taken out. */
  lemma ProjectRemoveAt(v: seq<Colored>, k: nat)
    requires k < |v|
    ensures multiset(Project(v)) == multiset(Project(v[..k] + v[k + 1..])) + multiset{Strip(v[k])}
  {
    ProjectConcat(v[..k], v[k + 1..]);
    assert Project(v)[k] == Strip(v[k]);
    assert Project(v)[..k] == Project(v[..k]);
    assert Project(v)[k + 1..] == Project(v[k + 1..]);
    RemoveAt(Project(v), k);
  }

  /** `w` is what `sortImages` sorts and returns before projecting: the
      items with their colours attached, reordered so that the keys of the
      chosen method do not decrease. */
  ghost predicate SortedArrangement(w: seq<Colored>, items: seq<Item>, colors: seq<Option<Rgb>>, m: SortMethod)
    requires |colors| == |items| && AllColored(colors)
  {
    multiset(w) == multiset(Attach(items, colors)) && SortedBy(w, m)
  }

  /** `sortImages`: when every colour is available, the items sorted by the
      chosen key ("hue", else brightness) and projected back; when any colour
      is missing the whole call rejects (`None`). */
  method SortImages(items: seq<Item>, colors: seq<Option<Rgb>>, name: string) returns (r: Option<seq<Item>>)
    requires |colors| == |items|
    ensures r.None? <==> !AllColored(colors)
    ensures r.Some? ==> multiset(r.value) == multiset(items)
    ensures r.Some? ==> exists w :: SortedArrangement(w, items, colors, MethodOf(name)) && r.value == Project(w)
  {
    var i := 0;
    while i < |colors|
      invariant 0 <= i <= |colors|
      invariant forall k :: 0 <= k < i ==> colors[k].Some?
    {
      if colors[i].None? {
        return None;
      }
      i := i + 1;
    }
    var withColors := Attach(items, colors);
    var a := new Colored[|withColors|](k requires 0 <= k < |withColors| => withColors[k]);
    assert a[..] == withColors;
    SortBy(a, MethodOf(name));
    var sorted := a[..];
    assert SortedArrangement(sorted, items, colors, MethodOf(name));
    ProjectPermutation(sorted, withColors);
    ProjectAttach(items, colors);
    r := Some(Project(sorted));
  }
}
