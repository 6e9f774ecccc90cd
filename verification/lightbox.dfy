/** The image lightbox: a cursor over the gallery items collected at load,
    an overlay that is active or not, and the image and caption it shows. */
module Lightbox {
  import opened Wrappers
  import opened JsStrings

  /** A gallery element: the image source the browser resolves for it, and
      its `alt` and `data-caption` attributes. */
  datatype Item = Item(src: string, alt: Option<string>, dataCaption: Option<string>)

  /** `getCaption(el)`: `alt`, else `data-caption`, else the empty string. */
  function Caption(el: Item): (r: string)
    ensures r != "" ==> r == el.alt.GetOr("") || r == el.dataCaption.GetOr("")
    ensures el.alt.Some? && el.alt.value != "" ==> r == el.alt.value
    ensures r == "" <==> el.alt.GetOr("") == "" && el.dataCaption.GetOr("") == ""
  {
    OrElse(el.alt, OrElse(el.dataCaption, ""))
  }

  /** JavaScript's `a % n` for a positive `n`: the remainder truncates toward
      zero, so it takes the sign of `a` (Dafny's `%` is Euclidean). */
  function JsRem(a: int, n: int): (r: int)
    requires n > 0
    ensures a >= 0 ==> r == a % n
    ensures a < 0 ==> -n < r <= 0
    ensures -n < a <= 0 ==> r == a
    ensures exists q :: a == q * n + r
  {
    var b := if a >= 0 then a else -a;
    Division(b, n);
    if b < n then
      RemBelowTwice(b, n);
      if a >= 0 then b % n else -(b % n)
    else
      if a >= 0 then b % n else -(b % n)
  }

  /** Euclidean division of a non-negative `b` by `n`, and of `-b` with the
      quotient and remainder negated. */
  lemma Division(b: int, n: int)
    requires b >= 0 && n > 0
    ensures b == (b / n) * n + b % n && 0 <= b % n < n
    ensures -b == (-(b / n)) * n + -(b % n)
  {
    var q, m := b / n, b % n;
    assert b == q * n + m;
    assert (-q) * n == -(q * n);
  }

  /** The remainder of a number below `2 * n` needs at most one subtraction. */
  lemma RemBelowTwice(a: int, n: int)
    requires 0 <= a < 2 * n
    ensures a % n == if a < n then a else a - n
  {
    var q, m := a / n, a % n;
    assert a == q * n + m && 0 <= m < n;
    assert q >= 2 ==> q * n >= 2 * n;
    assert q <= -1 ==> q * n <= -n;
  }

  /** The index `next()` opens, `(index + 1) % n`: the following item, or
      the first after the last. From the closed cursor (-1) it is the first. */
  function NextIndex(i: int, n: int): (r: int)
    requires n > 0 && -1 <= i < n
    ensures 0 <= r < n
    ensures r == if i == n - 1 then 0 else i + 1
  {
    RemBelowTwice(i + 1, n);
    JsRem(i + 1, n)
  }

  /** The index `prev()` opens, `(index - 1 + n) % n`: the preceding item,
      or the last before the first. From the closed cursor (-1) it is the
      last but one, or with a single item `-1 % 1`, which is `-0`, item 0. */
  function PrevIndex(i: int, n: int): (r: int)
    requires n > 0 && -1 <= i < n
    ensures 0 <= r < n
    ensures 0 < i ==> r == i - 1
    ensures i == 0 ==> r == n - 1
    ensures i == -1 ==> r == if n == 1 then 0 else n - 2
  {
    if i - 1 + n < 0 then JsRem(i - 1 + n, n)
    else RemBelowTwice(i - 1 + n, n); JsRem(i - 1 + n, n)
  }

  /** `next` on the last item wraps to the first; `prev` on the first wraps
      to the last. */
  lemma IndexWraps(n: int)
    requires n > 0
    ensures NextIndex(n - 1, n) == 0
    ensures PrevIndex(0, n) == n - 1
  {
  }

  /** `prev` undoes `next` and `next` undoes `prev` on an open cursor. */
  lemma PrevNextInverse(i: int, n: int)
    requires 0 <= i < n
    ensures PrevIndex(NextIndex(i, n), n) == i
    ensures NextIndex(PrevIndex(i, n), n) == i
  {
  }

  /** The cursor after `k` presses of `next` from `i`. */
  function NextSteps(i: int, k: nat, n: int): (r: int)
    requires 0 <= i < n
    ensures 0 <= r < n
  {
    if k == 0 then i else NextIndex(NextSteps(i, k - 1, n), n)
  }

  /** `a` presses followed by `b` presses are `a + b` presses. */
  lemma {:induction false} NextStepsCompose(i: int, a: nat, b: nat, n: int)
    requires 0 <= i < n
    ensures NextSteps(i, a + b, n) == NextSteps(NextSteps(i, a, n), b, n)
  {
    if b > 0 {
      NextStepsCompose(i, a, b - 1, n);
    }
  }

  /** Before reaching the end, each press moves one item forward. */
  lemma {:induction false} NextStepsNoWrap(i: int, k: nat, n: int)
    requires 0 <= i && i + k < n
    ensures NextSteps(i, k, n) == i + k
  {
    if k > 0 {
      NextStepsNoWrap(i, k - 1, n);
    }
  }

  /** `n` presses of `next` go round the whole gallery back to where they
      started; for three items, open(0) then next three times is back at 0. */
  lemma FullCycle(i: int, n: int)
    requires 0 <= i < n
    ensures NextSteps(i, n, n) == i
  {
    NextStepsNoWrap(i, n - 1 - i, n);
    assert NextSteps(i, n - i, n) == 0;
    NextStepsCompose(i, n - i, i, n);
    NextStepsNoWrap(0, i, n);
  }

  class Gallery {
    /** The items collected at load, in document order. */
    const items: seq<Item>
    /** The cursor: -1 until the first item is opened. */
    var index: int
    /** Whether the overlay has the `active` class. */
    var active: bool
    var imageSrc: string
    var caption: string

    /** The cursor is closed (-1) or on an item, and it is on an item
        whenever the overlay is active. */
    ghost predicate Valid()
      reads this
    {
      -1 <= index < |items| && (active ==> 0 <= index)
    }

    constructor (items: seq<Item>)
      ensures Valid() && this.items == items
      ensures index == -1 && !active && imageSrc == "" && caption == ""
    {
      this.items := items;
      index := -1;
      active := false;
      imageSrc, caption := "", "";
    }

    /** `openAt(i)`: out-of-range positions are ignored; otherwise the cursor
        moves to `i` and the overlay shows that item, active. */
    method OpenAt(i: int)
      requires Valid()
      modifies this
      ensures Valid()
      ensures !(0 <= i < |items|) ==> unchanged(this)
      ensures 0 <= i < |items| ==>
        index == i && active && imageSrc == items[i].src && caption == Caption(items[i])
    {
      if i < 0 || i >= |items| {
        return;
      }
      index := i;
      imageSrc := items[index].src;
      caption := Caption(items[index]);
      active := true;
    }

    /** `close()`: only `active` is cleared; the cursor stays where it was. */
    method Close()
      modifies this`active
      ensures !active
    {
      active := false;
    }

    /** `next()`. With no items the remainder is NaN and the source throws
        after blanking the image; the model reports that as `ok == false`. */
    method Next() returns (ok: bool)
      requires Valid()
      modifies this
      ensures Valid()
      ensures ok <==> |items| > 0
      ensures ok ==> index == NextIndex(old(index), |items|) && active
                     && imageSrc == items[index].src && caption == Caption(items[index])
      ensures !ok ==> index == old(index) && active == old(active)
                      && imageSrc == "" && caption == old(caption)
    {
      if |items| == 0 {
        imageSrc := "";
        return false;
      }
      OpenAt(NextIndex(index, |items|));
      ok := true;
    }

    /** `prev()`, with the same behaviour as `Next` on an empty gallery. */
    method Prev() returns (ok: bool)
      requires Valid()
      modifies this
      ensures Valid()
      ensures ok <==> |items| > 0
      ensures ok ==> index == PrevIndex(old(index), |items|) && active
                     && imageSrc == items[index].src && caption == Caption(items[index])
      ensures !ok ==> index == old(index) && active == old(active)
                      && imageSrc == "" && caption == old(caption)
    {
      if |items| == 0 {
        imageSrc := "";
        return false;
      }
      OpenAt(PrevIndex(index, |items|));
      ok := true;
    }

    /** The document click listener: `pos` is `items.indexOf(target)`, -1 for
        an element that is not a gallery item. */
    method ItemClicked(pos: int) returns (prevented: bool)
      requires Valid() && -1 <= pos < |items|
      modifies this
      ensures Valid()
      ensures prevented <==> pos != -1
      ensures pos == -1 ==> unchanged(this)
      ensures pos != -1 ==>
        index == pos && active && imageSrc == items[pos].src && caption == Caption(items[pos])
    {
      prevented := pos != -1;
      if prevented {
        OpenAt(pos);
      }
    }

    /** The overlay's own click listener: a click on the backdrop itself,
        not on the image or a button inside it, closes the lightbox. */
    method BackdropClicked(onBackdrop: bool)
      modifies this`active
      ensures active == (old(active) && !onBackdrop)
    {
      if onBackdrop {
        Close();
      }
    }

    /** The `keydown` listener: keys act only while the overlay is active;
        Escape closes, ArrowLeft and ArrowRight step through the items. */
    method KeyDown(key: string)
      requires Valid()
      modifies this
      ensures Valid()
      ensures !old(active) ==> unchanged(this)
      ensures old(active) ==> |items| > 0
      ensures old(active) && key == "Escape" ==>
        !active && index == old(index) && imageSrc == old(imageSrc) && caption == old(caption)
      ensures old(active) && key == "ArrowLeft" ==>
        active && index == PrevIndex(old(index), |items|)
        && imageSrc == items[index].src && caption == Caption(items[index])
      ensures old(active) && key == "ArrowRight" ==>
        active && index == NextIndex(old(index), |items|)
        && imageSrc == items[index].src && caption == Caption(items[index])
      ensures old(active) && key !in {"Escape", "ArrowLeft", "ArrowRight"} ==> unchanged(this)
    {
      if !active {
        return;
      }
      if key == "Escape" {
        Close();
      }
      if key == "ArrowLeft" {
        var _ := Prev();
      }
      if key == "ArrowRight" {
        var _ := Next();
      }
    }
  }

  /** Three gallery items: opening the first and pressing `next` three times
      comes back to the first. */
  method ThreeItemTour(a: Item, b: Item, c: Item) returns (g: Gallery)
    ensures g.index == 0 && g.active && g.caption == Caption(a)
  {
    g := new Gallery([a, b, c]);
    g.OpenAt(0);
    var _ := g.Next();
    var _ := g.Next();
    var _ := g.Next();
  }
}
