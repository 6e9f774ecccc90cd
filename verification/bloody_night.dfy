/** The theme toggle with its persisted preference, and the two ambient
    layers (stars and spirits) that exist exactly while dark mode is on. */
module BloodyNight {

  /** The storage key of the theme preference. */
  const ThemeKey := "theme"
  const StarsClass := "stars-layer"
  const SpiritsClass := "spirits-layer"
  const StarCount: nat := 140
  const SpiritCount: nat := 8

  /** The value stored after a toggle click. */
  function ThemeValue(dark: bool): (v: string)
    ensures v == "dark" <==> dark
    ensures v == "dark" || v == "light"
  {
    if dark then "dark" else "light"
  }

  /** The dark-mode flag (the body's `dark-mode` class) and the key-value
      store standing for `localStorage`. */
  datatype Theme = Theme(dark: bool, storage: map<string, string>)

  /** One click of the toggle: the flag flips and the stored theme mirrors
      the new flag; every other stored key is kept. */
  function ToggleClick(t: Theme): (r: Theme)
    ensures r.dark == !t.dark
    ensures ThemeKey in r.storage && r.storage[ThemeKey] == ThemeValue(r.dark)
    ensures r.storage.Keys == t.storage.Keys + {ThemeKey}
    ensures forall k :: k in t.storage && k != ThemeKey ==> r.storage[k] == t.storage[k]
  {
    Theme(!t.dark, t.storage[ThemeKey := ThemeValue(!t.dark)])
  }

  /** The theme after `n` toggle clicks. */
  function ClickTimes(t: Theme, n: nat): Theme {
    if n == 0 then t else ToggleClick(ClickTimes(t, n - 1))
  }

  /** `n` clicks flip the flag `n` times, and after at least one click the
      stored theme mirrors the flag. */
  lemma {:induction false} ClicksFlipParity(t: Theme, n: nat)
    ensures ClickTimes(t, n).dark == (t.dark != (n % 2 == 1))
    ensures n > 0 ==> ThemeKey in ClickTimes(t, n).storage
                      && ClickTimes(t, n).storage[ThemeKey] == ThemeValue(ClickTimes(t, n).dark)
  {
    if n > 0 {
      ClicksFlipParity(t, n - 1);
    }
  }

  /** From light mode, `n > 0` clicks leave dark mode, with `dark` stored,
      exactly when `n` is odd. */
  lemma FromLightOddClicksAreDark(storage: map<string, string>, n: nat)
    requires n > 0
    ensures ClickTimes(Theme(false, storage), n).dark <==> n % 2 == 1
    ensures ClickTimes(Theme(false, storage), n).storage[ThemeKey] == "dark" <==> n % 2 == 1
  {
    ClicksFlipParity(Theme(false, storage), n);
  }

  /** A layer appended to the body: its class and the classes of its children. */
  datatype Layer = Layer(className: string, children: seq<string>)

  /** The layer of a given class with `count` children of one class. */
  function Filled(className: string, childClass: string, count: nat): Layer {
    Layer(className, seq(count, _ => childClass))
  }

  function StarsLayer(): Layer { Filled(StarsClass, "star", StarCount) }
  function SpiritsLayer(): Layer { Filled(SpiritsClass, "spirit", SpiritCount) }

  /** The layer-building loop of `ensureStars` and `ensureSpirits`: a layer
      of the given class with exactly `count` children of `childClass`. */
  method BuildLayer(className: string, childClass: string, count: nat) returns (layer: Layer)
    ensures layer.className == className
    ensures |layer.children| == count
    ensures forall k :: 0 <= k < count ==> layer.children[k] == childClass
  {
    var children: seq<string> := [];
    var i := 0;
    while i < count
      invariant i <= count && |children| == i
      invariant forall k :: 0 <= k < i ==> children[k] == childClass
    {
      children := children + [childClass];
      i := i + 1;
    }
    layer := Layer(className, children);
  }

  /** How many layers of class `cls` the body holds. */
  function CountClass(ls: seq<Layer>, cls: string): (c: nat)
    ensures c <= |ls|
  {
    if ls == [] then 0 else (if ls[0].className == cls then 1 else 0) + CountClass(ls[1..], cls)
  }

  /** `document.querySelector('.' + cls)` finds a layer. */
  predicate HasLayer(ls: seq<Layer>, cls: string)
    ensures HasLayer(ls, cls) <==> exists k :: 0 <= k < |ls| && ls[k].className == cls
  {
    LayerPresent(ls, cls);
    CountClass(ls, cls) > 0
  }

  /** A layer of the class is counted exactly when one is in the body. */
  lemma {:induction false} LayerPresent(ls: seq<Layer>, cls: string)
    ensures CountClass(ls, cls) > 0 <==> exists k :: 0 <= k < |ls| && ls[k].className == cls
  {
    if ls != [] {
      LayerPresent(ls[1..], cls);
      if ls[0].className != cls && CountClass(ls, cls) > 0 {
        var k :| 0 <= k < |ls[1..]| && ls[1..][k].className == cls;
        assert ls[k + 1].className == cls;
      }
      if exists k :: 0 <= k < |ls| && ls[k].className == cls {
        var k :| 0 <= k < |ls| && ls[k].className == cls;
        if k > 0 {
          assert ls[1..][k - 1].className == cls;
        }
      }
    }
  }

  /** Appending a layer adds one to the count of its own class only. */
  lemma {:induction false} CountAppend(ls: seq<Layer>, l: Layer, cls: string)
    ensures CountClass(ls + [l], cls) == CountClass(ls, cls) + (if l.className == cls then 1 else 0)
  {
    if ls == [] {
      assert [] + [l] == [l];
    } else {
      assert (ls + [l])[0] == ls[0] && (ls + [l])[1..] == ls[1..] + [l];
      CountAppend(ls[1..], l, cls);
    }
  }

  /** `remove('.' + cls)`: the first layer of that class is detached; with
      none, nothing changes. Layers of other classes are untouched. */
  function RemoveFirst(ls: seq<Layer>, cls: string): (r: seq<Layer>)
    ensures CountClass(r, cls) == if CountClass(ls, cls) == 0 then 0 else CountClass(ls, cls) - 1
    ensures forall c :: c != cls ==> CountClass(r, c) == CountClass(ls, c)
    ensures CountClass(ls, cls) == 0 ==> r == ls
    ensures forall k :: 0 <= k < |r| ==> r[k] in ls
    ensures |r| == if CountClass(ls, cls) == 0 then |ls| else |ls| - 1
  {
    if ls == [] then []
    else if ls[0].className == cls then ls[1..]
    else
      var rest := RemoveFirst(ls[1..], cls);
      assert ([ls[0]] + rest)[0] == ls[0] && ([ls[0]] + rest)[1..] == rest;
      [ls[0]] + rest
  }

  /** The position of the first layer of class `cls`, the one
      `document.querySelector('.' + cls)` finds. */
  function FirstLayerIndex(ls: seq<Layer>, cls: string): (j: nat)
    requires HasLayer(ls, cls)
    ensures j < |ls| && ls[j].className == cls
    ensures forall k :: 0 <= k < j ==> ls[k].className != cls
  {
    if ls[0].className == cls then 0
    else
      assert CountClass(ls, cls) == CountClass(ls[1..], cls);
      FirstLayerIndex(ls[1..], cls) + 1
  }

  /** The layer `remove` detaches is the first one of its class, and the
      layers around it keep their order. */
  lemma {:induction false} RemoveFirstSplicesOut(ls: seq<Layer>, cls: string)
    requires HasLayer(ls, cls)
    ensures RemoveFirst(ls, cls) == ls[..FirstLayerIndex(ls, cls)] + ls[FirstLayerIndex(ls, cls) + 1..]
  {
    if ls[0].className != cls {
      var tail := ls[1..];
      assert CountClass(ls, cls) == CountClass(tail, cls);
      RemoveFirstSplicesOut(tail, cls);
      var j := FirstLayerIndex(tail, cls);
      assert FirstLayerIndex(ls, cls) == j + 1;
      assert RemoveFirst(ls, cls) == [ls[0]] + (tail[..j] + tail[j + 1..]);
      SpliceCons(ls, j);
    }
  }

  /** Cutting element `j + 1` out of `s` is keeping `s[0]` and cutting element
      `j` out of the rest. */
  lemma SpliceCons<T>(s: seq<T>, j: nat)
    requires j + 1 < |s|
    ensures [s[0]] + (s[1..][..j] + s[1..][j + 1..]) == s[..j + 1] + s[j + 2..]
  {
    assert [s[0]] + s[1..][..j] == s[..j + 1];
    assert s[1..][j + 1..] == s[j + 2..];
  }

  /** `ensureStars`/`ensureSpirits`: outside dark mode, or with the layer
      already present, nothing changes; otherwise the layer is appended. */
  function Ensured(ls: seq<Layer>, dark: bool, layer: Layer): (r: seq<Layer>)
    ensures r == ls || r == ls + [layer]
    ensures r != ls <==> dark && !HasLayer(ls, layer.className)
  {
    if !dark || HasLayer(ls, layer.className) then ls else ls + [layer]
  }

  /** At most one layer of each kind. */
  predicate AtMostOneEach(ls: seq<Layer>) {
    CountClass(ls, StarsClass) <= 1 && CountClass(ls, SpiritsClass) <= 1
  }

  /** Ensuring a layer never makes a second one of its class, leaves other
      classes alone, and makes it present exactly when dark or already there. */
  lemma EnsuredKeepsOne(ls: seq<Layer>, dark: bool, layer: Layer)
    requires CountClass(ls, layer.className) <= 1
    ensures CountClass(Ensured(ls, dark, layer), layer.className) <= 1
    ensures HasLayer(Ensured(ls, dark, layer), layer.className) <==> dark || HasLayer(ls, layer.className)
    ensures forall c :: c != layer.className ==> CountClass(Ensured(ls, dark, layer), c) == CountClass(ls, c)
  {
    forall c
      ensures CountClass(Ensured(ls, dark, layer), c)
              == if c == layer.className && dark && !HasLayer(ls, c) then 1 else CountClass(ls, c)
    {
      if dark && !HasLayer(ls, layer.className) {
        CountAppend(ls, layer, c);
      }
    }
  }

  /** Ensuring twice is ensuring once. */
  lemma EnsuredIdempotent(ls: seq<Layer>, dark: bool, layer: Layer)
    ensures Ensured(Ensured(ls, dark, layer), dark, layer) == Ensured(ls, dark, layer)
  {
    if dark && !HasLayer(ls, layer.className) {
      CountAppend(ls, layer, layer.className);
    }
  }

  /** `refresh()`: in dark mode both layers are ensured; otherwise both are
      removed. */
  function Refreshed(ls: seq<Layer>, dark: bool): (r: seq<Layer>)
    ensures dark ==> ls <= r && |r| <= |ls| + 2
    ensures !dark ==> |r| <= |ls| && forall k :: 0 <= k < |r| ==> r[k] in ls
  {
    if dark then Ensured(Ensured(ls, true, StarsLayer()), true, SpiritsLayer())
    else
      var mid := RemoveFirst(ls, StarsClass);
      assert forall x :: x in mid ==> x in ls;
      RemoveFirst(mid, SpiritsClass)
  }

  /** After a refresh each layer is present exactly when dark mode is on,
      and there is never more than one of each. */
  lemma RefreshedIff(ls: seq<Layer>, dark: bool)
    requires AtMostOneEach(ls)
    ensures AtMostOneEach(Refreshed(ls, dark))
    ensures HasLayer(Refreshed(ls, dark), StarsClass) == dark
    ensures HasLayer(Refreshed(ls, dark), SpiritsClass) == dark
  {
    if dark {
      EnsuredKeepsOne(ls, true, StarsLayer());
      EnsuredKeepsOne(Ensured(ls, true, StarsLayer()), true, SpiritsLayer());
    }
  }

  /** A second refresh with the flag unchanged does nothing, so the refreshes
      scheduled by the click and by the class observer agree with one. */
  lemma RefreshedIdempotent(ls: seq<Layer>, dark: bool)
    requires AtMostOneEach(ls)
    ensures Refreshed(Refreshed(ls, dark), dark) == Refreshed(ls, dark)
  {
    RefreshedIff(ls, dark);
    var r := Refreshed(ls, dark);
    if !dark {
      assert RemoveFirst(r, StarsClass) == r;
    }
  }

  /** Every layer present is a complete stars or spirits layer. */
  predicate Complete(l: Layer) {
    (l.className == StarsClass ==> l == StarsLayer())
    && (l.className == SpiritsClass ==> l == SpiritsLayer())
  }

  class Document {
    var dark: bool
    var storage: map<string, string>
    /** The layers appended to the body, in order. */
    var layers: seq<Layer>

    ghost predicate Valid()
      reads this
    {
      AtMostOneEach(layers) && forall k :: 0 <= k < |layers| ==> Complete(layers[k])
    }

    ghost function ThemeState(): Theme
      reads this
    {
      Theme(dark, storage)
    }

    constructor (storage: map<string, string>, dark: bool)
      ensures Valid() && this.storage == storage && this.dark == dark && layers == []
    {
      this.storage := storage;
      this.dark := dark;
      layers := [];
    }

    /** The startup rule: dark mode is switched on exactly when the stored
        theme is `dark`; any other or missing value leaves the flag alone. */
    method ApplySavedTheme()
      modifies this`dark
      ensures dark == (old(dark) || (ThemeKey in storage && storage[ThemeKey] == "dark"))
    {
      if ThemeKey in storage && storage[ThemeKey] == "dark" {
        dark := true;
      }
    }

    /** The toggle's click listener. */
    method Toggle()
      modifies this`dark, this`storage
      ensures ThemeState() == ToggleClick(old(ThemeState()))
    {
      dark := !dark;
      storage := storage[ThemeKey := ThemeValue(dark)];
    }

    /** `ensureStars()`. */
    method EnsureStars()
      requires Valid()
      modifies this`layers
      ensures Valid()
      ensures layers == Ensured(old(layers), dark, StarsLayer())
    {
      if !dark || HasLayer(layers, StarsClass) {
        return;
      }
      var layer := BuildLayer(StarsClass, "star", StarCount);
      assert layer == StarsLayer();
      Append(layer);
    }

    /** `ensureSpirits()`. */
    method EnsureSpirits()
      requires Valid()
      modifies this`layers
      ensures Valid()
      ensures layers == Ensured(old(layers), dark, SpiritsLayer())
    {
      if !dark || HasLayer(layers, SpiritsClass) {
        return;
      }
      var layer := BuildLayer(SpiritsClass, "spirit", SpiritCount);
      assert layer == SpiritsLayer();
      Append(layer);
    }

    /** `document.body.appendChild(layer)` for a complete layer whose class
        is not yet present. */
    method Append(layer: Layer)
      requires Valid() && Complete(layer) && !HasLayer(layers, layer.className)
      requires layer.className == StarsClass || layer.className == SpiritsClass
      modifies this`layers
      ensures Valid() && layers == old(layers) + [layer]
    {
      CountAppend(layers, layer, StarsClass);
      CountAppend(layers, layer, SpiritsClass);
      layers := layers + [layer];
    }

    /** `remove(sel)`: the first layer of class `cls` is detached, if any. */
    method RemoveLayer(cls: string)
      requires Valid()
      modifies this`layers
      ensures Valid() && layers == RemoveFirst(old(layers), cls)
      ensures !HasLayer(layers, cls) || CountClass(old(layers), cls) > 1
    {
      layers := RemoveFirst(layers, cls);
    }

    /** `refresh()`: afterwards both layers are present exactly when dark
        mode is on. */
    method Refresh()
      requires Valid()
      modifies this`layers
      ensures Valid() && layers == Refreshed(old(layers), dark)
      ensures HasLayer(layers, StarsClass) == dark && HasLayer(layers, SpiritsClass) == dark
    {
      RefreshedIff(layers, dark);
      if dark {
        EnsureStars();
        EnsureSpirits();
      } else {
        RemoveLayer(StarsClass);
        RemoveLayer(SpiritsClass);
      }
    }

    /** A toggle click followed by its two scheduled refreshes (the click's
        own and the class observer's): the flag flips, the stored theme
        mirrors it, and the layers follow the new flag. */
    method ClickAndSettle()
      requires Valid()
      modifies this
      ensures Valid() && ThemeState() == ToggleClick(old(ThemeState()))
      ensures layers == Refreshed(old(layers), dark)
      ensures storage[ThemeKey] == "dark" <==> dark
      ensures HasLayer(layers, StarsClass) == dark && HasLayer(layers, SpiritsClass) == dark
    {
      Toggle();
      ghost var before := layers;
      Refresh();
      Refresh();
      RefreshedIdempotent(before, dark);
    }
  }
}
