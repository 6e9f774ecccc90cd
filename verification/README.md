# Site scripts: page transitions, lightbox, region map, theme and ambient layers

This project models the logic inside two browser scripts of a static
multi-page site. The DOM is replaced by plain state: sets of class names,
sequences of elements, a key-value store and strings of HTML.

- `page-transitions.js` has five parts:
  - the internal-link classifier;
  - hover prefetching, with its page-lifetime `prefetched` set;
  - the transition veil's class changes on an intercepted click and on load;
  - the image lightbox's cursor over the gallery items;
  - the New Zealand region map, covering which island paths animate, the
    `prevLoc` memory and the HTML of the description panel.
- `bloody-night.js` has two parts:
  - the dark-mode toggle, whose preference is persisted under the key `theme`;
  - the ambient stars layer (140 children) and spirits layer (8 children),
    which exist exactly while dark mode is on.

Modules, one per file:

- `Wrappers` holds `Option`.
- `JsStrings` holds `trim`, `toLowerCase`, `split(sep)[0]`, `endsWith`, the
  `/^https?:/i` test and `||` on strings.
- `Links` is the classifier.
- `Prefetch` is the registry class.
- `PageVeil` holds the class-set transitions and the `Transitions` class.
- `Lightbox` holds the index arithmetic and the `Gallery` class.
- `RegionMap` holds `FillDesc`, the travel plan, the narrow-screen panel and
  the `NzMap` class.
- `BloodyNight` holds the theme functions, the layer functions and the
  `Document` class.

Each class method is tied to a pure function of the old state. The lemmas
about those functions carry the properties: the iff rules, wrap-around,
idempotence, the grow-only set and at most one layer of each kind.

Behaviour worth knowing, all as the code does it:

- Prefetching is not exactly once per URL. A URL joins `prefetched` only
  when its `<link>` loads (page-transitions.js:24). Two hovers before that
  issue two hints (`Prefetch.HoverTwiceBeforeLoad`).
- The veil's class set can end up as `{exit}`. This happens when a click
  lands between the load reveal and its clearing timer
  (`PageVeil.ClickDuringRevealLeavesExit`). The states reachable from `{}`
  are `{}`, `{exit}`, `{exit, show}` and `{enter, show}`.
- `%` in JavaScript truncates toward zero. With the cursor still at -1 and a
  single item, `prev()` computes `-1 % 1`, which is `-0`, and opens item 0.

## Model

| member | source | states |
|---|---|---|
| `JsStrings.Trim` | page-transitions.js:8 | the trimmed href is a slice `s[i..j]` of the attribute with only white space before `i` and after `j`; it is empty iff the attribute is all white space, and otherwise starts and ends with a non-space character |
| `JsStrings.TrimStart` | page-transitions.js:8 | drops exactly the leading white space: the result is a suffix, everything before it is white space, and it does not start with white space |
| `JsStrings.TrimEnd` | page-transitions.js:8 | drops exactly the trailing white space |
| `JsStrings.TrimIdempotent` | page-transitions.js:8 | trimming a trimmed href changes nothing |
| `JsStrings.ToLowerAscii` | page-transitions.js:171 | lower-casing maps each character on its own and keeps the length |
| `JsStrings.EndsWithIff` | page-transitions.js:11 | `endsWith(suffix)` holds exactly when the string is some prefix followed by `suffix` |
| `JsStrings.ContainsNone` | page-transitions.js:11 | `/^[^:?#]+$/` without its non-emptiness: no character of the set occurs anywhere in the string |
| `JsStrings.HasHttpScheme` | page-transitions.js:10 | a match starts with `http` in any case and has its `:` right after `http` or after `https` |
| `JsStrings.OrElse` | page-transitions.js:8 | `a \|\| fallback`: an absent or empty value gives the fallback, any other value is kept |
| `JsStrings.BeforeFirst` | page-transitions.js:171 | `split('.')[0]` is the longest `.`-free prefix: all of the string, or the text before the first `.` |
| `Links.TrimmedHref` | page-transitions.js:8 | a missing attribute gives the empty href, and a non-empty one neither starts nor ends with white space |
| `Links.IsInternalHtmlLink` | page-transitions.js:6-12 | a qualifying link exists, has no `_blank` target and has a non-empty trimmed href |
| `Links.NewTabNeverInternal` | page-transitions.js:7 | a `_blank` target never qualifies |
| `Links.EmptyOrFragmentNeverInternal` | page-transitions.js:8-9 | an empty or `#`-prefixed trimmed href never qualifies |
| `Links.CrossOriginNeverInternal` | page-transitions.js:10 | an `http:`/`https:` href (scheme in any case) not prefixed by the origin never qualifies |
| `Links.InternalIffPageLike` | page-transitions.js:10-11 | past the three rejections, a link qualifies iff its href ends in `.html` or contains none of `:`, `?`, `#` |
| `Links.SameOriginAbsoluteNeedsHtml` | page-transitions.js:10-11 | a same-origin absolute URL qualifies iff it ends in `.html` |
| `Links.RelativePathInternal` | page-transitions.js:11 | a non-empty href free of `:`, `?`, `#` always qualifies |
| `Links.LinkTarget` | page-transitions.js:49 | the navigation and prefetch target is the resolved `href` property when non-empty; with an empty property it is the raw attribute, or empty when the attribute is missing |
| `Prefetch.Registry.constructor` | page-transitions.js:15 | the page starts with no prefetched URL and no hint |
| `Prefetch.Registry.Prefetch` | page-transitions.js:16-25 | an empty or already-prefetched URL issues nothing; any other issues one hint for exactly that URL; the set is not touched |
| `Prefetch.Registry.HintLoaded` | page-transitions.js:24 | a hint's load adds exactly its URL; the set never shrinks, and only requested URLs are ever in it |
| `Prefetch.Registry.Hover` | page-transitions.js:31-34 | a hover prefetches the link's target iff the link qualifies; other hovers change nothing |
| `Prefetch.HoverTwiceBeforeLoad` | page-transitions.js:16-24 | two hovers before any load issue two hints for the same URL |
| `Prefetch.HoverAfterLoad` | page-transitions.js:16-24 | after the hint has loaded, a repeat hover issues nothing |
| `PageVeil.AfterExitStart` | page-transitions.js:58-59 | the click removes `enter`, adds `exit` and `show`, and keeps every other class |
| `PageVeil.AfterReveal` | page-transitions.js:71-72 | the reveal removes `exit`, adds `enter` and `show`, and keeps every other class |
| `PageVeil.AfterRevealCleared` | page-transitions.js:73 | the clearing timer removes only `enter` and `show` |
| `PageVeil.VeilStatesClosed` | page-transitions.js:58-73 | every transition keeps the veil within `{}`, `{exit}`, `{exit, show}`, `{enter, show}` |
| `PageVeil.RevealCycle` | page-transitions.js:58-73 | `{}` goes to `{enter, show}` on load and back to `{}`; an intercepted click takes `{}` to `{exit, show}` |
| `PageVeil.ClickDuringRevealLeavesExit` | page-transitions.js:58-73 | reveal, then click, then the clearing timer leaves `{exit}` |
| `PageVeil.FxCoordinate` | page-transitions.js:56-57 | the animation origin is the click coordinate, or half the viewport extent when the event reports 0 |
| `PageVeil.Transitions.HandleClick` | page-transitions.js:46-64 | a click is intercepted iff its link qualifies and has a target. An intercepted click schedules navigation to that target after the 420 ms delay even with no veil, and a present veil gets the click point and `AfterExitStart`. Any other click changes nothing |
| `PageVeil.Transitions.Reveal` | page-transitions.js:67-75 | on load a present veil takes `AfterReveal` and keeps its animation origin, and the clearing timer is set for 500 ms; with no veil nothing is scheduled |
| `PageVeil.Transitions.RevealCleared` | page-transitions.js:73 | the timer after the reveal applies `AfterRevealCleared` to a present veil |
| `Lightbox.Caption` | page-transitions.js:107-109 | the caption is a non-empty `alt`, else a non-empty `data-caption`, else empty |
| `Lightbox.JsRem` | page-transitions.js:122-123 | JavaScript's `%`: the dividend is a whole multiple of `n` plus the result; the result is Euclidean for a non-negative dividend, within `(-n, 0]` for a negative one, and the dividend itself just below 0 |
| `Lightbox.NextIndex` | page-transitions.js:123 | `next` moves to the following item, from the last to the first, and from the closed cursor to the first |
| `Lightbox.PrevIndex` | page-transitions.js:122 | `prev` moves to the preceding item, from the first to the last. From the closed cursor it goes to the last but one, or to item 0 when there is a single item |
| `Lightbox.IndexWraps` | page-transitions.js:122-123 | `next` on the last item gives 0, and `prev` on item 0 gives `n - 1` |
| `Lightbox.PrevNextInverse` | page-transitions.js:122-123 | `prev` and `next` undo each other on an open cursor |
| `Lightbox.NextSteps` | page-transitions.js:123 | repeated `next` stays within the gallery |
| `Lightbox.NextStepsCompose` | page-transitions.js:123 | `a` presses of `next` followed by `b` presses equal `a + b` presses |
| `Lightbox.NextStepsNoWrap` | page-transitions.js:123 | before the end is reached, each press moves one item forward |
| `Lightbox.FullCycle` | page-transitions.js:123 | `n` presses of `next` return to the starting item |
| `Lightbox.Gallery.constructor` | page-transitions.js:93-95 | the items are collected once, and the cursor starts at -1 with the overlay inactive |
| `Lightbox.Gallery.OpenAt` | page-transitions.js:112-120 | an out-of-range index changes nothing; an in-range one sets the cursor, shows that item's source and caption and activates the overlay |
| `Lightbox.Gallery.Close` | page-transitions.js:121 | close clears `active` and nothing else |
| `Lightbox.Gallery.Next` | page-transitions.js:123 | on a non-empty gallery, opens `NextIndex` of the cursor; on an empty one, reports failure with the image blanked |
| `Lightbox.Gallery.Prev` | page-transitions.js:122 | on a non-empty gallery, opens `PrevIndex` of the cursor; on an empty one, reports failure with the image blanked |
| `Lightbox.Gallery.ItemClicked` | page-transitions.js:125-130 | a click on a gallery item prevents the default action and opens it: the cursor moves to that item, whose source and caption are shown, and the overlay is active. Any other click changes nothing |
| `Lightbox.Gallery.BackdropClicked` | page-transitions.js:132 | a click on the backdrop itself closes the lightbox |
| `Lightbox.Gallery.KeyDown` | page-transitions.js:137-142 | keys act only while the overlay is active, which implies a non-empty gallery. Escape closes it and keeps the cursor, image and caption. The arrow keys move the cursor to `PrevIndex`/`NextIndex` and show that item's source and caption. Other keys change nothing |
| `Lightbox.ThreeItemTour` | page-transitions.js:112-123 | with three items, opening item 0 and pressing `next` three times is back at item 0 |
| `RegionMap.FileBase` | page-transitions.js:171 | the thumbnail base is the label lower-cased up to its first `.`, and holds no `.` |
| `RegionMap.ImageTagLayout` | page-transitions.js:173 | the thumbnail tag opens with `<img src="` and the image URL of the file base, and closes with its `2x` `srcset` and a bare `alt` |
| `RegionMap.FillDescLayout` | page-transitions.js:169-177 | the panel HTML starts with the thumbnail of the file base and ends with `<h1>label</h1><p>desc</p>` |
| `RegionMap.FillDescInjectiveInDesc` | page-transitions.js:169-177 | for one label, different descriptions give different panels |
| `RegionMap.TravelDuration` | page-transitions.js:162 | each animation lasts `max(600, 5 * length)` |
| `RegionMap.TravelPlan` | page-transitions.js:189-198 | at most two legs, each at least 600 ms, and legs only for Taranaki or Fiordland |
| `RegionMap.TravelTable` | page-transitions.js:157-167 | Taranaki with `ni` animates `ni` alone. Fiordland with both paths animates `si` alone after Taranaki, and otherwise `ni` chained into `si`. Anything else animates nothing |
| `RegionMap.RouteViaTaranaki` | page-transitions.js:189-198 | Taranaki's plan followed by Fiordland's equals the chained plan of a direct Fiordland click |
| `RegionMap.BlockLayout` | page-transitions.js:213 | a block opens with `<div>` and the region's thumbnail, and closes with its heading, its description and `</div>` |
| `RegionMap.BlocksSize` | page-transitions.js:211-214 | each region adds at least an empty `<div></div>`, so the panel is empty iff there are no regions, and otherwise opens with the first region's block |
| `RegionMap.BlocksConcat` | page-transitions.js:207-215 | the panel of two runs of regions is the two panels concatenated |
| `RegionMap.BlocksSnoc` | page-transitions.js:211-214 | appending one region's block extends the panel by exactly that block |
| `RegionMap.BlockAt` | page-transitions.js:207-215 | the k-th block pairs the k-th label with the k-th description, between the blocks before and after it |
| `RegionMap.NzMap.constructor` | page-transitions.js:153-155 | `prevLoc` starts empty |
| `RegionMap.NzMap.Click` | page-transitions.js:179-205 | a click outside a link changes nothing. An empty or repeated label is swallowed without any change. Any other label runs its travel plan, becomes `prevLoc`, and leaves exactly `FillDesc(label, desc)` in the active panel |
| `RegionMap.NzMap.ShowHide` | page-transitions.js:207-215 | the panel is exactly one block per label, in order. When descriptions run out, the panel keeps the blocks before the failure |
| `RegionMap.NzMap.WindowLoaded` | page-transitions.js:217-218 | only a narrow viewport fills the panel. With a description per label it holds every region's block. With fewer descriptions it holds the blocks of the labels that come before the first one without a description |
| `BloodyNight.ThemeValue` | bloody-night.js:8-10 | the stored value is `dark` iff the flag is set, else `light` |
| `BloodyNight.ToggleClick` | bloody-night.js:7-10 | a click flips the flag, stores the mirrored value and keeps other keys |
| `BloodyNight.ClicksFlipParity` | bloody-night.js:7-10 | `n` clicks flip the flag `n` times, and after any click the stored theme mirrors the flag |
| `BloodyNight.FromLightOddClicksAreDark` | bloody-night.js:7-10 | from light, `n > 0` clicks leave dark mode, with `dark` stored, iff `n` is odd |
| `BloodyNight.BuildLayer` | bloody-night.js:23-36 | a built layer has the requested class and exactly `count` children of the child class |
| `BloodyNight.CountClass` | bloody-night.js:22 | the number of layers of a class is at most the number of layers |
| `BloodyNight.HasLayer` | bloody-night.js:22 | `querySelector('.cls')` finds a layer iff some layer in the body has that class |
| `BloodyNight.CountAppend` | bloody-night.js:37 | appending a layer adds one to its own class's count only |
| `BloodyNight.RemoveFirst` | bloody-night.js:18 | `remove` detaches one layer of the class if there is one, so the body is one layer shorter. With none it is a no-op, and other classes are untouched |
| `BloodyNight.FirstLayerIndex` | bloody-night.js:18 | `querySelector` finds the first layer of the class: it has the class and none before it does |
| `BloodyNight.RemoveFirstSplicesOut` | bloody-night.js:18 | `remove` cuts out exactly the first layer of the class and keeps every other layer in order |
| `BloodyNight.Ensured` | bloody-night.js:21-22 | ensuring either keeps the body or appends the one layer, and it changes the body iff dark mode is on and no layer of the class is present |
| `BloodyNight.EnsuredKeepsOne` | bloody-night.js:21-22 | ensuring a layer never creates a second one, and leaves it present iff dark or already there |
| `BloodyNight.EnsuredIdempotent` | bloody-night.js:41-42 | ensuring twice equals ensuring once |
| `BloodyNight.Refreshed` | bloody-night.js:61-69 | a dark refresh only appends, at most two layers; a light one only removes, and every layer left was already there |
| `BloodyNight.RefreshedIff` | bloody-night.js:61-69 | after a refresh, both layers are present iff dark mode is on, with at most one of each |
| `BloodyNight.RefreshedIdempotent` | bloody-night.js:72-76 | a second refresh with the flag unchanged does nothing |
| `BloodyNight.Document.constructor` | bloody-night.js:3-4 | the page starts with its stored preferences and no layers |
| `BloodyNight.Document.ApplySavedTheme` | bloody-night.js:4-5 | startup switches dark mode on iff the stored theme is exactly `dark` |
| `BloodyNight.Document.Toggle` | bloody-night.js:6-11 | the click listener's new flag and storage are `ToggleClick` of the old ones |
| `BloodyNight.Document.EnsureStars` | bloody-night.js:21-38 | outside dark mode, or with a stars layer present, nothing changes; otherwise one 140-star layer is appended |
| `BloodyNight.Document.EnsureSpirits` | bloody-night.js:41-58 | the same, for one 8-spirit layer |
| `BloodyNight.Document.Append` | bloody-night.js:37 | appending a complete layer of an absent class keeps at most one layer of each kind |
| `BloodyNight.Document.RemoveLayer` | bloody-night.js:18 | the first layer of the class is detached, and none of that class remains |
| `BloodyNight.Document.Refresh` | bloody-night.js:61-69 | afterwards both layers are present iff dark mode is on |
| `BloodyNight.Document.ClickAndSettle` | bloody-night.js:6-11 | a toggle click plus its scheduled refreshes flips the flag, stores the mirrored value, and leaves the layers following the new flag |

## Left out

- Event wiring and timing are not modelled. This covers `addEventListener`, `setTimeout`, `requestAnimationFrame`, `MutationObserver`, `DOMContentLoaded`/`load` and `matchMedia`. Each handler is a method, and a timer callback is a separate method called when it fires. A click records its navigation and the 420 ms delay, and the reveal returns its 500 ms clearing delay. The order in which timers fire is left to the caller.
- Randomised star and spirit positions, sizes, durations and opacities are left out (`Math.random`, `toFixed`, and the 1-in-12 dimmed stars). A layer is its class and the classes of its children.
- The Web Animations call and its `onfinish` timing are left out, along with the swallowed exception around them. A click records the ordered legs it starts: path and duration. Path lengths are natural numbers rather than floating-point `SVGAnimatedNumber`s.
- `getSrc` is left out. Its source lookup (the current `src` of an `<img>`, a CSS background URL, `data-src` or `href`) is an abstract `Item.src`. The background-URL regex is not modelled.
- Browser I/O is abstracted. `localStorage` is a `map`. `innerHTML`/`insertAdjacentHTML` are a string that is assigned or appended. A prefetch hint is an entry in `requested`. No network fetch is performed, and the caught `console.warn` failure path of `prefetch` is not modelled.
- The browser's resolution of `a.href` is a given field of `Anchor`. `closest('a')` is an optional anchor passed in. Click coordinates are reals.
- The features' existence checks are left out: `#lb` and its child elements, `#nzmap` and `#description`, and the toggle button. The classes stand for pages where those elements exist. The veil's absence is modelled (`Transitions.veil` may be null).
- FileBase: lower-cases ASCII letters only. `toLowerCase`'s full Unicode mapping, including case changes that alter length, is not modelled.
- Lightbox.Gallery.Next: on an empty gallery the source stores `NaN` in `index`, blanks the image and throws in `getCaption`. The model blanks the image, keeps `index` and returns `false`.
- Lightbox.Gallery.Prev: the same as `Next` on an empty gallery.
- `fillDesc` does no HTML escaping of the label or description, and neither does the model.
