/** The New Zealand region map: which island paths animate on a region
    click, and the HTML of the description panel. */
module RegionMap {
  import opened Wrappers
  import opened JsStrings

  /** The fixed base URL of the region thumbnails. */
  const ImageUrl := "https://s3-us-west-2.amazonaws.com/s.cdpn.io/4273/"
  /** The two region labels that trigger path travel. */
  const Taranaki := "Taranaki"
  const Fiordland := "Fiordland"
  /** The shortest path animation, in milliseconds. */
  const MinTravel: nat := 600

  /** The thumbnail file name of a region: its label lower-cased, cut at the
      first `.`. */
  function FileBase(locName: string): (r: string)
    ensures |r| <= |locName| && '.' !in r
    ensures forall k :: 0 <= k < |r| ==> r[k] == LowerAscii(locName[k])
    ensures |r| < |locName| ==> locName[|r|] == '.'
  {
    ToLowerAscii(BeforeFirst(locName, '.'))
  }

  /** The thumbnail `<img>` tag for a file base (the 2x `srcset` is the same file). */
  function ImageTag(base: string): string {
    ("<img src=\"" + ImageUrl + base + ".jpg\"") + (" srcset=\"" + ImageUrl + base + ".jpg 2x\" alt>")
  }

  /** The tag's `src` is the image URL of the file base, and its `srcset`
      names the same file at `2x`. */
  lemma ImageTagLayout(base: string)
    ensures "<img src=\"" + ImageUrl + base + ".jpg\"" <= ImageTag(base)
    ensures EndsWith(ImageTag(base), " srcset=\"" + ImageUrl + base + ".jpg 2x\" alt>")
  {
    ConcatEnds("<img src=\"" + ImageUrl + base + ".jpg\"", " srcset=\"" + ImageUrl + base + ".jpg 2x\" alt>");
  }

  /** `fillDesc(locName, desc)`: the thumbnail, then the label as a heading,
      then the description as a paragraph. Nothing is escaped. */
  function FillDesc(locName: string, desc: string): string {
    ImageTag(FileBase(locName)) + ("<h1>" + locName + "</h1>" + "<p>" + desc + "</p>")
  }

  /** The panel starts with the thumbnail of the label's file base and ends
      with the label heading followed by the description paragraph. */
  lemma FillDescLayout(locName: string, desc: string)
    ensures ImageTag(FileBase(locName)) <= FillDesc(locName, desc)
    ensures EndsWith(FillDesc(locName, desc), "<h1>" + locName + "</h1>" + "<p>" + desc + "</p>")
  {
    ConcatEnds(ImageTag(FileBase(locName)), "<h1>" + locName + "</h1>" + "<p>" + desc + "</p>");
  }

  /** The description is recoverable from the panel: two descriptions of one
      region give the same panel only when they are equal. */
  lemma FillDescInjectiveInDesc(locName: string, d1: string, d2: string)
    requires FillDesc(locName, d1) == FillDesc(locName, d2)
    ensures d1 == d2
  {
    var head := ImageTag(FileBase(locName)) + "<h1>" + locName + "</h1>" + "<p>";
    assert FillDesc(locName, d1) == head + d1 + "</p>";
    assert FillDesc(locName, d2) == head + d2 + "</p>";
    assert |d1| == |d2|;
    assert d1 == FillDesc(locName, d1)[|head|..|head| + |d1|];
  }

  /** `Math.max(600, pathDist * 5)`. */
  function TravelDuration(pathLength: nat): (d: nat)
    ensures d >= MinTravel && d >= 5 * pathLength
    ensures d == MinTravel || d == 5 * pathLength
  {
    if 5 * pathLength > MinTravel then 5 * pathLength else MinTravel
  }

  datatype PathId = NorthIsland | SouthIsland

  /** One stroke animation; a plan's next leg starts when this one finishes. */
  datatype Leg = Leg(path: PathId, duration: nat)

  /** The animations one accepted click starts, in order: `ni` and `si`
      are the lengths of the `#ni` and `#si` paths, when the map has them. */
  function TravelPlan(locName: string, prevLoc: string, ni: Option<nat>, si: Option<nat>): (plan: seq<Leg>)
    ensures |plan| <= 2
    ensures forall k :: 0 <= k < |plan| ==> plan[k].duration >= MinTravel
    ensures plan != [] ==> locName == Taranaki || locName == Fiordland
  {
    if locName == Taranaki && ni.Some? then
      [Leg(NorthIsland, TravelDuration(ni.value))]
    else if locName == Fiordland && si.Some? && ni.Some? then
      if prevLoc == Taranaki then [Leg(SouthIsland, TravelDuration(si.value))]
      else [Leg(NorthIsland, TravelDuration(ni.value)), Leg(SouthIsland, TravelDuration(si.value))]
    else
      []
  }

  /** The path-travel table: Taranaki draws the north island path alone;
      Fiordland draws the south path alone right after Taranaki, else the
      north path chained into the south path; every other label draws nothing. */
  lemma TravelTable(locName: string, prevLoc: string, ni: Option<nat>, si: Option<nat>)
    ensures locName == Taranaki && ni.Some? ==>
      TravelPlan(locName, prevLoc, ni, si) == [Leg(NorthIsland, TravelDuration(ni.value))]
    ensures locName == Fiordland && ni.Some? && si.Some? && prevLoc == Taranaki ==>
      TravelPlan(locName, prevLoc, ni, si) == [Leg(SouthIsland, TravelDuration(si.value))]
    ensures locName == Fiordland && ni.Some? && si.Some? && prevLoc != Taranaki ==>
      TravelPlan(locName, prevLoc, ni, si)
        == [Leg(NorthIsland, TravelDuration(ni.value)), Leg(SouthIsland, TravelDuration(si.value))]
    ensures (locName != Taranaki && locName != Fiordland) || ni.None? || (locName == Fiordland && si.None?) ==>
      TravelPlan(locName, prevLoc, ni, si) == []
  {
  }

  /** Reaching Fiordland draws the same route whether or not Taranaki was
      visited on the way: Taranaki's leg plus Fiordland's equals the chained plan. */
  lemma RouteViaTaranaki(p: string, q: string, ni: nat, si: nat)
    requires q != Taranaki
    ensures TravelPlan(Taranaki, p, Some(ni), Some(si)) + TravelPlan(Fiordland, Taranaki, Some(ni), Some(si))
            == TravelPlan(Fiordland, q, Some(ni), Some(si))
  {
  }

  /** One `<div>` block of the narrow-screen panel. */
  function Block(locName: string, desc: string): string {
    "<div>" + FillDesc(locName, desc) + "</div>"
  }

  /** A block wraps the region's thumbnail, heading and description in one `<div>`. */
  lemma BlockLayout(locName: string, desc: string)
    ensures "<div>" + ImageTag(FileBase(locName)) <= Block(locName, desc)
    ensures EndsWith(Block(locName, desc), "<h1>" + locName + "</h1>" + "<p>" + desc + "</p>" + "</div>")
  {
    FillDescLayout(locName, desc);
    WrapEnds("<div>", FillDesc(locName, desc), ImageTag(FileBase(locName)),
             "<h1>" + locName + "</h1>" + "<p>" + desc + "</p>", "</div>");
  }

  /** The narrow-screen panel: one block per region, in document order,
      pairing the k-th label with the k-th description. */
  function Blocks(locs: seq<string>, descs: seq<string>): string
    requires |locs| == |descs|
  {
    if locs == [] then "" else Block(locs[0], descs[0]) + Blocks(locs[1..], descs[1..])
  }

  /** Every region adds at least an empty `<div></div>` to the panel, so the
      panel is empty exactly when there are no regions; otherwise it opens
      with the first region's block. */
  lemma {:induction false} BlocksSize(locs: seq<string>, descs: seq<string>)
    requires |locs| == |descs|
    ensures |Blocks(locs, descs)| >= 11 * |locs|
    ensures Blocks(locs, descs) == "" <==> locs == []
    ensures locs != [] ==> Block(locs[0], descs[0]) <= Blocks(locs, descs)
  {
    if locs != [] {
      BlocksSize(locs[1..], descs[1..]);
    }
  }

  /** The panel of two runs of regions is the two panels one after the other. */
  lemma {:induction false} BlocksConcat(l1: seq<string>, d1: seq<string>, l2: seq<string>, d2: seq<string>)
    requires |l1| == |d1| && |l2| == |d2|
    ensures Blocks(l1 + l2, d1 + d2) == Blocks(l1, d1) + Blocks(l2, d2)
  {
    if l1 == [] {
      assert l1 + l2 == l2 && d1 + d2 == d2;
    } else {
      assert (l1 + l2)[0] == l1[0] && (l1 + l2)[1..] == l1[1..] + l2;
      assert (d1 + d2)[0] == d1[0] && (d1 + d2)[1..] == d1[1..] + d2;
      BlocksConcat(l1[1..], d1[1..], l2, d2);
    }
  }

  /** Appending the next region's block extends the panel by one region. */
  lemma BlocksSnoc(locs: seq<string>, descs: seq<string>, i: nat)
    requires i < |locs| && i < |descs|
    ensures Blocks(locs[..i + 1], descs[..i + 1]) == Blocks(locs[..i], descs[..i]) + Block(locs[i], descs[i])
  {
    assert locs[..i + 1] == locs[..i] + [locs[i]];
    assert descs[..i + 1] == descs[..i] + [descs[i]];
    BlocksConcat(locs[..i], descs[..i], [locs[i]], [descs[i]]);
    assert Blocks([locs[i]], [descs[i]]) == Block(locs[i], descs[i]) + Blocks([], []);
  }

  /** The k-th region's block sits between the blocks before it and after it. */
  lemma BlockAt(locs: seq<string>, descs: seq<string>, k: nat)
    requires |locs| == |descs| && k < |locs|
    ensures Blocks(locs, descs)
            == Blocks(locs[..k], descs[..k]) + Block(locs[k], descs[k]) + Blocks(locs[k + 1..], descs[k + 1..])
  {
    BlocksSplit(locs, descs, k);
    BlocksUnfold(locs, descs, k);
    AppendAssoc(Blocks(locs[..k], descs[..k]), Block(locs[k], descs[k]), Blocks(locs[k + 1..], descs[k + 1..]));
  }

  /** The panel splits at any region into the blocks before and from it. */
  lemma BlocksSplit(locs: seq<string>, descs: seq<string>, k: nat)
    requires |locs| == |descs| && k <= |locs|
    ensures Blocks(locs, descs) == Blocks(locs[..k], descs[..k]) + Blocks(locs[k..], descs[k..])
  {
    assert locs == locs[..k] + locs[k..];
    assert descs == descs[..k] + descs[k..];
    BlocksConcat(locs[..k], descs[..k], locs[k..], descs[k..]);
  }

  /** The blocks from region `k` on open with region `k`'s block. */
  lemma BlocksUnfold(locs: seq<string>, descs: seq<string>, k: nat)
    requires |locs| == |descs| && k < |locs|
    ensures Blocks(locs[k..], descs[k..]) == Block(locs[k], descs[k]) + Blocks(locs[k + 1..], descs[k + 1..])
  {
    assert locs[k..][1..] == locs[k + 1..];
    assert descs[k..][1..] == descs[k + 1..];
  }

  /** Concatenation of strings is associative. */
  lemma AppendAssoc(a: string, b: string, c: string)
    ensures a + (b + c) == a + b + c
  {
  }

  /** A link of the map as the click handler reads it: the text of its
      `<desc>` and `<text>` children, when present. */
  datatype MapLink = MapLink(desc: Option<string>, text: Option<string>)

  class NzMap {
    /** The lengths of the `#ni` and `#si` paths, when the map has them. */
    const ni: Option<nat>
    const si: Option<nat>
    /** The label of the last accepted click; only a reload clears it. */
    var prevLoc: string
    /** The `innerHTML` of the `#description` panel. */
    var panel: string
    /** Whether the panel has the `active` class. */
    var panelActive: bool
    /** Every plan of path animations started, in order. */
    var travels: seq<seq<Leg>>

    constructor (ni: Option<nat>, si: Option<nat>, panel: string)
      ensures this.ni == ni && this.si == si && this.panel == panel
      ensures prevLoc == "" && !panelActive && travels == []
    {
      this.ni, this.si := ni, si;
      this.panel := panel;
      prevLoc := "";
      panelActive := false;
      travels := [];
    }

    /** The map's click listener. A click outside any link changes nothing;
        a link whose label is empty or repeats the last one is swallowed;
        any other link runs its travel plan, becomes `prevLoc` and fills
        the panel with its description. */
    method Click(link: Option<MapLink>) returns (prevented: bool)
      modifies this
      ensures prevented <==> link.Some?
      ensures var locName := if link.Some? then OrElse(link.value.text, "") else "";
              if locName == "" || locName == old(prevLoc) then unchanged(this)
              else
                prevLoc == locName
                && panel == FillDesc(locName, OrElse(link.value.desc, "")) && panelActive
                && travels == old(travels)
                   + (var plan := TravelPlan(locName, old(prevLoc), ni, si);
                      if plan == [] then [] else [plan])
    {
      if link.None? {
        return false;
      }
      prevented := true;
      var desc := OrElse(link.value.desc, "");
      var locName := OrElse(link.value.text, "");
      if locName == "" || locName == prevLoc {
        return;
      }
      var plan := TravelPlan(locName, prevLoc, ni, si);
      if plan != [] {
        travels := travels + [plan];
      }
      panelActive := false;
      panel := "";
      prevLoc := locName;
      panel := FillDesc(locName, desc);
      panelActive := true;
    }

    /** `showHide()`: the panel is emptied, then one block per `<text>`
        label is appended, paired with the `<desc>` at the same position.
        When descriptions run out, reading the missing one throws and the
        panel keeps the blocks appended so far. */
    method ShowHide(locs: seq<string>, descs: seq<string>) returns (ok: bool)
      modifies this`panel
      ensures ok <==> |locs| <= |descs|
      ensures var k := if ok then |locs| else |descs|;
              panel == Blocks(locs[..k], descs[..k])
    {
      panel := "";
      var i := 0;
      while i < |locs|
        invariant 0 <= i <= |locs| && i <= |descs|
        invariant panel == Blocks(locs[..i], descs[..i])
      {
        if i >= |descs| {
          return false;
        }
        BlocksSnoc(locs, descs, i);
        panel := panel + Block(locs[i], descs[i]);
        i := i + 1;
      }
      ok := true;
    }

    /** The window `load` listener: on a narrow viewport the panel is
        pre-filled with every region; otherwise nothing happens. */
    method WindowLoaded(narrow: bool, locs: seq<string>, descs: seq<string>)
      modifies this`panel
      ensures !narrow ==> panel == old(panel)
      ensures narrow && |locs| <= |descs| ==> panel == Blocks(locs, descs[..|locs|])
      ensures narrow && |locs| > |descs| ==> panel == Blocks(locs[..|descs|], descs)
    {
      if narrow {
        var _ := ShowHide(locs, descs);
        assert locs[..|locs|] == locs && descs[..|descs|] == descs;
      }
    }
  }
}
