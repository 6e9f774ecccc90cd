/** Hover prefetching of internal pages: a page-lifetime set of URLs whose
    prefetch has completed, consulted before each new prefetch hint. */
module Prefetch {
  import opened Wrappers
  import opened Links

  class Registry {
    /** The `prefetched` set: URLs whose prefetch `<link>` has loaded. */
    var prefetched: set<string>
    /** The `href` of every prefetch `<link>` appended to the document head,
        in the order they were appended. */
    var requested: seq<string>

    /** A URL counts as prefetched only once a hint for it was issued. */
    ghost predicate Valid()
      reads this
    {
      forall u :: u in prefetched ==> u in requested
    }

    constructor ()
      ensures Valid() && prefetched == {} && requested == []
    {
      prefetched := {};
      requested := [];
    }

    /** `prefetch(href)`: skipped for an empty URL or one already loaded;
        otherwise one more hint is issued, and the set itself is left alone
        until that hint loads. */
    method Prefetch(href: string)
      requires Valid()
      modifies this
      ensures Valid()
      ensures prefetched == old(prefetched)
      ensures requested == if href == "" || href in old(prefetched) then old(requested)
                           else old(requested) + [href]
    {
      if href == "" || href in prefetched {
        return;
      }
      requested := requested + [href];
    }

    /** The `onload` callback of the `i`-th hint: its URL joins the set,
        which never loses a member. */
    method HintLoaded(i: nat)
      requires Valid() && i < |requested|
      modifies this
      ensures Valid() && requested == old(requested)
      ensures prefetched == old(prefetched) + {requested[i]}
    {
      prefetched := prefetched + {requested[i]};
    }

    /** The `mouseover` listener: a hover over an internal link prefetches the
        link's target; any other hover changes nothing. */
    method Hover(a: Option<Anchor>, origin: string)
      requires Valid()
      modifies this
      ensures Valid()
      ensures prefetched == old(prefetched)
      ensures requested ==
        if !IsInternalHtmlLink(a, origin) || LinkTarget(a.value) == ""
           || LinkTarget(a.value) in old(prefetched)
        then old(requested)
        else old(requested) + [LinkTarget(a.value)]
    {
      if a.Some? && IsInternalHtmlLink(a, origin) {
        Prefetch(LinkTarget(a.value));
      }
    }
  }

  /** Two hovers over the same link before its hint has loaded issue two
      hints: the set suppresses repeats only after a load. */
  method HoverTwiceBeforeLoad(href: string) returns (reg: Registry)
    requires href != ""
    ensures reg.requested == [href, href] && reg.prefetched == {}
  {
    reg := new Registry();
    reg.Prefetch(href);
    reg.Prefetch(href);
  }

  /** Once a hint has loaded, hovering the same URL again issues nothing. */
  method HoverAfterLoad(href: string) returns (reg: Registry)
    requires href != ""
    ensures reg.requested == [href] && reg.prefetched == {href}
  {
    reg := new Registry();
    reg.Prefetch(href);
    reg.HintLoaded(0);
    reg.Prefetch(href);
  }
}
