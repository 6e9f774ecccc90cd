/** Which anchors the page-transition script treats as internal page links:
    the links that get the exit animation and the hover prefetch. */
module Links {
  import opened Wrappers
  import opened JsStrings

  /** An `<a>` element as the scripts read it: its `target` attribute (empty
      when absent), its raw `href` attribute, and its `href` property, the
      absolute URL the browser resolved from the attribute (empty when the
      anchor has none). */
  datatype Anchor = Anchor(target: string, hrefAttr: Option<string>, href: string)

  /** The classifier's view of the link: the trimmed `href` attribute. */
  function TrimmedHref(a: Anchor): (h: string)
    ensures a.hrefAttr.None? ==> h == ""
    ensures h != [] ==> !IsJsSpace(h[0]) && !IsJsSpace(h[|h| - 1])
  {
    Trim(a.hrefAttr.GetOr(""))
  }

  /** `isInternalHTMLLink(a)` for the page at `origin`. */
  function IsInternalHtmlLink(a: Option<Anchor>, origin: string): (r: bool)
    ensures r ==> a.Some? && a.value.target != "_blank" && TrimmedHref(a.value) != []
  {
    if a.None? || a.value.target == "_blank" then false
    else
      var h := TrimmedHref(a.value);
      if h == [] || h[0] == '#' then false
      else if HasHttpScheme(h) && !(origin <= h) then false
      else EndsWith(h, ".html") || ContainsNone(h, {':', '?', '#'})
  }

  /** `a.href || a.getAttribute('href')`: where a prefetch or a navigation goes. */
  function LinkTarget(a: Anchor): (t: string)
    ensures t == "" ==> a.href == ""
    ensures a.href != "" ==> t == a.href
    ensures a.href == "" ==> t == a.hrefAttr.GetOr("")
  {
    OrElse(Some(a.href), a.hrefAttr.GetOr(""))
  }

  /** A link that opens a new tab never qualifies. */
  lemma NewTabNeverInternal(a: Anchor, origin: string)
    requires a.target == "_blank"
    ensures !IsInternalHtmlLink(Some(a), origin)
  {
  }

  /** A link whose trimmed `href` is empty or a fragment never qualifies. */
  lemma EmptyOrFragmentNeverInternal(a: Anchor, origin: string)
    requires TrimmedHref(a) == [] || TrimmedHref(a)[0] == '#'
    ensures !IsInternalHtmlLink(Some(a), origin)
  {
  }

  /** An absolute `http:`/`https:` link outside the page's origin never
      qualifies, so it is neither prefetched nor intercepted. */
  lemma CrossOriginNeverInternal(a: Anchor, origin: string)
    requires HasHttpScheme(TrimmedHref(a)) && !(origin <= TrimmedHref(a))
    ensures !IsInternalHtmlLink(Some(a), origin)
  {
  }

  /** Past the three rejections, a link qualifies exactly when its `href` ends
      in `.html` or holds none of `:`, `?` and `#`. */
  lemma InternalIffPageLike(a: Anchor, origin: string)
    requires a.target != "_blank"
    requires TrimmedHref(a) != [] && TrimmedHref(a)[0] != '#'
    requires !HasHttpScheme(TrimmedHref(a)) || origin <= TrimmedHref(a)
    ensures IsInternalHtmlLink(Some(a), origin)
            <==> EndsWith(TrimmedHref(a), ".html") || ContainsNone(TrimmedHref(a), {':', '?', '#'})
  {
  }

  /** A same-origin absolute URL carries the `:` of its scheme, so it
      qualifies only when it ends in `.html`. */
  lemma SameOriginAbsoluteNeedsHtml(a: Anchor, origin: string)
    requires a.target != "_blank"
    requires HasHttpScheme(TrimmedHref(a)) && origin <= TrimmedHref(a)
    ensures IsInternalHtmlLink(Some(a), origin) <==> EndsWith(TrimmedHref(a), ".html")
  {
  }

  /** A relative path such as `about` or `gallery/` qualifies. */
  lemma RelativePathInternal(a: Anchor, origin: string)
    requires a.target != "_blank"
    requires TrimmedHref(a) != [] && ContainsNone(TrimmedHref(a), {':', '?', '#'})
    ensures IsInternalHtmlLink(Some(a), origin)
  {
  }
}
