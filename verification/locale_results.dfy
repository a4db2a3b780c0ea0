/** Which page a request is answered with, for every reader, and what the overlay puts on a page. */
module LocaleResults {
  import opened Contracts
  import opened Locale

  // Resolution ---------------------------------------------------------------------------------

  /** The answer is a released page for just this request, under a published version and its own id. */
  ghost predicate Fits(bound: Option<Bound>, request: RouteRequest) {
    && bound.Some?
    && var p := bound.value.projection;
       && 1 <= bound.value.publishVersion <= 9007199254740991 && p.projectionId == bound.value.projectionId
       && p.state == Released && p.page.locale == request.locale && p.page.route == request.route
       && (match p.page.kind
           case HubPage => request.family == Hub
           case GalleryPage(_, _, _) => request.family == Gallery
           case EntityPage => request.family == Entity
           case DetailPage(_, _) => request.family == Detail)
  }

  lemma FitsIsUsable(bound: Option<Bound>, request: RouteRequest)
    ensures Fits(bound, request) <==> Usable(bound, request)
  {
  }

  /** A route under the prefix moves to the other locale's prefix; any other stays. */
  ghost predicate MovesTo(route: string, moved: string, source: string, target: string) {
    if route == "/" + source || "/" + source + "/" <= route then moved == "/" + target + route[|source| + 1..]
    else moved == route
  }

  lemma LocalizedMoves(route: string, source: string, target: string)
    ensures MovesTo(route, LocalizedRoute(route, source, target), source, target)
  {
    if Own(route, source) { MovedRoute(route, source, target); } else { UnmovedRoute(route, source, target); }
  }

  /** The request for the English source of a page. */
  ghost predicate SourceOf(request: RouteRequest, source: RouteRequest) {
    && source.family == request.family && source.locale == "en"
    && MovesTo(request.route, source.route, request.locale, "en")
  }

  /** English requests are answered with the page bound to them, if it fits, and with nothing else. */
  lemma {:induction false} EnglishResolved(read: Reader, o: Overlay, request: RouteRequest)
    requires request.locale == "en"
    ensures Resolve(read, o, request) ==
      if Fits(read(request), request) then Some(read(request).value.projection) else None
  {
    FitsIsUsable(read(request), request);
    hide Fits, Usable;
  }

  /** In any other locale a page that fits is served as it is exactly when it is marked translated.
      Otherwise, whatever its mark, the fitting English source is served under the overlay when the
      route is of the locale or not under /en, and nothing is served when there is no such source. */
  lemma {:induction false} OtherLocaleResolved(read: Reader, o: Overlay, request: RouteRequest, sought: RouteRequest)
    requires request.locale != "en" && SourceOf(request, sought)
    requires Fits(read(sought), sought) ==> read(sought).value.projection.locale == "en"
    ensures Resolve(read, o, request) ==
      if Fits(read(request), request) && read(request).value.projection.page.translation == Translated then
        Some(read(request).value.projection)
      else if Fits(read(sought), sought) && (Own(request.route, request.locale) || !Own(request.route, "en")) then
        Some(Localize(o, read(sought).value.projection, request.locale))
      else None
  {
    SourceRequested(request, sought);
    FitsIsUsable(read(request), request);
    FitsIsUsable(read(sought), sought);
    assert sought == SourceRequest(request);
    if Fits(read(request), request) && read(request).value.projection.page.translation == Translated {
    } else if Usable(read(sought), sought) {
      SourceAccepted(read, o, request);
    }
    hide Fits, Localize, LocalizedRoute, Own;
  }

  lemma SourceRequested(request: RouteRequest, source: RouteRequest)
    requires SourceOf(request, source)
    ensures source == SourceRequest(request)
  {
    LocalizedMoves(request.route, request.locale, "en");
  }

  /** A source whose own locale is not that of its page: it is served exactly when moving its route from
      its own locale gives the requested one. */
  lemma {:induction false} MislabelledSource(read: Reader, o: Overlay, request: RouteRequest, sought: RouteRequest,
      moved: string)
    requires request.locale != "en" && SourceOf(request, sought) && Fits(read(sought), sought)
    requires !(Fits(read(request), request) && read(request).value.projection.page.translation == Translated)
    requires MovesTo(sought.route, moved, read(sought).value.projection.locale, request.locale)
    ensures Resolve(read, o, request) ==
      if read(sought).value.projection.locale != request.locale && moved == request.route then
        Some(Localize(o, read(sought).value.projection, request.locale))
      else None
  {
    SourceRequested(request, sought);
    FitsIsUsable(read(request), request);
    FitsIsUsable(read(sought), sought);
    LocalizedMoves(sought.route, read(sought).value.projection.locale, request.locale);
    LocalizedFits(o, read(sought).value.projection, request);
    hide Fits, Localize, LocalizedRoute;
  }

  lemma LocalizedFits(o: Overlay, p: PageProjection, request: RouteRequest)
    requires IsRouteProjection(SourceRequest(request), p) && request.locale != "en"
    ensures IsRouteProjection(request, Localize(o, p, request.locale)) <==>
      p.locale != request.locale && LocalizedRoute(p.page.route, p.locale, request.locale) == request.route
  {
    hide LocalizedRoute;
  }

  // The overlay --------------------------------------------------------------------------------

  ghost predicate LinkMoves(href: Option<string>, moved: Option<string>, source: string, target: string) {
    && (href.Some? <==> moved.Some?)
    && (href.Some? ==> MovesTo(href.value, moved.value, source, target))
  }

  lemma OptionalMoves(href: Option<string>, source: string, target: string)
    ensures LinkMoves(href, OptionalRoute(href, source, target), source, target)
  {
    if href.Some? { LocalizedMoves(href.value, source, target); }
  }

  /** Title, heading and description: the messages for hubs and galleries, the entity's name with the
      suffix, and a detail's own. */
  lemma {:induction false} OverlaidTexts(o: Overlay, p: PageProjection, locale: string)
    requires p.locale != locale
    ensures var page, m := Localize(o, p, locale).page, o.messages(locale);
      && page.h1 == page.title
      && (p.page.kind == HubPage ==> page.title == m.hubTitle && page.description == m.hubDescription)
      && (p.page.kind.GalleryPage? && p.page.kind.media == Image ==>
            page.title == m.imageGalleryTitle && page.description == m.imageGalleryDescription)
      && (p.page.kind.GalleryPage? && p.page.kind.media == Video ==>
            page.title == m.videoGalleryTitle && page.description == m.videoGalleryDescription)
      && (p.page.kind == EntityPage ==>
            page.title == o.entityName(p.page.h1) + " " + m.promptsSuffix && page.description == p.page.description)
      && (p.page.kind.DetailPage? ==> page.title == p.page.title && page.description == p.page.description)
  {
    hide LocalizedRoute, LocalizedKind, LocalizedNavigation, RewriteSlots, EndsWith;
  }

  /** The overlay marks the page as the source's fallback, moves it and its pagination, and leaves
      alone what it does not name. */
  lemma {:induction false} OverlaidPage(o: Overlay, p: PageProjection, locale: string)
    requires p.locale != locale
    ensures var q := Localize(o, p, locale);
      && q.locale == q.page.locale == locale && q.page.translation == SourceFallback
      && MovesTo(p.page.route, q.page.route, p.locale, locale)
      && q.state == p.state && q.family == p.family && q.pageId == p.pageId && q.schemaHash == p.schemaHash
      && q.dependencyHash == p.dependencyHash && q.validationReport == p.validationReport
      && q.page.indexState == p.page.indexState && q.page.rest == p.page.rest
      && q.projectionId == o.identity(p.projectionId + ":" + locale + ":locale-overlay-v1")
      && q.rendererVersion == p.rendererVersion + ":locale-overlay-v1"
      && q.navigation.version == p.navigation.version + ":locale-overlay-v1:" + locale
      && match p.page.kind
         case GalleryPage(media, next, previous) =>
           && q.page.kind.GalleryPage? && q.page.kind.media == media
           && LinkMoves(next, q.page.kind.next, p.locale, locale)
           && LinkMoves(previous, q.page.kind.previous, p.locale, locale)
         case DetailPage(_, body) => q.page.kind == DetailPage(locale, body)
         case _ => q.page.kind == p.page.kind
  {
    LocalizedMoves(p.page.route, p.locale, locale);
    if p.page.kind.GalleryPage? {
      OptionalMoves(p.page.kind.next, p.locale, locale);
      OptionalMoves(p.page.kind.previous, p.locale, locale);
    }
    hide LocalizedRoute, OptionalRoute, LocalizedNavigation, RewriteSlots, EndsWith, MovesTo, LinkMoves, LocalizedCopy;
    NavigationVersion(o, p.navigation, p.locale, locale);
  }

  lemma NavigationVersion(o: Overlay, navigation: Navigation, source: string, locale: string)
    ensures LocalizedNavigation(o, navigation, source, locale).version ==
      navigation.version + ":locale-overlay-v1:" + locale
  {
  }

  /** Breadcrumbs and links keep their places and move; a crumb that leads to the prompts gets the
      locale's word for them. */
  lemma {:induction false} OverlaidTrail(o: Overlay, p: PageProjection, locale: string, i: nat)
    requires p.locale != locale
    ensures var before, page := p.page, Localize(o, p, locale).page;
      && |page.breadcrumbs| == |before.breadcrumbs| && |page.links| == |before.links|
      && (i < |before.breadcrumbs| ==>
            var crumb, was := page.breadcrumbs[i], before.breadcrumbs[i];
            && MovesTo(was.href, crumb.href, p.locale, locale)
            && (crumb.caption == if |was.href| >= 8 && was.href[|was.href| - 8..] == "/prompts"
                                 then o.messages(locale).prompts else was.caption))
      && (i < |before.links| ==>
            page.links[i].body == before.links[i].body &&
            MovesTo(before.links[i].href, page.links[i].href, p.locale, locale))
  {
    if i < |p.page.breadcrumbs| { LocalizedMoves(p.page.breadcrumbs[i].href, p.locale, locale); }
    if i < |p.page.links| { LocalizedMoves(p.page.links[i].href, p.locale, locale); }
    assert |"/prompts"| == 8;
    hide LocalizedRoute, OptionalRoute, LocalizedNavigation, RewriteSlots, MovesTo, LocalizedCopy, LocalizedKind;
  }

  /** Navigation items keep their identity and move; the hub and the two galleries get the locale's
      titles. */
  lemma {:induction false} OverlaidNavigation(o: Overlay, p: PageProjection, locale: string, i: nat)
    requires p.locale != locale && i < |p.navigation.items|
    ensures var items, m := Localize(o, p, locale).navigation.items, o.messages(locale);
      && |items| == |p.navigation.items|
      && var item, was := items[i], p.navigation.items[i];
         && item.nodeRef == was.nodeRef && item.rest == was.rest && LinkMoves(was.href, item.href, p.locale, locale)
         && (was.nodeRef == "hub:prompts" ==> item.caption == Some(m.hubTitle))
         && (was.nodeRef == "output:image" ==> item.caption == Some(m.imageGalleryTitle))
         && (was.nodeRef == "output:video" ==> item.caption == Some(m.videoGalleryTitle))
         && (was.nodeRef !in ["hub:prompts", "output:image", "output:video"] ==> item.caption == was.caption)
  {
    OptionalMoves(p.navigation.items[i].href, p.locale, locale);
    hide LocalizedPage, RewriteSlots, OptionalRoute, LinkMoves;
    CaptionOf(o, p.navigation.items[i], locale);
    hide NavigationCaption;
  }

  lemma CaptionOf(o: Overlay, was: NodeItem, locale: string)
    ensures var m, caption := o.messages(locale), NavigationCaption(o, was, locale);
      && (was.nodeRef == "hub:prompts" ==> caption == Some(m.hubTitle))
      && (was.nodeRef == "output:image" ==> caption == Some(m.imageGalleryTitle))
      && (was.nodeRef == "output:video" ==> caption == Some(m.videoGalleryTitle))
      && (was.nodeRef !in ["hub:prompts", "output:image", "output:video"] ==> caption == was.caption)
  {
    assert "hub:prompts"[0] == 'h' && "output:image"[7] == 'i' && "output:video"[7] == 'v' && "output:image"[0] == 'o';
    assert "output:video"[0] == 'o';
  }

  /** Slot items keep text and identity, and their links and their tags' links move. */
  lemma {:induction false} OverlaidSlots(o: Overlay, p: PageProjection, locale: string, s: nat, i: nat)
    requires p.locale != locale && s < |p.slots| && i < |p.slots[s].items|
    ensures var slots := Localize(o, p, locale).slots;
      && |slots| == |p.slots| && |slots[s].items| == |p.slots[s].items|
      && SameItem(p.slots[s].items[i], slots[s].items[i])
      && match (p.slots[s].items[i], slots[s].items[i])
         case (Node(was), Node(item)) => LinkMoves(was.href, item.href, p.locale, locale)
         case (Card(_, _, was, tags, _), Card(_, _, href, moved, _)) =>
           && LinkMoves(was, href, p.locale, locale) && |moved| == |tags|
           && forall k :: 0 <= k < |tags| ==> LinkMoves(tags[k].href, moved[k].href, p.locale, locale)
         case _ => false
  {
    OverlayPreserves(o, p, locale, s, i);
    LocalizedSlots(o, p, locale);
    var was := p.slots[s].items[i];
    match was
    case Node(node) => OptionalMoves(node.href, p.locale, locale);
    case Card(_, _, href, tags, _) =>
      OptionalMoves(href, p.locale, locale);
      forall k | 0 <= k < |tags|
        ensures LinkMoves(tags[k].href, RewriteNode(tags[k], p.locale, locale).href, p.locale, locale)
      {
        OptionalMoves(tags[k].href, p.locale, locale);
      }
    hide Localize, OptionalRoute, LinkMoves, SameItem;
  }
}
