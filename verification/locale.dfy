/** Resolving a page for a locale: the exact page when it is reviewed, otherwise the English source
    under a locale overlay. */
module Locale {
  import opened Contracts
  import opened Versions
  import Publication
  import PublicationReader

  // Routes -------------------------------------------------------------------------------------

  predicate StartsWith(s: string, prefix: string) {
    prefix <= s
  }

  /** The route is the locale's root or below it. */
  predicate Own(route: string, locale: string) {
    route == "/" + locale || StartsWith(route, "/" + locale + "/")
  }

  function LocalizedRoute(value: string, source: string, target: string): string {
    if value == "/" + source then "/" + target
    else if StartsWith(value, "/" + source + "/") then "/" + target + value[|source| + 1..]
    else value
  }

  /** A route of the locale is its prefix and what follows, which is empty or starts with a slash. */
  lemma OwnShape(route: string, locale: string)
    ensures Own(route, locale) <==>
      |route| >= |locale| + 1 && route[..|locale| + 1] == "/" + locale &&
        (|route| == |locale| + 1 || route[|locale| + 1] == '/')
  {
    var n := |locale| + 1;
    if StartsWith(route, "/" + locale + "/") {
      assert route[..n + 1] == "/" + locale + "/";
      assert route[..n + 1][..n] == route[..n] && route[..n + 1][n] == route[n];
    }
    if |route| > n && route[..n] == "/" + locale && route[n] == '/' {
      assert route[..n + 1] == "/" + locale + "/";
    }
    if |route| == n && route[..n] == "/" + locale { assert route == route[..n]; }
  }

  lemma MovedRoute(route: string, source: string, target: string)
    requires Own(route, source)
    ensures LocalizedRoute(route, source, target) == "/" + target + route[|source| + 1..]
    ensures Own(LocalizedRoute(route, source, target), target)
    ensures LocalizedRoute(route, source, target)[|target| + 1..] == route[|source| + 1..]
  {
    OwnShape(route, source);
    var moved := "/" + target + route[|source| + 1..];
    assert LocalizedRoute(route, source, target) == moved;
    assert moved[..|target| + 1] == "/" + target && moved[|target| + 1..] == route[|source| + 1..];
    OwnShape(moved, target);
  }

  lemma UnmovedRoute(route: string, source: string, target: string)
    requires !Own(route, source)
    ensures LocalizedRoute(route, source, target) == route
  {
  }

  /** Mapping a route to another locale and back gives the route again exactly when it lies under its
      own prefix, or under neither. */
  lemma {:induction false} RouteRoundTrip(route: string, locale: string, other: string)
    ensures LocalizedRoute(LocalizedRoute(route, locale, other), other, locale) == route <==>
      Own(route, locale) || !Own(route, other)
  {
    if Own(route, locale) {
      MovedRoute(route, locale, other);
      MovedRoute(LocalizedRoute(route, locale, other), other, locale);
      OwnShape(route, locale);
      assert route == route[..|locale| + 1] + route[|locale| + 1..];
    } else {
      UnmovedRoute(route, locale, other);
      if Own(route, other) { MovedRoute(route, other, locale); } else { UnmovedRoute(route, other, locale); }
    }
  }

  // The overlay --------------------------------------------------------------------------------

  datatype Copy = Copy(title: string, description: string)

  /** The messages of one locale. */
  datatype Messages = Messages(
    hubTitle: string, hubDescription: string, imageGalleryTitle: string, imageGalleryDescription: string,
    videoGalleryTitle: string, videoGalleryDescription: string, prompts: string, promptsSuffix: string)

  /** What the overlay takes from elsewhere: messages, the entity title without its suffix, and the
      digests of identities and of documents. */
  datatype Overlay = Overlay(
    messages: string -> Messages, entityName: string -> string, identity: string -> string,
    pageHash: Page -> string, contentHash: (Page, Navigation, seq<Slot>) -> string,
      linkHash: (Page, Navigation, seq<Slot>) -> string)

  function LocalizedCopy(o: Overlay, page: Page, locale: string): Copy {
    var m := o.messages(locale);
    match page.kind
    case HubPage => Copy(m.hubTitle, m.hubDescription)
    case GalleryPage(Image, _, _) => Copy(m.imageGalleryTitle, m.imageGalleryDescription)
    case GalleryPage(Video, _, _) => Copy(m.videoGalleryTitle, m.videoGalleryDescription)
    case EntityPage => Copy(o.entityName(page.h1) + " " + m.promptsSuffix, page.description)
    case DetailPage(_, _) => Copy(page.title, page.description)
  }

  function OptionalRoute(href: Option<string>, source: string, target: string): Option<string> {
    match href case None => None case Some(h) => Some(LocalizedRoute(h, source, target))
  }

  function RewriteNode(item: NodeItem, source: string, target: string): NodeItem {
    item.(href := OptionalRoute(item.href, source, target))
  }

  function RewriteNodes(items: seq<NodeItem>, source: string, target: string): (r: seq<NodeItem>)
    ensures |r| == |items| && forall i :: 0 <= i < |items| ==> r[i] == RewriteNode(items[i], source, target)
  {
    seq(|items|, i requires 0 <= i < |items| => RewriteNode(items[i], source, target))
  }

  function RewriteItem(item: SlotItem, source: string, target: string): SlotItem {
    match item
    case Node(node) => Node(RewriteNode(node, source, target))
    case Card(ref, text, href, tags, rest) => Card(ref, text, OptionalRoute(href, source, target),
      RewriteNodes(tags, source, target), rest)
  }

  function RewriteSlot(slot: Slot, source: string, target: string): Slot {
    slot.(items := seq(|slot.items|, i requires 0 <= i < |slot.items| => RewriteItem(slot.items[i], source, target)))
  }

  function RewriteSlots(slots: seq<Slot>, source: string, target: string): (r: seq<Slot>)
    ensures |r| == |slots| && forall i :: 0 <= i < |slots| ==> r[i] == RewriteSlot(slots[i], source, target)
  {
    seq(|slots|, i requires 0 <= i < |slots| => RewriteSlot(slots[i], source, target))
  }

  function LocalizedKind(kind: PageKind, source: string, target: string): PageKind {
    match kind
    case GalleryPage(media, next, previous) => GalleryPage(media, OptionalRoute(next, source, target),
      OptionalRoute(previous, source, target))
    case DetailPage(_, body) => DetailPage(target, body)
    case _ => kind
  }

  function LocalizedPage(o: Overlay, page: Page, source: string, locale: string): Page {
    var copy := LocalizedCopy(o, page, locale);
    page.(
      kind := LocalizedKind(page.kind, source, locale),
      locale := locale,
      translation := SourceFallback,
      route := LocalizedRoute(page.route, source, locale),
      title := copy.title, h1 := copy.title, description := copy.description,
      breadcrumbs := seq(|page.breadcrumbs|, i requires 0 <= i < |page.breadcrumbs| =>
        var crumb := page.breadcrumbs[i];
        Crumb(
          if EndsWith(crumb.href, "/prompts") then o.messages(locale).prompts else crumb.caption,
          LocalizedRoute(crumb.href, source, locale))),
      links := seq(|page.links|, i requires 0 <= i < |page.links| =>
        page.links[i].(href := LocalizedRoute(page.links[i].href, source, locale))))
  }

  function NavigationCaption(o: Overlay, item: NodeItem, locale: string): Option<string> {
    var m := o.messages(locale);
    if item.nodeRef == "hub:prompts" then Some(m.hubTitle)
    else if item.nodeRef == "output:image" then Some(m.imageGalleryTitle)
    else if item.nodeRef == "output:video" then Some(m.videoGalleryTitle)
    else item.caption
  }

  function LocalizedNavigation(o: Overlay, navigation: Navigation, source: string, locale: string): Navigation {
    Navigation(
      navigation.version + ":locale-overlay-v1:" + locale,
      seq(|navigation.items|, i requires 0 <= i < |navigation.items| =>
        RewriteNode(navigation.items[i], source, locale).(caption :=
          NavigationCaption(o, navigation.items[i], locale))))
  }

  /** localizeBoundProjection, the final schema check being the identity. */
  function Localize(o: Overlay, p: PageProjection, locale: string): PageProjection {
    if p.locale == locale then p
    else
      var page := LocalizedPage(o, p.page, p.locale, locale);
      var hashed := page.(contentHash := o.pageHash(page));
      var navigation := LocalizedNavigation(o, p.navigation, p.locale, locale);
      var slots := RewriteSlots(p.slots, p.locale, locale);
      p.(projectionId := o.identity(p.projectionId + ":" + locale + ":locale-overlay-v1"),
         locale := locale, page := hashed, navigation := navigation, slots := slots,
         contentHash := o.contentHash(hashed, navigation, slots), linkHash := o.linkHash(hashed, navigation, slots),
         rendererVersion := p.rendererVersion + ":locale-overlay-v1")
  }

  function Hyphenated(h: string): string
    requires |h| == 32
  {
    h[..8] + "-" + h[8..12] + "-" + h[12..16] + "-" + h[16..20] + "-" + h[20..]
  }

  lemma WithoutHyphens(h: string)
    requires |h| == 32
    ensures var id := Hyphenated(h);
      && |id| == 36 && id[8] == id[13] == id[18] == id[23] == '-' && id[14] == h[12] && id[19] == h[16]
      && id[..8] + id[9..13] + id[14..18] + id[19..23] + id[24..] == h
  {
    var id := Hyphenated(h);
    assert id[..8] == h[..8] && id[9..13] == h[8..12] && id[14..18] == h[12..16] && id[19..23] == h[16..20] &&
      id[24..] == h[20..];
    assert h == h[..8] + h[8..12] + h[12..16] + h[16..20] + h[20..];
  }

  /** `stable`: a digest's first 32 digits as a version 5 identifier. The variant digit becomes one
      of 8, 9, a and b. */
  method StableIdentifier(digest: string, variant: nat) returns (id: string)
    requires |digest| >= 32 && variant < 16
    ensures |id| == 36 && id[8] == id[13] == id[18] == id[23] == '-'
    ensures id[14] == '5' && id[19] in "89ab"
    ensures id[..8] + id[9..13] + id[14..18] + id[19..23] + id[24..] ==
      digest[..32][12 := '5'][16 := "89ab"[variant % 4]]
  {
    hide Hyphenated;
    var hex := new char[32](i requires 0 <= i < 32 => digest[i]);
    assert hex[..] == digest[..32];
    hex[12] := '5';
    hex[16] := "89ab"[variant % 4];
    assert hex[..] == digest[..32][12 := '5'][16 := "89ab"[variant % 4]];
    id := Hyphenated(hex[..]);
    WithoutHyphens(hex[..]);
  }

  // What the overlay preserves -----------------------------------------------------------------

  lemma ItemKept(item: SlotItem, source: string, target: string)
    ensures SameItem(item, RewriteItem(item, source, target)) && SameItem(item, item)
  {
    match item
    case Node(_) =>
    case Card(_, _, _, tags, _) =>
      assert forall k :: 0 <= k < |tags| ==> SameNode(tags[k], RewriteNode(tags[k], source, target));
  }

  lemma LocalizedSlots(o: Overlay, p: PageProjection, locale: string)
    ensures Localize(o, p, locale).slots == if p.locale == locale then p.slots
      else RewriteSlots(p.slots, p.locale, locale)
  {
    hide LocalizedPage, LocalizedNavigation;
  }

  /** Slots and items keep their places, prompts their text, nodes their identity. */
  lemma {:induction false} OverlayPreserves(o: Overlay, p: PageProjection, locale: string, s: nat, i: nat)
    requires s < |p.slots| && i < |p.slots[s].items|
    ensures var slots := Localize(o, p, locale).slots;
      && |slots| == |p.slots| && slots[s].slotKey == p.slots[s].slotKey && |slots[s].items| == |p.slots[s].items|
      && SameItem(p.slots[s].items[i], slots[s].items[i])
  {
    LocalizedSlots(o, p, locale);
    ItemKept(p.slots[s].items[i], p.locale, locale);
    hide Localize, SameItem, RewriteItem;
  }

  predicate SameNode(a: NodeItem, b: NodeItem) {
    a.nodeRef == b.nodeRef && a.caption == b.caption && a.rest == b.rest && (a.href.Some? <==> b.href.Some?)
  }

  ghost predicate SameItem(a: SlotItem, b: SlotItem) {
    match (a, b)
    case (Node(m), Node(n)) => SameNode(m, n)
    case (Card(ref, text, href, tags, rest), Card(ref', text', href', tags', rest')) =>
      && ref == ref' && text == text' && rest == rest' && (href.Some? <==> href'.Some?)
      && |tags| == |tags'| && forall k :: 0 <= k < |tags| ==> SameNode(tags[k], tags'[k])
    case _ => false
  }

  /** No link of the item lies under the locale's own prefix. */
  ghost predicate Foreign(item: SlotItem, locale: string) {
    match item
    case Node(n) => ForeignHref(n.href, locale)
    case Card(_, _, href, tags, _) => ForeignHref(href, locale) && forall k :: 0 <= k < |tags| ==>
      ForeignHref(tags[k].href, locale)
  }

  predicate ForeignHref(href: Option<string>, locale: string) {
    href.Some? ==> !Own(href.value, locale)
  }

  lemma HrefRestored(href: Option<string>, source: string, target: string)
    requires ForeignHref(href, target)
    ensures OptionalRoute(OptionalRoute(href, source, target), target, source) == href
  {
    if href.Some? { RouteRoundTrip(href.value, source, target); }
  }

  lemma ItemRestored(item: SlotItem, source: string, target: string)
    requires Foreign(item, target)
    ensures RewriteItem(RewriteItem(item, source, target), target, source) == item
  {
    hide LocalizedRoute, Own;
    match item
    case Node(n) => HrefRestored(n.href, source, target);
    case Card(_, _, href, tags, _) =>
      HrefRestored(href, source, target);
      forall k | 0 <= k < |tags| ensures RewriteNode(RewriteNode(tags[k], source, target), target, source) == tags[k] {
        HrefRestored(tags[k].href, source, target);
      }
      assert RewriteNodes(RewriteNodes(tags, source, target), target, source) == tags;
  }

  /** Rewriting the slots to another locale loses nothing: rewriting back restores them, when no link
      was under that locale to begin with. */
  lemma {:induction false} SlotsRestored(slots: seq<Slot>, source: string, target: string)
    requires forall s, i :: 0 <= s < |slots| && 0 <= i < |slots[s].items| ==> Foreign(slots[s].items[i], target)
    ensures RewriteSlots(RewriteSlots(slots, source, target), target, source) == slots
  {
    var moved := RewriteSlots(slots, source, target);
    var back := RewriteSlots(moved, target, source);
    hide RewriteItem, Foreign;
    forall s | 0 <= s < |slots| ensures back[s] == slots[s] {
      forall i | 0 <= i < |slots[s].items| ensures back[s].items[i] == slots[s].items[i] {
        ItemRestored(slots[s].items[i], source, target);
      }
      assert back[s].items == slots[s].items;
    }
  }

  // Resolution ---------------------------------------------------------------------------------

  /** What a reader returns for a request. */
  datatype Bound = Bound(publishVersion: int, projectionId: string, projection: PageProjection)

  type Reader = RouteRequest -> Option<Bound>

  predicate IsRouteProjection(request: RouteRequest, p: PageProjection) {
    p.state == Released && p.page.PageType() == request.family && p.page.locale == request.locale &&
      p.page.route == request.route
  }

  predicate IsReviewedExactLocale(request: RouteRequest, p: PageProjection) {
    request.locale == "en" || p.page.translation == Translated
  }

  predicate Usable(bound: Option<Bound>, request: RouteRequest) {
    bound.Some? && IsVersion(bound.value.publishVersion) &&
      bound.value.projection.projectionId == bound.value.projectionId
    && IsRouteProjection(request, bound.value.projection)
  }

  function SourceRequest(request: RouteRequest): RouteRequest {
    request.(locale := "en", route := LocalizedRoute(request.route, request.locale, "en"))
  }

  /** resolveFrontendRoute with a reader at hand. */
  function Resolve(read: Reader, o: Overlay, request: RouteRequest): Option<PageProjection> {
    var bound := read(request);
    if Usable(bound, request) && IsReviewedExactLocale(request, bound.value.projection)
    then Some(bound.value.projection)
    else if request.locale == "en" then None
    else
      var source := read(SourceRequest(request));
      if !Usable(source, SourceRequest(request)) then None
      else
        var localized := Localize(o, source.value.projection, request.locale);
        if IsRouteProjection(request, localized) then Some(localized) else None
  }

  /** Every page returned is released and has the requested locale, route and family. */
  lemma {:induction false} ResolvedMatches(read: Reader, o: Overlay, request: RouteRequest)
    requires Resolve(read, o, request).Some?
    ensures IsRouteProjection(request, Resolve(read, o, request).value)
  {
    hide Localize;
  }

  lemma LocalizedMatches(o: Overlay, p: PageProjection, request: RouteRequest)
    requires IsRouteProjection(SourceRequest(request), p) && p.locale == "en" && request.locale != "en"
    ensures IsRouteProjection(request, Localize(o, p, request.locale)) <==>
      LocalizedRoute(LocalizedRoute(request.route, request.locale, "en"), "en", request.locale) == request.route
  {
    hide LocalizedRoute;
  }

  /** With no reviewed page in the locale itself, a usable English source is returned, overlaid,
      exactly when the requested route is under its own locale's prefix or not under /en: for routes
      of the locale the last check never rejects it. */
  lemma {:induction false} SourceAccepted(read: Reader, o: Overlay, request: RouteRequest)
    requires request.locale != "en" && Usable(read(SourceRequest(request)), SourceRequest(request))
    requires read(SourceRequest(request)).value.projection.locale == "en"
    requires !(Usable(read(request), request) && read(request).value.projection.page.translation == Translated)
    ensures Resolve(read, o, request) ==
      if Own(request.route, request.locale) || !Own(request.route, "en")
      then Some(Localize(o, read(SourceRequest(request)).value.projection, request.locale)) else None
  {
    RouteRoundTrip(request.route, request.locale, "en");
    LocalizedMatches(o, read(SourceRequest(request)).value.projection, request);
    hide Localize, LocalizedRoute, Own;
  }

  // With the persisted reader ------------------------------------------------------------------

  /** The reader over the publication database, between the publisher's steps. */
  function PersistedReader(db: Publication.Db): Reader {
    request =>
      match PublicationReader.Read(db, db, db, request)
      case None => None
      case Some(answer) => Some(Bound(answer.publishVersion, answer.projection.projectionId, answer.projection))
  }

  /** From publication to page: right after an activation, a request for one of its English pages
      under the page's own route gets exactly what was stored. */
  lemma {:induction false} PublishedPageIsResolved(s: Publication.State, e: Publication.Step, p: PageProjection,
      o: Overlay)
    requires Publication.Inv(s) && s.attempt.Some? && p in s.attempt.value.projections
    requires Publication.Apply(s, e).log != s.log && IsVersion(s.attempt.value.version)
    requires p.locale == p.page.locale == "en" && p.page.PageType() == p.family && p.state == Released
    ensures Resolve(PersistedReader(Publication.Apply(s, e).db), o, RouteRequest(p.family, "en", p.page.route)) ==
      Some(p)
  {
    PublicationReader.ActivatedPagesAreServed(s, e, p);
  }
}
