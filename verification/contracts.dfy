/** The projection document shared by the publisher, the reader and the locale overlay.
    Fields the modelled code copies without looking at them are kept as one text (`rest`, `body`). */
module Contracts {

  datatype Option<+T> = None | Some(value: T) {
    function GetOr(other: T): T {
      if Some? then value else other
    }
  }

  predicate EndsWith<T(==)>(s: seq<T>, suffix: seq<T>) {
    |suffix| <= |s| && s[|s| - |suffix|..] == suffix
  }

  datatype Family = Hub | Gallery | Entity | Detail

  datatype ReleaseState = Draft | Validated | Released | Superseded | Withdrawn

  datatype IndexState = DiscoverableNoindex | OtherIndexState

  datatype TranslationState = Source | Translated | SourceFallback

  datatype Crumb = Crumb(caption: string, href: string)

  datatype PageLink = PageLink(href: string, body: string)

  datatype MediaType = Image | Video

  /** The part of a page that depends on its `page_type`. */
  datatype PageKind =
    | HubPage
    | GalleryPage(media: MediaType, next: Option<string>, previous: Option<string>)
    | EntityPage
    | DetailPage(detailLocale: string, detailBody: string)

  datatype Page = Page(
    kind: PageKind,
    locale: string,
    route: string,
    indexState: IndexState,
    translation: TranslationState,
    title: string,
    h1: string,
    description: string,
    breadcrumbs: seq<Crumb>,
    links: seq<PageLink>,
    contentHash: string,
    rest: string)
  {
    function PageType(): Family {
      match kind
      case HubPage => Hub
      case GalleryPage(_, _, _) => Gallery
      case EntityPage => Entity
      case DetailPage(_, _) => Detail
    }
  }

  datatype NodeItem = NodeItem(caption: Option<string>, nodeRef: string, href: Option<string>, rest: string)

  datatype SlotItem =
    | Node(node: NodeItem)
    | Card(promptRef: string, promptText: Option<string>, href: Option<string>, tags: seq<NodeItem>, rest: string)

  datatype Slot = Slot(slotKey: string, items: seq<SlotItem>, rest: string)

  datatype Navigation = Navigation(version: string, items: seq<NodeItem>)

  datatype PageProjection = PageProjection(
    projectionId: string,
    pageId: string,
    locale: string,
    family: Family,
    state: ReleaseState,
    page: Page,
    navigation: Navigation,
    slots: seq<Slot>,
    dependencyHash: string,
    contentHash: string,
    linkHash: string,
    schemaHash: string,
    rendererVersion: string,
    validationReport: string)

  datatype RouteRequest = RouteRequest(family: Family, locale: string, route: string)
}
