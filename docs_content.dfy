/** The documentation browser: a fixed registry of nine sections, the
    `section` URL parameter validated against it, the active section and the
    mobile sidebar flag. */
module DocsContent {
  import opened Optional

  /** The members of the `Section` union type. */
  const SectionIds: set<string> := {
    "getting-started", "configuration", "direct-logger", "hooks", "hocs",
    "decorators", "plugins", "performance", "api"
  }

  /** A section identifier. */
  type Section = s: string | s in SectionIds witness "getting-started"

  datatype SectionInfo = SectionInfo(id: Section, title: string, icon: string)

  /** The `sections` registry, in sidebar order. */
  const Registry: seq<SectionInfo> := [
    SectionInfo("getting-started", "Getting Started", "🚀"),
    SectionInfo("configuration", "Configuration", "⚙️"),
    SectionInfo("direct-logger", "Direct Logger Usage", "📝"),
    SectionInfo("hooks", "React Hooks", "🪝"),
    SectionInfo("hocs", "Higher-Order Components", "🎁"),
    SectionInfo("decorators", "Decorators", "🎨"),
    SectionInfo("plugins", "Build Plugins", "🔌"),
    SectionInfo("performance", "Performance Measurement", "⏱️"),
    SectionInfo("api", "API Reference", "📚")
  ]

  const DefaultSection: Section := "getting-started"

  /** `sections.some((s) => s.id === v)` */
  function SomeHasId(rs: seq<SectionInfo>, v: string): (b: bool)
    ensures b <==> exists k :: 0 <= k < |rs| && rs[k].id == v
  {
    if rs == [] then false
    else rs[0].id == v || SomeHasId(rs[1..], v)
  }

  /** The registry holds nine distinct ids, and they are exactly the members
      of the `Section` type. */
  lemma RegistryShape()
    ensures |Registry| == 9
    ensures forall j, k :: 0 <= j < k < |Registry| ==> Registry[j].id != Registry[k].id
    ensures forall s :: s in SectionIds <==> exists k :: 0 <= k < |Registry| && Registry[k].id == s
  {
    forall s | s in SectionIds
      ensures exists k :: 0 <= k < |Registry| && Registry[k].id == s
    {
      var k := RegistryIndex(s);
    }
  }

  /** The position of a section in the registry. */
  function RegistryIndex(s: Section): (k: nat)
    ensures k < |Registry| && Registry[k].id == s
  {
    if s == "getting-started" then 0
    else if s == "configuration" then 1
    else if s == "direct-logger" then 2
    else if s == "hooks" then 3
    else if s == "hocs" then 4
    else if s == "decorators" then 5
    else if s == "plugins" then 6
    else if s == "performance" then 7
    else 8
  }

  /** `urlSection`: the parameter when it is present, non-empty and a
      registered id; otherwise null. Unknown values are not an error. */
  function Resolve(param: Option<string>): (r: Option<Section>)
    ensures r.Some? <==> param.Some? && param.value in SectionIds
    ensures r.Some? ==> r.value == param.value
  {
    RegistryShape();
    if param.Some? && param.value != "" && SomeHasId(Registry, param.value) then
      var id: Section := param.value;
      Some(id)
    else None
  }

  /** The initial active section: `urlSection || "getting-started"`. */
  function InitialSection(param: Option<string>): (s: Section)
    ensures param.Some? && param.value in SectionIds ==> s == param.value
    ensures !(param.Some? && param.value in SectionIds) ==> s == DefaultSection
  {
    var r := Resolve(param);
    if r.Some? then r.value else DefaultSection
  }

  /** The sync effect: adopt the URL's section when it is valid and differs;
      otherwise keep the active one. */
  function Resync(active: Section, url: Option<Section>): (s: Section)
    ensures url.Some? ==> s == url.value
    ensures url.None? ==> s == active
  {
    if url.Some? && url.value != active then url.value else active
  }

  /** The documentation pages the main area can show. */
  datatype ContentUnit =
    | GettingStartedPage | ConfigurationPage | DirectLoggerUsagePage | HooksPage | HOCsPage
    | DecoratorsPage | PluginsPage | PerformanceMeasurementPage | APIReferencePage

  /** The page of each registry entry, in registry order. */
  const Pages: seq<ContentUnit> := [
    GettingStartedPage, ConfigurationPage, DirectLoggerUsagePage, HooksPage, HOCsPage,
    DecoratorsPage, PluginsPage, PerformanceMeasurementPage, APIReferencePage
  ]

  /** The main area: each of the nine conditional renders in turn. */
  function Rendered(active: Section): (units: seq<ContentUnit>)
    ensures |units| == 1
  {
    (if active == "getting-started" then [GettingStartedPage] else []) +
    (if active == "configuration" then [ConfigurationPage] else []) +
    (if active == "direct-logger" then [DirectLoggerUsagePage] else []) +
    (if active == "hooks" then [HooksPage] else []) +
    (if active == "hocs" then [HOCsPage] else []) +
    (if active == "decorators" then [DecoratorsPage] else []) +
    (if active == "plugins" then [PluginsPage] else []) +
    (if active == "performance" then [PerformanceMeasurementPage] else []) +
    (if active == "api" then [APIReferencePage] else [])
  }

  /** Selecting the k-th registered section shows exactly the k-th page. */
  lemma RenderedPage(k: nat)
    requires k < |Registry|
    ensures Rendered(Registry[k].id) == [Pages[k]]
  {
    if k == 0 {} else if k == 1 {} else if k == 2 {} else if k == 3 {} else if k == 4 {}
    else if k == 5 {} else if k == 6 {} else if k == 7 {} else {}
  }

  /** Every section shows exactly one page, and different sections show
      different pages. */
  lemma RenderedDistinct(a: Section, b: Section)
    ensures Rendered(a) == [Pages[RegistryIndex(a)]]
    ensures a != b ==> Rendered(a) != Rendered(b)
  {
    RenderedPage(RegistryIndex(a));
    RenderedPage(RegistryIndex(b));
    RegistryShape();
  }

  /** The state of the documentation page. */
  class DocsPage {
    /** The `section` search parameter the page was last rendered with. */
    var sectionParam: Option<string>
    var activeSection: Section
    var sidebarOpen: bool

    /** First render: the initial section from the URL, sidebar closed. */
    constructor (param: Option<string>)
      ensures sectionParam == param && activeSection == InitialSection(param) && !sidebarOpen
    {
      sectionParam := param;
      activeSection := InitialSection(param);
      sidebarOpen := false;
    }

    /** The close-on-change effect, run after a render in which the active
        section may have changed from `previous`. */
    method CloseIfChanged(previous: Section)
      modifies this`sidebarOpen
      ensures activeSection != previous ==> !sidebarOpen
      ensures activeSection == previous ==> sidebarOpen == old(sidebarOpen)
    {
      if activeSection != previous {
        sidebarOpen := false;
      }
    }

    /** The URL's search parameters change (navigation): when the `section`
        parameter differs, the sync effect runs, then the close effect. */
    method Navigate(param: Option<string>)
      modifies this
      ensures sectionParam == param
      ensures param == old(sectionParam) ==> activeSection == old(activeSection)
      ensures param != old(sectionParam) ==> activeSection == Resync(old(activeSection), Resolve(param))
      ensures activeSection != old(activeSection) ==> !sidebarOpen
      ensures activeSection == old(activeSection) ==> sidebarOpen == old(sidebarOpen)
    {
      var previous := activeSection;
      var changed := param != sectionParam;
      sectionParam := param;
      if changed {
        var urlSection := Resolve(param);
        if urlSection.Some? && urlSection.value != activeSection {
          activeSection := urlSection.value;
        }
      }
      CloseIfChanged(previous);
    }

    /** A click on a sidebar entry. */
    method SelectSection(s: Section)
      modifies this
      ensures activeSection == s && sectionParam == old(sectionParam)
      ensures s != old(activeSection) ==> !sidebarOpen
      ensures s == old(activeSection) ==> sidebarOpen == old(sidebarOpen)
    {
      var previous := activeSection;
      activeSection := s;
      CloseIfChanged(previous);
    }

    /** The menu button. */
    method ToggleSidebar()
      modifies this`sidebarOpen
      ensures sidebarOpen == !old(sidebarOpen)
    {
      sidebarOpen := !sidebarOpen;
    }

    /** A click on the overlay shown behind the open sidebar. */
    method CloseSidebar()
      modifies this`sidebarOpen
      ensures !sidebarOpen
    {
      sidebarOpen := false;
    }
  }
}
