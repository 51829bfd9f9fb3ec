/** The root component: the start gate, the active section, the background
    blur that follows it, and the project record shown beside the Projects
    section. Its state changes as a machine over discrete events; the 1000 ms
    timeout is the `TimerFires` event. */
module App {
  import opened Js
  import opened Projects
  import opened Section
  import opened Menu

  /** The content component bound to each menu entry. */
  datatype Component = HomePanel | AboutPanel | ProjectsPanel | ResumePanel | ContactPanel

  /** The `menuItems` table. */
  const MenuItems: seq<MenuItem<Component>> :=
    [ MenuItem("home", "HOME", HomePanel), MenuItem("about", "ABOUT", AboutPanel),
      MenuItem("projects", "PROJECTS", ProjectsPanel), MenuItem("resume", "RESUME", ResumePanel),
      MenuItem("contact", "CONTACT", ContactPanel) ]

  /** The menu ids are non-empty, distinct, and the five section ids. */
  lemma MenuItemsWellFormed()
    ensures |MenuItems| == |KnownIds| && DistinctIds(MenuItems)
    ensures forall i :: 0 <= i < |MenuItems| ==> MenuItems[i].id == KnownIds[i] && MenuItems[i].id != ""
  {
  }

  /** The four `useState` cells, and the number of scheduled timeouts that
      have not fired yet. */
  datatype AppState = AppState(started: bool, activeSection: Option<string>, blurBackground: bool,
                               currentProjectData: Option<Project>, pendingTimers: nat)

  const Init := AppState(false, None, false, None, 0)

  /** The events that change the root state:
      `Start` is `handleStart` (any key, or a click on the container);
      `TimerFires` is the timeout it scheduled running;
      `Navigate(id)` is `setActiveSection(id)` as called by the menu;
      `BlurEffect` is the effect on `[activeSection]`;
      `ProjectSelected(d)` is `handleProjectSelect(d)`. */
  datatype Event = Start | TimerFires | Navigate(id: string) | BlurEffect
                 | ProjectSelected(data: Option<Project>)

  /** The blur flag agrees with the active section, as the blur effect
      leaves it. */
  predicate Settled(s: AppState) {
    s.blurBackground == s.activeSection.Some?
  }

  function Next(s: AppState, e: Event): (t: AppState)
    // `started` only ever becomes true, and only `Start` sets it.
    ensures t.started == (s.started || e.Start?)
    // Once started, `Start` changes nothing: no second timeout.
    ensures e.Start? && s.started ==> t == s
    ensures e.Start? && !s.started ==>
      t.pendingTimers == s.pendingTimers + 1 && t.activeSection == s.activeSection
    // The timeout sets 'home' whatever section is active by then.
    ensures e.TimerFires? && 0 < s.pendingTimers ==>
      t.activeSection == Some("home") && t.pendingTimers == s.pendingTimers - 1
    ensures e.Navigate? ==> t.activeSection == Some(e.id)
    ensures !(e.Navigate? || e.TimerFires?) ==> t.activeSection == s.activeSection
    ensures e.BlurEffect? ==> Settled(t)
    ensures !e.BlurEffect? ==> t.blurBackground == s.blurBackground
    // Only the project callback writes the project data; navigation keeps it.
    ensures t.currentProjectData == if e.ProjectSelected? then e.data else s.currentProjectData
  {
    match e
    case Start =>
      if s.started then s else s.(started := true, pendingTimers := s.pendingTimers + 1)
    case TimerFires =>
      if s.pendingTimers == 0 then s
      else s.(activeSection := Some("home"), pendingTimers := s.pendingTimers - 1)
    case Navigate(id) => s.(activeSection := Some(id))
    case BlurEffect => s.(blurBackground := s.activeSection.Some?)
    case ProjectSelected(data) => s.(currentProjectData := data)
  }

  /** The state after a sequence of events. */
  function Run(s: AppState, events: seq<Event>): AppState
    decreases |events|
  {
    if events == [] then s else Run(Next(s, events[0]), events[1..])
  }

  /** When an event can happen: the menu (and so `Navigate`) exists only
      once started, and the project callback is handed to the Projects
      panel only while the active section is 'projects'. */
  predicate Enabled(s: AppState, e: Event) {
    match e
    case Navigate(_) => s.started
    case ProjectSelected(_) => s.started && s.activeSection == Some("projects")
    case _ => true
  }

  predicate EnabledRun(s: AppState, events: seq<Event>)
    decreases |events|
  {
    events == [] || (Enabled(s, events[0]) && EnabledRun(Next(s, events[0]), events[1..]))
  }

  /** `started` never returns to false. */
  lemma {:induction false} StartedStaysTrue(s: AppState, events: seq<Event>)
    requires s.started
    ensures Run(s, events).started
    decreases |events|
  {
    if events != [] {
      StartedStaysTrue(Next(s, events[0]), events[1..]);
    }
  }

  /** At most one timeout is ever outstanding, and none before the start. */
  predicate TimerInvariant(s: AppState) {
    s.pendingTimers <= 1 && (!s.started ==> s.pendingTimers == 0)
  }

  lemma {:induction false} TimerInvariantHolds(s: AppState, events: seq<Event>)
    requires TimerInvariant(s)
    ensures TimerInvariant(Run(s, events))
    decreases |events|
  {
    if events != [] {
      TimerInvariantHolds(Next(s, events[0]), events[1..]);
    }
  }

  /** Starting twice is starting once. */
  lemma StartIdempotent(s: AppState)
    ensures Run(s, [Start, Start]) == Run(s, [Start])
    ensures Run(s, [Start]).started
  {
    assert Run(s, [Start, Start]) == Next(Next(s, Start), Start);
  }

  /** The deferred 'home' is not guarded: a section chosen between the start
      and the timeout is overwritten. */
  lemma TimerOverwritesChoice(chosen: string)
    requires chosen != "home"
    ensures EnabledRun(Init, [Start, Navigate(chosen), TimerFires])
    ensures Run(Init, [Start, Navigate(chosen)]).activeSection == Some(chosen)
    ensures Run(Init, [Start, Navigate(chosen), TimerFires]).activeSection == Some("home")
  {
    var events := [Start, Navigate(chosen), TimerFires];
    var s1 := Next(Init, Start);
    var s2 := Next(s1, Navigate(chosen));
    assert events[1..] == [Navigate(chosen), TimerFires] && events[1..][1..] == [TimerFires];
    RunOne(s2, TimerFires);
    RunOne(s1, Navigate(chosen));
    assert Run(s1, events[1..]) == Run(s2, [TimerFires]);
    assert EnabledRun(s2, [TimerFires]);
    assert [Start, Navigate(chosen)][1..] == [Navigate(chosen)];
  }

  /** A run of one event is that event's step. */
  lemma RunOne(s: AppState, e: Event)
    ensures Run(s, [e]) == Next(s, e)
    ensures EnabledRun(s, [e]) == Enabled(s, e)
  {
    assert [e][1..] == [];
  }

  predicate AllNavigations(events: seq<Event>) {
    forall i :: 0 <= i < |events| ==> events[i].Navigate?
  }

  /** After a sequence of menu selections the active section is the last
      one selected, and the project data is what it was. */
  lemma {:induction false} LastSelectionWins(s: AppState, events: seq<Event>)
    requires events != [] && AllNavigations(events)
    ensures Run(s, events).activeSection == Some(events[|events| - 1].id)
    ensures Run(s, events).currentProjectData == s.currentProjectData
    decreases |events|
  {
    var t := Next(s, events[0]);
    if |events| > 1 {
      assert AllNavigations(events[1..]) by {
        forall i | 0 <= i < |events[1..]| ensures events[1..][i].Navigate? {
          assert events[1..][i] == events[i + 1];
        }
      }
      LastSelectionWins(t, events[1..]);
      assert events[1..][|events[1..]| - 1] == events[|events| - 1];
    }
  }

  /** The parent side of `onProjectSelect`: apply a report from the panel. */
  function Deliver(s: AppState, report: Report): (t: AppState)
    ensures t.activeSection == s.activeSection && t.started == s.started
    ensures report.Some? ==> t.currentProjectData == report.value
    ensures report.None? ==> t == s
  {
    if report.Some? then Next(s, ProjectSelected(report.value)) else s
  }

  /** Selecting a project and going back leaves the parent holding null
      and the section unchanged. */
  lemma SelectThenBack(s: AppState, id: string)
    requires id in (set p | p in Catalogue() :: p.id)
    ensures Deliver(s, SelectReport(id, true)).currentProjectData.Some?
    ensures Deliver(Deliver(s, SelectReport(id, true)), BackReport(true)).currentProjectData == None
    ensures Deliver(Deliver(s, SelectReport(id, true)), BackReport(true)).activeSection == s.activeSection
  {
    var p :| p in Catalogue() && p.id == id;
    var i :| 0 <= i < |Catalogue()| && Catalogue()[i] == p;
    assert SelectReport(id, true).Some?;
  }

  /** What `getActiveComponent()` renders: the component and whether it is
      handed `onProjectSelect`. */
  datatype Rendered = Rendered(component: Component, onProjectSelect: bool)

  function ActiveComponent(activeSection: Option<string>): (r: Option<Rendered>)
    ensures r.None? <==> forall i :: 0 <= i < |MenuItems| ==> activeSection != Some(MenuItems[i].id)
    ensures r.Some? ==> exists i :: 0 <= i < |MenuItems| && activeSection == Some(MenuItems[i].id) &&
                                    r.value.component == MenuItems[i].component
    ensures r.Some? ==> (r.value.onProjectSelect <==> activeSection == Some("projects"))
  {
    var item := Find(MenuItems, (it: MenuItem<Component>) => activeSection == Some(it.id));
    if item.None? then None
    else Some(Rendered(item.value.component, activeSection == Some("projects")))
  }

  /** Each menu id renders its own component; only Projects gets the
      callback. */
  lemma ActiveComponentOfItem(i: nat)
    requires i < |MenuItems|
    ensures ActiveComponent(Some(MenuItems[i].id)) ==
      Some(Rendered(MenuItems[i].component, MenuItems[i].component == ProjectsPanel))
  {
    MenuItemsWellFormed();
    var active := Some(MenuItems[i].id);
    FindUnique(MenuItems, (it: MenuItem<Component>) => active == Some(it.id), i);
  }

  /** A menu click on item `i`, handled by the root and then by the menu's
      effect, moves the highlight to item `i` once its element is mounted,
      and `i` is the only item marked active. */
  lemma MenuClickHighlightsItem(s: AppState, i: nat, refs: seq<Option<Element>>)
    requires i < |MenuItems| && i < |refs| && refs[i].Some?
    ensures var t := Next(s, Navigate(MenuItems[i].id));
      HighlightTarget(MenuItems, refs, t.activeSection) == Some(i) &&
      forall j :: 0 <= j < |MenuItems| ==> (ItemActive(MenuItems, t.activeSection, j) <==> j == i)
  {
    MenuItemsWellFormed();
    SelectingItemTargetsIt(MenuItems, refs, i);
    ExactlyOneItemActive(MenuItems, i);
  }

  /** What the root renders. */
  datatype Screen = Screen(startPrompt: bool, containerClickAttached: bool, backgroundBlurred: bool,
                           menuShown: bool, section: Option<Frame>, content: Option<Rendered>)

  function ScreenOf(s: AppState): (v: Screen)
    ensures v.startPrompt == v.containerClickAttached == !s.started
    ensures v.menuShown == s.started && v.backgroundBlurred == s.blurBackground
    ensures v.section.Some? <==> s.started && Truthy(s.activeSection)
    ensures v.section.Some? ==> v.section.value == FrameOf(s.activeSection.value, s.currentProjectData)
    ensures v.content == if v.section.Some? then ActiveComponent(s.activeSection) else None
  {
    var open := s.started && Truthy(s.activeSection);
    Screen(!s.started, !s.started, s.blurBackground, s.started,
           if open then Some(FrameOf(s.activeSection.value, s.currentProjectData)) else None,
           if open then ActiveComponent(s.activeSection) else None)
  }

  /** Leaving Projects does not clear the project data: after selecting a
      project and moving to About, the record is still held although
      Projects is not the active section. */
  lemma ProjectDataOutlivesSection(p: Project)
    requires p in Catalogue()
    ensures var events := [Start, TimerFires, Navigate("projects"), ProjectSelected(Some(p)), Navigate("about")];
      EnabledRun(Init, events) &&
      Run(Init, events).currentProjectData == Some(p) &&
      Run(Init, events).activeSection == Some("about")
  {
    var events := [Start, TimerFires, Navigate("projects"), ProjectSelected(Some(p)), Navigate("about")];
    var s1 := Next(Init, Start);
    var s2 := Next(s1, TimerFires);
    var s3 := Next(s2, Navigate("projects"));
    var s4 := Next(s3, ProjectSelected(Some(p)));
    var e1 := events[1..];
    var e2 := e1[1..];
    var e3 := e2[1..];
    var e4 := e3[1..];
    assert e1 == [TimerFires, Navigate("projects"), ProjectSelected(Some(p)), Navigate("about")];
    assert e2 == [Navigate("projects"), ProjectSelected(Some(p)), Navigate("about")];
    assert e3 == [ProjectSelected(Some(p)), Navigate("about")];
    assert e4 == [Navigate("about")];
    RunOne(s4, Navigate("about"));
    assert Run(s3, e3) == Run(s4, e4) && EnabledRun(s3, e3);
    assert Run(s2, e2) == Run(s3, e3) && EnabledRun(s2, e2);
    assert Run(s1, e1) == Run(s2, e2) && EnabledRun(s1, e1);
    assert Run(Init, events) == Run(s1, e1) && EnabledRun(Init, events);
  }

  /** Returning to Projects from another section while project data is
      still held: the section's key (`activeSection`) changes, so the section
      and its content are mounted anew, and the content is the Projects
      panel with the callback; the frame still shows the old project's
      screenshot panel. */
  lemma StaleScreenshotOnReturn(s: AppState, p: Project)
    requires s.started && s.currentProjectData == Some(p) && p in Catalogue()
    requires s.activeSection != Some("projects")
    ensures var t := Next(s, Navigate("projects"));
      t.activeSection != s.activeSection &&
      ScreenOf(t).section == Some(Frame("Projects", Some(p.title), true)) &&
      ScreenOf(t).content == Some(Rendered(ProjectsPanel, true))
  {
    CatalogueRecordsShowTitle(p);
    ActiveComponentOfItem(2);
  }

  /** The section ids a root event can set: the menu's own ids (`home`
      included, which the timeout sets). */
  predicate IsMenuId(id: string) {
    exists i :: 0 <= i < |MenuItems| && MenuItems[i].id == id
  }

  /** Every `Navigate` in the run comes from a menu click, so it carries a
      menu id. */
  predicate MenuNavigations(events: seq<Event>) {
    forall i :: 0 <= i < |events| && events[i].Navigate? ==> IsMenuId(events[i].id)
  }

  predicate SectionIsMenuId(s: AppState) {
    s.activeSection.None? || IsMenuId(s.activeSection.value)
  }

  /** When every navigation comes from the menu, the active section is
      only ever null or one of the menu ids. */
  lemma {:induction false} SectionStaysMenuId(s: AppState, events: seq<Event>)
    requires SectionIsMenuId(s) && MenuNavigations(events)
    ensures SectionIsMenuId(Run(s, events))
    decreases |events|
  {
    if events != [] {
      assert MenuItems[0].id == "home";
      assert MenuNavigations(events[1..]) by {
        forall i | 0 <= i < |events[1..]| && events[1..][i].Navigate?
          ensures IsMenuId(events[1..][i].id)
        {
          assert events[1..][i] == events[i + 1];
        }
      }
      SectionStaysMenuId(Next(s, events[0]), events[1..]);
    }
  }

  /** From the initial state, whatever the menu and the timeout do, the
      highlight bar is present exactly when a section is active: a menu id
      is never the falsy empty string. */
  lemma HighlightBarIffSection(events: seq<Event>)
    requires MenuNavigations(events)
    ensures var t := Run(Init, events);
      HighlightShown(t.activeSection) <==> t.activeSection.Some?
  {
    SectionStaysMenuId(Init, events);
    MenuItemsWellFormed();
  }

  /** The root component itself; each handler is the matching `Next` step. */
  class AppComponent {
    var started: bool
    var activeSection: Option<string>
    var blurBackground: bool
    var currentProjectData: Option<Project>
    var pendingTimers: nat

    function State(): AppState
      reads this
    {
      AppState(started, activeSection, blurBackground, currentProjectData, pendingTimers)
    }

    constructor ()
      ensures State() == Init
      ensures !started && activeSection == None && !blurBackground && currentProjectData == None
    {
      started, activeSection, blurBackground, currentProjectData := false, None, false, None;
      pendingTimers := 0;
    }

    /** `handleStart`: a guarded one-shot that schedules the timeout. */
    method HandleStart()
      modifies this
      ensures State() == Next(old(State()), Start)
      ensures started
      ensures old(started) ==> State() == old(State())
    {
      if !started {
        started := true;
        pendingTimers := pendingTimers + 1;
      }
    }

    /** The container's `onClick`, attached only while not started. */
    method ContainerClick()
      modifies this
      ensures State() == Next(old(State()), Start)
    {
      if !started {
        HandleStart();
      }
    }

    /** One scheduled timeout runs `setActiveSection('home')`. */
    method FireTimer()
      requires pendingTimers > 0
      modifies this
      ensures State() == Next(old(State()), TimerFires)
      ensures activeSection == Some("home")
    {
      activeSection := Some("home");
      pendingTimers := pendingTimers - 1;
    }

    /** `setActiveSection(id)`, as the menu calls it. */
    method SetActiveSection(id: string)
      modifies this`activeSection
      ensures State() == Next(old(State()), Navigate(id))
      ensures activeSection == Some(id) && currentProjectData == old(currentProjectData)
    {
      activeSection := Some(id);
    }

    /** The effect on `[activeSection]`. */
    method BlurEffect()
      modifies this`blurBackground
      ensures State() == Next(old(State()), Event.BlurEffect)
      ensures Settled(State())
    {
      blurBackground := activeSection != None;
    }

    /** `handleProjectSelect(projectData)`: stores its argument verbatim. */
    method HandleProjectSelect(projectData: Option<Project>)
      modifies this`currentProjectData
      ensures State() == Next(old(State()), ProjectSelected(projectData))
      ensures currentProjectData == projectData
    {
      currentProjectData := projectData;
    }

    /** `getActiveComponent()` in the current state. */
    function GetActiveComponent(): (r: Option<Rendered>)
      reads this
      ensures r == ActiveComponent(activeSection)
      ensures r.None? <==> forall i :: 0 <= i < |MenuItems| ==> activeSection != Some(MenuItems[i].id)
    {
      ActiveComponent(activeSection)
    }
  }
}
