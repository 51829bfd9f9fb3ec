# Portfolio site: navigation and background state, modelled in Dafny

This project models the stateful core of a single-page portfolio site
written in React. The site has a full-screen start gate, a menu over five
sections (Home, About, Projects, Resume, Contact), a Projects panel that
drills into one of three projects, a Resume panel with four tabs, and an
animated background of floating bubbles.

Every stateful React component (App, Menu, Projects, Background, Resume)
becomes a Dafny class. Its fields are the component's `useState` cells and
refs, and every handler, effect or timer callback becomes a method called
as an explicit event. The stateless `Section` component is the pure
function `Section.FrameOf`. The logic the handlers use (table
lookups, the title switch, the list/detail branch, the bubble list updates)
is written as pure functions. The properties the site relies on are proved
about those functions.

- `Js` (`js.dfy`): the JavaScript built-ins the components use, with their
  edge cases. It covers null, truthiness of an optional string, `find`,
  `findIndex`, one-argument `slice` with negative starts, `slice(0, n)`,
  and index assignment past the end of an array.
- `App` (`app.dfy`): the root component. `AppState`, `Event` and `Next` form
  a pure state machine with `Run` over event sequences. The class
  `AppComponent` has one method per handler, each proved to perform one
  `Next` step.
- `Menu` (`menu.dfy`): the highlight effect, the item refs, and item clicks.
- `Section` (`section.dfy`): the section title and the screenshot panel.
- `Projects` (`projects.dfy`): the catalogue, the selection, and the reports
  sent to the parent through `onProjectSelect`.
- `Background` (`background.dfy`): the bubble list, the initial batch, the
  tick, and the prune.
- `Resume` (`resume.dfy`): the tab state and which panel is rendered.

Modelling choices:

- A call of the parent's `onProjectSelect` callback is returned as a report.
  `None` means the callback was not called; `Some(d)` means it was called
  with `d`. `App.Deliver` applies a report to the root state.
- Each `Math.random()` draw is a parameter: a real number in [0, 1). A
  bubble's id is passed in ready-made.
- The browser's element measurements are the fields of an opaque `Element`
  value.
- The root's 1000 ms timeout is the event `TimerFires`. `pendingTimers`
  counts the timeouts scheduled but not yet run.

In a few places the evident intent and the code disagree. The model
follows the code; each item below states the intent and what the code
does:

- Intended: an unknown section id is rejected and leaves the state as it
  was. The code's `setActiveSection` stores any id. Its callers are the
  menu, always with one of the five ids, and the 1000 ms timeout, with
  `home`.
- Intended: the deferred `home` should not replace a section chosen in the
  meantime, although simply overwriting it is also called acceptable. The
  code overwrites it, and the model takes that reading
  (`App.TimerOverwritesChoice`).
- Intended: project data is held only while the Projects section is
  active. The code breaks this (`App.ProjectDataOutlivesSection`).
  When the user returns to Projects from another section, the section is
  mounted anew with the Projects panel as its content, and the frame still
  shows the old project's screenshot (`App.StaleScreenshotOnReturn`). The
  new panel starts with nothing selected
  (`Projects.ProjectsComponent.constructor`), so it shows the list
  (`Projects.ProjectsComponent.CurrentView`).
- Intended: after the initial 30 bubbles, the 21st tick prunes the list
  to the 40 most recent. The prune as written never runs. With the guard reading the
  current length (the pre-append count), the 21st tick gives 51 bubbles and
  the 22nd prunes to the 40 most recent (`Background.IntendedScenario`).
- Intended: the key and click listeners are attached only before the
  start. The code attaches the click handler only before the
  start, but re-attaches the key listener after it. After the start the key
  listener's `handleStart` does nothing (`App.StartIdempotent`).

## Model

| member | source | states |
|---|---|---|
| `Js.FindIndex` | src/Menu.jsx:150 | `findIndex` gives -1 exactly when no element matches; otherwise it gives the first matching index |
| `Js.Find` | src/App.jsx:130 | `find` is undefined exactly when no element matches; otherwise it gives the first matching element |
| `Js.FindUnique` | src/Projects.jsx:340 | when only element `i` matches, `find` returns element `i` and `findIndex` returns `i` |
| `Js.SliceFrom` | src/Background.jsx:80 | one-argument `slice` always returns a suffix; a negative start counts back from the end, and a start past the end gives `[]` |
| `Js.SliceTo` | src/Menu.jsx:144 | `slice(0, n)` returns the first `min(n, length)` elements |
| `Js.Assign` | src/Menu.jsx:193 | `a[i] = v` stores `v` at `i`, keeps the other entries, and pads new holes with undefined |
| `Projects.CatalogueWellFormed` | src/Projects.jsx:272-321 | the catalogue has three entries with distinct non-empty ids, non-empty titles and a screenshot each |
| `Projects.LookupExact` | src/Projects.jsx:340 | the lookup succeeds exactly for catalogue ids, and it returns the unique record with that id |
| `Projects.SelectReport` | src/Projects.jsx:323-330 | the callback is called only when it exists and the id is in the catalogue, and then with that record |
| `Projects.UnknownSelection` | src/Projects.jsx:323-345 | an id outside the catalogue is stored but not reported to the parent, and it opens the detail view with no record; the empty id keeps the list |
| `Projects.ViewOfCatalogueSelection` | src/Projects.jsx:380-414 | for a selection made by clicking a card, the list is shown exactly when nothing is selected, and the detail view always finds the record with the selected id |
| `Projects.ProjectsComponent.constructor` | src/Projects.jsx:270 | the selection starts as null on every mount |
| `Projects.ProjectsComponent.HandleSelectProject` | src/Projects.jsx:323-330 | stores the id and returns the report `SelectReport` describes |
| `Projects.ProjectsComponent.ClickCard` | src/Projects.jsx:371-380 | a card click selects that project's id, keeps the selection within the catalogue, and reports that record when the callback exists |
| `Projects.ProjectsComponent.HandleBackToList` | src/Projects.jsx:332-338 | clears the selection, so the panel shows the list again, and calls the callback with null exactly when it exists |
| `Projects.ProjectsComponent.CurrentView` | src/Projects.jsx:345-414 | in every reachable state the list is shown exactly when nothing is selected, and the detail view's record has the selected id |
| `Section.SectionTitle` | src/Section.jsx:226-235 | each of the five ids maps to its title, and every other id maps to `''` |
| `Section.TitleNonEmptyIffKnown` | src/Section.jsx:226-235 | the title is non-empty exactly when the id is one of the five |
| `Section.FrameOf` | src/Section.jsx:237-276 | the screenshot panel is shown exactly when the section is `projects` and project data is present; the content panel's flag agrees with it |
| `Section.CatalogueRecordsShowTitle` | src/Section.jsx:251-262 | for a catalogue record, the Projects frame shows the panel labelled with the project's title |
| `Background.CreateBubble` | src/Background.jsx:43-60 | every attribute lies in its drawn range; colour and glow are both blue or both white, chosen by the same draw |
| `Background.ColourMatchesGlow` | src/Background.jsx:48-58 | colour and glow are never mixed |
| `Background.InitialBatch` | src/Background.jsx:68 | the initial batch has exactly 30 bubbles, one per draw |
| `Background.Prune` | src/Background.jsx:80 | the prune keeps a suffix, and exactly 40 bubbles when there are at least 40 |
| `Background.TickStep` | src/Background.jsx:73-80 | whatever the guard reads, a tick leaves the most recent bubbles in creation order, ending with the new one; without a prune it loses none, and a prune of 40 or more bubbles leaves exactly 40 |
| `Background.TickKeepsMostRecent` | src/Background.jsx:73-80 | a tick without a prune is exactly an append of the new bubble; a prune of 40 or more bubbles leaves exactly the last 40 of the appended list |
| `Background.AsWrittenKeepsEverything` | src/Background.jsx:64-85 | as written, after N ticks the list is the starting list followed by every new bubble, so its length is 30 + N |
| `Background.AsWrittenGrowsWithoutBound` | src/Background.jsx:79-80 | as written, 22 ticks from the initial batch give 52 bubbles, above the bound the prune is meant to keep |
| `Background.IntendedStaysBounded` | src/Background.jsx:79-80 | with the guard reading the current length, the list never exceeds 51 bubbles and always holds the most recent bubbles, in order |
| `Background.IntendedKeepsMostRecent` | src/Background.jsx:73-80 | from any starting list, the intended ticks keep the most recent bubbles in creation order: a suffix of everything created |
| `Background.IntendedScenario` | src/Background.jsx:72-80 | from 30 bubbles, 21 intended ticks prune nothing, and the 22nd leaves the 40 most recent |
| `Background.BackgroundComponent.constructor` | src/Background.jsx:64 | the first render has no bubbles and no interval |
| `Background.BackgroundComponent.Mount` | src/Background.jsx:67-72 | the mount effect installs the 30-bubble batch, starts the interval, and captures the first render's empty list |
| `Background.BackgroundComponent.Tick` | src/Background.jsx:72-82 | the callback as written is a `TickStep` whose guard reads the captured list |
| `Background.BackgroundComponent.TickIntended` | src/Background.jsx:79-80 | the corrected callback is a `TickStep` whose guard reads the current length, and it keeps the 51-bubble bound |
| `Background.BackgroundComponent.Unmount` | src/Background.jsx:84 | the cleanup stops the interval |
| `Resume.RenderedPanels` | src/Resume.jsx:257-479 | at most one panel renders, and only the one whose key equals the active tab |
| `Resume.ExactlyOnePanel` | src/Resume.jsx:234-239 | for each of the four tab ids exactly that panel renders; for any other id none does |
| `Resume.ExactlyOneButtonActive` | src/Resume.jsx:244-248 | for a tab among the four, exactly one button is marked active |
| `Resume.ResumeComponent.constructor` | src/Resume.jsx:232 | the active tab starts as `experience` |
| `Resume.ResumeComponent.ClickTab` | src/Resume.jsx:248 | a click sets the active tab to that button's id, which is always one of the four |
| `Resume.ResumeComponent.Panel` | src/Resume.jsx:258-446 | in every reachable state exactly one panel renders, the active tab's |
| `Menu.HighlightTarget` | src/Menu.jsx:148-160 | the highlight moves only for a truthy section with a non-empty ref array, and then to the first item with that id whose element is mounted |
| `Menu.SelectingItemTargetsIt` | src/Menu.jsx:149-157 | with distinct ids, activating item `i` moves the highlight to `i` when its element is mounted |
| `Menu.ExactlyOneItemActive` | src/Menu.jsx:195 | with distinct ids, activating item `k` marks `k` and no other item |
| `Menu.MenuComponent.constructor` | src/Menu.jsx:138-140 | the highlight starts at (0, 0), the active index at 0, and the refs empty |
| `Menu.MenuComponent.AttachRef` | src/Menu.jsx:193 | the ref callback stores the element (or null) at the item's index |
| `Menu.MenuComponent.TrimRefs` | src/Menu.jsx:143-145 | the ref array is cut to at most one entry per item, keeping its prefix |
| `Menu.MenuComponent.HighlightEffect` | src/Menu.jsx:148-160 | when a target exists, the highlight takes that element's offsets and the active index becomes the target; otherwise both stay unchanged |
| `Menu.MenuComponent.Click` | src/Menu.jsx:194 | a click asks for that item's id and changes nothing in the menu |
| `App.MenuItemsWellFormed` | src/App.jsx:92-98 | the menu ids are the five section ids, non-empty and distinct |
| `App.Next` | src/App.jsx:101-126 | only `Start` sets `started`; a second start changes nothing; the timeout sets `home`; the blur effect makes blur equal "section is open"; only the callback writes the project data |
| `App.StartedStaysTrue` | src/App.jsx:101-109 | once started, every run of events stays started |
| `App.TimerInvariantHolds` | src/App.jsx:101-108 | at most one timeout is ever outstanding, and none before the start |
| `App.StartIdempotent` | src/App.jsx:101-102 | starting twice has the effect of starting once |
| `App.TimerOverwritesChoice` | src/App.jsx:105-107 | a section chosen before the timeout runs is overwritten by `home` |
| `App.LastSelectionWins` | src/App.jsx:182-186 | after menu selections, the active section is the last id selected and the project data is unchanged |
| `App.Deliver` | src/App.jsx:124-126 | a report stores its data verbatim without touching the section, and no report changes nothing |
| `App.SelectThenBack` | src/Projects.jsx:323-338 | selecting a catalogue project and going back leaves the parent holding null and keeps the section |
| `App.ActiveComponent` | src/App.jsx:129-141 | no component when the section matches no menu id; otherwise that entry's component, given the callback exactly for `projects` |
| `App.ActiveComponentOfItem` | src/App.jsx:129-141 | each menu id renders its own component, and only Projects gets the callback |
| `App.MenuClickHighlightsItem` | src/Menu.jsx:148-160 | a click on item `i`, handled by the root and the menu effect, highlights `i` and marks only `i` active |
| `App.ScreenOf` | src/App.jsx:143-202 | the start prompt and the container click exist exactly before the start; the menu exists after it; the section frame appears exactly when started with a truthy section, and it always holds the active component |
| `App.SectionStaysMenuId` | src/App.jsx:101-109 | when every navigation is a menu click, the active section stays null or one of the menu ids |
| `App.HighlightBarIffSection` | src/Menu.jsx:170 | from the initial state, with navigation only through the menu, the highlight bar is present exactly when a section is active |
| `App.ProjectDataOutlivesSection` | src/App.jsx:182-194 | after selecting a project and moving to About, the project record is still held |
| `App.StaleScreenshotOnReturn` | src/App.jsx:189-196 | coming back to Projects from another section, the section key changes, the content is the Projects panel with the callback, and the frame still shows the old project's screenshot panel |
| `App.AppComponent.constructor` | src/App.jsx:87-90 | the root starts not started, with no section, no blur and no project data |
| `App.AppComponent.HandleStart` | src/App.jsx:101-109 | one `Start` step: sets `started` and schedules one timeout, or does nothing once started |
| `App.AppComponent.ContainerClick` | src/App.jsx:144 | the container click acts only before the start, with the effect of `Start` |
| `App.AppComponent.FireTimer` | src/App.jsx:105-107 | the timeout sets the active section to `home` |
| `App.AppComponent.SetActiveSection` | src/App.jsx:88 | stores the id and leaves the project data as it was |
| `App.AppComponent.BlurEffect` | src/App.jsx:119-121 | after the effect, blur holds exactly when a section is set |
| `App.AppComponent.HandleProjectSelect` | src/App.jsx:124-126 | stores its argument verbatim |
| `App.AppComponent.GetActiveComponent` | src/App.jsx:129-141 | the lookup of the current section in the `menuItems` table |

## Left out

- Styled-components CSS, framer-motion variants, transitions and
  `AnimatePresence` exit timing: declarative presentation with no state.
- Real time: the 1000 ms `setTimeout` and the 2000 ms `setInterval` are the
  events `TimerFires` and `Tick`.
- The timeout is never cancelled. The root never unmounts, so the model has
  no unmount for it.
- Adding and removing the window `keydown` listener: browser plumbing. A key
  press is a call of `HandleStart`.
- DOM measurement (`offsetTop`, `offsetHeight`): an element's offsets are
  taken as given values.
- `Math.random` and the base-36 id: each draw is a parameter in [0, 1), and
  the id is passed in. Nothing makes bubble ids unique, so the model claims
  nothing about uniqueness.
- Floating point: `random(min, max)` is computed over reals, so rounding
  at the top of a range is not modelled.
- React's batching and rendering order: each handler, effect and callback
  is one atomic event. The relative order of events is the caller's choice.
- The Projects catalogue keeps only `id`, `title` and `image`. The other
  fields (descriptions, tags, features, technologies, challenges) and the
  resume text are static content that no logic reads.
- The Contact form (its submit handler only prevents the default and logs),
  Home, About and the React root render in `index.jsx`: no logic.

## Findings

| source | as written | input that shows it | evidently intended | confidence | as-written member | corrected member |
|---|---|---|---|---|---|---|
| src/Background.jsx:79 | the guard `bubbles.length > 50` reads the `bubbles` captured by the mount-time interval (`[]`, because the effect's dependency list is empty), so the prune never runs and the list grows by one every tick | 22 ticks after the initial 30 bubbles leave 52 bubbles, and the count keeps growing | prune to the 40 most recent bubbles once the current list exceeds 50, keeping it at most 51 | high (not executed) | `Background.AsWrittenGrowsWithoutBound` | `Background.IntendedStaysBounded` |
