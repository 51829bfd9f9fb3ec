/** The Projects panel: a static catalogue of three projects, a local
    `selectedProject` id that switches between the list view and the detail
    view, and the reports it sends to its parent through `onProjectSelect`. */
module Projects {
  import opened Js

  /** A catalogue record, reduced to the fields the logic reads: the id the
      lookups compare, the title shown in the detail view and on the image
      label, and the screenshot URL (absent counts as no image). */
  datatype Project = Project(id: string, title: string, image: Option<string>)

  /** `projectData.image` used as a condition. */
  predicate HasImage(p: Project) {
    Truthy(p.image)
  }

  const ExploreTorontoImage := "https://github.com/user-attachments/assets/4c5252b0-7ec1-4fac-8f45-f42295f4a584"
  const ClipshareImage := "https://github.com/user-attachments/assets/3dd91985-422e-448f-b69b-1424d9c364b3"
  const WeatherlyImage := "https://github.com/user-attachments/assets/7e4c95b2-68b7-428d-a671-0df79ab7c02f"

  /** The `projects` array, in display order. */
  function Catalogue(): seq<Project> {
    [ Project("exploreToronto", "Explore Toronto - Full-Stack Application", Some(ExploreTorontoImage)),
      Project("clipshare", "ClipShare Library - Video Processing Service", Some(ClipshareImage)),
      Project("weatherly", "Weatherly - A Machine Learning Meteorologist", Some(WeatherlyImage)) ]
  }

  /** Catalogue ids are non-empty and pairwise distinct, and every entry has
      a title and a screenshot. */
  lemma CatalogueWellFormed()
    ensures |Catalogue()| == 3
    ensures forall i, j :: 0 <= i < j < |Catalogue()| ==> Catalogue()[i].id != Catalogue()[j].id
    ensures forall i :: 0 <= i < |Catalogue()| ==>
      Catalogue()[i].id != "" && Catalogue()[i].title != "" && HasImage(Catalogue()[i])
  {
  }

  /** `projects.find(p => p.id === id)`. */
  function Lookup(id: string): Option<Project> {
    Find(Catalogue(), (p: Project) => p.id == id)
  }

  /** Since ids are distinct, the lookup returns exactly the record carrying
      the id, and fails exactly for ids outside the catalogue. */
  lemma LookupExact(id: string)
    ensures Lookup(id).Some? <==> exists i :: 0 <= i < |Catalogue()| && Catalogue()[i].id == id
    ensures forall i :: 0 <= i < |Catalogue()| && Catalogue()[i].id == id ==> Lookup(id) == Some(Catalogue()[i])
    ensures Lookup(id).Some? ==> Lookup(id).value.id == id && Lookup(id).value in Catalogue()
  {
    CatalogueWellFormed();
    var c := Catalogue();
    var p := (q: Project) => q.id == id;
    forall i | 0 <= i < |c| && c[i].id == id
      ensures Lookup(id) == Some(c[i])
    {
      FindUnique(c, p, i);
    }
  }

  /** What a handler passes to `onProjectSelect`: `None` when the callback
      is not called, `Some(d)` when it is called with `d` (`Some(None)`
      is a call with null). */
  type Report = Option<Option<Project>>

  /** The report of `handleSelectProject(id)`: the callback is called only
      when it exists and the id names a catalogue record, and then with
      that record. */
  function SelectReport(id: string, hasCallback: bool): (r: Report)
    ensures r.Some? <==> hasCallback && exists i :: 0 <= i < |Catalogue()| && Catalogue()[i].id == id
    ensures r.Some? ==> r.value.Some? && r.value.value in Catalogue() && r.value.value.id == id
  {
    LookupExact(id);
    var project := Lookup(id);
    if hasCallback && project.Some? then Some(project) else None
  }

  /** The report of `handleBackToList()`: a call with null, if the callback
      exists. */
  function BackReport(hasCallback: bool): (r: Report)
    ensures r.Some? <==> hasCallback
    ensures r.Some? ==> r.value.None?
  {
    if hasCallback then Some(None) else None
  }

  /** What the panel renders. `Detail` without a record is the state in
      which the source would read `.title` of undefined. */
  datatype View = ListView | DetailView(record: Option<Project>)

  /** The list/detail branch on `!selectedProject`, and the detail view's
      `selectedProjectData`. */
  function ViewOf(selected: Option<string>): (v: View)
    ensures v.ListView? <==> !Truthy(selected)
    ensures v.DetailView? ==> v.record == Lookup(selected.value)
  {
    if !Truthy(selected) then ListView else DetailView(Lookup(selected.value))
  }

  /** `handleSelectProject` stores whatever id it is given. An id outside
      the catalogue tells the parent nothing and opens the detail view with
      no record, the state in which the source reads `.title` of undefined;
      the empty id is falsy and keeps the list. */
  lemma UnknownSelection(id: string)
    requires forall i :: 0 <= i < |Catalogue()| ==> Catalogue()[i].id != id
    ensures SelectReport(id, true) == None
    ensures id != "" ==> ViewOf(Some(id)) == DetailView(None)
    ensures id == "" ==> ViewOf(Some(id)) == ListView
  {
    LookupExact(id);
  }

  /** The state every click keeps: nothing selected, or a catalogue id. */
  predicate SelectionFromCatalogue(selected: Option<string>) {
    selected.None? || exists i :: 0 <= i < |Catalogue()| && Catalogue()[i].id == selected.value
  }

  /** For selections made by clicking a card, the list shows exactly when
      nothing is selected, and the detail view always finds its record,
      the one with the selected id. */
  lemma ViewOfCatalogueSelection(selected: Option<string>)
    requires SelectionFromCatalogue(selected)
    ensures ViewOf(selected).ListView? <==> selected.None?
    ensures ViewOf(selected).DetailView? ==>
      ViewOf(selected).record.Some? && ViewOf(selected).record.value.id == selected.value
  {
    CatalogueWellFormed();
    if selected.Some? {
      LookupExact(selected.value);
    }
  }

  /** The mounted Projects component. It is remounted (and so starts with
      nothing selected) each time the Projects section is entered. */
  class ProjectsComponent {
    var selectedProject: Option<string>

    predicate Valid()
      reads this
    {
      SelectionFromCatalogue(selectedProject)
    }

    constructor ()
      ensures selectedProject == None
      ensures Valid()
    {
      selectedProject := None;
    }

    /** `handleSelectProject(projectId)`: records the id and reports the
        matching record to the parent. */
    method HandleSelectProject(projectId: string, hasCallback: bool) returns (report: Report)
      modifies this
      ensures selectedProject == Some(projectId)
      ensures report == SelectReport(projectId, hasCallback)
    {
      var project := Lookup(projectId);
      selectedProject := Some(projectId);
      if hasCallback && project.Some? {
        report := Some(project);
      } else {
        report := None;
      }
    }

    /** A click on the card of the `index`-th project in the list. */
    method ClickCard(index: nat, hasCallback: bool) returns (report: Report)
      requires index < |Catalogue()|
      modifies this
      ensures selectedProject == Some(Catalogue()[index].id)
      ensures Valid()
      ensures hasCallback ==> report == Some(Some(Catalogue()[index]))
      ensures !hasCallback ==> report == None
    {
      report := HandleSelectProject(Catalogue()[index].id, hasCallback);
      LookupExact(Catalogue()[index].id);
    }

    /** `handleBackToList()`: clears the selection and reports null. */
    method HandleBackToList(hasCallback: bool) returns (report: Report)
      modifies this
      ensures selectedProject == None
      ensures Valid()
      ensures report == BackReport(hasCallback)
    {
      selectedProject := None;
      if hasCallback {
        report := Some(None);
      } else {
        report := None;
      }
    }

    /** The view the component renders in its current state. */
    function CurrentView(): (v: View)
      reads this
      requires Valid()
      ensures v.ListView? <==> selectedProject.None?
      ensures v.DetailView? ==> v.record.Some? && v.record.value.id == selectedProject.value
    {
      ViewOfCatalogueSelection(selectedProject);
      ViewOf(selectedProject)
    }
  }
}
